/** Which accesses of the virtual memory pay for a new mapping, and which address bits each table level uses. */
module PageFaults {
  import opened Bits
  import opened VirtualMemory

  // ---------------------------------------------------------------- the penalty

  /** The penalties returned along a run. */
  ghost function Penalties(c: Config, s: State, run: seq<Access>): (r: seq<nat>)
    requires Legal(c, s, run)
    ensures |r| == |run|
    decreases |run|
  {
    if run == [] then [] else
      var o := Apply(c, s, run[0]);
      [o.2] + Penalties(c, o.0, run[1..])
  }

  /** The address above the bits of the lower levels. */
  function Prefix(c: Config, vaddr: nat, level: nat): nat
    requires c.pteBits >= 3 && level >= 1
  {
    Quotient(vaddr, Pow2(c.pageBits + (c.pteBits - 3) * (level - 1)))
  }

  /** Two data accesses of one page, or two walks that meet in one entry. */
  predicate Same(c: Config, a: Access, b: Access)
    requires c.pteBits >= 3
  {
    if a.Data? then
      b.Data? && a.cpu == b.cpu && Quotient(a.vaddr, Pow2(c.pageBits)) == Quotient(b.vaddr, Pow2(c.pageBits))
    else
      && b.Entry? && a.level >= 1 && a.cpu == b.cpu && a.level == b.level
      && Prefix(c, a.vaddr, a.level) == Prefix(c, b.vaddr, b.level)
  }

  ghost predicate Known(c: Config, s: State, a: Access) {
    match a
    case Data(cpu, vaddr) => PageOf(c, cpu, vaddr) in s.pages
    case Entry(cpu, vaddr, level) => level >= 1 && TableOf(c, cpu, vaddr, level) in s.tables
  }

  lemma ApplyKnows(c: Config, s: State, a: Access, b: Access)
    requires c.pteBits >= 3 && Allowed(c, s, a)
    ensures Known(c, Apply(c, s, a).0, b) <==> Known(c, s, b) || Same(c, a, b)
    ensures Apply(c, s, a).2 == if Known(c, s, a) then 0 else c.penalty
  {
    hide SpliceBits, Pow2, Aligned;
    assert LevelBits(c) == c.pteBits - 3;
  }

  lemma {:induction false} PenaltyFrom(c: Config, s: State, run: seq<Access>, i: nat)
    requires c.pteBits >= 3 && Legal(c, s, run) && i < |run|
    ensures Penalties(c, s, run)[i] ==
              if Known(c, s, run[i]) || exists j :: 0 <= j < i && Same(c, run[j], run[i]) then 0 else c.penalty
    decreases |run|
  {
    hide Known, Same, Apply, Allowed;
    ApplyKnows(c, s, run[0], run[i]);
    if i > 0 {
      var o := Apply(c, s, run[0]);
      var rest := run[1..];
      PenaltyFrom(c, o.0, rest, i - 1);
      assert rest[i - 1] == run[i];
      if j :| 0 <= j < i && Same(c, run[j], run[i]) {
        assert j > 0 ==> rest[j - 1] == run[j];
      }
      assert forall j :: 0 <= j < i - 1 ==> rest[j] == run[j + 1];
    }
  }

  /** On every run exactly the first access of a page, and of an entry, pays the penalty. */
  lemma PenaltyExactly(c: Config, run: seq<Access>, i: nat)
    requires c.pteBits >= 3 && Legal(c, Initial(c), run) && i < |run|
    ensures Penalties(c, Initial(c), run)[i] ==
              if exists j :: 0 <= j < i && Same(c, run[j], run[i]) then 0 else c.penalty
  {
    PenaltyFrom(c, Initial(c), run, i);
    hide Same;
  }

  // ---------------------------------------------------------------- the bits of a level

  lemma {:induction false} LevelSplits(c: Config, vaddr: nat, level: nat)
    requires c.pteBits >= 3 && level >= 1
    ensures Prefix(c, vaddr, level) ==
              Prefix(c, vaddr, level + 1) * Pow2(c.pteBits - 3) + Offset(c, vaddr, level)
  {
    var a, b := c.pageBits + (c.pteBits - 3) * (level - 1), c.pteBits - 3;
    assert c.pageBits + (c.pteBits - 3) * (level + 1 - 1) == a + b;
    Pow2Sum(a, b);
    DivDiv(vaddr, Pow2(a), Pow2(b));
    hide Pow2;
    QuotientExists(vaddr, Pow2(a));
    Divided(vaddr / Pow2(a), Pow2(b));
  }

  /** The offsets of all levels are the page number, cut into pieces: no bit is left out, or used twice. */
  lemma {:induction false} OffsetsMakePrefix(c: Config, u: nat, v: nat, level: nat, top: nat)
    requires c.pteBits >= 3 && 1 <= level <= top && Prefix(c, u, top) == Prefix(c, v, top)
    ensures (forall l :: level <= l < top ==> Offset(c, u, l) == Offset(c, v, l)) <==>
            Prefix(c, u, level) == Prefix(c, v, level)
    decreases top - level
  {
    hide Offset, Prefix, Pow2;
    if level < top {
      LevelSplits(c, u, level);
      LevelSplits(c, v, level);
      OffsetsMakePrefix(c, u, v, level + 1, top);
      var m: Pos := Pow2(c.pteBits - 3);
      assert LevelBits(c) == c.pteBits - 3;
      assert Offset(c, u, level) < m && Offset(c, v, level) < m;
      if Prefix(c, u, level) == Prefix(c, v, level) {
        Unique(Prefix(c, u, level), m, Prefix(c, u, level + 1), Offset(c, u, level));
        Unique(Prefix(c, v, level), m, Prefix(c, v, level + 1), Offset(c, v, level));
      }
    }
  }

  /** The bits of one level. */
  function Field(c: Config, vaddr: nat, level: nat): nat
    requires c.pteBits >= 3 && level >= 1
  {
    Remainder(Prefix(c, vaddr, level), Pow2(c.pteBits - 3))
  }

  lemma OffsetIsField(c: Config, vaddr: nat, level: nat)
    requires c.pteBits >= 3 && level >= 1
    ensures Offset(c, vaddr, level) == Field(c, vaddr, level)
  {
    hide Pow2;
  }

  /**
   * On every run a table entry lies at eight times its level's bits within its table, and two entries share a table
   * exactly if processor, level and everything above the lower levels agree. Those are the bits of the entry as
   * well, so a table never holds more than one entry that is used.
   */
  lemma EntryBits(c: Config, run: seq<Access>, i: nat, j: nat)
    requires TablesFit(c) && c.pteBits >= 3 && Legal(c, Initial(c), run) && i < |run| && j < |run|
    requires run[i].Entry? && run[j].Entry? && run[i].level >= 1 && run[j].level >= 1
    ensures var r, a, b := Results(c, Initial(c), run), run[i], run[j];
            && r[i] % Pow2(c.pteBits) == Field(c, a.vaddr, a.level) * 8
            && (r[i] / Pow2(c.pteBits) == r[j] / Pow2(c.pteBits) <==>
                a.cpu == b.cpu && a.level == b.level && Prefix(c, a.vaddr, a.level) == Prefix(c, b.vaddr, b.level))
            && (r[i] / Pow2(c.pteBits) == r[j] / Pow2(c.pteBits) ==> r[i] == r[j])
  {
    var r := Results(c, Initial(c), run);
    EntryAddresses(c, run, i, j);
    EntryAddresses(c, run, j, i);
    OffsetIsField(c, run[i].vaddr, run[i].level);
    OffsetIsField(c, run[j].vaddr, run[j].level);
    hide Pow2, Field, Offset, Legal, Results;
    assert LevelBits(c) == c.pteBits - 3;
    QuotientExists(r[i], Pow2(c.pteBits));
    QuotientExists(r[j], Pow2(c.pteBits));
  }

  /** Within the address range, the entries of a whole walk agree exactly for addresses of one page. */
  lemma WalkDeterminesPage(c: Config, u: nat, v: nat)
    requires c.pteBits >= 3
    requires u < Pow2(c.pageBits + (c.pteBits - 3) * c.levels) && v < Pow2(c.pageBits + (c.pteBits - 3) * c.levels)
    ensures (forall l :: 1 <= l <= c.levels ==> Field(c, u, l) == Field(c, v, l)) <==>
            Quotient(u, Pow2(c.pageBits)) == Quotient(v, Pow2(c.pageBits))
  {
    var top := c.levels + 1;
    SmallDiv(u, Pow2(c.pageBits + (c.pteBits - 3) * c.levels));
    SmallDiv(v, Pow2(c.pageBits + (c.pteBits - 3) * c.levels));
    assert Prefix(c, u, top) == 0 == Prefix(c, v, top);
    assert c.pageBits + (c.pteBits - 3) * (1 - 1) == c.pageBits;
    OffsetsMakePrefix(c, u, v, 1, top);
    forall l: nat | 1 <= l ensures Offset(c, u, l) == Field(c, u, l) && Offset(c, v, l) == Field(c, v, l) {
      OffsetIsField(c, u, l);
      OffsetIsField(c, v, l);
    }
    hide Offset, Field, Pow2;
  }
}
