/** How many frames an allocator has taken, and exactly which accesses it can still serve. */
module FrameCount {
  import opened Bits
  import opened VirtualMemory

  /** How many tables are placed before another frame is taken; a large table takes one each time. */
  function PerFrame(c: Config): Pos { if TablesFit(c) then Pow2(c.pageBits - c.pteBits) else 1 }

  /** Frames taken for `n` tables: one ahead, and another whenever the place is page aligned. */
  function TableFrames(c: Config, n: nat): nat { if n == 0 then 0 else 1 + Quotient(n, PerFrame(c)) }

  function FramesTaken(c: Config, s: State): nat { |s.pages| + TableFrames(c, |s.tables|) }

  /** All frames there are. */
  function Frames(c: Config): nat {
    if LastFrame(c) <= Reserve(c) then 0 else Quotient(LastFrame(c) - Reserve(c), PageSize(c))
  }

  // ---------------------------------------------------------------- arithmetic

  lemma NextCount(n: nat, k: Pos)
    ensures if Remainder(n, k) + 1 < k
            then Remainder(n + 1, k) == Remainder(n, k) + 1 && Quotient(n + 1, k) == Quotient(n, k)
            else Remainder(n + 1, k) == 0 && Quotient(n + 1, k) == Quotient(n, k) + 1
  {
    Divided(n, k);
    var q, r := Quotient(n, k), Remainder(n, k);
    if r + 1 < k {
      Unique(n + 1, k, q, r + 1);
    } else {
      assert (q + 1) * k == q * k + k;
      Unique(n + 1, k, q + 1, 0);
    }
  }

  lemma AlignedTimes(a: nat, m: nat, p: Pos)
    requires Aligned(a, p)
    ensures a + m * p >= 0 && Aligned(a + m * p, p)
  {
    ProductSign(m, p);
    assert a + m * p == (a / p + m) * p;
    DivUnique(a + m * p, p, a / p + m, 0);
  }

  lemma FitsBelow(m: nat, p: Pos, d: nat)
    ensures m * p + p <= d <==> m < Quotient(d, p)
  {
    Divided(d, p);
    BelowMultiple(Quotient(d, p), p, Remainder(d, p), m + 1);
    assert (m + 1) * p == m * p + p;
  }

  lemma ReserveAligned(c: Config)
    ensures Aligned(Reserve(c), PageSize(c))
  {
    InitialInv(c);
  }

  /** A frame is left exactly while fewer than all have been taken. */
  lemma AvailableAt(c: Config, s: State, m: nat)
    requires s.nextFrame == Reserve(c) + m * PageSize(c)
    ensures Available(c, s) <==> m < Frames(c)
  {
    ProductSign(m, PageSize(c));
    if LastFrame(c) > Reserve(c) {
      FitsBelow(m, PageSize(c), LastFrame(c) - Reserve(c));
    }
  }

  /** Inside a frame of fitting tables. */
  lemma NextInside(x: nat, z: Pos, k: Pos, r: nat)
    requires k * z > 0 && r < k && x % (k * z) == r * z
    ensures if r + 1 < k then (x + z) % (k * z) == (r + 1) * z else (x + z) % (k * z) == 0
  {
    var p: Pos := k * z;
    var q := x / p;
    assert x == q * p + r * z;
    assert (r + 1) * z == r * z + z;
    if r + 1 < k {
      ProductOrder(r + 1, k, z);
      DivUnique(x + z, p, q, (r + 1) * z);
    } else {
      assert (q + 1) * p == q * p + p;
      DivUnique(x + z, p, q + 1, 0);
    }
  }

  /** Where the place for the next table stands in its frame. */
  lemma NextPlaceCounted(c: Config, x: nat, n: nat)
    requires x % PageSize(c) == Remainder(n, PerFrame(c)) * TableSize(c)
    ensures Aligned(x + TableSize(c), PageSize(c)) <==> Remainder(n + 1, PerFrame(c)) == 0
    ensures !Aligned(x + TableSize(c), PageSize(c)) ==>
              (x + TableSize(c)) % PageSize(c) == Remainder(n + 1, PerFrame(c)) * TableSize(c)
  {
    NextCount(n, PerFrame(c));
    if TablesFit(c) {
      SizesFit(c);
      NextInside(x, TableSize(c), PerFrame(c), Remainder(n, PerFrame(c)));
      ProductSign(Remainder(n + 1, PerFrame(c)), TableSize(c));
    } else {
      LargeTablePageAligned(c, x);
    }
  }

  // ---------------------------------------------------------------- every run

  ghost predicate Counted(c: Config, s: State) {
    && s.nextFrame == Reserve(c) + FramesTaken(c, s) * PageSize(c)
    && (s.nextTable == 0 <==> |s.tables| == 0)
    && s.nextTable % PageSize(c) == Remainder(|s.tables|, PerFrame(c)) * TableSize(c)
  }

  /** Between taking the first frame for tables and placing a table there. */
  ghost predicate CountedBegun(c: Config, b: State) {
    && b.nextFrame == Reserve(c) + (|b.pages| + 1 + Quotient(|b.tables|, PerFrame(c))) * PageSize(c)
    && b.nextTable != 0
    && b.nextTable % PageSize(c) == Remainder(|b.tables|, PerFrame(c)) * TableSize(c)
  }

  lemma OneMore(m: nat, p: Pos)
    ensures (m + 1) * p == m * p + p
  {
  }

  lemma TranslateCounted(c: Config, s: State, cpu: nat, vaddr: nat)
    requires Counted(c, s) && Available(c, s)
    ensures Counted(c, Translate(c, s, cpu, vaddr).0)
  {
    var t := Translate(c, s, cpu, vaddr).0;
    hide SpliceBits;
    OneMore(FramesTaken(c, s), PageSize(c));
    if PageOf(c, cpu, vaddr) !in s.pages {
      assert |t.pages| == |s.pages| + 1;
    }
  }

  lemma NoneOf(k: Pos)
    ensures Quotient(0, k) == 0 && Remainder(0, k) == 0
  {
    Unique(0, k, 0, 0);
  }

  lemma BegunCounted(c: Config, s: State)
    requires Counted(c, s)
    ensures CountedBegun(c, Begun(c, s))
  {
    if s.nextTable == 0 {
      NoneOf(PerFrame(c));
      ReserveAligned(c);
      AlignedTimes(Reserve(c), FramesTaken(c, s), PageSize(c));
      OneMore(FramesTaken(c, s), PageSize(c));
    }
  }

  lemma AdvancedCounted(c: Config, b: State, key: TableKey)
    requires CountedBegun(c, b) && key !in b.tables
    ensures Counted(c, Advanced(c, AddTable(c, b, key)))
  {
    hide Quotient, Remainder, PerFrame, Reserve, PageSize, TableSize;
    var n, a := |b.tables|, AddTable(c, b, key);
    assert |a.tables| == n + 1;
    NextCount(n, PerFrame(c));
    NextPlaceCounted(c, b.nextTable, n);
    var m := |b.pages| + 1 + Quotient(n, PerFrame(c));
    ReserveAligned(c);
    AlignedTimes(Reserve(c), m, PageSize(c));
    OneMore(m, PageSize(c));
  }

  lemma WalkCounted(c: Config, s: State, cpu: nat, vaddr: nat, level: nat)
    requires Counted(c, s) && CanWalk(c, s, cpu, vaddr, level)
    ensures Counted(c, Walk(c, s, cpu, vaddr, level).0)
  {
    hide SpliceBits, TableOf, Offset;
    var key := TableOf(c, cpu, vaddr, level);
    BegunCounted(c, s);
    if key !in s.tables {
      AdvancedCounted(c, Begun(c, s), key);
    }
  }

  lemma {:induction false} RunCounted(c: Config, s: State, run: seq<Access>)
    requires Counted(c, s) && Legal(c, s, run)
    ensures Counted(c, Run(c, s, run))
    decreases |run|
  {
    hide Counted;
    if run != [] {
      match run[0] {
        case Data(cpu, vaddr) => TranslateCounted(c, s, cpu, vaddr);
        case Entry(cpu, vaddr, level) => WalkCounted(c, s, cpu, vaddr, level);
      }
      RunCounted(c, Apply(c, s, run[0]).0, run[1..]);
    }
  }

  lemma InitialCounted(c: Config)
    ensures Counted(c, Initial(c))
  {
    NoneOf(PerFrame(c));
  }

  /** On every run the next frame follows one frame for each page, and those for the tables. */
  lemma FramesCounted(c: Config, run: seq<Access>)
    requires Legal(c, Initial(c), run)
    ensures var s := Run(c, Initial(c), run);
            s.nextFrame == Reserve(c) + (|s.pages| + TableFrames(c, |s.tables|)) * PageSize(c)
  {
    hide Reserve, PageSize, TableSize, PerFrame, Quotient, Remainder;
    InitialCounted(c);
    RunCounted(c, Initial(c), run);
  }

  // ---------------------------------------------------------------- what can still be served

  lemma EntryNeeds(c: Config, s: State, cpu: nat, vaddr: nat, level: nat)
    requires Counted(c, s) && FramesTaken(c, s) <= Frames(c) && level >= 1
    ensures CanWalk(c, s, cpu, vaddr, level) <==>
              || TableOf(c, cpu, vaddr, level) in s.tables
              || |s.pages| + TableFrames(c, |s.tables| + 1) <= Frames(c)
  {
    hide TableOf;
    var key, n, k := TableOf(c, cpu, vaddr, level), |s.tables|, PerFrame(c);
    var b := Begun(c, s);
    BegunCounted(c, s);
    AvailableAt(c, s, FramesTaken(c, s));
    AvailableAt(c, b, |s.pages| + 1 + Quotient(n, k));
    NextPlaceCounted(c, b.nextTable, n);
    NextCount(n, k);
    NoneOf(k);
    hide PerFrame, Quotient, Remainder, Reserve, Frames, Available, Aligned, CountedBegun;
  }

  /** No step takes a frame that is not there. */
  lemma ApplyWithin(c: Config, s: State, a: Access)
    requires Counted(c, s) && FramesTaken(c, s) <= Frames(c) && Allowed(c, s, a)
    ensures FramesTaken(c, Apply(c, s, a).0) <= Frames(c)
  {
    hide SpliceBits, TableOf, Offset;
    match a
    case Data(cpu, vaddr) =>
      AvailableAt(c, s, FramesTaken(c, s));
      assert |s.pages[PageOf(c, cpu, vaddr) := s.nextFrame]| <= |s.pages| + 1;
    case Entry(cpu, vaddr, level) =>
      EntryNeeds(c, s, cpu, vaddr, level);
      var key := TableOf(c, cpu, vaddr, level);
      assert key !in s.tables ==> |s.tables[key := Begun(c, s).nextTable]| == |s.tables| + 1;
  }

  lemma {:induction false} RunWithin(c: Config, s: State, run: seq<Access>)
    requires Counted(c, s) && FramesTaken(c, s) <= Frames(c) && Legal(c, s, run)
    ensures Counted(c, Run(c, s, run)) && FramesTaken(c, Run(c, s, run)) <= Frames(c)
    decreases |run|
  {
    hide Counted, Apply, FramesTaken;
    if run != [] {
      ApplyWithin(c, s, run[0]);
      RunCounted(c, s, [run[0]]);
      assert Legal(c, Apply(c, s, run[0]).0, []);
      assert [run[0]][1..] == [];
      RunWithin(c, Apply(c, s, run[0]).0, run[1..]);
    }
  }

  /**
   * After any run, exactly: a translation needs a frame to be left, even for a page that is mapped already, while
   * a table entry needs one only where its table is new and no placed frame has room.
   */
  lemma AllowedExactly(c: Config, run: seq<Access>, a: Access)
    requires Legal(c, Initial(c), run)
    ensures var s := Run(c, Initial(c), run);
            && |s.pages| + TableFrames(c, |s.tables|) <= Frames(c)
            && match a
               case Data(_, _) => Allowed(c, s, a) <==> |s.pages| + TableFrames(c, |s.tables|) < Frames(c)
               case Entry(cpu, vaddr, level) =>
                 level >= 1 ==>
                   (Allowed(c, s, a) <==>
                     || TableOf(c, cpu, vaddr, level) in s.tables
                     || |s.pages| + TableFrames(c, |s.tables| + 1) <= Frames(c))
  {
    InitialCounted(c);
    RunWithin(c, Initial(c), run);
    var s := Run(c, Initial(c), run);
    match a
    case Data(_, _) => AvailableAt(c, s, FramesTaken(c, s));
    case Entry(cpu, vaddr, level) =>
      if level >= 1 {
        EntryNeeds(c, s, cpu, vaddr, level);
      }
  }

  // ---------------------------------------------------------------- a mapped page refused

  /** Translate the pages from `i` up to `n` of processor 0. */
  ghost function Touch(c: Config, i: nat, n: nat): seq<Access>
    decreases n - i
  {
    if i >= n then [] else
      ProductSign(i, PageSize(c));
      [Data(0, i * PageSize(c))] + Touch(c, i + 1, n)
  }

  /** The first `i` pages of processor 0 are mapped, and nothing else. */
  ghost predicate FirstPages(c: Config, s: State, i: nat) {
    && Counted(c, s) && s.tables == map[] && |s.pages| == i
    && forall k :: k in s.pages <==> k.0 == 0 && 0 <= k.1 < i
  }

  lemma TouchNext(c: Config, s: State, i: nat)
    requires FirstPages(c, s, i) && i < Frames(c)
    ensures i * PageSize(c) >= 0 && Allowed(c, s, Data(0, i * PageSize(c)))
    ensures FirstPages(c, Apply(c, s, Data(0, i * PageSize(c))).0, i + 1)
  {
    ProductSign(i, PageSize(c));
    AvailableAt(c, s, i);
    DivUnique(i * PageSize(c), PageSize(c), i, 0);
    TranslateCounted(c, s, 0, i * PageSize(c));
    hide SpliceBits, Counted;
    var t := Apply(c, s, Data(0, i * PageSize(c))).0;
    assert t.pages == s.pages[(0, i) := s.nextFrame];
  }

  lemma {:induction false} TouchAll(c: Config, s: State, i: nat, n: nat)
    requires FirstPages(c, s, i) && i <= n <= Frames(c)
    ensures Legal(c, s, Touch(c, i, n)) && FirstPages(c, Run(c, s, Touch(c, i, n)), n)
    decreases n - i
  {
    if i < n {
      TouchNext(c, s, i);
      hide FirstPages, Apply, Allowed;
      var a := Data(0, i * PageSize(c));
      TouchAll(c, Apply(c, s, a).0, i + 1, n);
      assert ([a] + Touch(c, i + 1, n))[1..] == Touch(c, i + 1, n);
    }
  }

  /** After `run`, page 0 of processor 0 is mapped, and yet translating an address in it trips the assertion. */
  ghost predicate RefusesMapped(c: Config, run: seq<Access>) {
    && Legal(c, Initial(c), run)
    && var t := Run(c, Initial(c), run);
       PageOf(c, 0, 0) in t.pages && !Allowed(c, t, Data(0, 0))
  }

  /** A mapped page can be refused exactly where there is a frame at all, and only once all frames are taken. */
  lemma MappedRefusedExactly(c: Config)
    ensures (exists run :: RefusesMapped(c, run)) <==> Frames(c) > 0
    ensures forall run :: RefusesMapped(c, run) ==>
              var t := Run(c, Initial(c), run); |t.pages| + TableFrames(c, |t.tables|) == Frames(c)
  {
    InitialCounted(c);
    if Frames(c) > 0 {
      assert FirstPages(c, Initial(c), 0);
      var run := Touch(c, 0, Frames(c));
      TouchAll(c, Initial(c), 0, Frames(c));
      DivUnique(0, PageSize(c), 0, 0);
      AllowedExactly(c, run, Data(0, 0));
      assert RefusesMapped(c, run);
    }
    forall run | RefusesMapped(c, run)
      ensures Frames(c) > 0
      ensures var t := Run(c, Initial(c), run); |t.pages| + TableFrames(c, |t.tables|) == Frames(c)
    {
      AllowedExactly(c, run, Data(0, 0));
      assert |Run(c, Initial(c), run).pages| > 0;
    }
  }

  /** Every allocator that can be built has a frame. */
  lemma AdmissibleHasFrames(c: Config)
    requires Admissible(c)
    ensures Frames(c) > 0
  {
    Pow2Sum(LevelBits(c) * c.levels, c.pageBits);
    var k := Pow2(LevelBits(c) * c.levels);
    DivUnique(k * PageSize(c), PageSize(c), k, 0);
    ReserveAligned(c);
    AlignedApart(Reserve(c), LastFrame(c), PageSize(c));
    FitsBelow(0, PageSize(c), LastFrame(c) - Reserve(c));
  }
}
