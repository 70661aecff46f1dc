/** Physical frame allocation for pages and page tables. */
module VirtualMemory {
  import opened Bits

  /** Sizes are powers of two; a page table entry takes eight bytes. */
  datatype Config = Config(pageBits: nat, pteBits: nat, levels: nat, penalty: nat)

  type PageKey = (int, int)
  type TableKey = (int, int, int)

  /** A `nextTable` of 0 means that no frame has been taken for tables yet. */
  datatype State = State(pages: map<PageKey, nat>, tables: map<TableKey, nat>, nextTable: nat, nextFrame: nat)

  function PageSize(c: Config): Pos { Pow2(c.pageBits) }

  function TableSize(c: Config): Pos { Pow2(c.pteBits) }

  /** What the constructor asserts, with 10-bit tables as the smallest. */
  predicate Admissible(c: Config) { c.pteBits > 10 && LastFrame(c) > Reserve(c) }

  function Reserve(c: Config): Pos { if PageSize(c) > Pow2(20) then PageSize(c) else Pow2(20) }

  /** `lg2(pte_page_size / PTE_BYTES)` address bits per level. */
  function LevelBits(c: Config): nat { if c.pteBits >= 3 then c.pteBits - 3 else 0 }

  function LastFrame(c: Config): nat { Pow2(c.pageBits + LevelBits(c) * c.levels) }

  function Initial(c: Config): State { State(map[], map[], 0, Reserve(c)) }

  /** `available_ppages() > 0`. */
  predicate Available(c: Config, s: State) { s.nextFrame + PageSize(c) <= LastFrame(c) }

  function Pop(c: Config, s: State): State { s.(nextFrame := s.nextFrame + PageSize(c)) }

  // ---------------------------------------------------------------- translation

  function PageOf(c: Config, cpu: nat, vaddr: nat): PageKey { (cpu, vaddr / PageSize(c)) }

  /** `va_to_pa`: asks for a frame first, and takes it only for a new page. */
  function Translate(c: Config, s: State, cpu: nat, vaddr: nat): (r: (State, nat, nat))
    requires Available(c, s)
  {
    var key := PageOf(c, cpu, vaddr);
    if key in s.pages then (s, SpliceBits(s.pages[key], vaddr, c.pageBits), 0)
    else
      (Pop(c, s.(pages := s.pages[key := s.nextFrame])), SpliceBits(s.nextFrame, vaddr, c.pageBits), c.penalty)
  }

  // ---------------------------------------------------------------- page tables

  function Shift(c: Config, level: nat): nat
    requires level >= 1
  {
    c.pageBits + LevelBits(c) * (level - 1)
  }

  function Offset(c: Config, vaddr: nat, level: nat): (o: nat)
    requires level >= 1
    ensures o < Pow2(LevelBits(c))
  {
    vaddr / Pow2(Shift(c, level)) % Pow2(LevelBits(c))
  }

  function TableOf(c: Config, cpu: nat, vaddr: nat, level: nat): TableKey
    requires level >= 1
  {
    (cpu, vaddr / Pow2(Shift(c, level)), level)
  }

  /** The first walk takes a frame for tables. */
  function Begun(c: Config, s: State): State {
    if s.nextTable == 0 then Pop(c, s.(nextTable := s.nextFrame)) else s
  }

  function AddTable(c: Config, s: State, key: TableKey): State {
    s.(tables := s.tables[key := s.nextTable], nextTable := s.nextTable + TableSize(c))
  }

  /** A new table moves to the next place, and to a new frame once the place is page aligned. */
  function Advanced(c: Config, s: State): State {
    if Aligned(s.nextTable, PageSize(c)) then Pop(c, s.(nextTable := s.nextFrame)) else s
  }

  /** Whether every frame that `get_pte_pa` asks for is available. */
  predicate CanWalk(c: Config, s: State, cpu: nat, vaddr: nat, level: nat) {
    && level >= 1
    && (s.nextTable == 0 ==> Available(c, s))
    && var b := Begun(c, s);
       var key := TableOf(c, cpu, vaddr, level);
       key in b.tables || (Aligned(AddTable(c, b, key).nextTable, PageSize(c)) ==> Available(c, b))
  }

  /** `get_pte_pa`: the address of the page table entry. */
  function Walk(c: Config, s: State, cpu: nat, vaddr: nat, level: nat): (r: (State, nat, nat))
    requires CanWalk(c, s, cpu, vaddr, level)
  {
    var b := Begun(c, s);
    var key := TableOf(c, cpu, vaddr, level);
    var t := if key in b.tables then b else Advanced(c, AddTable(c, b, key));
    var table := if key in b.tables then b.tables[key] else b.nextTable;
    (t, SpliceBits(table, Offset(c, vaddr, level) * 8, c.pteBits), if key in b.tables then 0 else c.penalty)
  }

  // ---------------------------------------------------------------- the invariant

  ghost predicate FramesInv(c: Config, s: State) {
    && Aligned(s.nextFrame, PageSize(c)) && Reserve(c) <= s.nextFrame
    && (forall k :: k in s.pages ==>
          Aligned(s.pages[k], PageSize(c)) && Reserve(c) <= s.pages[k] && s.pages[k] + PageSize(c) <= s.nextFrame)
    && forall k, l :: k in s.pages && l in s.pages && k != l ==> s.pages[k] != s.pages[l]
  }

  ghost predicate TablePlace(c: Config, s: State, t: nat) {
    && Aligned(t, TableSize(c)) && Reserve(c) <= t && t + TableSize(c) <= s.nextFrame
    && forall k :: k in s.pages ==> s.pages[k] / PageSize(c) != t / PageSize(c)
  }

  /** Tables lie in frames of their own, in order, and the next place follows them all. */
  ghost predicate TablesInv(c: Config, s: State) {
    && (s.nextTable == 0 ==> s.tables == map[])
    && (s.nextTable != 0 ==> TablePlace(c, s, s.nextTable))
    && (forall k :: k in s.tables ==> TablePlace(c, s, s.tables[k]) && s.tables[k] + TableSize(c) <= s.nextTable)
    && forall k, l :: k in s.tables && l in s.tables && k != l ==> s.tables[k] != s.tables[l]
  }

  ghost predicate Inv(c: Config, s: State) { FramesInv(c, s) && TablesInv(c, s) }

  /** Tables are no larger than pages. */
  predicate TablesFit(c: Config) { c.pteBits <= c.pageBits }

  lemma SizesFit(c: Config)
    requires TablesFit(c)
    ensures var k: Pos := Pow2(c.pageBits - c.pteBits); PageSize(c) == k * TableSize(c)
    ensures TableSize(c) <= PageSize(c)
  {
    Pow2Divides(c.pteBits, c.pageBits);
    if c.pteBits < c.pageBits {
      Pow2Increases(c.pteBits, c.pageBits);
    }
  }

  lemma PageAlignedIsTableAligned(c: Config, a: nat)
    requires TablesFit(c) && Aligned(a, PageSize(c))
    ensures Aligned(a, TableSize(c))
  {
    SizesFit(c);
    AlignedProduct(a, TableSize(c), Pow2(c.pageBits - c.pteBits));
  }

  lemma EarlierFrame(a: nat, b: nat, m: Pos)
    requires Aligned(b, m) && a < b
    ensures a / m < b / m
  {
    assert a == a / m * m + a % m;
    ProductOrder(a / m, b / m, m);
  }

  lemma PopKeeps(c: Config, s: State)
    requires FramesInv(c, s)
    ensures FramesInv(c, Pop(c, s))
  {
    AlignedPlus(s.nextFrame, PageSize(c));
  }

  lemma PlaceLater(c: Config, s: State, t: nat, key: PageKey)
    requires FramesInv(c, s) && TablePlace(c, s, t)
    ensures TablePlace(c, Pop(c, s), t)
    ensures TablePlace(c, s.(pages := s.pages[key := s.nextFrame]), t)
  {
    EarlierFrame(t, s.nextFrame, PageSize(c));
  }

  lemma TranslateFrames(c: Config, s: State, key: PageKey)
    requires FramesInv(c, s) && key !in s.pages
    ensures FramesInv(c, Pop(c, s.(pages := s.pages[key := s.nextFrame])))
  {
    AlignedPlus(s.nextFrame, PageSize(c));
  }

  lemma TranslateTables(c: Config, s: State, key: PageKey)
    requires Inv(c, s) && key !in s.pages
    ensures TablesInv(c, Pop(c, s.(pages := s.pages[key := s.nextFrame])))
  {
    var t := s.(pages := s.pages[key := s.nextFrame]);
    forall x | TablePlace(c, s, x) ensures TablePlace(c, Pop(c, t), x) {
      PlaceLater(c, s, x, key);
      assert TablePlace(c, t, x);
    }
  }

  lemma TranslateKeeps(c: Config, s: State, cpu: nat, vaddr: nat)
    requires Inv(c, s) && Available(c, s)
    ensures Inv(c, Translate(c, s, cpu, vaddr).0)
  {
    var key := PageOf(c, cpu, vaddr);
    if key !in s.pages {
      TranslateFrames(c, s, key);
      TranslateTables(c, s, key);
    }
  }

  /** A frame just taken is a place for tables. */
  lemma FreshPlace(c: Config, s: State)
    requires FramesInv(c, s) && TablesFit(c)
    ensures TablePlace(c, Pop(c, s), s.nextFrame)
  {
    SizesFit(c);
    PageAlignedIsTableAligned(c, s.nextFrame);
    forall k | k in s.pages ensures s.pages[k] / PageSize(c) != s.nextFrame / PageSize(c) {
      EarlierFrame(s.pages[k], s.nextFrame, PageSize(c));
    }
  }

  lemma BegunKeeps(c: Config, s: State)
    requires Inv(c, s) && TablesFit(c)
    ensures Inv(c, Begun(c, s)) && Begun(c, s).nextTable != 0
  {
    if s.nextTable == 0 {
      PopKeeps(c, s);
      FreshPlace(c, s);
    }
  }

  lemma MultipleAligned(k: nat, m: Pos)
    ensures k * m >= 0 && Aligned(k * m, m)
  {
    DivUnique(k * m, m, k, 0);
  }

  lemma NextMultiple(q: nat, p: Pos, n: nat)
    requires q < n / p && Aligned(n, p)
    ensures 0 <= q * p + p <= n && Aligned(q * p + p, p)
  {
    MultipleAligned(q + 1, p);
    assert (q + 1) * p == q * p + p;
    assert (q + 1) * p <= n / p * p;
  }

  lemma FrameEnd(t: nat, n: nat, p: Pos)
    requires t < n && Aligned(n, p)
    ensures 0 <= t / p * p + p <= n && Aligned(t / p * p + p, p)
  {
    EarlierFrame(t, n, p);
    NextMultiple(t / p, p, n);
  }

  lemma StaysInFrame(t: nat, z: Pos, p: Pos, end: nat)
    requires end == t / p * p + p && Aligned(t, z) && Aligned(end, z) && Aligned(end, p)
    requires !Aligned(t + z, p)
    ensures t + z + z <= end && Aligned(t + z, z) && (t + z) / p == t / p
  {
    AlignedPlus(t, z);
    assert t == t / p * p + t % p;
    AlignedApart(t, end, z);
    assert t + z != end;
    AlignedApart(t + z, end, z);
    DivUnique(t + z, p, t / p, t + z - t / p * p);
  }

  /** Below the end of its frame, the next place is in the same frame and has room. */
  lemma NextPlace(c: Config, s: State, t: nat)
    requires FramesInv(c, s) && TablesFit(c) && TablePlace(c, s, t)
    requires !Aligned(t + TableSize(c), PageSize(c))
    ensures TablePlace(c, s, t + TableSize(c))
  {
    var p, z := PageSize(c), TableSize(c);
    FrameEnd(t, s.nextFrame, p);
    var end := t / p * p + p;
    PageAlignedIsTableAligned(c, end);
    hide Aligned;
    StaysInFrame(t, z, p, end);
  }

  lemma AddTableFrames(c: Config, s: State, key: TableKey)
    requires FramesInv(c, s)
    ensures FramesInv(c, Advanced(c, AddTable(c, s, key)))
  {
    assert FramesInv(c, AddTable(c, s, key));
    PopKeeps(c, AddTable(c, s, key));
    hide FramesInv;
  }

  lemma AddTableNewPlace(c: Config, s: State, key: TableKey)
    requires FramesInv(c, s) && TablesFit(c) && TablePlace(c, s, s.nextTable)
    ensures var t := Advanced(c, AddTable(c, s, key));
            TablePlace(c, t, t.nextTable) && t.nextTable >= s.nextTable + TableSize(c)
  {
    var a := AddTable(c, s, key);
    assert FramesInv(c, a);
    if Aligned(a.nextTable, PageSize(c)) {
      FreshPlace(c, a);
    } else {
      AddTableNext(c, s, key);
    }
  }

  lemma AddTableKeeps(c: Config, s: State, key: TableKey)
    requires Inv(c, s) && TablesFit(c) && s.nextTable != 0 && key !in s.tables
    ensures Inv(c, Advanced(c, AddTable(c, s, key)))
  {
    var t := Advanced(c, AddTable(c, s, key));
    AddTableFrames(c, s, key);
    AddTableNewPlace(c, s, key);
    AddTablePlaces(c, s, key);
    AddTableOrder(c, s, key, t);
    assert forall x :: TablePlace(c, s, x) ==> TablePlace(c, t, x);
    hide TablePlace;
    hide FramesInv;
    hide PageSize;
    hide TableSize;
    assert t.tables == s.tables[key := s.nextTable];
  }

  lemma AddTablePlaces(c: Config, s: State, key: TableKey)
    requires FramesInv(c, s)
    ensures forall x :: TablePlace(c, s, x) ==>
              TablePlace(c, AddTable(c, s, key), x) && TablePlace(c, Pop(c, AddTable(c, s, key)), x)
  {
    var a := AddTable(c, s, key);
    forall x | TablePlace(c, s, x) ensures TablePlace(c, a, x) && TablePlace(c, Pop(c, a), x) {
      assert TablePlace(c, a, x);
      PlaceLater(c, a, x, (0, 0));
    }
  }

  lemma AddTableNext(c: Config, s: State, key: TableKey)
    requires FramesInv(c, s) && TablesFit(c) && TablePlace(c, s, s.nextTable)
    requires !Aligned(AddTable(c, s, key).nextTable, PageSize(c))
    ensures TablePlace(c, AddTable(c, s, key), AddTable(c, s, key).nextTable)
  {
    NextPlace(c, s, s.nextTable);
  }

  lemma AddTableOrder(c: Config, s: State, key: TableKey, t: State)
    requires Inv(c, s) && s.nextTable != 0 && key !in s.tables
    requires t.tables == s.tables[key := s.nextTable] && t.nextTable >= s.nextTable + TableSize(c)
    ensures forall k :: k in t.tables ==> t.tables[k] + TableSize(c) <= t.nextTable
    ensures forall k, l :: k in t.tables && l in t.tables && k != l ==> t.tables[k] != t.tables[l]
  {
  }

  lemma WalkKeeps(c: Config, s: State, cpu: nat, vaddr: nat, level: nat)
    requires Inv(c, s) && TablesFit(c) && CanWalk(c, s, cpu, vaddr, level)
    ensures Inv(c, Walk(c, s, cpu, vaddr, level).0)
  {
    BegunKeeps(c, s);
    var key := TableOf(c, cpu, vaddr, level);
    if key !in Begun(c, s).tables {
      AddTableKeeps(c, Begun(c, s), key);
    }
  }

  // ---------------------------------------------------------------- runs

  datatype Access = Data(cpu: nat, vaddr: nat) | Entry(cpu: nat, vaddr: nat, level: nat)

  /** Frames remain for what the access takes. */
  predicate Allowed(c: Config, s: State, a: Access) {
    match a
    case Data(_, _) => Available(c, s)
    case Entry(cpu, vaddr, level) => CanWalk(c, s, cpu, vaddr, level)
  }

  function Apply(c: Config, s: State, a: Access): (r: (State, nat, nat))
    requires Allowed(c, s, a)
  {
    match a
    case Data(cpu, vaddr) => Translate(c, s, cpu, vaddr)
    case Entry(cpu, vaddr, level) => Walk(c, s, cpu, vaddr, level)
  }

  ghost predicate Legal(c: Config, s: State, run: seq<Access>)
    decreases |run|
  {
    run == [] || (Allowed(c, s, run[0]) && Legal(c, Apply(c, s, run[0]).0, run[1..]))
  }

  ghost function Run(c: Config, s: State, run: seq<Access>): State
    requires Legal(c, s, run)
    decreases |run|
  {
    if run == [] then s else Run(c, Apply(c, s, run[0]).0, run[1..])
  }

  /** The physical addresses returned along a run. */
  ghost function Results(c: Config, s: State, run: seq<Access>): (r: seq<nat>)
    requires Legal(c, s, run)
    ensures |r| == |run|
    decreases |run|
  {
    if run == [] then [] else
      var o := Apply(c, s, run[0]);
      [o.1] + Results(c, o.0, run[1..])
  }

  lemma ApplyKeeps(c: Config, s: State, a: Access)
    requires Inv(c, s) && TablesFit(c) && Allowed(c, s, a)
    ensures Inv(c, Apply(c, s, a).0)
  {
    hide Inv;
    match a
    case Data(cpu, vaddr) => TranslateKeeps(c, s, cpu, vaddr);
    case Entry(cpu, vaddr, level) => WalkKeeps(c, s, cpu, vaddr, level);
  }

  lemma InitialInv(c: Config)
    ensures Inv(c, Initial(c))
  {
    var k: Pos := Pow2(if c.pageBits <= 20 then 20 - c.pageBits else 0);
    if PageSize(c) <= Pow2(20) {
      if c.pageBits > 20 {
        Pow2Increases(20, c.pageBits);
      }
      Pow2Divides(c.pageBits, 20);
      MultipleAligned(k, PageSize(c));
    } else {
      MultipleAligned(1, PageSize(c));
    }
  }

  lemma {:induction false} RunKeeps(c: Config, s: State, run: seq<Access>)
    requires Inv(c, s) && TablesFit(c) && Legal(c, s, run)
    ensures Inv(c, Run(c, s, run))
    decreases |run|
  {
    hide Inv;
    if run != [] {
      ApplyKeeps(c, s, run[0]);
      RunKeeps(c, Apply(c, s, run[0]).0, run[1..]);
    }
  }

  /** Mappings are added, never changed or removed. */
  ghost predicate Extends(s: State, t: State) {
    && (forall k :: k in s.pages ==> k in t.pages && t.pages[k] == s.pages[k])
    && forall k :: k in s.tables ==> k in t.tables && t.tables[k] == s.tables[k]
  }

  /** What an access returns once its mapping exists. */
  ghost predicate Mapped(c: Config, s: State, a: Access, address: nat) {
    match a
    case Data(cpu, vaddr) =>
      var key := PageOf(c, cpu, vaddr);
      key in s.pages && address == SpliceBits(s.pages[key], vaddr, c.pageBits)
    case Entry(cpu, vaddr, level) =>
      level >= 1 &&
      var key := TableOf(c, cpu, vaddr, level);
      key in s.tables && address == SpliceBits(s.tables[key], Offset(c, vaddr, level) * 8, c.pteBits)
  }

  lemma ApplyExtends(c: Config, s: State, a: Access)
    requires Allowed(c, s, a)
    ensures Extends(s, Apply(c, s, a).0) && Mapped(c, Apply(c, s, a).0, a, Apply(c, s, a).1)
  {
    hide SpliceBits;
  }

  lemma MappedLater(c: Config, s: State, t: State, a: Access, address: nat)
    requires Mapped(c, s, a, address) && Extends(s, t)
    ensures Mapped(c, t, a, address)
  {
  }

  /** Every address returned on a run is what the final mappings say: translations are stable. */
  lemma {:induction false} ResultsStable(c: Config, s: State, run: seq<Access>, i: nat)
    requires Legal(c, s, run)
    ensures Extends(s, Run(c, s, run))
    ensures i < |run| ==> Mapped(c, Run(c, s, run), run[i], Results(c, s, run)[i])
    decreases |run|
  {
    hide Mapped;
    hide Apply;
    hide Allowed;
    if run != [] {
      var o := Apply(c, s, run[0]);
      ApplyExtends(c, s, run[0]);
      ResultsStable(c, o.0, run[1..], if i > 0 then i - 1 else 0);
      MappedLater(c, o.0, Run(c, s, run), run[0], o.1);
    }
  }

  // ---------------------------------------------------------------- what the addresses mean

  lemma SpliceAligned(upper: nat, lower: nat, bits: nat)
    requires Aligned(upper, Pow2(bits))
    ensures SpliceBits(upper, lower, bits) == upper + lower % Pow2(bits)
    ensures SpliceBits(upper, lower, bits) / Pow2(bits) == upper / Pow2(bits)
    ensures SpliceBits(upper, lower, bits) % Pow2(bits) == lower % Pow2(bits)
  {
    SameQuotient(upper, Pow2(bits), lower % Pow2(bits));
  }

  /** The offset within a page is preserved, and two data accesses share a frame exactly when they share a page. */
  lemma DataAddresses(c: Config, run: seq<Access>, i: nat, j: nat)
    requires TablesFit(c) && Legal(c, Initial(c), run) && i < |run| && j < |run|
    requires run[i].Data? && run[j].Data?
    ensures var r := Results(c, Initial(c), run);
            && r[i] % PageSize(c) == run[i].vaddr % PageSize(c)
            && (r[i] / PageSize(c) == r[j] / PageSize(c) <==>
                PageOf(c, run[i].cpu, run[i].vaddr) == PageOf(c, run[j].cpu, run[j].vaddr))
            && Reserve(c) <= r[i]
  {
    var t := Run(c, Initial(c), run);
    var r := Results(c, Initial(c), run);
    InitialInv(c);
    RunKeeps(c, Initial(c), run);
    ResultsStable(c, Initial(c), run, i);
    ResultsStable(c, Initial(c), run, j);
    PageAddress(c, t, run[i], r[i]);
    PageAddress(c, t, run[j], r[j]);
    var k, l := PageOf(c, run[i].cpu, run[i].vaddr), PageOf(c, run[j].cpu, run[j].vaddr);
    hide PageOf;
    hide Legal;
    if t.pages[k] / PageSize(c) == t.pages[l] / PageSize(c) {
      SameFrame(t.pages[k], t.pages[l], PageSize(c));
    }
  }

  lemma SameFrame(a: nat, b: nat, m: Pos)
    requires Aligned(a, m) && Aligned(b, m) && a / m == b / m
    ensures a == b
  {
    assert a == a / m * m + a % m && b == b / m * m + b % m;
  }

  lemma PageAddress(c: Config, t: State, a: Access, address: nat)
    requires FramesInv(c, t) && a.Data? && Mapped(c, t, a, address)
    ensures var frame := t.pages[PageOf(c, a.cpu, a.vaddr)];
            && address / PageSize(c) == frame / PageSize(c)
            && address % PageSize(c) == a.vaddr % PageSize(c)
            && frame <= address
  {
    SpliceAligned(t.pages[PageOf(c, a.cpu, a.vaddr)], a.vaddr, c.pageBits);
  }

  lemma EntryFits(c: Config, o: nat)
    requires c.pteBits >= 3 && o < Pow2(LevelBits(c))
    ensures o * 8 < TableSize(c)
  {
    Pow2Divides(3, c.pteBits);
    assert Pow2(3) == 8 by {
      assert Pow2(0) == 1 && Pow2(1) == 2 && Pow2(2) == 4;
    }
  }

  lemma InsideFrame(t: nat, x: nat, z: Pos, p: Pos, end: nat)
    requires end == t / p * p + p && Aligned(t, z) && Aligned(end, z) && x < z
    ensures (t + x) / p == t / p
  {
    assert t == t / p * p + t % p;
    AlignedApart(t, end, z);
    DivUnique(t + x, p, t / p, t + x - t / p * p);
  }

  /** Anything inside a table is inside the table's frame. */
  lemma InsideTable(c: Config, s: State, t: nat, x: nat)
    requires TablesFit(c) && FramesInv(c, s) && TablePlace(c, s, t) && x < TableSize(c)
    ensures (t + x) / TableSize(c) == t / TableSize(c) && (t + x) % TableSize(c) == x
    ensures (t + x) / PageSize(c) == t / PageSize(c)
  {
    var p, z := PageSize(c), TableSize(c);
    SameQuotient(t, z, x);
    FrameEnd(t, s.nextFrame, p);
    var end := t / p * p + p;
    PageAlignedIsTableAligned(c, end);
    hide Aligned;
    InsideFrame(t, x, z, p, end);
  }

  lemma EntryAddress(c: Config, t: State, a: Access, address: nat)
    requires Inv(c, t) && TablesFit(c) && c.pteBits >= 3 && a.Entry? && Mapped(c, t, a, address)
    ensures var table := t.tables[TableOf(c, a.cpu, a.vaddr, a.level)];
            && TablePlace(c, t, table)
            && address / TableSize(c) == table / TableSize(c)
            && address % TableSize(c) == Offset(c, a.vaddr, a.level) * 8
            && address / PageSize(c) == table / PageSize(c)
  {
    var table := t.tables[TableOf(c, a.cpu, a.vaddr, a.level)];
    var x := Offset(c, a.vaddr, a.level) * 8;
    EntryFits(c, Offset(c, a.vaddr, a.level));
    SmallMod(x, TableSize(c));
    SpliceAligned(table, x, c.pteBits);
    InsideTable(c, t, table, x);
  }

  lemma SmallMod(n: nat, m: Pos)
    requires n < m
    ensures n % m == n
  {
    DivUnique(n, m, 0, n);
  }

  /** Table entries share a table exactly when they share their prefix and level, and sit at their offset. */
  lemma EntryAddresses(c: Config, run: seq<Access>, i: nat, j: nat)
    requires TablesFit(c) && c.pteBits >= 3 && Legal(c, Initial(c), run) && i < |run| && j < |run|
    requires run[i].Entry? && run[j].Entry? && run[i].level >= 1 && run[j].level >= 1
    ensures var r := Results(c, Initial(c), run);
            && r[i] % TableSize(c) == Offset(c, run[i].vaddr, run[i].level) * 8
            && (r[i] / TableSize(c) == r[j] / TableSize(c) <==>
                TableOf(c, run[i].cpu, run[i].vaddr, run[i].level)
                == TableOf(c, run[j].cpu, run[j].vaddr, run[j].level))
  {
    var t := Run(c, Initial(c), run);
    var r := Results(c, Initial(c), run);
    InitialInv(c);
    RunKeeps(c, Initial(c), run);
    ResultsStable(c, Initial(c), run, i);
    ResultsStable(c, Initial(c), run, j);
    EntryAddress(c, t, run[i], r[i]);
    EntryAddress(c, t, run[j], r[j]);
    var k := TableOf(c, run[i].cpu, run[i].vaddr, run[i].level);
    var l := TableOf(c, run[j].cpu, run[j].vaddr, run[j].level);
    hide TableOf;
    hide Legal;
    if t.tables[k] / TableSize(c) == t.tables[l] / TableSize(c) {
      SameFrame(t.tables[k], t.tables[l], TableSize(c));
    }
  }

  /** No data access ever lands in a frame that holds page tables. */
  lemma DataAndTablesApart(c: Config, run: seq<Access>, i: nat, j: nat)
    requires TablesFit(c) && c.pteBits >= 3 && Legal(c, Initial(c), run) && i < |run| && j < |run|
    requires run[i].Data? && run[j].Entry?
    ensures Results(c, Initial(c), run)[i] / PageSize(c) != Results(c, Initial(c), run)[j] / PageSize(c)
  {
    var t := Run(c, Initial(c), run);
    var r := Results(c, Initial(c), run);
    InitialInv(c);
    RunKeeps(c, Initial(c), run);
    ResultsStable(c, Initial(c), run, i);
    ResultsStable(c, Initial(c), run, j);
    PageAddress(c, t, run[i], r[i]);
    EntryAddress(c, t, run[j], r[j]);
  }

  // ---------------------------------------------------------------- tables larger than pages

  /** Two tables share some bytes. */
  ghost predicate TablesOverlap(c: Config, s: State) {
    exists k, l :: k in s.tables && l in s.tables && k != l && s.tables[k] <= s.tables[l] < s.tables[k] + TableSize(c)
  }

  lemma FittingTablesApart(c: Config, s: State)
    requires Inv(c, s)
    ensures !TablesOverlap(c, s)
  {
    forall k, l | k in s.tables && l in s.tables && k != l && s.tables[k] <= s.tables[l]
      ensures s.tables[k] + TableSize(c) <= s.tables[l]
    {
      assert TablePlace(c, s, s.tables[k]) && TablePlace(c, s, s.tables[l]);
      AlignedApart(s.tables[k], s.tables[l], TableSize(c));
    }
  }

  lemma LargeTablePageAligned(c: Config, a: nat)
    requires !TablesFit(c) && Aligned(a, PageSize(c))
    ensures Aligned(a + TableSize(c), PageSize(c)) && PageSize(c) < TableSize(c)
  {
    Pow2Divides(c.pageBits, c.pteBits);
    Pow2Increases(c.pageBits, c.pteBits);
    var k: Pos := Pow2(c.pteBits - c.pageBits);
    var p := PageSize(c);
    assert a == a / p * p;
    assert a + k * p == (a / p + k) * p;
    MultipleAligned(a / p + k, p);
  }

  /** The first walk of two processors. */
  const TWO_WALKS: seq<Access> := [Entry(0, 0, 1), Entry(1, 0, 1)]

  lemma LargeTablesOverlap(c: Config)
    requires !TablesFit(c) && Reserve(c) + 3 * PageSize(c) <= LastFrame(c)
    ensures Legal(c, Initial(c), TWO_WALKS) && TablesOverlap(c, Run(c, Initial(c), TWO_WALKS))
  {
    var p, r := PageSize(c), Reserve(c);
    InitialInv(c);
    AlignedPlus(r, p);
    LargeTablePageAligned(c, r);
    LargeTablePageAligned(c, r + p);
    var k, l := TableOf(c, 0, 0, 1), TableOf(c, 1, 0, 1);
    assert k != l;
    hide Reserve;
    hide LastFrame;
    hide TableOf;
    var s1 := Apply(c, Initial(c), TWO_WALKS[0]).0;
    assert s1 == State(map[], map[k := r], r + p, r + p + p);
    var s2 := Apply(c, s1, TWO_WALKS[1]).0;
    assert s2.tables == map[k := r, l := r + p];
    assert TWO_WALKS[1..] == [TWO_WALKS[1]] && TWO_WALKS[1..][1..] == [];
    assert Legal(c, s2, []) && Run(c, s2, []) == s2;
    assert Legal(c, s1, TWO_WALKS[1..]) && Run(c, s1, TWO_WALKS[1..]) == s2;
    assert k in s2.tables && l in s2.tables;
  }

  /** With at least three frames, page tables can overlap exactly when a table is larger than a page. */
  lemma OverlapExactly(c: Config)
    requires Reserve(c) + 3 * PageSize(c) <= LastFrame(c)
    ensures (exists run :: Legal(c, Initial(c), run) && TablesOverlap(c, Run(c, Initial(c), run))) <==> !TablesFit(c)
  {
    if TablesFit(c) {
      forall run | Legal(c, Initial(c), run) ensures !TablesOverlap(c, Run(c, Initial(c), run)) {
        InitialInv(c);
        RunKeeps(c, Initial(c), run);
        FittingTablesApart(c, Run(c, Initial(c), run));
      }
    } else {
      LargeTablesOverlap(c);
    }
  }

  /** The allocator as the simulator runs it: two maps and two cursors. */
  class Allocator {
    const config: Config
    var pages: map<PageKey, nat>
    var tables: map<TableKey, nat>
    var nextTable: nat
    var nextFrame: nat

    ghost function View(): State
      reads this
    {
      State(pages, tables, nextTable, nextFrame)
    }

    ghost predicate Valid()
      reads this
    {
      TablesFit(config) && Inv(config, View())
    }

    constructor (c: Config)
      requires TablesFit(c)
      ensures Valid() && config == c && View() == Initial(c)
    {
      InitialInv(c);
      config := c;
      pages, tables, nextTable, nextFrame := map[], map[], 0, Reserve(c);
    }

    method TakeFrame() returns (frame: nat)
      requires Available(config, View())
      modifies `nextFrame
      ensures frame == old(nextFrame) && nextFrame == old(nextFrame) + PageSize(config)
    {
      frame := nextFrame;
      nextFrame := nextFrame + PageSize(config);
    }

    method VaToPa(cpu: nat, vaddr: nat) returns (address: nat, penalty: nat)
      requires Valid() && Available(config, View())
      modifies this
      ensures Valid() && (View(), address, penalty) == Translate(config, old(View()), cpu, vaddr)
    {
      TranslateKeeps(config, View(), cpu, vaddr);
      hide Inv;
      hide SpliceBits;
      var key := PageOf(config, cpu, vaddr);
      penalty := 0;
      if key !in pages {
        var frame := TakeFrame();
        pages := pages[key := frame];
        penalty := config.penalty;
      }
      address := SpliceBits(pages[key], vaddr, config.pageBits);
    }

    /** The first walk takes a frame for tables. */
    method BeginTables()
      requires nextTable == 0 ==> Available(config, View())
      modifies `nextTable, `nextFrame
      ensures View() == Begun(config, old(View()))
    {
      if nextTable == 0 {
        nextTable := TakeFrame();
      }
    }

    method NewTable(key: TableKey)
      requires Aligned(nextTable + TableSize(config), PageSize(config)) ==> Available(config, View())
      modifies `tables, `nextTable, `nextFrame
      ensures View() == Advanced(config, AddTable(config, old(View()), key))
    {
      tables := tables[key := nextTable];
      nextTable := nextTable + TableSize(config);
      if Aligned(nextTable, PageSize(config)) {
        nextTable := TakeFrame();
      }
    }

    method GetPtePa(cpu: nat, vaddr: nat, level: nat) returns (address: nat, penalty: nat)
      requires Valid() && CanWalk(config, View(), cpu, vaddr, level)
      modifies this
      ensures Valid() && (View(), address, penalty) == Walk(config, old(View()), cpu, vaddr, level)
    {
      WalkKeeps(config, View(), cpu, vaddr, level);
      hide Inv;
      hide SpliceBits;
      hide TableOf;
      hide Offset;
      hide Aligned;
      BeginTables();
      var key := TableOf(config, cpu, vaddr, level);
      penalty := 0;
      var table;
      if key in tables {
        table := tables[key];
      } else {
        table := nextTable;
        NewTable(key);
        penalty := config.penalty;
      }
      address := SpliceBits(table, Offset(config, vaddr, level) * 8, config.pteBits);
    }
  }
}
