/** Bingo's pattern history: keys, matches, and the recall of footprints. */
module Bingo {
  import opened Bits
  import opened HashIndex
  import opened SetAssociative
  import opened Wrappers

  /** Widths in bits; `indexLen` bits of a key select its set. */
  datatype Config = Config(patternLen: Pos, minWidth: nat, maxWidth: nat, pcWidth: nat, indexLen: nat)

  predicate Sensible(c: Config) { c.minWidth <= c.maxWidth && c.indexLen <= c.pcWidth + c.minWidth }

  type Pattern = seq<bool>

  datatype Event = PcAddress | PcOffset | Miss

  // ---------------------------------------------------------------- keys

  function PcOf(c: Config, pc: nat): nat { Low(pc, c.pcWidth) }

  function AddressOf(c: Config, address: nat): nat { Low(address, c.maxWidth) }

  function OffsetOf(c: Config, address: nat): nat { Low(AddressOf(c, address), c.minWidth) }

  function BaseOf(c: Config, address: nat): nat { High(AddressOf(c, address), c.minWidth) }

  /** Only the PC and the offset take part in the index. */
  function IndexKey(c: Config, pc: nat, address: nat): nat {
    Hash(Join(PcOf(c, pc), OffsetOf(c, address), c.minWidth), c.indexLen)
  }

  function BuildKey(c: Config, pc: nat, address: nat): nat {
    Join(BaseOf(c, address), IndexKey(c, pc, address), c.pcWidth + c.minWidth)
  }

  function SetOf(c: Config, key: nat): nat { Low(key, c.indexLen) }

  function TagOf(c: Config, key: nat): nat { High(key, c.indexLen) }

  predicate MinMatch(c: Config, tag: nat, other: nat)
    requires Sensible(c)
  {
    Low(tag, c.pcWidth + c.minWidth - c.indexLen) == Low(other, c.pcWidth + c.minWidth - c.indexLen)
  }

  predicate MaxMatch(c: Config, tag: nat, other: nat)
    requires Sensible(c)
  {
    Low(tag, c.pcWidth + c.maxWidth - c.indexLen) == Low(other, c.pcWidth + c.maxWidth - c.indexLen)
  }

  // ---------------------------------------------------------------- bit fields

  /** Joining from the top or from the bottom is the same. */
  lemma JoinNests(a: nat, b: nat, d: nat, len: nat, width: nat)
    requires len <= width
    ensures Join(a, Join(b, d, len), width) == Join(Join(a, b, width - len), d, len)
  {
    Pow2Divides(len, width);
    var p, k := Pow2(len), Pow2(width - len);
    MulAssoc(a, k, p);
    assert (a * k + b) * p == a * k * p + b * p;
  }

  /** The lowest `width` bits of a key are its lowest `len` bits and part of its tag. */
  lemma Fields(key: nat, len: nat, width: nat)
    requires len <= width
    ensures Low(key, len) == Low(Low(key, width), len)
    ensures Low(High(key, len), width - len) == High(Low(key, width), len)
  {
    var a, low := High(key, width), Low(key, width);
    var b, d := High(low, len), Low(low, len);
    SplitJoins(key, width);
    SplitJoins(low, len);
    JoinNests(a, b, d, len, width);
    JoinSplits(Join(a, b, width - len), d, len);
    JoinBelow(b, d, len, width);
    JoinSplits(a, b, width - len);
    hide Join;
    hide High;
    hide Low;
  }

  lemma JoinInjective(a: nat, b: nat, x: nat, y: nat, len: nat)
    requires b < Pow2(len) && y < Pow2(len) && Join(a, b, len) == Join(x, y, len)
    ensures a == x && b == y
  {
    JoinSplits(a, b, len);
    JoinSplits(x, y, len);
  }

  lemma IndexKeyFits(c: Config, pc: nat, address: nat)
    requires Sensible(c)
    ensures IndexKey(c, pc, address) < Pow2(c.pcWidth + c.minWidth)
  {
    JoinBelow(PcOf(c, pc), OffsetOf(c, address), c.minWidth, c.pcWidth + c.minWidth);
    HashWidth(Join(PcOf(c, pc), OffsetOf(c, address), c.minWidth), c.indexLen, c.pcWidth + c.minWidth);
  }

  /** Equal index keys mean equal PC and offset. */
  lemma IndexKeyInjective(c: Config, pc: nat, a: nat, pd: nat, b: nat)
    ensures IndexKey(c, pc, a) == IndexKey(c, pd, b) <==>
            PcOf(c, pc) == PcOf(c, pd) && OffsetOf(c, a) == OffsetOf(c, b)
  {
    if IndexKey(c, pc, a) == IndexKey(c, pd, b) {
      var x, y := Join(PcOf(c, pc), OffsetOf(c, a), c.minWidth), Join(PcOf(c, pd), OffsetOf(c, b), c.minWidth);
      assert Hash(x, c.indexLen) == Hash(y, c.indexLen);
      HashInjective(x, y, c.indexLen);
      JoinInjective(PcOf(c, pc), OffsetOf(c, a), PcOf(c, pd), OffsetOf(c, b), c.minWidth);
    }
  }

  lemma KeyFields(c: Config, pc: nat, address: nat)
    requires Sensible(c)
    ensures var key := BuildKey(c, pc, address);
            var width := c.pcWidth + c.minWidth;
            && SetOf(c, key) == Low(IndexKey(c, pc, address), c.indexLen)
            && Low(TagOf(c, key), width - c.indexLen) == High(IndexKey(c, pc, address), c.indexLen)
  {
    var width := c.pcWidth + c.minWidth;
    IndexKeyFits(c, pc, address);
    JoinSplits(BaseOf(c, address), IndexKey(c, pc, address), width);
    Fields(BuildKey(c, pc, address), c.indexLen, width);
  }

  /** Two keys of one set match on PC and offset exactly when their PC and offset are equal, and then share the set. */
  lemma MinMatchExactly(c: Config, pc: nat, a: nat, pd: nat, b: nat)
    requires Sensible(c)
    ensures var k, l := BuildKey(c, pc, a), BuildKey(c, pd, b);
            SetOf(c, k) == SetOf(c, l) && MinMatch(c, TagOf(c, k), TagOf(c, l)) <==>
            PcOf(c, pc) == PcOf(c, pd) && OffsetOf(c, a) == OffsetOf(c, b)
  {
    KeyFields(c, pc, a);
    KeyFields(c, pd, b);
    IndexKeyInjective(c, pc, a, pd, b);
    SplitJoins(IndexKey(c, pc, a), c.indexLen);
    SplitJoins(IndexKey(c, pd, b), c.indexLen);
    hide Join;
    hide High;
    hide Low;
    hide IndexKey;
    hide BuildKey;
  }

  lemma KeyFits(c: Config, pc: nat, address: nat)
    requires Sensible(c)
    ensures BuildKey(c, pc, address) < Pow2(c.pcWidth + c.maxWidth)
    ensures TagOf(c, BuildKey(c, pc, address)) < Pow2(c.pcWidth + c.maxWidth - c.indexLen)
  {
    hide Join;
    hide High;
    hide Low;
    hide Pow2;
    hide Hash;
    hide IndexKey;
    var key := BuildKey(c, pc, address);
    SplitJoins(AddressOf(c, address), c.minWidth);
    JoinBelow(BaseOf(c, address), OffsetOf(c, address), c.minWidth, c.maxWidth);
    IndexKeyFits(c, pc, address);
    assert c.pcWidth + c.maxWidth - (c.pcWidth + c.minWidth) == c.maxWidth - c.minWidth;
    JoinBelow(BaseOf(c, address), IndexKey(c, pc, address), c.pcWidth + c.minWidth, c.pcWidth + c.maxWidth);
    SplitJoins(key, c.indexLen);
    JoinBelow(TagOf(c, key), SetOf(c, key), c.indexLen, c.pcWidth + c.maxWidth);
  }

  lemma LowWhole(n: nat, width: nat)
    requires n < Pow2(width)
    ensures Low(n, width) == n
  {
    Unique(n, Pow2(width), 0, n);
  }

  /** Two keys of one set match on PC and address exactly when their PC and address are equal. */
  lemma MaxMatchExactly(c: Config, pc: nat, a: nat, pd: nat, b: nat)
    requires Sensible(c)
    ensures var k, l := BuildKey(c, pc, a), BuildKey(c, pd, b);
            && (SetOf(c, k) == SetOf(c, l) && MaxMatch(c, TagOf(c, k), TagOf(c, l)) <==> k == l)
            && (k == l <==> PcOf(c, pc) == PcOf(c, pd) && AddressOf(c, a) == AddressOf(c, b))
  {
    hide Join;
    hide High;
    hide Low;
    hide Pow2;
    hide Hash;
    var k, l := BuildKey(c, pc, a), BuildKey(c, pd, b);
    KeyFits(c, pc, a);
    KeyFits(c, pd, b);
    LowWhole(TagOf(c, k), c.pcWidth + c.maxWidth - c.indexLen);
    LowWhole(TagOf(c, l), c.pcWidth + c.maxWidth - c.indexLen);
    SplitJoins(k, c.indexLen);
    SplitJoins(l, c.indexLen);
    if k == l {
      IndexKeyFits(c, pc, a);
      IndexKeyFits(c, pd, b);
      JoinInjective(BaseOf(c, a), IndexKey(c, pc, a), BaseOf(c, b), IndexKey(c, pd, b), c.pcWidth + c.minWidth);
      IndexKeyInjective(c, pc, a, pd, b);
      SplitJoins(AddressOf(c, a), c.minWidth);
      SplitJoins(AddressOf(c, b), c.minWidth);
    }
  }

  // ---------------------------------------------------------------- lookups

  datatype Found = Found(event: Event, patterns: seq<Pattern>)

  /** The loop over the ways: a full match ends it and stands alone, partial matches collect. */
  function Scan(c: Config, ways: seq<Entry<Pattern>>, tag: nat, i: nat, found: Found): Found
    requires Sensible(c) && i <= |ways|
    decreases |ways| - i
  {
    if i == |ways| then found
    else if !ways[i].valid then Scan(c, ways, tag, i + 1, found)
    else if MaxMatch(c, ways[i].tag, tag) then Found(PcAddress, [ways[i].data])
    else if MinMatch(c, ways[i].tag, tag) then
      Scan(c, ways, tag, i + 1, Found(PcOffset, found.patterns + [ways[i].data]))
    else Scan(c, ways, tag, i + 1, found)
  }

  /** All patterns whose PC and offset match, in the order of the ways. */
  function Partial(c: Config, ways: seq<Entry<Pattern>>, tag: nat, i: nat): seq<Pattern>
    requires Sensible(c) && i <= |ways|
    decreases |ways| - i
  {
    if i == |ways| then []
    else (if ways[i].valid && MinMatch(c, ways[i].tag, tag) then [ways[i].data] else []) + Partial(c, ways, tag, i + 1)
  }

  ghost predicate FullAt(c: Config, ways: seq<Entry<Pattern>>, tag: nat, i: nat)
    requires Sensible(c) && i < |ways|
  {
    ways[i].valid && MaxMatch(c, ways[i].tag, tag)
  }

  ghost predicate FirstFullAt(c: Config, ways: seq<Entry<Pattern>>, tag: nat, w: int)
    requires Sensible(c)
  {
    0 <= w < |ways| && FullAt(c, ways, tag, w) && forall j :: 0 <= j < w ==> !FullAt(c, ways, tag, j)
  }

  /** Without a full match, the scan collects exactly the partial ones. */
  lemma {:induction false} ScanPartial(c: Config, ways: seq<Entry<Pattern>>, tag: nat, i: nat, found: Found)
    requires Sensible(c) && i <= |ways| && forall j :: i <= j < |ways| ==> !FullAt(c, ways, tag, j)
    ensures var r := Scan(c, ways, tag, i, found);
            && r.patterns == found.patterns + Partial(c, ways, tag, i)
            && r.event == if Partial(c, ways, tag, i) == [] then found.event else PcOffset
    decreases |ways| - i
  {
    hide MinMatch;
    if i < |ways| {
      assert !FullAt(c, ways, tag, i);
      if ways[i].valid && MinMatch(c, ways[i].tag, tag) {
        ScanPartial(c, ways, tag, i + 1, Found(PcOffset, found.patterns + [ways[i].data]));
        assert found.patterns + [ways[i].data] + Partial(c, ways, tag, i + 1)
            == found.patterns + ([ways[i].data] + Partial(c, ways, tag, i + 1));
      } else {
        ScanPartial(c, ways, tag, i + 1, found);
        assert [] + Partial(c, ways, tag, i + 1) == Partial(c, ways, tag, i + 1);
      }
    }
  }

  /** With a full match, the scan returns it alone. */
  lemma {:induction false} ScanFull(c: Config, ways: seq<Entry<Pattern>>, tag: nat, i: nat, found: Found, w: nat)
    requires Sensible(c) && i <= w < |ways| && FullAt(c, ways, tag, w)
    requires forall j :: i <= j < w ==> !FullAt(c, ways, tag, j)
    ensures Scan(c, ways, tag, i, found) == Found(PcAddress, [ways[w].data])
    decreases |ways| - i
  {
    if i < w {
      assert !FullAt(c, ways, tag, i);
      if ways[i].valid && MinMatch(c, ways[i].tag, tag) {
        ScanFull(c, ways, tag, i + 1, Found(PcOffset, found.patterns + [ways[i].data]), w);
      } else {
        ScanFull(c, ways, tag, i + 1, found, w);
      }
    }
  }

  // ---------------------------------------------------------------- recall

  /** The patterns of a set are stored rotated, under tags of keys. */
  ghost predicate TagsFit(c: Config, s: Set<Pattern>)
    requires Sensible(c)
  {
    forall w :: 0 <= w < |s.ways| && s.ways[w].valid ==> s.ways[w].tag < Pow2(c.pcWidth + c.maxWidth - c.indexLen)
  }

  function RotateBy(c: Config, address: nat): nat { Remainder(address, c.patternLen) }

  function Anchored(c: Config, address: nat, pattern: Pattern): Pattern { Rotated(pattern, 0 - RotateBy(c, address)) }

  function Placed(c: Config, address: nat, pattern: Pattern): Pattern { Rotated(pattern, RotateBy(c, address)) }

  /** Stored patterns start at the trigger: a line's distance from it, around the end, is where its bit is stored. */
  lemma AnchoredAtTrigger(c: Config, address: nat, pattern: Pattern, line: nat)
    requires |pattern| == c.patternLen && line < c.patternLen
    ensures var trigger, stored := RotateBy(c, address), Anchored(c, address, pattern);
            && 0 <= (line - trigger) % |pattern| < |pattern| && trigger < |pattern|
            && stored[(line - trigger) % |pattern|] == pattern[line] && stored[0] == pattern[trigger]
  {
    RotatesDown(pattern, RotateBy(c, address), line);
    hide Rotated, RotateBy;
  }

  function PlacedAll(c: Config, address: nat, patterns: seq<Pattern>): (r: seq<Pattern>)
    ensures |r| == |patterns|
  {
    seq(|patterns|, i requires 0 <= i < |patterns| => Placed(c, address, patterns[i]))
  }

  /** `PatternHistoryTable::find` on the set of the key. */
  function Lookup(c: Config, s: Set<Pattern>, pc: nat, address: nat): Found
    requires Sensible(c)
  {
    var found := Scan(c, s.ways, TagOf(c, BuildKey(c, pc, address)), 0, Found(Miss, []));
    found.(patterns := PlacedAll(c, address, found.patterns))
  }

  /** A lookup matches fully exactly if the set stores its key, and then returns the stored pattern alone. */
  lemma LookupExactly(c: Config, s: Set<Pattern>, pc: nat, address: nat)
    requires Sensible(c) && Agrees(s) && TagsFit(c, s)
    ensures var tag := TagOf(c, BuildKey(c, pc, address));
            var r := Lookup(c, s, pc, address);
            if tag in Contents(s) then r == Found(PcAddress, [Placed(c, address, Contents(s)[tag])])
            else
              && r.patterns == PlacedAll(c, address, Partial(c, s.ways, tag, 0))
              && r.event == if Partial(c, s.ways, tag, 0) == [] then Miss else PcOffset
  {
    hide Join;
    hide High;
    hide Low;
    hide Pow2;
    hide Hash;
    hide BuildKey;
    var tag := TagOf(c, BuildKey(c, pc, address));
    KeyFits(c, pc, address);
    forall w | 0 <= w < |s.ways| ensures FullAt(c, s.ways, tag, w) <==> s.ways[w].valid && s.ways[w].tag == tag {
      LowWhole(tag, c.pcWidth + c.maxWidth - c.indexLen);
      if s.ways[w].valid {
        LowWhole(s.ways[w].tag, c.pcWidth + c.maxWidth - c.indexLen);
      }
    }
    hide FullAt;
    if tag in s.cam {
      ScanFull(c, s.ways, tag, 0, Found(Miss, []), s.cam[tag]);
    } else {
      ScanPartial(c, s.ways, tag, 0, Found(Miss, []));
    }
  }

  function Footprint(c: Config, pc: nat, address: nat, pattern: Pattern): Entry<Pattern> {
    var key := BuildKey(c, pc, address);
    Entry(key, SetOf(c, key), TagOf(c, key), true, Anchored(c, address, pattern))
  }

  lemma InsertFits(c: Config, s: Set<Pattern>, e: Entry<Pattern>, victim: nat)
    requires Sensible(c) && Agrees(s) && TagsFit(c, s) && victim < |s.ways|
    requires e.tag < Pow2(c.pcWidth + c.maxWidth - c.indexLen)
    ensures TagsFit(c, Insert(s, e, victim))
  {
  }

  lemma InsertedIsStored(c: Config, s: Set<Pattern>, pc: nat, address: nat, pattern: Pattern, victim: nat)
    requires Sensible(c) && Agrees(s) && TagsFit(c, s) && victim < |s.ways|
    ensures var t := Insert(s, Footprint(c, pc, address, pattern), victim);
            var tag := TagOf(c, BuildKey(c, pc, address));
            && Agrees(t) && TagsFit(c, t)
            && tag in Contents(t) && Placed(c, address, Contents(t)[tag]) == pattern
  {
    hide BuildKey;
    hide SetOf;
    hide TagOf;
    hide Pow2;
    hide Agrees;
    hide Insert;
    hide Contents;
    hide TagsFit;
    hide RotateBy;
    hide Sensible;
    var e := Footprint(c, pc, address, pattern);
    KeyFits(c, pc, address);
    assert e.tag == TagOf(c, BuildKey(c, pc, address));
    InsertedIsFound(s, e, victim);
    InsertFits(c, s, e, victim);
    assert Placed(c, address, e.data) == pattern by {
      RotateBack(pattern, RotateBy(c, address));
    }
    hide *;
  }

  /** What was inserted for a PC and address is recalled for the same PC and address, bit for bit. */
  lemma RecallsWhatWasInserted(c: Config, s: Set<Pattern>, pc: nat, address: nat, pattern: Pattern, victim: nat)
    requires Sensible(c) && Agrees(s) && TagsFit(c, s) && victim < |s.ways|
    ensures var t := Insert(s, Footprint(c, pc, address, pattern), victim);
            Agrees(t) && TagsFit(c, t) && Lookup(c, t, pc, address) == Found(PcAddress, [pattern])
  {
    InsertedIsStored(c, s, pc, address, pattern, victim);
    LookupExactly(c, Insert(s, Footprint(c, pc, address, pattern), victim), pc, address);
    hide *;
  }

  /** Insertions into the set: entries with the victims their replacement picks. */
  datatype Insertion = Insertion(entry: Entry<Pattern>, victim: nat)

  /** No insertion replaces or evicts what is stored under `tag`. */
  ghost predicate Spares(c: Config, s: Set<Pattern>, tag: nat, run: seq<Insertion>)
    requires Sensible(c) && Agrees(s)
    decreases |run|
  {
    run == [] ||
    (var e, victim := run[0].entry, run[0].victim;
     && victim < |s.ways| && e.valid && e.tag < Pow2(c.pcWidth + c.maxWidth - c.indexLen) && e.tag != tag
     && (e.tag !in s.cam && (forall w :: 0 <= w < |s.ways| ==> s.ways[w].valid) ==> s.ways[victim].tag != tag)
     && (InsertStores(s, e, victim); Spares(c, Insert(s, e, victim), tag, run[1..])))
  }

  ghost function InsertAll(c: Config, s: Set<Pattern>, tag: nat, run: seq<Insertion>): Set<Pattern>
    requires Sensible(c) && Agrees(s) && Spares(c, s, tag, run)
    decreases |run|
  {
    if run == [] then s
    else
      InsertStores(s, run[0].entry, run[0].victim);
      InsertAll(c, Insert(s, run[0].entry, run[0].victim), tag, run[1..])
  }

  lemma {:induction false} StoredSurvives(c: Config, s: Set<Pattern>, tag: nat, run: seq<Insertion>)
    requires Sensible(c) && Agrees(s) && TagsFit(c, s) && Spares(c, s, tag, run) && tag in Contents(s)
    ensures var t := InsertAll(c, s, tag, run);
            Agrees(t) && TagsFit(c, t) && tag in Contents(t) && Contents(t)[tag] == Contents(s)[tag]
    decreases |run|
  {
    if run != [] {
      var e, victim := run[0].entry, run[0].victim;
      InsertStores(s, e, victim);
      InsertFits(c, s, e, victim);
      hide Agrees;
      hide TagsFit;
      hide Insert;
      StoredSurvives(c, Insert(s, e, victim), tag, run[1..]);
    }
  }

  /** A full lookup returns exactly the footprint last inserted for it, as long as it was not evicted. */
  lemma RecallsUnevicted(c: Config, s: Set<Pattern>, pc: nat, address: nat, pattern: Pattern, victim: nat,
                         run: seq<Insertion>)
    requires Sensible(c) && Agrees(s) && TagsFit(c, s) && victim < |s.ways|
    requires Agrees(Insert(s, Footprint(c, pc, address, pattern), victim))
    requires Spares(c, Insert(s, Footprint(c, pc, address, pattern), victim), TagOf(c, BuildKey(c, pc, address)), run)
    ensures var inserted := Insert(s, Footprint(c, pc, address, pattern), victim);
            var t := InsertAll(c, inserted, TagOf(c, BuildKey(c, pc, address)), run);
            Lookup(c, t, pc, address) == Found(PcAddress, [pattern])
  {
    hide TagOf, BuildKey, Insert, Spares, RotateBy;
    var tag := TagOf(c, BuildKey(c, pc, address));
    var inserted := Insert(s, Footprint(c, pc, address, pattern), victim);
    InsertedIsStored(c, s, pc, address, pattern, victim);
    hide *;
    StoredSurvives(c, inserted, tag, run);
    LookupExactly(c, InsertAll(c, inserted, tag, run), pc, address);
  }

  // ---------------------------------------------------------------- the lookup as a loop

  method FindPatterns(c: Config, s: Set<Pattern>, pc: nat, address: nat) returns (found: Found, promote: Option<nat>)
    requires Sensible(c)
    ensures found == Lookup(c, s, pc, address)
    ensures promote.Some? <==> found.event == PcAddress
    ensures promote.Some? ==>
              var tag := TagOf(c, BuildKey(c, pc, address));
              exists w :: FirstFullAt(c, s.ways, tag, w) && s.ways[w].key == promote.value
                          && found.patterns == [Placed(c, address, s.ways[w].data)]
  {
    var tag := TagOf(c, BuildKey(c, pc, address));
    var raw := Found(Miss, []);
    promote := None;
    var i := 0;
    while i < |s.ways|
      invariant i <= |s.ways| && promote == None && raw.event != PcAddress
      invariant Scan(c, s.ways, tag, i, raw) == Scan(c, s.ways, tag, 0, Found(Miss, []))
      invariant forall j :: 0 <= j < i ==> !FullAt(c, s.ways, tag, j)
    {
      if s.ways[i].valid {
        if MaxMatch(c, s.ways[i].tag, tag) {
          assert FirstFullAt(c, s.ways, tag, i);
          raw := Found(PcAddress, [s.ways[i].data]);
          promote := Some(s.ways[i].key);
          break;
        }
        if MinMatch(c, s.ways[i].tag, tag) {
          raw := Found(PcOffset, raw.patterns + [s.ways[i].data]);
        }
      }
      i := i + 1;
    }
    var patterns := [];
    for k := 0 to |raw.patterns|
      invariant |patterns| == k && forall j :: 0 <= j < k ==> patterns[j] == Placed(c, address, raw.patterns[j])
    {
      var p := RotateLoop(raw.patterns[k], RotateBy(c, address));
      patterns := patterns + [p];
    }
    found := raw.(patterns := patterns);
  }
}
