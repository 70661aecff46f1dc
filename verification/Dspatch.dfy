/** DSPatch: bitmaps, the learning of dual patterns, and what a prediction covers. */
module Dspatch {
  import opened Bits
  import opened Wrappers

  const MAX_BITS: nat := 64

  /** A bitset; bits beyond a region's lines stay clear. */
  type Bitmap = b: seq<bool> | |b| == MAX_BITS witness seq(MAX_BITS, _ => false)

  function Clear(): Bitmap { seq(MAX_BITS, _ => false) }

  /** Lines per region, lines per compressed bit, and counter limits. */
  datatype Config = Config(lines: Pos, grain: Pos, orMax: nat, covMax: nat, accMax: nat, pbSize: Pos, throttle: nat)

  /** What the program asserts about its knobs. */
  predicate Sensible(c: Config) { c.lines * c.grain <= MAX_BITS && MAX_BITS % c.grain == 0 }

  // ---------------------------------------------------------------- bitmap helpers

  function RotateLeft(b: Bitmap, amount: nat, size: nat): Bitmap
    requires amount <= size <= MAX_BITS
  {
    seq(MAX_BITS, i requires 0 <= i < MAX_BITS =>
      if i < amount then b[i + size - amount] else if i < size then b[i - amount] else false)
  }

  function RotateRight(b: Bitmap, amount: nat, size: nat): Bitmap
    requires amount <= size <= MAX_BITS
  {
    seq(MAX_BITS, i requires 0 <= i < MAX_BITS =>
      if i < size - amount then b[i + amount] else if i < size then b[i - (size - amount)] else false)
  }

  /** Some bit of group `p` is set. */
  predicate GroupSet(b: Bitmap, grain: Pos, p: nat) { exists i :: 0 <= i < MAX_BITS && b[i] && i / grain == p }

  function Compress(b: Bitmap, grain: Pos): Bitmap {
    seq(MAX_BITS, p requires 0 <= p < MAX_BITS => GroupSet(b, grain, p))
  }

  /** Every set bit among the first `size` becomes a group. */
  function Decompress(b: Bitmap, grain: Pos, size: nat): Bitmap
    requires size * grain <= MAX_BITS
  {
    seq(MAX_BITS, i requires 0 <= i < MAX_BITS => Expanded(b, grain, size, i))
  }

  predicate Expanded(b: Bitmap, grain: Pos, size: nat, i: nat)
    requires i < MAX_BITS
  {
    var p := i / grain;
    0 <= p < size && p < MAX_BITS && b[p]
  }

  function Or(x: Bitmap, y: Bitmap): Bitmap { seq(MAX_BITS, i requires 0 <= i < MAX_BITS => x[i] || y[i]) }

  function And(x: Bitmap, y: Bitmap): Bitmap { seq(MAX_BITS, i requires 0 <= i < MAX_BITS => x[i] && y[i]) }

  ghost predicate Within(b: Bitmap, size: nat) { forall i :: size <= i < MAX_BITS ==> !b[i] }

  /** Every bit of `x` is a bit of `y`. */
  ghost predicate Covers(y: Bitmap, x: Bitmap) { forall i :: 0 <= i < MAX_BITS && x[i] ==> y[i] }

  /** Rotating left undoes rotating right. */
  lemma RotateBack(b: Bitmap, amount: nat, size: nat)
    requires amount <= size <= MAX_BITS && Within(b, size)
    ensures RotateLeft(RotateRight(b, amount, size), amount, size) == b
  {
  }

  lemma RotateRightWithin(b: Bitmap, amount: nat, size: nat)
    requires amount <= size <= MAX_BITS
    ensures Within(RotateRight(b, amount, size), size)
  {
  }

  lemma RotateLeftCovers(y: Bitmap, x: Bitmap, amount: nat, size: nat)
    requires amount <= size <= MAX_BITS && Covers(y, x)
    ensures Covers(RotateLeft(y, amount, size), RotateLeft(x, amount, size))
  {
  }

  lemma GroupMember(p: nat, grain: Pos, g: nat)
    requires g < grain
    ensures (p * grain + g) / grain == p
  {
    DivUnique(p * grain + g, grain, p, g);
  }

  /** Compressing undoes decompressing. */
  lemma CompressBack(b: Bitmap, grain: Pos, size: nat)
    requires size * grain <= MAX_BITS && Within(b, size)
    ensures Compress(Decompress(b, grain, size), grain) == b
  {
    var d := Decompress(b, grain, size);
    forall p | 0 <= p < MAX_BITS ensures GroupSet(d, grain, p) <==> b[p] {
      if b[p] {
        assert p < size;
        GroupMember(p, grain, 0);
        BelowProduct(p, size, grain);
        assert Expanded(b, grain, size, p * grain);
        assert d[p * grain];
      }
      if GroupSet(d, grain, p) {
        var i :| 0 <= i < MAX_BITS && d[i] && i / grain == p;
        assert Expanded(b, grain, size, i);
      }
    }
  }

  lemma BelowProduct(p: nat, size: nat, grain: Pos)
    requires p < size && size * grain <= MAX_BITS
    ensures 0 <= p * grain < MAX_BITS
  {
    MulMono(p + 1, size, grain, grain);
    assert (p + 1) * grain == p * grain + grain;
  }

  lemma GroupSmaller(i: nat, grain: Pos)
    ensures 0 <= i / grain <= i
  {
    QuotientExists(i, grain);
    if i / grain > i {
      MulMono(i + 1, i / grain, 1, grain);
    }
  }

  /** Decompressing what was compressed loses nothing. */
  lemma DecompressCovers(b: Bitmap, grain: Pos, size: nat)
    requires size * grain <= MAX_BITS && Within(b, size)
    ensures Covers(Decompress(Compress(b, grain), grain, size), b)
  {
    forall i | 0 <= i < MAX_BITS && b[i] ensures Expanded(Compress(b, grain), grain, size, i) {
      GroupSmaller(i, grain);
      assert GroupSet(b, grain, i / grain);
    }
  }

  lemma CompressCovers(y: Bitmap, x: Bitmap, grain: Pos)
    requires Covers(y, x)
    ensures Covers(Compress(y, grain), Compress(x, grain))
  {
    forall p | 0 <= p < MAX_BITS && GroupSet(x, grain, p) ensures GroupSet(y, grain, p) {
      var i :| 0 <= i < MAX_BITS && x[i] && i / grain == p;
      assert y[i];
    }
  }

  lemma DecompressMonotone(y: Bitmap, x: Bitmap, grain: Pos, size: nat)
    requires size * grain <= MAX_BITS && Covers(y, x)
    ensures Covers(Decompress(y, grain, size), Decompress(x, grain, size))
  {
    forall i | 0 <= i < MAX_BITS && Expanded(x, grain, size, i) ensures Expanded(y, grain, size, i) {
    }
  }

  // ---------------------------------------------------------------- learning

  datatype PageEntry = PageEntry(page: nat, pc: nat, offset: nat, bits: Bitmap)

  datatype SignatureEntry = SignatureEntry(cov: Bitmap, acc: Bitmap, measureCov: nat, measureAcc: nat, orCount: nat)

  const UINT_MAX: nat := 0xFFFF_FFFF

  function Untrained(): SignatureEntry { SignatureEntry(Clear(), Clear(), 0, 0, 0) }

  function Incremented(n: nat, limit: nat): nat { if n < limit then n + 1 else n }

  function Decremented(n: nat): nat { if n > 0 then n - 1 else n }

  /** The outcomes of the comparisons of floating-point ratios, and of the bandwidth. */
  datatype Outcomes = Outcomes(poorCov: bool, resetCov: bool, poorAcc: bool)

  function Anchored(c: Config, e: PageEntry): Bitmap
    requires e.offset <= c.lines <= MAX_BITS
  {
    RotateRight(e.bits, e.offset, c.lines)
  }

  /** `add_to_spt`: update the coverage pattern, then derive the accuracy pattern from it. */
  function Trained(c: Config, s: SignatureEntry, e: PageEntry, o: Outcomes): (t: SignatureEntry)
    requires Sensible(c) && e.offset <= c.lines <= MAX_BITS
  {
    var seen := Anchored(c, e);
    var known := Decompress(s.cov, c.grain, c.lines);
    var unknown := exists i :: 0 <= i < MAX_BITS && seen[i] && !known[i];
    var orCount := if unknown then Incremented(s.orCount, c.orMax) else s.orCount;
    var measure := if o.poorCov then Incremented(s.measureCov, c.covMax) else s.measureCov;
    var saturated := measure == c.covMax;
    var cov := if !saturated then Compress(Or(known, seen), c.grain)
               else if o.resetCov then Compress(seen, c.grain) else s.cov;
    var acc := Compress(And(seen, Decompress(cov, c.grain, c.lines)), c.grain);
    SignatureEntry(cov, acc, measure,
                   if o.poorAcc then Incremented(s.measureAcc, UINT_MAX) else Decremented(s.measureAcc),
                   if saturated && o.resetCov then 0 else orCount)
  }

  // ---------------------------------------------------------------- invariants of learning

  /** The accuracy pattern never names a group that the coverage pattern does not. */
  ghost predicate EntryInv(c: Config, s: SignatureEntry) { Covers(s.cov, s.acc) && Within(s.cov, c.lines) }

  lemma LinesFit(c: Config)
    requires Sensible(c)
    ensures c.lines <= MAX_BITS
  {
    MulMono(c.lines, c.lines, 1, c.grain);
  }

  lemma CompressWithin(b: Bitmap, grain: Pos, size: nat)
    requires Within(b, size)
    ensures Within(Compress(b, grain), size)
  {
    forall p | size <= p < MAX_BITS ensures !GroupSet(b, grain, p) {
      forall i | 0 <= i < MAX_BITS && b[i] ensures i / grain != p {
        GroupSmaller(i, grain);
      }
    }
  }

  /** Groups of a decompressed pattern are groups of the pattern. */
  lemma CompressedBack(b: Bitmap, x: Bitmap, grain: Pos, size: nat)
    requires size * grain <= MAX_BITS && Covers(Decompress(b, grain, size), x)
    ensures Covers(b, Compress(x, grain))
  {
    forall p | 0 <= p < MAX_BITS && GroupSet(x, grain, p) ensures b[p] {
      var i :| 0 <= i < MAX_BITS && x[i] && i / grain == p;
      assert Expanded(b, grain, size, i);
    }
  }

  lemma DecompressGroups(b: Bitmap, grain: Pos, size: nat)
    requires size * grain <= MAX_BITS
    ensures Within(Compress(Decompress(b, grain, size), grain), size)
  {
    var d := Decompress(b, grain, size);
    forall p | size <= p < MAX_BITS ensures !GroupSet(d, grain, p) {
      forall i | 0 <= i < MAX_BITS && d[i] ensures i / grain != p {
        assert Expanded(b, grain, size, i);
      }
    }
  }

  lemma CovWithin(c: Config, s: SignatureEntry, e: PageEntry)
    requires Sensible(c) && e.offset <= c.lines <= MAX_BITS
    ensures Within(Compress(Or(Decompress(s.cov, c.grain, c.lines), Anchored(c, e)), c.grain), c.lines)
  {
    var d, a := Decompress(s.cov, c.grain, c.lines), Anchored(c, e);
    RotateRightWithin(e.bits, e.offset, c.lines);
    CompressWithin(a, c.grain, c.lines);
    DecompressGroups(s.cov, c.grain, c.lines);
    forall p | c.lines <= p < MAX_BITS ensures !GroupSet(Or(d, a), c.grain, p) {
      assert !Compress(d, c.grain)[p] && !Compress(a, c.grain)[p];
      assert !GroupSet(d, c.grain, p) && !GroupSet(a, c.grain, p);
    }
  }

  /** Training keeps the accuracy pattern within the coverage pattern, whatever the ratios were. */
  lemma TrainedKeeps(c: Config, s: SignatureEntry, e: PageEntry, o: Outcomes)
    requires Sensible(c) && e.offset <= c.lines <= MAX_BITS && EntryInv(c, s)
    ensures EntryInv(c, Trained(c, s, e, o))
  {
    var t := Trained(c, s, e, o);
    var seen := Anchored(c, e);
    RotateRightWithin(e.bits, e.offset, c.lines);
    CompressWithin(seen, c.grain, c.lines);
    CovWithin(c, s, e);
    CompressedBack(t.cov, And(seen, Decompress(t.cov, c.grain, c.lines)), c.grain, c.lines);
  }

  // ---------------------------------------------------------------- prediction

  datatype Candidate = PatNone | CovP | AccP

  datatype Selection = Selection(candidate: Candidate, bits: Bitmap)

  /** `dyn_selection`: by the bandwidth bucket and the two measures. */
  function Select(c: Config, s: SignatureEntry, bandwidth: nat): Selection {
    if bandwidth == 3 then (if s.measureAcc == c.accMax then Selection(PatNone, Clear()) else Selection(AccP, s.acc))
    else if bandwidth == 2 && s.measureCov == c.covMax then Selection(AccP, s.acc)
    else Selection(CovP, s.cov)
  }

  function Unfolded(c: Config, b: Bitmap, offset: nat): Bitmap
    requires Sensible(c) && offset <= c.lines <= MAX_BITS
  {
    RotateLeft(Decompress(b, c.grain, c.lines), offset, c.lines)
  }

  function Without(b: Bitmap, i: nat): Bitmap
    requires i < MAX_BITS
  {
    b[i := false]
  }

  /** The lines to prefetch, without the trigger and unless throttled. */
  function Predicted(c: Config, s: SignatureEntry, bandwidth: nat, offset: nat): Bitmap
    requires Sensible(c) && offset < c.lines <= MAX_BITS
  {
    var selected := Select(c, s, bandwidth);
    if bandwidth >= c.throttle && selected.candidate == AccP then Clear()
    else Without(Unfolded(c, selected.bits, offset), offset)
  }

  /** What a coverage prediction covers for a trigger offset, is what the pattern covers once anchored there. */
  lemma UnfoldedCovers(c: Config, b: Bitmap, e: PageEntry)
    requires Sensible(c) && e.offset <= c.lines <= MAX_BITS && Within(e.bits, c.lines)
    ensures Covers(Unfolded(c, b, e.offset), e.bits) <==> Covers(Decompress(b, c.grain, c.lines), Anchored(c, e))
  {
    var d, a := Decompress(b, c.grain, c.lines), Anchored(c, e);
    RotateBack(e.bits, e.offset, c.lines);
    if Covers(d, a) {
      RotateLeftCovers(d, a, e.offset, c.lines);
    }
    if Covers(RotateLeft(d, e.offset, c.lines), e.bits) {
      forall i | 0 <= i < MAX_BITS && a[i] ensures d[i] {
        RotatedIndex(d, a, e.bits, i, e.offset, c.lines);
      }
    }
  }

  lemma RotatedIndex(d: Bitmap, a: Bitmap, bits: Bitmap, i: nat, amount: nat, size: nat)
    requires amount <= size <= MAX_BITS && i < MAX_BITS && a == RotateRight(bits, amount, size) && a[i]
    requires Covers(RotateLeft(d, amount, size), bits)
    ensures d[i]
  {
    var j := if i < size - amount then i + amount else i - (size - amount);
    assert bits[j];
    assert RotateLeft(d, amount, size)[j];
  }

  /** Whether an update takes the footprint into the coverage pattern. */
  predicate Learns(c: Config, s: SignatureEntry, o: Outcomes) {
    o.resetCov || (if o.poorCov then Incremented(s.measureCov, c.covMax) else s.measureCov) != c.covMax
  }

  /**
   * After an update, a coverage prediction at the same signature and offset covers the whole trained footprint
   * exactly if the update was an OR or a reset, or the old pattern already covered it.
   */
  lemma CoversTrainedExactly(c: Config, s: SignatureEntry, e: PageEntry, o: Outcomes)
    requires Sensible(c) && e.offset <= c.lines <= MAX_BITS && Within(e.bits, c.lines)
    ensures Covers(Unfolded(c, Trained(c, s, e, o).cov, e.offset), e.bits) <==>
            Learns(c, s, o) || Covers(Unfolded(c, s.cov, e.offset), e.bits)
  {
    var seen, known := Anchored(c, e), Decompress(s.cov, c.grain, c.lines);
    UnfoldedCovers(c, s.cov, e);
    UnfoldedCovers(c, Trained(c, s, e, o).cov, e);
    RotateRightWithin(e.bits, e.offset, c.lines);
    DecompressCovers(seen, c.grain, c.lines);
    OrCovers(known, seen, c.grain, c.lines);
  }

  lemma OrCovers(known: Bitmap, seen: Bitmap, grain: Pos, size: nat)
    requires size * grain <= MAX_BITS && Within(seen, size)
    ensures Covers(Decompress(Compress(Or(known, seen), grain), grain, size), seen)
  {
    assert Covers(Or(known, seen), seen);
    CompressCovers(Or(known, seen), seen, grain);
    DecompressMonotone(Compress(Or(known, seen), grain), Compress(seen, grain), grain, size);
    DecompressCovers(seen, grain, size);
  }

  // ---------------------------------------------------------------- the page buffer

  datatype State = State(buffer: seq<PageEntry>, spt: seq<SignatureEntry>, bandwidth: nat)

  /** The table entry of a program counter: a folded and hashed signature. */
  type Indexer = nat -> nat

  ghost predicate Indexes(f: Indexer, size: nat) { forall pc: nat :: f(pc) < size }

  function FindPage(buffer: seq<PageEntry>, page: nat): (k: nat)
    ensures k <= |buffer|
    ensures k < |buffer| ==> buffer[k].page == page
    ensures forall j :: 0 <= j < k ==> buffer[j].page != page
  {
    if buffer == [] || buffer[0].page == page then 0 else 1 + FindPage(buffer[1..], page)
  }

  function Marked(e: PageEntry, offset: nat): PageEntry
    requires offset < MAX_BITS
  {
    e.(bits := WithBit(e.bits, offset))
  }

  function WithBit(b: Bitmap, i: nat): Bitmap
    requires i < MAX_BITS
  {
    b[i := true]
  }

  function Fresh(page: nat, pc: nat, offset: nat): PageEntry
    requires offset < MAX_BITS
  {
    PageEntry(page, pc, offset, WithBit(Clear(), offset))
  }

  /** What the table learns when the oldest page leaves a full buffer. */
  function Taught(c: Config, s: State, f: Indexer, o: Outcomes): seq<SignatureEntry>
    requires Sensible(c) && c.lines <= MAX_BITS && s.buffer != [] && s.buffer[0].offset < c.lines
  {
    var e := s.buffer[0];
    if f(e.pc) < |s.spt| then s.spt[f(e.pc) := Trained(c, s.spt[f(e.pc)], e, o)] else s.spt
  }

  ghost predicate StateInv(c: Config, s: State) {
    && c.lines <= MAX_BITS && |s.buffer| <= c.pbSize
    && (forall i, j :: 0 <= i < j < |s.buffer| ==> s.buffer[i].page != s.buffer[j].page)
    && (forall i :: 0 <= i < |s.buffer| ==>
          s.buffer[i].offset < c.lines && Within(s.buffer[i].bits, c.lines) && s.buffer[i].bits[s.buffer[i].offset])
    && forall i :: 0 <= i < |s.spt| ==> EntryInv(c, s.spt[i])
  }

  /** `invoke_prefetcher`: record the line, or start a page and predict for it. */
  function Invoke(c: Config, s: State, f: Indexer, page: nat, pc: nat, offset: nat, o: Outcomes)
    : (r: (State, Option<Bitmap>))
    requires Sensible(c) && StateInv(c, s) && Indexes(f, |s.spt|) && offset < c.lines
  {
    var k := FindPage(s.buffer, page);
    if k < |s.buffer| then (s.(buffer := s.buffer[k := Marked(s.buffer[k], offset)]), None)
    else
      var t := if |s.buffer| >= c.pbSize then s.(buffer := s.buffer[1..], spt := Taught(c, s, f, o)) else s;
      (t.(buffer := t.buffer + [Fresh(page, pc, offset)]),
       Some(Predicted(c, t.spt[f(pc)], s.bandwidth, offset)))
  }

  lemma TaughtKeeps(c: Config, s: State, f: Indexer, o: Outcomes)
    requires Sensible(c) && StateInv(c, s) && s.buffer != []
    ensures var t := Taught(c, s, f, o);
            |t| == |s.spt| && forall i :: 0 <= i < |t| ==> EntryInv(c, t[i])
  {
    var e := s.buffer[0];
    if f(e.pc) < |s.spt| {
      TrainedKeeps(c, s.spt[f(e.pc)], e, o);
    }
    hide EntryInv;
  }

  lemma InvokeKeeps(c: Config, s: State, f: Indexer, page: nat, pc: nat, offset: nat, o: Outcomes)
    requires Sensible(c) && StateInv(c, s) && Indexes(f, |s.spt|) && offset < c.lines
    ensures var t := Invoke(c, s, f, page, pc, offset, o).0;
            StateInv(c, t) && |t.spt| == |s.spt|
  {
    hide EntryInv;
    hide Taught;
    hide Trained;
    hide Predicted;
    hide Clear;
    if FindPage(s.buffer, page) < |s.buffer| {
      MarkKeeps(c, s, FindPage(s.buffer, page), offset);
    } else if |s.buffer| >= c.pbSize {
      TaughtKeeps(c, s, f, o);
      PushKeeps(c, s.(buffer := s.buffer[1..], spt := Taught(c, s, f, o)), page, pc, offset);
    } else {
      PushKeeps(c, s, page, pc, offset);
    }
  }

  lemma MarkKeeps(c: Config, s: State, k: nat, offset: nat)
    requires StateInv(c, s) && k < |s.buffer| && offset < c.lines
    ensures StateInv(c, s.(buffer := s.buffer[k := Marked(s.buffer[k], offset)]))
  {
    hide EntryInv;
  }

  lemma PushKeeps(c: Config, s: State, page: nat, pc: nat, offset: nat)
    requires StateInv(c, s) && |s.buffer| < c.pbSize && offset < c.lines
    requires forall i :: 0 <= i < |s.buffer| ==> s.buffer[i].page != page
    ensures StateInv(c, s.(buffer := s.buffer + [Fresh(page, pc, offset)]))
  {
    hide EntryInv;
  }

  // ---------------------------------------------------------------- what the buffer records

  /** The lines touched on each buffered page since it entered, oldest page first. */
  type Touches = seq<(nat, set<nat>)>

  ghost predicate Records(s: State, t: Touches) {
    && |t| == |s.buffer|
    && forall i :: 0 <= i < |t| ==>
         t[i].0 == s.buffer[i].page && forall b :: 0 <= b < MAX_BITS ==> (s.buffer[i].bits[b] <==> b in t[i].1)
  }

  /** Record a touch: in its page, or as a new page that may push the oldest out. */
  function Touched(c: Config, t: Touches, page: nat, offset: nat): Touches {
    if exists i :: 0 <= i < |t| && t[i].0 == page then
      seq(|t|, i requires 0 <= i < |t| => if t[i].0 == page then (page, t[i].1 + {offset}) else t[i])
    else (if |t| >= c.pbSize then t[1..] else t) + [(page, {offset})]
  }

  /** The footprint that trains an entry is exactly what was touched since the page entered the buffer. */
  lemma InvokeRecords(c: Config, s: State, t: Touches, f: Indexer, page: nat, pc: nat, offset: nat, o: Outcomes)
    requires Sensible(c) && StateInv(c, s) && Indexes(f, |s.spt|) && offset < c.lines && Records(s, t)
    ensures Records(Invoke(c, s, f, page, pc, offset, o).0, Touched(c, t, page, offset))
  {
    var k := FindPage(s.buffer, page);
    if k < |s.buffer| {
      assert t[k].0 == page;
    } else {
      forall i | 0 <= i < |t| ensures t[i].0 != page {
        assert s.buffer[i].page != page;
      }
    }
    hide EntryInv;
    hide Taught;
    hide Trained;
  }

  // ---------------------------------------------------------------- every run

  /** A demand access, or a new bandwidth level. */
  datatype Event = Access(page: nat, pc: nat, offset: nat, outcomes: Outcomes) | Bandwidth(level: nat)

  ghost predicate Inside(c: Config, events: seq<Event>) {
    forall i :: 0 <= i < |events| && events[i].Access? ==> events[i].offset < c.lines
  }

  function Initial(entries: nat): State { State([], seq(entries, _ => Untrained()), 0) }

  ghost predicate Reached(c: Config, f: Indexer, s: State, t: Touches) {
    Sensible(c) && StateInv(c, s) && Indexes(f, |s.spt|) && Records(s, t)
  }

  ghost function Step(c: Config, f: Indexer, s: State, t: Touches, e: Event): (r: (State, Touches))
    requires Reached(c, f, s, t) && (e.Access? ==> e.offset < c.lines)
    ensures Reached(c, f, r.0, r.1) && |r.0.spt| == |s.spt|
  {
    match e
    case Access(page, pc, offset, o) =>
      InvokeKeeps(c, s, f, page, pc, offset, o);
      InvokeRecords(c, s, t, f, page, pc, offset, o);
      (Invoke(c, s, f, page, pc, offset, o).0, Touched(c, t, page, offset))
    case Bandwidth(level) => (s.(bandwidth := level), t)
  }

  /** The prefetcher after a run, and what was touched on each buffered page. */
  ghost function Run(c: Config, f: Indexer, s: State, t: Touches, events: seq<Event>): (r: (State, Touches))
    requires Reached(c, f, s, t) && Inside(c, events)
    ensures Reached(c, f, r.0, r.1) && |r.0.spt| == |s.spt|
    decreases |events|
  {
    if events == [] then (s, t)
    else
      var n := Step(c, f, s, t, events[0]);
      Run(c, f, n.0, n.1, events[1..])
  }

  lemma InitialReached(c: Config, f: Indexer, entries: nat)
    requires Sensible(c) && Indexes(f, entries)
    ensures Reached(c, f, Initial(entries), [])
  {
    LinesFit(c);
  }

  /** On every run, every accuracy pattern stays within its coverage pattern, whatever the ratios were. */
  lemma AccuracyWithinCoverage(c: Config, f: Indexer, entries: nat, events: seq<Event>, k: nat)
    requires Sensible(c) && Indexes(f, entries) && Inside(c, events) && k < entries
    ensures Reached(c, f, Initial(entries), [])
    ensures var s := Run(c, f, Initial(entries), [], events).0;
            && |s.spt| == entries && Covers(s.spt[k].cov, s.spt[k].acc)
            && Covers(Decompress(s.spt[k].cov, c.grain, c.lines), Decompress(s.spt[k].acc, c.grain, c.lines))
  {
    InitialReached(c, f, entries);
    var s := Run(c, f, Initial(entries), [], events).0;
    assert EntryInv(c, s.spt[k]);
    DecompressMonotone(s.spt[k].cov, s.spt[k].acc, c.grain, c.lines);
  }

  // ---------------------------------------------------------------- from touches to predictions

  /** The access starts a page while the buffer is full: the oldest page leaves and trains the table. */
  predicate Evicts(c: Config, s: State, e: Event) {
    e.Access? && FindPage(s.buffer, e.page) == |s.buffer| && |s.buffer| >= c.pbSize
  }

  /** Entry `k` of the table is not trained along the run. */
  ghost predicate Quiet(c: Config, f: Indexer, s: State, t: Touches, events: seq<Event>, k: nat)
    requires Reached(c, f, s, t) && Inside(c, events)
    decreases |events|
  {
    events == [] ||
    (&& (Evicts(c, s, events[0]) ==> f(s.buffer[0].pc) != k)
     && var n := Step(c, f, s, t, events[0]); Quiet(c, f, n.0, n.1, events[1..], k))
  }

  lemma StepQuiet(c: Config, f: Indexer, s: State, t: Touches, e: Event, k: nat)
    requires Reached(c, f, s, t) && (e.Access? ==> e.offset < c.lines) && k < |s.spt|
    requires Evicts(c, s, e) ==> f(s.buffer[0].pc) != k
    ensures Step(c, f, s, t, e).0.spt[k] == s.spt[k]
  {
    hide EntryInv, Trained, Predicted, Clear;
  }

  lemma {:induction false} QuietKeeps(c: Config, f: Indexer, s: State, t: Touches, events: seq<Event>, k: nat)
    requires Reached(c, f, s, t) && Inside(c, events) && k < |s.spt| && Quiet(c, f, s, t, events, k)
    ensures Run(c, f, s, t, events).0.spt[k] == s.spt[k]
    decreases |events|
  {
    hide Reached, Step, Evicts;
    if events != [] {
      StepQuiet(c, f, s, t, events[0], k);
      var n := Step(c, f, s, t, events[0]);
      QuietKeeps(c, f, n.0, n.1, events[1..], k);
    }
  }

  /** Every line in `lines` is a line of the unfolded pattern. */
  ghost predicate CoversLines(c: Config, cov: Bitmap, offset: nat, lines: set<nat>)
    requires Sensible(c) && offset <= c.lines <= MAX_BITS
  {
    forall b :: b in lines && b < MAX_BITS ==> Unfolded(c, cov, offset)[b]
  }

  /**
   * An evicted page trains its entry with exactly the lines touched since it entered: afterwards the coverage
   * pattern, unfolded at the page's trigger, covers them all exactly if the update was an OR or a reset, or the
   * pattern covered them before.
   */
  lemma EvictionCoversExactly(c: Config, f: Indexer, s: State, t: Touches, e: Event)
    requires Reached(c, f, s, t) && Evicts(c, s, e) && e.offset < c.lines
    ensures |t| > 0 && f(s.buffer[0].pc) < |s.spt| && s.buffer[0].offset <= c.lines <= MAX_BITS
    ensures var oldest, k := s.buffer[0], f(s.buffer[0].pc);
            CoversLines(c, Step(c, f, s, t, e).0.spt[k].cov, oldest.offset, t[0].1) <==>
              Learns(c, s.spt[k], e.outcomes) || CoversLines(c, s.spt[k].cov, oldest.offset, t[0].1)
  {
    var oldest, k := s.buffer[0], f(s.buffer[0].pc);
    CoversTrainedExactly(c, s.spt[k], oldest, e.outcomes);
    LinesAreBits(c, s.spt[k].cov, oldest, t[0].1);
    LinesAreBits(c, Trained(c, s.spt[k], oldest, e.outcomes).cov, oldest, t[0].1);
    hide EntryInv, Trained, Predicted, Clear, CoversLines, Covers, Learns;
    assert Step(c, f, s, t, e).0.spt[k] == Trained(c, s.spt[k], oldest, e.outcomes);
  }

  lemma LinesAreBits(c: Config, cov: Bitmap, e: PageEntry, lines: set<nat>)
    requires Sensible(c) && e.offset <= c.lines <= MAX_BITS
    requires forall b :: 0 <= b < MAX_BITS ==> (e.bits[b] <==> b in lines)
    ensures CoversLines(c, cov, e.offset, lines) <==> Covers(Unfolded(c, cov, e.offset), e.bits)
  {
    hide Unfolded;
  }

  /**
   * From touches to predictions: on every run, once an evicted page has trained its entry by an OR or a reset, any
   * later coverage prediction for the same entry and trigger offset asks for every line that had been touched on
   * that page, its trigger apart, until the entry is trained again.
   */
  lemma PredictsWhatWasTouched(c: Config, f: Indexer, entries: nat, before: seq<Event>, e: Event, later: seq<Event>,
                               y: Event)
    requires Sensible(c) && Indexes(f, entries) && Inside(c, before) && Inside(c, later)
    requires Reached(c, f, Initial(entries), [])
    requires var (s, t) := Run(c, f, Initial(entries), [], before);
             && Evicts(c, s, e) && e.offset < c.lines
             && Learns(c, s.spt[f(s.buffer[0].pc)], e.outcomes)
             && var n := Step(c, f, s, t, e);
                var u := Run(c, f, n.0, n.1, later).0;
                && Quiet(c, f, n.0, n.1, later, f(s.buffer[0].pc))
                && y.Access? && y.offset == s.buffer[0].offset && f(y.pc) == f(s.buffer[0].pc)
                && FindPage(u.buffer, y.page) == |u.buffer|
                && (Evicts(c, u, y) ==> f(u.buffer[0].pc) != f(y.pc))
                && Select(c, u.spt[f(y.pc)], u.bandwidth).candidate == CovP
    ensures var (s, t) := Run(c, f, Initial(entries), [], before);
            var n := Step(c, f, s, t, e);
            var u := Run(c, f, n.0, n.1, later).0;
            && y.offset < c.lines
            && var r := Invoke(c, u, f, y.page, y.pc, y.offset, y.outcomes).1;
               r.Some? && forall b :: b in t[0].1 && b < MAX_BITS && b != y.offset ==> r.value[b]
  {
    var (s, t) := Run(c, f, Initial(entries), [], before);
    var n := Step(c, f, s, t, e);
    var k := f(s.buffer[0].pc);
    EvictionCoversExactly(c, f, s, t, e);
    QuietKeeps(c, f, n.0, n.1, later, k);
    var (u, v) := Run(c, f, n.0, n.1, later);
    StepQuiet(c, f, u, v, y, k);
    PredictsCovered(c, f, u, y, t[0].1);
  }

  lemma PredictsCovered(c: Config, f: Indexer, u: State, y: Event, lines: set<nat>)
    requires Sensible(c) && StateInv(c, u) && Indexes(f, |u.spt|) && y.Access? && y.offset < c.lines
    requires FindPage(u.buffer, y.page) == |u.buffer|
    requires Evicts(c, u, y) ==> f(u.buffer[0].pc) != f(y.pc)
    requires Select(c, u.spt[f(y.pc)], u.bandwidth).candidate == CovP
    requires CoversLines(c, u.spt[f(y.pc)].cov, y.offset, lines)
    ensures var r := Invoke(c, u, f, y.page, y.pc, y.offset, y.outcomes).1;
            r.Some? && forall b :: b in lines && b < MAX_BITS && b != y.offset ==> r.value[b]
  {
    hide EntryInv, Trained, Clear, Unfolded;
  }
}
