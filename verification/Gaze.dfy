/** The Gaze prefetcher's learning tables, refined to first-touch lists per region. */
module Gaze {
  import opened Seqs
  import opened Wrappers

  const NUM_BLOCKS: nat := 64

  const PF_FILL_L1: nat := 1
  const PF_FILL_L2: nat := 2

  const STRIDE_DEGREE: nat := 4
  const STRIDE_LOOKAHEAD: nat := 2

  type Offset = o: nat | o < NUM_BLOCKS

  /** A region's key, as its table builds it. */
  type Key = nat

  datatype FilterData = FilterData(trigger: Offset, pc: nat)

  datatype AccumulateData = AccumulateData(
    trigger: Offset, second: Offset, pc: nat, missed: bool, con: bool,
    pattern: seq<bool>, order: seq<nat>, timestamp: nat, lastOffset: nat, lastStride: int)

  datatype PatternData = PatternData(pattern: seq<nat>, pc: nat, con: bool)

  /** What goes to the prefetch buffer, with its metadata. */
  datatype Request = Request(key: Key, pattern: seq<nat>, trigger: nat, second: nat, meta: nat)

  /** The contents of the three tables; see `SetAssociative.Contents`. */
  datatype State = State(
    ft: map<Key, FilterData>, at: map<Key, AccumulateData>, pt: map<(Offset, Offset), PatternData>,
    conCounter: nat, conPc: seq<nat>, stridePrefetch: bool)

  const INITIAL := State(map[], map[], map[], 0, [], false)

  /** What the replacement policies give up for an insertion: nothing, or some key. */
  datatype Victims = Victims(ft: Option<Key>, at: Option<Key>, pt: Option<(Offset, Offset)>)

  function Drop<K, V>(m: map<K, V>, victim: Option<K>): map<K, V> {
    match victim
    case Some(k) => m - {k}
    case None => m
  }

  // ---------------------------------------------------------------- accumulate table

  /** First touch of an offset: a time stamp, a stride, and a bit. */
  function Touched(d: AccumulateData, o: Offset): AccumulateData
    requires |d.pattern| == |d.order| == NUM_BLOCKS
  {
    if d.pattern[o] then d
    else
      d.(timestamp := d.timestamp + 1,
         order := d.order[o := d.timestamp + 1],
         pattern := d.pattern[o := true],
         lastOffset := o,
         lastStride := o - d.lastOffset)
  }

  /** Whether a touch turns the stride prefetch flag on, off, or leaves it. */
  function StrideFlag(d: AccumulateData, o: Offset, flag: bool): bool
    requires |d.pattern| == NUM_BLOCKS
  {
    if !d.pattern[o] && (d.missed || d.con) then o - d.lastOffset == d.lastStride else flag
  }

  /** A region's second offset starts its accumulation. */
  function Started(f: FilterData, second: Offset, missed: bool, con: bool): AccumulateData {
    AccumulateData(f.trigger, second, f.pc, missed, con,
                   seq(NUM_BLOCKS, i => i == f.trigger || i == second),
                   seq(NUM_BLOCKS, i => if i == second then 2 else if i == f.trigger then 1 else 0),
                   2, second, second - f.trigger)
  }

  function StrideTarget(d: AccumulateData, n: nat): int { d.lastOffset + (n + STRIDE_LOOKAHEAD) * d.lastStride }

  /** Block `i` of the stride pattern: a few strides ahead, inside the region, not touched yet. */
  predicate StrideWants(d: AccumulateData, i: nat)
    requires |d.pattern| == NUM_BLOCKS && i < NUM_BLOCKS
  {
    && !d.pattern[i]
    && exists n: nat :: 1 <= n <= STRIDE_DEGREE && StrideTarget(d, n) == i
  }

  function StridePattern(d: AccumulateData): (p: seq<nat>)
    requires |d.pattern| == NUM_BLOCKS
    ensures |p| == NUM_BLOCKS
  {
    seq(NUM_BLOCKS, i requires 0 <= i < NUM_BLOCKS => if StrideWants(d, i) then PF_FILL_L1 else 0)
  }

  // ---------------------------------------------------------------- pattern table

  function Levels(pattern: seq<bool>): (p: seq<nat>)
    ensures |p| == |pattern| && forall i :: 0 <= i < |p| ==> (p[i] != 0 <==> pattern[i])
  {
    seq(|pattern|, i requires 0 <= i < |pattern| => if pattern[i] then PF_FILL_L1 else 0)
  }

  predicate Streaming(trigger: Offset, second: Offset) { trigger == 0 && second == 1 }

  function HashedPc(pc: nat): nat { pc / 256 % 64 }

  function WithPc(pcs: seq<nat>, pc: nat): seq<nat> {
    if pc in pcs then pcs
    else [pc] + if |pcs| == 8 then pcs[..7] else pcs
  }

  predicate Full(d: AccumulateData) { forall i :: 0 <= i < |d.pattern| ==> d.pattern[i] }

  /** `PatternTable::insert`: remember a footprint, or count streaming regions. */
  function Learn(s: State, d: AccumulateData, victims: Victims): State {
    if !Streaming(d.trigger, d.second) then
      var key := (d.trigger, d.second);
      var room := if key in s.pt then s.pt else Drop(s.pt, victims.pt);
      s.(pt := room[key := PatternData(Levels(d.pattern), d.pc, false)])
    else if Full(d) then
      s.(conCounter := if s.conCounter < 8 then s.conCounter + 1 else s.conCounter,
         conPc := WithPc(s.conPc, HashedPc(d.pc)))
    else if s.conCounter > 2 then s
    else if s.conCounter > 0 then s.(conCounter := s.conCounter - 1)
    else s
  }

  /** A quarter of the region at one level, the rest at another. */
  function StreamPattern(near: nat, far: nat): (p: seq<nat>)
    ensures |p| == NUM_BLOCKS
  {
    seq(NUM_BLOCKS, i => if i < NUM_BLOCKS / 4 then near else far)
  }

  function Recall(s: State, trigger: Offset, second: Offset, pc: nat): Option<PatternData> {
    if !Streaming(trigger, second) then
      if (trigger, second) in s.pt then Some(s.pt[(trigger, second)]) else None
    else if s.conCounter == 8 || HashedPc(pc) in s.conPc then
      Some(PatternData(StreamPattern(PF_FILL_L1, PF_FILL_L2), 0, true))
    else if s.conCounter > 2 then Some(PatternData(StreamPattern(PF_FILL_L2, 0), 0, true))
    else None
  }

  function NonZero(): nat -> bool { (x: nat) => x != 0 }

  /** A pattern with nothing but its trigger and second counts as a miss. */
  predicate Useless(r: Option<PatternData>) { r.None? || Count(r.value.pattern, NonZero()) == 2 }

  // ---------------------------------------------------------------- accesses

  ghost predicate WellSized(s: State) {
    forall k :: k in s.at ==> |s.at[k].pattern| == |s.at[k].order| == NUM_BLOCKS
  }

  function AccessTracked(s: State, key: Key, o: Offset): (r: (State, Option<Request>))
    requires key in s.at && |s.at[key].pattern| == |s.at[key].order| == NUM_BLOCKS
  {
    var d := Touched(s.at[key], o);
    var flag := StrideFlag(s.at[key], o, s.stridePrefetch);
    if !flag then (s.(at := s.at[key := d], stridePrefetch := false), None)
    else
      var pattern := StridePattern(d);
      var begin := d.lastOffset;
      (s.(at := s.at[key := d.(lastOffset := 0, lastStride := 0)], stridePrefetch := false),
       if d.missed then Some(Request(key, pattern, begin, begin, 0))
       else if d.con then Some(Request(key, pattern, begin, begin, 3))
       else None)
  }

  /** The second offset of a region: recall a pattern, and move from the filter to the accumulate table. */
  function AccessSecond(s: State, key: Key, o: Offset, pc: nat, victims: Victims): (r: (State, Option<Request>))
    requires key in s.ft
  {
    var f := s.ft[key];
    var found := Recall(s, f.trigger, o, pc);
    var missed := Useless(found);
    var request := if missed then None
                   else Some(Request(key, found.value.pattern, f.trigger, o, if found.value.con then 2 else 1));
    var started := Started(f, o, missed, !missed && found.value.con);
    var t := s.(at := Drop(s.at, victims.at)[key := started], ft := s.ft - {key});
    (if victims.at.Some? && victims.at.value in s.at then Learn(t, s.at[victims.at.value], victims) else t, request)
  }

  function Access(s: State, key: Key, o: Offset, pc: nat, victims: Victims): (r: (State, Option<Request>))
    requires WellSized(s)
  {
    if key in s.at then AccessTracked(s, key, o)
    else if key !in s.ft then (s.(ft := Drop(s.ft, victims.ft)[key := FilterData(o, pc)]), None)
    else if s.ft[key].trigger != o then AccessSecond(s, key, o, pc, victims)
    else (s, None)
  }

  /** The region's generation ends: its footprint is learned. */
  function Evict(s: State, key: Key, victims: Victims): State {
    var t := s.(ft := s.ft - {key}, at := s.at - {key});
    if key in s.at then Learn(t, s.at[key], victims) else t
  }

  // ---------------------------------------------------------------- the specification

  /** First touches of each region: only the trigger, or the whole list, and the last footprint per pair. */
  datatype Spec = Spec(ft: map<Key, Offset>, at: map<Key, seq<Offset>>, pt: map<(Offset, Offset), seq<Offset>>)

  const NOTHING := Spec(map[], map[], map[])

  function Touch(l: seq<Offset>, o: Offset): seq<Offset> { if o in l then l else l + [o] }

  function SpecLearn(p: Spec, l: seq<Offset>, victims: Victims): Spec
    requires |l| >= 2
  {
    if Streaming(l[0], l[1]) then p
    else
      var room := if (l[0], l[1]) in p.pt then p.pt else Drop(p.pt, victims.pt);
      p.(pt := room[(l[0], l[1]) := l])
  }

  ghost predicate Long(p: Spec) { forall k :: k in p.at ==> |p.at[k]| >= 2 }

  function SpecAccess(p: Spec, key: Key, o: Offset, victims: Victims): Spec
    requires Long(p)
  {
    if key in p.at then p.(at := p.at[key := Touch(p.at[key], o)])
    else if key !in p.ft then p.(ft := Drop(p.ft, victims.ft)[key := o])
    else if p.ft[key] != o then
      var t := p.(at := Drop(p.at, victims.at)[key := [p.ft[key], o]], ft := p.ft - {key});
      if victims.at.Some? && victims.at.value in p.at then SpecLearn(t, p.at[victims.at.value], victims) else t
    else p
  }

  function SpecEvict(p: Spec, key: Key, victims: Victims): Spec
    requires Long(p)
  {
    var t := p.(ft := p.ft - {key}, at := p.at - {key});
    if key in p.at then SpecLearn(t, p.at[key], victims) else t
  }

  // ---------------------------------------------------------------- refinement

  /** Pattern, order and time stamp are exactly the first-touch list: bit, place, and length. */
  ghost predicate Represents(d: AccumulateData, l: seq<Offset>) {
    && |d.pattern| == |d.order| == NUM_BLOCKS
    && |l| >= 2 && d.trigger == l[0] && d.second == l[1] && d.timestamp == |l|
    && Distinct(l)
    && (forall i :: 0 <= i < |l| ==> d.order[l[i]] == i + 1)
    && forall o: Offset :: d.pattern[o] <==> o in l
  }

  ghost predicate Footprint(d: PatternData, l: seq<Offset>) {
    && |d.pattern| == NUM_BLOCKS && |l| >= 2 && Distinct(l)
    && forall o: Offset :: d.pattern[o] != 0 <==> o in l
  }

  ghost predicate Refines(s: State, p: Spec) {
    && s.ft.Keys == p.ft.Keys && (forall k :: k in s.ft ==> s.ft[k].trigger == p.ft[k])
    && s.at.Keys == p.at.Keys && (forall k :: k in s.at ==> Represents(s.at[k], p.at[k]))
    && s.pt.Keys == p.pt.Keys
    && (forall k :: k in s.pt ==> Footprint(s.pt[k], p.pt[k]) && p.pt[k][0] == k.0 && p.pt[k][1] == k.1)
    && s.ft.Keys !! s.at.Keys
  }

  /** Streaming state: a counter up to eight, and up to eight different hashed counters. */
  ghost predicate StreamInv(s: State) { s.conCounter <= 8 && |s.conPc| <= 8 && Distinct(s.conPc) }

  lemma RefinesSized(s: State, p: Spec)
    requires Refines(s, p)
    ensures WellSized(s) && Long(p)
  {
  }

  lemma TouchRepresents(d: AccumulateData, l: seq<Offset>, o: Offset)
    requires Represents(d, l)
    ensures Represents(Touched(d, o), Touch(l, o))
  {
    if o !in l {
      var m := l + [o];
      assert m[|l|] == o;
      forall x: Offset ensures Touched(d, o).pattern[x] <==> x in m {
      }
    }
  }

  lemma StartRepresents(f: FilterData, o: Offset, missed: bool, con: bool)
    requires f.trigger != o
    ensures Represents(Started(f, o, missed, con), [f.trigger, o])
  {
  }

  lemma LearnStreams(s: State, p: Spec, d: AccumulateData, victims: Victims)
    requires Refines(s, p) && StreamInv(s) && Streaming(d.trigger, d.second)
    ensures Refines(Learn(s, d, victims), p) && StreamInv(Learn(s, d, victims))
  {
    WithPcKeeps(s.conPc, HashedPc(d.pc));
    hide Represents;
    hide Footprint;
    hide WithPc;
  }

  lemma LearnsFootprint(s: State, p: Spec, key: (Offset, Offset), d: PatternData, l: seq<Offset>,
                        victim: Option<(Offset, Offset)>)
    requires Refines(s, p) && Footprint(d, l) && |l| >= 2 && l[0] == key.0 && l[1] == key.1
    ensures Refines(s.(pt := (if key in s.pt then s.pt else Drop(s.pt, victim))[key := d]),
                    p.(pt := (if key in p.pt then p.pt else Drop(p.pt, victim))[key := l]))
  {
    hide Represents;
    hide Footprint;
  }

  lemma LearnRefines(s: State, p: Spec, d: AccumulateData, l: seq<Offset>, victims: Victims)
    requires Refines(s, p) && StreamInv(s) && Represents(d, l)
    ensures d.pattern[d.trigger] && d.pattern[d.second]
    ensures Refines(Learn(s, d, victims), SpecLearn(p, l, victims)) && StreamInv(Learn(s, d, victims))
  {
    assert l[0] in l && l[1] in l;
    if Streaming(d.trigger, d.second) {
      hide Refines;
      LearnStreams(s, p, d, victims);
    } else {
      var learned := PatternData(Levels(d.pattern), d.pc, false);
      assert Footprint(learned, l);
      assert (l[0], l[1]) == (d.trigger, d.second);
      hide Refines;
      hide Represents;
      hide Footprint;
      LearnsFootprint(s, p, (d.trigger, d.second), learned, l, victims.pt);
      assert s.pt.Keys == p.pt.Keys by { SameKeys(s, p); }
    }
  }

  lemma SameKeys(s: State, p: Spec)
    requires Refines(s, p)
    ensures s.pt.Keys == p.pt.Keys
  {
  }

  lemma WithPcKeeps(pcs: seq<nat>, pc: nat)
    requires |pcs| <= 8 && Distinct(pcs)
    ensures |WithPc(pcs, pc)| <= 8 && Distinct(WithPc(pcs, pc)) && pc in WithPc(pcs, pc)
  {
  }

  /** A tracked access changes its own entry and clears the flag. */
  lemma TrackedState(s: State, key: Key, o: Offset)
    requires key in s.at && |s.at[key].pattern| == |s.at[key].order| == NUM_BLOCKS
    ensures var t := AccessTracked(s, key, o).0;
            var d := Touched(s.at[key], o);
            && key in t.at && (t.at[key] == d || t.at[key] == d.(lastOffset := 0, lastStride := 0))
            && t == s.(at := s.at[key := t.at[key]], stridePrefetch := false)
  {
    hide Touched;
    hide StrideFlag;
  }

  lemma EntryRefines(s: State, p: Spec, key: Key, d: AccumulateData, l: seq<Offset>, flag: bool)
    requires Refines(s, p) && key in s.at && Represents(d, l)
    ensures Refines(s.(at := s.at[key := d], stridePrefetch := flag), p.(at := p.at[key := l]))
  {
    hide Represents;
    hide Footprint;
  }

  lemma TrackedRefines(s: State, p: Spec, key: Key, o: Offset)
    requires Refines(s, p) && StreamInv(s) && key in s.at
    ensures |s.at[key].pattern| == |s.at[key].order| == NUM_BLOCKS
    ensures var t := AccessTracked(s, key, o).0;
            Refines(t, p.(at := p.at[key := Touch(p.at[key], o)])) && StreamInv(t)
  {
    assert Represents(s.at[key], p.at[key]);
    TouchRepresents(s.at[key], p.at[key], o);
    StrideRepresents(Touched(s.at[key], o), Touch(p.at[key], o));
    TrackedState(s, key, o);
    hide Represents;
    hide Touched;
    hide Touch;
    hide AccessTracked;
    EntryRefines(s, p, key, AccessTracked(s, key, o).0.at[key], Touch(p.at[key], o), false);
    hide Refines;
  }

  lemma StrideRepresents(d: AccumulateData, l: seq<Offset>)
    requires Represents(d, l)
    ensures Represents(d.(lastOffset := 0, lastStride := 0), l)
  {
  }

  lemma MoveRefines(s: State, p: Spec, key: Key, d: AccumulateData, l: seq<Offset>, victim: Option<Key>)
    requires Refines(s, p) && key in s.ft && Represents(d, l)
    ensures Refines(s.(at := Drop(s.at, victim)[key := d], ft := s.ft - {key}),
                    p.(at := Drop(p.at, victim)[key := l], ft := p.ft - {key}))
  {
    hide Represents;
    hide Footprint;
  }

  lemma SecondRefines(s: State, p: Spec, key: Key, o: Offset, pc: nat, victims: Victims)
    requires Refines(s, p) && StreamInv(s) && key in s.ft && s.ft[key].trigger != o && Long(p)
    ensures var t := AccessSecond(s, key, o, pc, victims).0;
            Refines(t, SpecAccess(p, key, o, victims)) && StreamInv(t)
  {
    var f := s.ft[key];
    var found := Recall(s, f.trigger, o, pc);
    var started := Started(f, o, Useless(found), !Useless(found) && found.value.con);
    StartRepresents(f, o, Useless(found), !Useless(found) && found.value.con);
    var t := s.(at := Drop(s.at, victims.at)[key := started], ft := s.ft - {key});
    var q := p.(at := Drop(p.at, victims.at)[key := [p.ft[key], o]], ft := p.ft - {key});
    MoveRefines(s, p, key, started, [f.trigger, o], victims.at);
    assert SpecAccess(p, key, o, victims) ==
      if victims.at.Some? && victims.at.value in p.at then SpecLearn(q, p.at[victims.at.value], victims) else q;
    hide Represents;
    hide Started;
    hide Recall;
    hide Useless;
    hide Learn;
    hide SpecLearn;
    hide Long;
    if victims.at.Some? && victims.at.value in s.at {
      LearnRefines(t, q, s.at[victims.at.value], p.at[victims.at.value], victims);
    }
  }

  /** Every access refines the specification and keeps the streaming bounds. */
  lemma AccessRefines(s: State, p: Spec, key: Key, o: Offset, pc: nat, victims: Victims)
    requires Refines(s, p) && StreamInv(s) && WellSized(s) && Long(p)
    ensures var t := Access(s, key, o, pc, victims).0;
            Refines(t, SpecAccess(p, key, o, victims)) && StreamInv(t)
  {
    if key in s.at {
      TrackedRefines(s, p, key, o);
    } else if key !in s.ft {
      hide Represents;
      hide Footprint;
    } else if s.ft[key].trigger != o {
      SecondRefines(s, p, key, o, pc, victims);
    }
  }

  lemma EvictRefines(s: State, p: Spec, key: Key, victims: Victims)
    requires Refines(s, p) && StreamInv(s) && Long(p)
    ensures var t := Evict(s, key, victims);
            Refines(t, SpecEvict(p, key, victims)) && StreamInv(t)
  {
    var t := s.(ft := s.ft - {key}, at := s.at - {key});
    var q := p.(ft := p.ft - {key}, at := p.at - {key});
    hide Represents;
    hide Footprint;
    assert Refines(t, q);
    if key in s.at {
      LearnRefines(t, q, s.at[key], p.at[key], victims);
    }
  }

  // ---------------------------------------------------------------- runs

  datatype Event =
    | Touches(key: Key, offset: Offset, pc: nat, victims: Victims)
    | Ends(key: Key, victims: Victims)

  function Apply(s: State, e: Event): State
    requires WellSized(s)
  {
    match e
    case Touches(key, o, pc, victims) => Access(s, key, o, pc, victims).0
    case Ends(key, victims) => Evict(s, key, victims)
  }

  function SpecApply(p: Spec, e: Event): Spec
    requires Long(p)
  {
    match e
    case Touches(key, o, _, victims) => SpecAccess(p, key, o, victims)
    case Ends(key, victims) => SpecEvict(p, key, victims)
  }

  lemma ApplyRefines(s: State, p: Spec, e: Event)
    requires Refines(s, p) && StreamInv(s)
    ensures WellSized(s) && Long(p)
    ensures Refines(Apply(s, e), SpecApply(p, e)) && StreamInv(Apply(s, e))
  {
    RefinesSized(s, p);
    match e
    case Touches(key, o, pc, victims) => AccessRefines(s, p, key, o, pc, victims);
    case Ends(key, victims) => EvictRefines(s, p, key, victims);
  }

  /** The tables and their specification after the same events. */
  ghost function Run(s: State, p: Spec, events: seq<Event>): (r: (State, Spec))
    requires Refines(s, p) && StreamInv(s)
    ensures Refines(r.0, r.1) && StreamInv(r.0)
    decreases |events|
  {
    if events == [] then (s, p)
    else
      ApplyRefines(s, p, events[0]);
      Run(Apply(s, events[0]), SpecApply(p, events[0]), events[1..])
  }

  // ---------------------------------------------------------------- what the tables mean

  function IsSet(): bool -> bool { (b: bool) => b }

  lemma {:induction false} CountMembers(pattern: seq<bool>, l: seq<Offset>)
    requires |pattern| == NUM_BLOCKS && Distinct(l) && forall o: Offset :: pattern[o] <==> o in l
    ensures Count(pattern, IsSet()) == |l|
    decreases |l|
  {
    if l == [] {
      CountZero(pattern, IsSet());
      forall i | 0 <= i < |pattern| ensures !pattern[i] {
        var o: Offset := i;
        assert o !in l;
      }
    } else {
      var o, rest := l[|l| - 1], l[..|l| - 1];
      var p := pattern[o := false];
      CountUpdate(pattern, o, false, IsSet());
      assert pattern[o];
      forall x: Offset ensures p[x] <==> x in rest {
        if x != o && x in l {
          var i :| 0 <= i < |l| && l[i] == x;
          assert rest[i] == x;
        }
      }
      CountMembers(p, rest);
    }
  }

  /** Some offset was touched as the `n`-th. */
  ghost predicate HasPlace(d: AccumulateData, n: nat)
    requires |d.pattern| == |d.order| == NUM_BLOCKS
  {
    exists o: Offset :: d.pattern[o] && d.order[o] == n
  }

  /**
   * Trigger and second are set and different, the time stamp is the number of set bits, and the orders of the set
   * bits are exactly 1 to the time stamp.
   */
  ghost predicate FirstTouchOrder(d: AccumulateData) {
    && |d.pattern| == |d.order| == NUM_BLOCKS
    && d.pattern[d.trigger] && d.pattern[d.second] && d.trigger != d.second
    && d.order[d.trigger] == 1 && d.order[d.second] == 2
    && d.timestamp == Count(d.pattern, IsSet())
    && (forall o: Offset :: d.pattern[o] ==> 1 <= d.order[o] <= d.timestamp)
    && (forall x: Offset, y: Offset :: d.pattern[x] && d.pattern[y] && x != y ==> d.order[x] != d.order[y])
    && forall n :: 1 <= n <= d.timestamp ==> HasPlace(d, n)
  }

  lemma RepresentsOrder(d: AccumulateData, l: seq<Offset>)
    requires Represents(d, l)
    ensures FirstTouchOrder(d)
  {
    CountMembers(d.pattern, l);
    assert l[0] in l && l[1] in l;
    forall o: Offset | d.pattern[o] ensures exists i :: 0 <= i < |l| && l[i] == o && d.order[o] == i + 1 {
    }
    forall n | 1 <= n <= d.timestamp ensures HasPlace(d, n) {
      assert d.pattern[l[n - 1]];
    }
  }

  lemma InitialRefines()
    ensures Refines(INITIAL, NOTHING) && StreamInv(INITIAL)
  {
  }

  /** On every run, every accumulate entry is in first-touch order, and its key is not in the filter. */
  lemma EntryIsFirstTouchOrder(events: seq<Event>, key: Key)
    ensures Refines(INITIAL, NOTHING) && StreamInv(INITIAL)
    ensures var s := Run(INITIAL, NOTHING, events).0;
            key in s.at ==> key !in s.ft && FirstTouchOrder(s.at[key])
  {
    InitialRefines();
    var (s, p) := Run(INITIAL, NOTHING, events);
    if key in s.at {
      RepresentsOrder(s.at[key], p.at[key]);
    }
  }

  /** On every run, a recalled footprint is the last one that ended with this trigger and second, bit for bit. */
  lemma RecallsFootprint(events: seq<Event>, trigger: Offset, second: Offset, pc: nat)
    requires !Streaming(trigger, second)
    ensures Refines(INITIAL, NOTHING) && StreamInv(INITIAL)
    ensures var (s, p) := Run(INITIAL, NOTHING, events);
            var r := Recall(s, trigger, second, pc);
            && (r.Some? <==> (trigger, second) in p.pt)
            && (r.Some? ==>
                  && |r.value.pattern| == NUM_BLOCKS
                  && (forall o: Offset :: r.value.pattern[o] != 0 <==> o in p.pt[(trigger, second)])
                  && r.value.pattern[trigger] != 0 && r.value.pattern[second] != 0)
  {
    InitialRefines();
    var (s, p) := Run(INITIAL, NOTHING, events);
    if (trigger, second) in s.pt {
      var l := p.pt[(trigger, second)];
      assert Footprint(s.pt[(trigger, second)], l);
      assert l[0] in l && l[1] in l;
    }
  }

  // ---------------------------------------------------------------- the streaming counter

  /** The accumulated region that an event hands to the pattern table. */
  function Handed(s: State, e: Event): Option<AccumulateData> {
    match e
    case Touches(key, o, _, victims) =>
      if key !in s.at && key in s.ft && s.ft[key].trigger != o && victims.at.Some? && victims.at.value in s.at
      then Some(s.at[victims.at.value]) else None
    case Ends(key, _) => if key in s.at then Some(s.at[key]) else None
  }

  lemma LearnCounts(s: State, d: AccumulateData, victims: Victims)
    ensures Learn(s, d, victims).conCounter < s.conCounter <==>
              Streaming(d.trigger, d.second) && !Full(d) && 0 < s.conCounter <= 2
    ensures Learn(s, d, victims).conCounter > s.conCounter <==>
              Streaming(d.trigger, d.second) && Full(d) && s.conCounter < 8
    ensures s.conCounter - 1 <= Learn(s, d, victims).conCounter <= s.conCounter + 1
  {
  }

  /**
   * The shift of the counter has no effect. It falls, by one, exactly when a streaming region that was not touched
   * in full ends at a count of one or two: once above two it never falls back.
   */
  lemma StreamingFallsExactly(s: State, e: Event)
    requires WellSized(s)
    ensures var d, t := Handed(s, e), Apply(s, e);
            && s.conCounter - 1 <= t.conCounter <= s.conCounter + 1
            && (t.conCounter < s.conCounter <==>
                  d.Some? && Streaming(d.value.trigger, d.value.second) && !Full(d.value) && 0 < s.conCounter <= 2)
            && (t.conCounter > s.conCounter <==>
                  d.Some? && Streaming(d.value.trigger, d.value.second) && Full(d.value) && s.conCounter < 8)
  {
    hide Recall, Started, Touched, Full, Useless;
    match e
    case Touches(key, o, pc, victims) =>
      if key !in s.at && key in s.ft && s.ft[key].trigger != o {
        SecondCounter(s, key, o, pc, victims);
      }
    case Ends(key, victims) =>
      if key in s.at {
        LearnCounts(s.(ft := s.ft - {key}, at := s.at - {key}), s.at[key], victims);
      }
  }

  lemma SecondCounter(s: State, key: Key, o: Offset, pc: nat, victims: Victims)
    requires key in s.ft
    ensures var t := AccessSecond(s, key, o, pc, victims).0;
            if victims.at.Some? && victims.at.value in s.at then
              var d := s.at[victims.at.value];
              && s.conCounter - 1 <= t.conCounter <= s.conCounter + 1
              && (t.conCounter < s.conCounter <==>
                    Streaming(d.trigger, d.second) && !Full(d) && 0 < s.conCounter <= 2)
              && (t.conCounter > s.conCounter <==> Streaming(d.trigger, d.second) && Full(d) && s.conCounter < 8)
            else t.conCounter == s.conCounter
  {
    hide Recall, Started, Full, Streaming;
    var f := s.ft[key];
    var found := Recall(s, f.trigger, o, pc);
    var missed := Useless(found);
    var started := Started(f, o, missed, !missed && found.value.con);
    var t := s.(at := Drop(s.at, victims.at)[key := started], ft := s.ft - {key});
    if victims.at.Some? && victims.at.value in s.at {
      LearnCounts(t, s.at[victims.at.value], victims);
      hide Learn;
    }
  }

  /** No table is full. */
  const NONE := Victims(None, None, None)

  /** Touch the rest of region 0 from block `i` on, and end it. */
  function Sweep(i: nat): seq<Event>
    decreases NUM_BLOCKS - i
  {
    if i >= NUM_BLOCKS then [Ends(0, NONE)] else [Touches(0, i, 0, NONE)] + Sweep(i + 1)
  }

  function FirstBlocks(n: nat): (l: seq<Offset>)
    requires n <= NUM_BLOCKS
    ensures |l| == n
  {
    seq(n, i requires 0 <= i < n => i as Offset)
  }

  lemma {:induction false} RunThen(s: State, p: Spec, a: seq<Event>, b: seq<Event>)
    requires Refines(s, p) && StreamInv(s)
    ensures Run(s, p, a + b) == Run(Run(s, p, a).0, Run(s, p, a).1, b)
    decreases |a|
  {
    hide Refines, Apply, SpecApply, StreamInv;
    if a == [] {
      assert a + b == b;
    } else {
      ApplyRefines(s, p, a[0]);
      assert (a + b)[1..] == a[1..] + b;
      RunThen(Apply(s, a[0]), SpecApply(p, a[0]), a[1..], b);
    }
  }

  lemma RunOne(s: State, p: Spec, e: Event)
    requires Refines(s, p) && StreamInv(s)
    ensures WellSized(s) && Long(p) && Run(s, p, [e]) == (Apply(s, e), SpecApply(p, e))
  {
    hide Refines, Apply, SpecApply, StreamInv;
    ApplyRefines(s, p, e);
    assert [e][1..] == [];
  }

  lemma SweepStep(s: State, p: Spec, i: Offset)
    requires Refines(s, p) && StreamInv(s) && 0 in s.at && 2 <= i && p.at[0] == FirstBlocks(i)
    ensures WellSized(s) && Long(p)
    ensures var t, q := Apply(s, Touches(0, i, 0, NONE)), SpecApply(p, Touches(0, i, 0, NONE));
            0 in t.at && 0 in q.at && q.at[0] == FirstBlocks(i + 1) && t.conCounter == s.conCounter
  {
    RefinesSized(s, p);
    TrackedState(s, 0, i);
    hide Refines, Touched, AccessTracked;
    assert FirstBlocks(i) + [i] == FirstBlocks(i + 1);
  }

  lemma SweepEnds(s: State, p: Spec)
    requires Refines(s, p) && StreamInv(s) && 0 in s.at && p.at[0] == FirstBlocks(NUM_BLOCKS)
    ensures WellSized(s) && Long(p)
    ensures var t := Apply(s, Ends(0, NONE));
            t.conCounter == (if s.conCounter < 8 then s.conCounter + 1 else 8) && 0 !in t.at && 0 !in t.ft
  {
    RefinesSized(s, p);
    var d, l := s.at[0], p.at[0];
    assert Represents(d, l);
    assert l[0] == 0 && l[1] == 1;
    forall o: Offset ensures d.pattern[o] {
      assert l[o] == o;
    }
  }

  lemma {:induction false} SweepCounts(s: State, p: Spec, i: nat)
    requires Refines(s, p) && StreamInv(s) && 0 in s.at && 2 <= i <= NUM_BLOCKS && p.at[0] == FirstBlocks(i)
    ensures var t := Run(s, p, Sweep(i)).0;
            t.conCounter == (if s.conCounter < 8 then s.conCounter + 1 else 8) && 0 !in t.at && 0 !in t.ft
    decreases NUM_BLOCKS - i
  {
    hide Refines, StreamInv, Apply, SpecApply, FirstBlocks;
    if i == NUM_BLOCKS {
      SweepEnds(s, p);
      RunOne(s, p, Ends(0, NONE));
    } else {
      var e := Touches(0, i, 0, NONE);
      SweepStep(s, p, i);
      ApplyRefines(s, p, e);
      SweepCounts(Apply(s, e), SpecApply(p, e), i + 1);
      RunOne(s, p, e);
      RunThen(s, p, [e], Sweep(i + 1));
    }
  }

  /** The first two blocks of a region: it is accumulated from then on. */
  const OPEN: seq<Event> := [Touches(0, 0, 0, NONE), Touches(0, 1, 0, NONE)]

  lemma OpenRegion(s: State, p: Spec)
    requires Refines(s, p) && StreamInv(s) && 0 !in s.at && 0 !in s.ft
    ensures var (t, q) := Run(s, p, OPEN);
            0 in t.at && q.at[0] == FirstBlocks(2) && t.conCounter == s.conCounter
  {
    var a, b := Touches(0, 0, 0, NONE), Touches(0, 1, 0, NONE);
    RefinesSized(s, p);
    RunOne(s, p, a);
    var t, q := Apply(s, a), SpecApply(p, a);
    ApplyRefines(s, p, a);
    RunOne(t, q, b);
    assert OPEN == [a] + [b];
    RunThen(s, p, [a], [b]);
    assert FirstBlocks(2) == [0, 1];
    hide Refines, StreamInv, Recall, Useless, Started, Represents;
    assert t.ft[0].trigger == 0 && 0 !in t.at;
  }

  /** One region touched in full counts once. */
  lemma WholeRegion(s: State, p: Spec)
    requires Refines(s, p) && StreamInv(s) && 0 !in s.at && 0 !in s.ft
    ensures var t := Run(s, p, OPEN + Sweep(2)).0;
            t.conCounter == (if s.conCounter < 8 then s.conCounter + 1 else 8) && 0 !in t.at && 0 !in t.ft
  {
    hide Refines, StreamInv, FirstBlocks, Sweep;
    OpenRegion(s, p);
    var (t, q) := Run(s, p, OPEN);
    SweepCounts(t, q, 2);
    RunThen(s, p, OPEN, Sweep(2));
  }

  /** Full streaming regions, and then one of which only two blocks are touched. */
  const STICKING: seq<Event> := OPEN + Sweep(2) + (OPEN + Sweep(2)) + (OPEN + Sweep(2)) + OPEN

  /** A run that takes the counter to three, and a streaming region, not touched in full, that leaves it there. */
  lemma CounterSticks()
    ensures Refines(INITIAL, NOTHING) && StreamInv(INITIAL)
    ensures var s, e := Run(INITIAL, NOTHING, STICKING).0, Ends(0, NONE);
            && s.conCounter == 3 && Handed(s, e).Some?
            && Streaming(Handed(s, e).value.trigger, Handed(s, e).value.second) && !Full(Handed(s, e).value)
            && Run(INITIAL, NOTHING, STICKING + [e]).0.conCounter == 3
  {
    InitialRefines();
    var one := OPEN + Sweep(2);
    WholeRegion(INITIAL, NOTHING);
    var (s1, p1) := Run(INITIAL, NOTHING, one);
    WholeRegion(s1, p1);
    RunThen(INITIAL, NOTHING, one, one);
    var (s2, p2) := Run(s1, p1, one);
    WholeRegion(s2, p2);
    RunThen(INITIAL, NOTHING, one + one, one);
    var (s3, p3) := Run(s2, p2, one);
    OpenRegion(s3, p3);
    RunThen(INITIAL, NOTHING, one + one + one, OPEN);
    var (s4, p4) := Run(s3, p3, OPEN);
    TwoBlocks(s4, p4);
    var e := Ends(0, NONE);
    RunOne(s4, p4, e);
    RunThen(INITIAL, NOTHING, STICKING, [e]);
    hide Refines, StreamInv, Sweep, Apply;
    StreamingFallsExactly(s4, e);
  }

  lemma TwoBlocks(s: State, p: Spec)
    requires Refines(s, p) && 0 in s.at && p.at[0] == FirstBlocks(2)
    ensures WellSized(s) && s.at[0].trigger == 0 && s.at[0].second == 1 && !Full(s.at[0])
  {
    RefinesSized(s, p);
    var l := p.at[0];
    assert Represents(s.at[0], l) && l == [0, 1];
    assert (2 as Offset) !in l;
  }

  /** The stride pattern of a tracked access never asks for a block of the region that was touched. */
  lemma StrideAsksForNewBlocks(s: State, p: Spec, key: Key, o: Offset, pc: nat, victims: Victims, x: Offset)
    requires Refines(s, p) && WellSized(s) && Long(p) && key in s.at
    ensures var r := Access(s, key, o, pc, victims).1;
            r.Some? ==>
              && |r.value.pattern| == NUM_BLOCKS
              && (r.value.pattern[x] != 0 ==> x !in SpecAccess(p, key, o, victims).at[key])
  {
    TouchRepresents(s.at[key], p.at[key], o);
  }
}
