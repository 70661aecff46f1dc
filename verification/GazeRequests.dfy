/** What Gaze asks for on every run, block by block, in terms of the regions and accesses it has seen. */
module GazeRequests {
  import opened Gaze
  import opened Seqs
  import opened Wrappers

  // ---------------------------------------------------------------- what was seen

  /** A region that began with blocks 0 and 1 has ended: whether all of it was touched, and who touched it first. */
  datatype Ended = Ended(full: bool, pc: nat)

  /** The program counter of the first access of every region, and the regions above that have ended. */
  datatype Log = Log(pcs: map<Key, nat>, ends: seq<Ended>)

  const NO_LOG := Log(map[], [])

  /** The region that an event hands to the pattern table. */
  function Closed(p: Spec, e: Event): Option<Key> {
    match e
    case Touches(key, o, _, victims) =>
      if key !in p.at && key in p.ft && p.ft[key] != o && victims.at.Some? && victims.at.value in p.at then victims.at
      else None
    case Ends(key, _) => if key in p.at then Some(key) else None
  }

  function Starter(log: Log, key: Key): nat { if key in log.pcs then log.pcs[key] else 0 }

  function Noted(log: Log, p: Spec, e: Event): Log
    requires Long(p)
  {
    var c := Closed(p, e);
    Log(if e.Touches? && e.key !in p.ft && e.key !in p.at then log.pcs[e.key := e.pc] else log.pcs,
        if c.Some? && p.at[c.value][0] == 0 && p.at[c.value][1] == 1
        then log.ends + [Ended(|p.at[c.value]| == 64, Starter(log, c.value))] else log.ends)
  }

  /** The log of a run. */
  ghost function Logged(s: State, p: Spec, log: Log, events: seq<Event>): Log
    requires Refines(s, p) && StreamInv(s)
    decreases |events|
  {
    if events == [] then log
    else
      ApplyRefines(s, p, events[0]);
      Logged(Apply(s, events[0]), SpecApply(p, events[0]), Noted(log, p, events[0]), events[1..])
  }

  // ---------------------------------------------------------------- what is remembered of it

  /** One up for a region touched in full, at most eight; one down for another, but only from one or two. */
  function Level(ends: seq<Ended>): (c: nat)
    ensures c <= 8
  {
    if ends == [] then 0
    else
      var c, e := Level(ends[..|ends| - 1]), ends[|ends| - 1];
      if e.full then (if c == 8 then 8 else c + 1)
      else if c == 1 || c == 2 then c - 1
      else c
  }

  function LastEight(l: seq<nat>): seq<nat> { if |l| <= 8 then l else l[|l| - 8..] }

  /** The hashed counters of the full regions, leaving out those that are among the last eight at the time. */
  function Entered(ends: seq<Ended>): seq<nat> {
    if ends == [] then []
    else
      var l, e := Entered(ends[..|ends| - 1]), ends[|ends| - 1];
      if !e.full || e.pc / 256 % 64 in LastEight(l) then l else l + [e.pc / 256 % 64]
  }

  /** The deque has the most recent one in front. */
  ghost predicate Mirrors(pcs: seq<nat>, l: seq<nat>) {
    |pcs| == |LastEight(l)| && forall i :: 0 <= i < |pcs| ==> pcs[i] == LastEight(l)[|pcs| - 1 - i]
  }

  /** The counter and the deque are functions of the ended regions. */
  ghost predicate Counted(s: State, ends: seq<Ended>) {
    s.conCounter == Level(ends) && Mirrors(s.conPc, Entered(ends))
  }

  ghost predicate Plain(d: PatternData) {
    !d.con && forall i :: 0 <= i < |d.pattern| ==> d.pattern[i] == 0 || d.pattern[i] == 1
  }

  ghost predicate Follows(s: State, log: Log) {
    && (forall k :: k in s.ft ==> s.ft[k].pc == Starter(log, k))
    && (forall k :: k in s.at ==> s.at[k].pc == Starter(log, k))
    && (forall k :: k in s.pt ==> Plain(s.pt[k]))
    && !s.stridePrefetch
  }

  // ---------------------------------------------------------------- learning

  lemma {:induction false} CountAll<T>(s: seq<T>, p: T -> bool)
    ensures Count(s, p) <= |s|
    ensures Count(s, p) == |s| <==> forall i :: 0 <= i < |s| ==> p(s[i])
  {
    if s != [] {
      CountAll(s[1..], p);
      assert forall i :: 0 < i < |s| ==> s[i] == s[1..][i - 1];
    }
  }

  lemma FullLength(d: AccumulateData, l: seq<Offset>)
    requires Represents(d, l)
    ensures Full(d) <==> |l| == 64
  {
    CountMembers(d.pattern, l);
    CountAll(d.pattern, IsSet());
  }

  /** What an accumulated region looks like when it is handed over. */
  lemma HandedOver(s: State, p: Spec, key: Key)
    requires Refines(s, p) && key in s.at
    ensures key in p.at && |p.at[key]| >= 2
    ensures s.at[key].trigger == p.at[key][0] && s.at[key].second == p.at[key][1]
    ensures Full(s.at[key]) <==> |p.at[key]| == 64
  {
    hide Footprint;
    assert Represents(s.at[key], p.at[key]);
    FullLength(s.at[key], p.at[key]);
    hide Full;
  }

  lemma EnteredStep(ends: seq<Ended>, e: Ended)
    ensures var l := Entered(ends);
            Entered(ends + [e]) == if !e.full || e.pc / 256 % 64 in LastEight(l) then l else l + [e.pc / 256 % 64]
    ensures var c := Level(ends);
            Level(ends + [e]) == if e.full then (if c == 8 then 8 else c + 1)
                                 else if c == 1 || c == 2 then c - 1 else c
  {
    assert (ends + [e])[..|ends|] == ends;
  }

  /** Pushing in front of the deque is appending to what entered. */
  lemma PushedFront(pcs: seq<nat>, l: seq<nat>, h: nat)
    requires Mirrors(pcs, l)
    ensures h in pcs <==> h in LastEight(l)
    ensures Mirrors(WithPc(pcs, h), if h in LastEight(l) then l else l + [h])
  {
    var last := LastEight(l);
    forall i | 0 <= i < |last| ensures last[i] in pcs {
      assert last[i] == pcs[|pcs| - 1 - i];
    }
  }

  lemma StreamLearns(s: State, d: AccumulateData, victims: Victims)
    requires d.trigger == 0 && d.second == 1 && s.conCounter <= 8
    ensures var t, c := Learn(s, d, victims), s.conCounter;
            && t.conCounter == (if Full(d) then (if c == 8 then 8 else c + 1)
                                else if c == 1 || c == 2 then c - 1 else c)
            && t.conPc == if Full(d) then WithPc(s.conPc, HashedPc(d.pc)) else s.conPc
  {
    hide Full, WithPc;
  }

  lemma LearnCounted(s: State, d: AccumulateData, full: bool, ends: seq<Ended>, victims: Victims)
    requires Counted(s, ends) && (full <==> Full(d))
    ensures Counted(Learn(s, d, victims),
                    if d.trigger == 0 && d.second == 1 then ends + [Ended(full, d.pc)] else ends)
  {
    hide WithPc, Full, LastEight, Entered, Mirrors;
    if d.trigger == 0 && d.second == 1 {
      EnteredStep(ends, Ended(full, d.pc));
      PushedFront(s.conPc, Entered(ends), HashedPc(d.pc));
      StreamLearns(s, d, victims);
      hide Level, Learn;
    }
  }

  lemma LearnFollows(s: State, d: AccumulateData, victims: Victims, log: Log, ends: seq<Ended>)
    requires Follows(s, log)
    ensures Follows(Learn(s, d, victims), log.(ends := ends))
  {
    assert Plain(PatternData(Levels(d.pattern), d.pc, false));
    hide Plain, Full, WithPc, Levels;
  }

  // ---------------------------------------------------------------- every event

  lemma StartsFollow(s: State, p: Spec, key: Key, o: Offset, pc: nat, victims: Victims, log: Log)
    requires Follows(s, log) && WellSized(s) && Refines(s, p) && key !in s.at && key !in s.ft && Long(p)
    ensures Follows(Access(s, key, o, pc, victims).0, Noted(log, p, Touches(key, o, pc, victims)))
  {
    hide Plain, AccessTracked, AccessSecond, Represents, Footprint;
  }

  lemma TracksFollow(s: State, p: Spec, key: Key, o: Offset, pc: nat, victims: Victims, log: Log)
    requires Follows(s, log) && WellSized(s) && key in s.at
    ensures Follows(Access(s, key, o, pc, victims).0, log)
  {
    TrackedState(s, key, o);
    assert Touched(s.at[key], o).pc == s.at[key].pc;
    hide Touched, AccessTracked, AccessSecond, Plain;
  }

  lemma SecondFollows(s: State, key: Key, o: Offset, pc: nat, victims: Victims, log: Log, ends: seq<Ended>)
    requires Follows(s, log) && key in s.ft
    ensures Follows(AccessSecond(s, key, o, pc, victims).0, log.(ends := ends))
  {
    var f := s.ft[key];
    var found := Recall(s, f.trigger, o, pc);
    var started := Started(f, o, Useless(found), !Useless(found) && found.value.con);
    assert started.pc == f.pc;
    var t := s.(at := Drop(s.at, victims.at)[key := started], ft := s.ft - {key});
    hide Plain, Recall, Useless, Learn, Started;
    assert Follows(t, log.(ends := ends));
    if victims.at.Some? && victims.at.value in s.at {
      LearnFollows(t, s.at[victims.at.value], victims, log, ends);
    }
  }

  lemma SecondCounted(s: State, p: Spec, key: Key, o: Offset, pc: nat, victims: Victims, log: Log)
    requires Refines(s, p) && StreamInv(s) && Follows(s, log) && Counted(s, log.ends) && Long(p)
    requires key in s.ft && s.ft[key].trigger != o
    ensures Counted(AccessSecond(s, key, o, pc, victims).0, Noted(log, p, Touches(key, o, pc, victims)).ends)
  {
    var f := s.ft[key];
    var found := Recall(s, f.trigger, o, pc);
    var started := Started(f, o, Useless(found), !Useless(found) && found.value.con);
    var t := s.(at := Drop(s.at, victims.at)[key := started], ft := s.ft - {key});
    hide Recall, Useless, Learn, Started, Level, LastEight, Entered, Footprint, Plain;
    assert Counted(t, log.ends);
    if victims.at.Some? && victims.at.value in s.at {
      var v := victims.at.value;
      HandedOver(s, p, v);
      assert s.at.Keys == p.at.Keys && s.ft.Keys == p.ft.Keys && s.ft[key].trigger == p.ft[key];
      hide Refines, StreamInv, Full, Counted;
      LearnCounted(t, s.at[v], |p.at[v]| == 64, log.ends, victims);
    }
  }

  lemma EndsFollow(s: State, p: Spec, key: Key, victims: Victims, log: Log)
    requires Follows(s, log) && Long(p)
    ensures Follows(Evict(s, key, victims), Noted(log, p, Ends(key, victims)))
  {
    var t := s.(ft := s.ft - {key}, at := s.at - {key});
    var l := Noted(log, p, Ends(key, victims));
    hide Learn, Plain;
    assert Follows(t, l);
    if key in s.at {
      LearnFollows(t, s.at[key], victims, log, l.ends);
    }
  }

  lemma EndsCounted(s: State, p: Spec, key: Key, victims: Victims, log: Log)
    requires Refines(s, p) && Follows(s, log) && Counted(s, log.ends) && Long(p)
    ensures Counted(Evict(s, key, victims), Noted(log, p, Ends(key, victims)).ends)
  {
    hide Learn, Level, Mirrors, Entered, Footprint, Plain, Represents;
    assert s.at.Keys == p.at.Keys;
    if key in s.at {
      HandedOver(s, p, key);
      hide Refines, Full;
      LearnCounted(s.(ft := s.ft - {key}, at := s.at - {key}), s.at[key], |p.at[key]| == 64, log.ends, victims);
    }
  }

  lemma TouchFollows(s: State, p: Spec, key: Key, o: Offset, pc: nat, victims: Victims, log: Log)
    requires Refines(s, p) && StreamInv(s) && Follows(s, log) && Counted(s, log.ends) && WellSized(s) && Long(p)
    ensures var t, l := Access(s, key, o, pc, victims).0, Noted(log, p, Touches(key, o, pc, victims));
            Follows(t, l) && Counted(t, l.ends)
  {
    hide Represents, Footprint, Plain, Level, Mirrors, Entered;
    assert s.at.Keys == p.at.Keys && s.ft.Keys == p.ft.Keys;
    assert key in s.ft ==> s.ft[key].trigger == p.ft[key];
    if key in s.at {
      TracksFollow(s, p, key, o, pc, victims, log);
      TrackedState(s, key, o);
      hide Touched, AccessTracked, AccessSecond, Follows, Refines, StreamInv, WellSized;
    } else if key !in s.ft {
      StartsFollow(s, p, key, o, pc, victims, log);
      hide Follows, Refines, StreamInv, WellSized;
    } else if s.ft[key].trigger != o {
      SecondFollows(s, key, o, pc, victims, log, Noted(log, p, Touches(key, o, pc, victims)).ends);
      SecondCounted(s, p, key, o, pc, victims, log);
      hide AccessSecond, Follows, Counted, Refines, StreamInv, WellSized;
    } else {
      hide Refines, StreamInv, WellSized;
    }
  }

  lemma EventFollows(s: State, p: Spec, e: Event, log: Log)
    requires Refines(s, p) && StreamInv(s) && Follows(s, log) && Counted(s, log.ends)
    ensures WellSized(s) && Long(p)
    ensures Follows(Apply(s, e), Noted(log, p, e)) && Counted(Apply(s, e), Noted(log, p, e).ends)
  {
    RefinesSized(s, p);
    hide Refines, StreamInv, Follows, Counted, WellSized, Long, Access, Evict, Noted;
    match e
    case Touches(key, o, pc, victims) => TouchFollows(s, p, key, o, pc, victims, log);
    case Ends(key, victims) =>
      EndsFollow(s, p, key, victims, log);
      EndsCounted(s, p, key, victims, log);
  }

  /** On every run the streaming state is what the ended regions say, and every entry has its first counter. */
  lemma {:induction false} RunFollows(s: State, p: Spec, log: Log, events: seq<Event>)
    requires Refines(s, p) && StreamInv(s) && Follows(s, log) && Counted(s, log.ends)
    ensures var t, l := Run(s, p, events).0, Logged(s, p, log, events);
            Follows(t, l) && Counted(t, l.ends)
    decreases |events|
  {
    hide Refines, StreamInv, Follows, Counted, Apply, SpecApply, Noted;
    if events != [] {
      ApplyRefines(s, p, events[0]);
      EventFollows(s, p, events[0], log);
      RunFollows(Apply(s, events[0]), SpecApply(p, events[0]), Noted(log, p, events[0]), events[1..]);
    }
  }

  // ---------------------------------------------------------------- the request at the second offset

  /** `n` is the number of blocks that a pattern asks for. */
  lemma CountAsked(pattern: seq<nat>, l: seq<Offset>)
    requires |pattern| == NUM_BLOCKS && Distinct(l) && forall o: Offset :: pattern[o] != 0 <==> o in l
    ensures Count(pattern, NonZero()) == |l|
  {
    var bits := seq(NUM_BLOCKS, i requires 0 <= i < NUM_BLOCKS => pattern[i] != 0);
    CountPointwise(pattern, bits, NonZero(), IsSet());
    CountMembers(bits, l);
  }

  lemma CountFirst(pattern: seq<nat>, n: nat)
    requires |pattern| == NUM_BLOCKS && n <= NUM_BLOCKS
    requires forall i :: 0 <= i < NUM_BLOCKS ==> (pattern[i] != 0 <==> i < n)
    ensures Count(pattern, NonZero()) == n
  {
    var l := FirstBlocks(n);
    forall o: Offset ensures pattern[o] != 0 <==> o in l {
      if o < n {
        assert l[o] == o;
      }
    }
    CountAsked(pattern, l);
  }

  /** A request for a region: its first two offsets, the metadata, and the level of every block. */
  ghost predicate Asks(r: Option<Request>, key: Key, t: Offset, o: Offset, meta: nat, level: Offset -> nat) {
    && r.Some? && r.value.key == key && r.value.trigger == t && r.value.second == o && r.value.meta == meta
    && |r.value.pattern| == 64
    && forall x: Offset :: r.value.pattern[x] == level(x)
  }

  lemma StreamRequest(s: State, ends: seq<Ended>, key: Key, pc: nat, victims: Victims)
    requires Counted(s, ends) && key in s.ft && s.ft[key].trigger == 0
    ensures var r := AccessSecond(s, key, 1, pc, victims).1;
            if Level(ends) == 8 || pc / 256 % 64 in LastEight(Entered(ends)) then
              Asks(r, key, 0, 1, 2, (x: Offset) => if x < 16 then 1 else 2)
            else if Level(ends) > 2 then Asks(r, key, 0, 1, 2, (x: Offset) => if x < 16 then 2 else 0)
            else r.None?
  {
    PushedFront(s.conPc, Entered(ends), HashedPc(pc));
    CountFirst(StreamPattern(PF_FILL_L1, PF_FILL_L2), 64);
    CountFirst(StreamPattern(PF_FILL_L2, 0), 16);
    hide Level, LastEight, Entered, Mirrors, WithPc, Learn, Started;
  }

  lemma FootprintRequest(s: State, p: Spec, key: Key, o: Offset, pc: nat, victims: Victims, log: Log)
    requires Refines(s, p) && Follows(s, log) && key in s.ft && !(s.ft[key].trigger == 0 && o == 1)
    ensures var r, t := AccessSecond(s, key, o, pc, victims).1, s.ft[key].trigger;
            if (t, o) in p.pt && |p.pt[(t, o)]| != 2 then
              var l := p.pt[(t, o)];
              Asks(r, key, t, o, 1, (x: Offset) => if x in l then 1 else 0)
            else r.None?
  {
    var t := s.ft[key].trigger;
    if (t, o) in s.pt {
      assert Footprint(s.pt[(t, o)], p.pt[(t, o)]) && Plain(s.pt[(t, o)]);
      CountAsked(s.pt[(t, o)].pattern, p.pt[(t, o)]);
    }
    hide Learn, Started, Refines, Follows;
  }

  lemma InitialFollows()
    ensures Refines(INITIAL, NOTHING) && StreamInv(INITIAL) && Follows(INITIAL, NO_LOG) && Counted(INITIAL, [])
  {
  }

  /** The entry that accumulates a region from its second offset on. */
  lemma SecondEntry(s: State, key: Key, o: Offset, pc: nat, victims: Victims)
    requires key in s.ft
    ensures var (t, r) := AccessSecond(s, key, o, pc, victims);
            var f := s.ft[key];
            && key in t.at && t.at[key].missed == r.None? && t.at[key].con == (r.Some? && r.value.meta == 2)
            && t.at[key].pc == f.pc && t.at[key].lastOffset == o && t.at[key].lastStride == o - f.trigger
  {
    hide Recall, Useless;
  }

  /** What the access of `o` asks for when the region was touched at `t` only. */
  ghost predicate SecondAsks(r: Option<Request>, p: Spec, ends: seq<Ended>, key: Key, t: Offset, o: Offset, pc: nat) {
    if t == 0 && o == 1 then
      if Level(ends) == 8 || pc / 256 % 64 in LastEight(Entered(ends)) then
        Asks(r, key, 0, 1, 2, (x: Offset) => if x < 16 then 1 else 2)
      else if Level(ends) > 2 then Asks(r, key, 0, 1, 2, (x: Offset) => if x < 16 then 2 else 0)
      else r.None?
    else if (t, o) in p.pt && |p.pt[(t, o)]| != 2 then
      var l := p.pt[(t, o)];
      Asks(r, key, t, o, 1, (x: Offset) => if x in l then 1 else 0)
    else r.None?
  }

  /**
   * On every run, block by block, what the second offset of a region asks for. Blocks 0 and 1 ask for the whole
   * region at two levels if eight regions count as streamed or this hashed counter is remembered, and for a quarter
   * of it if more than two count; any other pair asks for the last footprint that ended with it, unless that was
   * the pair alone. The region then keeps whether it found nothing, or was streamed, and its first stride.
   */
  lemma RequestExactly(events: seq<Event>, key: Key, o: Offset, pc: nat, victims: Victims)
    ensures Refines(INITIAL, NOTHING) && StreamInv(INITIAL)
    ensures var (s, p) := Run(INITIAL, NOTHING, events);
            var ends := Logged(INITIAL, NOTHING, NO_LOG, events).ends;
            && WellSized(s)
            && var (t, r) := Access(s, key, o, pc, victims);
            if key in p.at then true
            else if key !in p.ft || p.ft[key] == o then r.None?
            else
              && SecondAsks(r, p, ends, key, p.ft[key], o, pc)
              && key in t.at && t.at[key].missed == r.None? && t.at[key].con == (r.Some? && r.value.meta == 2)
              && t.at[key].lastOffset == o && t.at[key].lastStride == o - p.ft[key]
  {
    InitialFollows();
    RunFollows(INITIAL, NOTHING, NO_LOG, events);
    var (s, p) := Run(INITIAL, NOTHING, events);
    var log := Logged(INITIAL, NOTHING, NO_LOG, events);
    RefinesSized(s, p);
    hide Represents, Footprint;
    assert s.at.Keys == p.at.Keys && s.ft.Keys == p.ft.Keys && (key in s.ft ==> s.ft[key].trigger == p.ft[key]);
    if key in p.ft && key !in p.at && p.ft[key] != o {
      SecondEntry(s, key, o, pc, victims);
      if p.ft[key] == 0 && o == 1 {
        StreamRequest(s, log.ends, key, pc, victims);
      } else {
        FootprintRequest(s, p, key, o, pc, victims, log);
      }
    }
    hide Refines, StreamInv, Follows, Counted, WellSized, Long, AccessSecond, AccessTracked, Asks, Run, Logged;
    hide Level, LastEight, Entered;
  }

  // ---------------------------------------------------------------- the request of a region's later accesses

  lemma StrideBlocks(d: AccumulateData, o: Offset, l: seq<Offset>, x: Offset)
    requires Represents(d, l) && o !in l && o - d.lastOffset == d.lastStride
    ensures |Touched(d, o).pattern| == NUM_BLOCKS
    ensures StridePattern(Touched(d, o))[x] ==
              if x !in l && x != o && (x == o + 3 * d.lastStride || x == o + 4 * d.lastStride
                                       || x == o + 5 * d.lastStride || x == o + 6 * d.lastStride)
              then 1 else 0
  {
    var e := Touched(d, o);
    assert StrideTarget(e, 1) == o + 3 * d.lastStride && StrideTarget(e, 2) == o + 4 * d.lastStride;
    assert StrideTarget(e, 3) == o + 5 * d.lastStride && StrideTarget(e, 4) == o + 6 * d.lastStride;
  }

  /** Request and new entry for an access of a region with entry `d` and first touches `l`. */
  ghost predicate StrideAsks(r: Option<Request>, key: Key, d: AccumulateData, l: seq<Offset>, o: Offset) {
    && (r.Some? <==> o !in l && (d.missed || d.con) && o - d.lastOffset == d.lastStride)
    && (r.Some? ==>
          Asks(r, key, o, o, if d.missed then 0 else 3, (x: Offset) =>
            if x !in l && x != o && (x == o + 3 * d.lastStride || x == o + 4 * d.lastStride
                                     || x == o + 5 * d.lastStride || x == o + 6 * d.lastStride)
            then 1 else 0))
  }

  ghost predicate Paced(e: AccumulateData, d: AccumulateData, l: seq<Offset>, o: Offset, asked: bool) {
    && e.missed == d.missed && e.con == d.con
    && e.lastOffset == (if o in l then d.lastOffset else if asked then 0 else o)
    && e.lastStride == (if o in l then d.lastStride else if asked then 0 else o - d.lastOffset)
  }

  lemma StridePatternExactly(d: AccumulateData, o: Offset, l: seq<Offset>)
    requires Represents(d, l) && o !in l && o - d.lastOffset == d.lastStride
    ensures |Touched(d, o).pattern| == NUM_BLOCKS
    ensures forall x: Offset :: StridePattern(Touched(d, o))[x] ==
              if x !in l && x != o && (x == o + 3 * d.lastStride || x == o + 4 * d.lastStride
                                       || x == o + 5 * d.lastStride || x == o + 6 * d.lastStride)
              then 1 else 0
  {
    forall x: Offset
      ensures |Touched(d, o).pattern| == NUM_BLOCKS
      ensures StridePattern(Touched(d, o))[x] ==
                if x !in l && x != o && (x == o + 3 * d.lastStride || x == o + 4 * d.lastStride
                                         || x == o + 5 * d.lastStride || x == o + 6 * d.lastStride)
                then 1 else 0
    {
      StrideBlocks(d, o, l, x);
      hide Represents, Touched, StridePattern;
    }
    hide StridePattern;
  }

  lemma StrideStep(s: State, key: Key, o: Offset, l: seq<Offset>)
    requires key in s.at && Represents(s.at[key], l) && !s.stridePrefetch
    ensures var (t, r) := AccessTracked(s, key, o);
            && key in t.at && StrideAsks(r, key, s.at[key], l, o) && Paced(t.at[key], s.at[key], l, o, r.Some?)
  {
    var d := s.at[key];
    assert d.pattern[o] <==> o in l;
    assert |d.pattern| == NUM_BLOCKS;
    if o !in l && o - d.lastOffset == d.lastStride {
      StridePatternExactly(d, o, l);
    }
    hide StridePattern, Represents;
  }

  /**
   * On every run, what an access of an accumulated region asks for: only at a new offset, only if the second offset
   * found nothing or was streamed, and only if the last stride repeats; then the untouched blocks three to six
   * strides ahead. The entry's last offset and stride start over after a request.
   */
  lemma StrideExactly(events: seq<Event>, key: Key, o: Offset, pc: nat, victims: Victims)
    ensures Refines(INITIAL, NOTHING) && StreamInv(INITIAL)
    ensures var (s, p) := Run(INITIAL, NOTHING, events);
            && WellSized(s) && s.at.Keys == p.at.Keys
            && (key in p.at ==>
              var (t, r) := Access(s, key, o, pc, victims);
              && key in t.at && StrideAsks(r, key, s.at[key], p.at[key], o)
              && Paced(t.at[key], s.at[key], p.at[key], o, r.Some?))
  {
    InitialFollows();
    RunFollows(INITIAL, NOTHING, NO_LOG, events);
    var (s, p) := Run(INITIAL, NOTHING, events);
    RefinesSized(s, p);
    hide Represents, Footprint;
    assert s.at.Keys == p.at.Keys;
    if key in p.at {
      StrideStep(s, key, o, p.at[key]);
    }
    hide Refines, StreamInv, WellSized, Run, Logged, AccessTracked, StrideAsks, Paced, Counted;
  }

  // ---------------------------------------------------------------- which counters are remembered

  /** A remembered counter that comes up again moves nothing: it is not renewed. */
  lemma SeenAgain(ends: seq<Ended>, pc: nat)
    requires pc / 256 % 64 in LastEight(Entered(ends))
    ensures Entered(ends + [Ended(true, pc)]) == Entered(ends)
  {
    EnteredStep(ends, Ended(true, pc));
  }

  function Fulls(n: nat): seq<Ended> { seq(n, i requires 0 <= i < n => Ended(true, 256 * i)) }

  lemma {:induction false} NineEnter(n: nat)
    requires n <= 9
    ensures |Entered(Fulls(n))| == n && forall i :: 0 <= i < n ==> Entered(Fulls(n))[i] == i
  {
    if n > 0 {
      NineEnter(n - 1);
      assert Fulls(n) == Fulls(n - 1) + [Ended(true, 256 * (n - 1))];
      EnteredStep(Fulls(n - 1), Ended(true, 256 * (n - 1)));
    }
  }

  lemma OldestDropped(l: seq<nat>)
    requires |l| == 8 && forall i :: 0 <= i < 8 ==> l[i] == i
    ensures 0 in LastEight(l) && 8 !in LastEight(l)
    ensures 0 !in LastEight(l + [8]) && 1 in LastEight(l + [8])
  {
    assert l[0] == 0;
    var m := LastEight(l + [8]);
    assert forall i :: 0 <= i < 8 ==> m[i] == (l + [8])[i + 1];
    assert m[0] == 1;
  }

  /**
   * The deque does not hold the last eight distinct counters: after eight regions, the first counter again, and a
   * ninth counter, the first counter is forgotten although it came up only two regions ago.
   */
  lemma ForgetsRecent()
    ensures var ends := Fulls(8) + [Ended(true, 0), Ended(true, 256 * 8)];
            0 !in LastEight(Entered(ends)) && 1 in LastEight(Entered(ends))
  {
    hide *;
    NineEnter(8);
    OldestDropped(Entered(Fulls(8)));
    SeenAgain(Fulls(8), 0);
    EnteredStep(Fulls(8) + [Ended(true, 0)], Ended(true, 256 * 8));
    assert Fulls(8) + [Ended(true, 0), Ended(true, 256 * 8)] == Fulls(8) + [Ended(true, 0)] + [Ended(true, 256 * 8)];
  }
}
