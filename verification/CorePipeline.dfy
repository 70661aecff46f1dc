/**
 * The pipeline stages of one clock cycle, and what holds on every run: the register and memory
 * invariants together, and retirement in program order.
 */
module CorePipeline {
  import Bits
  import opened CoreTypes
  import opened CoreRegisters
  import Mem = CoreMemory
  import opened Seqs
  import opened Wrappers

  /** Sizes, widths and latencies fixed when the core is built. */
  datatype Config = Config(
    robSize: nat, lqSize: nat, sqSize: nat,
    dispatchWidth: nat, schedulerSize: nat, execWidth: nat, lqWidth: nat, sqWidth: nat, retireWidth: nat,
    schedulingLatency: nat, execLatency: nat, l1dBandwidth: nat, blockSize: Bits.Pos)

  /** `retired` records the instructions that left the buffer; `nextId` is the next unused identifier. */
  datatype State = State(
    retired: seq<Instr>, rob: seq<Instr>, buffer: seq<Instr>, nextId: nat,
    producers: seq<seq<nat>>, lq: seq<Option<LoadEntry>>, sq: seq<StoreEntry>, processed: seq<nat>,
    cycle: nat, warmup: bool)

  /** What the rest of the system does during one cycle. */
  datatype Environment = Environment(
    arrivals: seq<Instr>,       // decoded instructions
    returned: seq<nat>,         // addresses returned by the data cache
    writesAccepted: nat,        // writes the data cache takes before it refuses one
    readAccepted: nat -> bool,  // whether it takes the read of a load queue slot
    warmup: bool)

  function RegsOf(s: State): Regs { Regs(s.rob, s.producers) }

  function MemOf(s: State): Mem.Mem { Mem.Mem(s.rob, s.lq, s.sq) }

  function WithRegs(s: State, r: Regs): State { s.(rob := r.rob, producers := r.producers) }

  function WithMem(s: State, m: Mem.Mem): State { s.(rob := m.rob, lq := m.lq, sq := m.sq) }

  /** Stages within a cycle leave the clock and what has retired alone. */
  predicate SameTime(s: State, t: State) {
    t.retired == s.retired && t.cycle == s.cycle && t.warmup == s.warmup
  }

  function Delay(s: State, latency: nat): nat { s.cycle + if s.warmup then 0 else latency }

  // ---------------------------------------------------------------- stages

  function Retire(s: State, bw: nat): (t: State)
    ensures t.producers == s.producers
    decreases bw
  {
    if bw == 0 || s.rob == [] || s.rob[0].executed != Completed then s
    else Retire(s.(retired := s.retired + [s.rob[0]], rob := s.rob[1..]), bw - 1)
  }

  predicate CanComplete(s: State, i: nat)
    requires i < |s.rob|
  {
    var x := s.rob[i];
    x.executed == Inflight && x.eventCycle <= s.cycle && x.completedMemOps == x.NumMemOps()
  }

  function CompleteFrom(s: State, i: nat, bw: nat): (t: State)
    requires i <= |s.rob| && |s.producers| == NUM_REGS
    ensures |t.rob| == |s.rob| && |t.producers| == NUM_REGS
    ensures SameTime(s, t)
    decreases |s.rob| - i
  {
    if i == |s.rob| || bw == 0 then s
    else if CanComplete(s, i) then CompleteFrom(WithRegs(s, Complete(RegsOf(s), i)), i + 1, bw - 1)
    else CompleteFrom(s, i + 1, bw)
  }

  predicate CanStart(s: State, i: nat)
    requires i < |s.rob|
  {
    var x := s.rob[i];
    x.scheduled && x.executed == Idle && x.numRegDependent == 0 && x.eventCycle <= s.cycle
  }

  /** Mark the load queue entries of instruction `id` from slot `q` on as ready to translate. */
  function ReadyLoads(s: State, id: nat, ready: nat, q: nat): (t: State)
    requires q <= |s.lq|
    ensures t.rob == s.rob && t.producers == s.producers && |t.lq| == |s.lq|
    ensures SameTime(s, t)
    decreases |s.lq| - q
  {
    if q == |s.lq| then s
    else if s.lq[q].Some? && s.lq[q].value.id == id then
      ReadyLoads(s.(lq := s.lq[q := Some(s.lq[q].value.(eventCycle := ready))]), id, ready, q + 1)
    else ReadyLoads(s, id, ready, q + 1)
  }

  function ReadyStores(s: State, id: nat, ready: nat, k: nat): (t: State)
    requires k <= |s.sq|
    ensures t.rob == s.rob && t.producers == s.producers && |t.lq| == |s.lq|
    ensures SameTime(s, t)
    decreases |s.sq| - k
  {
    if k == |s.sq| then s
    else if s.sq[k].id == id then
      ReadyStores(s.(sq := s.sq[k := s.sq[k].(eventCycle := ready)]), id, ready, k + 1)
    else ReadyStores(s, id, ready, k + 1)
  }

  function Execute(c: Config, s: State, i: nat): (t: State)
    requires i < |s.rob|
    ensures |t.rob| == |s.rob| && t.producers == s.producers && |t.lq| == |s.lq|
    ensures SameTime(s, t)
  {
    var ready, id := Delay(s, c.execLatency), s.rob[i].id;
    ReadyStores(ReadyLoads(WithRegs(s, Start(RegsOf(s), i, ready)), id, ready, 0), id, ready, 0)
  }

  function ExecuteFrom(c: Config, s: State, i: nat, bw: nat): (t: State)
    requires i <= |s.rob|
    ensures |t.rob| == |s.rob| && t.producers == s.producers
    ensures SameTime(s, t)
    decreases |s.rob| - i
  {
    if i == |s.rob| || bw == 0 then s
    else if CanStart(s, i) then ExecuteFrom(c, Execute(c, s, i), i + 1, bw - 1)
    else ExecuteFrom(c, s, i + 1, bw)
  }

  function ScheduleOne(c: Config, s: State, i: nat): (t: State)
    requires i < |s.rob| && |s.producers| == NUM_REGS
    ensures |t.rob| == |s.rob| && |t.producers| == NUM_REGS
    ensures SameTime(s, t)
  {
    if s.rob[i].scheduled then s
    else WithRegs(s, Schedule(RegsOf(s), i, Delay(s, c.schedulingLatency)))
  }

  function ScheduleFrom(c: Config, s: State, i: nat, bw: nat): (t: State)
    requires i <= |s.rob| && |s.producers| == NUM_REGS
    ensures |t.rob| == |s.rob| && |t.producers| == NUM_REGS
    ensures SameTime(s, t)
    decreases |s.rob| - i
  {
    if i == |s.rob| || bw == 0 then s
    else
      var t := ScheduleOne(c, s, i);
      ScheduleFrom(c, t, i + 1, if t.rob[i].executed == Idle then bw - 1 else bw)
  }

  predicate ReturnsTo(c: Config, s: State, q: nat, address: nat)
    requires q < |s.lq|
  {
    s.lq[q].Some? && s.lq[q].value.fetchIssued
    && s.lq[q].value.address / c.blockSize == address / c.blockSize
  }

  /** Finish every issued load of the returned block. */
  function ReturnBlock(c: Config, s: State, address: nat, q: nat): (t: State)
    requires q <= |s.lq|
    ensures |t.rob| == |s.rob| && |t.lq| == |s.lq| && t.producers == s.producers
    ensures t.processed == s.processed
    ensures SameTime(s, t)
    decreases |s.lq| - q
  {
    if q == |s.lq| then s
    else if ReturnsTo(c, s, q, address) then
      ReturnBlock(c, WithMem(s, Mem.ReleaseSlot(MemOf(s), q)), address, q + 1)
    else ReturnBlock(c, s, address, q + 1)
  }

  function MemoryReturn(c: Config, s: State, bw: nat): (t: State)
    ensures |t.rob| == |s.rob| && |t.lq| == |s.lq| && t.producers == s.producers
    ensures SameTime(s, t)
    decreases bw
  {
    if bw == 0 || s.processed == [] then s
    else MemoryReturn(c, ReturnBlock(c, s, s.processed[0], 0).(processed := s.processed[1..]), bw - 1)
  }

  /** `std::partition_point`: the first store that has not finished. */
  function FirstPending(sq: seq<StoreEntry>): (k: nat)
    ensures k <= |sq|
    ensures forall j :: 0 <= j < k ==> sq[j].fetchIssued
    ensures k < |sq| ==> !sq[k].fetchIssued
  {
    if sq == [] || !sq[0].fetchIssued then 0 else 1 + FirstPending(sq[1..])
  }

  /** How many stores from `k` on finish this cycle. */
  function ReadySpan(sq: seq<StoreEntry>, k: nat, bw: nat, cycle: nat): (n: nat)
    requires k <= |sq|
    ensures n <= bw && k + n <= |sq|
    ensures forall j :: k <= j < k + n ==> !sq[j].fetchIssued && sq[j].eventCycle <= cycle
    ensures n < bw && k + n < |sq| ==> sq[k + n].fetchIssued || cycle < sq[k + n].eventCycle
    decreases bw
  {
    if bw == 0 || k == |sq| || sq[k].fetchIssued || cycle < sq[k].eventCycle then 0
    else 1 + ReadySpan(sq, k + 1, bw - 1, cycle)
  }

  function FinishStores(s: State, k: nat, n: nat): (t: State)
    requires k + n <= |s.sq|
    ensures |t.rob| == |s.rob| && |t.lq| == |s.lq| && t.producers == s.producers
    ensures SameTime(s, t)
    decreases n
  {
    if n == 0 then s
    else
      Frames(MemOf(s), k, s.cycle);
      FinishStores(WithMem(s, Mem.FinishStore(MemOf(s), k, s.cycle)), k + 1, n - 1)
  }

  lemma {:induction false} ReleaseFrame(m: Mem.Mem, qs: seq<nat>)
    ensures Mem.ReleaseSlots(m, qs).sq == m.sq
    decreases |qs|
  {
    if qs != [] {
      ReleaseFrame(Mem.ReleaseSlot(m, qs[0]), qs[1..]);
    }
  }

  lemma Frames(m: Mem.Mem, k: nat, cycle: nat)
    requires k < |m.sq|
    ensures Mem.FinishStore(m, k, cycle).sq == m.sq[k := m.sq[k].(fetchIssued := true, eventCycle := cycle)]
    ensures |Mem.FinishStore(m, k, cycle).rob| == |m.rob| && |Mem.FinishStore(m, k, cycle).lq| == |m.lq|
  {
    ReleaseFrame(Mem.IssueStore(m, k, cycle), m.sq[k].waiters);
  }

  predicate CanDrain(s: State) {
    s.sq != [] && (s.rob == [] || s.sq[0].id < s.rob[0].id) && s.sq[0].eventCycle <= s.cycle
  }

  /** Write retired stores to the data cache, oldest first. */
  function DrainStores(s: State, bw: nat): (t: State)
    ensures t.rob == s.rob && t.lq == s.lq && t.producers == s.producers
    ensures SameTime(s, t)
    decreases bw
  {
    if bw == 0 || !CanDrain(s) then s else DrainStores(s.(sq := s.sq[1..]), bw - 1)
  }

  predicate CanIssue(s: State, q: nat)
    requires q < |s.lq|
  {
    s.lq[q].Some? && s.lq[q].value.producer.None? && !s.lq[q].value.fetchIssued && s.lq[q].value.eventCycle < s.cycle
  }

  function IssueLoads(s: State, q: nat, bw: nat, accepted: nat -> bool): (t: State)
    requires q <= |s.lq|
    ensures t.rob == s.rob && |t.lq| == |s.lq| && t.producers == s.producers
    ensures SameTime(s, t)
    decreases |s.lq| - q
  {
    if q == |s.lq| then s
    else if bw > 0 && CanIssue(s, q) && accepted(q) then
      IssueLoads(s.(lq := s.lq[q := Some(s.lq[q].value.(fetchIssued := true))]), q + 1, bw - 1, accepted)
    else IssueLoads(s, q + 1, bw, accepted)
  }

  function Min(a: nat, b: nat): nat { if a <= b then a else b }

  function ReadyStoresCount(c: Config, s: State): (n: nat)
    ensures n <= c.sqWidth && FirstPending(s.sq) + n <= |s.sq|
  {
    ReadySpan(s.sq, FirstPending(s.sq), c.sqWidth, s.cycle)
  }

  function FinishReady(c: Config, s: State): (t: State)
    ensures |t.rob| == |s.rob| && |t.lq| == |s.lq| && t.producers == s.producers
    ensures SameTime(s, t)
  {
    FinishStores(s, FirstPending(s.sq), ReadyStoresCount(c, s))
  }

  function OperateLsq(c: Config, s: State, e: Environment): (t: State)
    ensures |t.rob| == |s.rob| && t.producers == s.producers
    ensures SameTime(s, t)
  {
    var bw := Min(c.sqWidth - ReadyStoresCount(c, s), e.writesAccepted);
    IssueLoads(DrainStores(FinishReady(c, s), bw), 0, c.lqWidth, e.readAccepted)
  }

  predicate CanDispatch(c: Config, s: State) {
    && s.buffer != []
    && s.buffer[0].eventCycle < s.cycle
    && |s.rob| != c.robSize
    && Count(s.lq, Mem.IsFree()) >= |s.buffer[0].loads|
    && |s.buffer[0].stores| + |s.sq| <= c.sqSize
  }

  function Dispatch(c: Config, s: State, bw: nat): (t: State)
    ensures t.producers == s.producers
    ensures SameTime(s, t)
    decreases bw
  {
    if bw == 0 || !CanDispatch(c, s) then s
    else Dispatch(c, WithMem(s, Mem.Dispatch(MemOf(s), s.buffer[0])).(buffer := s.buffer[1..]), bw - 1)
  }

  function Arrive(s: State, xs: seq<Instr>): (t: State)
    ensures t.producers == s.producers
    ensures SameTime(s, t)
    decreases |xs|
  {
    if xs == [] then s else Arrive(s.(buffer := s.buffer + [xs[0]], nextId := xs[0].id + 1), xs[1..])
  }

  /** The execution side of a clock cycle ... */
  function Front(c: Config, s: State): (t: State)
    requires |s.producers| == NUM_REGS
    ensures |t.producers| == NUM_REGS
  {
    var completed := CompleteFrom(Retire(s, c.retireWidth), 0, c.execWidth);
    ScheduleFrom(c, ExecuteFrom(c, completed, 0, c.execWidth), 0, c.schedulerSize)
  }

  /** ... and the memory and dispatch side. */
  function Back(c: Config, s: State, e: Environment): (t: State)
    ensures t.producers == s.producers
    ensures SameTime(s, t)
  {
    Dispatch(c, OperateLsq(c, MemoryReturn(c, s, c.l1dBandwidth), e), c.dispatchWidth)
  }

  function Begin(s: State, e: Environment): State {
    s.(warmup := e.warmup, processed := s.processed + e.returned)
  }

  function Tick(s: State): State { s.(cycle := s.cycle + 1) }

  /** One clock cycle: the stages in the order in which the core runs them. */
  function Cycle(c: Config, s: State, e: Environment): (t: State)
    requires |s.producers| == NUM_REGS
    ensures |t.producers| == NUM_REGS
  {
    Tick(Arrive(Back(c, Front(c, Begin(s, e)), e), e.arrivals))
  }

  // ---------------------------------------------------------------- invariant

  /** The part of an instruction fixed by the trace. */
  datatype Static = Static(id: nat, sources: seq<Reg>, destinations: seq<Reg>, loads: seq<nat>, stores: seq<nat>)

  function StaticOf(x: Instr): Static { Static(x.id, x.sources, x.destinations, x.loads, x.stores) }

  function Statics(xs: seq<Instr>): (r: seq<Static>)
    ensures |r| == |xs|
    ensures forall k :: 0 <= k < |xs| ==> r[k] == StaticOf(xs[k])
  {
    seq(|xs|, k requires 0 <= k < |xs| => StaticOf(xs[k]))
  }

  /** Everything the core was ever given, in the order in which it leaves. */
  function Program(s: State): seq<Static> { Statics(s.retired + s.rob + s.buffer) }

  function Bound(s: State): nat { if s.buffer == [] then s.nextId else s.buffer[0].id }

  ghost predicate Waiting(buffer: seq<Instr>, nextId: nat) {
    && Sorted(buffer)
    && forall k :: 0 <= k < |buffer| ==> Untouched(buffer[k]) && buffer[k].completedMemOps == 0 && buffer[k].id < nextId
  }

  /** What enters and leaves: fresh instructions in front of the buffer, only finished ones behind it. */
  ghost predicate Ends(c: Config, s: State) {
    && (forall k :: 0 <= k < |s.retired| ==>
          s.retired[k].executed == Completed && s.retired[k].completedMemOps == s.retired[k].NumMemOps())
    && Waiting(s.buffer, s.nextId)
    && (forall k :: 0 <= k < |s.rob| ==> s.rob[k].id < Bound(s))
    && Mem.StoresBelow(s.sq, Bound(s))
    && |s.rob| <= c.robSize && |s.sq| <= c.sqSize && |s.lq| == c.lqSize
  }

  ghost predicate Inv(c: Config, s: State) {
    && RegInv(RegsOf(s))
    && Mem.MemInv(MemOf(s), 0, 0, [])
    && Ends(c, s)
  }

  /** What the core was given so far, and the next identifier. Only arrivals change it. */
  datatype Given = Given(program: seq<Static>, nextId: nat)

  function GivenOf(s: State): Given { Given(Program(s), s.nextId) }

  ghost predicate Safe(c: Config, s: State, given: Given) { Inv(c, s) && GivenOf(s) == given }

  ghost predicate SameStatics(a: seq<Instr>, b: seq<Instr>) {
    |a| == |b| && forall k :: 0 <= k < |a| ==> StaticOf(a[k]) == StaticOf(b[k])
  }

  lemma ProgramSame(s: State, rob: seq<Instr>)
    requires SameStatics(s.rob, rob)
    ensures Program(s.(rob := rob)) == Program(s)
  {
    var a, b := s.retired + s.rob + s.buffer, s.retired + rob + s.buffer;
    assert forall k :: 0 <= k < |a| ==> StaticOf(a[k]) == StaticOf(b[k]);
  }

  /** A step of the register part keeps everything, as long as only finished instructions complete. */
  lemma RegStep(c: Config, s: State, r: Regs, given: Given)
    requires Safe(c, s, given) && RegInv(r) && SameStatics(s.rob, r.rob)
    requires forall k :: 0 <= k < |r.rob| ==>
      r.rob[k].completedMemOps == s.rob[k].completedMemOps
      && (r.rob[k].executed == Completed ==>
            s.rob[k].executed == Completed || s.rob[k].completedMemOps == s.rob[k].NumMemOps())
    ensures Safe(c, WithRegs(s, r), given)
  {
    StaticsAgree(s.rob, r.rob);
    Mem.BufferKeeps(MemOf(s), r.rob, 0);
    ProgramSame(s, r.rob);
    assert Program(WithRegs(s, r)) == Program(s.(rob := r.rob));
  }

  lemma StaticsAgree(a: seq<Instr>, b: seq<Instr>)
    requires SameStatics(a, b)
    ensures SameIds(a, b)
    ensures forall k :: 0 <= k < |a| ==> a[k].loads == b[k].loads && a[k].stores == b[k].stores
  {
    forall k | 0 <= k < |a|
      ensures a[k].id == b[k].id && a[k].loads == b[k].loads && a[k].stores == b[k].stores
    {
      assert StaticOf(a[k]) == StaticOf(b[k]);
    }
  }

  ghost predicate OnlyMemOps(a: seq<Instr>, b: seq<Instr>) {
    |a| == |b| && forall k :: 0 <= k < |a| ==> b[k] == a[k].(completedMemOps := b[k].completedMemOps)
  }

  lemma OnlyMemOpsRegs(s: Regs, rob: seq<Instr>)
    requires RegInv(s) && OnlyMemOps(s.rob, rob)
    ensures RegInv(s.(rob := rob)) && SameStatics(s.rob, rob)
  {
    SameRegsKeep(s, rob);
  }

  /** A step of the memory part keeps everything. */
  lemma MemStep(c: Config, s: State, m: Mem.Mem, given: Given)
    requires Safe(c, s, given) && Mem.MemInv(m, 0, 0, []) && OnlyMemOps(s.rob, m.rob)
    requires |m.lq| == |s.lq| && |m.sq| <= |s.sq| && Mem.StoresBelow(m.sq, Bound(s))
    ensures Safe(c, WithMem(s, m), given)
  {
    OnlyMemOpsRegs(RegsOf(s), m.rob);
    ProgramSame(s, m.rob);
    assert Program(WithMem(s, m)) == Program(s.(rob := m.rob));
  }

  // ---------------------------------------------------------------- every stage keeps it

  lemma RetireEnds(c: Config, s: State)
    requires Ends(c, s) && s.rob != [] && s.rob[0].executed == Completed && Mem.CompletedDone(s.rob)
    ensures Ends(c, s.(retired := s.retired + [s.rob[0]], rob := s.rob[1..]))
  {
  }

  lemma RetireOne(c: Config, s: State, given: Given)
    requires Safe(c, s, given) && s.rob != [] && s.rob[0].executed == Completed
    ensures Safe(c, s.(retired := s.retired + [s.rob[0]], rob := s.rob[1..]), given)
  {
    RetireKeeps(RegsOf(s));
    Mem.RetireKeeps(MemOf(s));
    RetireEnds(c, s);
    assert s.retired + s.rob == s.retired + [s.rob[0]] + s.rob[1..];
  }

  lemma {:induction false} RetireSafe(c: Config, s: State, bw: nat, given: Given)
    requires Safe(c, s, given)
    ensures Safe(c, Retire(s, bw), given)
    decreases bw
  {
    hide Safe;
    if !(bw == 0 || s.rob == [] || s.rob[0].executed != Completed) {
      RetireOne(c, s, given);
      RetireSafe(c, s.(retired := s.retired + [s.rob[0]], rob := s.rob[1..]), bw - 1, given);
    }
  }

  lemma CompleteOne(c: Config, s: State, i: nat, given: Given)
    requires Safe(c, s, given) && i < |s.rob| && CanComplete(s, i)
    ensures Safe(c, WithRegs(s, Complete(RegsOf(s), i)), given)
  {
    CompleteKeeps(RegsOf(s), i);
    CompleteEffect(RegsOf(s), i);
    RegStep(c, s, Complete(RegsOf(s), i), given);
  }

  lemma {:induction false} CompleteSafe(c: Config, s: State, i: nat, bw: nat, given: Given)
    requires Safe(c, s, given) && i <= |s.rob|
    ensures Safe(c, CompleteFrom(s, i, bw), given)
    decreases |s.rob| - i
  {
    assert |s.producers| == NUM_REGS;
    hide Safe;
    if i < |s.rob| && bw > 0 {
      if CanComplete(s, i) {
        CompleteOne(c, s, i, given);
        CompleteSafe(c, WithRegs(s, Complete(RegsOf(s), i)), i + 1, bw - 1, given);
      } else {
        CompleteSafe(c, s, i + 1, bw, given);
      }
    }
  }

  lemma TouchLoad(c: Config, s: State, q: nat, e: LoadEntry, given: Given)
    requires Safe(c, s, given) && q < |s.lq| && s.lq[q].Some?
    requires e.id == s.lq[q].value.id && e.producer == s.lq[q].value.producer && e.address == s.lq[q].value.address
    requires e.producer.Some? ==> !e.fetchIssued
    ensures Safe(c, s.(lq := s.lq[q := Some(e)]), given)
  {
    var m := MemOf(s).(lq := s.lq[q := Some(e)]);
    Mem.TouchSlotKeeps(MemOf(s), q, e);
    MemStep(c, s, m, given);
    assert WithMem(s, m) == s.(lq := m.lq);
  }

  lemma ReadyLoad(c: Config, s: State, q: nat, ready: nat, given: Given)
    requires Safe(c, s, given) && q < |s.lq| && s.lq[q].Some?
    ensures Safe(c, s.(lq := s.lq[q := Some(s.lq[q].value.(eventCycle := ready))]), given)
  {
    TouchLoad(c, s, q, s.lq[q].value.(eventCycle := ready), given);
  }

  lemma {:induction false} ReadyLoadsSafe(c: Config, s: State, id: nat, ready: nat, q: nat, given: Given)
    requires Safe(c, s, given) && q <= |s.lq|
    ensures Safe(c, ReadyLoads(s, id, ready, q), given)
    decreases |s.lq| - q
  {
    hide Safe;
    if q < |s.lq| {
      if s.lq[q].Some? && s.lq[q].value.id == id {
        ReadyLoad(c, s, q, ready, given);
        ReadyLoadsSafe(c, s.(lq := s.lq[q := Some(s.lq[q].value.(eventCycle := ready))]), id, ready, q + 1, given);
      } else {
        ReadyLoadsSafe(c, s, id, ready, q + 1, given);
      }
    }
  }

  lemma ReadyStore(c: Config, s: State, k: nat, ready: nat, given: Given)
    requires Safe(c, s, given) && k < |s.sq|
    ensures Safe(c, s.(sq := s.sq[k := s.sq[k].(eventCycle := ready)]), given)
  {
    var m := MemOf(s).(sq := s.sq[k := s.sq[k].(eventCycle := ready)]);
    Mem.TouchStoreKeeps(MemOf(s), k, ready);
    MemStep(c, s, m, given);
    assert WithMem(s, m) == s.(sq := m.sq);
  }

  lemma {:induction false} ReadyStoresSafe(c: Config, s: State, id: nat, ready: nat, k: nat, given: Given)
    requires Safe(c, s, given) && k <= |s.sq|
    ensures Safe(c, ReadyStores(s, id, ready, k), given)
    decreases |s.sq| - k
  {
    hide Safe;
    if k < |s.sq| {
      if s.sq[k].id == id {
        ReadyStore(c, s, k, ready, given);
        ReadyStoresSafe(c, s.(sq := s.sq[k := s.sq[k].(eventCycle := ready)]), id, ready, k + 1, given);
      } else {
        ReadyStoresSafe(c, s, id, ready, k + 1, given);
      }
    }
  }

  lemma ExecuteOne(c: Config, s: State, i: nat, given: Given)
    requires Safe(c, s, given) && i < |s.rob| && CanStart(s, i)
    ensures Safe(c, Execute(c, s, i), given)
  {
    var ready, id := Delay(s, c.execLatency), s.rob[i].id;
    StartKeeps(RegsOf(s), i, ready);
    RegStep(c, s, Start(RegsOf(s), i, ready), given);
    var t := WithRegs(s, Start(RegsOf(s), i, ready));
    ReadyLoadsSafe(c, t, id, ready, 0, given);
    ReadyStoresSafe(c, ReadyLoads(t, id, ready, 0), id, ready, 0, given);
  }

  lemma {:induction false} ExecuteSafe(c: Config, s: State, i: nat, bw: nat, given: Given)
    requires Safe(c, s, given) && i <= |s.rob|
    ensures Safe(c, ExecuteFrom(c, s, i, bw), given)
    decreases |s.rob| - i
  {
    hide Safe;
    if i < |s.rob| && bw > 0 {
      if CanStart(s, i) {
        ExecuteOne(c, s, i, given);
        ExecuteSafe(c, Execute(c, s, i), i + 1, bw - 1, given);
      } else {
        ExecuteSafe(c, s, i + 1, bw, given);
      }
    }
  }

  lemma ScheduleFrame(r: Regs, i: nat, ready: nat)
    requires i < |r.rob| && |r.producers| == NUM_REGS
    ensures var t := Schedule(r, i, ready).rob;
      SameStatics(r.rob, t) && forall k :: 0 <= k < |t| ==>
        t[k].completedMemOps == r.rob[k].completedMemOps && t[k].executed == r.rob[k].executed
  {
    MarkSourcesOnlyEdges(r.rob, r.producers, i, |r.rob[i].sources|);
  }

  lemma ScheduleStep(c: Config, s: State, i: nat, given: Given)
    requires Safe(c, s, given) && i < |s.rob|
    requires forall k :: 0 <= k < i ==> s.rob[k].scheduled
    ensures var t := ScheduleOne(c, s, i); Safe(c, t, given) && forall k :: 0 <= k <= i ==> t.rob[k].scheduled
  {
    if !s.rob[i].scheduled {
      var ready := Delay(s, c.schedulingLatency);
      ScheduleKeeps(RegsOf(s), i, ready);
      ScheduleFrame(RegsOf(s), i, ready);
      RegStep(c, s, Schedule(RegsOf(s), i, ready), given);
    }
  }

  lemma {:induction false} ScheduleSafe(c: Config, s: State, i: nat, bw: nat, given: Given)
    requires Safe(c, s, given) && i <= |s.rob|
    requires forall k :: 0 <= k < i ==> s.rob[k].scheduled
    ensures Safe(c, ScheduleFrom(c, s, i, bw), given)
    decreases |s.rob| - i
  {
    if i < |s.rob| && bw > 0 {
      ScheduleStep(c, s, i, given);
      var t := ScheduleOne(c, s, i);
      ScheduleSafe(c, t, i + 1, if t.rob[i].executed == Idle then bw - 1 else bw, given);
    }
  }

  lemma ReleaseOnlyMemOps(m: Mem.Mem, q: nat)
    ensures OnlyMemOps(m.rob, Mem.ReleaseSlot(m, q).rob)
  {
  }

  lemma {:induction false} ReleaseSlotsOnlyMemOps(m: Mem.Mem, qs: seq<nat>)
    ensures OnlyMemOps(m.rob, Mem.ReleaseSlots(m, qs).rob)
    decreases |qs|
  {
    if qs != [] {
      ReleaseOnlyMemOps(m, qs[0]);
      ReleaseSlotsOnlyMemOps(Mem.ReleaseSlot(m, qs[0]), qs[1..]);
    }
  }

  lemma ReturnOne(c: Config, s: State, q: nat, given: Given)
    requires Safe(c, s, given) && q < |s.lq| && s.lq[q].Some? && s.lq[q].value.fetchIssued
    ensures Safe(c, WithMem(s, Mem.ReleaseSlot(MemOf(s), q)), given)
  {
    Mem.ReturnSlotKeeps(MemOf(s), q);
    ReleaseOnlyMemOps(MemOf(s), q);
    MemStep(c, s, Mem.ReleaseSlot(MemOf(s), q), given);
  }

  lemma {:induction false} ReturnBlockSafe(c: Config, s: State, address: nat, q: nat, given: Given)
    requires Safe(c, s, given) && q <= |s.lq|
    ensures Safe(c, ReturnBlock(c, s, address, q), given)
    decreases |s.lq| - q
  {
    hide Safe;
    if q < |s.lq| {
      if ReturnsTo(c, s, q, address) {
        ReturnOne(c, s, q, given);
        ReturnBlockSafe(c, WithMem(s, Mem.ReleaseSlot(MemOf(s), q)), address, q + 1, given);
      } else {
        ReturnBlockSafe(c, s, address, q + 1, given);
      }
    }
  }

  lemma PopProcessed(c: Config, s: State, rest: seq<nat>, given: Given)
    requires Safe(c, s, given)
    ensures Safe(c, s.(processed := rest), given)
  {
  }

  lemma {:induction false} MemoryReturnSafe(c: Config, s: State, bw: nat, given: Given)
    requires Safe(c, s, given)
    ensures Safe(c, MemoryReturn(c, s, bw), given)
    decreases bw
  {
    hide Inv;
    if !(bw == 0 || s.processed == []) {
      ReturnBlockSafe(c, s, s.processed[0], 0, given);
      PopProcessed(c, ReturnBlock(c, s, s.processed[0], 0), s.processed[1..], given);
      MemoryReturnSafe(c, ReturnBlock(c, s, s.processed[0], 0).(processed := s.processed[1..]), bw - 1, given);
    }
  }

  lemma FinishOne(c: Config, s: State, k: nat, given: Given)
    requires Safe(c, s, given) && k < |s.sq| && !s.sq[k].fetchIssued
    requires forall j :: 0 <= j < k ==> s.sq[j].fetchIssued
    ensures Safe(c, WithMem(s, Mem.FinishStore(MemOf(s), k, s.cycle)), given)
    ensures Mem.FinishStore(MemOf(s), k, s.cycle).sq == s.sq[k := s.sq[k].(fetchIssued := true, eventCycle := s.cycle)]
  {
    var m := MemOf(s);
    Mem.FinishStoreKeeps(m, k, s.cycle);
    Frames(m, k, s.cycle);
    ReleaseSlotsOnlyMemOps(Mem.IssueStore(m, k, s.cycle), m.sq[k].waiters);
    MemStep(c, s, Mem.FinishStore(m, k, s.cycle), given);
  }

  lemma {:induction false} FinishStoresSafe(c: Config, s: State, k: nat, n: nat, given: Given)
    requires Safe(c, s, given) && k + n <= |s.sq|
    requires forall j :: 0 <= j < k ==> s.sq[j].fetchIssued
    requires forall j :: k <= j < k + n ==> !s.sq[j].fetchIssued
    ensures Safe(c, FinishStores(s, k, n), given)
    decreases n
  {
    hide Safe;
    if n > 0 {
      FinishOne(c, s, k, given);
      FinishStoresSafe(c, WithMem(s, Mem.FinishStore(MemOf(s), k, s.cycle)), k + 1, n - 1, given);
    }
  }

  lemma DrainOne(c: Config, s: State, given: Given)
    requires Safe(c, s, given) && CanDrain(s)
    ensures Safe(c, s.(sq := s.sq[1..]), given)
  {
    Mem.RetiredStoreIssued(MemOf(s), 0);
    Mem.DrainKeeps(MemOf(s));
    MemStep(c, s, MemOf(s).(sq := s.sq[1..]), given);
    assert WithMem(s, MemOf(s).(sq := s.sq[1..])) == s.(sq := s.sq[1..]);
  }

  lemma {:induction false} DrainSafe(c: Config, s: State, bw: nat, given: Given)
    requires Safe(c, s, given)
    ensures Safe(c, DrainStores(s, bw), given)
    decreases bw
  {
    hide Safe;
    if bw > 0 && CanDrain(s) {
      DrainOne(c, s, given);
      DrainSafe(c, s.(sq := s.sq[1..]), bw - 1, given);
    }
  }

  lemma IssueOne(c: Config, s: State, q: nat, given: Given)
    requires Safe(c, s, given) && q < |s.lq| && CanIssue(s, q)
    ensures Safe(c, s.(lq := s.lq[q := Some(s.lq[q].value.(fetchIssued := true))]), given)
  {
    TouchLoad(c, s, q, s.lq[q].value.(fetchIssued := true), given);
  }

  lemma {:induction false} IssueSafe(c: Config, s: State, q: nat, bw: nat, accepted: nat -> bool, given: Given)
    requires Safe(c, s, given) && q <= |s.lq|
    ensures Safe(c, IssueLoads(s, q, bw, accepted), given)
    decreases |s.lq| - q
  {
    hide Safe;
    if q < |s.lq| {
      if bw > 0 && CanIssue(s, q) && accepted(q) {
        IssueOne(c, s, q, given);
        IssueSafe(c, s.(lq := s.lq[q := Some(s.lq[q].value.(fetchIssued := true))]), q + 1, bw - 1, accepted, given);
      } else {
        IssueSafe(c, s, q + 1, bw, accepted, given);
      }
    }
  }

  lemma FinishReadySafe(c: Config, s: State, given: Given)
    requires Safe(c, s, given)
    ensures Safe(c, FinishReady(c, s), given)
  {
    hide Safe;
    FinishStoresSafe(c, s, FirstPending(s.sq), ReadyStoresCount(c, s), given);
  }

  lemma LsqSafe(c: Config, s: State, e: Environment, given: Given)
    requires Safe(c, s, given)
    ensures Safe(c, OperateLsq(c, s, e), given)
  {
    hide Safe;
    FinishReadySafe(c, s, given);
    var bw := Min(c.sqWidth - ReadyStoresCount(c, s), e.writesAccepted);
    DrainSafe(c, FinishReady(c, s), bw, given);
    IssueSafe(c, DrainStores(FinishReady(c, s), bw), 0, c.lqWidth, e.readAccepted, given);
  }

  lemma DispatchRegs(s: Regs, x: Instr, rob: seq<Instr>)
    requires RegInv(s) && Untouched(x) && forall k :: 0 <= k < |s.rob| ==> s.rob[k].id < x.id
    requires OnlyMemOps(s.rob + [x], rob)
    ensures RegInv(s.(rob := rob)) && SameStatics(s.rob + [x], rob)
  {
    CoreRegisters.DispatchKeeps(s, x);
    OnlyMemOpsRegs(s.(rob := s.rob + [x]), rob);
  }

  lemma DispatchEnds(c: Config, s: State, m: Mem.Mem)
    requires Ends(c, s) && s.buffer != [] && SameStatics(s.rob + [s.buffer[0]], m.rob)
    requires Mem.StoresBelow(m.sq, s.buffer[0].id + 1)
    requires |m.rob| <= c.robSize && |m.sq| <= c.sqSize && |m.lq| == |s.lq|
    ensures Ends(c, WithMem(s, m).(buffer := s.buffer[1..]))
  {
    StaticsAgree(s.rob + [s.buffer[0]], m.rob);
    var t := WithMem(s, m).(buffer := s.buffer[1..]);
    assert s.buffer[0].id < Bound(t);
  }

  lemma DispatchOne(c: Config, s: State, given: Given)
    requires Safe(c, s, given) && CanDispatch(c, s)
    ensures Safe(c, WithMem(s, Mem.Dispatch(MemOf(s), s.buffer[0])).(buffer := s.buffer[1..]), given)
  {
    var x := s.buffer[0];
    var m := Mem.Dispatch(MemOf(s), x);
    Mem.DispatchKeeps(MemOf(s), x);
    DispatchRegs(RegsOf(s), x, m.rob);
    DispatchSizes(MemOf(s), x);
    DispatchEnds(c, s, m);
    DispatchProgram(s, m.rob);
  }

  lemma DispatchProgram(s: State, rob: seq<Instr>)
    requires s.buffer != [] && SameStatics(s.rob + [s.buffer[0]], rob)
    ensures Statics(s.retired + rob + s.buffer[1..]) == Program(s)
  {
    var a, b := s.retired + s.rob + s.buffer, s.retired + rob + s.buffer[1..];
    assert a == s.retired + (s.rob + [s.buffer[0]]) + s.buffer[1..];
    assert forall k :: 0 <= k < |a| ==> StaticOf(a[k]) == StaticOf(b[k]);
  }

  lemma {:induction false} AddLoadsSizes(m: Mem.Mem, addresses: seq<nat>)
    requires m.rob != []
    ensures |Mem.AddLoads(m, addresses).lq| == |m.lq| && |Mem.AddLoads(m, addresses).sq| == |m.sq|
    decreases |addresses|
  {
    if addresses != [] {
      AddLoadsSizes(Mem.AddLoad(m, addresses[0]), addresses[1..]);
    }
  }

  lemma {:induction false} AddStoresSizes(m: Mem.Mem, addresses: seq<nat>)
    requires m.rob != []
    ensures Mem.AddStores(m, addresses).lq == m.lq && |Mem.AddStores(m, addresses).sq| == |m.sq| + |addresses|
    decreases |addresses|
  {
    if addresses != [] {
      AddStoresSizes(Mem.AddStore(m, addresses[0]), addresses[1..]);
    }
  }

  lemma DispatchSizes(m: Mem.Mem, x: Instr)
    ensures var r := Mem.Dispatch(m, x); |r.lq| == |m.lq| && |r.sq| == |m.sq| + |x.stores|
  {
    var p := m.(rob := m.rob + [x]);
    AddLoadsSizes(p, x.loads);
    AddStoresSizes(Mem.AddLoads(p, x.loads), x.stores);
  }

  lemma {:induction false} DispatchSafe(c: Config, s: State, bw: nat, given: Given)
    requires Safe(c, s, given)
    ensures Safe(c, Dispatch(c, s, bw), given)
    decreases bw
  {
    hide Safe;
    if bw > 0 && CanDispatch(c, s) {
      DispatchOne(c, s, given);
      DispatchSafe(c, WithMem(s, Mem.Dispatch(MemOf(s), s.buffer[0])).(buffer := s.buffer[1..]), bw - 1, given);
    }
  }

  /** Decoded instructions are new and carry the identifiers the trace reader hands out. */
  ghost predicate FreshArrivals(xs: seq<Instr>, nextId: nat)
    decreases |xs|
  {
    xs == [] ||
    (&& Untouched(xs[0]) && xs[0].completedMemOps == 0
     && nextId <= xs[0].id && FreshArrivals(xs[1..], xs[0].id + 1))
  }

  function GivenAfter(g: Given, xs: seq<Instr>): Given {
    Given(g.program + Statics(xs), if xs == [] then g.nextId else Last(xs).id + 1)
  }

  lemma {:induction false} ArriveSafe(c: Config, s: State, xs: seq<Instr>, given: Given)
    requires Safe(c, s, given) && FreshArrivals(xs, s.nextId)
    ensures Safe(c, Arrive(s, xs), GivenAfter(given, xs))
    decreases |xs|
  {
    hide Safe;
    if xs == [] {
      assert given.program + Statics(xs) == given.program;
    } else {
      ArriveOne(c, s, xs[0], given);
      var next := GivenAfter(given, [xs[0]]);
      ArriveSafe(c, s.(buffer := s.buffer + [xs[0]], nextId := xs[0].id + 1), xs[1..], next);
      assert given.program + Statics(xs) == next.program + Statics(xs[1..]);
    }
  }

  lemma ArriveOne(c: Config, s: State, x: Instr, given: Given)
    requires Safe(c, s, given) && Untouched(x) && x.completedMemOps == 0 && s.nextId <= x.id
    ensures Safe(c, s.(buffer := s.buffer + [x], nextId := x.id + 1), GivenAfter(given, [x]))
  {
    var t := s.(buffer := s.buffer + [x], nextId := x.id + 1);
    assert Program(t) == Program(s) + Statics([x]);
  }

  lemma FrontSafe(c: Config, s: State, given: Given)
    requires Safe(c, s, given)
    ensures Safe(c, Front(c, s), given)
  {
    var retired := Retire(s, c.retireWidth);
    RetireSafe(c, s, c.retireWidth, given);
    CompleteSafe(c, retired, 0, c.execWidth, given);
    var completed := CompleteFrom(retired, 0, c.execWidth);
    ExecuteSafe(c, completed, 0, c.execWidth, given);
    ScheduleSafe(c, ExecuteFrom(c, completed, 0, c.execWidth), 0, c.schedulerSize, given);
  }

  lemma BackSafe(c: Config, s: State, e: Environment, given: Given)
    requires Safe(c, s, given)
    ensures Safe(c, Back(c, s, e), given)
  {
    MemoryReturnSafe(c, s, c.l1dBandwidth, given);
    var returned := MemoryReturn(c, s, c.l1dBandwidth);
    LsqSafe(c, returned, e, given);
    DispatchSafe(c, OperateLsq(c, returned, e), c.dispatchWidth, given);
  }

  lemma ClockSafe(c: Config, s: State, e: Environment, given: Given)
    requires Safe(c, s, given)
    ensures Safe(c, Begin(s, e), given) && Safe(c, Tick(s), given)
  {
  }

  /** One clock cycle keeps every invariant and adds exactly the arrivals to the program. */
  lemma CycleSafe(c: Config, s: State, e: Environment, given: Given)
    requires Safe(c, s, given)
    requires FreshArrivals(e.arrivals, given.nextId)
    ensures Safe(c, Cycle(c, s, e), GivenAfter(given, e.arrivals))
  {
    ClockSafe(c, s, e, given);
    FrontSafe(c, Begin(s, e), given);
    var back := Back(c, Front(c, Begin(s, e)), e);
    BackSafe(c, Front(c, Begin(s, e)), e, given);
    ArriveSafe(c, back, e.arrivals, given);
    ClockSafe(c, Arrive(back, e.arrivals), e, GivenAfter(given, e.arrivals));
  }
}
