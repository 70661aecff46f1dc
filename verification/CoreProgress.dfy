/** Progress of the out-of-order core: what one cycle does for the oldest instruction, and that it retires in time. */
module CoreProgress {
  import opened CorePipeline
  import opened CoreRegisters
  import opened CoreTheorems
  import opened CoreTypes
  import Mem = CoreMemory

  // ---------------------------------------------------------------- what a stage leaves alone

  /** At most, some memory operations have finished. */
  ghost predicate SameStage(x: Instr, y: Instr) {
    && StaticOf(y) == StaticOf(x)
    && y.scheduled == x.scheduled && y.executed == x.executed && y.eventCycle == x.eventCycle
    && x.completedMemOps <= y.completedMemOps
  }

  lemma StageThen(x: Instr, y: Instr, z: Instr)
    requires SameStage(x, y) && SameStage(y, z)
    ensures SameStage(x, z)
  {
    hide StaticOf;
  }

  lemma SameStageAs(x: Instr)
    ensures SameStage(x, x)
  {
  }

  ghost predicate SameHead(s: State, t: State) { s.rob != [] && t.rob != [] && SameStage(s.rob[0], t.rob[0]) }

  lemma {:induction false} RetireGrows(s: State, bw: nat)
    ensures var t := Retire(s, bw); s.retired <= t.retired && t.cycle == s.cycle && t.warmup == s.warmup
    decreases bw
  {
    if !(bw == 0 || s.rob == [] || s.rob[0].executed != Completed) {
      RetireGrows(s.(retired := s.retired + [s.rob[0]], rob := s.rob[1..]), bw - 1);
    }
  }

  lemma RetireHead(s: State, bw: nat)
    requires s.rob != [] && bw > 0
    ensures if s.rob[0].executed == Completed then s.retired + [s.rob[0]] <= Retire(s, bw).retired
            else Retire(s, bw) == s
  {
    if s.rob[0].executed == Completed {
      RetireGrows(s.(retired := s.retired + [s.rob[0]], rob := s.rob[1..]), bw - 1);
    }
  }

  /** Completing another instruction does not touch the oldest one. */
  lemma CompleteOther(c: Config, s: State, i: nat, given: Given)
    requires Safe(c, s, given) && 0 < i < |s.rob| && CanComplete(s, i)
    ensures SameHead(s, WithRegs(s, Complete(RegsOf(s), i)))
  {
    CompleteEffect(RegsOf(s), i);
  }

  lemma {:induction false} CompleteLater(c: Config, s: State, i: nat, bw: nat, given: Given)
    requires Safe(c, s, given) && 0 < i <= |s.rob|
    ensures |s.producers| == NUM_REGS && SameHead(s, CompleteFrom(s, i, bw))
    decreases |s.rob| - i
  {
    assert |s.producers| == NUM_REGS;
    SameStageAs(s.rob[0]);
    hide Safe, SameStage, Complete;
    if i < |s.rob| && bw > 0 {
      if CanComplete(s, i) {
        CompleteOne(c, s, i, given);
        CompleteOther(c, s, i, given);
        var t := WithRegs(s, Complete(RegsOf(s), i));
        CompleteLater(c, t, i + 1, bw - 1, given);
        StageThen(s.rob[0], t.rob[0], CompleteFrom(t, i + 1, bw - 1).rob[0]);
      } else {
        CompleteLater(c, s, i + 1, bw, given);
      }
    }
  }

  lemma CompleteFirst(c: Config, s: State, given: Given)
    requires Safe(c, s, given) && s.rob != [] && CanComplete(s, 0)
    ensures |s.producers| == NUM_REGS
    ensures var t := WithRegs(s, Complete(RegsOf(s), 0));
            t.rob != [] && SameStage(s.rob[0].(executed := Completed), t.rob[0])
  {
    CompleteEffect(RegsOf(s), 0);
  }

  lemma CompleteHead(c: Config, s: State, bw: nat, given: Given)
    requires Safe(c, s, given) && s.rob != [] && bw > 0
    ensures |s.producers| == NUM_REGS
    ensures var t := CompleteFrom(s, 0, bw);
            t.rob != [] && SameStage(if CanComplete(s, 0) then s.rob[0].(executed := Completed) else s.rob[0], t.rob[0])
  {
    hide Safe, SameStage, Complete, StaticOf;
    if CanComplete(s, 0) {
      CompleteFirst(c, s, given);
      CompleteOne(c, s, 0, given);
      var t := WithRegs(s, Complete(RegsOf(s), 0));
      CompleteLater(c, t, 1, bw - 1, given);
      StageThen(s.rob[0].(executed := Completed), t.rob[0], CompleteFrom(t, 1, bw - 1).rob[0]);
    } else {
      CompleteLater(c, s, 1, bw, given);
    }
  }

  lemma {:induction false} ExecuteLater(c: Config, s: State, i: nat, bw: nat)
    requires 0 < i <= |s.rob|
    ensures ExecuteFrom(c, s, i, bw).rob[0] == s.rob[0]
    decreases |s.rob| - i
  {
    if i < |s.rob| && bw > 0 {
      if CanStart(s, i) {
        ExecuteLater(c, Execute(c, s, i), i + 1, bw - 1);
      } else {
        ExecuteLater(c, s, i + 1, bw);
      }
    }
  }

  lemma ExecuteHead(c: Config, s: State, bw: nat)
    requires s.rob != [] && bw > 0
    ensures ExecuteFrom(c, s, 0, bw).rob[0] ==
            if CanStart(s, 0) then s.rob[0].(executed := Inflight, eventCycle := Delay(s, c.execLatency)) else s.rob[0]
  {
    if CanStart(s, 0) {
      ExecuteLater(c, Execute(c, s, 0), 1, bw - 1);
    } else {
      ExecuteLater(c, s, 1, bw);
    }
  }

  lemma ScheduleOther(c: Config, s: State, i: nat)
    requires 0 < i < |s.rob| && |s.producers| == NUM_REGS
    ensures SameHead(s, ScheduleOne(c, s, i))
  {
    MarkSourcesOnlyEdges(s.rob, s.producers, i, |s.rob[i].sources|);
  }

  lemma {:induction false} ScheduleLater(c: Config, s: State, i: nat, bw: nat)
    requires 0 < i <= |s.rob| && |s.producers| == NUM_REGS
    ensures SameHead(s, ScheduleFrom(c, s, i, bw))
    decreases |s.rob| - i
  {
    if i < |s.rob| && bw > 0 {
      ScheduleOther(c, s, i);
      var t := ScheduleOne(c, s, i);
      hide ScheduleOne;
      ScheduleLater(c, t, i + 1, if t.rob[i].executed == Idle then bw - 1 else bw);
    }
  }

  lemma ScheduleHead(c: Config, s: State, bw: nat)
    requires s.rob != [] && |s.producers| == NUM_REGS && bw > 0
    ensures var t := ScheduleFrom(c, s, 0, bw);
            var x := s.rob[0];
            var y := if x.scheduled then x else x.(scheduled := true, eventCycle := Delay(s, c.schedulingLatency));
            t.rob != [] && SameStage(y, t.rob[0])
  {
    MarkSourcesOnlyEdges(s.rob, s.producers, 0, |s.rob[0].sources|);
    var t := ScheduleOne(c, s, 0);
    ScheduleLater(c, t, 1, if t.rob[0].executed == Idle then bw - 1 else bw);
  }

  ghost predicate MemOpsGrow(a: seq<Instr>, b: seq<Instr>) {
    |a| == |b| && forall k :: 0 <= k < |a| ==> SameStage(a[k], b[k])
  }

  lemma SameGrows(a: seq<Instr>)
    ensures MemOpsGrow(a, a)
  {
  }

  lemma GrowThen(a: seq<Instr>, b: seq<Instr>, c: seq<Instr>)
    requires MemOpsGrow(a, b) && MemOpsGrow(b, c)
    ensures MemOpsGrow(a, c)
  {
    forall k | 0 <= k < |a| ensures SameStage(a[k], c[k]) {
      StageThen(a[k], b[k], c[k]);
    }
  }

  lemma FinishStoreGrows(m: Mem.Mem, k: nat, cycle: nat)
    requires k < |m.sq|
    ensures MemOpsGrow(m.rob, Mem.FinishStore(m, k, cycle).rob)
  {
    var issued := Mem.IssueStore(m, k, cycle);
    ReleaseSlotsGrow(issued, m.sq[k].waiters);
    assert MemOpsGrow(m.rob, issued.rob);
    hide MemOpsGrow, Mem.IssueStore, Mem.ReleaseSlots;
    GrowThen(m.rob, issued.rob, Mem.FinishStore(m, k, cycle).rob);
  }

  lemma {:induction false} ReleaseSlotsGrow(m: Mem.Mem, qs: seq<nat>)
    ensures MemOpsGrow(m.rob, Mem.ReleaseSlots(m, qs).rob)
    decreases |qs|
  {
    if qs != [] {
      ReleaseSlotsGrow(Mem.ReleaseSlot(m, qs[0]), qs[1..]);
    }
  }

  lemma {:induction false} ReturnBlockGrows(c: Config, s: State, address: nat, q: nat)
    requires q <= |s.lq|
    ensures MemOpsGrow(s.rob, ReturnBlock(c, s, address, q).rob)
    decreases |s.lq| - q
  {
    if q < |s.lq| {
      if ReturnsTo(c, s, q, address) {
        ReturnBlockGrows(c, WithMem(s, Mem.ReleaseSlot(MemOf(s), q)), address, q + 1);
      } else {
        ReturnBlockGrows(c, s, address, q + 1);
      }
    }
  }

  lemma {:induction false} MemoryReturnGrows(c: Config, s: State, bw: nat)
    ensures MemOpsGrow(s.rob, MemoryReturn(c, s, bw).rob)
    decreases bw
  {
    if !(bw == 0 || s.processed == []) {
      ReturnBlockGrows(c, s, s.processed[0], 0);
      MemoryReturnGrows(c, ReturnBlock(c, s, s.processed[0], 0).(processed := s.processed[1..]), bw - 1);
    }
  }

  lemma {:induction false} FinishStoresGrow(s: State, k: nat, n: nat)
    requires k + n <= |s.sq|
    ensures MemOpsGrow(s.rob, FinishStores(s, k, n).rob)
    decreases n
  {
    if n > 0 {
      Frames(MemOf(s), k, s.cycle);
      FinishStoreGrows(MemOf(s), k, s.cycle);
      var t := WithMem(s, Mem.FinishStore(MemOf(s), k, s.cycle));
      FinishStoresGrow(t, k + 1, n - 1);
      hide MemOpsGrow, Mem.FinishStore;
      GrowThen(s.rob, t.rob, FinishStores(t, k + 1, n - 1).rob);
    } else {
      SameGrows(s.rob);
    }
  }

  lemma LsqGrows(c: Config, s: State, e: Environment)
    ensures MemOpsGrow(s.rob, OperateLsq(c, s, e).rob)
  {
    FinishStoresGrow(s, FirstPending(s.sq), ReadyStoresCount(c, s));
  }

  lemma DispatchKeepsHead(c: Config, s: State, given: Given)
    requires Safe(c, s, given) && CanDispatch(c, s) && s.rob != []
    ensures Mem.Dispatch(MemOf(s), s.buffer[0]).rob != [] && Mem.Dispatch(MemOf(s), s.buffer[0]).rob[0] == s.rob[0]
  {
    Mem.DispatchKeeps(MemOf(s), s.buffer[0]);
  }

  lemma {:induction false} DispatchHead(c: Config, s: State, bw: nat, given: Given)
    requires Safe(c, s, given) && s.rob != []
    ensures Dispatch(c, s, bw).rob != [] && Dispatch(c, s, bw).rob[0] == s.rob[0]
    decreases bw
  {
    hide Safe;
    if bw > 0 && CanDispatch(c, s) {
      DispatchOne(c, s, given);
      DispatchKeepsHead(c, s, given);
      DispatchHead(c, WithMem(s, Mem.Dispatch(MemOf(s), s.buffer[0])).(buffer := s.buffer[1..]), bw - 1, given);
    }
  }

  lemma {:induction false} ArriveKeepsRob(s: State, xs: seq<Instr>)
    ensures Arrive(s, xs).rob == s.rob
    decreases |xs|
  {
    if xs != [] {
      ArriveKeepsRob(s.(buffer := s.buffer + [xs[0]], nextId := xs[0].id + 1), xs[1..]);
    }
  }

  // ---------------------------------------------------------------- one cycle

  /** All the stages that the oldest instruction passes through have some width. */
  predicate Wide(c: Config) { c.retireWidth > 0 && c.execWidth > 0 && c.schedulerSize > 0 }

  /** One cycle of an oldest instruction: it is scheduled, starts or completes as soon as it may. */
  function Advance(c: Config, s: State, x: Instr): Instr {
    if !x.scheduled then x.(scheduled := true, eventCycle := Delay(s, c.schedulingLatency))
    else if s.cycle < x.eventCycle then x
    else if x.executed == Idle then x.(executed := Inflight, eventCycle := Delay(s, c.execLatency))
    else if x.executed == Inflight && x.completedMemOps == x.NumMemOps() then x.(executed := Completed)
    else x
  }

  lemma SameMemOps(x: Instr, y: Instr)
    requires StaticOf(x) == StaticOf(y)
    ensures x.NumMemOps() == y.NumMemOps()
  {
  }

  /** The oldest instruction never waits for a register. */
  lemma HeadWaitsForNobody(c: Config, s: State, given: Given)
    requires Safe(c, s, given) && s.rob != []
    ensures s.rob[0].numRegDependent == 0 && |s.producers| == NUM_REGS
    ensures !s.rob[0].scheduled ==> s.rob[0].executed == Idle
  {
    OldestWaitsForNobody(RegsOf(s), 0);
  }

  lemma FrontHead(c: Config, s: State, given: Given)
    requires Safe(c, s, given) && s.rob != [] && s.rob[0].executed != Completed && Wide(c)
    ensures |s.producers| == NUM_REGS
    ensures var t := Front(c, s);
            t.rob != [] && SameStage(Advance(c, s, s.rob[0]), t.rob[0]) && SameTime(s, t)
  {
    hide Safe, Retire, CompleteFrom, ExecuteFrom, ScheduleFrom;
    HeadWaitsForNobody(c, s, given);
    RetireHead(s, c.retireWidth);
    CompleteHead(c, s, c.execWidth, given);
    CompleteSafe(c, s, 0, c.execWidth, given);
    var completed := CompleteFrom(s, 0, c.execWidth);
    HeadWaitsForNobody(c, completed, given);
    ExecuteHead(c, completed, c.execWidth);
    var executed := ExecuteFrom(c, completed, 0, c.execWidth);
    ScheduleHead(c, executed, c.schedulerSize);
  }

  lemma GrowsHead(s: State, t: State)
    requires s.rob != [] && MemOpsGrow(s.rob, t.rob)
    ensures SameHead(s, t)
  {
  }

  lemma BackHead(c: Config, s: State, e: Environment, given: Given)
    requires Safe(c, s, given) && s.rob != []
    ensures SameHead(s, Back(c, s, e)) && SameTime(s, Back(c, s, e))
  {
    var returned := MemoryReturn(c, s, c.l1dBandwidth);
    MemoryReturnSafe(c, s, c.l1dBandwidth, given);
    MemoryReturnGrows(c, s, c.l1dBandwidth);
    LsqSafe(c, returned, e, given);
    LsqGrows(c, returned, e);
    var operated := OperateLsq(c, returned, e);
    hide Safe, MemoryReturn, OperateLsq;
    GrowsHead(s, returned);
    GrowsHead(returned, operated);
    DispatchHead(c, operated, c.dispatchWidth, given);
    StageThen(s.rob[0], returned.rob[0], operated.rob[0]);
  }

  /**
   * What one cycle does for the oldest instruction, exactly: a completed one retires; any other stays the oldest,
   * and is scheduled, starts or completes as soon as it may.
   */
  lemma HeadAdvances(c: Config, s: State, e: Environment)
    requires Inv(c, s) && s.rob != [] && Wide(c)
    ensures |s.producers| == NUM_REGS
    ensures var t := Cycle(c, s, e);
            var x := s.rob[0];
            if x.executed == Completed then s.retired + [x] <= t.retired
            else
              && t.retired == s.retired && t.rob != []
              && SameStage(Advance(c, Begin(s, e), x), t.rob[0])
  {
    var given, b := GivenOf(s), Begin(s, e);
    assert |s.producers| == NUM_REGS;
    hide Inv;
    ClockSafe(c, s, e, given);
    var front := Front(c, b);
    FrontSafe(c, b, given);
    ArriveKeepsRob(Back(c, front, e), e.arrivals);
    if s.rob[0].executed == Completed {
      RetireHead(b, c.retireWidth);
      CompletedRetires(c, b, given);
    } else {
      FrontHead(c, b, given);
      BackHead(c, front, e, given);
      hide Front, Back, Advance;
      StageThen(Advance(c, b, b.rob[0]), front.rob[0], Back(c, front, e).rob[0]);
    }
  }

  lemma CompletedRetires(c: Config, s: State, given: Given)
    requires Safe(c, s, given) && s.rob != [] && s.rob[0].executed == Completed && c.retireWidth > 0
    ensures |s.producers| == NUM_REGS && s.retired + [s.rob[0]] <= Front(c, s).retired
  {
    RetireHead(s, c.retireWidth);
    assert |s.producers| == NUM_REGS;
    hide Safe, Retire, CompleteFrom, ExecuteFrom, ScheduleFrom;
  }

  // ---------------------------------------------------------------- every run

  predicate MemoryDone(x: Instr) { x.completedMemOps == x.NumMemOps() }

  /** Cycles until `x` is due. */
  function Wait(s: State, x: Instr): nat { if s.cycle < x.eventCycle then x.eventCycle - s.cycle else 0 }

  /** Cycles within which the oldest instruction retires once its memory operations have finished. */
  function CyclesLeft(c: Config, s: State, x: Instr): (n: nat)
    ensures n > 0
  {
    if !x.scheduled then c.schedulingLatency + c.execLatency + 4
    else
      match x.executed
      case Idle => Wait(s, x) + c.execLatency + 3
      case Inflight => Wait(s, x) + 2
      case Completed => 1
  }

  lemma SameLeft(c: Config, s: State, x: Instr, y: Instr)
    requires SameStage(x, y)
    ensures CyclesLeft(c, s, y) == CyclesLeft(c, s, x)
  {
  }

  lemma AdvanceCloser(c: Config, s: State, t: State, x: Instr)
    requires t.cycle == s.cycle + 1 && x.executed != Completed && MemoryDone(x)
    requires !x.scheduled ==> x.executed == Idle
    ensures CyclesLeft(c, t, Advance(c, s, x)) < CyclesLeft(c, s, x)
  {
  }

  lemma HeadMemory(c: Config, s: State)
    requires Inv(c, s) && s.rob != []
    ensures s.rob[0].completedMemOps <= s.rob[0].NumMemOps()
  {
  }

  /** A cycle brings the oldest instruction closer to retiring. */
  lemma CycleCloser(c: Config, s: State, e: Environment)
    requires Inv(c, s) && s.rob != [] && s.rob[0].executed != Completed && MemoryDone(s.rob[0]) && Wide(c)
    requires FreshArrivals(e.arrivals, s.nextId)
    ensures |s.producers| == NUM_REGS
    ensures var t := Cycle(c, s, e);
            && t.retired == s.retired && t.rob != [] && StaticOf(t.rob[0]) == StaticOf(s.rob[0])
            && MemoryDone(t.rob[0]) && CyclesLeft(c, t, t.rob[0]) < CyclesLeft(c, s, s.rob[0])
  {
    hide Inv, Cycle, FreshArrivals, Program;
    HeadAdvances(c, s, e);
    CycleSafe(c, s, e, GivenOf(s));
    HeadWaitsForNobody(c, s, GivenOf(s));
    var t, x := Cycle(c, s, e), s.rob[0];
    HeadMemory(c, t);
    CycleTicks(c, s, e);
    var y := Advance(c, Begin(s, e), x);
    AdvanceCloser(c, Begin(s, e), t, x);
    SameLeft(c, t, y, t.rob[0]);
    SameMemOps(y, t.rob[0]);
  }

  lemma CycleTicks(c: Config, s: State, e: Environment)
    requires |s.producers| == NUM_REGS
    ensures s.retired <= Cycle(c, s, e).retired && Cycle(c, s, e).cycle == s.cycle + 1
  {
    RetireGrows(Begin(s, e), c.retireWidth);
  }

  lemma {:induction false} RunGrows(c: Config, s: State, es: seq<Environment>)
    requires |s.producers| == NUM_REGS
    ensures s.retired <= Run(c, s, es).retired
    decreases |es|
  {
    if es != [] {
      CycleTicks(c, s, es[0]);
      hide Cycle;
      RunGrows(c, Cycle(c, s, es[0]), es[1..]);
    }
  }

  /**
   * Progress: in every run, whatever arrives and whatever the memory does, an oldest instruction whose memory
   * operations have finished retires within the stated number of cycles.
   */
  lemma {:induction false} OldestRetires(c: Config, s: State, es: seq<Environment>)
    requires Inv(c, s) && s.rob != [] && MemoryDone(s.rob[0]) && Wide(c)
    requires FreshRun(es, s.nextId) && |es| >= CyclesLeft(c, s, s.rob[0])
    ensures |s.producers| == NUM_REGS
    ensures var r := Run(c, s, es).retired;
            s.retired <= r && |s.retired| < |r| && StaticOf(r[|s.retired|]) == StaticOf(s.rob[0])
    decreases |es|
  {
    hide Inv, Cycle, FreshArrivals, SameStage;
    HeadAdvances(c, s, es[0]);
    var t := Cycle(c, s, es[0]);
    if s.rob[0].executed == Completed {
      RunGrows(c, t, es[1..]);
    } else {
      CycleCloser(c, s, es[0]);
      CycleSafe(c, s, es[0], GivenOf(s));
      OldestRetires(c, t, es[1..]);
    }
  }

  /** Progress from every reachable state. */
  lemma ReachableProgress(c: Config, s: State, es: seq<Environment>)
    requires Reachable(c, s) && s.rob != [] && MemoryDone(s.rob[0]) && Wide(c)
    requires FreshRun(es, s.nextId) && |es| >= CyclesLeft(c, s, s.rob[0])
    ensures |s.producers| == NUM_REGS
    ensures var r := Run(c, s, es).retired;
            |s.retired| < |r| && StaticOf(r[|s.retired|]) == StaticOf(s.rob[0])
  {
    ReachableSafe(c, s);
    OldestRetires(c, s, es);
  }
}
