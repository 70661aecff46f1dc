/** What holds in every state the out-of-order core can reach, for any trace and any memory behaviour. */
module CoreTheorems {
  import opened CorePipeline
  import opened CoreTypes
  import opened CoreRegisters
  import Mem = CoreMemory
  import opened Wrappers

  function Initial(c: Config): State {
    State([], [], [], 0, seq(NUM_REGS, _ => []), seq(c.lqSize, _ => None), [], [], 0, true)
  }

  ghost predicate FreshRun(es: seq<Environment>, nextId: nat)
    decreases |es|
  {
    es == [] ||
    (FreshArrivals(es[0].arrivals, nextId)
     && FreshRun(es[1..], if es[0].arrivals == [] then nextId else Last(es[0].arrivals).id + 1))
  }

  /** All cycles of a run. */
  function Run(c: Config, s: State, es: seq<Environment>): (t: State)
    requires |s.producers| == NUM_REGS
    decreases |es|
  {
    if es == [] then s else Run(c, Cycle(c, s, es[0]), es[1..])
  }

  function Arrived(es: seq<Environment>): seq<Static> {
    if es == [] then [] else Statics(es[0].arrivals) + Arrived(es[1..])
  }

  ghost predicate Reaches(c: Config, es: seq<Environment>, s: State) {
    FreshRun(es, 0) && s == Run(c, Initial(c), es)
  }

  ghost predicate Reachable(c: Config, s: State) { exists es :: Reaches(c, es, s) }

  lemma InitialParts(c: Config)
    ensures RegInv(RegsOf(Initial(c))) && Mem.MemInv(MemOf(Initial(c)), 0, 0, [])
  {
  }

  lemma InitialInv(c: Config)
    ensures Safe(c, Initial(c), Given([], 0))
  {
    hide RegInv, Mem.MemInv;
    InitialParts(c);
  }

  /** What the core has been given after a run. */
  function GivenRun(g: Given, es: seq<Environment>): Given
    decreases |es|
  {
    if es == [] then g else GivenRun(GivenAfter(g, es[0].arrivals), es[1..])
  }

  lemma Associative<T>(a: seq<T>, b: seq<T>, c: seq<T>)
    ensures a + b + c == a + (b + c)
  {
  }

  lemma {:induction false} GivenRunProgram(g: Given, es: seq<Environment>)
    ensures GivenRun(g, es).program == g.program + Arrived(es)
    decreases |es|
  {
    if es == [] {
      assert g.program + Arrived(es) == g.program;
    } else {
      GivenRunProgram(GivenAfter(g, es[0].arrivals), es[1..]);
      Associative(g.program, Statics(es[0].arrivals), Arrived(es[1..]));
    }
  }

  /** The invariant holds throughout, and no instruction is lost, duplicated, altered or reordered. */
  lemma {:induction false} RunSafe(c: Config, s: State, es: seq<Environment>, given: Given)
    requires Safe(c, s, given) && FreshRun(es, given.nextId) && |s.producers| == NUM_REGS
    ensures Safe(c, Run(c, s, es), GivenRun(given, es))
    decreases |es|
  {
    hide Safe, Cycle, FreshArrivals, Statics;
    if es != [] {
      CycleSafe(c, s, es[0], given);
      RunSafe(c, Cycle(c, s, es[0]), es[1..], GivenAfter(given, es[0].arrivals));
    }
  }

  lemma ReachableSafe(c: Config, s: State)
    requires Reachable(c, s)
    ensures Inv(c, s)
  {
    var es :| Reaches(c, es, s);
    InitialInv(c);
    RunSafe(c, Initial(c), es, Given([], 0));
  }

  /**
   * What arrived has either retired, is in flight, or waits for dispatch, in that order: retirement
   * is in program order.
   */
  lemma RetiresInOrder(c: Config, es: seq<Environment>, s: State)
    requires Reaches(c, es, s)
    ensures Statics(s.retired) + Statics(s.rob) + Statics(s.buffer) == Arrived(es)
  {
    InitialInv(c);
    RunSafe(c, Initial(c), es, Given([], 0));
    GivenRunProgram(Given([], 0), es);
    ProgramParts(s);
  }

  lemma ProgramParts(s: State)
    ensures [] + Program(s) == Program(s) == Statics(s.retired) + Statics(s.rob) + Statics(s.buffer)
  {
  }

  /** An instruction of the whole history, in flight or retired. */
  function History(s: State): seq<Instr> { s.retired + s.rob }

  lemma YoungestInFlight(s: State, i: nat, g: Reg, w: nat)
    requires YoungestWriter(History(s), i, g, w) && |s.retired| <= w
    ensures YoungestWriter(s.rob, i - |s.retired|, g, w - |s.retired|)
  {
    var n := |s.retired|;
    forall k | w - n < k < i - n
      ensures g !in s.rob[k].destinations
    {
      assert History(s)[k + n] == s.rob[k];
    }
  }

  lemma HistoryHasInputs(s: State, i: nat, g: Reg, w: nat)
    requires RegInv(RegsOf(s))
    requires forall k :: 0 <= k < |s.retired| ==> s.retired[k].executed == Completed
    requires YoungestWriter(History(s), i, g, w) && g in History(s)[i].sources && History(s)[i].executed != Idle
    ensures History(s)[w].executed == Completed
  {
    var n := |s.retired|;
    if w >= n {
      YoungestInFlight(s, i, g, w);
      StartedHasInputs(RegsOf(s), i - n, g, w - n);
    }
  }

  /**
   * Read after write over the whole program: in every reachable state, an instruction that has
   * started executing, or retired, has the results of the youngest older writer of each source.
   */
  lemma ReadAfterWrite(c: Config, s: State, i: nat, g: Reg, w: nat)
    requires Reachable(c, s)
    requires YoungestWriter(History(s), i, g, w) && g in History(s)[i].sources && History(s)[i].executed != Idle
    ensures History(s)[w].executed == Completed
  {
    ReachableSafe(c, s);
    HistoryHasInputs(s, i, g, w);
  }

  /** No register deadlock: the oldest unfinished instruction, once scheduled and due, can start. */
  lemma OldestCanStart(c: Config, s: State, i: nat)
    requires Reachable(c, s) && i < |s.rob|
    requires s.rob[i].scheduled && s.rob[i].executed == Idle && s.rob[i].eventCycle <= s.cycle
    requires forall k :: 0 <= k < i ==> s.rob[k].executed == Completed
    ensures CanStart(s, i)
  {
    ReachableSafe(c, s);
    OldestWaitsForNobody(RegsOf(s), i);
  }

  /** Every memory operation is accounted for, and what has completed or retired has none left. */
  lemma MemoryAccounted(c: Config, s: State)
    requires Reachable(c, s)
    ensures forall i :: 0 <= i < |s.rob| ==>
      s.rob[i].completedMemOps + Mem.InQueues(MemOf(s), s.rob[i].id) == s.rob[i].NumMemOps()
    ensures forall i :: 0 <= i < |s.rob| && s.rob[i].executed == Completed ==> Mem.InQueues(MemOf(s), s.rob[i].id) == 0
    ensures forall i :: 0 <= i < |s.retired| ==> s.retired[i].completedMemOps == s.retired[i].NumMemOps()
    ensures Mem.QueuesLive(MemOf(s))
  {
    ReachableSafe(c, s);
  }

  ghost predicate NobodyWaitsFor(lq: seq<Option<LoadEntry>>, id: nat) {
    forall q :: 0 <= q < |lq| && lq[q].Some? ==> lq[q].value.producer != Some(id)
  }

  /** A store that may be written to the data cache was issued, and no load waits for it any more. */
  lemma DrainedStoreFinished(c: Config, s: State)
    requires Inv(c, s) && CanDrain(s)
    ensures s.sq[0].fetchIssued && NobodyWaitsFor(s.lq, s.sq[0].id)
  {
    forall j | 0 <= j < |s.sq| && s.sq[j].id == s.sq[0].id ensures s.sq[j].fetchIssued {
      Mem.RetiredStoreIssued(MemOf(s), j);
    }
    forall q | 0 <= q < |s.lq| && s.lq[q].Some? && s.lq[q].value.producer.Some?
      ensures s.lq[q].value.producer.value != s.sq[0].id
    {
      var j :| Mem.Owns(s.sq, j, q) && s.sq[j].id == s.lq[q].value.producer.value;
    }
  }

  /** Draining removes a prefix of the queue: stores that were issued and that no load waits for. */
  ghost predicate DrainsFinished(s: State, t: State) {
    && |t.sq| <= |s.sq|
    && var n := |s.sq| - |t.sq|;
       t == s.(sq := s.sq[n..])
       && forall k :: 0 <= k < n ==> s.sq[k].fetchIssued && NobodyWaitsFor(s.lq, s.sq[k].id)
  }

  lemma DrainedThen(s: State, t: State)
    requires s.sq != [] && s.sq[0].fetchIssued && NobodyWaitsFor(s.lq, s.sq[0].id)
    requires DrainsFinished(s.(sq := s.sq[1..]), t)
    ensures DrainsFinished(s, t)
  {
    var n := |s.sq| - |t.sq|;
    assert s.sq[1..][n - 1..] == s.sq[n..];
    forall k | 0 <= k < n ensures s.sq[k].fetchIssued && NobodyWaitsFor(s.lq, s.sq[k].id) {
      assert k > 0 ==> s.sq[k] == s.sq[1..][k - 1];
    }
  }

  lemma {:induction false} DrainStoresFinished(c: Config, s: State, bw: nat, given: Given)
    requires Safe(c, s, given)
    ensures DrainsFinished(s, DrainStores(s, bw))
    decreases bw
  {
    if bw > 0 && CanDrain(s) {
      DrainedStoreFinished(c, s);
      DrainOne(c, s, given);
      hide Safe;
      DrainStoresFinished(c, s.(sq := s.sq[1..]), bw - 1, given);
      DrainedThen(s, DrainStores(s.(sq := s.sq[1..]), bw - 1));
    } else {
      assert s.sq[0..] == s.sq;
    }
  }

  /** The state in which the stores of a cycle are drained. */
  function BeforeDrain(c: Config, s: State, e: Environment): State
    requires |s.producers| == NUM_REGS
  {
    FinishReady(c, MemoryReturn(c, Front(c, Begin(s, e)), c.l1dBandwidth))
  }

  /** In every cycle after every run, whatever leaves the store queue was issued, with no load left behind. */
  lemma EveryDrainFinished(c: Config, s: State, e: Environment, bw: nat)
    requires Reachable(c, s) && |s.producers| == NUM_REGS
    ensures DrainsFinished(BeforeDrain(c, s, e), DrainStores(BeforeDrain(c, s, e), bw))
  {
    ReachableSafe(c, s);
    var given := GivenOf(s);
    hide Inv;
    ClockSafe(c, s, e, given);
    FrontSafe(c, Begin(s, e), given);
    MemoryReturnSafe(c, Front(c, Begin(s, e)), c.l1dBandwidth, given);
    FinishReadySafe(c, MemoryReturn(c, Front(c, Begin(s, e)), c.l1dBandwidth), given);
    DrainStoresFinished(c, BeforeDrain(c, s, e), bw, given);
  }

  /** The queued store that a waiting load belongs to. */
  ghost predicate OwnedBy(s: State, q: nat, e: LoadEntry, k: nat) {
    && k < |s.sq| && !s.sq[k].fetchIssued && q in s.sq[k].waiters
    && e.producer == Some(s.sq[k].id) && s.sq[k].id < e.id && s.sq[k].address == e.address
    && forall j :: Mem.Owns(s.sq, j, q) ==> j == k
  }

  lemma OwnedByExactlyOne(s: State, q: nat) returns (k: nat)
    requires Mem.Ownership(s.lq, s.sq, 0, [])
    requires q < |s.lq| && s.lq[q].Some? && s.lq[q].value.producer.Some?
    ensures OwnedBy(s, q, s.lq[q].value, k)
  {
    var j :| Mem.Owns(s.sq, j, q) && s.sq[j].id == s.lq[q].value.producer.value;
    k := j;
    assert Mem.WaitersOk(s.lq, s.sq[k]);
  }

  /**
   * A load that waits for a store has not been issued and belongs to exactly one queued store: an
   * unfinished, older one to the same address.
   */
  lemma WaitingLoadOwned(c: Config, s: State, q: nat)
    requires Reachable(c, s)
    requires q < |s.lq| && s.lq[q].Some? && s.lq[q].value.producer.Some?
    ensures !s.lq[q].value.fetchIssued
    ensures exists k :: OwnedBy(s, q, s.lq[q].value, k)
  {
    ReachableSafe(c, s);
    var k := OwnedByExactlyOne(s, q);
  }
}
