/** What holds on every run of a DRAM channel. */
module DramTheorems {
  import opened Bits
  import opened DramModel
  import opened DramProofs
  import opened Seqs
  import opened Waiters
  import opened Wrappers

  // ---------------------------------------------------------------- reads are never lost

  /** All reads in flight, with multiplicity. */
  ghost function Owed(c: Config, q: seq<Entry>): multiset<Debt> { Total(q, EntryDebts(c)) }

  lemma {:induction false} ClearedOwes(c: Config, q: seq<Entry>)
    requires forall i :: 0 <= i < |q| ==> q[i] == EMPTY
    ensures Owed(c, q) == multiset{}
  {
    if q != [] {
      assert q[0] == EMPTY;
      ClearedOwes(c, q[1..]);
    }
  }

  /** Emptying a slot takes its debts out. */
  lemma EmptyOwes(c: Config, q: seq<Entry>, i: nat)
    requires i < |q|
    ensures Owed(c, q[i := EMPTY]) + Debts(c, q[i]) == Owed(c, q)
  {
    TotalUpdate(q, i, EMPTY, EntryDebts(c));
    assert Debts(c, EMPTY) == multiset{};
  }

  lemma AddOwes(c: Config, s: State, e: Entry)
    requires Inv(c, s) && Add(s, false, e).1
    ensures Owed(c, Add(s, false, e).0.rq) == Owed(c, s.rq) + Debts(c, e)
  {
    var k := FirstFree(s.rq);
    assert s.rq[k] == EMPTY;
    var x := e.(checked := false, eventCycle := Some(s.cycle));
    TotalUpdate(s.rq, k, x, EntryDebts(c));
    assert Debts(c, EMPTY) == multiset{};
    assert Debts(c, x) == Debts(c, e);
  }

  lemma JoinOwes(c: Config, q: seq<Entry>, i: nat, k: nat)
    requires i < |q| && k < |q| && i != k && BlockOf(c, q[i].address) == BlockOf(c, q[k].address)
    ensures Settles(Owed(c, q), Owed(c, Join(q, i, k)))
  {
    var x := q[k].(toReturn := q[k].toReturn + q[i].toReturn);
    DebtsUnion(q[k].toReturn, q[i].toReturn, BlockOf(c, x.address));
    TotalUpdate(q, k, x, EntryDebts(c));
    EmptyOwes(c, q[k := x], i);
    EmptyOwes(c, q, i);
    EmptyOwes(c, q[i := EMPTY], k);
    var rest := Owed(c, q[i := EMPTY][k := EMPTY]);
    Trade(Owed(c, q), Owed(c, Join(q, i, k)), rest, Debts(c, q[i]), Debts(c, q[k]), Debts(c, x));
  }

  lemma CheckOwes(c: Config, q: seq<Entry>, i: nat)
    requires i < |q|
    ensures Owed(c, q[i := q[i].(checked := true)]) == Owed(c, q)
  {
    var x := q[i].(checked := true);
    assert Debts(c, x) == Debts(c, q[i]);
    TotalSame(q, i, x, EntryDebts(c));
  }

  lemma {:induction false} CheckReadsOwes(c: Config, wq: seq<Entry>, q: seq<Entry>, i: nat)
    requires i <= |q|
    ensures var r := CheckReads(c, wq, q, i);
            Settles(Owed(c, q), Owed(c, r.0) + r.1)
    decreases |q| - i
  {
    hide Settles;
    hide Debts;
    var r := CheckReads(c, wq, q, i);
    if i == |q| {
      SettlesRefl(Owed(c, q));
      assert Owed(c, q) + multiset{} == Owed(c, q);
    } else if !Unchecked(q[i]) {
      CheckReadsOwes(c, wq, q, i + 1);
    } else if FindEntry(c, wq, q[i].address) < |wq| {
      var n := CheckReads(c, wq, q[i := EMPTY], i + 1);
      EmptyOwes(c, q, i);
      CheckReadsOwes(c, wq, q[i := EMPTY], i + 1);
      SettlesPlus(Owed(c, q[i := EMPTY]), Owed(c, n.0) + n.1, Debts(c, q[i]));
      assert Owed(c, n.0) + n.1 + Debts(c, q[i]) == Owed(c, r.0) + r.1;
    } else if Other(c, q, i) < |q| {
      var next := Join(q, i, Other(c, q, i));
      JoinOwes(c, q, i, Other(c, q, i));
      CheckReadsOwes(c, wq, next, i + 1);
      SettlesThen(Owed(c, q), Owed(c, next), Owed(c, r.0) + r.1);
    } else {
      CheckOwes(c, q, i);
      CheckReadsOwes(c, wq, q[i := q[i].(checked := true)], i + 1);
    }
  }

  lemma WarmupOwes(c: Config, s: State)
    ensures var r := WarmupDrain(c, s); Owed(c, r.0.rq) + r.1 == Owed(c, s.rq)
  {
    ClearedOwes(c, Cleared(s.rq));
  }

  lemma FinishOwes(c: Config, s: State)
    requires Inv(c, s)
    requires BusDone(s) ==> InQueue(s, s.banks[s.active].slot)
    ensures var r := Finish(c, s); Owed(c, r.0.rq) + r.1 == Owed(c, s.rq)
  {
    if BusDone(s) {
      var slot := s.banks[s.active].slot;
      if slot.write {
        assert EntryAt(s, slot).toReturn == {};
      } else {
        EmptyOwes(c, s.rq, slot.index);
      }
    }
  }

  lemma ResetOwes(c: Config, s: State, i: nat)
    requires i < |s.banks| && InQueue(s, s.banks[i].slot)
    ensures Owed(c, ResetBank(c, s, i).rq) == Owed(c, s.rq)
  {
    var slot := s.banks[i].slot;
    if !slot.write {
      var e := EntryAt(s, slot);
      assert Debts(c, e.(scheduled := false, eventCycle := Some(s.cycle))) == Debts(c, e);
      TotalSame(s.rq, slot.index, e.(scheduled := false, eventCycle := Some(s.cycle)), EntryDebts(c));
    }
  }

  lemma {:induction false} ResetBanksOwes(c: Config, s: State, i: nat)
    requires i <= |s.banks| && SlotsInQueues(s)
    ensures Owed(c, ResetBanks(c, s, i).rq) == Owed(c, s.rq)
    decreases |s.banks| - i
  {
    if i < |s.banks| {
      if Resets(s, i) {
        ResetOwes(c, s, i);
        ResetBanksOwes(c, ResetBank(c, s, i), i + 1);
      } else {
        ResetBanksOwes(c, s, i + 1);
      }
    }
  }

  lemma ScheduleOwes(c: Config, s: State)
    requires |Queue(s, s.writeMode)| > 0 && |s.banks| == c.ranks * c.banks
    ensures Owed(c, Schedule(c, s).rq) == Owed(c, s.rq)
  {
    var q := Queue(s, s.writeMode);
    var k := NextEntry(q, |q|);
    if !s.writeMode {
      var x := q[k].(scheduled := true, eventCycle := None);
      assert Debts(c, x) == Debts(c, q[k]);
      TotalSame(q, k, x, EntryDebts(c));
    }
  }

  // ---------------------------------------------------------------- one operate

  /** The states between the parts of an operate, given that the invariant makes each part defined. */
  function AfterCollisions(c: Config, s: State): (State, multiset<Debt>) {
    var a := WarmupDrain(c, s);
    var b := CheckCollision(c, a.0);
    (b.0, a.1 + b.1)
  }

  lemma AfterCollisionsKeeps(c: Config, s: State)
    requires Inv(c, s)
    ensures var r := AfterCollisions(c, s);
            && Inv(c, r.0) && Checked(r.0) && Drained(r.0)
            && Settles(Owed(c, s.rq), Owed(c, r.0.rq) + r.1)
  {
    var a := WarmupDrain(c, s);
    WarmupKeeps(c, s);
    WarmupOwes(c, s);
    CollideKeeps(c, a.0);
    CheckReadsOwes(c, CheckWrites(c, a.0.wq, 0), a.0.rq, 0);
    hide Inv;
    hide Settles;
    var b := CheckCollision(c, a.0);
    SettlesPlus(Owed(c, a.0.rq), Owed(c, b.0.rq) + b.1, a.1);
    assert Owed(c, b.0.rq) + b.1 + a.1 == Owed(c, b.0.rq) + (a.1 + b.1);
  }

  function AfterFinish(c: Config, s: State): (State, multiset<Debt>)
    requires Inv(c, s) && Checked(s) && Drained(s)
  {
    FinishKeeps(c, s);
    Finish(c, s)
  }

  /** Mode flip, bus grant and scheduling. */
  function Dispatch(c: Config, s: State): State
    requires Inv(c, s) && Checked(s) && Drained(s) && (!Idle(s) ==> s.banks[s.active].eventCycle > s.cycle)
  {
    FlipKeeps(c, s);
    var a := Flip(c, s);
    GrantKeeps(c, a);
    var b := Grant(c, a);
    ScheduleKeeps(c, b);
    Schedule(c, b)
  }

  lemma FlipOwes(c: Config, s: State)
    requires SlotsInQueues(s)
    ensures Owed(c, Flip(c, s).rq) == Owed(c, s.rq)
  {
    ResetBanksOwes(c, s, 0);
    hide ResetBanks;
  }

  lemma GrantOwes(c: Config, s: State)
    requires |s.banks| > 0
    ensures Grant(c, s).rq == s.rq
  {
  }

  lemma ScheduleWaits(c: Config, s: State)
    requires |Queue(s, s.writeMode)| > 0 && |s.banks| == c.ranks * c.banks
    ensures Schedule(c, s).congestion == s.congestion
  {
  }

  lemma BanksExist(c: Config, s: State)
    requires Shape(c, s)
    ensures |s.banks| > 0
  {
    assert 1 * 1 <= c.ranks * c.banks;
  }

  lemma DispatchKeeps(c: Config, s: State)
    requires Inv(c, s) && Checked(s) && Drained(s) && (!Idle(s) ==> s.banks[s.active].eventCycle > s.cycle)
    ensures var t := Dispatch(c, s);
            Inv(c, t) && Owed(c, t.rq) == Owed(c, s.rq) && t.congestion >= s.congestion
  {
    FlipKeeps(c, s);
    FlipOwes(c, s);
    var a := Flip(c, s);
    assert !Idle(a) ==> a.banks[a.active].eventCycle > a.cycle;
    BanksExist(c, a);
    GrantKeeps(c, a);
    GrantOwes(c, a);
    var b := Grant(c, a);
    ScheduleKeeps(c, b);
    assert |b.banks| == c.ranks * c.banks;
    ScheduleOwes(c, b);
    ScheduleWaits(c, b);
    hide Inv;
    hide Checked;
    hide Drained;
    hide Flip;
    hide Grant;
    hide Schedule;
    hide Owed;
    assert Dispatch(c, s) == Schedule(c, b);
  }

  /** One `operate()` of the channel, and the answers it gives. */
  function Operate(c: Config, s: State): (State, multiset<Debt>)
    requires Inv(c, s)
  {
    AfterCollisionsKeeps(c, s);
    var a := AfterCollisions(c, s);
    FinishKeeps(c, a.0);
    var b := AfterFinish(c, a.0);
    (Dispatch(c, b.0), a.1 + b.1)
  }

  lemma OperateKeeps(c: Config, s: State)
    requires Inv(c, s)
    ensures var r := Operate(c, s);
            && Inv(c, r.0) && Settles(Owed(c, s.rq), Owed(c, r.0.rq) + r.1)
            && r.0.congestion >= s.congestion
  {
    AfterCollisionsKeeps(c, s);
    var a := AfterCollisions(c, s);
    FinishKeeps(c, a.0);
    FinishOwes(c, a.0);
    var b := AfterFinish(c, a.0);
    assert a.0.congestion == s.congestion == b.0.congestion;
    DispatchKeeps(c, b.0);
    hide Inv;
    hide Settles;
    hide Owed;
    hide AfterCollisions;
    hide AfterFinish;
    hide Dispatch;
    assert Owed(c, a.0.rq) + a.1 == Owed(c, Dispatch(c, b.0).rq) + (a.1 + b.1);
  }

  // ---------------------------------------------------------------- runs

  datatype Action = OfferRead(e: Entry) | OfferWrite(e: Entry) | Work | Tick(warmup: bool)

  /** Offered packets are real and unscheduled, writes wait for nothing, and warm-up never restarts. */
  predicate Enabled(s: State, a: Action) {
    match a
    case OfferRead(e) => e.address != 0 && !e.scheduled
    case OfferWrite(e) => e.address != 0 && !e.scheduled && e.toReturn == {}
    case Work => true
    case Tick(warmup) => warmup ==> s.warmup
  }

  datatype Outcome = Outcome(state: State, accepted: multiset<Debt>, answered: multiset<Debt>)

  function Apply(c: Config, s: State, a: Action): Outcome
    requires Inv(c, s) && Enabled(s, a)
  {
    match a
    case OfferRead(e) =>
      var r := Add(s, false, e);
      Outcome(r.0, if r.1 then Debts(c, e) else multiset{}, multiset{})
    case OfferWrite(e) => Outcome(Add(s, true, e).0, multiset{}, multiset{})
    case Work =>
      var r := Operate(c, s);
      Outcome(r.0, multiset{}, r.1)
    case Tick(warmup) => Outcome(s.(cycle := s.cycle + 1, warmup := warmup), multiset{}, multiset{})
  }

  lemma ApplyKeeps(c: Config, s: State, a: Action)
    requires Inv(c, s) && Enabled(s, a)
    ensures var o := Apply(c, s, a);
            && Inv(c, o.state) && o.state.congestion >= s.congestion
            && Settles(Owed(c, s.rq) + o.accepted, Owed(c, o.state.rq) + o.answered)
  {
    var o := Apply(c, s, a);
    hide Settles;
    SettlesRefl(Owed(c, s.rq));
    assert Owed(c, s.rq) + multiset{} == Owed(c, s.rq);
    match a
    case OfferRead(e) =>
      AddKeeps(c, s, false, e);
      if Add(s, false, e).1 {
        AddOwes(c, s, e);
        SettlesRefl(Owed(c, o.state.rq));
        assert Owed(c, o.state.rq) + multiset{} == Owed(c, o.state.rq);
      }
    case OfferWrite(e) => AddKeeps(c, s, true, e);
    case Work => OperateKeeps(c, s);
    case Tick(warmup) =>
  }

  ghost predicate Initial(c: Config, s: State) {
    && Shape(c, s) && Idle(s) && s.congestion == 0
    && (forall b :: 0 <= b < |s.banks| ==> !s.banks[b].valid)
    && s.rq == Cleared(s.rq) && s.wq == Cleared(s.wq)
  }

  lemma InitialInv(c: Config, s: State)
    requires Initial(c, s)
    ensures Inv(c, s) && Owed(c, s.rq) == multiset{}
  {
    ClearedOwes(c, s.rq);
  }

  ghost predicate Legal(c: Config, s: State, run: seq<Action>)
    requires Inv(c, s)
    decreases |run|
  {
    run == [] || (Enabled(s, run[0]) && (ApplyKeeps(c, s, run[0]); Legal(c, Apply(c, s, run[0]).state, run[1..])))
  }

  ghost function Run(c: Config, s: State, run: seq<Action>): (r: Outcome)
    requires Inv(c, s) && Legal(c, s, run)
    ensures Inv(c, r.state)
    decreases |run|
  {
    if run == [] then Outcome(s, multiset{}, multiset{})
    else
      ApplyKeeps(c, s, run[0]);
      var o := Apply(c, s, run[0]);
      var r := Run(c, o.state, run[1..]);
      Outcome(r.state, o.accepted + r.accepted, o.answered + r.answered)
  }

  /**
   * Reads are never lost on any run: every waiter of an accepted read is answered or still in a slot of its
   * block, nobody is answered more often than asked, and no congestion count ever wrapped below zero.
   */
  lemma {:induction false} ReadsNeverLost(c: Config, s: State, run: seq<Action>)
    requires Inv(c, s) && Legal(c, s, run)
    ensures var r := Run(c, s, run);
            && Settles(Owed(c, s.rq) + r.accepted, Owed(c, r.state.rq) + r.answered)
            && r.state.congestion >= s.congestion
    decreases |run|
  {
    hide Settles;
    if run == [] {
      SettlesRefl(Owed(c, s.rq) + multiset{});
    } else {
      ApplyKeeps(c, s, run[0]);
      var o := Apply(c, s, run[0]);
      ReadsNeverLost(c, o.state, run[1..]);
      var r := Run(c, o.state, run[1..]);
      hide Inv;
      hide Owed;
      hide Apply;
      Chain(Owed(c, s.rq), o.accepted, Owed(c, o.state.rq), o.answered, r.accepted, Owed(c, r.state.rq), r.answered);
    }
  }

  /**
   * From any moment of any run: once no read is left, everybody who waited then, or whose read was accepted since,
   * has been answered since, and nobody else.
   */
  lemma DrainedAnswersAll(c: Config, s: State, run: seq<Action>)
    requires Inv(c, s) && Legal(c, s, run)
    ensures var r := Run(c, s, run);
            Owed(c, r.state.rq) == multiset{} ==>
              && r.answered <= Owed(c, s.rq) + r.accepted
              && forall d :: d in Owed(c, s.rq) + r.accepted <==> d in r.answered
  {
    ReadsNeverLost(c, s, run);
    var r := Run(c, s, run);
    hide Owed, Run, Legal, Apply;
    if Owed(c, r.state.rq) == multiset{} {
      assert Owed(c, r.state.rq) + r.answered == r.answered;
    }
  }

  // ---------------------------------------------------------------- ownership

  /** Valid bank requests and scheduled packets correspond one to one, and each bank holds its own packet. */
  ghost predicate Paired(c: Config, s: State) {
    && (forall b :: 0 <= b < |s.banks| && s.banks[b].valid ==>
          && InQueue(s, s.banks[b].slot) && EntryAt(s, s.banks[b].slot).scheduled
          && BankIndex(c, EntryAt(s, s.banks[b].slot).address) == b)
    && (forall slot: Slot :: InQueue(s, slot) && EntryAt(s, slot).scheduled ==>
          var b := BankIndex(c, EntryAt(s, slot).address);
          && b < |s.banks| && s.banks[b].valid && s.banks[b].slot == slot)
    && forall a, b :: 0 <= a < b < |s.banks| && s.banks[a].valid && s.banks[b].valid ==>
         s.banks[a].slot != s.banks[b].slot
  }

  lemma InvPaired(c: Config, s: State)
    requires Inv(c, s)
    ensures Paired(c, s)
  {
    forall b | 0 <= b < |s.banks| && s.banks[b].valid ensures BankOwns(c, s, b) {
    }
    forall slot: Slot | InQueue(s, slot) && EntryAt(s, slot).scheduled
      ensures Owned(c, s.banks, EntryAt(s, slot), slot)
    {
      assert AllOwned(c, s.banks, Queue(s, slot.write), slot.write);
      assert slot == Slot(slot.write, slot.index);
    }
  }

  /** On every run from an empty channel, banks and scheduled packets are paired. */
  lemma BanksAndPacketsPaired(c: Config, s: State, run: seq<Action>)
    requires Initial(c, s)
    ensures Inv(c, s)
    ensures Legal(c, s, run) ==> Paired(c, Run(c, s, run).state)
  {
    InitialInv(c, s);
    if Legal(c, s, run) {
      InvPaired(c, Run(c, s, run).state);
    }
  }

  /** After `check_collision`, no two requests of a queue are for the same block. */
  lemma CollisionsLeaveDistinctBlocks(c: Config, s: State, write: bool, i: nat, j: nat)
    requires Inv(c, s)
    ensures var q := Queue(AfterCollisions(c, s).0, write);
            i < j < |q| && q[i].address != 0 && q[j].address != 0 ==>
              BlockOf(c, q[i].address) != BlockOf(c, q[j].address)
  {
    AfterCollisionsKeeps(c, s);
    var t := AfterCollisions(c, s).0;
    assert QueueInv(c, t.banks, Queue(t, write), write) && AllChecked(Queue(t, write));
  }

  /** Collision checks clear, change or reorder no packet that a bank holds; at most, waiters join it. */
  lemma CollisionsSpareScheduled(c: Config, s: State, b: nat)
    requires Inv(c, s) && b < |s.banks| && s.banks[b].valid
    ensures var t := CheckCollision(c, s).0;
            var slot := s.banks[b].slot;
            && InQueue(s, slot) && InQueue(t, slot)
            && EntryAt(t, slot) == EntryAt(s, slot).(toReturn := EntryAt(t, slot).toReturn)
            && EntryAt(s, slot).toReturn <= EntryAt(t, slot).toReturn
  {
    CollideKeeps(c, s);
    assert BankOwns(c, s, b);
  }

  /** Restarting warm-up keeps the pairing exactly when no bank holds a packet. */
  lemma WarmupRestartExactly(c: Config, s: State)
    requires Inv(c, s)
    ensures BanksOwn(c, WarmupDrain(c, s.(warmup := true)).0) <==> forall b :: 0 <= b < |s.banks| ==> !s.banks[b].valid
  {
    var t := WarmupDrain(c, s.(warmup := true)).0;
    if b: nat :| b < |s.banks| && s.banks[b].valid {
      assert BankOwns(c, s, b);
      assert !BankOwns(c, t, b);
    }
  }

  // ---------------------------------------------------------------- who is served

  predicate Ready(s: State, b: nat)
    requires b < |s.banks|
  {
    s.banks[b].valid && s.banks[b].eventCycle <= s.cycle
  }

  /**
   * A grant goes to an earliest ready request, only when the bus is idle and free, and never to the request
   * that is already on the bus; a ready request that has to wait costs at least one congested cycle.
   */
  lemma GrantExactly(c: Config, s: State)
    requires Mode(s) && s.active <= |s.banks| && |s.banks| > 0
    requires !Idle(s) ==> s.banks[s.active].eventCycle > s.cycle
    ensures var t := Grant(c, s);
            if forall b :: 0 <= b < |s.banks| ==> !Ready(s, b) then t == s
            else if Idle(s) && s.busFree <= s.cycle then
              && t.active < |s.banks| && Ready(s, t.active)
              && (forall b :: 0 <= b < |s.banks| && s.banks[b].valid ==>
                    s.banks[t.active].eventCycle <= s.banks[b].eventCycle)
              && t.banks[t.active] == s.banks[t.active].(eventCycle := s.cycle + c.returnTime)
              && t == s.(active := t.active, banks := s.banks[t.active := t.banks[t.active]])
            else t == s.(congestion := t.congestion) && t.congestion > s.congestion
  {
    NextBankEarliest(s.banks, |s.banks|);
    var k := NextBank(s.banks, |s.banks|);
    assert Ready(s, k) <==> exists b :: 0 <= b < |s.banks| && Ready(s, b);
  }

  function InUse(): Entry -> bool { (e: Entry) => e.address != 0 }

  lemma {:induction false} OccupiedIsCount(q: seq<Entry>)
    ensures Occupied(q) == Count(q, InUse())
  {
    if q != [] {
      OccupiedIsCount(q[1..]);
    }
  }

  /** Reads give way once writes fill seven eighths, or only writes are left; writes once gone or below six eighths. */
  ghost predicate ChangesMode(c: Config, s: State) {
    var toWrite, toRead := Count(s.wq, InUse()), Count(s.rq, InUse());
    if s.writeMode then toWrite == 0 || (toRead > 0 && toWrite < c.wqSize * 6 / 8)
    else toWrite >= c.wqSize * 7 / 8 || (toRead == 0 && toWrite > 0)
  }

  /** A flip happens exactly when the queues are unbalanced: it frees all banks not on the bus, and delays the bus. */
  lemma FlipExactly(c: Config, s: State)
    requires Inv(c, s) && Checked(s) && Drained(s)
    ensures SlotsInQueues(s)
    ensures var t := Flip(c, s);
            if ChangesMode(c, s) then
              && t.writeMode == !s.writeMode
              && t.busFree == (if Idle(s) then s.cycle else s.banks[s.active].eventCycle) + c.turnAround
              && (forall b :: 0 <= b < |t.banks| ==> (t.banks[b].valid <==> b == s.active && !Idle(s)))
              && (forall slot: Slot :: InQueue(t, slot) && EntryAt(t, slot).scheduled ==>
                    !Idle(s) && slot == s.banks[s.active].slot)
            else t == s
  {
    FlipKeeps(c, s);
    OccupiedIsCount(s.wq);
    OccupiedIsCount(s.rq);
    if Unbalanced(c, s) {
      var t := Flip(c, s);
      ResetBanksKeeps(c, s, 0);
      InvPaired(c, t);
      assert SameBus(s, t.(writeMode := s.writeMode));
      hide Inv;
      hide Checked;
      hide Drained;
      forall slot: Slot | InQueue(t, slot) && EntryAt(t, slot).scheduled
        ensures !Idle(s) && slot == s.banks[s.active].slot
      {
        assert t.banks[BankIndex(c, EntryAt(t, slot).address)].valid;
      }
    }
  }

  /** The first packet among the earliest that are pending. */
  ghost predicate FirstEarliest(q: seq<Entry>, k: int) {
    && 0 <= k < |q| && Pending(q[k])
    && forall i :: 0 <= i < |q| && Pending(q[i]) ==>
         && !Earlier(q[i].eventCycle, q[k].eventCycle)
         && (i < k ==> Earlier(q[k].eventCycle, q[i].eventCycle))
  }

  predicate DueEntry(s: State, e: Entry) { e.eventCycle.Some? && e.eventCycle.value <= s.cycle }

  /** The packet in slot `k` of the current mode is given to its bank. */
  ghost predicate Given(c: Config, s: State, k: nat, t: State) {
    && k < |Queue(s, s.writeMode)| && |s.banks| == c.ranks * c.banks
    && var slot, e := Slot(s.writeMode, k), Queue(s, s.writeMode)[k];
       var b, row := BankIndex(c, e.address), RowOf(c, e.address);
       var hit := s.banks[b].openRow == row;
       var ready := s.cycle + c.tCAS + if hit then 0 else c.tRP + c.tRCD;
       && t == Put(s, slot, e.(scheduled := true, eventCycle := None)).(banks := t.banks)
       && t.banks == s.banks[b := BankRequest(true, hit, row, ready, slot)]
  }

  lemma ScannedIsFirstEarliest(q: seq<Entry>)
    requires q != []
    ensures forall k :: FirstEarliest(q, k) <==> k == NextEntry(q, |q|) && Pending(q[NextEntry(q, |q|)])
  {
    var n := NextEntry(q, |q|);
    NextEntryEarliest(q, |q|);
    forall k | FirstEarliest(q, k) ensures k == n {
      assert Pending(q[n]);
    }
  }

  /**
   * Scheduling, exactly: the first earliest pending packet of the current mode is given to its bank if it is due and
   * the bank is free. Otherwise nothing is scheduled, so a busy bank of that packet holds up all the others.
   */
  lemma ScheduleExactly(c: Config, s: State)
    requires Inv(c, s) && |Queue(s, s.writeMode)| > 0
    ensures var t, q := Schedule(c, s), Queue(s, s.writeMode);
            && (t == s <==>
                  forall k :: FirstEarliest(q, k) ==> !DueEntry(s, q[k]) || s.banks[BankIndex(c, q[k].address)].valid)
            && forall k :: FirstEarliest(q, k) && t != s ==> Given(c, s, k, t)
  {
    var q := Queue(s, s.writeMode);
    var k := NextEntry(q, |q|);
    ScannedIsFirstEarliest(q);
    assert q[k].scheduled ==> Owned(c, s.banks, q[k], Slot(s.writeMode, k));
    hide Inv, FirstEarliest, NextEntry;
    ScheduleOutcome(c, s, k);
  }

  lemma ScheduleOutcome(c: Config, s: State, k: nat)
    requires |Queue(s, s.writeMode)| > 0 && |s.banks| == c.ranks * c.banks
    requires k == NextEntry(Queue(s, s.writeMode), |Queue(s, s.writeMode)|)
    requires var e := Queue(s, s.writeMode)[k]; e.scheduled ==> e.eventCycle.None?
    ensures var t, e := Schedule(c, s), Queue(s, s.writeMode)[k];
            if Pending(e) && DueEntry(s, e) && !s.banks[BankIndex(c, e.address)].valid
            then t != s && Given(c, s, k, t) else t == s
  {
    hide BankIndex, RowOf, NextEntry;
    var t, e := Schedule(c, s), Queue(s, s.writeMode)[k];
    if Pending(e) && DueEntry(s, e) && !s.banks[BankIndex(c, e.address)].valid {
      assert t.banks[BankIndex(c, e.address)].valid;
    }
  }

  // ---------------------------------------------------------------- address decoding

  ghost predicate SameAbove(x: nat, y: nat, shift: nat) { x / Pow2(shift) == y / Pow2(shift) }

  /** One field together with everything above it determines everything from it upwards. */
  lemma FieldAndRest(x: nat, y: nat, shift: nat, size: Pos, next: nat)
    requires Field(x, shift, size) == Field(y, shift, size)
    requires next == shift + Lg2(size) && SameAbove(x, y, next)
    ensures SameAbove(x, y, shift)
  {
    var m := Pow2(Lg2(size));
    Pow2Sum(shift, Lg2(size));
    DivDiv(x, Pow2(shift), m);
    DivDiv(y, Pow2(shift), m);
  }

  lemma NothingAbove(x: nat, y: nat, shift: nat)
    requires x < Pow2(shift) && y < Pow2(shift)
    ensures SameAbove(x, y, shift)
  {
    SmallDiv(x, Pow2(shift));
    SmallDiv(y, Pow2(shift));
  }

  lemma AllAbove(x: nat, y: nat)
    requires SameAbove(x, y, 0)
    ensures x == y
  {
    assert Pow2(0) == 1;
  }

  /** Five fields that lie side by side, with nothing above them, determine the number. */
  lemma FieldsDetermine(a: nat, b: nat, n1: Pos, n2: Pos, n3: Pos, n4: Pos, n5: Pos,
                        s1: nat, s2: nat, s3: nat, s4: nat, s5: nat)
    requires s1 == Lg2(n1) && s2 == s1 + Lg2(n2) && s3 == s2 + Lg2(n3) && s4 == s3 + Lg2(n4) && s5 == s4 + Lg2(n5)
    requires a < Pow2(s5) && b < Pow2(s5)
    requires Field(a, 0, n1) == Field(b, 0, n1) && Field(a, s1, n2) == Field(b, s1, n2)
    requires Field(a, s2, n3) == Field(b, s2, n3) && Field(a, s3, n4) == Field(b, s3, n4)
    requires Field(a, s4, n5) == Field(b, s4, n5)
    ensures a == b
  {
    hide *;
    NothingAbove(a, b, s5);
    FieldAndRest(a, b, s4, n5, s5);
    FieldAndRest(a, b, s3, n4, s4);
    FieldAndRest(a, b, s2, n3, s3);
    FieldAndRest(a, b, s1, n2, s2);
    FieldAndRest(a, b, 0, n1, s1);
    AllAbove(a, b);
  }

  lemma SameFieldsSameBlock(c: Config, x: nat, y: nat)
    requires var bits := Lg2(c.channels) + Lg2(c.banks) + Lg2(c.columns) + Lg2(c.ranks) + Lg2(c.rows);
             BlockOf(c, x) < Pow2(bits) && BlockOf(c, y) < Pow2(bits)
    requires ChannelOf(c, x) == ChannelOf(c, y) && BankOf(c, x) == BankOf(c, y) && RankOf(c, x) == RankOf(c, y)
    requires ColumnOf(c, x) == ColumnOf(c, y) && RowOf(c, x) == RowOf(c, y)
    ensures BlockOf(c, x) == BlockOf(c, y)
  {
    hide Lg2;
    hide Pow2;
    hide Field;
    hide BlockOf;
    var s1 := Lg2(c.channels);
    var s2 := s1 + Lg2(c.banks);
    var s3 := s2 + Lg2(c.columns);
    var s4 := s3 + Lg2(c.ranks);
    FieldsDetermine(BlockOf(c, x), BlockOf(c, y), c.channels, c.banks, c.columns, c.ranks, c.rows,
                    s1, s2, s3, s4, s4 + Lg2(c.rows));
  }

  /** Within the capacity, channel, bank, column, rank and row identify the block. */
  lemma DecodeInjective(c: Config, x: nat, y: nat)
    requires var bits := Lg2(c.channels) + Lg2(c.banks) + Lg2(c.columns) + Lg2(c.ranks) + Lg2(c.rows);
             BlockOf(c, x) < Pow2(bits) && BlockOf(c, y) < Pow2(bits)
    requires ChannelOf(c, x) == ChannelOf(c, y) && BankIndex(c, x) == BankIndex(c, y)
    requires ColumnOf(c, x) == ColumnOf(c, y) && RowOf(c, x) == RowOf(c, y)
    ensures BlockOf(c, x) == BlockOf(c, y)
  {
    hide *;
    BankIndexSplits(c, x, y);
    SameFieldsSameBlock(c, x, y);
  }

  lemma BankIndexSplits(c: Config, x: nat, y: nat)
    requires BankIndex(c, x) == BankIndex(c, y)
    ensures BankOf(c, x) == BankOf(c, y) && RankOf(c, x) == RankOf(c, y)
  {
    DivUnique(BankIndex(c, x), c.banks, RankOf(c, x), BankOf(c, x));
    DivUnique(BankIndex(c, y), c.banks, RankOf(c, y), BankOf(c, y));
  }
}
