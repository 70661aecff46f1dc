/** What each stage of the core does, exactly: which instructions and queue entries it changes, and how. */
module CoreStages {
  import opened CorePipeline
  import opened CoreRegisters
  import opened CoreTypes
  import Mem = CoreMemory
  import opened Seqs
  import opened Wrappers

  // ---------------------------------------------------------------- counting

  lemma CountFirst<T>(s: seq<T>, a: nat, b: nat, p: T -> bool)
    requires a < b <= |s|
    ensures Count(s[a..b], p) == (if p(s[a]) then 1 else 0) + Count(s[a + 1..b], p)
  {
    assert s[a..b][1..] == s[a + 1..b];
  }

  /** The counts of two stretches agree if the predicate does not see the difference. */
  lemma CountSame<T>(s: seq<T>, t: seq<T>, a: nat, b: nat, p: T -> bool)
    requires a <= b <= |s| == |t| && forall i :: a <= i < b ==> p(t[i]) == p(s[i])
    ensures Count(t[a..b], p) == Count(s[a..b], p)
  {
    CountPointwise(t[a..b], s[a..b], p, p);
  }

  // ---------------------------------------------------------------- retirement

  /** The first `n` instructions leave, in order. */
  ghost predicate Leaves(s: State, n: nat, t: State) {
    n <= |s.rob| && t == s.(retired := s.retired + s.rob[..n], rob := s.rob[n..])
  }

  lemma LeavesNone(s: State)
    ensures Leaves(s, 0, s)
  {
    assert s.retired + s.rob[..0] == s.retired && s.rob[0..] == s.rob;
  }

  lemma LeavesNext(s: State, n: nat, u: State, t: State)
    requires s.rob != [] && u == s.(retired := s.retired + [s.rob[0]], rob := s.rob[1..]) && Leaves(u, n, t)
    ensures Leaves(s, n + 1, t)
  {
    var a, b := s.retired, s.rob;
    assert b[..n + 1] == [b[0]] + b[1..][..n];
    assert a + [b[0]] + b[1..][..n] == a + b[..n + 1];
    assert b[1..][n..] == b[n + 1..];
  }

  /** The instruction at place `i` has completed. */
  ghost predicate CompletedAt(s: State, i: nat) { i < |s.rob| && s.rob[i].executed == Completed }

  /** The longest completed prefix within the width retires. */
  lemma {:induction false} RetireExactly(s: State, bw: nat) returns (n: nat)
    ensures n <= bw && Leaves(s, n, Retire(s, bw))
    ensures forall i: nat :: i < n ==> CompletedAt(s, i)
    ensures n == bw || !CompletedAt(s, n)
    decreases bw
  {
    hide Leaves;
    n := 0;
    if bw == 0 || s.rob == [] || s.rob[0].executed != Completed {
      LeavesNone(s);
    } else {
      var u := s.(retired := s.retired + [s.rob[0]], rob := s.rob[1..]);
      var m := RetireExactly(u, bw - 1);
      LeavesNext(s, m, u, Retire(s, bw));
      hide Retire;
      forall i: nat ensures CompletedAt(s, i + 1) <==> CompletedAt(u, i) {
      }
      assert forall i: nat :: 0 < i <= m + 1 ==> (CompletedAt(s, i) <==> CompletedAt(u, i - 1));
      n := m + 1;
    }
  }

  // ---------------------------------------------------------------- completion

  /** Executing, due, and with all its memory operations finished. */
  function Done(cycle: nat): Instr -> bool {
    (x: Instr) => x.executed == Inflight && x.eventCycle <= cycle && x.completedMemOps == |x.loads| + |x.stores|
  }

  /** Done, and fewer than `bw` others before it are, from instruction `from` on. */
  ghost predicate Completes(s: State, from: nat, bw: nat, i: int) {
    from <= i < |s.rob| && Done(s.cycle)(s.rob[i]) && Count(s.rob[from..i], Done(s.cycle)) < bw
  }

  /** The completing instructions that `id` was waiting for. */
  ghost function ReleasedBy(s: State, from: nat, bw: nat, id: nat): set<int> {
    set j | from <= j < |s.rob| && Completes(s, from, bw, j) && id in s.rob[j].dependents
  }

  ghost predicate CompletedAs(s: State, from: nat, bw: nat, t: State) {
    && |t.rob| == |s.rob|
    && t == s.(rob := t.rob, producers := t.producers)
    && forall i :: 0 <= i < |s.rob| ==>
         t.rob[i] == s.rob[i].(executed := if Completes(s, from, bw, i) then Completed else s.rob[i].executed,
                               numRegDependent := s.rob[i].numRegDependent - |ReleasedBy(s, from, bw, s.rob[i].id)|)
  }

  /** Nothing more completes. */
  lemma CompletesNone(s: State, from: nat, bw: nat)
    requires from <= |s.rob| && (bw == 0 || from == |s.rob|)
    ensures CompletedAs(s, from, bw, s)
  {
    forall i | 0 <= i < |s.rob| ensures ReleasedBy(s, from, bw, s.rob[i].id) == {} {
    }
  }

  lemma CompletesLater(s: State, from: nat, bw: nat, i: int)
    requires from < |s.rob| && !Done(s.cycle)(s.rob[from])
    ensures Completes(s, from, bw, i) <==> Completes(s, from + 1, bw, i)
  {
    if from < i < |s.rob| {
      CountFirst(s.rob, from, i, Done(s.cycle));
    }
  }

  lemma SkipsOne(s: State, from: nat, bw: nat, t: State)
    requires from < |s.rob| && !Done(s.cycle)(s.rob[from]) && CompletedAs(s, from + 1, bw, t)
    ensures CompletedAs(s, from, bw, t)
  {
    forall i: int ensures Completes(s, from, bw, i) <==> Completes(s, from + 1, bw, i) {
      CompletesLater(s, from, bw, i);
    }
    hide Completes;
    forall i | 0 <= i < |s.rob|
      ensures ReleasedBy(s, from, bw, s.rob[i].id) == ReleasedBy(s, from + 1, bw, s.rob[i].id)
    {
    }
  }

  /** What one completion does, in the terms of this stage. */
  ghost predicate OneCompleted(s: State, i: nat, u: State) {
    && i < |s.rob| && Done(s.cycle)(s.rob[i]) && |u.rob| == |s.rob|
    && s.rob[i].id !in s.rob[i].dependents
    && u == s.(rob := u.rob, producers := u.producers)
    && forall k :: 0 <= k < |s.rob| ==>
         u.rob[k] == s.rob[k].(executed := if k == i then Completed else s.rob[k].executed,
                               numRegDependent := s.rob[k].numRegDependent
                                                  - if s.rob[k].id in s.rob[i].dependents then 1 else 0)
  }

  lemma CompleteIsOne(c: Config, s: State, i: nat, given: Given)
    requires Safe(c, s, given) && i < |s.rob| && Done(s.cycle)(s.rob[i])
    ensures |s.producers| == NUM_REGS && OneCompleted(s, i, WithRegs(s, Complete(RegsOf(s), i)))
  {
    CompleteEffect(RegsOf(s), i);
    assert Edges(s.rob, |s.rob|);
    FindIndex(s.rob, i);
    assert s.rob[i].id in s.rob[i].dependents ==> EdgeOk(s.rob, i, s.rob[i].id, |s.rob|);
  }

  lemma CompletesThen(s: State, from: nat, bw: nat, u: State, i: int)
    requires OneCompleted(s, from, u) && bw > 0
    ensures Completes(s, from, bw, i) <==> i == from || Completes(u, from + 1, bw - 1, i)
  {
    if from < i < |s.rob| {
      CountFirst(s.rob, from, i, Done(s.cycle));
      CountSame(s.rob, u.rob, from + 1, i, Done(s.cycle));
    }
  }

  lemma ReleasedThen(s: State, from: nat, bw: nat, u: State, id: nat)
    requires OneCompleted(s, from, u) && bw > 0
    ensures |ReleasedBy(s, from, bw, id)| ==
            |ReleasedBy(u, from + 1, bw - 1, id)| + if id in s.rob[from].dependents then 1 else 0
  {
    forall i: int ensures Completes(s, from, bw, i) <==> i == from || Completes(u, from + 1, bw - 1, i) {
      CompletesThen(s, from, bw, u, i);
    }
    assert Completes(s, from, bw, from);
    hide Completes;
    var rest := ReleasedBy(u, from + 1, bw - 1, id);
    assert ReleasedBy(s, from, bw, id) == if id in s.rob[from].dependents then rest + {from as int} else rest;
  }

  lemma CompletedThen(s: State, from: nat, bw: nat, u: State, t: State)
    requires OneCompleted(s, from, u) && bw > 0 && CompletedAs(u, from + 1, bw - 1, t)
    ensures CompletedAs(s, from, bw, t)
  {
    forall i | 0 <= i < |s.rob|
      ensures t.rob[i] == s.rob[i].(executed := if Completes(s, from, bw, i) then Completed else s.rob[i].executed,
                               numRegDependent := s.rob[i].numRegDependent - |ReleasedBy(s, from, bw, s.rob[i].id)|)
    {
      CompletesThen(s, from, bw, u, i);
      ReleasedThen(s, from, bw, u, s.rob[i].id);
      hide Completes, ReleasedBy;
    }
  }

  lemma CompleteUnfolds(s: State, from: nat, bw: nat)
    requires from <= |s.rob| && |s.producers| == NUM_REGS
    ensures CompleteFrom(s, from, bw) ==
              if from == |s.rob| || bw == 0 then s
              else if Done(s.cycle)(s.rob[from]) then
                CompleteFrom(WithRegs(s, Complete(RegsOf(s), from)), from + 1, bw - 1)
              else CompleteFrom(s, from + 1, bw)
  {
    hide Complete, RegsOf;
    assert from < |s.rob| ==> (Done(s.cycle)(s.rob[from]) <==> CanComplete(s, from));
  }

  lemma OneStep(c: Config, s: State, i: nat, bw: nat, given: Given) returns (u: State)
    requires Safe(c, s, given) && i < |s.rob| && bw > 0 && Done(s.cycle)(s.rob[i])
    ensures Safe(c, u, given) && |u.rob| == |s.rob| && |s.producers| == |u.producers| == NUM_REGS
    ensures OneCompleted(s, i, u) && CompleteFrom(s, i, bw) == CompleteFrom(u, i + 1, bw - 1)
  {
    SafeSized(c, s, given);
    u := WithRegs(s, Complete(RegsOf(s), i));
    CompleteIsOne(c, s, i, given);
    hide Safe, Complete, OneCompleted;
    assert CanComplete(s, i);
    CompleteOne(c, s, i, given);
    SafeSized(c, u, given);
    CompleteUnfolds(s, i, bw);
    hide CompleteFrom;
  }

  lemma SafeSized(c: Config, s: State, given: Given)
    requires Safe(c, s, given)
    ensures |s.producers| == NUM_REGS
  {
  }

  lemma {:induction false} CompleteExactly(c: Config, s: State, from: nat, bw: nat, given: Given)
    requires Safe(c, s, given) && from <= |s.rob|
    ensures |s.producers| == NUM_REGS && CompletedAs(s, from, bw, CompleteFrom(s, from, bw))
    decreases |s.rob| - from, 1
  {
    SafeSized(c, s, given);
    CompleteUnfolds(s, from, bw);
    hide *;
    if from == |s.rob| || bw == 0 {
      CompletesNone(s, from, bw);
    } else if Done(s.cycle)(s.rob[from]) {
      CompleteAndGo(c, s, from, bw, given);
    } else {
      CompleteExactly(c, s, from + 1, bw, given);
      SkipsOne(s, from, bw, CompleteFrom(s, from + 1, bw));
    }
  }

  lemma {:induction false} CompleteAndGo(c: Config, s: State, from: nat, bw: nat, given: Given)
    requires Safe(c, s, given) && from < |s.rob| && bw > 0 && Done(s.cycle)(s.rob[from])
    ensures |s.producers| == NUM_REGS && CompletedAs(s, from, bw, CompleteFrom(s, from, bw))
    decreases |s.rob| - from, 0
  {
    hide *;
    var u := OneStep(c, s, from, bw, given);
    CompleteExactly(c, u, from + 1, bw - 1, given);
    CompletedThen(s, from, bw, u, CompleteFrom(u, from + 1, bw - 1));
  }

  // ---------------------------------------------------------------- execution

  /** Scheduled, not started, waiting for nobody, and due. */
  function Startable(cycle: nat): Instr -> bool {
    (x: Instr) => x.scheduled && x.executed == Idle && x.numRegDependent == 0 && x.eventCycle <= cycle
  }

  ghost predicate Starts(s: State, from: nat, bw: nat, i: int) {
    from <= i < |s.rob| && Startable(s.cycle)(s.rob[i]) && Count(s.rob[from..i], Startable(s.cycle)) < bw
  }

  ghost predicate StartsId(s: State, from: nat, bw: nat, id: nat) {
    exists i :: Starts(s, from, bw, i) && s.rob[i].id == id
  }

  function Ready(c: Config, s: State): nat { s.cycle + if s.warmup then 0 else c.execLatency }

  /** The first `bw` startable instructions start; exactly their queue entries become ready with them. */
  ghost predicate StartedAs(c: Config, s: State, from: nat, bw: nat, t: State) {
    && t == s.(rob := t.rob, lq := t.lq, sq := t.sq)
    && StartedInstrs(c, s, from, bw, t) && ReadiedLoads(c, s, from, bw, t) && ReadiedStores(c, s, from, bw, t)
  }

  ghost predicate StartedInstrs(c: Config, s: State, from: nat, bw: nat, t: State) {
    |t.rob| == |s.rob| && forall i :: 0 <= i < |s.rob| ==>
      t.rob[i] == if Starts(s, from, bw, i) then s.rob[i].(executed := Inflight, eventCycle := Ready(c, s))
                  else s.rob[i]
  }

  ghost predicate ReadiedLoads(c: Config, s: State, from: nat, bw: nat, t: State) {
    |t.lq| == |s.lq| && forall q :: 0 <= q < |s.lq| ==>
      t.lq[q] == if s.lq[q].Some? && StartsId(s, from, bw, s.lq[q].value.id)
                 then Some(s.lq[q].value.(eventCycle := Ready(c, s))) else s.lq[q]
  }

  ghost predicate ReadiedStores(c: Config, s: State, from: nat, bw: nat, t: State) {
    |t.sq| == |s.sq| && forall k :: 0 <= k < |s.sq| ==>
      t.sq[k] == if StartsId(s, from, bw, s.sq[k].id) then s.sq[k].(eventCycle := Ready(c, s)) else s.sq[k]
  }

  lemma {:induction false} ReadyLoadsExactly(s: State, id: nat, ready: nat, q: nat)
    requires q <= |s.lq|
    ensures var t := ReadyLoads(s, id, ready, q);
            && t == s.(lq := t.lq) && |t.lq| == |s.lq|
            && forall j :: 0 <= j < |s.lq| ==>
                 t.lq[j] == if q <= j && s.lq[j].Some? && s.lq[j].value.id == id
                            then Some(s.lq[j].value.(eventCycle := ready)) else s.lq[j]
    decreases |s.lq| - q
  {
    if q < |s.lq| {
      if s.lq[q].Some? && s.lq[q].value.id == id {
        ReadyLoadsExactly(s.(lq := s.lq[q := Some(s.lq[q].value.(eventCycle := ready))]), id, ready, q + 1);
      } else {
        ReadyLoadsExactly(s, id, ready, q + 1);
      }
    }
  }

  lemma {:induction false} ReadyStoresExactly(s: State, id: nat, ready: nat, k: nat)
    requires k <= |s.sq|
    ensures var t := ReadyStores(s, id, ready, k);
            && t == s.(sq := t.sq) && |t.sq| == |s.sq|
            && forall j :: 0 <= j < |s.sq| ==>
                 t.sq[j] == if k <= j && s.sq[j].id == id then s.sq[j].(eventCycle := ready) else s.sq[j]
    decreases |s.sq| - k
  {
    if k < |s.sq| {
      if s.sq[k].id == id {
        ReadyStoresExactly(s.(sq := s.sq[k := s.sq[k].(eventCycle := ready)]), id, ready, k + 1);
      } else {
        ReadyStoresExactly(s, id, ready, k + 1);
      }
    }
  }

  /** What one start does. */
  ghost predicate OneStarted(c: Config, s: State, i: nat, u: State) {
    && i < |s.rob| && Startable(s.cycle)(s.rob[i])
    && |u.lq| == |s.lq| && |u.sq| == |s.sq|
    && u == s.(rob := s.rob[i := s.rob[i].(executed := Inflight, eventCycle := Ready(c, s))], lq := u.lq, sq := u.sq)
    && (forall q :: 0 <= q < |s.lq| ==>
          u.lq[q] == if s.lq[q].Some? && s.lq[q].value.id == s.rob[i].id
                     then Some(s.lq[q].value.(eventCycle := Ready(c, s))) else s.lq[q])
    && forall k :: 0 <= k < |s.sq| ==>
         u.sq[k] == if s.sq[k].id == s.rob[i].id then s.sq[k].(eventCycle := Ready(c, s)) else s.sq[k]
  }

  lemma ExecuteIsOne(c: Config, s: State, i: nat)
    requires i < |s.rob| && Startable(s.cycle)(s.rob[i])
    ensures OneStarted(c, s, i, Execute(c, s, i))
  {
    var t := WithRegs(s, Start(RegsOf(s), i, Ready(c, s)));
    ReadyLoadsExactly(t, s.rob[i].id, Ready(c, s), 0);
    ReadyStoresExactly(ReadyLoads(t, s.rob[i].id, Ready(c, s), 0), s.rob[i].id, Ready(c, s), 0);
  }

  lemma StartsNone(c: Config, s: State, from: nat, bw: nat)
    requires from <= |s.rob| && (bw == 0 || from == |s.rob|)
    ensures StartedAs(c, s, from, bw, s)
  {
  }

  lemma StartSkips(c: Config, s: State, from: nat, bw: nat, t: State)
    requires from < |s.rob| && !Startable(s.cycle)(s.rob[from]) && StartedAs(c, s, from + 1, bw, t)
    ensures StartedAs(c, s, from, bw, t)
  {
    forall i: int ensures Starts(s, from, bw, i) <==> Starts(s, from + 1, bw, i) {
      if from < i < |s.rob| {
        CountFirst(s.rob, from, i, Startable(s.cycle));
      }
    }
    hide Starts;
    assert forall id :: StartsId(s, from, bw, id) <==> StartsId(s, from + 1, bw, id);
  }

  lemma StartsThen(c: Config, s: State, from: nat, bw: nat, u: State, i: int)
    requires OneStarted(c, s, from, u) && bw > 0
    ensures Starts(s, from, bw, i) <==> i == from || Starts(u, from + 1, bw - 1, i)
  {
    if from < i < |s.rob| {
      CountFirst(s.rob, from, i, Startable(s.cycle));
      CountSame(s.rob, u.rob, from + 1, i, Startable(s.cycle));
    }
  }

  lemma StartsIdThen(c: Config, s: State, from: nat, bw: nat, u: State, id: nat)
    requires OneStarted(c, s, from, u) && bw > 0
    ensures StartsId(s, from, bw, id) <==> id == s.rob[from].id || StartsId(u, from + 1, bw - 1, id)
  {
    forall i: int ensures Starts(s, from, bw, i) <==> i == from || Starts(u, from + 1, bw - 1, i) {
      StartsThen(c, s, from, bw, u, i);
    }
    assert Starts(s, from, bw, from) && |u.rob| == |s.rob|;
    forall i: int | Starts(u, from + 1, bw - 1, i) ensures 0 <= i < |s.rob| && u.rob[i].id == s.rob[i].id {
    }
    hide Starts;
    if StartsId(s, from, bw, id) && id != s.rob[from].id {
      var i :| Starts(s, from, bw, i) && s.rob[i].id == id;
      assert Starts(u, from + 1, bw - 1, i);
    }
    if StartsId(u, from + 1, bw - 1, id) {
      var i :| Starts(u, from + 1, bw - 1, i) && u.rob[i].id == id;
      assert Starts(s, from, bw, i);
    }
  }

  lemma StartedThen(c: Config, s: State, from: nat, bw: nat, u: State, t: State)
    requires OneStarted(c, s, from, u) && bw > 0 && StartedAs(c, u, from + 1, bw - 1, t)
    ensures StartedAs(c, s, from, bw, t)
  {
    StartedInstrsThen(c, s, from, bw, u, t);
    forall id: nat ensures StartsId(s, from, bw, id) <==> id == s.rob[from].id || StartsId(u, from + 1, bw - 1, id) {
      StartsIdThen(c, s, from, bw, u, id);
    }
    hide Starts, StartsId, StartedInstrs;
    assert ReadiedLoads(c, s, from, bw, t) by { hide ReadiedStores; }
    assert ReadiedStores(c, s, from, bw, t) by { hide ReadiedLoads; }
  }

  lemma StartedInstrsThen(c: Config, s: State, from: nat, bw: nat, u: State, t: State)
    requires OneStarted(c, s, from, u) && bw > 0 && StartedInstrs(c, u, from + 1, bw - 1, t)
    ensures StartedInstrs(c, s, from, bw, t)
  {
    forall i: int ensures Starts(s, from, bw, i) <==> i == from || Starts(u, from + 1, bw - 1, i) {
      StartsThen(c, s, from, bw, u, i);
    }
    assert !Starts(u, from + 1, bw - 1, from);
    hide Starts;
  }

  lemma {:induction false} ExecuteExactly(c: Config, s: State, from: nat, bw: nat)
    requires from <= |s.rob|
    ensures StartedAs(c, s, from, bw, ExecuteFrom(c, s, from, bw))
    decreases |s.rob| - from
  {
    hide StartedAs, OneStarted, Count, Execute;
    if from == |s.rob| || bw == 0 {
      StartsNone(c, s, from, bw);
    } else if Startable(s.cycle)(s.rob[from]) {
      ExecuteIsOne(c, s, from);
      ExecuteExactly(c, Execute(c, s, from), from + 1, bw - 1);
      StartedThen(c, s, from, bw, Execute(c, s, from), ExecuteFrom(c, Execute(c, s, from), from + 1, bw - 1));
    } else {
      ExecuteExactly(c, s, from + 1, bw);
      StartSkips(c, s, from, bw, ExecuteFrom(c, s, from + 1, bw));
    }
  }

  // ---------------------------------------------------------------- scheduling

  function NotStarted(): Instr -> bool { (x: Instr) => x.executed == Idle }

  /** The search has not yet passed `bw` instructions that are still to be executed. */
  ghost predicate Searched(s: State, from: nat, bw: nat, i: int) {
    from <= i < |s.rob| && Count(s.rob[from..i], NotStarted()) < bw
  }

  ghost predicate NewlyScheduled(s: State, from: nat, bw: nat, i: int) {
    Searched(s, from, bw, i) && !s.rob[i].scheduled
  }

  /** Exactly the unscheduled instructions inside the search window are scheduled; edges apart, nothing else changes. */
  ghost predicate ScheduledAs(c: Config, s: State, from: nat, bw: nat, t: State) {
    && |t.rob| == |s.rob| && t == s.(rob := t.rob, producers := t.producers)
    && forall i :: 0 <= i < |s.rob| ==>
         var x := s.rob[i].(dependents := t.rob[i].dependents, numRegDependent := t.rob[i].numRegDependent);
         t.rob[i] == if NewlyScheduled(s, from, bw, i)
                     then x.(scheduled := true, eventCycle := s.cycle + if s.warmup then 0 else c.schedulingLatency)
                     else x
  }

  /** What one step of the search does. */
  ghost predicate OneSearched(c: Config, s: State, i: nat, u: State) {
    && i < |s.rob| && |u.rob| == |s.rob| && u == s.(rob := u.rob, producers := u.producers)
    && forall k :: 0 <= k < |s.rob| ==>
         var x := s.rob[k].(dependents := u.rob[k].dependents, numRegDependent := u.rob[k].numRegDependent);
         u.rob[k] == if k == i && !s.rob[k].scheduled
                     then x.(scheduled := true, eventCycle := s.cycle + if s.warmup then 0 else c.schedulingLatency)
                     else x
  }

  lemma ScheduleIsOne(c: Config, s: State, i: nat)
    requires i < |s.rob| && |s.producers| == NUM_REGS
    ensures OneSearched(c, s, i, ScheduleOne(c, s, i))
  {
    MarkSourcesOnlyEdges(s.rob, s.producers, i, |s.rob[i].sources|);
    hide MarkSources;
  }

  lemma SearchedThen(c: Config, s: State, from: nat, bw: nat, u: State, i: int)
    requires OneSearched(c, s, from, u) && bw > 0
    ensures var rest := if u.rob[from].executed == Idle then bw - 1 else bw;
            NewlyScheduled(s, from, bw, i) <==>
              (i == from && !s.rob[from].scheduled) || NewlyScheduled(u, from + 1, rest, i)
  {
    if from < i < |s.rob| {
      CountFirst(s.rob, from, i, NotStarted());
      CountSame(s.rob, u.rob, from + 1, i, NotStarted());
    }
  }

  lemma ScheduledThen(c: Config, s: State, from: nat, bw: nat, u: State, t: State)
    requires OneSearched(c, s, from, u) && bw > 0
    requires ScheduledAs(c, u, from + 1, if u.rob[from].executed == Idle then bw - 1 else bw, t)
    ensures ScheduledAs(c, s, from, bw, t)
  {
    var rest := if u.rob[from].executed == Idle then bw - 1 else bw;
    forall i: int
      ensures NewlyScheduled(s, from, bw, i) <==>
                (i == from && !s.rob[from].scheduled) || NewlyScheduled(u, from + 1, rest, i)
    {
      SearchedThen(c, s, from, bw, u, i);
    }
    assert !NewlyScheduled(u, from + 1, rest, from);
    hide NewlyScheduled;
  }

  lemma SearchesNone(c: Config, s: State, from: nat, bw: nat)
    requires from <= |s.rob| && (bw == 0 || from == |s.rob|)
    ensures ScheduledAs(c, s, from, bw, s)
  {
  }

  lemma {:induction false} ScheduleExactly(c: Config, s: State, from: nat, bw: nat)
    requires from <= |s.rob| && |s.producers| == NUM_REGS
    ensures ScheduledAs(c, s, from, bw, ScheduleFrom(c, s, from, bw))
    decreases |s.rob| - from
  {
    hide ScheduledAs, OneSearched, ScheduleOne;
    if from == |s.rob| || bw == 0 {
      SearchesNone(c, s, from, bw);
    } else {
      var u := ScheduleOne(c, s, from);
      var rest := if u.rob[from].executed == Idle then bw - 1 else bw;
      ScheduleIsOne(c, s, from);
      ScheduleExactly(c, u, from + 1, rest);
      ScheduledThen(c, s, from, bw, u, ScheduleFrom(c, u, from + 1, rest));
    }
  }

  // ---------------------------------------------------------------- finishing loads

  /** The slots of `freed` that belong to instruction `id`. */
  ghost function SlotsOf(lq: seq<Option<LoadEntry>>, freed: set<int>, id: nat): set<int> {
    set q | q in freed && 0 <= q < |lq| && lq[q].Some? && lq[q].value.id == id
  }

  /** Exactly these loads finish: their slots are freed, and each instruction gains an operation for each of its own. */
  ghost predicate Finished(m: Mem.Mem, freed: set<int>, r: Mem.Mem) {
    && |r.rob| == |m.rob| && |r.lq| == |m.lq| && r.sq == m.sq
    && (forall q :: q in freed ==> 0 <= q < |m.lq| && m.lq[q].Some?)
    && (forall q :: 0 <= q < |m.lq| ==> r.lq[q] == if q in freed then None else m.lq[q])
    && forall i :: 0 <= i < |m.rob| ==>
         r.rob[i] == m.rob[i].(completedMemOps := m.rob[i].completedMemOps + |SlotsOf(m.lq, freed, m.rob[i].id)|)
  }

  lemma FinishedNone(m: Mem.Mem)
    ensures Finished(m, {}, m)
  {
    assert forall id :: SlotsOf(m.lq, {}, id) == {};
  }

  lemma SlotsThen(m: Mem.Mem, a: set<int>, r: Mem.Mem, b: set<int>, id: nat)
    requires Finished(m, a, r) && forall q :: q in b ==> 0 <= q < |r.lq| && r.lq[q].Some?
    ensures |SlotsOf(m.lq, a + b, id)| == |SlotsOf(m.lq, a, id)| + |SlotsOf(r.lq, b, id)|
  {
    var x, y := SlotsOf(m.lq, a, id), SlotsOf(r.lq, b, id);
    assert SlotsOf(m.lq, a + b, id) == x + y;
    assert x !! y;
  }

  lemma FinishedThen(m: Mem.Mem, a: set<int>, r: Mem.Mem, b: set<int>, t: Mem.Mem)
    requires Finished(m, a, r) && Finished(r, b, t)
    ensures Finished(m, a + b, t)
  {
    forall i | 0 <= i < |m.rob|
      ensures t.rob[i] == m.rob[i].(completedMemOps := m.rob[i].completedMemOps + |SlotsOf(m.lq, a + b, m.rob[i].id)|)
    {
      SlotsThen(m, a, r, b, m.rob[i].id);
      hide SlotsOf;
    }
  }

  lemma FinishedLive(m: Mem.Mem, freed: set<int>, r: Mem.Mem)
    requires Finished(m, freed, r) && Mem.QueuesLive(m) && Sorted(m.rob)
    ensures Mem.QueuesLive(r) && Sorted(r.rob)
  {
    assert SameIds(m.rob, r.rob);
    forall id: nat ensures Live(m.rob, id) <==> Live(r.rob, id) {
      FindSame(m.rob, r.rob, id);
    }
  }

  lemma ReleaseIsOne(m: Mem.Mem, q: nat)
    requires q < |m.lq| && m.lq[q].Some? && Mem.QueuesLive(m) && Sorted(m.rob)
    ensures Finished(m, {q as int}, Mem.ReleaseSlot(m, q))
  {
    var id := m.lq[q].value.id;
    assert Live(m.rob, id);
    forall i | 0 <= i < |m.rob|
      ensures SlotsOf(m.lq, {q as int}, m.rob[i].id) == if m.rob[i].id == id then {q as int} else {}
    {
    }
    var k := Find(m.rob, id);
    assert forall i :: 0 <= i < |m.rob| ==> (m.rob[i].id == id <==> i == k);
  }

  /** An issued load of this block. */
  ghost predicate HeldFor(c: Config, lq: seq<Option<LoadEntry>>, address: nat, q: int) {
    && 0 <= q < |lq| && lq[q].Some? && lq[q].value.fetchIssued
    && lq[q].value.address / c.blockSize == address / c.blockSize
  }

  ghost function HeldFrom(c: Config, lq: seq<Option<LoadEntry>>, address: nat, q: nat): set<int> {
    set j | q <= j < |lq| && HeldFor(c, lq, address, j)
  }

  lemma {:induction false} ReturnBlockExactly(c: Config, s: State, address: nat, q: nat)
    requires q <= |s.lq| && Mem.QueuesLive(MemOf(s)) && Sorted(s.rob)
    ensures var t := ReturnBlock(c, s, address, q);
            t == WithMem(s, MemOf(t)) && Finished(MemOf(s), HeldFrom(c, s.lq, address, q), MemOf(t))
    decreases |s.lq| - q
  {
    hide Finished, Mem.QueuesLive, Sorted, Mem.ReleaseSlot;
    if q == |s.lq| {
      FinishedNone(MemOf(s));
      assert HeldFrom(c, s.lq, address, q) == {};
    } else if s.lq[q].Some? && s.lq[q].value.fetchIssued
              && s.lq[q].value.address / c.blockSize == address / c.blockSize {
      var m := Mem.ReleaseSlot(MemOf(s), q);
      ReleaseIsOne(MemOf(s), q);
      FinishedLive(MemOf(s), {q as int}, m);
      ReturnBlockExactly(c, WithMem(s, m), address, q + 1);
      FreedSlot(MemOf(s), q, m);
      assert HeldFrom(c, s.lq, address, q) == {q as int} + HeldFrom(c, m.lq, address, q + 1);
      FinishedThen(MemOf(s), {q as int}, m, HeldFrom(c, m.lq, address, q + 1),
                   MemOf(ReturnBlock(c, WithMem(s, m), address, q + 1)));
    } else {
      ReturnBlockExactly(c, s, address, q + 1);
      assert HeldFrom(c, s.lq, address, q) == HeldFrom(c, s.lq, address, q + 1);
    }
  }

  lemma FreedSlot(m: Mem.Mem, q: nat, r: Mem.Mem)
    requires Finished(m, {q as int}, r)
    ensures q < |m.lq| && r.lq == m.lq[q := None]
  {
    assert q as int in {q as int};
  }

  // ---------------------------------------------------------------- data returns

  /** An issued load whose block is among the first `n` returned addresses. */
  ghost predicate Returned(c: Config, s: State, n: nat, q: int) {
    && 0 <= q < |s.lq| && s.lq[q].Some? && s.lq[q].value.fetchIssued
    && exists k ::
         0 <= k < n && k < |s.processed| && s.processed[k] / c.blockSize == s.lq[q].value.address / c.blockSize
  }

  ghost function ReturnedSlots(c: Config, s: State, n: nat): set<int> {
    set q | 0 <= q < |s.lq| && Returned(c, s, n, q)
  }

  lemma ReturnedFirst(c: Config, s: State, n: nat, m: Mem.Mem)
    requires 0 < n <= |s.processed| && Finished(MemOf(s), HeldFrom(c, s.lq, s.processed[0], 0), m)
    ensures ReturnedSlots(c, s, n) ==
            HeldFrom(c, s.lq, s.processed[0], 0)
            + ReturnedSlots(c, WithMem(s, m).(processed := s.processed[1..]), n - 1)
  {
    var u := WithMem(s, m).(processed := s.processed[1..]);
    var first := HeldFrom(c, s.lq, s.processed[0], 0);
    forall q: int ensures q in ReturnedSlots(c, s, n) <==> q in first || q in ReturnedSlots(c, u, n - 1) {
      if Returned(c, s, n, q) && q !in first {
        var k :| 0 <= k < n && s.processed[k] / c.blockSize == s.lq[q].value.address / c.blockSize;
        assert u.processed[k - 1] == s.processed[k];
      }
      if Returned(c, u, n - 1, q) {
        var k :| 0 <= k < n - 1 && u.processed[k] / c.blockSize == u.lq[q].value.address / c.blockSize;
        assert s.processed[k + 1] == u.processed[k] && q !in first && u.lq[q] == s.lq[q];
      }
    }
  }

  /**
   * Data returns, exactly: the first `bw` returned addresses are taken, the issued loads of their blocks finish, no
   * other slot changes, and every instruction gains one finished operation for each of its slots.
   */
  lemma {:induction false} MemoryReturnExactly(c: Config, s: State, bw: nat)
    requires Mem.QueuesLive(MemOf(s)) && Sorted(s.rob)
    ensures var t := MemoryReturn(c, s, bw);
            var n := if bw < |s.processed| then bw else |s.processed|;
            && t == WithMem(s, MemOf(t)).(processed := s.processed[n..])
            && Finished(MemOf(s), ReturnedSlots(c, s, n), MemOf(t))
    decreases bw
  {
    hide Finished, Mem.QueuesLive, Sorted, ReturnBlock;
    var n := if bw < |s.processed| then bw else |s.processed|;
    if n == 0 {
      FinishedNone(MemOf(s));
      assert ReturnedSlots(c, s, n) == {};
    } else {
      var r := ReturnBlock(c, s, s.processed[0], 0);
      var u := r.(processed := s.processed[1..]);
      ReturnBlockExactly(c, s, s.processed[0], 0);
      FinishedLive(MemOf(s), HeldFrom(c, s.lq, s.processed[0], 0), MemOf(r));
      MemoryReturnExactly(c, u, bw - 1);
      ReturnedFirst(c, s, n, MemOf(r));
      assert MemOf(u) == MemOf(r);
      assert u == WithMem(s, MemOf(r)).(processed := s.processed[1..]);
      hide HeldFrom, ReturnedSlots;
      FinishedThen(MemOf(s), HeldFrom(c, s.lq, s.processed[0], 0), MemOf(r), ReturnedSlots(c, u, n - 1),
                   MemOf(MemoryReturn(c, u, bw - 1)));
      assert s.processed[1..][n - 1..] == s.processed[n..];
    }
  }
}
