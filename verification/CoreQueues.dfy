/** What the queue step and the dispatch stage do, exactly: which stores and loads finish, leave, issue or enter. */
module CoreQueues {
  import opened CorePipeline
  import opened CoreStages
  import opened CoreTypes
  import Mem = CoreMemory
  import opened Seqs
  import opened Wrappers

  // ---------------------------------------------------------------- finishing stores

  /** The slots that wait for one of the stores `k` to `k + n`. */
  ghost function Behind(sq: seq<StoreEntry>, k: nat, n: nat): set<int> {
    set j, q | k <= j < k + n && j < |sq| && q in sq[j].waiters :: q as int
  }

  ghost function StoresOf(sq: seq<StoreEntry>, k: nat, n: nat, id: nat): set<int> {
    set j | k <= j < k + n && j < |sq| && sq[j].id == id
  }

  /** Exactly these stores are issued and the loads behind them finish; each instruction gains its own of both. */
  ghost predicate Served(m: Mem.Mem, k: nat, n: nat, cycle: nat, r: Mem.Mem) {
    && ServedStores(m, k, n, cycle, r) && ServedLoads(m, k, n, r) && ServedInstrs(m, k, n, r)
  }

  ghost predicate ServedStores(m: Mem.Mem, k: nat, n: nat, cycle: nat, r: Mem.Mem) {
    && k + n <= |m.sq| == |r.sq|
    && forall j :: 0 <= j < |m.sq| ==>
         r.sq[j] == if k <= j < k + n then m.sq[j].(fetchIssued := true, eventCycle := cycle) else m.sq[j]
  }

  ghost predicate ServedLoads(m: Mem.Mem, k: nat, n: nat, r: Mem.Mem) {
    && |r.lq| == |m.lq|
    && (forall q :: q in Behind(m.sq, k, n) ==> 0 <= q < |m.lq| && m.lq[q].Some?)
    && forall q :: 0 <= q < |m.lq| ==> r.lq[q] == if q in Behind(m.sq, k, n) then None else m.lq[q]
  }

  ghost predicate ServedInstrs(m: Mem.Mem, k: nat, n: nat, r: Mem.Mem) {
    && |r.rob| == |m.rob|
    && forall i :: 0 <= i < |m.rob| ==>
         r.rob[i] == m.rob[i].(completedMemOps :=
           m.rob[i].completedMemOps + |SlotsOf(m.lq, Behind(m.sq, k, n), m.rob[i].id)|
           + |StoresOf(m.sq, k, n, m.rob[i].id)|)
  }

  ghost function Members(qs: seq<nat>): set<int> { set q | q in qs :: q as int }

  lemma MembersFirst(qs: seq<nat>)
    requires qs != []
    ensures Members(qs) == {qs[0] as int} + Members(qs[1..])
  {
    assert qs[0] in qs;
    forall q: int | q in Members(qs) && q != qs[0] ensures q in Members(qs[1..]) {
      var i :| 0 <= i < |qs| && qs[i] == q;
      var x: nat := qs[i];
      assert qs[1..][i - 1] == x && x in qs[1..];
    }
    forall q: int | q in Members(qs[1..]) ensures q in Members(qs) {
      var i :| 0 <= i < |qs[1..]| && qs[1..][i] == q;
      var x: nat := qs[i + 1];
      assert x == qs[1..][i] && x in qs;
    }
  }

  lemma {:induction false} ReleaseSlotsExactly(m: Mem.Mem, qs: seq<nat>)
    requires Mem.QueuesLive(m) && Sorted(m.rob) && Distinct(qs)
    requires forall q :: q in qs ==> q < |m.lq| && m.lq[q].Some?
    ensures Finished(m, Members(qs), Mem.ReleaseSlots(m, qs))
    decreases |qs|
  {
    if qs == [] {
      FinishedNone(m);
      assert Members(qs) == {};
    } else {
      hide Finished, Mem.QueuesLive, Sorted, Mem.ReleaseSlot;
      var r := Mem.ReleaseSlot(m, qs[0]);
      assert qs[0] in qs;
      ReleaseIsOne(m, qs[0]);
      FinishedLive(m, {qs[0] as int}, r);
      FreedSlot(m, qs[0], r);
      assert forall q :: q in qs[1..] ==> q in qs && q != qs[0];
      ReleaseSlotsExactly(r, qs[1..]);
      MembersFirst(qs);
      FinishedThen(m, {qs[0] as int}, r, Members(qs[1..]), Mem.ReleaseSlots(r, qs[1..]));
    }
  }

  lemma IssueStoreEffect(m: Mem.Mem, k: nat, cycle: nat)
    requires k < |m.sq| && Live(m.rob, m.sq[k].id) && Sorted(m.rob)
    ensures var r := Mem.IssueStore(m, k, cycle);
            && |r.rob| == |m.rob| && r.lq == m.lq
            && r.sq == m.sq[k := m.sq[k].(fetchIssued := true, eventCycle := cycle)]
            && forall i :: 0 <= i < |m.rob| ==>
                 r.rob[i] == m.rob[i].(completedMemOps :=
                   m.rob[i].completedMemOps + if m.rob[i].id == m.sq[k].id then 1 else 0)
  {
  }

  lemma IssuedLive(m: Mem.Mem, k: nat, cycle: nat)
    requires k < |m.sq| && Mem.QueuesLive(m) && !m.sq[k].fetchIssued && Sorted(m.rob)
    ensures Mem.QueuesLive(Mem.IssueStore(m, k, cycle)) && Sorted(Mem.IssueStore(m, k, cycle).rob)
  {
    var r := Mem.IssueStore(m, k, cycle);
    IssueStoreEffect(m, k, cycle);
    assert SameIds(m.rob, r.rob);
    forall id: nat ensures Live(m.rob, id) <==> Live(r.rob, id) {
      FindSame(m.rob, r.rob, id);
    }
    hide Live, Mem.IssueStore;
  }

  lemma BehindOne(sq: seq<StoreEntry>, k: nat, id: nat)
    requires k < |sq|
    ensures Behind(sq, k, 1) == Members(sq[k].waiters)
    ensures |StoresOf(sq, k, 1, id)| == if sq[k].id == id then 1 else 0
  {
    assert StoresOf(sq, k, 1, id) == if sq[k].id == id then {k as int} else {};
  }

  lemma FinishStoreExactly(m: Mem.Mem, k: nat, cycle: nat)
    requires Mem.MemInv(m, 0, 0, []) && k < |m.sq| && !m.sq[k].fetchIssued
    ensures Served(m, k, 1, cycle, Mem.FinishStore(m, k, cycle))
  {
    hide Finished, Served, Mem.IssueStore, SlotsOf, StoresOf, Behind, Members;
    var issued, r := Mem.IssueStore(m, k, cycle), Mem.FinishStore(m, k, cycle);
    var qs := m.sq[k].waiters;
    IssueStoreEffect(m, k, cycle);
    IssuedLive(m, k, cycle);
    assert Mem.WaitersOk(m.lq, m.sq[k]);
    hide Mem.MemInv, Mem.QueuesLive, Sorted;
    ReleaseSlotsExactly(issued, qs);
    AddStore(m, k, cycle, issued, r);
  }

  lemma AddStore(m: Mem.Mem, k: nat, cycle: nat, issued: Mem.Mem, r: Mem.Mem)
    requires k < |m.sq| && |issued.rob| == |m.rob| && issued.lq == m.lq
    requires issued.sq == m.sq[k := m.sq[k].(fetchIssued := true, eventCycle := cycle)]
    requires forall i :: 0 <= i < |m.rob| ==>
               issued.rob[i] == m.rob[i].(completedMemOps :=
                 m.rob[i].completedMemOps + if m.rob[i].id == m.sq[k].id then 1 else 0)
    requires Finished(issued, Members(m.sq[k].waiters), r)
    ensures Served(m, k, 1, cycle, r)
  {
    BehindOne(m.sq, k, 0);
    assert ServedStores(m, k, 1, cycle, r) by { hide Behind, StoresOf, SlotsOf, Members; }
    assert ServedLoads(m, k, 1, r) by { hide Behind, StoresOf, SlotsOf, Members; }
    forall i | 0 <= i < |m.rob|
      ensures r.rob[i] == m.rob[i].(completedMemOps :=
                m.rob[i].completedMemOps + |SlotsOf(m.lq, Behind(m.sq, k, 1), m.rob[i].id)|
                + |StoresOf(m.sq, k, 1, m.rob[i].id)|)
    {
      BehindOne(m.sq, k, m.rob[i].id);
      hide Behind, StoresOf, SlotsOf, Members, ServedStores, ServedLoads;
    }
    hide Behind, StoresOf, SlotsOf, Members;
  }

  lemma BehindThen(m: Mem.Mem, k: nat, n: nat, cycle: nat, r: Mem.Mem, id: nat)
    requires n > 0 && Served(m, k, 1, cycle, r) && k + n <= |m.sq|
    requires forall q :: q in Behind(r.sq, k + 1, n - 1) ==> 0 <= q < |r.lq| && r.lq[q].Some?
    ensures Behind(m.sq, k, n) == Behind(m.sq, k, 1) + Behind(r.sq, k + 1, n - 1)
    ensures |SlotsOf(m.lq, Behind(m.sq, k, n), id)| ==
            |SlotsOf(m.lq, Behind(m.sq, k, 1), id)| + |SlotsOf(r.lq, Behind(r.sq, k + 1, n - 1), id)|
    ensures |StoresOf(m.sq, k, n, id)| == |StoresOf(m.sq, k, 1, id)| + |StoresOf(r.sq, k + 1, n - 1, id)|
  {
    assert forall j :: k + 1 <= j < k + n ==> r.sq[j] == m.sq[j];
    var a, b := Behind(m.sq, k, 1), Behind(r.sq, k + 1, n - 1);
    forall q: int ensures q in Behind(m.sq, k, n) <==> q in a || q in b {
    }
    assert StoresOf(m.sq, k, n, id) == StoresOf(m.sq, k, 1, id) + StoresOf(r.sq, k + 1, n - 1, id);
    assert SlotsOf(m.lq, a + b, id) == SlotsOf(m.lq, a, id) + SlotsOf(r.lq, b, id);
  }

  lemma ServedThen(m: Mem.Mem, k: nat, n: nat, cycle: nat, r: Mem.Mem, t: Mem.Mem)
    requires n > 0 && Served(m, k, 1, cycle, r) && Served(r, k + 1, n - 1, cycle, t)
    ensures Served(m, k, n, cycle, t)
  {
    BehindThen(m, k, n, cycle, r, 0);
    assert ServedStores(m, k, n, cycle, t) by { hide ServedLoads, ServedInstrs, Behind; }
    assert ServedLoads(m, k, n, t) by { hide ServedStores, ServedInstrs, Behind; }
    forall i | 0 <= i < |m.rob|
      ensures t.rob[i] == m.rob[i].(completedMemOps :=
                m.rob[i].completedMemOps + |SlotsOf(m.lq, Behind(m.sq, k, n), m.rob[i].id)|
                + |StoresOf(m.sq, k, n, m.rob[i].id)|)
    {
      BehindThen(m, k, n, cycle, r, m.rob[i].id);
      hide ServedStores, ServedLoads, Behind, StoresOf, SlotsOf;
    }
  }

  lemma ServedNone(m: Mem.Mem, k: nat, cycle: nat)
    requires k <= |m.sq|
    ensures Served(m, k, 0, cycle, m)
  {
    assert Behind(m.sq, k, 0) == {};
    forall id ensures SlotsOf(m.lq, {}, id) == {} && StoresOf(m.sq, k, 0, id) == {} {
    }
  }

  lemma SafeMemory(c: Config, s: State, given: Given)
    requires Safe(c, s, given)
    ensures Mem.MemInv(MemOf(s), 0, 0, [])
  {
  }

  /** Finishing a span of stores, exactly. */
  lemma {:induction false} FinishStoresExactly(c: Config, s: State, k: nat, n: nat, given: Given)
    requires Safe(c, s, given) && k + n <= |s.sq|
    requires forall j :: 0 <= j < k ==> s.sq[j].fetchIssued
    requires forall j :: k <= j < k + n ==> !s.sq[j].fetchIssued
    ensures var t := FinishStores(s, k, n);
            t == WithMem(s, MemOf(t)) && Served(MemOf(s), k, n, s.cycle, MemOf(t))
    decreases n
  {
    hide Served, Mem.FinishStore, Inv;
    if n == 0 {
      ServedNone(MemOf(s), k, s.cycle);
    } else {
      var r := Mem.FinishStore(MemOf(s), k, s.cycle);
      SafeMemory(c, s, given);
      hide Safe;
      FinishStoreExactly(MemOf(s), k, s.cycle);
      FinishOne(c, s, k, given);
      FinishStoresExactly(c, WithMem(s, r), k + 1, n - 1, given);
      assert MemOf(WithMem(s, r)) == r;
      ServedThen(MemOf(s), k, n, s.cycle, r, MemOf(FinishStores(WithMem(s, r), k + 1, n - 1)));
    }
  }

  /** The stores that finish in a queue step: the first that are not issued, while they are due, up to the width. */
  ghost predicate ReadyStoreSpan(c: Config, s: State, k: nat, n: nat) {
    && k + n <= |s.sq| && n <= c.sqWidth
    && (forall j :: 0 <= j < k ==> s.sq[j].fetchIssued)
    && (forall j :: k <= j < k + n ==> !s.sq[j].fetchIssued && s.sq[j].eventCycle <= s.cycle)
    && (k < |s.sq| ==> !s.sq[k].fetchIssued)
    && (n == c.sqWidth || k + n == |s.sq| || s.sq[k + n].fetchIssued || s.cycle < s.sq[k + n].eventCycle)
  }

  lemma FinishReadyExactly(c: Config, s: State, given: Given) returns (k: nat, n: nat)
    requires Safe(c, s, given)
    ensures ReadyStoreSpan(c, s, k, n)
    ensures var t := FinishReady(c, s); t == WithMem(s, MemOf(t)) && Served(MemOf(s), k, n, s.cycle, MemOf(t))
  {
    hide Safe, Served, FinishStores;
    k, n := FirstPending(s.sq), ReadyStoresCount(c, s);
    FinishStoresExactly(c, s, k, n, given);
  }

  // ---------------------------------------------------------------- draining and issuing

  /** The longest prefix of retired, due stores leaves, as far as writes are taken. */
  lemma {:induction false} DrainExactly(s: State, bw: nat)
    ensures var t := DrainStores(s, bw);
            var n := |s.sq| - |t.sq|;
            && 0 <= n <= bw && n <= |s.sq| && t == s.(sq := s.sq[n..])
            && (forall k :: 0 <= k < n ==>
                  (s.rob == [] || s.sq[k].id < s.rob[0].id) && s.sq[k].eventCycle <= s.cycle)
            && (n == bw || n == |s.sq| || (s.rob != [] && s.rob[0].id <= s.sq[n].id) || s.cycle < s.sq[n].eventCycle)
    decreases bw
  {
    if bw == 0 || s.sq == [] || (s.rob != [] && s.rob[0].id <= s.sq[0].id) || s.cycle < s.sq[0].eventCycle {
      assert s.sq[0..] == s.sq;
    } else {
      var u := s.(sq := s.sq[1..]);
      DrainExactly(u, bw - 1);
      var t := DrainStores(u, bw - 1);
      var n := |s.sq| - |t.sq|;
      assert u.sq[n - 1..] == s.sq[n..];
      forall k | 0 <= k < n ensures (s.rob == [] || s.sq[k].id < s.rob[0].id) && s.sq[k].eventCycle <= s.cycle {
        assert k > 0 ==> s.sq[k] == u.sq[k - 1];
      }
      assert n < |s.sq| ==> s.sq[n] == u.sq[n - 1];
    }
  }

  /** A load that waits for no store, is not issued, due, and taken by the data cache. */
  ghost predicate Issuable(s: State, accepted: nat -> bool, q: int) {
    && 0 <= q < |s.lq| && s.lq[q].Some? && s.lq[q].value.producer == None
    && !s.lq[q].value.fetchIssued && s.lq[q].value.eventCycle < s.cycle && accepted(q)
  }

  ghost function IssuableBefore(s: State, accepted: nat -> bool, from: nat, q: int): set<int> {
    set j | from <= j < q && Issuable(s, accepted, j)
  }

  ghost predicate Issues(s: State, accepted: nat -> bool, from: nat, bw: nat, q: int) {
    from <= q && Issuable(s, accepted, q) && |IssuableBefore(s, accepted, from, q)| < bw
  }

  lemma IssuesThen(s: State, accepted: nat -> bool, from: nat, bw: nat, u: State, q: int)
    requires from < |s.lq| && bw > 0 && Issuable(s, accepted, from) && |u.lq| == |s.lq| && u.cycle == s.cycle
    requires forall j :: 0 <= j < |s.lq| && j != from ==> u.lq[j] == s.lq[j]
    ensures Issues(s, accepted, from, bw, q) <==> q == from || Issues(u, accepted, from + 1, bw - 1, q)
  {
    if from < q {
      assert IssuableBefore(s, accepted, from, q) == {from as int} + IssuableBefore(u, accepted, from + 1, q);
    }
  }

  lemma IssuesLater(s: State, accepted: nat -> bool, from: nat, bw: nat, q: int)
    requires from < |s.lq| && !Issuable(s, accepted, from)
    ensures Issues(s, accepted, from, bw, q) <==> Issues(s, accepted, from + 1, bw, q)
  {
    assert IssuableBefore(s, accepted, from, q) == IssuableBefore(s, accepted, from + 1, q);
  }

  /** The first `bw` loads that can go are issued, and nothing else changes. */
  ghost predicate IssuedAs(s: State, accepted: nat -> bool, from: nat, bw: nat, t: State) {
    && t == s.(lq := t.lq) && |t.lq| == |s.lq|
    && forall q :: 0 <= q < |s.lq| ==>
         t.lq[q] == if Issues(s, accepted, from, bw, q) then Some(s.lq[q].value.(fetchIssued := true)) else s.lq[q]
  }

  lemma {:induction false} IssueExactly(s: State, from: nat, bw: nat, accepted: nat -> bool)
    requires from <= |s.lq|
    ensures IssuedAs(s, accepted, from, bw, IssueLoads(s, from, bw, accepted))
    decreases |s.lq| - from
  {
    if from == |s.lq| {
    } else if bw > 0 && Issuable(s, accepted, from) {
      var u := s.(lq := s.lq[from := Some(s.lq[from].value.(fetchIssued := true))]);
      IssueExactly(u, from + 1, bw - 1, accepted);
      forall q: int
        ensures Issues(s, accepted, from, bw, q) <==> q == from || Issues(u, accepted, from + 1, bw - 1, q)
      {
        IssuesThen(s, accepted, from, bw, u, q);
      }
      hide Issues;
      assert IssueLoads(s, from, bw, accepted) == IssueLoads(u, from + 1, bw - 1, accepted);
    } else {
      IssueExactly(s, from + 1, bw, accepted);
      if bw > 0 {
        forall q: int ensures Issues(s, accepted, from, bw, q) <==> Issues(s, accepted, from + 1, bw, q) {
          IssuesLater(s, accepted, from, bw, q);
        }
      }
      assert IssueLoads(s, from, bw, accepted) == IssueLoads(s, from + 1, bw, accepted);
      forall q: int ensures !Issues(s, accepted, from, 0, q) && !Issues(s, accepted, from + 1, 0, q) {
      }
      hide Issues;
    }
  }

  // ---------------------------------------------------------------- dispatch

  /** Dispatch takes instructions from the front of the buffer, and stops only when it has to. */
  lemma {:induction false} DispatchExactly(c: Config, s: State, bw: nat)
    ensures var t := Dispatch(c, s, bw);
            var n := |s.buffer| - |t.buffer|;
            && 0 <= n <= bw && n <= |s.buffer| && t.buffer == s.buffer[n..] && |t.rob| == |s.rob| + n
            && (forall k :: 0 <= k < n ==> s.buffer[k].eventCycle < s.cycle)
            && (n == bw || n == |s.buffer| || s.cycle <= s.buffer[n].eventCycle || |t.rob| == c.robSize
                || Count(t.lq, Mem.IsFree()) < |s.buffer[n].loads|
                || c.sqSize < |s.buffer[n].stores| + |t.sq|)
    decreases bw
  {
    hide Mem.Dispatch, Count;
    if bw == 0 || !CanDispatch(c, s) {
      assert s.buffer[0..] == s.buffer;
    } else {
      var u := WithMem(s, Mem.Dispatch(MemOf(s), s.buffer[0])).(buffer := s.buffer[1..]);
      DispatchGrows(MemOf(s), s.buffer[0]);
      DispatchExactly(c, u, bw - 1);
      var t := Dispatch(c, u, bw - 1);
      var n := |s.buffer| - |t.buffer|;
      assert u.buffer[n - 1..] == s.buffer[n..];
      forall k | 0 <= k < n ensures s.buffer[k].eventCycle < s.cycle {
        assert k > 0 ==> s.buffer[k] == u.buffer[k - 1];
      }
      assert n < |s.buffer| ==> s.buffer[n] == u.buffer[n - 1];
    }
  }

  lemma DispatchGrows(m: Mem.Mem, x: Instr)
    ensures |Mem.Dispatch(m, x).rob| == |m.rob| + 1
  {
  }

  /** The youngest store to this address has been issued already. */
  ghost predicate Forwards(sq: seq<StoreEntry>, address: nat) {
    exists k: nat :: Mem.YoungestStore(sq, |sq|, address, k) && sq[k].fetchIssued
  }

  /** A load as it enters: not due, not issued, and waiting for the youngest store to its address, if there is one. */
  ghost predicate NewLoad(sq: seq<StoreEntry>, id: nat, e: LoadEntry) {
    && e.id == id && e.eventCycle == 0 && !e.fetchIssued
    && match e.producer
       case None => forall k :: 0 <= k < |sq| ==> sq[k].address != e.address
       case Some(p) =>
         exists k: nat :: Mem.YoungestStore(sq, |sq|, e.address, k) && !sq[k].fetchIssued && sq[k].id == p
  }

  function LoadAt(id: nat, address: nat): Option<LoadEntry> -> bool {
    (o: Option<LoadEntry>) => o.Some? && o.value.id == id && o.value.address == address
  }

  ghost function ForwardedAt(sq: seq<StoreEntry>): nat -> bool { (a: nat) => Forwards(sq, a) }

  /** Only waiters join the stores. */
  ghost predicate SameStores(a: seq<StoreEntry>, b: seq<StoreEntry>) {
    |a| == |b| && forall k :: 0 <= k < |a| ==> b[k] == a[k].(waiters := b[k].waiters)
  }

  /**
   * How the loads of the youngest instruction enter: those that forward from an issued store finish at once, all
   * others get a slot each, with their address.
   */
  ghost predicate LoadsEntered(m: Mem.Mem, addresses: seq<nat>, r: Mem.Mem) {
    && m.rob != [] && |r.lq| == |m.lq| && SameStores(m.sq, r.sq)
    && var last := |m.rob| - 1;
       var id := m.rob[last].id;
       && r.rob == m.rob[last := m.rob[last].(completedMemOps :=
            m.rob[last].completedMemOps + Count(addresses, ForwardedAt(m.sq)))]
       && (forall q :: 0 <= q < |m.lq| ==>
             if m.lq[q].Some? then r.lq[q] == m.lq[q] else r.lq[q].Some? ==> NewLoad(m.sq, id, r.lq[q].value))
       && forall a: nat :: Count(r.lq, LoadAt(id, a)) ==
            Count(m.lq, LoadAt(id, a)) + if Forwards(m.sq, a) then 0 else multiset(addresses)[a]
  }

  lemma YoungestSame(a: seq<StoreEntry>, b: seq<StoreEntry>, address: nat, k: nat)
    requires SameStores(a, b)
    ensures Mem.YoungestStore(a, |a|, address, k) <==> Mem.YoungestStore(b, |b|, address, k)
  {
    assert forall j :: 0 <= j < |a| ==> b[j].id == a[j].id && b[j].address == a[j].address;
  }

  lemma ForwardsSame(a: seq<StoreEntry>, b: seq<StoreEntry>)
    requires SameStores(a, b)
    ensures forall address: nat :: Forwards(a, address) <==> Forwards(b, address)
    ensures forall id: nat, e: LoadEntry :: NewLoad(a, id, e) <==> NewLoad(b, id, e)
  {
    forall address: nat, k: nat
      ensures Mem.YoungestStore(a, |a|, address, k) <==> Mem.YoungestStore(b, |b|, address, k)
    {
      YoungestSame(a, b, address, k);
    }
    assert forall j :: 0 <= j < |a| ==> b[j].id == a[j].id && b[j].address == a[j].address
                                        && b[j].fetchIssued == a[j].fetchIssued;
    hide Mem.YoungestStore, SameStores;
  }

  lemma YoungestUnique(sq: seq<StoreEntry>, address: nat, j: nat, k: nat)
    requires Mem.YoungestStore(sq, |sq|, address, j) && Mem.YoungestStore(sq, |sq|, address, k)
    ensures j == k
  {
  }

  lemma ForwardsChosen(sq: seq<StoreEntry>, address: nat)
    ensures var f := Mem.ForwardFrom(sq, address);
            Forwards(sq, address) <==> f.Some? && sq[f.value].fetchIssued
  {
    Mem.ForwardFromYoungest(sq, address);
    var f := Mem.ForwardFrom(sq, address);
    if f.Some? {
      forall k: nat | Mem.YoungestStore(sq, |sq|, address, k) ensures k == f.value {
        YoungestUnique(sq, address, f.value, k);
      }
    }
  }

  lemma CountOne(x: nat, p: nat -> bool)
    ensures Count([x], p) == if p(x) then 1 else 0
  {
    assert [x][1..] == [];
  }

  lemma SameLast(rob: seq<Instr>)
    requires rob != []
    ensures rob[|rob| - 1 := rob[|rob| - 1].(completedMemOps := rob[|rob| - 1].completedMemOps + 0)] == rob
  {
  }

  lemma NewLoadChosen(sq: seq<StoreEntry>, id: nat, address: nat)
    ensures var f := Mem.ForwardFrom(sq, address);
            && (f.None? ==> NewLoad(sq, id, LoadEntry(id, address, 0, false, None)))
            && (f.Some? && !sq[f.value].fetchIssued ==>
                  NewLoad(sq, id, LoadEntry(id, address, 0, false, Some(sq[f.value].id))))
  {
    Mem.ForwardFromYoungest(sq, address);
  }

  /** One load. */
  lemma AddLoadExactly(m: Mem.Mem, address: nat)
    requires m.rob != [] && Mem.FreeSlot(m.lq) < |m.lq|
    ensures LoadsEntered(m, [address], Mem.AddLoad(m, address))
  {
    var r, slot, id := Mem.AddLoad(m, address), Mem.FreeSlot(m.lq), m.rob[|m.rob| - 1].id;
    ForwardsChosen(m.sq, address);
    NewLoadChosen(m.sq, id, address);
    CountOne(address, ForwardedAt(m.sq));
    SameLast(m.rob);
    hide Forwards, NewLoad, Count, Mem.FreeSlot, Mem.ForwardFrom;
    forall a: nat
      ensures Count(r.lq, LoadAt(id, a)) ==
                Count(m.lq, LoadAt(id, a)) + if Forwards(m.sq, a) then 0 else multiset([address])[a]
    {
      if !Forwards(m.sq, address) {
        CountUpdate(m.lq, slot, r.lq[slot], LoadAt(id, a));
      }
    }
  }

  lemma EnteredThen(m: Mem.Mem, a: nat, r: Mem.Mem, rest: seq<nat>, t: Mem.Mem)
    requires LoadsEntered(m, [a], r) && LoadsEntered(r, rest, t)
    ensures LoadsEntered(m, [a] + rest, t)
  {
    ForwardsSame(m.sq, r.sq);
    CountConcat([a], rest, ForwardedAt(m.sq));
    CountPointwise(rest, rest, ForwardedAt(m.sq), ForwardedAt(r.sq));
    assert forall x: nat :: multiset([a] + rest)[x] == multiset([a])[x] + multiset(rest)[x];
    hide Forwards, NewLoad, Count;
  }

  /** All loads of an instruction enter, exactly. */
  lemma {:induction false} AddLoadsExactly(m: Mem.Mem, addresses: seq<nat>)
    requires m.rob != [] && Count(m.lq, Mem.IsFree()) >= |addresses|
    ensures LoadsEntered(m, addresses, Mem.AddLoads(m, addresses))
    decreases |addresses|
  {
    if addresses == [] {
      var last := |m.rob| - 1;
      assert m.rob[last := m.rob[last].(completedMemOps := m.rob[last].completedMemOps + 0)] == m.rob;
    } else {
      hide LoadsEntered, Count, Mem.AddLoad;
      var r := Mem.AddLoad(m, addresses[0]);
      Mem.FreeSlotExists(m.lq);
      Mem.AddLoadFree(m, addresses[0]);
      AddLoadExactly(m, addresses[0]);
      EnteredRob(m, addresses[0], r);
      AddLoadsExactly(r, addresses[1..]);
      EnteredThen(m, addresses[0], r, addresses[1..], Mem.AddLoads(r, addresses[1..]));
      assert [addresses[0]] + addresses[1..] == addresses;
    }
  }

  lemma EnteredRob(m: Mem.Mem, a: nat, r: Mem.Mem)
    requires LoadsEntered(m, [a], r)
    ensures r.rob != []
  {
  }

  /** Stores enter at the back, in order, with their addresses, not issued and with nobody waiting. */
  lemma {:induction false} AddStoresExactly(m: Mem.Mem, addresses: seq<nat>)
    requires m.rob != []
    ensures var r := Mem.AddStores(m, addresses);
            && r == m.(sq := r.sq) && |r.sq| == |m.sq| + |addresses| && r.sq[..|m.sq|] == m.sq
            && forall k :: 0 <= k < |addresses| ==>
                 r.sq[|m.sq| + k] == StoreEntry(m.rob[|m.rob| - 1].id, addresses[k], 0, false, [])
    decreases |addresses|
  {
    if addresses != [] {
      var e := StoreEntry(m.rob[|m.rob| - 1].id, addresses[0], 0, false, []);
      var n := m.(sq := m.sq + [e]);
      AddStoresExactly(n, addresses[1..]);
      var r := Mem.AddStores(n, addresses[1..]);
      assert r.sq[..|m.sq|] == r.sq[..|n.sq|][..|m.sq|] == m.sq;
      assert r.sq[|m.sq|] == r.sq[..|n.sq|][|m.sq|] == e;
      forall k | 0 < k < |addresses|
        ensures r.sq[|m.sq| + k] == StoreEntry(m.rob[|m.rob| - 1].id, addresses[k], 0, false, [])
      {
        assert r.sq[|n.sq| + (k - 1)] == StoreEntry(m.rob[|m.rob| - 1].id, addresses[1..][k - 1], 0, false, []);
      }
    }
  }
}
