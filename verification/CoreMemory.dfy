/**
 * The load and store queues: every memory operation of an instruction is accounted for, and a load
 * that forwards from a store is owned by that store until it finishes.
 */
module CoreMemory {
  import opened CoreTypes
  import opened Seqs
  import opened Wrappers

  datatype Mem = Mem(rob: seq<Instr>, lq: seq<Option<LoadEntry>>, sq: seq<StoreEntry>)

  // ---------------------------------------------------------------- steps

  function FreeSlot(lq: seq<Option<LoadEntry>>): (k: nat)
    ensures k <= |lq|
    ensures k < |lq| ==> lq[k].None?
    ensures forall j :: 0 <= j < k ==> lq[j].Some?
  {
    if lq == [] || lq[0].None? then 0 else 1 + FreeSlot(lq[1..])
  }

  /** The comparison used to look for the store a load forwards from. It is not an order. */
  predicate ForwardLess(l: StoreEntry, r: StoreEntry, address: nat) {
    l.address != address || (r.address == address && l.id < r.id)
  }

  /** It puts every entry of another address before itself. */
  lemma ForwardLessReflexive(e: StoreEntry, address: nat)
    ensures ForwardLess(e, e, address) <==> e.address != address
  {
  }

  /** `std::max_element` with that comparison: keep `best` unless the next entry beats it. */
  function MaxScan(sq: seq<StoreEntry>, address: nat, best: nat, i: nat): (k: nat)
    requires best < |sq| && i <= |sq|
    ensures k < |sq|
    decreases |sq| - i
  {
    if i == |sq| then best
    else MaxScan(sq, address, if ForwardLess(sq[best], sq[i], address) then i else best, i + 1)
  }

  /** The store queue entry a load of `address` forwards from, if there is one. */
  function ForwardFrom(sq: seq<StoreEntry>, address: nat): (k: Option<nat>)
    ensures k.Some? ==> k.value < |sq| && sq[k.value].address == address
  {
    if sq == [] then None
    else
      var k := MaxScan(sq, address, 0, 1);
      if sq[k].address == address then Some(k) else None
  }

  /** `LSQ_ENTRY::finish`: one more memory operation of instruction `id` is done. */
  function Finish(rob: seq<Instr>, id: nat): (r: seq<Instr>)
    ensures |r| == |rob|
  {
    var k := Find(rob, id);
    if k < |rob| then rob[k := rob[k].(completedMemOps := rob[k].completedMemOps + 1)] else rob
  }

  /** One load of the youngest instruction enters the queue, or forwards from a finished store. */
  function AddLoad(m: Mem, address: nat): (r: Mem)
    requires m.rob != []
  {
    var slot, last := FreeSlot(m.lq), |m.rob| - 1;
    var id := m.rob[last].id;
    if slot == |m.lq| then m
    else
      match ForwardFrom(m.sq, address)
      case None => m.(lq := m.lq[slot := Some(LoadEntry(id, address, 0, false, None))])
      case Some(k) =>
        if m.sq[k].fetchIssued then
          m.(rob := m.rob[last := m.rob[last].(completedMemOps := m.rob[last].completedMemOps + 1)])
        else
          m.(lq := m.lq[slot := Some(LoadEntry(id, address, 0, false, Some(m.sq[k].id)))],
             sq := m.sq[k := m.sq[k].(waiters := m.sq[k].waiters + [slot])])
  }

  function AddLoads(m: Mem, addresses: seq<nat>): (r: Mem)
    requires m.rob != []
    ensures |r.rob| == |m.rob|
    decreases |addresses|
  {
    if addresses == [] then m else AddLoads(AddLoad(m, addresses[0]), addresses[1..])
  }

  function AddStores(m: Mem, addresses: seq<nat>): (r: Mem)
    requires m.rob != []
    ensures r.rob == m.rob
    decreases |addresses|
  {
    if addresses == [] then m
    else
      var id := m.rob[|m.rob| - 1].id;
      AddStores(m.(sq := m.sq + [StoreEntry(id, addresses[0], 0, false, [])]), addresses[1..])
  }

  /** Put a new instruction at the back of the buffer and create its queue entries. */
  function Dispatch(m: Mem, x: Instr): (r: Mem)
  {
    AddStores(AddLoads(m.(rob := m.rob + [x]), x.loads), x.stores)
  }

  /** An occupied load queue slot finishes and becomes free. */
  function ReleaseSlot(m: Mem, q: nat): (r: Mem)
    ensures |r.rob| == |m.rob| && |r.lq| == |m.lq|
  {
    if q < |m.lq| && m.lq[q].Some? then
      m.(rob := Finish(m.rob, m.lq[q].value.id), lq := m.lq[q := None])
    else m
  }

  function ReleaseSlots(m: Mem, qs: seq<nat>): (r: Mem)
    ensures |r.rob| == |m.rob| && |r.lq| == |m.lq|
    decreases |qs|
  {
    if qs == [] then m else ReleaseSlots(ReleaseSlot(m, qs[0]), qs[1..])
  }

  /** The store itself finishes ... */
  function IssueStore(m: Mem, k: nat, cycle: nat): (r: Mem)
    requires k < |m.sq|
  {
    m.(rob := Finish(m.rob, m.sq[k].id), sq := m.sq[k := m.sq[k].(fetchIssued := true, eventCycle := cycle)])
  }

  /** ... and so do all loads waiting for it. */
  function FinishStore(m: Mem, k: nat, cycle: nat): (r: Mem)
    requires k < |m.sq|
  {
    ReleaseSlots(IssueStore(m, k, cycle), m.sq[k].waiters)
  }

  // ---------------------------------------------------------------- invariant

  function Holds(id: nat): Option<LoadEntry> -> bool { (o: Option<LoadEntry>) => o.Some? && o.value.id == id }

  function PendingStore(id: nat): StoreEntry -> bool { (e: StoreEntry) => !e.fetchIssued && e.id == id }

  /** Memory operations of instruction `id` that are still in a queue. */
  function InQueues(m: Mem, id: nat): nat {
    Count(m.lq, Holds(id)) + Count(m.sq, PendingStore(id))
  }

  ghost predicate QueuesLive(m: Mem) {
    && (forall q :: 0 <= q < |m.lq| && m.lq[q].Some? ==> Live(m.rob, m.lq[q].value.id))
    && (forall k :: 0 <= k < |m.sq| && !m.sq[k].fetchIssued ==> Live(m.rob, m.sq[k].id))
  }

  ghost predicate IssuedPrefix(sq: seq<StoreEntry>) {
    forall i, j :: 0 <= i < j < |sq| && sq[j].fetchIssued ==> sq[i].fetchIssued
  }

  /** Finished plus queued operations make up all of them; the youngest instruction may still owe some. */
  ghost predicate Conserved(m: Mem, owed: nat) {
    forall i :: 0 <= i < |m.rob| ==>
      m.rob[i].completedMemOps + InQueues(m, m.rob[i].id) + (if i == |m.rob| - 1 then owed else 0)
      == m.rob[i].NumMemOps()
  }

  ghost predicate CompletedDone(rob: seq<Instr>) {
    forall i :: 0 <= i < |rob| && rob[i].executed == Completed ==> rob[i].completedMemOps == rob[i].NumMemOps()
  }

  ghost predicate WaitsFor(lq: seq<Option<LoadEntry>>, q: nat, id: nat) {
    q < |lq| && lq[q].Some? && lq[q].value.producer == Some(id)
  }

  /** The loads waiting for an unfinished store wait for that store, at its address, and are younger. */
  ghost predicate WaitersOk(lq: seq<Option<LoadEntry>>, e: StoreEntry) {
    Distinct(e.waiters) && forall q :: q in e.waiters ==>
      WaitsFor(lq, q, e.id) && lq[q].value.address == e.address && e.id < lq[q].value.id
  }

  ghost predicate Owns(sq: seq<StoreEntry>, k: int, q: nat) {
    0 <= k < |sq| && !sq[k].fetchIssued && q in sq[k].waiters
  }

  /**
   * Every load with a producer has not been issued and sits in exactly one waiting list, that of an
   * unfinished store with that identifier. While store `owner` is being finished, the slots in
   * `rel` are still to be released.
   */
  ghost predicate Ownership(lq: seq<Option<LoadEntry>>, sq: seq<StoreEntry>, owner: nat, rel: seq<nat>) {
    && (forall k :: 0 <= k < |sq| && !sq[k].fetchIssued ==> WaitersOk(lq, sq[k]))
    && (forall k, j, q :: Owns(sq, k, q) && Owns(sq, j, q) ==> k == j)
    && Distinct(rel)
    && (forall q :: q in rel ==> WaitsFor(lq, q, owner) && forall k :: !Owns(sq, k, q))
    && (forall q :: 0 <= q < |lq| && lq[q].Some? && lq[q].value.producer.Some? ==>
          && !lq[q].value.fetchIssued
          && ((owner == lq[q].value.producer.value && q in rel) || Owned(sq, q, lq[q].value.producer.value)))
  }

  ghost predicate Owned(sq: seq<StoreEntry>, q: nat, id: nat) {
    exists k :: Owns(sq, k, q) && sq[k].id == id
  }

  ghost predicate MemInv(m: Mem, owed: nat, owner: nat, rel: seq<nat>) {
    && Sorted(m.rob)
    && QueuesLive(m)
    && IssuedPrefix(m.sq)
    && Conserved(m, owed)
    && CompletedDone(m.rob)
    && Ownership(m.lq, m.sq, owner, rel)
  }

  ghost predicate StoresBelow(sq: seq<StoreEntry>, bound: nat) {
    forall k :: 0 <= k < |sq| ==> sq[k].id < bound
  }

  // ---------------------------------------------------------------- forwarding

  /** `k` is the youngest store to `address`; among equals the one that entered first. */
  ghost predicate YoungestStore(sq: seq<StoreEntry>, n: nat, address: nat, k: nat)
    requires n <= |sq|
  {
    && k < n && sq[k].address == address
    && (forall j :: 0 <= j < n && sq[j].address == address ==> sq[j].id <= sq[k].id)
    && (forall j :: 0 <= j < k && sq[j].address == address ==> sq[j].id < sq[k].id)
  }

  lemma {:induction false} MaxScanPicks(sq: seq<StoreEntry>, address: nat, best: nat, i: nat)
    requires best < i <= |sq|
    requires YoungestStore(sq, i, address, best) || forall j :: 0 <= j < i ==> sq[j].address != address
    ensures var k := MaxScan(sq, address, best, i);
      YoungestStore(sq, |sq|, address, k) || forall j :: 0 <= j < |sq| ==> sq[j].address != address
    decreases |sq| - i
  {
    if i < |sq| {
      MaxScanPicks(sq, address, if ForwardLess(sq[best], sq[i], address) then i else best, i + 1);
    }
  }

  /** A load forwards whenever some store to its address is queued, and then from the youngest one. */
  lemma ForwardFromYoungest(sq: seq<StoreEntry>, address: nat)
    ensures match ForwardFrom(sq, address)
      case None => forall j :: 0 <= j < |sq| ==> sq[j].address != address
      case Some(k) => YoungestStore(sq, |sq|, address, k)
  {
    if sq != [] {
      MaxScanPicks(sq, address, 0, 1);
    }
  }

  // ---------------------------------------------------------------- dispatch

  lemma PutSlotCounts(lq: seq<Option<LoadEntry>>, slot: nat, e: LoadEntry, id: nat)
    requires slot < |lq| && lq[slot].None?
    ensures Count(lq[slot := Some(e)], Holds(id)) == Count(lq, Holds(id)) + if e.id == id then 1 else 0
  {
    CountUpdate(lq, slot, Some(e), Holds(id));
  }

  lemma SameStoreCounts(sq: seq<StoreEntry>, k: nat, e: StoreEntry, id: nat)
    requires k < |sq| && e.id == sq[k].id && e.fetchIssued == sq[k].fetchIssued
    ensures Count(sq[k := e], PendingStore(id)) == Count(sq, PendingStore(id))
  {
    CountUpdate(sq, k, e, PendingStore(id));
  }

  /** A load of the youngest instruction takes a free slot: it owes one operation fewer. */
  lemma AddLoadConserves(m: Mem, address: nat, owed: nat)
    requires m.rob != [] && Sorted(m.rob) && Conserved(m, owed) && owed > 0 && FreeSlot(m.lq) < |m.lq|
    ensures Conserved(AddLoad(m, address), owed - 1)
  {
    var r, slot, last := AddLoad(m, address), FreeSlot(m.lq), |m.rob| - 1;
    forall i | 0 <= i < |r.rob|
      ensures r.rob[i].completedMemOps + InQueues(r, r.rob[i].id) + (if i == last then owed - 1 else 0)
        == r.rob[i].NumMemOps()
    {
      var id := m.rob[i].id;
      assert i != last ==> id != m.rob[last].id;
      if r.lq != m.lq {
        PutSlotCounts(m.lq, slot, r.lq[slot].value, id);
      }
      if r.sq != m.sq {
        var k := ForwardFrom(m.sq, address).value;
        SameStoreCounts(m.sq, k, r.sq[k], id);
      }
    }
  }

  /** Liveness of the queues only looks at identifiers, which slots are taken, and which stores are pending. */
  lemma QueuesLiveSame(m: Mem, rob: seq<Instr>)
    requires QueuesLive(m) && SameIds(m.rob, rob)
    ensures QueuesLive(m.(rob := rob)) && (Sorted(m.rob) ==> Sorted(rob))
  {
    forall q | 0 <= q < |m.lq| && m.lq[q].Some?
      ensures Live(rob, m.lq[q].value.id)
    {
      FindSame(m.rob, rob, m.lq[q].value.id);
    }
    forall k | 0 <= k < |m.sq| && !m.sq[k].fetchIssued
      ensures Live(rob, m.sq[k].id)
    {
      FindSame(m.rob, rob, m.sq[k].id);
    }
  }

  lemma PutSlotLive(m: Mem, slot: nat, e: LoadEntry)
    requires QueuesLive(m) && slot < |m.lq| && Live(m.rob, e.id)
    ensures QueuesLive(m.(lq := m.lq[slot := Some(e)]))
  {
  }

  lemma PutStoreLive(m: Mem, k: nat, e: StoreEntry)
    requires QueuesLive(m) && k < |m.sq| && e.id == m.sq[k].id && e.fetchIssued == m.sq[k].fetchIssued
    ensures QueuesLive(m.(sq := m.sq[k := e]))
  {
  }

  lemma AddLoadLive(m: Mem, address: nat)
    requires m.rob != [] && Sorted(m.rob) && QueuesLive(m)
    ensures QueuesLive(AddLoad(m, address)) && Sorted(AddLoad(m, address).rob)
  {
    var r, slot, f := AddLoad(m, address), FreeSlot(m.lq), ForwardFrom(m.sq, address);
    if slot < |m.lq| {
      if f.Some? && m.sq[f.value].fetchIssued {
        QueuesLiveSame(m, r.rob);
      } else {
        FindIndex(m.rob, |m.rob| - 1);
        var e := r.lq[slot].value;
        PutSlotLive(m, slot, e);
        if f.Some? {
          PutStoreLive(m.(lq := m.lq[slot := Some(e)]), f.value, r.sq[f.value]);
        }
      }
    }
  }

  /** A fresh slot joins the waiting list of store `k`. */
  lemma WaitOwnership(lq: seq<Option<LoadEntry>>, sq: seq<StoreEntry>, owner: nat, slot: nat, k: nat, e: LoadEntry)
    requires Ownership(lq, sq, owner, []) && slot < |lq| && lq[slot].None?
    requires k < |sq| && !sq[k].fetchIssued
    requires !e.fetchIssued && e.producer == Some(sq[k].id) && e.address == sq[k].address && sq[k].id < e.id
    ensures Ownership(lq[slot := Some(e)], sq[k := sq[k].(waiters := sq[k].waiters + [slot])], owner, [])
  {
    var l, s := lq[slot := Some(e)], sq[k := sq[k].(waiters := sq[k].waiters + [slot])];
    assert forall j :: !Owns(sq, j, slot);
    assert forall j, q :: Owns(s, j, q) <==> Owns(sq, j, q) || (j == k && q == slot);
    forall q | 0 <= q < |l| && l[q].Some? && l[q].value.producer.Some?
      ensures !l[q].value.fetchIssued && Owned(s, q, l[q].value.producer.value)
    {
      if q == slot {
        assert Owns(s, k, q);
      } else {
        var j :| Owns(sq, j, q) && sq[j].id == l[q].value.producer.value;
        assert Owns(s, j, q) && s[j].id == sq[j].id;
      }
    }
  }

  /** A fresh slot without a producer changes nothing about ownership. */
  lemma PlainOwnership(lq: seq<Option<LoadEntry>>, sq: seq<StoreEntry>, owner: nat, slot: nat, e: LoadEntry)
    requires Ownership(lq, sq, owner, []) && slot < |lq| && lq[slot].None? && e.producer == None
    ensures Ownership(lq[slot := Some(e)], sq, owner, [])
  {
    assert forall j :: !Owns(sq, j, slot);
  }

  lemma AddLoadOwnership(m: Mem, address: nat, owner: nat)
    requires m.rob != [] && Ownership(m.lq, m.sq, owner, []) && FreeSlot(m.lq) < |m.lq|
    requires StoresBelow(m.sq, m.rob[|m.rob| - 1].id)
    ensures Ownership(AddLoad(m, address).lq, AddLoad(m, address).sq, owner, [])
  {
    var slot, f := FreeSlot(m.lq), ForwardFrom(m.sq, address);
    var r := AddLoad(m, address);
    hide Ownership;
    if f.None? {
      PlainOwnership(m.lq, m.sq, owner, slot, r.lq[slot].value);
    } else if !m.sq[f.value].fetchIssued {
      WaitOwnership(m.lq, m.sq, owner, slot, f.value, r.lq[slot].value);
    }
  }

  lemma AddLoadOrder(m: Mem, address: nat)
    requires m.rob != [] && IssuedPrefix(m.sq) && CompletedDone(m.rob)
    requires StoresBelow(m.sq, m.rob[|m.rob| - 1].id) && m.rob[|m.rob| - 1].executed != Completed
    ensures var r := AddLoad(m, address);
            IssuedPrefix(r.sq) && CompletedDone(r.rob) && StoresBelow(r.sq, m.rob[|m.rob| - 1].id)
  {
  }

  lemma AddLoadKeeps(m: Mem, address: nat, owed: nat, owner: nat)
    requires m.rob != [] && MemInv(m, owed, owner, []) && owed > 0 && FreeSlot(m.lq) < |m.lq|
    requires StoresBelow(m.sq, m.rob[|m.rob| - 1].id) && m.rob[|m.rob| - 1].executed != Completed
    ensures MemInv(AddLoad(m, address), owed - 1, owner, [])
    ensures StoresBelow(AddLoad(m, address).sq, m.rob[|m.rob| - 1].id)
  {
    hide AddLoad;
    hide Sorted;
    hide QueuesLive;
    hide Conserved;
    hide IssuedPrefix;
    hide CompletedDone;
    hide Ownership;
    hide StoresBelow;
    AddLoadConserves(m, address, owed);
    AddLoadLive(m, address);
    AddLoadOwnership(m, address, owner);
    AddLoadOrder(m, address);
  }

  function IsFree(): Option<LoadEntry> -> bool { (o: Option<LoadEntry>) => o.None? }

  lemma {:induction false} FreeSlotExists(lq: seq<Option<LoadEntry>>)
    requires Count(lq, IsFree()) > 0
    ensures FreeSlot(lq) < |lq|
  {
    if lq[0].Some? {
      FreeSlotExists(lq[1..]);
    }
  }

  lemma AddLoadFree(m: Mem, address: nat)
    requires m.rob != [] && FreeSlot(m.lq) < |m.lq|
    ensures Count(AddLoad(m, address).lq, IsFree()) + 1 >= Count(m.lq, IsFree())
  {
    var r, slot := AddLoad(m, address), FreeSlot(m.lq);
    if r.lq != m.lq {
      CountUpdate(m.lq, slot, r.lq[slot], IsFree());
    }
  }

  /** Of the buffer, a load touches at most the count of its own instruction. */
  lemma AddLoadRob(m: Mem, address: nat)
    requires m.rob != []
    ensures var r, last := AddLoad(m, address).rob, |m.rob| - 1;
            |r| == |m.rob| && r == m.rob[last := m.rob[last].(completedMemOps := r[last].completedMemOps)]
  {
    hide FreeSlot, ForwardFrom;
  }

  /** All loads of the youngest instruction enter, given enough free slots. */
  lemma {:induction false} AddLoadsKeeps(m: Mem, addresses: seq<nat>, owed: nat, owner: nat)
    requires m.rob != [] && MemInv(m, owed, owner, []) && owed >= |addresses| && Count(m.lq, IsFree()) >= |addresses|
    requires StoresBelow(m.sq, m.rob[|m.rob| - 1].id) && m.rob[|m.rob| - 1].executed != Completed
    ensures var r := AddLoads(m, addresses);
      MemInv(r, owed - |addresses|, owner, []) && StoresBelow(r.sq, m.rob[|m.rob| - 1].id)
    ensures var r := AddLoads(m, addresses); var last := |m.rob| - 1;
      r.rob == m.rob[last := m.rob[last].(completedMemOps := r.rob[last].completedMemOps)]
    decreases |addresses|
  {
    if addresses != [] {
      hide MemInv, StoresBelow, Count, AddLoad;
      FreeSlotExists(m.lq);
      AddLoadKeeps(m, addresses[0], owed, owner);
      AddLoadFree(m, addresses[0]);
      AddLoadRob(m, addresses[0]);
      AddLoadsKeeps(AddLoad(m, addresses[0]), addresses[1..], owed - 1, owner);
    }
  }

  function AddStore(m: Mem, address: nat): (r: Mem)
    requires m.rob != []
  {
    m.(sq := m.sq + [StoreEntry(m.rob[|m.rob| - 1].id, address, 0, false, [])])
  }

  lemma NewStoreOwnership(lq: seq<Option<LoadEntry>>, sq: seq<StoreEntry>, owner: nat, e: StoreEntry)
    requires Ownership(lq, sq, owner, []) && !e.fetchIssued && e.waiters == []
    ensures Ownership(lq, sq + [e], owner, [])
  {
    var s := sq + [e];
    assert forall j, q :: Owns(s, j, q) <==> Owns(sq, j, q);
    forall q | 0 <= q < |lq| && lq[q].Some? && lq[q].value.producer.Some?
      ensures Owned(s, q, lq[q].value.producer.value)
    {
      var j :| Owns(sq, j, q) && sq[j].id == lq[q].value.producer.value;
      assert Owns(s, j, q) && s[j].id == sq[j].id;
    }
  }

  lemma AddStoreKeeps(m: Mem, address: nat, owed: nat, owner: nat)
    requires m.rob != [] && MemInv(m, owed, owner, []) && owed > 0
    requires StoresBelow(m.sq, m.rob[|m.rob| - 1].id + 1)
    ensures MemInv(AddStore(m, address), owed - 1, owner, [])
    ensures StoresBelow(AddStore(m, address).sq, m.rob[|m.rob| - 1].id + 1)
  {
    hide Ownership;
    var r, last := AddStore(m, address), |m.rob| - 1;
    var e := r.sq[|m.sq|];
    FindIndex(m.rob, last);
    NewStoreOwnership(m.lq, m.sq, owner, e);
    forall i | 0 <= i < |r.rob|
      ensures r.rob[i].completedMemOps + InQueues(r, r.rob[i].id) + (if i == last then owed - 1 else 0)
        == r.rob[i].NumMemOps()
    {
      CountAppend(m.sq, e, PendingStore(r.rob[i].id));
    }
  }

  lemma {:induction false} AddStoresKeeps(m: Mem, addresses: seq<nat>, owed: nat, owner: nat)
    requires m.rob != [] && MemInv(m, owed, owner, []) && owed >= |addresses|
    requires StoresBelow(m.sq, m.rob[|m.rob| - 1].id + 1)
    ensures var r := AddStores(m, addresses);
      MemInv(r, owed - |addresses|, owner, []) && StoresBelow(r.sq, m.rob[|m.rob| - 1].id + 1)
      && r.rob == m.rob && |r.sq| == |m.sq| + |addresses|
    decreases |addresses|
  {
    if addresses != [] {
      AddStoreKeeps(m, addresses[0], owed, owner);
      AddStoresKeeps(AddStore(m, addresses[0]), addresses[1..], owed - 1, owner);
    }
  }

  /** A new youngest instruction has no operation in the queues yet: it owes all of them. */
  lemma PushConserves(m: Mem, x: Instr)
    requires Conserved(m, 0) && QueuesLive(m) && x.completedMemOps == 0
    requires forall k :: 0 <= k < |m.rob| ==> m.rob[k].id < x.id
    ensures Conserved(m.(rob := m.rob + [x]), x.NumMemOps())
  {
    CountZero(m.lq, Holds(x.id));
    CountZero(m.sq, PendingStore(x.id));
  }

  lemma PushLive(m: Mem, x: Instr)
    requires QueuesLive(m)
    ensures QueuesLive(m.(rob := m.rob + [x]))
  {
    forall id: nat | Live(m.rob, id)
      ensures Live(m.rob + [x], id)
    {
      FindAppend(m.rob, x, id);
    }
  }

  lemma DispatchKeeps(m: Mem, x: Instr)
    requires MemInv(m, 0, 0, []) && x.completedMemOps == 0 && x.executed == Idle
    requires forall k :: 0 <= k < |m.rob| ==> m.rob[k].id < x.id
    requires StoresBelow(m.sq, x.id) && Count(m.lq, IsFree()) >= |x.loads|
    ensures var r := Dispatch(m, x);
      && MemInv(r, 0, 0, []) && StoresBelow(r.sq, x.id + 1)
      && |r.rob| == |m.rob| + 1
      && r.rob == m.rob + [x.(completedMemOps := r.rob[|m.rob|].completedMemOps)]
  {
    PushConserves(m, x);
    PushLive(m, x);
    var p := m.(rob := m.rob + [x]);
    AddLoadsKeeps(p, x.loads, x.NumMemOps(), 0);
    AddStoresKeeps(AddLoads(p, x.loads), x.stores, |x.stores|, 0);
  }

  // ---------------------------------------------------------------- finishing

  lemma FinishConserves(m: Mem, id: nat, lq: seq<Option<LoadEntry>>, sq: seq<StoreEntry>)
    requires Sorted(m.rob) && Conserved(m, 0) && Live(m.rob, id)
    requires forall i :: 0 <= i < |m.rob| ==>
      InQueues(m, m.rob[i].id) == InQueues(Mem(m.rob, lq, sq), m.rob[i].id) + if m.rob[i].id == id then 1 else 0
    ensures Conserved(Mem(Finish(m.rob, id), lq, sq), 0)
    ensures CompletedDone(m.rob) ==> CompletedDone(Finish(m.rob, id))
    ensures SameIds(m.rob, Finish(m.rob, id))
    ensures var k := Find(m.rob, id); m.rob[k].completedMemOps < m.rob[k].NumMemOps()
  {
    var k := Find(m.rob, id);
    var r := Finish(m.rob, id);
    forall i | 0 <= i < |m.rob|
      ensures m.rob[i].id == id <==> i == k
    {
      FindIndex(m.rob, i);
    }
    forall i | 0 <= i < |r|
      ensures r[i].completedMemOps + InQueues(Mem(r, lq, sq), r[i].id) == r[i].NumMemOps()
    {
      assert InQueues(Mem(r, lq, sq), r[i].id) == InQueues(Mem(m.rob, lq, sq), m.rob[i].id);
    }
  }

  lemma FreeSlotCounts(m: Mem, q: nat, id: nat)
    requires q < |m.lq| && m.lq[q].Some?
    ensures InQueues(m, id) == InQueues(m.(lq := m.lq[q := None]), id) + if m.lq[q].value.id == id then 1 else 0
  {
    CountUpdate(m.lq, q, None, Holds(id));
  }

  /** Releasing an occupied slot finds its instruction, which is still missing an operation. */
  lemma ReleaseSlotConserves(m: Mem, q: nat)
    requires MemInv(m, 0, 0, []) || (Sorted(m.rob) && QueuesLive(m) && Conserved(m, 0) && CompletedDone(m.rob))
    requires q < |m.lq| && m.lq[q].Some?
    ensures Sorted(ReleaseSlot(m, q).rob) && QueuesLive(ReleaseSlot(m, q))
    ensures Conserved(ReleaseSlot(m, q), 0) && CompletedDone(ReleaseSlot(m, q).rob)
    ensures Live(m.rob, m.lq[q].value.id)
    ensures var k := Find(m.rob, m.lq[q].value.id); m.rob[k].completedMemOps < m.rob[k].NumMemOps()
    ensures SameIds(m.rob, ReleaseSlot(m, q).rob)
  {
    forall i | 0 <= i < |m.rob|
      ensures InQueues(m, m.rob[i].id) == InQueues(Mem(m.rob, m.lq[q := None], m.sq), m.rob[i].id)
          + if m.rob[i].id == m.lq[q].value.id then 1 else 0
    {
      FreeSlotCounts(m, q, m.rob[i].id);
    }
    FinishConserves(m, m.lq[q].value.id, m.lq[q := None], m.sq);
    QueuesLiveSame(m.(lq := m.lq[q := None]), ReleaseSlot(m, q).rob);
  }

  lemma ReleaseNextOwnership(lq: seq<Option<LoadEntry>>, sq: seq<StoreEntry>, owner: nat, rel: seq<nat>)
    requires rel != [] && Ownership(lq, sq, owner, rel)
    ensures rel[0] < |lq| && lq[rel[0]].Some? && lq[rel[0]].value.producer == Some(owner)
    ensures Ownership(lq[rel[0] := None], sq, owner, rel[1..])
  {
    assert rel[0] in rel;
    assert WaitsFor(lq, rel[0], owner);
    var l := lq[rel[0] := None];
    assert rel == [rel[0]] + rel[1..];
    forall q | q in rel[1..]
      ensures WaitsFor(l, q, owner) && forall k :: !Owns(sq, k, q)
    {
      assert q in rel && q != rel[0];
    }
    forall k | 0 <= k < |sq| && !sq[k].fetchIssued
      ensures WaitersOk(l, sq[k])
    {
      assert !Owns(sq, k, rel[0]);
    }
  }

  lemma ReleaseNextKeeps(m: Mem, owner: nat, rel: seq<nat>)
    requires rel != [] && MemInv(m, 0, owner, rel)
    ensures MemInv(ReleaseSlot(m, rel[0]), 0, owner, rel[1..])
    ensures rel[0] < |m.lq| && m.lq[rel[0]].Some? && m.lq[rel[0]].value.producer == Some(owner)
  {
    ReleaseNextOwnership(m.lq, m.sq, owner, rel);
    ReleaseSlotConserves(m, rel[0]);
  }

  lemma {:induction false} ReleaseSlotsKeeps(m: Mem, owner: nat, rel: seq<nat>)
    requires MemInv(m, 0, owner, rel)
    ensures MemInv(ReleaseSlots(m, rel), 0, owner, [])
    ensures ReleaseSlots(m, rel).sq == m.sq
    decreases |rel|
  {
    if rel != [] {
      ReleaseNextKeeps(m, owner, rel);
      ReleaseSlotsKeeps(ReleaseSlot(m, rel[0]), owner, rel[1..]);
    } else {
      assert rel == [];
    }
  }

  /** The owner only matters while slots are being released. */
  lemma OwnerFree(m: Mem, owner: nat, other: nat)
    requires MemInv(m, 0, owner, [])
    ensures MemInv(m, 0, other, [])
  {
  }

  lemma IssueOwnership(lq: seq<Option<LoadEntry>>, sq: seq<StoreEntry>, k: nat, cycle: nat)
    requires Ownership(lq, sq, 0, []) && k < |sq| && !sq[k].fetchIssued
    ensures Ownership(lq, sq[k := sq[k].(fetchIssued := true, eventCycle := cycle)], sq[k].id, sq[k].waiters)
  {
    var s := sq[k := sq[k].(fetchIssued := true, eventCycle := cycle)];
    assert forall j, q :: Owns(s, j, q) <==> Owns(sq, j, q) && j != k;
    forall q | q in sq[k].waiters
      ensures WaitsFor(lq, q, sq[k].id) && forall j :: !Owns(s, j, q)
    {
      assert Owns(sq, k, q);
    }
    forall q | 0 <= q < |lq| && lq[q].Some? && lq[q].value.producer.Some?
      ensures (sq[k].id == lq[q].value.producer.value && q in sq[k].waiters) || Owned(s, q, lq[q].value.producer.value)
    {
      var j :| Owns(sq, j, q) && sq[j].id == lq[q].value.producer.value;
      if j != k {
        assert Owns(s, j, q);
      }
    }
  }

  /** The first unfinished store finishes: its own instruction has one more operation done. */
  lemma IssueStoreKeeps(m: Mem, k: nat, cycle: nat)
    requires MemInv(m, 0, 0, []) && k < |m.sq| && !m.sq[k].fetchIssued
    requires forall j :: 0 <= j < k ==> m.sq[j].fetchIssued
    ensures MemInv(IssueStore(m, k, cycle), 0, m.sq[k].id, m.sq[k].waiters)
    ensures Live(m.rob, m.sq[k].id)
    ensures var f := Find(m.rob, m.sq[k].id); m.rob[f].completedMemOps < m.rob[f].NumMemOps()
  {
    var id, r := m.sq[k].id, IssueStore(m, k, cycle);
    forall i | 0 <= i < |m.rob|
      ensures InQueues(m, m.rob[i].id) == InQueues(Mem(m.rob, m.lq, r.sq), m.rob[i].id)
          + if m.rob[i].id == id then 1 else 0
    {
      CountUpdate(m.sq, k, r.sq[k], PendingStore(m.rob[i].id));
    }
    FinishConserves(m, id, m.lq, r.sq);
    QueuesLiveSame(m.(sq := r.sq), r.rob);
    IssueOwnership(m.lq, m.sq, k, cycle);
  }

  /** Finishing the first unfinished store, and all loads that wait for it, keeps every memory invariant. */
  lemma FinishStoreKeeps(m: Mem, k: nat, cycle: nat)
    requires MemInv(m, 0, 0, []) && k < |m.sq| && !m.sq[k].fetchIssued
    requires forall j :: 0 <= j < k ==> m.sq[j].fetchIssued
    ensures MemInv(FinishStore(m, k, cycle), 0, 0, [])
    ensures FinishStore(m, k, cycle).sq == IssueStore(m, k, cycle).sq
  {
    IssueStoreKeeps(m, k, cycle);
    ReleaseSlotsKeeps(IssueStore(m, k, cycle), m.sq[k].id, m.sq[k].waiters);
    OwnerFree(FinishStore(m, k, cycle), m.sq[k].id, 0);
  }

  lemma NotWaiting(lq: seq<Option<LoadEntry>>, e: StoreEntry, q: nat)
    requires WaitersOk(lq, e) && !WaitsFor(lq, q, e.id)
    ensures q !in e.waiters
  {
  }

  lemma FreeOwnership(lq: seq<Option<LoadEntry>>, sq: seq<StoreEntry>, q: nat)
    requires Ownership(lq, sq, 0, []) && q < |lq| && lq[q].Some? && lq[q].value.producer == None
    ensures Ownership(lq[q := None], sq, 0, [])
  {
    forall k | 0 <= k < |sq| && !sq[k].fetchIssued
      ensures WaitersOk(lq[q := None], sq[k])
    {
      assert WaitersOk(lq, sq[k]);
      NotWaiting(lq, sq[k], q);
    }
  }

  /** Data returning for an issued load keeps every memory invariant. */
  lemma ReturnSlotKeeps(m: Mem, q: nat)
    requires MemInv(m, 0, 0, []) && q < |m.lq| && m.lq[q].Some? && m.lq[q].value.fetchIssued
    ensures MemInv(ReleaseSlot(m, q), 0, 0, [])
    ensures Live(m.rob, m.lq[q].value.id) && m.lq[q].value.producer == None
  {
    ReleaseSlotConserves(m, q);
    FreeOwnership(m.lq, m.sq, q);
  }

  // ---------------------------------------------------------------- issuing, draining, readiness

  /** Changing fields of a taken slot that nothing depends on. */
  lemma TouchSlotKeeps(m: Mem, q: nat, e: LoadEntry)
    requires MemInv(m, 0, 0, []) && q < |m.lq| && m.lq[q].Some?
    requires e.id == m.lq[q].value.id && e.producer == m.lq[q].value.producer && e.address == m.lq[q].value.address
    requires e.producer.Some? ==> !e.fetchIssued
    ensures MemInv(m.(lq := m.lq[q := Some(e)]), 0, 0, [])
  {
    var l := m.lq[q := Some(e)];
    TouchSlotOwnership(m.lq, m.sq, q, e);
    forall i | 0 <= i < |m.rob|
      ensures InQueues(m.(lq := l), m.rob[i].id) == InQueues(m, m.rob[i].id)
    {
      CountUpdate(m.lq, q, Some(e), Holds(m.rob[i].id));
    }
    PutSlotLive(m, q, e);
  }

  lemma TouchSlotOwnership(lq: seq<Option<LoadEntry>>, sq: seq<StoreEntry>, q: nat, e: LoadEntry)
    requires Ownership(lq, sq, 0, []) && q < |lq| && lq[q].Some?
    requires e.id == lq[q].value.id && e.producer == lq[q].value.producer && e.address == lq[q].value.address
    requires e.producer.Some? ==> !e.fetchIssued
    ensures Ownership(lq[q := Some(e)], sq, 0, [])
  {
    forall k | 0 <= k < |sq| && !sq[k].fetchIssued
      ensures WaitersOk(lq[q := Some(e)], sq[k])
    {
      assert WaitersOk(lq, sq[k]);
    }
  }

  /** Changing the ready time of a store queue entry. */
  lemma TouchStoreKeeps(m: Mem, k: nat, ready: nat)
    requires MemInv(m, 0, 0, []) && k < |m.sq|
    ensures MemInv(m.(sq := m.sq[k := m.sq[k].(eventCycle := ready)]), 0, 0, [])
  {
    var e := m.sq[k].(eventCycle := ready);
    PutStoreLive(m, k, e);
    TouchStoreOwnership(m.lq, m.sq, k, e);
    forall i | 0 <= i < |m.rob|
      ensures InQueues(m.(sq := m.sq[k := e]), m.rob[i].id) == InQueues(m, m.rob[i].id)
    {
      SameStoreCounts(m.sq, k, e, m.rob[i].id);
    }
  }

  lemma TouchStoreOwnership(lq: seq<Option<LoadEntry>>, sq: seq<StoreEntry>, k: nat, e: StoreEntry)
    requires Ownership(lq, sq, 0, []) && k < |sq| && e == sq[k].(eventCycle := e.eventCycle)
    ensures Ownership(lq, sq[k := e], 0, [])
  {
    var s := sq[k := e];
    assert forall j, q :: Owns(s, j, q) <==> Owns(sq, j, q);
    forall q | 0 <= q < |lq| && lq[q].Some? && lq[q].value.producer.Some?
      ensures Owned(s, q, lq[q].value.producer.value)
    {
      var j :| Owns(sq, j, q) && sq[j].id == lq[q].value.producer.value;
      assert Owns(s, j, q) && s[j].id == sq[j].id;
    }
  }

  /** A store whose instruction has left the buffer has finished. */
  lemma RetiredStoreIssued(m: Mem, k: nat)
    requires QueuesLive(m) && k < |m.sq|
    requires m.rob == [] || m.sq[k].id < m.rob[0].id
    ensures m.sq[k].fetchIssued
  {
  }

  /** The oldest store leaves the queue once it has finished. */
  lemma DrainKeeps(m: Mem)
    requires MemInv(m, 0, 0, []) && m.sq != [] && m.sq[0].fetchIssued
    ensures MemInv(m.(sq := m.sq[1..]), 0, 0, [])
  {
    var s := m.sq[1..];
    DrainOwnership(m.lq, m.sq);
    forall i | 0 <= i < |m.rob|
      ensures InQueues(m.(sq := s), m.rob[i].id) == InQueues(m, m.rob[i].id)
    {
      assert !PendingStore(m.rob[i].id)(m.sq[0]);
    }
  }

  lemma DrainOwnership(lq: seq<Option<LoadEntry>>, sq: seq<StoreEntry>)
    requires Ownership(lq, sq, 0, []) && sq != [] && sq[0].fetchIssued
    ensures Ownership(lq, sq[1..], 0, [])
  {
    var s := sq[1..];
    forall j, q
      ensures Owns(s, j, q) <==> j >= 0 && Owns(sq, j + 1, q)
    {
    }
    forall j, k, q | Owns(s, j, q) && Owns(s, k, q)
      ensures j == k
    {
      assert Owns(sq, j + 1, q) && Owns(sq, k + 1, q);
    }
    forall q | 0 <= q < |lq| && lq[q].Some? && lq[q].value.producer.Some?
      ensures Owned(s, q, lq[q].value.producer.value)
    {
      var j :| Owns(sq, j, q) && sq[j].id == lq[q].value.producer.value;
      assert Owns(s, j - 1, q);
    }
  }

  // ---------------------------------------------------------------- the reorder buffer changes

  /** Register tracking does not disturb the queues, as long as only finished instructions complete. */
  lemma BufferKeeps(m: Mem, rob: seq<Instr>, owed: nat)
    requires MemInv(m, owed, 0, []) && SameIds(m.rob, rob)
    requires forall k :: 0 <= k < |rob| ==>
      && rob[k].completedMemOps == m.rob[k].completedMemOps
      && rob[k].loads == m.rob[k].loads && rob[k].stores == m.rob[k].stores
      && (rob[k].executed == Completed ==>
            m.rob[k].executed == Completed || m.rob[k].completedMemOps == m.rob[k].NumMemOps())
    ensures MemInv(m.(rob := rob), owed, 0, [])
  {
    QueuesLiveSame(m, rob);
    forall i | 0 <= i < |rob|
      ensures InQueues(m.(rob := rob), rob[i].id) == InQueues(m, m.rob[i].id)
    {
    }
  }

  /** A completed instruction has nothing left in the queues, so it can retire. */
  lemma RetireKeeps(m: Mem)
    requires MemInv(m, 0, 0, []) && m.rob != [] && m.rob[0].executed == Completed
    ensures MemInv(m.(rob := m.rob[1..]), 0, 0, [])
    ensures InQueues(m, m.rob[0].id) == 0
  {
    var id, b := m.rob[0].id, m.rob[1..];
    CountZero(m.lq, Holds(id));
    CountZero(m.sq, PendingStore(id));
    forall q | 0 <= q < |m.lq| && m.lq[q].Some?
      ensures Live(b, m.lq[q].value.id)
    {
      assert !Holds(id)(m.lq[q]);
    }
    forall k | 0 <= k < |m.sq| && !m.sq[k].fetchIssued
      ensures Live(b, m.sq[k].id)
    {
      assert !PendingStore(id)(m.sq[k]);
    }
  }
}
