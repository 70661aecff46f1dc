/** The core as the simulator runs it: queues updated in place, one stage after another. */
module CoreMachine {
  import opened CoreTypes
  import opened CoreRegisters
  import opened CorePipeline
  import Mem = CoreMemory
  import opened Seqs
  import opened Wrappers

  /** `std::find_if` for an identifier. */
  method IndexOf(list: seq<nat>, id: nat) returns (k: nat)
    ensures k <= |list| && (k < |list| <==> id in list)
    ensures k < |list| ==> list[k] == id && EraseFirst(list, id) == list[..k] + list[k + 1..]
  {
    k := 0;
    while k < |list| && list[k] != id
      invariant k <= |list|
      invariant forall j :: 0 <= j < k ==> list[j] != id
    {
      k := k + 1;
    }
    if k < |list| {
      EraseFirstAt(list, id, k);
    }
  }

  lemma {:induction false} EraseFirstAt(list: seq<nat>, id: nat, k: nat)
    requires k < |list| && list[k] == id && forall j :: 0 <= j < k ==> list[j] != id
    ensures EraseFirst(list, id) == list[..k] + list[k + 1..]
  {
    if k > 0 {
      EraseFirstAt(list[1..], id, k - 1);
      assert list[..k] + list[k + 1..] == [list[0]] + (list[1..][..k - 1] + list[1..][k..]);
    }
  }

  /** `std::max_element` over the store queue with the forwarding comparison. */
  method MaxElement(sq: seq<StoreEntry>, address: nat) returns (k: nat)
    requires sq != []
    ensures k < |sq| && k == Mem.MaxScan(sq, address, 0, 1)
    ensures (exists j :: 0 <= j < |sq| && sq[j].address == address) ==> Mem.YoungestStore(sq, |sq|, address, k)
  {
    k := 0;
    var i := 1;
    while i < |sq|
      invariant k < i <= |sq|
      invariant Mem.MaxScan(sq, address, k, i) == Mem.MaxScan(sq, address, 0, 1)
    {
      if Mem.ForwardLess(sq[k], sq[i], address) {
        k := i;
      }
      i := i + 1;
    }
    Mem.MaxScanPicks(sq, address, 0, 1);
  }

  /** Erase a completing instruction from the producer list of each destination: it is always found. */
  method EraseProducer(producers: seq<seq<nat>>, ds: seq<Reg>, id: nat, ghost rob: seq<Instr>, ghost i: nat)
    returns (r: seq<seq<nat>>)
    requires |producers| == NUM_REGS && Sorted(rob) && i < |rob| && Active(rob[i]) && id == rob[i].id
    requires ProducersExact(Regs(rob, producers)) && ds == rob[i].destinations
    ensures r == RemoveProducers(producers, ds, id)
  {
    r := producers;
    var j := 0;
    assert WithDest(rob, i, ds[0..]) == rob;
    assert ds[0..] == ds;
    assert Registered(r, rob, i, ds[0..]);
    hide Registered;
    hide ProducersExact;
    hide Sorted;
    hide WithDest;
    while j < |ds|
      invariant j <= |ds| && |r| == NUM_REGS
      invariant Registered(r, rob, i, ds[j..])
      invariant RemoveProducers(r, ds[j..], id) == RemoveProducers(producers, ds, id)
    {
      var d := ds[j];
      assert ds[j..] == [d] + ds[j + 1..];
      EraseRegistered(r, rob, i, d, ds[j + 1..]);
      var elem := IndexOf(r[d], id);
      assert elem != |r[d]|;
      r := r[d := r[d][..elem] + r[d][elem + 1..]];
      j := j + 1;
    }
  }

  lemma EraseRegistered(producers: seq<seq<nat>>, rob: seq<Instr>, i: nat, d: Reg, ds: seq<Reg>)
    requires |producers| == NUM_REGS && Sorted(rob) && i < |rob| && Active(rob[i])
    requires Registered(producers, rob, i, [d] + ds)
    ensures rob[i].id in producers[d]
    ensures Registered(producers[d := EraseFirst(producers[d], rob[i].id)], rob, i, ds)
  {
    var after := producers[d := EraseFirst(producers[d], rob[i].id)];
    RemoveOneProducer(rob, i, d, ds, d);
    forall r: Reg
      ensures after[r] == Writers(WithDest(rob, i, ds), r)
    {
      RemoveOneProducer(rob, i, d, ds, r);
    }
  }

  /** Release one dependent: it is in the buffer, and its count does not become negative. */
  method ReleaseDependent(rob: seq<Instr>, d: nat) returns (r: seq<Instr>)
    requires ReleasableOne(rob, d)
    ensures r == Release(rob, d)
  {
    var k := Find(rob, d);
    assert k < |rob| && rob[k].id == d;
    r := rob[k := rob[k].(numRegDependent := rob[k].numRegDependent - 1)];
    assert r[k].numRegDependent >= 0;
    if r[k].numRegDependent == 0 {
      r := r[k := r[k].(scheduled := true)];
    }
  }

  method ReleaseDependents(done: seq<Instr>, ids: seq<nat>) returns (r: seq<Instr>)
    requires Releasable(done, ids)
    ensures r == ReleaseAll(done, ids)
  {
    r := done;
    var j := 0;
    assert ids[0..] == ids;
    while j < |ids|
      invariant j <= |ids| && Releasable(r, ids[j..])
      invariant ReleaseAll(r, ids[j..]) == ReleaseAll(done, ids)
    {
      ReleaseFirst(r, ids[j..]);
      assert ids[j..][1..] == ids[j + 1..];
      r := ReleaseDependent(r, ids[j]);
      j := j + 1;
    }
  }

  /** Distinct, live, scheduled instructions that wait for at least one producer. */
  ghost predicate Releasable(rob: seq<Instr>, ids: seq<nat>) {
    && Sorted(rob) && Distinct(ids)
    && forall d :: d in ids ==> ReleasableOne(rob, d)
  }

  ghost predicate ReleasableOne(rob: seq<Instr>, d: nat) {
    Live(rob, d) && rob[Find(rob, d)].scheduled && rob[Find(rob, d)].numRegDependent > 0
  }

  lemma ReleaseFirst(rob: seq<Instr>, ids: seq<nat>)
    requires Releasable(rob, ids) && ids != []
    ensures ReleasableOne(rob, ids[0])
    ensures Releasable(Release(rob, ids[0]), ids[1..])
  {
    assert ids[0] in ids;
    var r := Release(rob, ids[0]);
    forall d | d in ids[1..]
      ensures ReleasableOne(r, d)
    {
      assert d in ids && d != ids[0];
      assert ReleasableOne(rob, d);
      FindSame(rob, r, d);
    }
  }

  lemma DependentsReleasable(s: Regs, i: nat)
    requires RegInv(s) && i < |s.rob| && s.rob[i].executed == Inflight
    ensures Releasable(s.rob[i := s.rob[i].(executed := Completed)], s.rob[i].dependents)
  {
    var done := s.rob[i := s.rob[i].(executed := Completed)];
    forall d | d in s.rob[i].dependents
      ensures ReleasableOne(done, d)
    {
      assert EdgeOk(s.rob, i, d, |s.rob|);
      FindSame(s.rob, done, d);
      StartedNotListed(s.rob, i, Find(s.rob, d));
    }
  }

  /** `get_span_p`: the completed instructions at the front, at most `width` of them. */
  method RetireSpan(rob: seq<Instr>, width: nat) returns (n: nat)
    ensures n <= |rob| && n <= width
    ensures forall k :: 0 <= k < n ==> rob[k].executed == Completed
    ensures n < |rob| && n < width ==> rob[n].executed != Completed
  {
    n := 0;
    while n < |rob| && n < width && rob[n].executed == Completed
      invariant n <= |rob| && n <= width
      invariant forall k :: 0 <= k < n ==> rob[k].executed == Completed
    {
      n := n + 1;
    }
  }

  /** Erasing the whole span at once is retiring its instructions one by one. */
  lemma {:induction false} RetireAll(s: State, bw: nat, n: nat)
    requires n <= |s.rob| && n <= bw
    requires forall k :: 0 <= k < n ==> s.rob[k].executed == Completed
    requires n < |s.rob| && n < bw ==> s.rob[n].executed != Completed
    ensures Retire(s, bw) == s.(retired := s.retired + s.rob[..n], rob := s.rob[n..])
    decreases n
  {
    if n == 0 {
      assert s.retired + s.rob[..0] == s.retired;
    } else {
      var t := s.(retired := s.retired + [s.rob[0]], rob := s.rob[1..]);
      RetireAll(t, bw - 1, n - 1);
      assert s.retired + s.rob[..n] == t.retired + t.rob[..n - 1];
    }
  }

  /** Mark one register source of the oldest unscheduled instruction; the producer found is live. */
  method WaitForSource(rob: seq<Instr>, producers: seq<seq<nat>>, i: nat, s: Reg) returns (r: seq<Instr>)
    requires |producers| == NUM_REGS && ProducersExact(Regs(rob, producers)) && OldestUnscheduled(rob, i) && Sorted(rob)
    requires LastMarked(rob, rob[i].id)
    ensures r == MarkSource(rob, producers, i, s)
  {
    r := rob;
    if producers[s] != [] {
      MarkSourceEffect(Regs(rob, producers), i, s);
      var prior := Find(rob, Last(producers[s]));
      assert prior < i;
      if rob[prior].dependents == [] || Last(rob[prior].dependents) != rob[i].id {
        r := r[prior := r[prior].(dependents := r[prior].dependents + [rob[i].id])];
        r := r[i := r[i].(numRegDependent := r[i].numRegDependent + 1)];
      }
    }
  }

  lemma MarkingAllows(s: Regs, i: nat, n: nat)
    requires MarkInv(s, i, n)
    ensures ProducersExact(s) && OldestUnscheduled(s.rob, i) && Sorted(s.rob) && LastMarked(s.rob, s.rob[i].id)
  {
  }

  method WaitForSources(rob: seq<Instr>, producers: seq<seq<nat>>, i: nat) returns (r: seq<Instr>)
    requires i < |rob| && |producers| == NUM_REGS && MarkInv(Regs(rob, producers), i, 0)
    ensures r == MarkSources(rob, producers, i, |rob[i].sources|)
  {
    hide MarkInv;
    hide ProducersExact;
    hide OldestUnscheduled;
    hide Sorted;
    hide LastMarked;
    hide MarkSource;
    ghost var s := Regs(rob, producers);
    r := rob;
    var j := 0;
    while j < |rob[i].sources|
      invariant j <= |rob[i].sources| && r == Marked(s, i, j).rob
    {
      MarkSourcesKeeps(s, i, j);
      MarkedStep(s, i, j);
      MarkingAllows(Marked(s, i, j), i, j);
      r := WaitForSource(r, producers, i, rob[i].sources[j]);
      j := j + 1;
    }
  }

  /** Insert an instruction into the producer list of each destination. */
  method Register(producers: seq<seq<nat>>, ds: seq<Reg>, id: nat) returns (r: seq<seq<nat>>)
    requires |producers| == NUM_REGS
    ensures r == AddProducers(producers, ds, id)
  {
    r := producers;
    var j := 0;
    while j < |ds|
      invariant j <= |ds| && r == AddProducers(producers, ds[..j], id)
    {
      var d := ds[j];
      var ins := LowerBound(r[d], id);
      r := r[d := r[d][..ins] + [id] + r[d][ins..]];
      assert ds[..j + 1][..j] == ds[..j];
      j := j + 1;
    }
    assert ds[..|ds|] == ds;
  }

  /** Wait for the producers of the sources, then become the producer of the destinations. */
  method ScheduleRegisters(rob: seq<Instr>, producers: seq<seq<nat>>, i: nat, ready: nat)
    returns (r: seq<Instr>, p: seq<seq<nat>>)
    requires i < |rob| && MarkInv(Regs(rob, producers), i, 0)
    ensures Regs(r, p) == Schedule(Regs(rob, producers), i, ready)
  {
    r := WaitForSources(rob, producers, i);
    p := Register(producers, rob[i].destinations, rob[i].id);
    r := r[i := r[i].(scheduled := true, eventCycle := ready)];
  }

  /** `LSQ_ENTRY::finish`: the instruction is found and never has more finished operations than it issued. */
  method FinishEntry(rob: seq<Instr>, id: nat) returns (r: seq<Instr>)
    requires Live(rob, id)
    requires var k := Find(rob, id); rob[k].completedMemOps < rob[k].NumMemOps()
    ensures r == Mem.Finish(rob, id)
  {
    var k := Find(rob, id);
    assert k != |rob|;
    assert rob[k].id == id;
    r := rob[k := rob[k].(completedMemOps := rob[k].completedMemOps + 1)];
    assert r[k].completedMemOps <= r[k].NumMemOps();
  }

  /** Release the loads waiting for a finished store: each slot is still taken and waits for that store. */
  method FinishWaiters(rob: seq<Instr>, lq: seq<Option<LoadEntry>>, waiters: seq<nat>, ghost sq: seq<StoreEntry>,
                       owner: nat)
    returns (r: seq<Instr>, l: seq<Option<LoadEntry>>)
    requires Mem.MemInv(Mem.Mem(rob, lq, sq), 0, owner, waiters)
    ensures Mem.Mem(r, l, sq) == Mem.ReleaseSlots(Mem.Mem(rob, lq, sq), waiters)
  {
    r, l := rob, lq;
    var j := 0;
    assert waiters[0..] == waiters;
    while j < |waiters|
      invariant j <= |waiters| && Mem.MemInv(Mem.Mem(r, l, sq), 0, owner, waiters[j..])
      invariant Mem.ReleaseSlots(Mem.Mem(r, l, sq), waiters[j..]) == Mem.ReleaseSlots(Mem.Mem(rob, lq, sq), waiters)
    {
      assert waiters[j..][1..] == waiters[j + 1..];
      Mem.ReleaseNextKeeps(Mem.Mem(r, l, sq), owner, waiters[j..]);
      r, l := FinishWaiter(r, l, waiters[j], sq, owner, waiters[j..]);
      j := j + 1;
    }
  }

  method FinishWaiter(rob: seq<Instr>, lq: seq<Option<LoadEntry>>, q: nat, ghost sq: seq<StoreEntry>, owner: nat,
                      ghost rel: seq<nat>)
    returns (r: seq<Instr>, l: seq<Option<LoadEntry>>)
    requires rel != [] && rel[0] == q && Mem.MemInv(Mem.Mem(rob, lq, sq), 0, owner, rel)
    ensures Mem.Mem(r, l, sq) == Mem.ReleaseSlot(Mem.Mem(rob, lq, sq), q)
  {
    Mem.ReleaseNextKeeps(Mem.Mem(rob, lq, sq), owner, rel);
    assert lq[q].Some?;
    assert lq[q].value.producer == Some(owner);
    Mem.ReleaseSlotConserves(Mem.Mem(rob, lq, sq), q);
    r := FinishEntry(rob, lq[q].value.id);
    l := lq[q := None];
  }

  /** `do_finish_store`: the store finishes, then every load waiting for it. */
  method FinishStoreAndWaiters(rob: seq<Instr>, lq: seq<Option<LoadEntry>>, sq: seq<StoreEntry>, k: nat,
                               ghost cycle: nat)
    returns (r: seq<Instr>, l: seq<Option<LoadEntry>>)
    requires Mem.MemInv(Mem.Mem(rob, lq, sq), 0, 0, []) && k < |sq| && !sq[k].fetchIssued
    requires forall j :: 0 <= j < k ==> sq[j].fetchIssued
    ensures Mem.Mem(r, l, sq[k := sq[k].(fetchIssued := true, eventCycle := cycle)])
      == Mem.FinishStore(Mem.Mem(rob, lq, sq), k, cycle)
  {
    ghost var m := Mem.Mem(rob, lq, sq);
    Mem.IssueStoreKeeps(m, k, cycle);
    r := FinishEntry(rob, sq[k].id);
    r, l := FinishWaiters(r, lq, sq[k].waiters, Mem.IssueStore(m, k, cycle).sq, sq[k].id);
  }

  /** `get_span_p` over the store queue: how many retired, due stores can be written this cycle. */
  method DrainSpan(rob: seq<Instr>, sq: seq<StoreEntry>, cycle: nat, bw: nat) returns (n: nat)
    ensures n <= |sq| && n <= bw
    ensures forall k :: 0 <= k < n ==> (rob == [] || sq[k].id < rob[0].id) && sq[k].eventCycle <= cycle
    ensures n < |sq| && n < bw ==> !((rob == [] || sq[n].id < rob[0].id) && sq[n].eventCycle <= cycle)
  {
    n := 0;
    while n < |sq| && n < bw && (rob == [] || sq[n].id < rob[0].id) && sq[n].eventCycle <= cycle
      invariant n <= |sq| && n <= bw
      invariant forall k :: 0 <= k < n ==> (rob == [] || sq[k].id < rob[0].id) && sq[k].eventCycle <= cycle
    {
      n := n + 1;
    }
  }

  lemma {:induction false} DrainAll(s: State, bw: nat, n: nat)
    requires n <= |s.sq| && n <= bw
    requires forall k :: 0 <= k < n ==> (s.rob == [] || s.sq[k].id < s.rob[0].id) && s.sq[k].eventCycle <= s.cycle
    requires n < |s.sq| && n < bw ==> !((s.rob == [] || s.sq[n].id < s.rob[0].id) && s.sq[n].eventCycle <= s.cycle)
    ensures DrainStores(s, bw) == s.(sq := s.sq[n..])
    decreases n
  {
    if n > 0 {
      DrainAll(s.(sq := s.sq[1..]), bw - 1, n - 1);
      assert s.sq[1..][n - 1..] == s.sq[n..];
    } else {
      assert s.sq[0..] == s.sq;
    }
  }

  lemma {:induction false} ArriveAll(s: State, xs: seq<Instr>)
    ensures Arrive(s, xs) == s.(buffer := s.buffer + xs, nextId := if xs == [] then s.nextId else Last(xs).id + 1)
    decreases |xs|
  {
    if xs == [] {
      assert s.buffer + xs == s.buffer;
    } else {
      ArriveAll(s.(buffer := s.buffer + [xs[0]], nextId := xs[0].id + 1), xs[1..]);
      assert s.buffer + [xs[0]] + xs[1..] == s.buffer + xs;
    }
  }

  /** One load of the instruction at the back of the buffer: a free slot exists, and a store it waits for is older. */
  method AddLoad(rob: seq<Instr>, lq: seq<Option<LoadEntry>>, sq: seq<StoreEntry>, address: nat)
    returns (r: seq<Instr>, l: seq<Option<LoadEntry>>, s: seq<StoreEntry>)
    requires rob != [] && Count(lq, Mem.IsFree()) > 0 && Mem.StoresBelow(sq, Last(rob).id)
    ensures Mem.Mem(r, l, s) == Mem.AddLoad(Mem.Mem(rob, lq, sq), address)
  {
    r, l, s := rob, lq, sq;
    Mem.FreeSlotExists(lq);
    var slot := Mem.FreeSlot(lq);
    assert slot != |lq|;
    var id := Last(rob).id;
    l := l[slot := Some(LoadEntry(id, address, 0, false, None))];
    if sq != [] {
      var k := MaxElement(sq, address);
      if sq[k].address == address {
        if sq[k].fetchIssued {
          l := l[slot := None];
          r := r[|r| - 1 := Last(r).(completedMemOps := Last(r).completedMemOps + 1)];
          assert l == lq;
        } else {
          assert sq[k].id < id;
          s := s[k := s[k].(waiters := s[k].waiters + [slot])];
          l := l[slot := Some(l[slot].value.(producer := Some(sq[k].id)))];
        }
      }
    }
  }

  method DoMemoryScheduling(rob: seq<Instr>, lq: seq<Option<LoadEntry>>, sq: seq<StoreEntry>, x: Instr)
    returns (r: seq<Instr>, l: seq<Option<LoadEntry>>, s: seq<StoreEntry>)
    requires Count(lq, Mem.IsFree()) >= |x.loads| && Mem.StoresBelow(sq, x.id)
    ensures Mem.Mem(r, l, s) == Mem.Dispatch(Mem.Mem(rob, lq, sq), x)
  {
    r, l, s := rob + [x], lq, sq;
    r, l, s := AddLoads(r, l, s, x.loads);
    var j := 0;
    ghost var target := Mem.AddStores(Mem.Mem(r, l, s), x.stores);
    assert x.stores[0..] == x.stores;
    while j < |x.stores|
      invariant j <= |x.stores| && Mem.AddStores(Mem.Mem(r, l, s), x.stores[j..]) == target
    {
      assert x.stores[j..][1..] == x.stores[j + 1..];
      s := s + [StoreEntry(x.id, x.stores[j], 0, false, [])];
      j := j + 1;
    }
  }

  method AddLoads(rob: seq<Instr>, lq: seq<Option<LoadEntry>>, sq: seq<StoreEntry>, addresses: seq<nat>)
    returns (r: seq<Instr>, l: seq<Option<LoadEntry>>, s: seq<StoreEntry>)
    requires rob != [] && Count(lq, Mem.IsFree()) >= |addresses| && Mem.StoresBelow(sq, Last(rob).id)
    ensures Mem.Mem(r, l, s) == Mem.AddLoads(Mem.Mem(rob, lq, sq), addresses)
    ensures r != [] && Last(r).id == Last(rob).id
  {
    r, l, s := rob, lq, sq;
    var j := 0;
    assert addresses[0..] == addresses;
    while j < |addresses|
      invariant j <= |addresses| && r != [] && Last(r).id == Last(rob).id
      invariant Count(l, Mem.IsFree()) >= |addresses| - j && Mem.StoresBelow(s, Last(r).id)
      invariant Mem.AddLoads(Mem.Mem(r, l, s), addresses[j..]) == Mem.AddLoads(Mem.Mem(rob, lq, sq), addresses)
    {
      assert addresses[j..][1..] == addresses[j + 1..];
      Mem.FreeSlotExists(l);
      Mem.AddLoadFree(Mem.Mem(r, l, s), addresses[j]);
      r, l, s := AddLoad(r, l, s, addresses[j]);
      j := j + 1;
    }
  }

  lemma SchedulingBegins(c: Config, s: State, i: nat)
    requires Inv(c, s) && i < |s.rob| && !s.rob[i].scheduled && forall k :: 0 <= k < i ==> s.rob[k].scheduled
    ensures MarkInv(RegsOf(s), i, 0)
  {
    MarkBegins(RegsOf(s), i);
  }

  lemma DispatchIsYoungest(c: Config, s: State)
    requires Inv(c, s) && s.buffer != []
    ensures Mem.StoresBelow(s.sq, s.buffer[0].id)
  {
  }

  class O3Cpu {
    const config: Config
    ghost var retired: seq<Instr>
    ghost var nextId: nat
    var numRetired: nat
    var rob: seq<Instr>
    var dispatchBuffer: seq<Instr>
    var regProducers: seq<seq<nat>>
    var lq: seq<Option<LoadEntry>>
    var sq: seq<StoreEntry>
    var processed: seq<nat>
    var currentCycle: nat
    var warmup: bool

    ghost function View(): State
      reads this
    {
      State(retired, rob, dispatchBuffer, nextId, regProducers, lq, sq, processed, currentCycle, warmup)
    }

    ghost predicate Valid()
      reads this
    {
      Inv(config, View()) && numRetired == |retired| && |regProducers| == NUM_REGS
    }

    constructor (c: Config)
      ensures config == c && Valid()
      ensures View() == State([], [], [], 0, seq(NUM_REGS, _ => []), seq(c.lqSize, _ => None), [], [], 0, true)
    {
      config := c;
      retired, nextId, numRetired := [], 0, 0;
      rob, dispatchBuffer, sq, processed := [], [], [], [];
      regProducers := seq(NUM_REGS, _ => []);
      lq := seq(c.lqSize, _ => None);
      currentCycle, warmup := 0, true;
      new;
      assert RegInv(RegsOf(View()));
      assert Mem.MemInv(MemOf(View()), 0, 0, []);
    }

    ghost function Given(): Given
      reads this
    {
      GivenOf(View())
    }

    // ---------------------------------------------------------------- retire

    method RetireRob()
      requires Valid()
      modifies this
      ensures Valid() && View() == Retire(old(View()), config.retireWidth)
    {
      ghost var v := View();
      var n := RetireSpan(rob, config.retireWidth);
      RetireSafe(config, v, config.retireWidth, GivenOf(v));
      RetireAll(v, config.retireWidth, n);
      retired := retired + rob[..n];
      numRetired := numRetired + n;
      rob := rob[n..];
    }

    // ---------------------------------------------------------------- complete

    method CompleteInflightInstruction()
      requires Valid()
      modifies this
      ensures Valid() && View() == CompleteFrom(old(View()), 0, config.execWidth)
    {
      hide Inv;
      var completeBw, i := config.execWidth, 0;
      ghost var target := CompleteFrom(View(), 0, completeBw);
      while i < |rob| && completeBw > 0
        invariant Valid() && i <= |rob| && CompleteFrom(View(), i, completeBw) == target
        decreases |rob| - i
      {
        if rob[i].executed == Inflight && rob[i].eventCycle <= currentCycle
           && rob[i].completedMemOps == rob[i].NumMemOps() {
          DoCompleteExecution(i);
          completeBw := completeBw - 1;
        }
        i := i + 1;
      }
    }

    method DoCompleteExecution(i: nat)
      requires Valid() && i < |rob| && CanComplete(View(), i)
      modifies this
      ensures Valid() && View() == WithRegs(old(View()), Complete(RegsOf(old(View())), i))
    {
      ghost var v := View();
      CompleteOne(config, v, i, GivenOf(v));
      DependentsReleasable(RegsOf(v), i);
      regProducers := EraseProducer(regProducers, rob[i].destinations, rob[i].id, v.rob, i);
      var ids := rob[i].dependents;
      rob := rob[i := rob[i].(executed := Completed)];
      rob := ReleaseDependents(rob, ids);
    }

    // ---------------------------------------------------------------- execute

    method ExecuteInstruction()
      requires Valid()
      modifies this
      ensures Valid() && View() == ExecuteFrom(config, old(View()), 0, config.execWidth)
    {
      hide Inv;
      var execBw, i := config.execWidth, 0;
      ghost var target := ExecuteFrom(config, View(), 0, execBw);
      while i < |rob| && execBw > 0
        invariant Valid() && i <= |rob| && ExecuteFrom(config, View(), i, execBw) == target
        decreases |rob| - i
      {
        if rob[i].scheduled && rob[i].executed == Idle && rob[i].numRegDependent == 0
           && rob[i].eventCycle <= currentCycle {
          assert CanStart(View(), i);
          DoExecution(i);
          execBw := execBw - 1;
        }
        i := i + 1;
      }
    }

    method DoExecution(i: nat)
      requires Valid() && i < |rob| && CanStart(View(), i)
      modifies this
      ensures Valid() && View() == Execute(config, old(View()), i)
    {
      ghost var v := View();
      StartExecution(i);
      ExecuteOne(config, v, i, GivenOf(v));
    }

    method StartExecution(i: nat)
      requires i < |rob|
      modifies this
      ensures View() == Execute(config, old(View()), i) && numRetired == old(numRetired)
    {
      var ready := currentCycle + if warmup then 0 else config.execLatency;
      var id := rob[i].id;
      rob := rob[i := rob[i].(executed := Inflight, eventCycle := ready)];
      MarkLoadsReady(id, ready);
      MarkStoresReady(id, ready);
    }

    method MarkLoadsReady(id: nat, ready: nat)
      modifies this
      ensures View() == ReadyLoads(old(View()), id, ready, 0) && numRetired == old(numRetired)
    {
      var q := 0;
      ghost var target := ReadyLoads(View(), id, ready, 0);
      while q < |lq|
        invariant q <= |lq| && ReadyLoads(View(), id, ready, q) == target && numRetired == old(numRetired)
        decreases |lq| - q
      {
        if lq[q].Some? && lq[q].value.id == id {
          lq := lq[q := Some(lq[q].value.(eventCycle := ready))];
        }
        q := q + 1;
      }
    }

    method MarkStoresReady(id: nat, ready: nat)
      modifies this
      ensures View() == ReadyStores(old(View()), id, ready, 0) && numRetired == old(numRetired)
    {
      var k := 0;
      ghost var target := ReadyStores(View(), id, ready, 0);
      while k < |sq|
        invariant k <= |sq| && ReadyStores(View(), id, ready, k) == target && numRetired == old(numRetired)
        decreases |sq| - k
      {
        if sq[k].id == id {
          sq := sq[k := sq[k].(eventCycle := ready)];
        }
        k := k + 1;
      }
    }

    // ---------------------------------------------------------------- schedule

    method ScheduleInstruction()
      requires Valid()
      modifies this
      ensures Valid() && View() == ScheduleFrom(config, old(View()), 0, config.schedulerSize)
    {
      hide Inv;
      var searchBw, i := config.schedulerSize, 0;
      ghost var target := ScheduleFrom(config, View(), 0, searchBw);
      while i < |rob| && searchBw > 0
        invariant Valid() && i <= |rob| && ScheduleFrom(config, View(), i, searchBw) == target
        invariant ScheduledBelow(rob, i)
        decreases |rob| - i
      {
        ScheduleSlot(i);
        if rob[i].executed == Idle {
          searchBw := searchBw - 1;
        }
        i := i + 1;
      }
    }

    ghost predicate ScheduledBelow(rob: seq<Instr>, i: nat)
      requires i <= |rob|
    {
      forall k :: 0 <= k < i ==> rob[k].scheduled
    }

    method ScheduleSlot(i: nat)
      requires Valid() && i < |rob| && ScheduledBelow(rob, i)
      modifies this
      ensures Valid() && View() == ScheduleOne(config, old(View()), i) && ScheduledBelow(rob, i + 1)
    {
      ScheduleStep(config, View(), i, GivenOf(View()));
      if !rob[i].scheduled {
        DoScheduling(i);
      }
    }

    method DoScheduling(i: nat)
      requires Valid() && i < |rob| && !rob[i].scheduled && ScheduledBelow(rob, i)
      modifies this
      ensures Valid() && View() == ScheduleOne(config, old(View()), i)
    {
      hide Inv, MarkInv;
      ScheduleStep(config, View(), i, GivenOf(View()));
      SchedulingBegins(config, View(), i);
      var ready := currentCycle + if warmup then 0 else config.schedulingLatency;
      rob, regProducers := ScheduleRegisters(rob, regProducers, i, ready);
    }

    // ---------------------------------------------------------------- memory returns

    method HandleMemoryReturn()
      requires Valid()
      modifies this
      ensures Valid() && View() == MemoryReturn(config, old(View()), config.l1dBandwidth)
    {
      hide Inv, ReturnBlock;
      var l1dBw := config.l1dBandwidth;
      ghost var target := MemoryReturn(config, View(), l1dBw);
      while l1dBw > 0 && processed != []
        invariant Valid() && MemoryReturn(config, View(), l1dBw) == target
        decreases l1dBw
      {
        FinishReturned(processed[0]);
        PopProcessed(config, View(), processed[1..], GivenOf(View()));
        processed := processed[1..];
        l1dBw := l1dBw - 1;
      }
    }

    method FinishReturned(address: nat)
      requires Valid()
      modifies this
      ensures Valid() && View() == ReturnBlock(config, old(View()), address, 0)
    {
      hide Inv;
      var q := 0;
      ghost var target := ReturnBlock(config, View(), address, 0);
      while q < |lq|
        invariant Valid() && q <= |lq| && ReturnBlock(config, View(), address, q) == target
        decreases |lq| - q
      {
        if lq[q].Some? && lq[q].value.fetchIssued
           && lq[q].value.address / config.blockSize == address / config.blockSize {
          assert ReturnsTo(config, View(), q, address);
          ReturnOne(q, address);
        }
        q := q + 1;
      }
    }

    method ReturnOne(q: nat, ghost address: nat)
      requires Valid() && q < |lq| && ReturnsTo(config, View(), q, address)
      modifies this
      ensures Valid() && View() == WithMem(old(View()), Mem.ReleaseSlot(MemOf(old(View())), q))
    {
      ghost var v := View();
      Mem.ReleaseSlotConserves(MemOf(v), q);
      CorePipeline.ReturnOne(config, v, q, GivenOf(v));
      rob := FinishEntry(rob, lq[q].value.id);
      lq := lq[q := None];
    }

    // ---------------------------------------------------------------- load and store queues

    method OperateLsq(ghost e: Environment, writesAccepted: nat, readAccepted: nat -> bool)
      requires Valid() && e.writesAccepted == writesAccepted && e.readAccepted == readAccepted
      modifies this
      ensures Valid() && View() == CorePipeline.OperateLsq(config, old(View()), e)
    {
      hide Inv;
      var storeBw := config.sqWidth;
      var finished := FinishReadyStores();
      storeBw := storeBw - finished;
      DrainRetiredStores(if storeBw <= writesAccepted then storeBw else writesAccepted);
      IssueReadyLoads(readAccepted);
    }

    /** Finish the stores that are due, in order; returns how many. */
    method FinishReadyStores() returns (n: nat)
      requires Valid()
      modifies this
      ensures Valid() && View() == FinishReady(config, old(View())) && n == ReadyStoresCount(config, old(View()))
    {
      var k := FirstPending(sq);
      n := ReadySpan(sq, k, config.sqWidth, currentCycle);
      FinishSpan(k, n);
    }

    method FinishSpan(k: nat, n: nat)
      requires Valid() && k + n <= |sq| && SplitAt(sq, k, k + n)
      modifies this
      ensures Valid() && View() == FinishStores(old(View()), k, n)
    {
      hide Inv, Mem.FinishStore;
      ghost var target := FinishStores(View(), k, n);
      var i := 0;
      while i < n
        invariant Valid() && i <= n && k + n <= |sq| && SplitAt(sq, k + i, k + n)
        invariant FinishStores(View(), k + i, n - i) == target
      {
        DoFinishStore(k + i);
        i := i + 1;
      }
    }

    ghost predicate SplitAt(sq: seq<StoreEntry>, k: nat, end: nat)
      requires k <= end <= |sq|
    {
      && (forall j :: 0 <= j < k ==> sq[j].fetchIssued)
      && (forall j :: k <= j < end ==> !sq[j].fetchIssued)
    }

    method DoFinishStore(k: nat)
      requires Valid() && k < |sq| && !sq[k].fetchIssued && forall j :: 0 <= j < k ==> sq[j].fetchIssued
      modifies this
      ensures Valid() && View() == WithMem(old(View()), Mem.FinishStore(MemOf(old(View())), k, currentCycle))
      ensures sq == old(sq)[k := old(sq)[k].(fetchIssued := true, eventCycle := currentCycle)]
    {
      FinishOne(config, View(), k, GivenOf(View()));
      rob, lq := FinishStoreAndWaiters(rob, lq, sq, k, currentCycle);
      sq := sq[k := sq[k].(fetchIssued := true, eventCycle := currentCycle)];
    }

    /** Erase the retired stores the data cache accepts, oldest first. */
    method DrainRetiredStores(bw: nat)
      requires Valid()
      modifies this
      ensures Valid() && View() == DrainStores(old(View()), bw)
    {
      ghost var v := View();
      var n := DrainSpan(rob, sq, currentCycle, bw);
      DrainSafe(config, v, bw, GivenOf(v));
      DrainAll(v, bw, n);
      sq := sq[n..];
    }

    method IssueReadyLoads(readAccepted: nat -> bool)
      requires Valid()
      modifies this
      ensures Valid() && View() == IssueLoads(old(View()), 0, config.lqWidth, readAccepted)
    {
      hide Inv;
      var loadBw, q := config.lqWidth, 0;
      ghost var target := IssueLoads(View(), 0, loadBw, readAccepted);
      while q < |lq|
        invariant Valid() && q <= |lq| && IssueLoads(View(), q, loadBw, readAccepted) == target
        decreases |lq| - q
      {
        if loadBw > 0 && lq[q].Some? && lq[q].value.producer.None? && !lq[q].value.fetchIssued
           && lq[q].value.eventCycle < currentCycle {
          var success := readAccepted(q);
          if success {
            IssueLoad(q);
            loadBw := loadBw - 1;
          }
        }
        q := q + 1;
      }
    }

    method IssueLoad(q: nat)
      requires Valid() && q < |lq| && CanIssue(View(), q)
      modifies this
      ensures Valid()
      ensures View() == old(View()).(lq := old(lq)[q := Some(old(lq)[q].value.(fetchIssued := true))])
    {
      IssueOne(config, View(), q, GivenOf(View()));
      lq := lq[q := Some(lq[q].value.(fetchIssued := true))];
    }

    // ---------------------------------------------------------------- dispatch

    method DispatchInstruction()
      requires Valid()
      modifies this
      ensures Valid() && View() == CorePipeline.Dispatch(config, old(View()), config.dispatchWidth)
    {
      hide Inv;
      var availableBandwidth := config.dispatchWidth;
      ghost var target := CorePipeline.Dispatch(config, View(), availableBandwidth);
      while availableBandwidth > 0 && dispatchBuffer != [] && dispatchBuffer[0].eventCycle < currentCycle
            && |rob| != config.robSize && Count(lq, Mem.IsFree()) >= |dispatchBuffer[0].loads|
            && |dispatchBuffer[0].stores| + |sq| <= config.sqSize
        invariant Valid() && CorePipeline.Dispatch(config, View(), availableBandwidth) == target
        decreases availableBandwidth
      {
        DispatchFront();
        availableBandwidth := availableBandwidth - 1;
      }
    }

    method DispatchFront()
      requires Valid() && CanDispatch(config, View())
      modifies this
      ensures Valid()
      ensures View() == WithMem(old(View()), Mem.Dispatch(MemOf(old(View())), old(dispatchBuffer)[0]))
                          .(buffer := old(dispatchBuffer)[1..])
    {
      hide Inv;
      DispatchOne(config, View(), GivenOf(View()));
      DispatchIsYoungest(config, View());
      rob, lq, sq := DoMemoryScheduling(rob, lq, sq, dispatchBuffer[0]);
      dispatchBuffer := dispatchBuffer[1..];
    }

    /** Decoded instructions join the dispatch buffer. */
    method DecodeInstruction(arrivals: seq<Instr>)
      requires Valid() && FreshArrivals(arrivals, nextId)
      modifies this
      ensures Valid() && View() == Arrive(old(View()), arrivals)
    {
      ghost var v := View();
      ArriveSafe(config, v, arrivals, GivenOf(v));
      ArriveAll(v, arrivals);
      dispatchBuffer := dispatchBuffer + arrivals;
      nextId := if arrivals == [] then nextId else Last(arrivals).id + 1;
    }

    /** One clock cycle of the core. */
    method Operate(e: Environment)
      requires Valid() && FreshArrivals(e.arrivals, nextId)
      modifies this
      ensures Valid() && View() == Cycle(config, old(View()), e)
    {
      hide Inv, Front, Back, Arrive;
      ClockSafe(config, View(), e, GivenOf(View()));
      warmup := e.warmup;
      processed := processed + e.returned;
      OperateFront();
      OperateBack(e);
      DecodeInstruction(e.arrivals);
      ClockSafe(config, View(), e, GivenOf(View()));
      currentCycle := currentCycle + 1;
    }

    method OperateFront()
      requires Valid()
      modifies this
      ensures Valid() && View() == Front(config, old(View())) && nextId == old(nextId)
    {
      hide Inv;
      FrontSafe(config, View(), GivenOf(View()));
      RetireRob();
      CompleteInflightInstruction();
      ExecuteInstruction();
      ScheduleInstruction();
    }

    method OperateBack(e: Environment)
      requires Valid()
      modifies this
      ensures Valid() && View() == Back(config, old(View()), e) && nextId == old(nextId)
    {
      hide Inv;
      BackSafe(config, View(), e, GivenOf(View()));
      HandleMemoryReturn();
      OperateLsq(e, e.writesAccepted, e.readAccepted);
      DispatchInstruction();
    }
  }
}
