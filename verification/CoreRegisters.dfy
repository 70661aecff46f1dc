/**
 * Register dependencies of the out-of-order core: who produces each register, who waits for whom,
 * and why an instruction that starts executing has all its inputs.
 */
module CoreRegisters {
  import opened CoreTypes
  import opened Seqs

  function Last<T>(s: seq<T>): T
    requires s != []
  {
    s[|s| - 1]
  }

  // ---------------------------------------------------------------- producer lists

  /** One copy of `id` for every occurrence of `r` in a destination list. */
  function Copies(ds: seq<Reg>, r: Reg, id: nat): (c: seq<nat>)
    ensures forall x :: x in c ==> x == id
    ensures c != [] <==> r in ds
  {
    if ds == [] then [] else (if ds[0] == r then [id] else []) + Copies(ds[1..], r, id)
  }

  predicate Active(x: Instr) { x.scheduled && x.executed != Completed }

  function Contribution(x: Instr, r: Reg): seq<nat> {
    if Active(x) then Copies(x.destinations, r, x.id) else []
  }

  /** What a producer list should hold: the scheduled, uncompleted writers in program order. */
  function Writers(rob: seq<Instr>, r: Reg): seq<nat> {
    if rob == [] then [] else Contribution(rob[0], r) + Writers(rob[1..], r)
  }

  /** `std::lower_bound` on a producer list. */
  function LowerBound(list: seq<nat>, id: nat): (k: nat)
    ensures k <= |list|
    ensures forall j :: 0 <= j < k ==> list[j] < id
    ensures k < |list| ==> id <= list[k]
  {
    if list == [] || id <= list[0] then 0 else 1 + LowerBound(list[1..], id)
  }

  function InsertSorted(list: seq<nat>, id: nat): seq<nat> {
    var k := LowerBound(list, id);
    list[..k] + [id] + list[k..]
  }

  function EraseFirst(list: seq<nat>, id: nat): seq<nat> {
    if list == [] then [] else if list[0] == id then list[1..] else [list[0]] + EraseFirst(list[1..], id)
  }

  // ---------------------------------------------------------------- steps

  /** One source register of `rob[i]`: wait for the youngest registered producer, once. */
  function MarkSource(rob: seq<Instr>, producers: seq<seq<nat>>, i: nat, s: Reg): (r: seq<Instr>)
    requires i < |rob| && |producers| == NUM_REGS
    ensures |r| == |rob|
  {
    if producers[s] == [] then rob
    else
      var id := rob[i].id;
      var p := Find(rob, Last(producers[s]));
      if p < |rob| && (rob[p].dependents == [] || Last(rob[p].dependents) != id) then
        var marked := rob[p := rob[p].(dependents := rob[p].dependents + [id])];
        marked[i := marked[i].(numRegDependent := marked[i].numRegDependent + 1)]
      else rob
  }

  /** The first `n` source registers of `rob[i]`, in order. */
  function MarkSources(rob: seq<Instr>, producers: seq<seq<nat>>, i: nat, n: nat): (r: seq<Instr>)
    requires i < |rob| && |producers| == NUM_REGS && n <= |rob[i].sources|
    ensures |r| == |rob|
  {
    if n == 0 then rob
    else MarkSource(MarkSources(rob, producers, i, n - 1), producers, i, rob[i].sources[n - 1])
  }

  function AddProducers(producers: seq<seq<nat>>, ds: seq<Reg>, id: nat): (r: seq<seq<nat>>)
    requires |producers| == NUM_REGS
    ensures |r| == NUM_REGS
  {
    if ds == [] then producers
    else
      var before := AddProducers(producers, ds[..|ds| - 1], id);
      before[Last(ds) := InsertSorted(before[Last(ds)], id)]
  }

  function RemoveProducers(producers: seq<seq<nat>>, ds: seq<Reg>, id: nat): (r: seq<seq<nat>>)
    requires |producers| == NUM_REGS
    ensures |r| == NUM_REGS
    decreases |ds|
  {
    if ds == [] then producers
    else RemoveProducers(producers[ds[0] := EraseFirst(producers[ds[0]], id)], ds[1..], id)
  }

  /** Release one dependent: it waits for one producer fewer. */
  function Release(rob: seq<Instr>, id: nat): (r: seq<Instr>)
    ensures |r| == |rob|
  {
    var k := Find(rob, id);
    if k < |rob| && rob[k].id == id then
      rob[k := rob[k].(numRegDependent := rob[k].numRegDependent - 1,
                       scheduled := rob[k].scheduled || rob[k].numRegDependent - 1 == 0)]
    else rob
  }

  function ReleaseAll(rob: seq<Instr>, ids: seq<nat>): (r: seq<Instr>)
    ensures |r| == |rob|
    decreases |ids|
  {
    if ids == [] then rob else ReleaseAll(Release(rob, ids[0]), ids[1..])
  }

  datatype Regs = Regs(rob: seq<Instr>, producers: seq<seq<nat>>)

  function Schedule(s: Regs, i: nat, ready: nat): (r: Regs)
    requires i < |s.rob| && |s.producers| == NUM_REGS
    ensures |r.rob| == |s.rob| && |r.producers| == NUM_REGS
  {
    var marked := MarkSources(s.rob, s.producers, i, |s.rob[i].sources|);
    Regs(marked[i := marked[i].(scheduled := true, eventCycle := ready)],
         AddProducers(s.producers, s.rob[i].destinations, s.rob[i].id))
  }

  function Start(s: Regs, i: nat, ready: nat): (r: Regs)
    requires i < |s.rob|
    ensures |r.rob| == |s.rob| && r.producers == s.producers
  {
    s.(rob := s.rob[i := s.rob[i].(executed := Inflight, eventCycle := ready)])
  }

  function Complete(s: Regs, i: nat): (r: Regs)
    requires i < |s.rob| && |s.producers| == NUM_REGS
    ensures |r.rob| == |s.rob| && |r.producers| == NUM_REGS
  {
    var x := s.rob[i];
    Regs(ReleaseAll(s.rob[i := x.(executed := Completed)], x.dependents),
         RemoveProducers(s.producers, x.destinations, x.id))
  }

  // ---------------------------------------------------------------- invariant

  predicate Lists(x: Instr, id: nat) { x.executed != Completed && id in x.dependents }

  function ListsId(id: nat): Instr -> bool { (x: Instr) => Lists(x, id) }

  ghost predicate SchedPrefix(rob: seq<Instr>) {
    forall i, j :: 0 <= i < j < |rob| && rob[j].scheduled ==> rob[i].scheduled
  }

  ghost predicate ProducersExact(s: Regs)
    requires |s.producers| == NUM_REGS
  {
    forall r: Reg :: s.producers[r] == Writers(s.rob, r)
  }

  /** Every dependence edge leads from an uncompleted instruction to a younger, live one. */
  ghost predicate EdgeOk(rob: seq<Instr>, p: nat, d: nat, current: nat) {
    var q := Find(rob, d);
    p < q < |rob| && rob[q].id == d && (rob[q].scheduled || q == current)
  }

  ghost predicate Edges(rob: seq<Instr>, current: nat) {
    forall p :: 0 <= p < |rob| && rob[p].executed != Completed ==>
      Distinct(rob[p].dependents) && forall d :: d in rob[p].dependents ==> EdgeOk(rob, p, d, current)
  }

  ghost predicate CountsExact(rob: seq<Instr>) {
    forall i :: 0 <= i < |rob| ==> rob[i].numRegDependent == Count(rob, ListsId(rob[i].id))
  }

  /** `w` is the youngest instruction older than `rob[i]` that writes `s`. */
  ghost predicate YoungestWriter(rob: seq<Instr>, i: int, s: Reg, w: int) {
    0 <= w < i < |rob| && s in rob[w].destinations && forall k :: w < k < i ==> s !in rob[k].destinations
  }

  /** The first `n` sources of `rob[i]` are covered: their youngest writer is done or will release it. */
  ghost predicate Covered(rob: seq<Instr>, i: nat, n: nat)
    requires i < |rob| && n <= |rob[i].sources|
  {
    forall k, w :: 0 <= k < n && YoungestWriter(rob, i, rob[i].sources[k], w) ==>
      rob[w].executed == Completed || rob[i].id in rob[w].dependents
  }

  ghost predicate AllCovered(rob: seq<Instr>) {
    forall i :: 0 <= i < |rob| && rob[i].scheduled ==> Covered(rob, i, |rob[i].sources|)
  }

  ghost predicate Stages(rob: seq<Instr>) {
    forall i :: 0 <= i < |rob| ==>
      && (rob[i].executed != Idle ==> rob[i].scheduled && rob[i].numRegDependent == 0)
      && (!rob[i].scheduled ==> rob[i].executed == Idle && rob[i].dependents == [])
  }

  ghost predicate RegInv(s: Regs) {
    && |s.producers| == NUM_REGS
    && Sorted(s.rob)
    && SchedPrefix(s.rob)
    && ProducersExact(s)
    && Edges(s.rob, |s.rob|)
    && CountsExact(s.rob)
    && AllCovered(s.rob)
    && Stages(s.rob)
  }

  // ---------------------------------------------------------------- writers

  lemma {:induction false} WritersConcat(a: seq<Instr>, b: seq<Instr>, r: Reg)
    ensures Writers(a + b, r) == Writers(a, r) + Writers(b, r)
  {
    if a == [] {
      assert a + b == b;
    } else {
      assert (a + b)[1..] == a[1..] + b;
      WritersConcat(a[1..], b, r);
    }
  }

  lemma WritersSplit(rob: seq<Instr>, i: nat, r: Reg)
    requires i < |rob|
    ensures Writers(rob, r) == Writers(rob[..i], r) + (Contribution(rob[i], r) + Writers(rob[i + 1..], r))
  {
    assert rob == rob[..i] + rob[i..];
    WritersConcat(rob[..i], rob[i..], r);
    assert rob[i..][1..] == rob[i + 1..];
  }

  ghost predicate SameWriter(x: Instr, y: Instr) {
    x.id == y.id && x.destinations == y.destinations && x.scheduled == y.scheduled && x.executed == y.executed
  }

  lemma {:induction false} WritersSame(a: seq<Instr>, b: seq<Instr>, r: Reg)
    requires |a| == |b|
    requires forall k :: 0 <= k < |a| ==> SameWriter(a[k], b[k])
    ensures Writers(a, r) == Writers(b, r)
  {
    if a != [] {
      assert SameWriter(a[0], b[0]);
      WritersSame(a[1..], b[1..], r);
    }
  }

  lemma {:induction false} WritersNone(rob: seq<Instr>, r: Reg)
    ensures Writers(rob, r) == [] <==> forall k :: 0 <= k < |rob| ==> !(Active(rob[k]) && r in rob[k].destinations)
  {
    if rob != [] {
      WritersNone(rob[1..], r);
      if forall k :: 0 <= k < |rob[1..]| ==> !(Active(rob[1..][k]) && r in rob[1..][k].destinations) {
        forall k | 1 <= k < |rob|
          ensures !(Active(rob[k]) && r in rob[k].destinations)
        {
          assert rob[k] == rob[1..][k - 1];
        }
      } else {
        var k :| 0 <= k < |rob[1..]| && Active(rob[1..][k]) && r in rob[1..][k].destinations;
        assert rob[k + 1] == rob[1..][k];
      }
    }
  }

  /** The identifiers in a producer list belong to instructions of the buffer. */
  lemma {:induction false} WritersLive(rob: seq<Instr>, r: Reg, id: nat)
    requires id in Writers(rob, r)
    ensures exists k :: 0 <= k < |rob| && rob[k].id == id && Active(rob[k]) && r in rob[k].destinations
  {
    if id in Contribution(rob[0], r) {
      assert rob[0].id == id;
    } else {
      WritersLive(rob[1..], r, id);
      var k :| 0 <= k < |rob[1..]| && rob[1..][k].id == id && Active(rob[1..][k]) && r in rob[1..][k].destinations;
      assert rob[k + 1] == rob[1..][k];
    }
  }

  /** The back of a producer list is the youngest registered writer. */
  lemma {:induction false} LastWriter(rob: seq<Instr>, r: Reg) returns (p: nat)
    requires Writers(rob, r) != []
    ensures p < |rob| && rob[p].id == Last(Writers(rob, r)) && Active(rob[p]) && r in rob[p].destinations
    ensures forall k :: p < k < |rob| ==> !(Active(rob[k]) && r in rob[k].destinations)
  {
    var n := |rob| - 1;
    assert rob == rob[..n] + [rob[n]];
    WritersConcat(rob[..n], [rob[n]], r);
    assert Writers([rob[n]], r) == Contribution(rob[n], r) + Writers([], r);
    if Contribution(rob[n], r) != [] {
      p := n;
      assert Last(Writers(rob, r)) in Contribution(rob[n], r);
    } else {
      assert Writers(rob, r) == Writers(rob[..n], r);
      p := LastWriter(rob[..n], r);
      forall k | p < k < |rob|
        ensures !(Active(rob[k]) && r in rob[k].destinations)
      {
        if k < n {
          assert rob[k] == rob[..n][k];
        }
      }
    }
  }

  lemma {:induction false} CopiesAppend(ds: seq<Reg>, d: Reg, r: Reg, id: nat)
    ensures Copies(ds + [d], r, id) == Copies(ds, r, id) + if d == r then [id] else []
  {
    if ds == [] {
      assert ds + [d] == [d];
    } else {
      assert (ds + [d])[1..] == ds[1..] + [d] && (ds + [d])[0] == ds[0];
      CopiesAppend(ds[1..], d, r, id);
      var head, tail := if ds[0] == r then [id] else [], if d == r then [id] else [];
      assert head + (Copies(ds[1..], r, id) + tail) == head + Copies(ds[1..], r, id) + tail;
    }
  }

  // ---------------------------------------------------------------- scheduling: producers

  /** Inserting the youngest identifier keeps the list sorted by putting it at the end. */
  lemma InsertYoungest(list: seq<nat>, id: nat)
    requires forall x :: x in list ==> x <= id
    requires forall i, j :: 0 <= i < j < |list| ==> list[i] <= list[j]
    ensures InsertSorted(list, id) == list + [id]
  {
    var k := LowerBound(list, id);
    forall j | k <= j < |list|
      ensures list[j] == id
    {
      assert list[j] in list;
    }
  }

  lemma {:induction false} WritersSorted(rob: seq<Instr>, r: Reg)
    requires Sorted(rob)
    ensures forall i, j :: 0 <= i < j < |Writers(rob, r)| ==> Writers(rob, r)[i] <= Writers(rob, r)[j]
  {
    if rob != [] {
      WritersSorted(rob[1..], r);
      var a, b := Contribution(rob[0], r), Writers(rob[1..], r);
      forall x | x in b
        ensures rob[0].id <= x
      {
        WritersLive(rob[1..], r, x);
      }
      forall i, j | 0 <= i < j < |a + b|
        ensures (a + b)[i] <= (a + b)[j]
      {
        if j < |a| {
          assert a[i] in a && a[j] in a;
        } else if i < |a| {
          assert a[i] in a && b[j - |a|] in b;
        }
      }
    }
  }

  ghost predicate OldestUnscheduled(rob: seq<Instr>, i: nat) {
    && i < |rob|
    && (forall k :: 0 <= k < i ==> rob[k].scheduled)
    && (forall k :: i <= k < |rob| ==> !rob[k].scheduled)
  }

  /** `rob` with instruction `i` registered as a producer of `ds` only. */
  function WithDest(rob: seq<Instr>, i: nat, ds: seq<Reg>): seq<Instr>
    requires i < |rob|
  {
    rob[i := rob[i].(scheduled := true, destinations := ds)]
  }

  lemma WritersWithDest(rob: seq<Instr>, i: nat, ds: seq<Reg>, r: Reg)
    requires OldestUnscheduled(rob, i) && rob[i].executed != Completed
    ensures Writers(WithDest(rob, i, ds), r) == Writers(rob[..i], r) + Copies(ds, r, rob[i].id)
  {
    var with := WithDest(rob, i, ds);
    WritersSplit(with, i, r);
    assert with[..i] == rob[..i] && with[i + 1..] == rob[i + 1..];
    WritersNone(rob[i + 1..], r);
  }

  lemma AddOneProducer(rob: seq<Instr>, i: nat, ds: seq<Reg>, d: Reg)
    requires Sorted(rob) && OldestUnscheduled(rob, i) && rob[i].executed != Completed
    ensures InsertSorted(Writers(WithDest(rob, i, ds), d), rob[i].id) == Writers(WithDest(rob, i, ds + [d]), d)
    ensures forall r: Reg :: r != d ==> Writers(WithDest(rob, i, ds), r) == Writers(WithDest(rob, i, ds + [d]), r)
  {
    var with, id := WithDest(rob, i, ds), rob[i].id;
    forall r: Reg
      ensures Writers(WithDest(rob, i, ds + [d]), r) == Writers(with, r) + if d == r then [id] else []
    {
      WritersWithDest(rob, i, ds, r);
      WritersWithDest(rob, i, ds + [d], r);
      CopiesAppend(ds, d, r, id);
    }
    WritersSorted(with, d);
    forall x | x in Writers(with, d)
      ensures x <= id
    {
      WritersLive(with, d, x);
    }
    InsertYoungest(Writers(with, d), id);
  }

  /** The producer lists while instruction `i` is registered for `ds` only. */
  ghost predicate Registered(producers: seq<seq<nat>>, rob: seq<Instr>, i: nat, ds: seq<Reg>)
    requires |producers| == NUM_REGS && i < |rob|
  {
    forall r: Reg :: producers[r] == Writers(WithDest(rob, i, ds), r)
  }

  lemma RegisteredForNone(s: Regs, i: nat)
    requires |s.producers| == NUM_REGS && ProducersExact(s)
    requires OldestUnscheduled(s.rob, i) && s.rob[i].executed != Completed
    ensures Registered(s.producers, s.rob, i, [])
  {
    forall r: Reg
      ensures s.producers[r] == Writers(WithDest(s.rob, i, []), r)
    {
      WritersWithDest(s.rob, i, [], r);
      WritersSplit(s.rob, i, r);
      WritersNone(s.rob[i + 1..], r);
    }
  }

  lemma {:induction false} AddProducersExact(s: Regs, i: nat, ds: seq<Reg>)
    requires |s.producers| == NUM_REGS && Sorted(s.rob) && OldestUnscheduled(s.rob, i) && s.rob[i].executed != Completed
    requires Registered(s.producers, s.rob, i, [])
    ensures Registered(AddProducers(s.producers, ds, s.rob[i].id), s.rob, i, ds)
    decreases |ds|
  {
    hide Writers, WithDest, InsertSorted;
    if ds != [] {
      var init := ds[..|ds| - 1];
      AddProducersExact(s, i, init);
      AddOneProducer(s.rob, i, init, Last(ds));
      assert ds == init + [Last(ds)];
    }
  }

  // ---------------------------------------------------------------- scheduling: sources

  /** While the sources of the oldest unscheduled instruction are marked, `n` of them so far. */
  ghost predicate MarkInv(s: Regs, i: nat, n: nat) {
    && |s.producers| == NUM_REGS
    && Sorted(s.rob)
    && OldestUnscheduled(s.rob, i)
    && ProducersExact(s)
    && Edges(s.rob, i)
    && CountsExact(s.rob)
    && AllCovered(s.rob)
    && Stages(s.rob)
    && n <= |s.rob[i].sources|
    && Covered(s.rob, i, n)
    && LastMarked(s.rob, s.rob[i].id)
  }

  /** An instruction being scheduled can only be the newest dependent of its producers. */
  ghost predicate LastMarked(rob: seq<Instr>, id: nat) {
    forall p :: 0 <= p < |rob| && Lists(rob[p], id) ==> Last(rob[p].dependents) == id
  }

  /** The effect of one successful marking: an edge from `p` to `i`. */
  function AddEdge(rob: seq<Instr>, p: nat, i: nat): (r: seq<Instr>)
    requires p < i < |rob|
  {
    rob[p := rob[p].(dependents := rob[p].dependents + [rob[i].id])]
       [i := rob[i].(numRegDependent := rob[i].numRegDependent + 1)]
  }

  lemma AddEdgeEdges(rob: seq<Instr>, p: nat, i: nat)
    requires p < i < |rob| && Sorted(rob) && Edges(rob, i)
    requires rob[i].id !in rob[p].dependents
    ensures Edges(AddEdge(rob, p, i), i)
  {
    var r := AddEdge(rob, p, i);
    forall k | 0 <= k < |r| && r[k].executed != Completed
      ensures Distinct(r[k].dependents) && forall d :: d in r[k].dependents ==> EdgeOk(r, k, d, i)
    {
      forall d | d in r[k].dependents
        ensures EdgeOk(r, k, d, i)
      {
        FindSame(rob, r, d);
        if d in rob[k].dependents {
          assert EdgeOk(rob, k, d, i);
        } else {
          FindIndex(rob, i);
        }
      }
    }
  }

  lemma AddEdgeCounts(rob: seq<Instr>, p: nat, i: nat)
    requires p < i < |rob| && Sorted(rob) && CountsExact(rob)
    requires rob[p].executed != Completed && rob[i].id !in rob[p].dependents
    ensures CountsExact(AddEdge(rob, p, i))
  {
    var r := AddEdge(rob, p, i);
    var mid := rob[p := r[p]];
    forall j | 0 <= j < |r|
      ensures r[j].numRegDependent == Count(r, ListsId(r[j].id))
    {
      var f := ListsId(r[j].id);
      CountUpdate(rob, p, r[p], f);
      CountUpdate(mid, i, r[i], f);
      assert r == mid[i := r[i]];
      assert f(mid[i]) == f(r[i]);
      assert j != i ==> r[j].id != r[i].id;
    }
  }

  lemma AddEdgeCovered(rob: seq<Instr>, p: nat, i: nat, j: nat, n: nat)
    requires p < i < |rob| && j < |rob| && n <= |rob[j].sources|
    requires Covered(rob, j, n)
    ensures Covered(AddEdge(rob, p, i), j, n)
  {
    var r := AddEdge(rob, p, i);
    forall k, w | 0 <= k < n && YoungestWriter(r, j, r[j].sources[k], w)
      ensures r[w].executed == Completed || r[j].id in r[w].dependents
    {
      assert forall m :: 0 <= m < |rob| ==> r[m].destinations == rob[m].destinations;
      assert YoungestWriter(rob, j, rob[j].sources[k], w);
    }
  }

  /** Adding an edge leaves everything but the two endpoints' bookkeeping alone. */
  lemma AddEdgeFrame(rob: seq<Instr>, p: nat, i: nat)
    requires p < i < |rob|
    ensures OnlyEdges(rob, AddEdge(rob, p, i))
    ensures OldestUnscheduled(rob, i) && Stages(rob) && rob[p].executed != Completed ==> Stages(AddEdge(rob, p, i))
    ensures LastMarked(rob, rob[i].id) ==> LastMarked(AddEdge(rob, p, i), rob[i].id)
  {
  }

  /** Nothing but edges and wait counts differs. */
  ghost predicate OnlyEdges(a: seq<Instr>, b: seq<Instr>) {
    |a| == |b| && forall k :: 0 <= k < |a| ==>
      b[k] == a[k].(dependents := b[k].dependents, numRegDependent := b[k].numRegDependent)
  }

  lemma OnlyEdgesFrame(a: seq<Instr>, b: seq<Instr>, i: nat)
    requires OnlyEdges(a, b)
    ensures SameIds(a, b)
    ensures Sorted(a) ==> Sorted(b)
    ensures OldestUnscheduled(a, i) ==> OldestUnscheduled(b, i)
    ensures forall r: Reg :: Writers(a, r) == Writers(b, r)
  {
    forall r: Reg
      ensures Writers(a, r) == Writers(b, r)
    {
      WritersSame(a, b, r);
    }
  }

  lemma AddEdgeAllCovered(rob: seq<Instr>, p: nat, i: nat)
    requires p < i < |rob| && AllCovered(rob)
    ensures AllCovered(AddEdge(rob, p, i))
  {
    var r := AddEdge(rob, p, i);
    forall j | 0 <= j < |r| && r[j].scheduled
      ensures Covered(r, j, |r[j].sources|)
    {
      AddEdgeCovered(rob, p, i, j, |rob[j].sources|);
    }
  }

  lemma AddEdgeKeeps(s: Regs, p: nat, i: nat, n: nat)
    requires MarkInv(s, i, n) && p < i
    requires s.rob[p].executed != Completed && s.rob[i].id !in s.rob[p].dependents
    ensures MarkInv(s.(rob := AddEdge(s.rob, p, i)), i, n)
  {
    AddEdgeFrame(s.rob, p, i);
    OnlyEdgesFrame(s.rob, AddEdge(s.rob, p, i), i);
    AddEdgeEdges(s.rob, p, i);
    AddEdgeCounts(s.rob, p, i);
    AddEdgeAllCovered(s.rob, p, i);
    AddEdgeCovered(s.rob, p, i, i, n);
  }

  /** The youngest older writer of a source is done, or it is the back of the producer list. */
  lemma YoungestIsBack(s: Regs, i: nat, g: Reg, w: nat)
    requires |s.producers| == NUM_REGS && ProducersExact(s) && OldestUnscheduled(s.rob, i) && Sorted(s.rob)
    requires YoungestWriter(s.rob, i, g, w) && s.rob[w].executed != Completed
    ensures s.producers[g] != [] && Find(s.rob, Last(s.producers[g])) == w
  {
    assert Active(s.rob[w]);
    WritersNone(s.rob, g);
    var p := LastWriter(s.rob, g);
    FindIndex(s.rob, p);
  }

  /** Marking a source either adds the edge from the back of its producer list, or it is there already. */
  lemma MarkSourceEffect(s: Regs, i: nat, g: Reg)
    requires |s.producers| == NUM_REGS && ProducersExact(s) && OldestUnscheduled(s.rob, i) && Sorted(s.rob)
    requires LastMarked(s.rob, s.rob[i].id)
    ensures var r := MarkSource(s.rob, s.producers, i, g);
      if s.producers[g] == [] then r == s.rob
      else
        var p := Find(s.rob, Last(s.producers[g]));
        && p < i
        && s.rob[p].executed != Completed
        && r == (if s.rob[i].id in s.rob[p].dependents then s.rob else AddEdge(s.rob, p, i))
  {
    if s.producers[g] != [] {
      var p := LastWriter(s.rob, g);
      FindIndex(s.rob, p);
      assert p < i;
      var id := s.rob[i].id;
      if id in s.rob[p].dependents {
        assert Lists(s.rob[p], id);
      }
    }
  }

  /** The back of the producer list of `g`, if any, will release `rob[i]`. */
  ghost predicate BackListed(s: Regs, i: nat, g: Reg)
    requires |s.producers| == NUM_REGS && i < |s.rob|
  {
    s.producers[g] != [] ==>
      (var p := Find(s.rob, Last(s.producers[g])); p < |s.rob| && s.rob[i].id in s.rob[p].dependents)
  }

  lemma MarkSourceCovers(s: Regs, i: nat, n: nat)
    requires |s.producers| == NUM_REGS && ProducersExact(s) && OldestUnscheduled(s.rob, i) && Sorted(s.rob)
    requires n < |s.rob[i].sources| && Covered(s.rob, i, n)
    requires BackListed(s, i, s.rob[i].sources[n])
    ensures Covered(s.rob, i, n + 1)
  {
    forall w | YoungestWriter(s.rob, i, s.rob[i].sources[n], w) && s.rob[w].executed != Completed
      ensures s.rob[i].id in s.rob[w].dependents
    {
      YoungestIsBack(s, i, s.rob[i].sources[n], w);
    }
  }

  lemma MarkSourceKeeps(s: Regs, i: nat, n: nat)
    requires MarkInv(s, i, n) && n < |s.rob[i].sources|
    ensures MarkInv(s.(rob := MarkSource(s.rob, s.producers, i, s.rob[i].sources[n])), i, n + 1)
  {
    var g := s.rob[i].sources[n];
    var r := MarkSource(s.rob, s.producers, i, g);
    MarkSourceEffect(s, i, g);
    if s.producers[g] != [] {
      var p := Find(s.rob, Last(s.producers[g]));
      if s.rob[i].id !in s.rob[p].dependents {
        AddEdgeFrame(s.rob, p, i);
        AddEdgeKeeps(s, p, i, n);
        FindSame(s.rob, r, Last(s.producers[g]));
      }
    }
    MarkSourceCovers(s.(rob := r), i, n);
  }

  lemma MarkSourceOnlyEdges(rob: seq<Instr>, producers: seq<seq<nat>>, i: nat, g: Reg)
    requires i < |rob| && |producers| == NUM_REGS
    ensures OnlyEdges(rob, MarkSource(rob, producers, i, g))
  {
  }

  lemma {:induction false} MarkSourcesOnlyEdges(rob: seq<Instr>, producers: seq<seq<nat>>, i: nat, n: nat)
    requires i < |rob| && |producers| == NUM_REGS && n <= |rob[i].sources|
    ensures OnlyEdges(rob, MarkSources(rob, producers, i, n))
  {
    if n > 0 {
      MarkSourcesOnlyEdges(rob, producers, i, n - 1);
      var r := MarkSources(rob, producers, i, n - 1);
      MarkSourceOnlyEdges(r, producers, i, rob[i].sources[n - 1]);
      OnlyEdgesTrans(rob, r, MarkSource(r, producers, i, rob[i].sources[n - 1]));
    }
  }

  lemma OnlyEdgesTrans(a: seq<Instr>, b: seq<Instr>, c: seq<Instr>)
    requires OnlyEdges(a, b) && OnlyEdges(b, c)
    ensures OnlyEdges(a, c)
  {
  }

  function Marked(s: Regs, i: nat, n: nat): Regs
    requires i < |s.rob| && |s.producers| == NUM_REGS && n <= |s.rob[i].sources|
  {
    s.(rob := MarkSources(s.rob, s.producers, i, n))
  }

  lemma MarkedStep(s: Regs, i: nat, n: nat)
    requires i < |s.rob| && |s.producers| == NUM_REGS && n < |s.rob[i].sources|
    ensures var t := Marked(s, i, n);
      && t.rob[i].sources == s.rob[i].sources
      && Marked(s, i, n + 1) == t.(rob := MarkSource(t.rob, t.producers, i, t.rob[i].sources[n]))
  {
    MarkSourcesOnlyEdges(s.rob, s.producers, i, n);
  }

  lemma {:induction false} MarkSourcesKeeps(s: Regs, i: nat, n: nat)
    requires i < |s.rob| && |s.producers| == NUM_REGS && n <= |s.rob[i].sources|
    requires MarkInv(s, i, 0)
    ensures MarkInv(Marked(s, i, n), i, n)
  {
    hide MarkInv;
    if n == 0 {
      assert Marked(s, i, 0) == s;
    } else {
      MarkSourcesKeeps(s, i, n - 1);
      MarkedStep(s, i, n - 1);
      MarkSourceKeeps(Marked(s, i, n - 1), i, n - 1);
    }
  }

  lemma NotListed(rob: seq<Instr>, p: nat, id: nat, current: nat)
    requires Edges(rob, current) && p < |rob| && !EdgeOk(rob, p, id, current)
    ensures !Lists(rob[p], id)
  {
  }

  /** Before it is scheduled nobody waits for an instruction, so its marking can begin. */
  lemma MarkBegins(s: Regs, i: nat)
    requires RegInv(s) && OldestUnscheduled(s.rob, i)
    ensures MarkInv(s, i, 0)
  {
    var id := s.rob[i].id;
    FindIndex(s.rob, i);
    forall p | 0 <= p < |s.rob|
      ensures !Lists(s.rob[p], id)
    {
      NotListed(s.rob, p, id, |s.rob|);
    }
    forall p, d | 0 <= p < |s.rob| && s.rob[p].executed != Completed && d in s.rob[p].dependents
      ensures EdgeOk(s.rob, p, d, i)
    {
      assert EdgeOk(s.rob, p, d, |s.rob|);
    }
  }

  /** Scheduling the oldest unscheduled instruction keeps every register invariant. */
  lemma ScheduleKeeps(s: Regs, i: nat, ready: nat)
    requires RegInv(s) && OldestUnscheduled(s.rob, i)
    ensures RegInv(Schedule(s, i, ready))
    ensures forall k :: 0 <= k <= i ==> Schedule(s, i, ready).rob[k].scheduled
  {
    MarkBegins(s, i);
    var n := |s.rob[i].sources|;
    MarkSourcesKeeps(s, i, n);
    MarkSourcesOnlyEdges(s.rob, s.producers, i, n);
    var m := Marked(s, i, n);
    FinishSchedule(m, i, ready);
    assert Schedule(s, i, ready) == SetScheduled(m, i, ready);
  }

  function SetScheduled(m: Regs, i: nat, ready: nat): (r: Regs)
    requires i < |m.rob| && |m.producers| == NUM_REGS
  {
    Regs(m.rob[i := m.rob[i].(scheduled := true, eventCycle := ready)],
         AddProducers(m.producers, m.rob[i].destinations, m.rob[i].id))
  }

  lemma FinishSchedule(m: Regs, i: nat, ready: nat)
    requires i < |m.rob| && MarkInv(m, i, |m.rob[i].sources|)
    ensures RegInv(SetScheduled(m, i, ready))
    ensures forall k :: 0 <= k <= i ==> SetScheduled(m, i, ready).rob[k].scheduled
  {
    var t := SetScheduled(m, i, ready);
    FinishProducers(m, i, ready);
    FinishEdges(m.rob, i, t.rob);
    FinishCovered(m.rob, i, t.rob);
  }

  lemma FinishProducers(m: Regs, i: nat, ready: nat)
    requires |m.producers| == NUM_REGS && ProducersExact(m) && Sorted(m.rob)
    requires OldestUnscheduled(m.rob, i) && Stages(m.rob)
    ensures ProducersExact(SetScheduled(m, i, ready))
  {
    var t := SetScheduled(m, i, ready);
    RegisteredForNone(m, i);
    AddProducersExact(m, i, m.rob[i].destinations);
    forall g: Reg
      ensures t.producers[g] == Writers(t.rob, g)
    {
      WritersSame(t.rob, WithDest(m.rob, i, m.rob[i].destinations), g);
    }
  }

  lemma FinishEdges(a: seq<Instr>, i: nat, b: seq<Instr>)
    requires i < |a| == |b| && Edges(a, i) && CountsExact(a)
    requires b == a[i := a[i].(scheduled := true, eventCycle := b[i].eventCycle)]
    ensures Edges(b, |b|) && CountsExact(b)
  {
    forall p, d | 0 <= p < |b| && b[p].executed != Completed && d in b[p].dependents
      ensures EdgeOk(b, p, d, |b|)
    {
      assert EdgeOk(a, p, d, i);
      FindSame(a, b, d);
    }
    forall j | 0 <= j < |b|
      ensures b[j].numRegDependent == Count(b, ListsId(b[j].id))
    {
      CountPointwise(a, b, ListsId(b[j].id), ListsId(b[j].id));
    }
  }

  lemma FinishCovered(a: seq<Instr>, i: nat, b: seq<Instr>)
    requires i < |a| == |b| && AllCovered(a) && Covered(a, i, |a[i].sources|)
    requires b == a[i := a[i].(scheduled := true, eventCycle := b[i].eventCycle)]
    ensures AllCovered(b)
  {
    forall j | 0 <= j < |b| && b[j].scheduled
      ensures Covered(b, j, |b[j].sources|)
    {
      CoveredSame(a, b, j, |a[j].sources|);
    }
  }

  /** Coverage only looks at sources, destinations, stages and edges. */
  lemma CoveredSame(a: seq<Instr>, b: seq<Instr>, j: nat, n: nat)
    requires |a| == |b| && j < |a| && n <= |a[j].sources| && a[j].sources == b[j].sources
    requires forall k :: 0 <= k < |a| ==>
      a[k].id == b[k].id && a[k].destinations == b[k].destinations && a[k].dependents == b[k].dependents
      && (a[k].executed == Completed ==> b[k].executed == Completed)
    requires Covered(a, j, n)
    ensures Covered(b, j, n)
  {
    forall k, w | 0 <= k < n && YoungestWriter(b, j, b[j].sources[k], w)
      ensures b[w].executed == Completed || b[j].id in b[w].dependents
    {
      assert YoungestWriter(a, j, a[j].sources[k], w);
    }
  }

  // ---------------------------------------------------------------- starting and completing

  lemma CountsPointwise(a: seq<Instr>, b: seq<Instr>)
    requires |a| == |b| && CountsExact(a)
    requires forall k :: 0 <= k < |a| ==>
      a[k].id == b[k].id && a[k].dependents == b[k].dependents
      && a[k].numRegDependent == b[k].numRegDependent && (a[k].executed == Completed <==> b[k].executed == Completed)
    ensures CountsExact(b)
  {
    forall j | 0 <= j < |b|
      ensures b[j].numRegDependent == Count(b, ListsId(b[j].id))
    {
      CountPointwise(a, b, ListsId(b[j].id), ListsId(b[j].id));
    }
  }

  lemma EdgesSame(a: seq<Instr>, b: seq<Instr>)
    requires SameIds(a, b) && Edges(a, |a|)
    requires forall k :: 0 <= k < |a| ==>
      a[k].dependents == b[k].dependents && (a[k].scheduled ==> b[k].scheduled)
      && (a[k].executed == Completed ==> b[k].executed == Completed)
    ensures Edges(b, |b|)
  {
    forall p, d | 0 <= p < |b| && b[p].executed != Completed && d in b[p].dependents
      ensures EdgeOk(b, p, d, |b|)
    {
      assert EdgeOk(a, p, d, |a|);
      FindSame(a, b, d);
    }
  }

  lemma AllCoveredSame(a: seq<Instr>, b: seq<Instr>)
    requires |a| == |b| && AllCovered(a)
    requires forall k :: 0 <= k < |a| ==>
      a[k].id == b[k].id && a[k].destinations == b[k].destinations && a[k].dependents == b[k].dependents
      && a[k].sources == b[k].sources && a[k].scheduled == b[k].scheduled
      && (a[k].executed == Completed ==> b[k].executed == Completed)
    ensures AllCovered(b)
  {
    forall j | 0 <= j < |b| && b[j].scheduled
      ensures Covered(b, j, |b[j].sources|)
    {
      CoveredSame(a, b, j, |a[j].sources|);
    }
  }

  /** The parts of an instruction that register tracking looks at, with `executed` up to Idle/Inflight. */
  ghost predicate SameRegs(x: Instr, y: Instr) {
    && x.id == y.id && x.sources == y.sources && x.destinations == y.destinations
    && x.scheduled == y.scheduled && x.dependents == y.dependents && x.numRegDependent == y.numRegDependent
    && (x.executed == Completed <==> y.executed == Completed)
  }

  lemma SameRegsKeep(s: Regs, b: seq<Instr>)
    requires RegInv(s) && |b| == |s.rob|
    requires forall k :: 0 <= k < |b| ==> SameRegs(s.rob[k], b[k])
    requires Stages(b)
    ensures RegInv(s.(rob := b))
  {
    var a := s.rob;
    assert SameIds(a, b);
    CountsPointwise(a, b);
    EdgesSame(a, b);
    AllCoveredSame(a, b);
    forall r: Reg
      ensures Writers(a, r) == Writers(b, r)
    {
      WritersActive(a, b, r);
    }
  }

  lemma {:induction false} WritersActive(a: seq<Instr>, b: seq<Instr>, r: Reg)
    requires |a| == |b|
    requires forall k :: 0 <= k < |a| ==> SameRegs(a[k], b[k])
    ensures Writers(a, r) == Writers(b, r)
  {
    if a != [] {
      assert SameRegs(a[0], b[0]);
      WritersActive(a[1..], b[1..], r);
    }
  }

  /** An instruction may start once it is scheduled and waits for nobody. */
  lemma StartKeeps(s: Regs, i: nat, ready: nat)
    requires RegInv(s) && i < |s.rob|
    requires s.rob[i].scheduled && s.rob[i].executed == Idle && s.rob[i].numRegDependent == 0
    ensures RegInv(Start(s, i, ready))
  {
    SameRegsKeep(s, Start(s, i, ready).rob);
  }

  lemma {:induction false} EraseInside(a: seq<nat>, id: nat, c: seq<nat>, b: seq<nat>)
    requires id !in a
    ensures EraseFirst(a + (([id] + c) + b), id) == a + (c + b)
  {
    if a == [] {
      assert [] + (([id] + c) + b) == [id] + (c + b);
      assert [] + (c + b) == c + b;
    } else {
      assert (a + (([id] + c) + b))[1..] == a[1..] + (([id] + c) + b);
      EraseInside(a[1..], id, c, b);
      assert [a[0]] + (a[1..] + (c + b)) == a + (c + b);
    }
  }

  lemma CopiesCons(d: Reg, ds: seq<Reg>, r: Reg, id: nat)
    ensures Copies([d] + ds, r, id) == if d == r then [id] + Copies(ds, r, id) else Copies(ds, r, id)
  {
    assert ([d] + ds)[1..] == ds;
  }

  lemma WritersAround(rob: seq<Instr>, i: nat, ds: seq<Reg>, r: Reg)
    requires i < |rob| && Active(rob[i])
    ensures Writers(WithDest(rob, i, ds), r)
      == Writers(rob[..i], r) + (Copies(ds, r, rob[i].id) + Writers(rob[i + 1..], r))
  {
    var one := WithDest(rob, i, ds);
    WritersSplit(one, i, r);
    assert one[..i] == rob[..i] && one[i + 1..] == rob[i + 1..];
  }

  lemma NotAmongOlder(rob: seq<Instr>, i: nat, r: Reg)
    requires Sorted(rob) && i < |rob|
    ensures rob[i].id !in Writers(rob[..i], r)
  {
    if rob[i].id in Writers(rob[..i], r) {
      WritersLive(rob[..i], r, rob[i].id);
    }
  }

  /** Erasing one copy of a completing producer is the same as it having one destination fewer. */
  lemma RemoveOneProducer(rob: seq<Instr>, i: nat, d: Reg, ds: seq<Reg>, r: Reg)
    requires Sorted(rob) && i < |rob| && Active(rob[i])
    ensures Writers(WithDest(rob, i, ds), r)
      == if r == d then EraseFirst(Writers(WithDest(rob, i, [d] + ds), r), rob[i].id)
         else Writers(WithDest(rob, i, [d] + ds), r)
    ensures rob[i].id in Writers(WithDest(rob, i, [d] + ds), d)
  {
    var id := rob[i].id;
    WritersAround(rob, i, [d] + ds, r);
    WritersAround(rob, i, ds, r);
    CopiesCons(d, ds, r, id);
    NotAmongOlder(rob, i, r);
    if r == d {
      EraseInside(Writers(rob[..i], d), id, Copies(ds, d, id), Writers(rob[i + 1..], d));
    }
    WritersAround(rob, i, [d] + ds, d);
    assert id in Copies([d] + ds, d, id);
  }

  lemma {:induction false} RemoveProducersExact(producers: seq<seq<nat>>, rob: seq<Instr>, i: nat, ds: seq<Reg>)
    requires |producers| == NUM_REGS && Sorted(rob) && i < |rob| && Active(rob[i])
    requires forall r: Reg :: producers[r] == Writers(WithDest(rob, i, ds), r)
    ensures forall r: Reg :: RemoveProducers(producers, ds, rob[i].id)[r] == Writers(WithDest(rob, i, []), r)
    decreases |ds|
  {
    if ds != [] {
      assert ds == [ds[0]] + ds[1..];
      forall r: Reg
        ensures producers[ds[0] := EraseFirst(producers[ds[0]], rob[i].id)][r] == Writers(WithDest(rob, i, ds[1..]), r)
      {
        RemoveOneProducer(rob, i, ds[0], ds[1..], r);
      }
      RemoveProducersExact(producers[ds[0] := EraseFirst(producers[ds[0]], rob[i].id)], rob, i, ds[1..]);
    }
  }

  lemma CompleteProducers(s: Regs, i: nat)
    requires |s.producers| == NUM_REGS && Sorted(s.rob) && i < |s.rob| && Active(s.rob[i]) && ProducersExact(s)
    ensures forall r: Reg ::
      RemoveProducers(s.producers, s.rob[i].destinations, s.rob[i].id)[r]
      == Writers(s.rob[i := s.rob[i].(executed := Completed)], r)
  {
    var x := s.rob[i];
    assert WithDest(s.rob, i, x.destinations) == s.rob;
    RemoveProducersExact(s.producers, s.rob, i, x.destinations);
    var done, none := s.rob[i := x.(executed := Completed)], WithDest(s.rob, i, []);
    forall r: Reg
      ensures Writers(done, r) == Writers(none, r)
    {
      WritersSplit(done, i, r);
      WritersSplit(none, i, r);
      assert done[..i] == none[..i] && done[i + 1..] == none[i + 1..];
    }
  }

  function Lowered(x: Instr, ids: seq<nat>): Instr {
    x.(numRegDependent := x.numRegDependent - if x.id in ids then 1 else 0)
  }

  lemma ReleaseEffect(rob: seq<Instr>, id: nat)
    requires Sorted(rob) && Live(rob, id) && rob[Find(rob, id)].scheduled
    ensures forall k :: 0 <= k < |rob| ==> Release(rob, id)[k] == Lowered(rob[k], [id])
  {
    forall k | 0 <= k < |rob|
      ensures rob[k].id == id <==> k == Find(rob, id)
    {
      FindIndex(rob, k);
    }
  }

  lemma LoweredSplit(x: Instr, ids: seq<nat>)
    requires ids != [] && Distinct(ids)
    ensures Lowered(Lowered(x, [ids[0]]), ids[1..]) == Lowered(x, ids)
  {
    assert ids == [ids[0]] + ids[1..];
  }

  lemma ReleaseKeepsLive(rob: seq<Instr>, ids: seq<nat>)
    requires ids != [] && Sorted(rob)
    requires forall d :: d in ids ==> Live(rob, d) && rob[Find(rob, d)].scheduled
    ensures var r := Release(rob, ids[0]);
      Sorted(r) && forall d :: d in ids[1..] ==> Live(r, d) && r[Find(r, d)].scheduled
  {
    var r := Release(rob, ids[0]);
    forall d | d in ids[1..]
      ensures Live(r, d) && r[Find(r, d)].scheduled
    {
      assert d in ids;
      FindSame(rob, r, d);
    }
  }

  /** Releasing distinct, live, scheduled dependents lowers exactly their wait counts by one. */
  lemma {:induction false} ReleaseAllEffect(rob: seq<Instr>, ids: seq<nat>)
    requires Sorted(rob) && Distinct(ids)
    requires forall d :: d in ids ==> Live(rob, d) && rob[Find(rob, d)].scheduled
    ensures forall k :: 0 <= k < |rob| ==> ReleaseAll(rob, ids)[k] == Lowered(rob[k], ids)
    decreases |ids|
  {
    if ids != [] {
      var r := Release(rob, ids[0]);
      assert ids[0] in ids;
      ReleaseEffect(rob, ids[0]);
      ReleaseKeepsLive(rob, ids);
      ReleaseAllEffect(r, ids[1..]);
      forall k | 0 <= k < |rob|
        ensures ReleaseAll(rob, ids)[k] == Lowered(rob[k], ids)
      {
        LoweredSplit(rob[k], ids);
        assert ReleaseAll(rob, ids)[k] == Lowered(r[k], ids[1..]);
      }
    }
  }

  /** What completion does to the buffer: `i` is done, and each of its dependents waits for one fewer. */
  lemma CompleteEffect(s: Regs, i: nat)
    requires RegInv(s) && i < |s.rob| && s.rob[i].executed == Inflight
    ensures var r := Complete(s, i).rob;
      && r[i] == s.rob[i].(executed := Completed)
      && forall k :: 0 <= k < |r| && k != i ==> r[k] == Lowered(s.rob[k], s.rob[i].dependents)
  {
    var done := s.rob[i := s.rob[i].(executed := Completed)];
    var ds := s.rob[i].dependents;
    assert Sorted(done) by {
      assert forall k :: 0 <= k < |done| ==> done[k].id == s.rob[k].id;
    }
    forall d | d in ds
      ensures Live(done, d) && done[Find(done, d)].scheduled && d != s.rob[i].id
    {
      assert EdgeOk(s.rob, i, d, |s.rob|);
      FindSame(s.rob, done, d);
    }
    ReleaseAllEffect(done, ds);
  }

  lemma CompleteCounts(a: seq<Instr>, i: nat, b: seq<Instr>)
    requires i < |a| == |b| && CountsExact(a) && a[i].executed == Inflight && b[i] == a[i].(executed := Completed)
    requires a[i].id !in a[i].dependents
    requires forall k :: 0 <= k < |b| && k != i ==> b[k] == Lowered(a[k], a[i].dependents)
    ensures CountsExact(b)
  {
    var done := a[i := b[i]];
    forall j | 0 <= j < |b|
      ensures b[j].numRegDependent == Count(b, ListsId(b[j].id))
    {
      var f := ListsId(b[j].id);
      CountUpdate(a, i, b[i], f);
      CountPointwise(done, b, f, f);
    }
  }

  /** Nobody that has started is still waiting for an uncompleted instruction. */
  lemma StartedNotListed(rob: seq<Instr>, i: nat, k: nat)
    requires i < |rob| && k < |rob| && CountsExact(rob) && Stages(rob)
    requires rob[i].executed != Completed && rob[k].id in rob[i].dependents
    ensures rob[k].executed == Idle && rob[k].numRegDependent > 0
  {
    CountZero(rob, ListsId(rob[k].id));
    assert Lists(rob[i], rob[k].id);
  }

  /** Completing an instruction keeps every register invariant. */
  lemma CompleteKeeps(s: Regs, i: nat)
    requires RegInv(s) && i < |s.rob| && s.rob[i].executed == Inflight
    ensures RegInv(Complete(s, i))
  {
    var a, t := s.rob, Complete(s, i);
    CompleteEffect(s, i);
    CompleteProducers(s, i);
    var done := a[i := t.rob[i]];
    forall r: Reg
      ensures t.producers[r] == Writers(t.rob, r)
    {
      WritersSame(done, t.rob, r);
    }
    if a[i].id in a[i].dependents {
      assert EdgeOk(a, i, a[i].id, |a|);
      FindIndex(a, i);
      assert false;
    }
    CompleteCounts(a, i, t.rob);
    EdgesSame(a, t.rob);
    AllCoveredSame(a, t.rob);
    forall k | 0 <= k < |a| && a[k].id in a[i].dependents
      ensures a[k].executed == Idle
    {
      StartedNotListed(a, i, k);
    }
  }

  // ---------------------------------------------------------------- entering and leaving the buffer

  predicate Untouched(x: Instr) {
    !x.scheduled && x.executed == Idle && x.numRegDependent == 0 && x.dependents == []
  }

  lemma DispatchEdges(a: seq<Instr>, x: Instr)
    requires Edges(a, |a|) && CountsExact(a) && Untouched(x)
    requires forall k :: 0 <= k < |a| ==> a[k].id < x.id
    ensures Edges(a + [x], |a + [x]|) && CountsExact(a + [x])
  {
    var b := a + [x];
    forall p, d | 0 <= p < |b| && b[p].executed != Completed && d in b[p].dependents
      ensures EdgeOk(b, p, d, |b|)
    {
      assert EdgeOk(a, p, d, |a|);
      FindAppend(a, x, d);
    }
    forall j | 0 <= j < |b|
      ensures b[j].numRegDependent == Count(b, ListsId(b[j].id))
    {
      CountAppend(a, x, ListsId(b[j].id));
      if j == |a| {
        NewNotListed(a, x.id);
      }
    }
  }

  lemma DispatchCovered(a: seq<Instr>, x: Instr)
    requires AllCovered(a) && Untouched(x)
    ensures AllCovered(a + [x])
  {
    var b := a + [x];
    forall j, k, w |
      0 <= j < |b| && b[j].scheduled && 0 <= k < |b[j].sources| && YoungestWriter(b, j, b[j].sources[k], w)
      ensures b[w].executed == Completed || b[j].id in b[w].dependents
    {
      assert Covered(a, j, |a[j].sources|);
      forall m | w < m < j
        ensures b[j].sources[k] !in a[m].destinations
      {
        assert a[m] == b[m];
      }
      assert YoungestWriter(a, j, a[j].sources[k], w);
    }
  }

  /** Dispatching a new youngest instruction keeps every register invariant. */
  lemma DispatchKeeps(s: Regs, x: Instr)
    requires RegInv(s) && Untouched(x)
    requires forall k :: 0 <= k < |s.rob| ==> s.rob[k].id < x.id
    ensures RegInv(s.(rob := s.rob + [x]))
  {
    DispatchEdges(s.rob, x);
    DispatchCovered(s.rob, x);
    forall r: Reg
      ensures Writers(s.rob, r) == Writers(s.rob + [x], r)
    {
      WritersConcat(s.rob, [x], r);
      assert Writers([x], r) == Contribution(x, r);
    }
  }

  lemma NewNotListed(rob: seq<Instr>, id: nat)
    requires Edges(rob, |rob|)
    requires forall k :: 0 <= k < |rob| ==> rob[k].id < id
    ensures Count(rob, ListsId(id)) == 0
  {
    forall p | 0 <= p < |rob|
      ensures !Lists(rob[p], id)
    {
      NotListed(rob, p, id, |rob|);
    }
    CountZero(rob, ListsId(id));
  }

  /** Retiring the completed oldest instruction keeps every register invariant. */
  lemma RetireKeeps(s: Regs)
    requires RegInv(s) && s.rob != [] && s.rob[0].executed == Completed
    ensures RegInv(s.(rob := s.rob[1..]))
  {
    var a, b := s.rob, s.rob[1..];
    forall p, d | 0 <= p < |b| && b[p].executed != Completed && d in b[p].dependents
      ensures EdgeOk(b, p, d, |b|)
    {
      assert EdgeOk(a, p + 1, d, |a|);
    }
    forall j | 0 <= j < |b| && b[j].scheduled
      ensures Covered(b, j, |b[j].sources|)
    {
      forall k, w | 0 <= k < |b[j].sources| && YoungestWriter(b, j, b[j].sources[k], w)
        ensures b[w].executed == Completed || b[j].id in b[w].dependents
      {
        forall m | w + 1 < m < j + 1
          ensures b[j].sources[k] !in a[m].destinations
        {
          assert a[m] == b[m - 1];
        }
        assert YoungestWriter(a, j + 1, a[j + 1].sources[k], w + 1);
      }
    }
  }

  // ---------------------------------------------------------------- consequences

  /** Read after write: whoever has started has the results of all its youngest older writers. */
  lemma StartedHasInputs(s: Regs, i: nat, g: Reg, w: nat)
    requires RegInv(s) && i < |s.rob| && s.rob[i].executed != Idle
    requires g in s.rob[i].sources && YoungestWriter(s.rob, i, g, w)
    ensures s.rob[w].executed == Completed
  {
    var k :| 0 <= k < |s.rob[i].sources| && s.rob[i].sources[k] == g;
    if s.rob[w].executed != Completed {
      assert Covered(s.rob, i, |s.rob[i].sources|);
      StartedNotListed(s.rob, w, i);
    }
  }

  /** No register deadlock: the oldest uncompleted instruction waits for nobody. */
  lemma OldestWaitsForNobody(s: Regs, i: nat)
    requires RegInv(s) && i < |s.rob|
    requires forall k :: 0 <= k < i ==> s.rob[k].executed == Completed
    ensures s.rob[i].numRegDependent == 0
  {
    FindIndex(s.rob, i);
    forall p | 0 <= p < |s.rob|
      ensures !Lists(s.rob[p], s.rob[i].id)
    {
      if s.rob[p].executed != Completed {
        NotListed(s.rob, p, s.rob[i].id, |s.rob|);
      }
    }
    CountZero(s.rob, ListsId(s.rob[i].id));
  }
}
