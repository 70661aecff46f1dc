/** The values the out-of-order core works on: instructions, load and store queue entries. */
module CoreTypes {
  import opened Wrappers

  /** Architectural registers are bytes; the producer table has one list per register. */
  const NUM_REGS: nat := 256

  type Reg = r: int | 0 <= r < NUM_REGS witness 0

  datatype Status = Idle | Inflight | Completed

  /** An instruction in the core. A reference to an instruction is its `id`. */
  datatype Instr = Instr(
    id: nat,
    sources: seq<Reg>,
    destinations: seq<Reg>,
    loads: seq<nat>,
    stores: seq<nat>,
    eventCycle: nat,
    scheduled: bool,
    executed: Status,
    numRegDependent: int,
    dependents: seq<nat>,
    completedMemOps: nat)
  {
    function NumMemOps(): nat { |stores| + |loads| }
  }

  /** An occupied load queue slot. `producer` is the store it waits for, if any. */
  datatype LoadEntry = LoadEntry(id: nat, address: nat, eventCycle: nat, fetchIssued: bool, producer: Option<nat>)

  /** A store queue entry. `waiters` are the load queue slots released when it finishes. */
  datatype StoreEntry = StoreEntry(id: nat, address: nat, eventCycle: nat, fetchIssued: bool, waiters: seq<nat>)

  /** The reorder buffer holds instructions in strictly increasing program order. */
  ghost predicate Sorted(rob: seq<Instr>) {
    forall i, j :: 0 <= i < j < |rob| ==> rob[i].id < rob[j].id
  }

  /** `std::partition_point` on the identifiers: the first entry that is not older than `id`. */
  function Find(rob: seq<Instr>, id: nat): (k: nat)
    ensures k <= |rob|
    ensures forall j :: 0 <= j < k ==> rob[j].id < id
    ensures k < |rob| ==> id <= rob[k].id
  {
    if rob == [] || id <= rob[0].id then 0 else 1 + Find(rob[1..], id)
  }

  /** An instruction identifier can be dereferenced exactly when this holds. */
  predicate Live(rob: seq<Instr>, id: nat) {
    var k := Find(rob, id);
    k < |rob| && rob[k].id == id
  }

  lemma FindIndex(rob: seq<Instr>, i: nat)
    requires Sorted(rob) && i < |rob|
    ensures Find(rob, rob[i].id) == i && Live(rob, rob[i].id)
  {
  }

  ghost predicate SameIds(a: seq<Instr>, b: seq<Instr>) {
    |a| == |b| && forall k :: 0 <= k < |a| ==> a[k].id == b[k].id
  }

  lemma {:induction false} FindSame(a: seq<Instr>, b: seq<Instr>, id: nat)
    requires SameIds(a, b)
    ensures Find(a, id) == Find(b, id)
  {
    if a != [] && a[0].id < id {
      assert forall k :: 0 <= k < |a[1..]| ==> a[1..][k].id == a[k + 1].id && b[1..][k].id == b[k + 1].id;
      FindSame(a[1..], b[1..], id);
    }
  }

  lemma {:induction false} FindAppend(rob: seq<Instr>, x: Instr, id: nat)
    ensures Find(rob, id) < |rob| ==> Find(rob + [x], id) == Find(rob, id)
  {
    if rob != [] && rob[0].id < id {
      assert (rob + [x])[1..] == rob[1..] + [x];
      FindAppend(rob[1..], x, id);
    }
  }
}
