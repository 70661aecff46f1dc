/** One DRAM channel: request slots, bank requests, the data bus, and one `operate()`. */
module DramModel {
  import opened Bits
  import opened Waiters
  import opened Wrappers

  datatype Config = Config(
    blockSize: Pos, channels: Pos, banks: Pos, columns: Pos, ranks: Pos, rows: Pos,
    rqSize: Pos, wqSize: Pos, tRP: nat, tRCD: nat, tCAS: nat, turnAround: nat, returnTime: nat)

  /** A request slot; address 0 marks it free, an event cycle of `None` is the largest cycle. */
  datatype Entry = Entry(address: nat, toReturn: set<Waiter>, checked: bool, scheduled: bool, eventCycle: Option<nat>)

  const EMPTY := Entry(0, {}, false, false, None)

  const NO_ROW := 0xFFFF_FFFF

  /** A place in one of the two queues. */
  datatype Slot = Slot(write: bool, index: nat)

  datatype BankRequest = BankRequest(valid: bool, rowBufferHit: bool, openRow: nat, eventCycle: nat, slot: Slot)

  /** `active == |banks|` means that the bus carries nothing. `congestion` is the running statistic. */
  datatype State = State(
    rq: seq<Entry>, wq: seq<Entry>, banks: seq<BankRequest>, active: nat, writeMode: bool,
    busFree: nat, cycle: nat, warmup: bool, congestion: int)

  function BlockOf(c: Config, address: nat): nat { address / c.blockSize }

  function Debts(c: Config, e: Entry): multiset<Debt> { DebtsOf(e.toReturn, BlockOf(c, e.address)) }

  function EntryDebts(c: Config): Entry -> multiset<Debt> { e => Debts(c, e) }

  // ---------------------------------------------------------------- address decoding

  /** As many bits of the block number as `size` needs, above the lowest `shift`. */
  function Field(block: nat, shift: nat, size: Pos): (f: nat)
    ensures f < size
  {
    block / Pow2(shift) % Pow2(Lg2(size))
  }

  function ChannelOf(c: Config, address: nat): nat { Field(BlockOf(c, address), 0, c.channels) }

  function BankOf(c: Config, address: nat): (b: nat)
    ensures b < c.banks
  {
    Field(BlockOf(c, address), Lg2(c.channels), c.banks)
  }

  function ColumnOf(c: Config, address: nat): nat {
    Field(BlockOf(c, address), Lg2(c.channels) + Lg2(c.banks), c.columns)
  }

  function RankOf(c: Config, address: nat): (r: nat)
    ensures r < c.ranks
  {
    Field(BlockOf(c, address), Lg2(c.channels) + Lg2(c.banks) + Lg2(c.columns), c.ranks)
  }

  function RowOf(c: Config, address: nat): nat {
    Field(BlockOf(c, address), Lg2(c.channels) + Lg2(c.banks) + Lg2(c.columns) + Lg2(c.ranks), c.rows)
  }

  function Flat(r: nat, ranks: nat, b: nat, banks: nat): (i: nat)
    requires r < ranks && b < banks
    ensures i < ranks * banks
  {
    assert (r + 1) * banks <= ranks * banks;
    r * banks + b
  }

  /** The bank request a packet uses, counted over all ranks. */
  function BankIndex(c: Config, address: nat): (b: nat)
    ensures b < c.ranks * c.banks
  {
    Flat(RankOf(c, address), c.ranks, BankOf(c, address), c.banks)
  }

  // ---------------------------------------------------------------- queues

  function Queue(s: State, write: bool): seq<Entry> { if write then s.wq else s.rq }

  function WithQueue(s: State, write: bool, q: seq<Entry>): State { if write then s.(wq := q) else s.(rq := q) }

  predicate InQueue(s: State, slot: Slot) { slot.index < |Queue(s, slot.write)| }

  function EntryAt(s: State, slot: Slot): Entry
    requires InQueue(s, slot)
  {
    Queue(s, slot.write)[slot.index]
  }

  function Put(s: State, slot: Slot, e: Entry): State
    requires InQueue(s, slot)
  {
    WithQueue(s, slot.write, Queue(s, slot.write)[slot.index := e])
  }

  function FirstFree(q: seq<Entry>): (k: nat)
    ensures k <= |q|
    ensures k < |q| ==> q[k].address == 0
    ensures forall j :: 0 <= j < k ==> q[j].address != 0
  {
    if q == [] || q[0].address == 0 then 0 else 1 + FirstFree(q[1..])
  }

  /** `add_rq` and `add_wq`: the first free slot, if there is one. */
  function Add(s: State, write: bool, e: Entry): (State, bool) {
    var q := Queue(s, write);
    var k := FirstFree(q);
    if k < |q| then (WithQueue(s, write, q[k := e.(checked := false, eventCycle := Some(s.cycle))]), true)
    else (s, false)
  }

  predicate SameBlock(c: Config, e: Entry, address: nat) {
    e.address != 0 && BlockOf(c, e.address) == BlockOf(c, address)
  }

  function FindEntry(c: Config, q: seq<Entry>, address: nat): (k: nat)
    ensures k <= |q|
    ensures k < |q| ==> SameBlock(c, q[k], address)
    ensures forall j :: 0 <= j < k ==> !SameBlock(c, q[j], address)
  {
    if q == [] || SameBlock(c, q[0], address) then 0 else 1 + FindEntry(c, q[1..], address)
  }

  /** Another entry of the same block: looked for before `i` first, then after. */
  function Other(c: Config, q: seq<Entry>, i: nat): (k: nat)
    requires i < |q|
    ensures k <= |q| && k != i
    ensures k < |q| ==> SameBlock(c, q[k], q[i].address)
    ensures k == |q| ==> forall j :: 0 <= j < |q| && j != i ==> !SameBlock(c, q[j], q[i].address)
  {
    var before := FindEntry(c, q[..i], q[i].address);
    if before < i then before
    else
      var after := FindEntry(c, q[i + 1..], q[i].address);
      assert forall j :: i < j < |q| ==> q[j] == q[i + 1..][j - i - 1];
      i + 1 + after
  }

  predicate Unchecked(e: Entry) { e.address != 0 && !e.checked }

  function CheckWrites(c: Config, q: seq<Entry>, i: nat): (r: seq<Entry>)
    requires i <= |q|
    ensures |r| == |q|
    decreases |q| - i
  {
    if i == |q| then q
    else if !Unchecked(q[i]) then CheckWrites(c, q, i + 1)
    else if Other(c, q, i) < |q| then CheckWrites(c, q[i := EMPTY], i + 1)
    else CheckWrites(c, q[i := q[i].(checked := true)], i + 1)
  }

  /** The waiters of entry `i` join entry `k`. */
  function Join(q: seq<Entry>, i: nat, k: nat): seq<Entry>
    requires i < |q| && k < |q| && i != k
  {
    q[k := q[k].(toReturn := q[k].toReturn + q[i].toReturn)][i := EMPTY]
  }

  function CheckReads(c: Config, wq: seq<Entry>, q: seq<Entry>, i: nat): (r: (seq<Entry>, multiset<Debt>))
    requires i <= |q|
    ensures |r.0| == |q|
    decreases |q| - i
  {
    if i == |q| then (q, multiset{})
    else if !Unchecked(q[i]) then CheckReads(c, wq, q, i + 1)
    else if FindEntry(c, wq, q[i].address) < |wq| then
      var r := CheckReads(c, wq, q[i := EMPTY], i + 1);
      (r.0, Debts(c, q[i]) + r.1)
    else if Other(c, q, i) < |q| then CheckReads(c, wq, Join(q, i, Other(c, q, i)), i + 1)
    else CheckReads(c, wq, q[i := q[i].(checked := true)], i + 1)
  }

  function CheckCollision(c: Config, s: State): (State, multiset<Debt>) {
    var wq := CheckWrites(c, s.wq, 0);
    var r := CheckReads(c, wq, s.rq, 0);
    (s.(wq := wq, rq := r.0), r.1)
  }

  // ---------------------------------------------------------------- the parts of an operate

  function Cleared(q: seq<Entry>): (r: seq<Entry>)
    ensures |r| == |q|
  {
    seq(|q|, _ => EMPTY)
  }

  /** During warm-up every read is answered at once and every write dropped. */
  function WarmupDrain(c: Config, s: State): (State, multiset<Debt>) {
    if s.warmup then (s.(rq := Cleared(s.rq), wq := Cleared(s.wq)), Total(s.rq, EntryDebts(c)))
    else (s, multiset{})
  }

  predicate Idle(s: State) { s.active >= |s.banks| }

  predicate BusDone(s: State) { !Idle(s) && s.banks[s.active].eventCycle <= s.cycle }

  function Finish(c: Config, s: State): (State, multiset<Debt>)
    requires BusDone(s) ==> InQueue(s, s.banks[s.active].slot)
  {
    if BusDone(s) then
      var b := s.banks[s.active];
      var freed := Put(s, b.slot, EMPTY);
      (freed.(banks := s.banks[s.active := b.(valid := false)], active := |s.banks|), Debts(c, EntryAt(s, b.slot)))
    else (s, multiset{})
  }

  function Occupied(q: seq<Entry>): nat {
    if q == [] then 0 else (if q[0].address != 0 then 1 else 0) + Occupied(q[1..])
  }

  /** Whether reads and writes are unbalanced enough to change modes. */
  predicate Unbalanced(c: Config, s: State) {
    var w, r := Occupied(s.wq), Occupied(s.rq);
    if s.writeMode then w == 0 || (r > 0 && w < c.wqSize * 6 / 8)
    else w >= c.wqSize * 7 / 8 || (r == 0 && w > 0)
  }

  predicate Resets(s: State, i: nat)
    requires i < |s.banks|
  {
    i != s.active && s.banks[i].valid
  }

  /** Bank request `i` gives its packet back, and its row too unless it was about to be read. */
  function ResetBank(c: Config, s: State, i: nat): (t: State)
    requires i < |s.banks| && InQueue(s, s.banks[i].slot)
  {
    var b := s.banks[i];
    var row := if b.eventCycle < s.cycle + c.tCAS then NO_ROW else b.openRow;
    Put(s, b.slot, EntryAt(s, b.slot).(scheduled := false, eventCycle := Some(s.cycle)))
      .(banks := s.banks[i := b.(valid := false, openRow := row)])
  }

  ghost predicate SlotsInQueues(s: State) {
    forall b :: 0 <= b < |s.banks| && s.banks[b].valid ==> InQueue(s, s.banks[b].slot)
  }

  function ResetBanks(c: Config, s: State, i: nat): (t: State)
    requires i <= |s.banks| && SlotsInQueues(s)
    ensures |t.banks| == |s.banks| && t.active == s.active
    decreases |s.banks| - i
  {
    if i == |s.banks| then s
    else if Resets(s, i) then ResetBanks(c, ResetBank(c, s, i), i + 1)
    else ResetBanks(c, s, i + 1)
  }

  function Flip(c: Config, s: State): (t: State)
    requires SlotsInQueues(s)
    ensures |t.banks| == |s.banks|
  {
    if Unbalanced(c, s) then
      var t := ResetBanks(c, s, 0);
      t.(busFree := (if Idle(t) then t.cycle else t.banks[t.active].eventCycle) + c.turnAround,
         writeMode := !t.writeMode)
    else s
  }

  /** The comparators of the two searches; neither is a strict order. */
  predicate BankBefore(x: BankRequest, y: BankRequest) { !y.valid || (x.valid && x.eventCycle < y.eventCycle) }

  predicate Pending(e: Entry) { e.address != 0 && !e.scheduled }

  predicate Earlier(x: Option<nat>, y: Option<nat>) { x.Some? && (y.None? || x.value < y.value) }

  predicate EntryBefore(x: Entry, y: Entry) { !Pending(y) || (Pending(x) && Earlier(x.eventCycle, y.eventCycle)) }

  /** Both put what is out of the race before itself. */
  lemma ComparatorsReflexive(x: BankRequest, e: Entry)
    ensures BankBefore(x, x) <==> !x.valid
    ensures EntryBefore(e, e) <==> !Pending(e)
  {
  }

  /** `std::min_element` over the first `n` bank requests. */
  function NextBank(banks: seq<BankRequest>, n: nat): (k: nat)
    requires 0 < n <= |banks|
    ensures k < n
  {
    if n == 1 then 0
    else
      var k := NextBank(banks, n - 1);
      if BankBefore(banks[n - 1], banks[k]) then n - 1 else k
  }

  function NextEntry(q: seq<Entry>, n: nat): (k: nat)
    requires 0 < n <= |q|
    ensures k < n
  {
    if n == 1 then 0
    else
      var k := NextEntry(q, n - 1);
      if EntryBefore(q[n - 1], q[k]) then n - 1 else k
  }

  /** Put the next ready bank on the bus, or count the cycles it has to wait. */
  function Grant(c: Config, s: State): (t: State)
    requires |s.banks| > 0
    ensures |t.banks| == |s.banks|
  {
    var k := NextBank(s.banks, |s.banks|);
    if s.banks[k].valid && s.banks[k].eventCycle <= s.cycle then
      if Idle(s) && s.busFree <= s.cycle then
        s.(active := k, banks := s.banks[k := s.banks[k].(eventCycle := s.cycle + c.returnTime)])
      else if !Idle(s) then s.(congestion := s.congestion + (s.banks[s.active].eventCycle - s.cycle))
      else s.(congestion := s.congestion + (s.busFree - s.cycle))
    else s
  }

  /** Give the next unscheduled packet to its bank, if the bank is free. */
  function Schedule(c: Config, s: State): (t: State)
    requires |Queue(s, s.writeMode)| > 0 && |s.banks| == c.ranks * c.banks
    ensures |t.banks| == |s.banks|
  {
    var q := Queue(s, s.writeMode);
    var k := NextEntry(q, |q|);
    var e := q[k];
    if e.address != 0 && e.eventCycle.Some? && e.eventCycle.value <= s.cycle then
      var b := BankIndex(c, e.address);
      if s.banks[b].valid then s
      else
        var row := RowOf(c, e.address);
        var hit := s.banks[b].openRow == row;
        var ready := s.cycle + c.tCAS + if hit then 0 else c.tRP + c.tRCD;
        Put(s, Slot(s.writeMode, k), e.(scheduled := true, eventCycle := None))
          .(banks := s.banks[b := BankRequest(true, hit, row, ready, Slot(s.writeMode, k))])
    else s
  }
}
