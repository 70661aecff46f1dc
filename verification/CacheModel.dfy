/** One cache level: tag array, miss registers, request queues, and the steps that change them. */
module CacheModel {
  import opened Bits
  import opened Waiters
  import opened Wrappers

  datatype Kind = Load | Rfo | Prefetch | Write | Translation

  /** A request. `eventCycle` is `None` where the simulator stores the largest cycle. */
  datatype Packet = Packet(
    address: nat, vAddress: nat, kind: Kind,
    fillThisLevel: bool, prefetchFromThis: bool, translated: bool, checked: bool,
    eventCycle: Option<nat>, toReturn: set<Waiter>)

  datatype Block = Block(valid: bool, dirty: bool, address: nat)

  datatype QueueId = WQ | PTWQ | RQ | PQ

  datatype Config = Config(
    numSet: Pos, numWay: nat, blockSize: Pos, mshrSize: nat, queueSize: QueueId -> nat,
    fillLatency: nat, hitLatency: nat, matchOffsetBits: bool, prefetchAsLoad: bool, self: Waiter)

  datatype State = State(
    sets: seq<seq<Block>>, mshr: seq<Packet>, inflight: seq<Packet>,
    wq: seq<Packet>, ptwq: seq<Packet>, rq: seq<Packet>, pq: seq<Packet>, cycle: nat, warmup: bool)

  function BlockOf(c: Config, address: nat): nat { address / c.blockSize }

  /** The low bits of the block number, as many as the number of sets provides. */
  function SetIndex(c: Config, address: nat): (i: nat)
    ensures i < c.numSet
  {
    BlockOf(c, address) % Pow2(Lg2(c.numSet))
  }

  function Queue(s: State, id: QueueId): seq<Packet> {
    match id
    case WQ => s.wq
    case PTWQ => s.ptwq
    case RQ => s.rq
    case PQ => s.pq
  }

  function WithQueue(s: State, id: QueueId, q: seq<Packet>): State {
    match id
    case WQ => s.(wq := q)
    case PTWQ => s.(ptwq := q)
    case RQ => s.(rq := q)
    case PQ => s.(pq := q)
  }

  /** One debt for every waiter of `p`. */
  function Debts(c: Config, p: Packet): multiset<Debt> {
    DebtsOf(p.toReturn, BlockOf(c, p.address))
  }

  function Delay(s: State, latency: nat): nat { s.cycle + if s.warmup then 0 else latency }

  // ---------------------------------------------------------------- accepting requests

  function Admitted(s: State, c: Config, id: QueueId, p: Packet): Packet {
    p.(fillThisLevel := p.fillThisLevel || id != PQ,
       translated := id == PTWQ || (p.vAddress != p.address && p.address != 0),
       checked := false,
       eventCycle := Some(Delay(s, c.hitLatency)))
  }

  /** Without translation misses in the queue, the insertion point is its end. */
  function InsertionPoint(q: seq<Packet>): (k: nat)
    ensures k <= |q|
    ensures k < |q| ==> q[k].eventCycle.None?
    ensures forall j :: 0 <= j < k ==> q[j].eventCycle.Some?
  {
    if q == [] || q[0].eventCycle.None? then 0 else 1 + InsertionPoint(q[1..])
  }

  function Accept(c: Config, s: State, id: QueueId, p: Packet): (r: (State, bool)) {
    var q := Queue(s, id);
    if |q| >= c.queueSize(id) then (s, false)
    else
      var k := InsertionPoint(q);
      (WithQueue(s, id, q[..k] + [Admitted(s, c, id, p)] + q[k..]), true)
  }

  // ---------------------------------------------------------------- collisions

  /** The first valid packet of the same (aligned) address: `std::find_if` with `eq_addr`. */
  function FindPacket(q: seq<Packet>, address: nat, grain: Pos): (k: nat)
    ensures k <= |q|
    ensures k < |q| ==> q[k].address != 0 && q[k].address / grain == address / grain
    ensures forall j :: 0 <= j < k ==> !(q[j].address != 0 && q[j].address / grain == address / grain)
  {
    if q == [] || (q[0].address != 0 && q[0].address / grain == address / grain) then 0
    else 1 + FindPacket(q[1..], address, grain)
  }

  function Merged(source: Packet, destination: Packet): Packet {
    destination.(fillThisLevel := source.fillThisLevel || destination.fillThisLevel,
                 toReturn := destination.toReturn + source.toReturn)
  }

  function RemoveAt<T>(q: seq<T>, i: nat): (r: seq<T>)
    requires i < |q|
    ensures |r| == |q| - 1
  {
    q[..i] + q[i + 1..]
  }

  /** Merge entry `i` into an earlier one, if that is allowed. */
  predicate Merges(q: seq<Packet>, i: nat, grain: Pos)
    requires i < |q|
  {
    var k := FindPacket(q[..i], q[i].address, grain);
    k < i && q[i].translated && q[k].translated
  }

  function MergeAt(q: seq<Packet>, i: nat, grain: Pos): (r: seq<Packet>)
    requires i < |q| && Merges(q, i, grain)
    ensures |r| == |q| - 1
  {
    var k := FindPacket(q[..i], q[i].address, grain);
    RemoveAt(q[k := Merged(q[i], q[k])], i)
  }

  /** Merge duplicates in the write queue, from entry `i` on. */
  function MergeWrites(q: seq<Packet>, i: nat, grain: Pos): (r: seq<Packet>)
    requires i <= |q|
    decreases |q| - i
  {
    if i == |q| then q
    else if Merges(q, i, grain) then MergeWrites(MergeAt(q, i, grain), i, grain)
    else MergeWrites(q[i := q[i].(checked := true)], i + 1, grain)
  }

  predicate Forwards(wq: seq<Packet>, p: Packet, grain: Pos) {
    var k := FindPacket(wq, p.address, grain);
    k < |wq| && p.translated && wq[k].translated
  }

  /** Answer reads from the write queue, then merge duplicates, from entry `i` on. */
  function CollideReads(c: Config, wq: seq<Packet>, q: seq<Packet>, i: nat, grain: Pos)
    : (r: (seq<Packet>, multiset<Debt>))
    requires i <= |q|
    decreases |q| - i
  {
    if i == |q| then (q, multiset{})
    else if Forwards(wq, q[i], grain) then
      var r := CollideReads(c, wq, RemoveAt(q, i), i, grain);
      (r.0, Debts(c, q[i]) + r.1)
    else if Merges(q, i, c.blockSize) then CollideReads(c, wq, MergeAt(q, i, c.blockSize), i, grain)
    else CollideReads(c, wq, q[i := q[i].(checked := true)], i + 1, grain)
  }

  function FirstUnchecked(q: seq<Packet>): (k: nat)
    ensures k <= |q|
  {
    if q == [] || !q[0].checked then 0 else 1 + FirstUnchecked(q[1..])
  }

  function WriteGrain(c: Config): Pos { if c.matchOffsetBits then 1 else c.blockSize }

  function CheckCollision(c: Config, s: State): (r: (State, multiset<Debt>)) {
    var grain := WriteGrain(c);
    var wq := MergeWrites(s.wq, FirstUnchecked(s.wq), grain);
    var rq := CollideReads(c, wq, s.rq, FirstUnchecked(s.rq), grain);
    var pq := CollideReads(c, wq, s.pq, FirstUnchecked(s.pq), grain);
    (s.(wq := wq, rq := rq.0, pq := pq.0), rq.1 + pq.1)
  }

  // ---------------------------------------------------------------- tags

  function FindWay(c: Config, ways: seq<Block>, address: nat): (k: nat)
    ensures k <= |ways|
    ensures k < |ways| ==> ways[k].valid && BlockOf(c, ways[k].address) == BlockOf(c, address)
    ensures forall j :: 0 <= j < k ==> !(ways[j].valid && BlockOf(c, ways[j].address) == BlockOf(c, address))
  {
    if ways == [] || (ways[0].valid && BlockOf(c, ways[0].address) == BlockOf(c, address)) then 0
    else 1 + FindWay(c, ways[1..], address)
  }

  function FreeWay(ways: seq<Block>): (k: nat)
    ensures k <= |ways|
    ensures k < |ways| ==> !ways[k].valid
    ensures forall j :: 0 <= j < k ==> ways[j].valid
  {
    if ways == [] || !ways[0].valid then 0 else 1 + FreeWay(ways[1..])
  }

  predicate Sized(c: Config, s: State) {
    |s.sets| == c.numSet && forall i :: 0 <= i < |s.sets| ==> |s.sets[i]| == c.numWay
  }

  /** Where a fill goes: a free way, or the way the replacement policy chose (all ways: bypass). */
  function FillWay(c: Config, s: State, address: nat, victim: nat): (w: nat)
    requires Sized(c, s) && victim <= c.numWay
    ensures w <= c.numWay
  {
    var ways := s.sets[SetIndex(c, address)];
    var free := FreeWay(ways);
    if free < c.numWay then free else victim
  }

  /** `handle_fill`: fails only if a dirty victim cannot be written back. */
  function HandleFill(c: Config, s: State, p: Packet, victim: nat, writebackOk: bool): (r: (State, bool))
    requires Sized(c, s) && victim <= c.numWay
    ensures Sized(c, r.0)
  {
    var i := SetIndex(c, p.address);
    var w := FillWay(c, s, p.address, victim);
    if w < c.numWay then
      var replaced := s.sets[i][w];
      if replaced.valid && replaced.dirty && !writebackOk then (s, false)
      else (s.(sets := s.sets[i := s.sets[i][w := Block(true, p.kind == Write, p.address)]]), true)
    else (s, true)
  }

  predicate Hits(c: Config, s: State, address: nat)
    requires Sized(c, s)
  {
    FindWay(c, s.sets[SetIndex(c, address)], address) < c.numWay
  }

  /** A hit answers the waiters and rewrites the dirty bit. */
  function TryHit(c: Config, s: State, p: Packet): (r: State)
    requires Sized(c, s) && Hits(c, s, p.address)
    ensures Sized(c, r)
  {
    var i := SetIndex(c, p.address);
    var w := FindWay(c, s.sets[i], p.address);
    s.(sets := s.sets[i := s.sets[i][w := s.sets[i][w].(dirty := p.kind == Write)]])
  }

  // ---------------------------------------------------------------- misses

  /** A miss to a block that is already outstanding joins its entry; a demand takes a prefetch over. */
  function Joined(entry: Packet, p: Packet): Packet {
    if entry.kind == Prefetch && p.kind != Prefetch then
      p.(eventCycle := entry.eventCycle, toReturn := entry.toReturn + p.toReturn)
    else entry.(toReturn := entry.toReturn + p.toReturn)
  }

  /** The packet sent to the lower level. */
  function Forwarded(c: Config, p: Packet): Packet {
    p.(kind := if p.kind == Write then Rfo else p.kind,
       toReturn := if p.fillThisLevel then {c.self} else {},
       fillThisLevel := true, prefetchFromThis := false)
  }

  function HandleMiss(c: Config, s: State, p: Packet, lowerOk: bool): (r: (State, bool))
    ensures r.0.sets == s.sets
  {
    var k := FindPacket(s.mshr, p.address, c.blockSize);
    if k < |s.mshr| then (s.(mshr := s.mshr[k := Joined(s.mshr[k], p)]), true)
    else if |s.mshr| == c.mshrSize then (s, false)
    else if !lowerOk then (s, false)
    else if p.fillThisLevel then (s.(mshr := s.mshr + [p.(eventCycle := None)]), true)
    else (s, true)
  }

  /** Writes that miss where offsets are not matched fill directly, after a delay. */
  function HandleWrite(c: Config, s: State, p: Packet): (r: State) {
    s.(inflight := s.inflight + [p.(eventCycle := Some(Delay(s, c.fillLatency)))])
  }

  /** One tag lookup for packet `p`: the new state, whether it is done, and who was answered. */
  function Lookup(c: Config, s: State, id: QueueId, p: Packet, lowerOk: bool): (r: (State, bool, multiset<Debt>))
    requires Sized(c, s)
    ensures Sized(c, r.0)
  {
    if Hits(c, s, p.address) then (TryHit(c, s, p), true, Debts(c, p))
    else if id == WQ && !c.matchOffsetBits then (HandleWrite(c, s, p), true, multiset{})
    else
      var m := HandleMiss(c, s, p, lowerOk);
      (m.0, m.1, multiset{})
  }

  predicate Due(s: State, p: Packet) { p.eventCycle.Some? && p.eventCycle.value <= s.cycle }

  // ---------------------------------------------------------------- data returns

  function FirstUnreturned(q: seq<Packet>): (k: nat)
    ensures k <= |q|
    ensures k < |q| ==> q[k].eventCycle.None?
    ensures forall j :: 0 <= j < k ==> q[j].eventCycle.Some?
  {
    InsertionPoint(q)
  }

  /** The entry of the returned block moves in front of the unreturned ones. */
  function ReturnData(c: Config, s: State, address: nat): (t: State) {
    var k := FindPacket(s.mshr, address, c.blockSize);
    var f := FirstUnreturned(s.mshr);
    if k < |s.mshr| && f < |s.mshr| then
      var done := s.mshr[k].(eventCycle := Some(Delay(s, c.fillLatency)));
      var marked := s.mshr[k := done];
      s.(mshr := marked[k := marked[f]][f := done])
    else s
  }

  // ---------------------------------------------------------------- actions

  /** What can happen to the cache, one packet at a time. */
  datatype Action =
    | Offer(id: QueueId, packet: Packet)
    | Collide
    | FillMiss(victim: nat, writebackOk: bool)
    | FillWrite(victim: nat, writebackOk: bool)
    | Tag(id: QueueId, lowerOk: bool)
    | Answer(address: nat)
    | Tick(warmup: bool)

  /** The replacement policy picks a way or bypasses, but never bypasses a write. */
  predicate MayReplace(c: Config, p: Packet, victim: nat) {
    victim <= c.numWay && (victim == c.numWay ==> p.kind != Write)
  }

  /** Callers send valid addresses, waiters only with a fill, and warm-up never restarts. */
  predicate Enabled(c: Config, s: State, a: Action) {
    match a
    case Offer(id, p) => p.address != 0 && (id == PQ && p.toReturn != {} ==> p.fillThisLevel)
    case Collide => true
    case FillMiss(victim, _) => s.mshr != [] && Due(s, s.mshr[0]) && MayReplace(c, s.mshr[0], victim)
    case FillWrite(victim, _) => s.inflight != [] && Due(s, s.inflight[0]) && MayReplace(c, s.inflight[0], victim)
    case Tag(id, _) => Queue(s, id) != [] && Due(s, Queue(s, id)[0])
    case Answer(address) =>
      var k := FindPacket(s.mshr, address, c.blockSize); k < |s.mshr| && s.mshr[k].eventCycle.None?
    case Tick(warmup) => warmup ==> s.warmup
  }

  datatype Outcome = Outcome(state: State, accepted: multiset<Debt>, answered: multiset<Debt>)

  function Apply(c: Config, s: State, a: Action): (r: Outcome)
    requires Sized(c, s) && Enabled(c, s, a)
    ensures Sized(c, r.state)
  {
    match a
    case Offer(id, p) =>
      var r := Accept(c, s, id, p);
      Outcome(r.0, if r.1 then Debts(c, p) else multiset{}, multiset{})
    case Collide =>
      var r := CheckCollision(c, s);
      Outcome(r.0, multiset{}, r.1)
    case FillMiss(victim, ok) =>
      var p := s.mshr[0];
      var r := HandleFill(c, s, p, victim, ok);
      if r.1 then Outcome(r.0.(mshr := s.mshr[1..]), multiset{}, Debts(c, p)) else Outcome(s, multiset{}, multiset{})
    case FillWrite(victim, ok) =>
      var p := s.inflight[0];
      var r := HandleFill(c, s, p, victim, ok);
      if r.1 then Outcome(r.0.(inflight := s.inflight[1..]), multiset{}, Debts(c, p))
      else Outcome(s, multiset{}, multiset{})
    case Tag(id, ok) =>
      var q := Queue(s, id);
      var r := Lookup(c, s, id, q[0], ok);
      if r.1 then Outcome(WithQueue(r.0, id, q[1..]), multiset{}, r.2) else Outcome(s, multiset{}, multiset{})
    case Answer(address) => Outcome(ReturnData(c, s, address), multiset{}, multiset{})
    case Tick(warmup) => Outcome(s.(cycle := s.cycle + 1, warmup := warmup), multiset{}, multiset{})
  }
}
