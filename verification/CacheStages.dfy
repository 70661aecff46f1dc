/** What the operations of a cache level do besides collision checks, and that `operate()` leaves nothing out. */
module CacheStages {
  import opened Bits
  import opened CacheCollisions
  import opened CacheModel
  import opened CacheOperate
  import opened Waiters
  import opened Wrappers

  // ---------------------------------------------------------------- where a block belongs

  lemma {:induction false} PowersApart(k: nat, l: nat, n: nat)
    requires Pow2(k) <= n < 2 * Pow2(k) && Pow2(l) <= n < 2 * Pow2(l)
    ensures k == l
  {
    if k < l {
      Pow2Increases(k, k + 1);
      if k + 1 < l {
        Pow2Increases(k + 1, l);
      }
    } else if l < k {
      if l + 1 < k {
        Pow2Increases(l + 1, k);
      }
    }
  }

  /** The set is the block number's remainder by the largest power of two that the number of sets reaches. */
  lemma SetIndexExactly(c: Config, address: nat, k: nat)
    requires Pow2(k) <= c.numSet < 2 * Pow2(k)
    ensures SetIndex(c, address) == address / c.blockSize % Pow2(k)
  {
    PowersApart(k, Lg2(c.numSet), c.numSet);
  }

  // ---------------------------------------------------------------- offers

  /** The first `k` packets have their cycle, and the next one, if there is one, does not. */
  ghost predicate Settled(q: seq<Packet>, k: nat) {
    && k <= |q| && (k < |q| ==> q[k].eventCycle.None?)
    && forall j :: 0 <= j < k ==> q[j].eventCycle.Some?
  }

  /** The packet as a queue takes it: who translated it, and when it is due. */
  ghost predicate TakenAs(c: Config, s: State, id: QueueId, p: Packet, r: Packet) {
    && r == p.(fillThisLevel := r.fillThisLevel, translated := r.translated, checked := r.checked,
               eventCycle := r.eventCycle)
    && !r.checked && r.eventCycle == Some(if s.warmup then s.cycle else s.cycle + c.hitLatency)
    && (r.fillThisLevel <==> p.fillThisLevel || id == WQ || id == RQ || id == PTWQ)
    && (r.translated <==> id == PTWQ || (p.address != 0 && p.address != p.vAddress))
  }

  /** An offer is refused exactly by a full queue; otherwise it goes ahead of the packets without a cycle. */
  lemma OfferExactly(c: Config, s: State, id: QueueId, p: Packet)
    ensures var (t, ok) := Accept(c, s, id, p);
            var q, r := Queue(s, id), Queue(t, id);
            && (ok <==> |q| < c.queueSize(id))
            && (!ok ==> t == s)
            && (ok ==> exists k: nat :: k < |r| && Settled(q, k) && TakenAs(c, s, id, p, r[k])
                                        && r[..k] == q[..k] && r[k + 1..] == q[k..])
            && t == WithQueue(s, id, r)
  {
    var q := Queue(s, id);
    if |q| < c.queueSize(id) {
      var k := InsertionPoint(q);
      var r := Queue(Accept(c, s, id, p).0, id);
      assert Settled(q, k) && TakenAs(c, s, id, p, r[k]);
      assert r[..k] == q[..k] && r[k + 1..] == q[k..];
    }
  }

  // ---------------------------------------------------------------- fills

  /** The first way that is free. */
  ghost predicate FirstFree(ways: seq<Block>, w: nat) {
    w < |ways| && !ways[w].valid && forall j :: 0 <= j < w ==> ways[j].valid
  }

  /** Every way is taken, and the victim's data has to be written back but cannot be. */
  ghost predicate CannotFill(c: Config, s: State, p: Packet, victim: nat, ok: bool)
    requires Sized(c, s)
  {
    var ways := s.sets[SetIndex(c, p.address)];
    && (forall w :: 0 <= w < |ways| ==> ways[w].valid)
    && victim < |ways| && ways[victim].dirty && !ok
  }

  /** The fill writes the first free way, or else the victim's, and only that one. */
  ghost predicate FilledAs(c: Config, s: State, p: Packet, victim: nat, t: State)
    requires Sized(c, s)
  {
    var i := SetIndex(c, p.address);
    && t == s.(sets := t.sets) && Sized(c, t)
    && forall j, w :: 0 <= j < |s.sets| && 0 <= w < c.numWay ==>
         t.sets[j][w] ==
         if j == i && (FirstFree(s.sets[i], w) || (w == victim && forall v :: 0 <= v < c.numWay ==> s.sets[i][v].valid))
         then Block(true, p.kind == Write, p.address) else s.sets[j][w]
  }

  /** A fill waits exactly for a write-back that is refused, and otherwise writes one way, or none on a bypass. */
  lemma FillStepExactly(c: Config, s: State, p: Packet, victim: nat, ok: bool)
    requires Sized(c, s) && victim <= c.numWay
    ensures var (t, done) := HandleFill(c, s, p, victim, ok);
            && (done <==> !CannotFill(c, s, p, victim, ok))
            && if done then FilledAs(c, s, p, victim, t) else t == s
  {
    var i := SetIndex(c, p.address);
    var w := FreeWay(s.sets[i]);
    assert w < c.numWay ==> FirstFree(s.sets[i], w);
    assert |s.sets[i]| == c.numWay;
  }

  // ---------------------------------------------------------------- tag lookups

  /** The first way that holds the block. */
  ghost predicate FirstHolding(c: Config, ways: seq<Block>, address: nat, w: nat) {
    && w < |ways| && ways[w].valid && ways[w].address / c.blockSize == address / c.blockSize
    && forall j :: 0 <= j < w ==> !(ways[j].valid && ways[j].address / c.blockSize == address / c.blockSize)
  }

  ghost predicate Holds(c: Config, s: State, address: nat)
    requires Sized(c, s)
  {
    exists w: nat :: FirstHolding(c, s.sets[SetIndex(c, address)], address, w)
  }

  /** A miss register waits for the block. */
  ghost predicate Waited(c: Config, s: State, address: nat) {
    exists k: nat :: FirstWith(s.mshr, |s.mshr|, address, c.blockSize, k)
  }

  /** A miss that can neither join a register, nor get one, nor be sent on. */
  ghost predicate Refused(c: Config, s: State, id: QueueId, p: Packet, ok: bool)
    requires Sized(c, s)
  {
    && !Holds(c, s, p.address) && (id == WQ ==> c.matchOffsetBits) && !Waited(c, s, p.address)
    && (|s.mshr| == c.mshrSize || !ok)
  }

  /** A hit sets the dirty bit of the way, as the request says, and changes nothing else. */
  ghost predicate HitAs(c: Config, s: State, p: Packet, t: State)
    requires Sized(c, s)
  {
    var i := SetIndex(c, p.address);
    && t == s.(sets := t.sets) && Sized(c, t)
    && forall j, w: nat :: 0 <= j < |s.sets| && w < c.numWay ==>
         t.sets[j][w] == s.sets[j][w].(dirty :=
           if j == i && FirstHolding(c, s.sets[i], p.address, w) then p.kind == Write else s.sets[j][w].dirty)
  }

  /** The register of the block takes the waiters over; a demand turns a prefetch into itself, at the same progress. */
  ghost predicate JoinedAs(c: Config, s: State, p: Packet, t: State) {
    && t == s.(mshr := t.mshr) && |t.mshr| == |s.mshr|
    && forall k: nat :: k < |s.mshr| ==>
         if FirstWith(s.mshr, |s.mshr|, p.address, c.blockSize, k) then
           t.mshr[k] ==
           (if s.mshr[k].kind == Prefetch && p.kind != Prefetch then p else s.mshr[k])
             .(eventCycle := s.mshr[k].eventCycle, toReturn := s.mshr[k].toReturn + p.toReturn)
         else t.mshr[k] == s.mshr[k]
  }

  /** What a lookup does with the first packet of a queue, and whom it answers. */
  ghost predicate LookedUp(c: Config, s: State, id: QueueId, p: Packet, ok: bool, t: State, answered: multiset<Debt>)
    requires Sized(c, s)
  {
    if Holds(c, s, p.address) then HitAs(c, s, p, t) && answered == DebtsOf(p.toReturn, p.address / c.blockSize)
    else
      && answered == multiset{}
      && if id == WQ && !c.matchOffsetBits then
           t == s.(inflight :=
             s.inflight + [p.(eventCycle := Some(if s.warmup then s.cycle else s.cycle + c.fillLatency))])
         else if Waited(c, s, p.address) then JoinedAs(c, s, p, t)
         else t == s.(mshr := if p.fillThisLevel then s.mshr + [p.(eventCycle := None)] else s.mshr)
  }

  lemma FirstHoldingIs(c: Config, s: State, address: nat)
    requires Sized(c, s)
    ensures Hits(c, s, address) <==> Holds(c, s, address)
    ensures forall w: nat :: FirstHolding(c, s.sets[SetIndex(c, address)], address, w) <==>
                             w < c.numWay && w == FindWay(c, s.sets[SetIndex(c, address)], address)
  {
    var ways := s.sets[SetIndex(c, address)];
    var w := FindWay(c, ways, address);
    assert |ways| == c.numWay;
    assert w < c.numWay ==> FirstHolding(c, ways, address, w);
  }

  lemma FirstWithIs(q: seq<Packet>, address: nat, grain: Pos)
    ensures FindPacket(q, address, grain) < |q| <==> exists k: nat :: FirstWith(q, |q|, address, grain, k)
    ensures forall k: nat :: FirstWith(q, |q|, address, grain, k) <==>
                             k < |q| && k == FindPacket(q, address, grain)
  {
    var f := FindPacket(q, address, grain);
    assert f < |q| ==> FirstWith(q, |q|, address, grain, f);
  }

  lemma HitStep(c: Config, s: State, p: Packet)
    requires Sized(c, s) && Hits(c, s, p.address)
    ensures HitAs(c, s, p, TryHit(c, s, p))
  {
    FirstHoldingIs(c, s, p.address);
    hide FirstHolding;
  }

  lemma MissStep(c: Config, s: State, p: Packet, ok: bool)
    requires Sized(c, s)
    ensures var (t, done) := HandleMiss(c, s, p, ok);
            && (done <==> Waited(c, s, p.address) || (|s.mshr| != c.mshrSize && ok))
            && if !done then t == s
               else if Waited(c, s, p.address) then JoinedAs(c, s, p, t)
               else t == s.(mshr := if p.fillThisLevel then s.mshr + [p.(eventCycle := None)] else s.mshr)
  {
    FirstWithIs(s.mshr, p.address, c.blockSize);
    hide FirstWith;
  }

  /** A lookup is refused exactly as stated; otherwise it hits, fills later, joins, or is sent on. */
  lemma LookupExactly(c: Config, s: State, id: QueueId, p: Packet, ok: bool)
    requires Sized(c, s)
    ensures var (t, done, answered) := Lookup(c, s, id, p, ok);
            && (done <==> !Refused(c, s, id, p, ok))
            && (!done ==> t == s && answered == multiset{})
            && (done ==> LookedUp(c, s, id, p, ok, t, answered))
  {
    FirstHoldingIs(c, s, p.address);
    if Hits(c, s, p.address) {
      HitStep(c, s, p);
    } else {
      MissStep(c, s, p, ok);
    }
    hide Holds, Waited, HitAs, JoinedAs, Hits, HandleMiss, TryHit;
  }

  /**
   * A full set whose victim holds written data makes a fill wait for the write-back; after a hit on that way it does
   * so exactly if the hit was a write: a hit that is no write forgets that there is something to write back.
   */
  lemma WrittenDataKeptExactly(c: Config, s: State, p: Packet, w: nat, fill: Packet)
    requires Sized(c, s) && SetIndex(c, fill.address) == SetIndex(c, p.address)
    requires var ways := s.sets[SetIndex(c, p.address)];
             && FirstHolding(c, ways, p.address, w) && ways[w].dirty && forall v :: 0 <= v < |ways| ==> ways[v].valid
    ensures w <= c.numWay && Hits(c, s, p.address)
    ensures !HandleFill(c, s, fill, w, false).1
    ensures HandleFill(c, TryHit(c, s, p), fill, w, false).1 <==> p.kind != Write
  {
    FirstHoldingIs(c, s, p.address);
    assert |s.sets[SetIndex(c, p.address)]| == c.numWay;
    HitStep(c, s, p);
    FillStepExactly(c, s, fill, w, false);
    FillStepExactly(c, TryHit(c, s, p), fill, w, false);
    hide HandleFill, TryHit, FilledAs, SetIndex, Hits;
    var i := SetIndex(c, p.address);
    assert TryHit(c, s, p).sets[i][w] == s.sets[i][w].(dirty := p.kind == Write);
    hide FirstHolding;
    assert forall v: nat :: v < c.numWay ==> TryHit(c, s, p).sets[i][v].valid == s.sets[i][v].valid;
  }

  // ---------------------------------------------------------------- data returns

  /** The register of the block becomes the last returned one, and the first unreturned one takes its place. */
  ghost predicate ReturnedAs(c: Config, s: State, k: nat, f: nat, t: State)
    requires k < |s.mshr| && f < |s.mshr|
  {
    && t == s.(mshr := t.mshr) && |t.mshr| == |s.mshr|
    && t.mshr[f] == s.mshr[k].(eventCycle := Some(if s.warmup then s.cycle else s.cycle + c.fillLatency))
    && (k != f ==> t.mshr[k] == s.mshr[f])
    && forall j :: 0 <= j < |s.mshr| && j != k && j != f ==> t.mshr[j] == s.mshr[j]
  }

  /** A data return marks the register of its block and moves it behind those that have returned already. */
  lemma ReturnExactly(c: Config, s: State, address: nat, k: nat, f: nat)
    requires FirstWith(s.mshr, |s.mshr|, address, c.blockSize, k) && f < |s.mshr| && Settled(s.mshr, f)
    ensures ReturnedAs(c, s, k, f, ReturnData(c, s, address))
  {
    FirstWithIs(s.mshr, address, c.blockSize);
  }

  // ---------------------------------------------------------------- one operate

  ghost predicate DueBy(p: Packet, cycle: nat) { p.eventCycle.Some? && p.eventCycle.value <= cycle }

  /** What `operate_queue` goes through. */
  function Line(s: State, t: Target): seq<Packet> {
    match t
    case Misses => s.mshr
    case Writes => s.inflight
    case Requests(id) => Queue(s, id)
  }

  /** The first packet is there and due, but cannot be handled. */
  ghost predicate HeldUp(c: Config, s: State, e: Environment, t: Target, n: nat)
    requires Sized(c, s) && Line(s, t) != []
  {
    var p := Line(s, t)[0];
    if t.Requests? then Refused(c, s, t.id, p, e.lowerOk(n, t.id))
    else CannotFill(c, s, p, e.victim(n, p), e.writebackOk(n))
  }

  /** Nothing to do: no packet, or the first one is not due, or it cannot be handled. */
  ghost predicate Idle(c: Config, s: State, e: Environment, t: Target, n: nat)
    requires Sized(c, s)
  {
    Line(s, t) == [] || !DueBy(Line(s, t)[0], s.cycle) || HeldUp(c, s, e, t, n)
  }

  /** The first packet is handled: filled, or looked up, and taken out of its queue. */
  ghost predicate Handled(c: Config, s: State, e: Environment, t: Target, n: nat, u: State, answered: multiset<Debt>)
    requires Sized(c, s) && Line(s, t) != []
  {
    var p := Line(s, t)[0];
    if t.Requests? then
      exists v: State ::
        LookedUp(c, s, t.id, p, e.lowerOk(n, t.id), v, answered) && u == WithQueue(v, t.id, Line(s, t)[1..])
    else
      && answered == DebtsOf(p.toReturn, p.address / c.blockSize)
      && exists v: State ::
           FilledAs(c, s, p, e.victim(n, p), v)
           && u == if t == Misses then v.(mshr := s.mshr[1..]) else v.(inflight := s.inflight[1..])
  }

  lemma IdleExactly(c: Config, s: State, e: Environment, t: Target, n: nat)
    requires Sized(c, s) && Obeys(c, e)
    ensures var a := Attempt(s, e, t, n);
            Idle(c, s, e, t, n) <==> !Enabled(c, s, a) || !Succeeds(c, s, a)
  {
    if Line(s, t) != [] {
      var p := Line(s, t)[0];
      match t
      case Requests(id) =>
        LookupExactly(c, s, id, p, e.lowerOk(n, id));
        hide Refused, Lookup, Obeys, LookedUp;
      case _ =>
        assert MayReplace(c, p, e.victim(n, p));
        FillStepExactly(c, s, p, e.victim(n, p), e.writebackOk(n));
        hide CannotFill, HandleFill, Obeys, FilledAs;
    }
  }

  lemma HandledExactly(c: Config, s: State, e: Environment, t: Target, n: nat)
    requires Sized(c, s) && Obeys(c, e) && Enabled(c, s, Attempt(s, e, t, n)) && Succeeds(c, s, Attempt(s, e, t, n))
    ensures var o := Apply(c, s, Attempt(s, e, t, n));
            Line(s, t) != [] && Handled(c, s, e, t, n, o.state, o.answered)
  {
    var p := Line(s, t)[0];
    match t
    case Requests(id) =>
      LookupExactly(c, s, id, p, e.lowerOk(n, id));
      hide Refused, Lookup, Obeys, LookedUp;
    case _ =>
      FillStepExactly(c, s, p, e.victim(n, p), e.writebackOk(n));
      hide CannotFill, HandleFill, Obeys, FilledAs;
  }

  /** From each state to the next, the first packet is handled, and one unit of bandwidth is used. */
  ghost predicate HandlesAll(c: Config, e: Environment, t: Target, trace: seq<Progress>) {
    && (forall i :: 0 <= i < |trace| ==> Sized(c, trace[i].state))
    && forall i, j :: 0 <= i && j == i + 1 && j < |trace| ==> HandlesOne(c, e, t, trace[i], trace[j])
  }

  ghost predicate HandlesOne(c: Config, e: Environment, t: Target, a: Progress, b: Progress)
    requires Sized(c, a.state)
  {
    && a.left > 0 && b.left == a.left - 1
    && Line(a.state, t) != [] && DueBy(Line(a.state, t)[0], a.state.cycle) && !HeldUp(c, a.state, e, t, a.left)
    && exists x: multiset<Debt> :: Handled(c, a.state, e, t, a.left, b.state, x) && b.answered == a.answered + x
  }

  /** One queue's turn: handles packets from the front, and stops only without bandwidth, or with nothing to do. */
  ghost predicate Turn(c: Config, e: Environment, t: Target, from: Progress, trace: seq<Progress>, to: Progress) {
    && trace != [] && trace[0] == from && trace[|trace| - 1] == to
    && HandlesAll(c, e, t, trace)
    && (to.left == 0 || Idle(c, to.state, e, t, to.left))
  }

  lemma TurnStep(c: Config, e: Environment, t: Target, a: Progress, b: Progress, rest: seq<Progress>, to: Progress)
    requires Sized(c, a.state) && Turn(c, e, t, b, rest, to) && HandlesOne(c, e, t, a, b)
    ensures Turn(c, e, t, a, [a] + rest, to)
  {
    hide HandlesOne, Idle;
    var trace := [a] + rest;
    forall i, j | 0 <= i && j == i + 1 && j < |trace| ensures HandlesOne(c, e, t, trace[i], trace[j]) {
      if i > 0 {
        assert trace[i] == rest[i - 1] && trace[j] == rest[j - 1];
      }
    }
    assert forall i :: 0 < i < |trace| ==> trace[i] == rest[i - 1];
  }

  lemma {:induction false} DrainExactly(c: Config, s: State, e: Environment, t: Target, n: nat, x: multiset<Debt>)
    returns (trace: seq<Progress>)
    requires Sized(c, s) && Obeys(c, e)
    ensures Turn(c, e, t, Progress(s, n, x), trace, Drain(c, s, e, t, n, x))
    decreases n
  {
    hide Idle, Handled, Apply, Attempt, Enabled, Succeeds, Obeys;
    trace := [Progress(s, n, x)];
    if n > 0 {
      IdleExactly(c, s, e, t, n);
      var a := Attempt(s, e, t, n);
      if Enabled(c, s, a) && Succeeds(c, s, a) {
        HandledExactly(c, s, e, t, n);
        var o := Apply(c, s, a);
        var rest := DrainExactly(c, o.state, e, t, n - 1, x + o.answered);
        NotIdle(c, s, e, t, n);
        TurnStep(c, e, t, trace[0], Progress(o.state, n - 1, x + o.answered), rest, Drain(c, s, e, t, n, x));
        trace := trace + rest;
      }
    }
  }

  lemma NotIdle(c: Config, s: State, e: Environment, t: Target, n: nat)
    requires Sized(c, s) && !Idle(c, s, e, t, n)
    ensures Line(s, t) != [] && DueBy(Line(s, t)[0], s.cycle) && !HeldUp(c, s, e, t, n)
  {
  }

  /**
   * An `operate()` is six turns: the misses and the writes in flight share the fill bandwidth, and then the write,
   * walk, read and prefetch queues share the lookup bandwidth. A packet that is first in its queue's turn, due, and
   * can be handled, is handled while there is bandwidth, and nothing else happens. `ends` is where the turns end.
   */
  lemma OperateExactly(c: Config, s: State, e: Environment, maxFill: nat, maxTag: nat)
    returns (turns: seq<seq<Progress>>, ends: seq<Progress>)
    requires Sized(c, s) && Obeys(c, e)
    ensures |turns| == |ends| == 6
    ensures Turn(c, e, Misses, Progress(s, maxFill, multiset{}), turns[0], ends[0])
    ensures Turn(c, e, Writes, ends[0], turns[1], ends[1])
    ensures Turn(c, e, Requests(WQ), ends[1].(left := maxTag), turns[2], ends[2])
    ensures Turn(c, e, Requests(PTWQ), ends[2], turns[3], ends[3])
    ensures Turn(c, e, Requests(RQ), ends[3], turns[4], ends[4])
    ensures Turn(c, e, Requests(PQ), ends[4], turns[5], ends[5])
    ensures Operate(c, s, e, maxFill, maxTag) == ends[5]
  {
    hide Turn, Drain, Obeys, Sized;
    var a := Drain(c, s, e, Misses, maxFill, multiset{});
    var b := Drain(c, a.state, e, Writes, a.left, a.answered);
    var d := Drain(c, b.state, e, Requests(WQ), maxTag, b.answered);
    var f := Drain(c, d.state, e, Requests(PTWQ), d.left, d.answered);
    var g := Drain(c, f.state, e, Requests(RQ), f.left, f.answered);
    var t0 := DrainExactly(c, s, e, Misses, maxFill, multiset{});
    var t1 := DrainExactly(c, a.state, e, Writes, a.left, a.answered);
    var t2 := DrainExactly(c, b.state, e, Requests(WQ), maxTag, b.answered);
    var t3 := DrainExactly(c, d.state, e, Requests(PTWQ), d.left, d.answered);
    var t4 := DrainExactly(c, f.state, e, Requests(RQ), f.left, f.answered);
    var t5 := DrainExactly(c, g.state, e, Requests(PQ), g.left, g.answered);
    turns := [t0, t1, t2, t3, t4, t5];
    ends := [a, b, d, f, g, Drain(c, g.state, e, Requests(PQ), g.left, g.answered)];
  }
}
