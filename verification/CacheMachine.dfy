/** The cache as the simulator runs it: fields changed in place, queues scanned by loops. */
module CacheMachine {
  import opened Bits
  import opened CacheInvariants
  import opened CacheModel
  import opened CacheOperate
  import opened CacheProofs
  import opened CacheTheorems
  import opened Waiters
  import opened Wrappers

  // ---------------------------------------------------------------- searches

  method SearchPacket(q: seq<Packet>, address: nat, grain: Pos) returns (k: nat)
    ensures k == FindPacket(q, address, grain)
  {
    k := 0;
    while k < |q| && !(q[k].address != 0 && q[k].address / grain == address / grain)
      invariant k <= |q|
      invariant FindPacket(q, address, grain) == k + FindPacket(q[k..], address, grain)
    {
      assert q[k..][1..] == q[k + 1..];
      k := k + 1;
    }
  }

  method SearchUnreturned(q: seq<Packet>) returns (k: nat)
    ensures k == InsertionPoint(q)
  {
    k := 0;
    while k < |q| && q[k].eventCycle.Some?
      invariant k <= |q|
      invariant InsertionPoint(q) == k + InsertionPoint(q[k..])
    {
      assert q[k..][1..] == q[k + 1..];
      k := k + 1;
    }
  }

  method SearchUnchecked(q: seq<Packet>) returns (k: nat)
    ensures k == FirstUnchecked(q)
  {
    k := 0;
    while k < |q| && q[k].checked
      invariant k <= |q|
      invariant FirstUnchecked(q) == k + FirstUnchecked(q[k..])
    {
      assert q[k..][1..] == q[k + 1..];
      k := k + 1;
    }
  }

  method SearchWay(c: Config, ways: seq<Block>, address: nat) returns (k: nat)
    ensures k == FindWay(c, ways, address)
  {
    k := 0;
    while k < |ways| && !(ways[k].valid && BlockOf(c, ways[k].address) == BlockOf(c, address))
      invariant k <= |ways|
      invariant FindWay(c, ways, address) == k + FindWay(c, ways[k..], address)
    {
      assert ways[k..][1..] == ways[k + 1..];
      k := k + 1;
    }
  }

  method SearchFree(ways: seq<Block>) returns (k: nat)
    ensures k == FreeWay(ways)
  {
    k := 0;
    while k < |ways| && ways[k].valid
      invariant k <= |ways|
      invariant FreeWay(ways) == k + FreeWay(ways[k..])
    {
      assert ways[k..][1..] == ways[k + 1..];
      k := k + 1;
    }
  }

  // ---------------------------------------------------------------- one attempt of an operate

  /** Filling packet `k` of a queue that is erased afterwards is one step of the drain. */
  lemma MissAttempt(c: Config, s: State, k: nat, e: Environment, n: nat, answered: multiset<Debt>)
    requires Sized(c, s) && Obeys(c, e) && k < |s.mshr| && n > 0 && Due(s, s.mshr[k])
    ensures var p := s.mshr[k];
            var r := HandleFill(c, s, p, e.victim(n, p), e.writebackOk(n));
            Drain(c, s.(mshr := s.mshr[k..]), e, Misses, n, answered) ==
              if r.1 then Drain(c, r.0.(mshr := s.mshr[k + 1..]), e, Misses, n - 1, answered + Debts(c, p))
              else Progress(s.(mshr := s.mshr[k..]), n, answered)
    ensures var p := s.mshr[k];
            var r := HandleFill(c, s, p, e.victim(n, p), e.writebackOk(n));
            r.1 || r.0 == s
  {
    var p := s.mshr[k];
    var v := s.(mshr := s.mshr[k..]);
    assert v.mshr[0] == p && v.mshr[1..] == s.mshr[k + 1..];
    FillFails(c, s, p, e.victim(n, p), e.writebackOk(n));
    FillIgnoresMisses(c, s, v.mshr, p, e.victim(n, p), e.writebackOk(n));
    hide HandleFill;
  }

  /** Nothing more happens without bandwidth, without a packet, or before the first packet is ready. */
  lemma MissStops(c: Config, s: State, e: Environment, n: nat, answered: multiset<Debt>)
    requires Sized(c, s) && (n == 0 || s.mshr == [] || !Due(s, s.mshr[0]))
    ensures Drain(c, s, e, Misses, n, answered) == Progress(s, n, answered)
  {
  }

  lemma WriteStops(c: Config, s: State, e: Environment, n: nat, answered: multiset<Debt>)
    requires Sized(c, s) && (n == 0 || s.inflight == [] || !Due(s, s.inflight[0]))
    ensures Drain(c, s, e, Writes, n, answered) == Progress(s, n, answered)
  {
  }

  lemma TagStops(c: Config, s: State, id: QueueId, e: Environment, n: nat, answered: multiset<Debt>)
    requires Sized(c, s) && (n == 0 || Queue(s, id) == [] || !Due(s, Queue(s, id)[0]))
    ensures Drain(c, s, e, Requests(id), n, answered) == Progress(s, n, answered)
  {
  }

  lemma FillFails(c: Config, s: State, p: Packet, victim: nat, ok: bool)
    requires Sized(c, s) && victim <= c.numWay
    ensures HandleFill(c, s, p, victim, ok).1 || HandleFill(c, s, p, victim, ok).0 == s
  {
  }

  lemma FillIgnoresMisses(c: Config, s: State, q: seq<Packet>, p: Packet, victim: nat, ok: bool)
    requires Sized(c, s) && victim <= c.numWay
    ensures var r := HandleFill(c, s, p, victim, ok);
            HandleFill(c, s.(mshr := q), p, victim, ok) == (r.0.(mshr := q), r.1)
  {
  }

  lemma WriteAttempt(c: Config, s: State, k: nat, e: Environment, n: nat, answered: multiset<Debt>)
    requires Sized(c, s) && Obeys(c, e) && k < |s.inflight| && n > 0 && Due(s, s.inflight[k])
    ensures var p := s.inflight[k];
            var r := HandleFill(c, s, p, e.victim(n, p), e.writebackOk(n));
            Drain(c, s.(inflight := s.inflight[k..]), e, Writes, n, answered) ==
              if r.1 then Drain(c, r.0.(inflight := s.inflight[k + 1..]), e, Writes, n - 1, answered + Debts(c, p))
              else Progress(s.(inflight := s.inflight[k..]), n, answered)
    ensures var p := s.inflight[k];
            var r := HandleFill(c, s, p, e.victim(n, p), e.writebackOk(n));
            r.1 || r.0 == s
  {
    var p := s.inflight[k];
    var v := s.(inflight := s.inflight[k..]);
    assert v.inflight[0] == p && v.inflight[1..] == s.inflight[k + 1..];
    FillFails(c, s, p, e.victim(n, p), e.writebackOk(n));
    FillIgnoresWrites(c, s, v.inflight, p, e.victim(n, p), e.writebackOk(n));
    hide HandleFill;
  }

  lemma FillIgnoresWrites(c: Config, s: State, q: seq<Packet>, p: Packet, victim: nat, ok: bool)
    requires Sized(c, s) && victim <= c.numWay
    ensures var r := HandleFill(c, s, p, victim, ok);
            HandleFill(c, s.(inflight := q), p, victim, ok) == (r.0.(inflight := q), r.1)
  {
  }

  lemma LookupFails(c: Config, s: State, id: QueueId, p: Packet, lowerOk: bool)
    requires Sized(c, s) && !Lookup(c, s, id, p, lowerOk).1
    ensures Lookup(c, s, id, p, lowerOk) == (s, false, multiset{})
  {
  }

  lemma TagAttempt(c: Config, s: State, id: QueueId, k: nat, e: Environment, n: nat, answered: multiset<Debt>)
    requires Sized(c, s) && k < |Queue(s, id)| && n > 0 && Due(s, Queue(s, id)[k])
    ensures var q := Queue(s, id);
            var r := Lookup(c, s, id, q[k], e.lowerOk(n, id));
            Drain(c, WithQueue(s, id, q[k..]), e, Requests(id), n, answered) ==
              if r.1 then Drain(c, WithQueue(r.0, id, q[k + 1..]), e, Requests(id), n - 1, answered + r.2)
              else Progress(WithQueue(s, id, q[k..]), n, answered)
  {
    var q := Queue(s, id);
    var v := WithQueue(s, id, q[k..]);
    assert q[k..][0] == q[k] && q[k..][1..] == q[k + 1..];
    LookupIgnoresQueues(c, s, id, q[k..], q[k], e.lowerOk(n, id));
    hide Lookup;
    hide Sized;
    var a := Tag(id, e.lowerOk(n, id));
    assert Attempt(v, e, Requests(id), n) == a && Enabled(c, v, a);
    var r := Lookup(c, s, id, q[k], e.lowerOk(n, id));
    assert Succeeds(c, v, a) == r.1;
    if r.1 {
      assert Apply(c, v, a) == Outcome(WithQueue(r.0, id, q[k + 1..]), multiset{}, r.2);
    }
  }

  // ---------------------------------------------------------------- collisions

  /** Erase the merged packet, or mark it checked and go on. */
  method MergeDuplicates(s: seq<Packet>, grain: Pos) returns (q: seq<Packet>)
    ensures q == MergeWrites(s, FirstUnchecked(s), grain)
  {
    q := s;
    var i: nat := SearchUnchecked(q);
    while i < |q|
      invariant i <= |q|
      invariant MergeWrites(q, i, grain) == MergeWrites(s, FirstUnchecked(s), grain)
      decreases |q| - i
    {
      var k := SearchPacket(q[..i], q[i].address, grain);
      if k < i && q[i].translated && q[k].translated {
        q := RemoveAt(q[k := Merged(q[i], q[k])], i);
      } else {
        q := q[i := q[i].(checked := true)];
        i := i + 1;
      }
    }
  }

  method CollideQueue(c: Config, wq: seq<Packet>, s: seq<Packet>, grain: Pos)
    returns (q: seq<Packet>, answered: multiset<Debt>)
    ensures q == CollideReads(c, wq, s, FirstUnchecked(s), grain).0
    ensures answered == CollideReads(c, wq, s, FirstUnchecked(s), grain).1
  {
    q, answered := s, multiset{};
    var i: nat := SearchUnchecked(q);
    while i < |q|
      invariant i <= |q|
      invariant CollideReads(c, wq, s, FirstUnchecked(s), grain).0 == CollideReads(c, wq, q, i, grain).0
      invariant CollideReads(c, wq, s, FirstUnchecked(s), grain).1 == answered + CollideReads(c, wq, q, i, grain).1
      decreases |q| - i
    {
      var f := SearchPacket(wq, q[i].address, grain);
      var k := SearchPacket(q[..i], q[i].address, c.blockSize);
      if f < |wq| && q[i].translated && wq[f].translated {
        answered := answered + Debts(c, q[i]);
        q := RemoveAt(q, i);
      } else if k < i && q[i].translated && q[k].translated {
        q := RemoveAt(q[k := Merged(q[i], q[k])], i);
      } else {
        q := q[i := q[i].(checked := true)];
        i := i + 1;
      }
    }
    assert answered + multiset{} == answered;
  }

  /** Insert ahead of packets without an event cycle, unless the queue is full. */
  method DoAddQueue(q: seq<Packet>, size: nat, p: Packet) returns (r: seq<Packet>, ok: bool)
    ensures ok == (|q| < size)
    ensures r == if ok then q[..InsertionPoint(q)] + [p] + q[InsertionPoint(q)..] else q
  {
    if |q| >= size {
      return q, false;
    }
    var k := SearchUnreturned(q);
    return q[..k] + [p] + q[k..], true;
  }

  class Cache {
    const config: Config
    var block: seq<seq<Block>>
    var mshr: seq<Packet>
    var inflightWrites: seq<Packet>
    var wq: seq<Packet>
    var ptwq: seq<Packet>
    var rq: seq<Packet>
    var pq: seq<Packet>
    var currentCycle: nat
    var warmup: bool

    function View(): State
      reads this
    {
      State(block, mshr, inflightWrites, wq, ptwq, rq, pq, currentCycle, warmup)
    }

    ghost predicate Valid()
      reads this
    {
      Sized(config, View()) && Inv(config, View())
    }

    constructor (c: Config)
      ensures Valid() && config == c && Initial(c, View())
    {
      config := c;
      block := seq(c.numSet, _ => seq(c.numWay, _ => Block(false, false, 0)));
      mshr, inflightWrites, wq, ptwq, rq, pq := [], [], [], [], [], [];
      currentCycle, warmup := 0, true;
      new;
      InitialInv(c, View());
    }

    // -------------------------------------------------------------- requests

    function HitReady(): nat
      reads this
    {
      currentCycle + if warmup then 0 else config.hitLatency
    }

    method AddRq(p: Packet) returns (ok: bool)
      requires Valid() && p.address != 0
      modifies `rq
      ensures (View(), ok) == Accept(config, old(View()), RQ, p) && Valid()
    {
      OfferKeeps(config, View(), RQ, p);
      hide Inv;
      var fwd := p.(fillThisLevel := true, translated := p.vAddress != p.address && p.address != 0,
                    checked := false, eventCycle := Some(HitReady()));
      rq, ok := DoAddQueue(rq, config.queueSize(RQ), fwd);
    }

    method AddWq(p: Packet) returns (ok: bool)
      requires Valid() && p.address != 0
      modifies `wq
      ensures (View(), ok) == Accept(config, old(View()), WQ, p) && Valid()
    {
      OfferKeeps(config, View(), WQ, p);
      hide Inv;
      var fwd := p.(fillThisLevel := true, translated := p.vAddress != p.address && p.address != 0,
                    checked := false, eventCycle := Some(HitReady()));
      wq, ok := DoAddQueue(wq, config.queueSize(WQ), fwd);
    }

    method AddPtwq(p: Packet) returns (ok: bool)
      requires Valid() && p.address != 0
      modifies `ptwq
      ensures (View(), ok) == Accept(config, old(View()), PTWQ, p) && Valid()
    {
      OfferKeeps(config, View(), PTWQ, p);
      hide Inv;
      var fwd := p.(fillThisLevel := true, translated := true, checked := false, eventCycle := Some(HitReady()));
      ptwq, ok := DoAddQueue(ptwq, config.queueSize(PTWQ), fwd);
    }

    method AddPq(p: Packet) returns (ok: bool)
      requires Valid() && p.address != 0 && (p.toReturn != {} ==> p.fillThisLevel)
      modifies `pq
      ensures (View(), ok) == Accept(config, old(View()), PQ, p) && Valid()
    {
      OfferKeeps(config, View(), PQ, p);
      hide Inv;
      var fwd := p.(translated := p.vAddress != p.address && p.address != 0,
                    checked := false, eventCycle := Some(HitReady()));
      pq, ok := DoAddQueue(pq, config.queueSize(PQ), fwd);
    }

    method CheckCollisions() returns (answered: multiset<Debt>)
      requires Valid()
      modifies `wq, `rq, `pq
      ensures (View(), answered) == CheckCollision(config, old(View())) && Valid()
    {
      CollideKeeps(config, View());
      hide Inv;
      var grain := WriteGrain(config);
      wq := MergeDuplicates(wq, grain);
      var forwarded, prefetched;
      rq, forwarded := CollideQueue(config, wq, rq, grain);
      pq, prefetched := CollideQueue(config, wq, pq, grain);
      answered := forwarded + prefetched;
    }

    // -------------------------------------------------------------- tag array

    method HandleFillPacket(p: Packet, e: Environment, n: nat) returns (success: bool)
      requires Sized(config, View()) && MayReplace(config, p, e.victim(n, p))
      modifies `block
      ensures (View(), success) == HandleFill(config, old(View()), p, e.victim(n, p), e.writebackOk(n))
    {
      var i := SetIndex(config, p.address);
      var way := SearchFree(block[i]);
      if way == config.numWay {
        way := e.victim(n, p);
      }
      success := true;
      if way < config.numWay {
        if block[i][way].valid && block[i][way].dirty {
          success := e.writebackOk(n);
        }
        if success {
          block := block[i := block[i][way := Block(true, p.kind == Write, p.address)]];
        }
      }
    }

    method TryHitPacket(p: Packet) returns (hit: bool, answered: multiset<Debt>)
      requires Sized(config, View())
      modifies `block
      ensures hit == Hits(config, old(View()), p.address)
      ensures View() == if hit then TryHit(config, old(View()), p) else old(View())
      ensures answered == if hit then Debts(config, p) else multiset{}
    {
      var i := SetIndex(config, p.address);
      var way := SearchWay(config, block[i], p.address);
      hit := way < config.numWay;
      answered := multiset{};
      if hit {
        answered := Debts(config, p);
        block := block[i := block[i][way := block[i][way].(dirty := p.kind == Write)]];
      }
    }

    method HandleMissPacket(p: Packet, lowerOk: bool) returns (success: bool)
      modifies `mshr
      ensures (View(), success) == HandleMiss(config, old(View()), p, lowerOk)
    {
      var k := SearchPacket(mshr, p.address, config.blockSize);
      var full := |mshr| == config.mshrSize;
      if k < |mshr| {
        var toReturn := mshr[k].toReturn + p.toReturn;
        if mshr[k].kind == Prefetch && p.kind != Prefetch {
          var priorEventCycle := mshr[k].eventCycle;
          mshr := mshr[k := p.(eventCycle := priorEventCycle, toReturn := toReturn)];
        } else {
          mshr := mshr[k := mshr[k].(toReturn := toReturn)];
        }
      } else {
        if full {
          return false;
        }
        var fwd := Forwarded(config, p);
        if !lowerOk {
          return false;
        }
        if fwd.toReturn != {} {
          mshr := mshr + [p.(eventCycle := None)];
        }
      }
      return true;
    }

    method HandleWritePacket(p: Packet)
      modifies `inflightWrites
      ensures View() == HandleWrite(config, old(View()), p)
    {
      var due := currentCycle + if warmup then 0 else config.fillLatency;
      inflightWrites := inflightWrites + [p.(eventCycle := Some(due))];
    }

    method LookupPacket(p: Packet, id: QueueId, lowerOk: bool) returns (done: bool, answered: multiset<Debt>)
      requires Sized(config, View())
      modifies `block, `mshr, `inflightWrites
      ensures (View(), done, answered) == Lookup(config, old(View()), id, p, lowerOk)
    {
      done, answered := TryHitPacket(p);
      if !done {
        if id == WQ && !config.matchOffsetBits {
          HandleWritePacket(p);
          done := true;
        } else {
          done := HandleMissPacket(p, lowerOk);
        }
      }
    }

    // -------------------------------------------------------------- operate

    /** The prefix of misses that are ready and fill, erased once the loop is over. */
    method OperateMisses(e: Environment, n: nat, before: multiset<Debt>) returns (left: nat, answered: multiset<Debt>)
      requires Sized(config, View()) && Obeys(config, e)
      modifies `block, `mshr
      ensures Progress(View(), left, answered) == Drain(config, old(View()), e, Misses, n, before)
    {
      hide HandleFill;
      hide Drain;
      left, answered := n, before;
      var k := 0;
      ghost var start := View();
      assert mshr[0..] == mshr;
      while left > 0 && k < |mshr| && Due(View(), mshr[k])
        invariant k <= |mshr| && Sized(config, View())
        invariant View() == start.(sets := block)
        invariant Drain(config, View().(mshr := mshr[k..]), e, Misses, left, answered)
               == Drain(config, start, e, Misses, n, before)
        decreases |mshr| - k
      {
        MissAttempt(config, View(), k, e, left, answered);
        var ok := HandleFillPacket(mshr[k], e, left);
        if !ok {
          mshr := mshr[k..];
          return;
        }
        answered := answered + Debts(config, mshr[k]);
        k, left := k + 1, left - 1;
      }
      mshr := mshr[k..];
      MissStops(config, View(), e, left, answered);
    }

    method OperateWrites(e: Environment, n: nat, before: multiset<Debt>) returns (left: nat, answered: multiset<Debt>)
      requires Sized(config, View()) && Obeys(config, e)
      modifies `block, `inflightWrites
      ensures Progress(View(), left, answered) == Drain(config, old(View()), e, Writes, n, before)
    {
      hide HandleFill;
      hide Drain;
      left, answered := n, before;
      var k := 0;
      ghost var start := View();
      assert inflightWrites[0..] == inflightWrites;
      while left > 0 && k < |inflightWrites| && Due(View(), inflightWrites[k])
        invariant k <= |inflightWrites| && Sized(config, View())
        invariant View() == start.(sets := block)
        invariant Drain(config, View().(inflight := inflightWrites[k..]), e, Writes, left, answered)
               == Drain(config, start, e, Writes, n, before)
        decreases |inflightWrites| - k
      {
        WriteAttempt(config, View(), k, e, left, answered);
        var ok := HandleFillPacket(inflightWrites[k], e, left);
        if !ok {
          inflightWrites := inflightWrites[k..];
          return;
        }
        answered := answered + Debts(config, inflightWrites[k]);
        k, left := k + 1, left - 1;
      }
      inflightWrites := inflightWrites[k..];
      WriteStops(config, View(), e, left, answered);
    }

    method Erase(id: QueueId, q: seq<Packet>)
      modifies `wq, `ptwq, `rq, `pq
      ensures View() == WithQueue(old(View()), id, q)
    {
      match id
      case WQ => wq := q;
      case PTWQ => ptwq := q;
      case RQ => rq := q;
      case PQ => pq := q;
    }

    /** The prefix of requests that are ready and handled, erased once the loop is over. */
    method OperateTags(id: QueueId, e: Environment, n: nat, before: multiset<Debt>)
      returns (left: nat, answered: multiset<Debt>)
      requires Sized(config, View())
      modifies this
      ensures Progress(View(), left, answered) == Drain(config, old(View()), e, Requests(id), n, before)
    {
      hide Lookup;
      hide Drain;
      left, answered := n, before;
      var k := 0;
      ghost var start := View();
      var q := Queue(View(), id);
      assert q[0..] == q;
      while left > 0 && k < |q| && Due(View(), q[k])
        invariant k <= |q| && Sized(config, View()) && Queue(View(), id) == q
        invariant Drain(config, WithQueue(View(), id, q[k..]), e, Requests(id), left, answered)
               == Drain(config, start, e, Requests(id), n, before)
        decreases |q| - k
      {
        TagAttempt(config, View(), id, k, e, left, answered);
        LookupQueues(config, View(), id, q[k], e.lowerOk(left, id));
        if !Lookup(config, View(), id, q[k], e.lowerOk(left, id)).1 {
          LookupFails(config, View(), id, q[k], e.lowerOk(left, id));
        }
        var done, paid := LookupPacket(q[k], id, e.lowerOk(left, id));
        if !done {
          Erase(id, q[k..]);
          return;
        }
        answered := answered + paid;
        k, left := k + 1, left - 1;
      }
      Erase(id, q[k..]);
      TagStops(config, View(), id, e, left, answered);
    }

    /** One cycle of work; what holds on every run holds after it. */
    method OperateCycle(e: Environment, maxFill: nat, maxTag: nat) returns (answered: multiset<Debt>)
      requires Valid() && Obeys(config, e)
      modifies this
      ensures var r := Operate(config, old(View()), e, maxFill, maxTag);
              View() == r.state && answered == r.answered
      ensures Valid()
    {
      ghost var start := View();
      OperateKeeps(config, start, e, maxFill, maxTag);
      hide Inv;
      hide Drain;
      var left;
      left, answered := OperateMisses(e, maxFill, multiset{});
      left, answered := OperateWrites(e, left, answered);
      left, answered := OperateTags(WQ, e, maxTag, answered);
      left, answered := OperateTags(PTWQ, e, left, answered);
      left, answered := OperateTags(RQ, e, left, answered);
      left, answered := OperateTags(PQ, e, left, answered);
    }

    /** The lower level returns a block; the entry moves in front of the unreturned ones. */
    method ReturnBlock(address: nat)
      requires Valid() && Enabled(config, View(), Answer(address))
      modifies `mshr
      ensures View() == ReturnData(config, old(View()), address) && Valid()
    {
      AnswerKeeps(config, View(), address);
      ReturnIsSwap(config, View(), address);
      hide Inv;
      var k := SearchPacket(mshr, address, config.blockSize);
      var f := SearchUnreturned(mshr);
      mshr := mshr[k := mshr[k].(eventCycle := Some(currentCycle + if warmup then 0 else config.fillLatency))];
      mshr := mshr[k := mshr[f]][f := mshr[k]];
    }

    method Advance(warm: bool)
      requires Valid() && (warm ==> warmup)
      modifies `currentCycle, `warmup
      ensures View() == Apply(config, old(View()), Tick(warm)).state && Valid()
    {
      TickKeeps(config, View(), warm);
      hide Inv;
      currentCycle, warmup := currentCycle + 1, warm;
    }
  }
}
