/** What every step of a cache level keeps: debts, distinct misses, return order, exclusive tags. */
module CacheProofs {
  import opened Bits
  import opened CacheModel
  import opened Waiters
  import opened Wrappers

  // ---------------------------------------------------------------- debts of a queue

  ghost function PacketDebts(c: Config): Packet -> multiset<Debt> { p => Debts(c, p) }

  /** Every waiter of every packet, with multiplicity. */
  ghost function Owed(c: Config, q: seq<Packet>): multiset<Debt> { Total(q, PacketDebts(c)) }

  lemma OwedRemove(c: Config, q: seq<Packet>, i: nat)
    requires i < |q|
    ensures Owed(c, q) == Owed(c, RemoveAt(q, i)) + Debts(c, q[i])
  {
    TotalSplit(q, i, PacketDebts(c));
    TotalConcat(q[..i], q[i + 1..], PacketDebts(c));
  }

  lemma OwedUpdate(c: Config, q: seq<Packet>, i: nat, x: Packet)
    requires i < |q|
    ensures Owed(c, q[i := x]) + Debts(c, q[i]) == Owed(c, q) + Debts(c, x)
  {
    TotalUpdate(q, i, x, PacketDebts(c));
  }

  lemma OwedAppend(c: Config, q: seq<Packet>, x: Packet)
    ensures Owed(c, q + [x]) == Owed(c, q) + Debts(c, x)
  {
    TotalConcat(q, [x], PacketDebts(c));
    assert [x][1..] == [];
  }

  lemma OwedInsert(c: Config, q: seq<Packet>, k: nat, x: Packet)
    requires k <= |q|
    ensures Owed(c, q[..k] + [x] + q[k..]) == Owed(c, q) + Debts(c, x)
  {
    TotalConcat(q[..k], q[k..], PacketDebts(c));
    assert q[..k] + q[k..] == q;
    TotalConcat(q[..k] + [x], q[k..], PacketDebts(c));
    OwedAppend(c, q[..k], x);
  }

  // ---------------------------------------------------------------- honest packets

  /** Only packets that fill this level carry waiters, and addresses are real. */
  ghost predicate Honest(p: Packet) { p.address != 0 && (p.toReturn != {} ==> p.fillThisLevel) }

  ghost predicate AllHonest(q: seq<Packet>) { forall i :: 0 <= i < |q| ==> Honest(q[i]) }

  ghost predicate AllReal(q: seq<Packet>) { forall i :: 0 <= i < |q| ==> q[i].address != 0 }

  lemma FindPacketReal(c: Config, q: seq<Packet>, address: nat)
    requires AllReal(q)
    ensures FindPacket(q, address, c.blockSize) == |q| <==>
            forall i :: 0 <= i < |q| ==> BlockOf(c, q[i].address) != BlockOf(c, address)
  {
    var k := FindPacket(q, address, c.blockSize);
    if k == |q| {
      forall i | 0 <= i < |q| ensures BlockOf(c, q[i].address) != BlockOf(c, address) {
        assert q[i].address != 0;
      }
    }
  }

  // ---------------------------------------------------------------- collisions

  /** The merge grain never joins packets of different blocks. */
  ghost predicate Fine(c: Config, grain: Pos) { grain == 1 || grain == c.blockSize }

  lemma SameGrainSameBlock(c: Config, grain: Pos, a: nat, b: nat)
    requires Fine(c, grain) && a / grain == b / grain
    ensures BlockOf(c, a) == BlockOf(c, b)
  {
  }

  lemma MergeSettles(c: Config, q: seq<Packet>, i: nat, grain: Pos)
    requires i < |q| && Merges(q, i, grain) && Fine(c, grain)
    ensures Settles(Owed(c, q), Owed(c, MergeAt(q, i, grain)))
  {
    var k := FindPacket(q[..i], q[i].address, grain);
    var m := Merged(q[i], q[k]);
    SameGrainSameBlock(c, grain, q[k].address, q[i].address);
    DebtsUnion(q[k].toReturn, q[i].toReturn, BlockOf(c, m.address));
    OwedUpdate(c, q, k, m);
    OwedRemove(c, q[k := m], i);
    OwedRemove(c, q, i);
    OwedRemove(c, RemoveAt(q, i), k);
    Trade(Owed(c, q), Owed(c, MergeAt(q, i, grain)), Owed(c, RemoveAt(RemoveAt(q, i), k)),
          Debts(c, q[i]), Debts(c, q[k]), Debts(c, m));
  }

  lemma CheckedOwed(c: Config, q: seq<Packet>, i: nat)
    requires i < |q|
    ensures Owed(c, q[i := q[i].(checked := true)]) == Owed(c, q)
  {
    TotalSame(q, i, q[i].(checked := true), PacketDebts(c));
  }

  lemma {:induction false} MergeWritesSettles(c: Config, q: seq<Packet>, i: nat, grain: Pos)
    requires i <= |q| && Fine(c, grain)
    ensures Settles(Owed(c, q), Owed(c, MergeWrites(q, i, grain)))
    decreases |q| - i
  {
    if i == |q| {
    } else if Merges(q, i, grain) {
      MergeSettles(c, q, i, grain);
      MergeWritesSettles(c, MergeAt(q, i, grain), i, grain);
      SettlesThen(Owed(c, q), Owed(c, MergeAt(q, i, grain)), Owed(c, MergeWrites(q, i, grain)));
    } else {
      CheckedOwed(c, q, i);
      MergeWritesSettles(c, q[i := q[i].(checked := true)], i + 1, grain);
    }
  }

  /** Every waiter of the read queue is answered from the write queue or keeps waiting for its block. */
  lemma {:induction false} CollideReadsSettles(c: Config, wq: seq<Packet>, q: seq<Packet>, i: nat, grain: Pos)
    requires i <= |q|
    ensures var r := CollideReads(c, wq, q, i, grain);
            Settles(Owed(c, q), Owed(c, r.0) + r.1)
    decreases |q| - i
  {
    var r := CollideReads(c, wq, q, i, grain);
    if i == |q| {
    } else if Forwards(wq, q[i], grain) {
      var next := RemoveAt(q, i);
      var n := CollideReads(c, wq, next, i, grain);
      OwedRemove(c, q, i);
      CollideReadsSettles(c, wq, next, i, grain);
      SettlesPlus(Owed(c, next), Owed(c, n.0) + n.1, Debts(c, q[i]));
      assert Owed(c, n.0) + n.1 + Debts(c, q[i]) == Owed(c, r.0) + r.1;
    } else if Merges(q, i, c.blockSize) {
      var next := MergeAt(q, i, c.blockSize);
      MergeSettles(c, q, i, c.blockSize);
      CollideReadsSettles(c, wq, next, i, grain);
      SettlesThen(Owed(c, q), Owed(c, next), Owed(c, r.0) + r.1);
    } else {
      CheckedOwed(c, q, i);
      CollideReadsSettles(c, wq, q[i := q[i].(checked := true)], i + 1, grain);
    }
  }

  /** The addresses a queue serves, at some grain. */
  ghost function Served(q: seq<Packet>, grain: Pos): set<int> {
    set i | 0 <= i < |q| && q[i].address != 0 :: q[i].address / grain
  }

  lemma ServedMerge(q: seq<Packet>, i: nat, grain: Pos)
    requires i < |q| && Merges(q, i, grain)
    ensures Served(MergeAt(q, i, grain), grain) == Served(q, grain)
  {
    var k := FindPacket(q[..i], q[i].address, grain);
    var r := MergeAt(q, i, grain);
    forall x | x in Served(q, grain) ensures x in Served(r, grain) {
      var j :| 0 <= j < |q| && q[j].address != 0 && q[j].address / grain == x;
      var n := if j == i then k else if j < i then j else j - 1;
      assert r[n].address != 0 && r[n].address / grain == x;
    }
    forall x | x in Served(r, grain) ensures x in Served(q, grain) {
      var n :| 0 <= n < |r| && r[n].address != 0 && r[n].address / grain == x;
      assert r[n].address == q[if n < i then n else n + 1].address;
    }
  }

  lemma ServedCheck(q: seq<Packet>, i: nat, grain: Pos)
    requires i < |q|
    ensures Served(q[i := q[i].(checked := true)], grain) == Served(q, grain)
  {
    var r := q[i := q[i].(checked := true)];
    assert forall j :: 0 <= j < |q| ==> r[j].address == q[j].address;
  }

  /** Merging writes forgets no address. */
  lemma {:induction false} MergeWritesServes(q: seq<Packet>, i: nat, grain: Pos)
    requires i <= |q|
    ensures Served(MergeWrites(q, i, grain), grain) == Served(q, grain)
    decreases |q| - i
  {
    hide Served;
    if i == |q| {
    } else if Merges(q, i, grain) {
      ServedMerge(q, i, grain);
      MergeWritesServes(MergeAt(q, i, grain), i, grain);
    } else {
      ServedCheck(q, i, grain);
      MergeWritesServes(q[i := q[i].(checked := true)], i + 1, grain);
    }
  }

  lemma RemoveHonest(q: seq<Packet>, i: nat)
    requires i < |q| && AllHonest(q)
    ensures AllHonest(RemoveAt(q, i))
  {
  }

  lemma MergeHonest(q: seq<Packet>, i: nat, grain: Pos)
    requires i < |q| && AllHonest(q) && Merges(q, i, grain)
    ensures AllHonest(MergeAt(q, i, grain))
  {
    var k := FindPacket(q[..i], q[i].address, grain);
    assert Honest(q[k]) && Honest(q[i]);
    RemoveHonest(q[k := Merged(q[i], q[k])], i);
  }

  lemma {:induction false} MergeWritesHonest(q: seq<Packet>, i: nat, grain: Pos)
    requires i <= |q| && AllHonest(q)
    ensures AllHonest(MergeWrites(q, i, grain))
    decreases |q| - i
  {
    if i == |q| {
    } else if Merges(q, i, grain) {
      MergeHonest(q, i, grain);
      MergeWritesHonest(MergeAt(q, i, grain), i, grain);
    } else {
      MergeWritesHonest(q[i := q[i].(checked := true)], i + 1, grain);
    }
  }

  lemma {:induction false} CollideReadsHonest(c: Config, wq: seq<Packet>, q: seq<Packet>, i: nat, grain: Pos)
    requires i <= |q| && AllHonest(q)
    ensures AllHonest(CollideReads(c, wq, q, i, grain).0)
    decreases |q| - i
  {
    if i == |q| {
    } else if Forwards(wq, q[i], grain) {
      RemoveHonest(q, i);
      CollideReadsHonest(c, wq, RemoveAt(q, i), i, grain);
    } else if Merges(q, i, c.blockSize) {
      MergeHonest(q, i, c.blockSize);
      CollideReadsHonest(c, wq, MergeAt(q, i, c.blockSize), i, grain);
    } else {
      CollideReadsHonest(c, wq, q[i := q[i].(checked := true)], i + 1, grain);
    }
  }

  // ---------------------------------------------------------------- debts of the cache

  ghost function Waiting(c: Config, s: State): multiset<Debt> {
    Owed(c, s.mshr) + Owed(c, s.inflight) + Owed(c, s.wq) + Owed(c, s.ptwq) + Owed(c, s.rq) + Owed(c, s.pq)
  }

  ghost predicate HonestState(s: State) {
    && AllReal(s.mshr) && AllReal(s.inflight)
    && AllHonest(s.wq) && AllHonest(s.ptwq) && AllHonest(s.rq) && AllHonest(s.pq)
  }

  /** The debts outside queue `id`. */
  ghost function Elsewhere(c: Config, s: State, id: QueueId): multiset<Debt> {
    var misses := Owed(c, s.mshr) + Owed(c, s.inflight);
    match id
    case WQ => misses + Owed(c, s.ptwq) + Owed(c, s.rq) + Owed(c, s.pq)
    case PTWQ => misses + Owed(c, s.wq) + Owed(c, s.rq) + Owed(c, s.pq)
    case RQ => misses + Owed(c, s.wq) + Owed(c, s.ptwq) + Owed(c, s.pq)
    case PQ => misses + Owed(c, s.wq) + Owed(c, s.ptwq) + Owed(c, s.rq)
  }

  lemma WaitingSplit(c: Config, s: State, id: QueueId)
    ensures Waiting(c, s) == Elsewhere(c, s, id) + Owed(c, Queue(s, id))
  {
    hide Owed;
  }

  lemma WaitingWith(c: Config, s: State, id: QueueId, q: seq<Packet>)
    ensures Waiting(c, WithQueue(s, id, q)) + Owed(c, Queue(s, id)) == Waiting(c, s) + Owed(c, q)
  {
    WaitingSplit(c, s, id);
    WaitingSplit(c, WithQueue(s, id, q), id);
    assert Elsewhere(c, WithQueue(s, id, q), id) == Elsewhere(c, s, id);
    hide Elsewhere;
    hide Waiting;
    hide Owed;
  }

  lemma OfferSettles(c: Config, s: State, id: QueueId, p: Packet)
    ensures var r := Accept(c, s, id, p);
            Waiting(c, r.0) == Waiting(c, s) + if r.1 then Debts(c, p) else multiset{}
  {
    var q := Queue(s, id);
    if |q| < c.queueSize(id) {
      var k := InsertionPoint(q);
      var x := Admitted(s, c, id, p);
      OwedInsert(c, q, k, x);
      WaitingWith(c, s, id, q[..k] + [x] + q[k..]);
      Cancel(Waiting(c, Accept(c, s, id, p).0), Owed(c, q), Waiting(c, s), Debts(c, x));
    }
  }

  lemma SettlesSix(a: multiset<Debt>, w: multiset<Debt>, w': multiset<Debt>, r: multiset<Debt>, r': multiset<Debt>,
                   p: multiset<Debt>, p': multiset<Debt>)
    requires Settles(w, w') && Settles(r, r') && Settles(p, p')
    ensures Settles(a + w + r + p, a + w' + r' + p')
  {
    SettlesPlus(w, w', a);
    SettlesPlus(r, r', a + w');
    SettlesPlus(p, p', a + w' + r');
    SettlesPlus(a + w, a + w', r);
    SettlesPlus(a + w + r, a + w' + r', p);
  }

  lemma CollideSettles(c: Config, s: State)
    ensures var r := CheckCollision(c, s);
            Settles(Waiting(c, s), Waiting(c, r.0) + r.1)
  {
    var grain := WriteGrain(c);
    var wq := MergeWrites(s.wq, FirstUnchecked(s.wq), grain);
    var rq := CollideReads(c, wq, s.rq, FirstUnchecked(s.rq), grain);
    var pq := CollideReads(c, wq, s.pq, FirstUnchecked(s.pq), grain);
    MergeWritesSettles(c, s.wq, FirstUnchecked(s.wq), grain);
    CollideReadsSettles(c, wq, s.rq, FirstUnchecked(s.rq), grain);
    CollideReadsSettles(c, wq, s.pq, FirstUnchecked(s.pq), grain);
    var a := Owed(c, s.mshr) + Owed(c, s.inflight) + Owed(c, s.ptwq);
    SettlesSix(a, Owed(c, s.wq), Owed(c, wq), Owed(c, s.rq), Owed(c, rq.0) + rq.1, Owed(c, s.pq), Owed(c, pq.0) + pq.1);
    assert Waiting(c, s) == a + Owed(c, s.wq) + Owed(c, s.rq) + Owed(c, s.pq);
    assert Waiting(c, CheckCollision(c, s).0) + (rq.1 + pq.1)
        == a + Owed(c, wq) + (Owed(c, rq.0) + rq.1) + (Owed(c, pq.0) + pq.1);
  }

  lemma JoinSettles(c: Config, s: State, k: nat, p: Packet)
    requires k < |s.mshr| && BlockOf(c, s.mshr[k].address) == BlockOf(c, p.address)
    ensures Settles(Owed(c, s.mshr) + Debts(c, p), Owed(c, s.mshr[k := Joined(s.mshr[k], p)]))
  {
    var j := Joined(s.mshr[k], p);
    var q := s.mshr[k := j];
    DebtsUnion(s.mshr[k].toReturn, p.toReturn, BlockOf(c, j.address));
    OwedUpdate(c, s.mshr, k, j);
    OwedRemove(c, s.mshr, k);
    var rest := Owed(c, RemoveAt(s.mshr, k));
    Cancel(Owed(c, q), Debts(c, s.mshr[k]), rest, Debts(c, j));
    SettlesPlus(Debts(c, s.mshr[k]) + Debts(c, p), Debts(c, j), rest);
    assert Owed(c, s.mshr) + Debts(c, p) == Debts(c, s.mshr[k]) + Debts(c, p) + rest;
  }

  lemma NoWaiters(c: Config, p: Packet)
    requires p.toReturn == {}
    ensures Debts(c, p) == multiset{}
  {
  }

  /** A handled miss leaves the packet's waiters with the block's outstanding entry. */
  lemma MissSettles(c: Config, s: State, p: Packet, lowerOk: bool)
    requires Honest(p) && HandleMiss(c, s, p, lowerOk).1
    ensures Settles(Owed(c, s.mshr) + Debts(c, p), Owed(c, HandleMiss(c, s, p, lowerOk).0.mshr))
  {
    var k := FindPacket(s.mshr, p.address, c.blockSize);
    if k < |s.mshr| {
      JoinSettles(c, s, k, p);
    } else if p.fillThisLevel {
      var x := p.(eventCycle := None);
      OwedAppend(c, s.mshr, x);
      assert Debts(c, x) == Debts(c, p);
    } else {
      NoWaiters(c, p);
    }
  }

  lemma WriteSettles(c: Config, s: State, p: Packet)
    ensures Owed(c, HandleWrite(c, s, p).inflight) == Owed(c, s.inflight) + Debts(c, p)
  {
    var x := p.(eventCycle := Some(Delay(s, c.fillLatency)));
    OwedAppend(c, s.inflight, x);
    assert Debts(c, x) == Debts(c, p);
  }

  lemma MissWaiting(c: Config, s: State, t: State, p: Packet)
    requires t == s.(mshr := t.mshr)
    requires Settles(Owed(c, s.mshr) + Debts(c, p), Owed(c, t.mshr))
    ensures Settles(Waiting(c, s) + Debts(c, p), Waiting(c, t))
  {
    var rest := Owed(c, s.inflight) + Owed(c, s.wq) + Owed(c, s.ptwq) + Owed(c, s.rq) + Owed(c, s.pq);
    SettlesPlus(Owed(c, s.mshr) + Debts(c, p), Owed(c, t.mshr), rest);
    assert Waiting(c, s) + Debts(c, p) == Owed(c, s.mshr) + Debts(c, p) + rest;
    assert Waiting(c, t) == Owed(c, t.mshr) + rest;
  }

  /** A finished lookup answers the packet's waiters or keeps them; the queues play no part. */
  lemma LookupSettles(c: Config, s: State, id: QueueId, p: Packet, lowerOk: bool)
    requires Sized(c, s) && Honest(p) && Lookup(c, s, id, p, lowerOk).1
    ensures var r := Lookup(c, s, id, p, lowerOk);
            Settles(Waiting(c, s) + Debts(c, p), Waiting(c, r.0) + r.2)
  {
    hide Settles;
    hide Debts;
    var r := Lookup(c, s, id, p, lowerOk);
    if Hits(c, s, p.address) {
      SettlesRefl(Waiting(c, s) + Debts(c, p));
    } else if id == WQ && !c.matchOffsetBits {
      WriteSettles(c, s, p);
      SettlesRefl(Waiting(c, s) + Debts(c, p));
      assert Waiting(c, r.0) + r.2 == Waiting(c, s) + Debts(c, p);
    } else {
      MissSettles(c, s, p, lowerOk);
      MissWaiting(c, s, r.0, p);
      assert Waiting(c, r.0) + r.2 == Waiting(c, r.0);
    }
  }

  lemma LookupIgnoresQueues(c: Config, s: State, id: QueueId, q: seq<Packet>, p: Packet, lowerOk: bool)
    requires Sized(c, s)
    ensures var r := Lookup(c, s, id, p, lowerOk);
            Lookup(c, WithQueue(s, id, q), id, p, lowerOk) == (WithQueue(r.0, id, q), r.1, r.2)
  {
  }

  lemma TagSettles(c: Config, s: State, id: QueueId, lowerOk: bool)
    requires Sized(c, s) && Queue(s, id) != [] && Honest(Queue(s, id)[0])
    requires Lookup(c, s, id, Queue(s, id)[0], lowerOk).1
    ensures var q := Queue(s, id);
            var r := Lookup(c, s, id, q[0], lowerOk);
            Settles(Waiting(c, s), Waiting(c, WithQueue(r.0, id, q[1..])) + r.2)
  {
    hide Settles;
    hide Debts;
    hide Waiting;
    hide Lookup;
    var q := Queue(s, id);
    var t := WithQueue(s, id, q[1..]);
    LookupIgnoresQueues(c, s, id, q[1..], q[0], lowerOk);
    LookupSettles(c, t, id, q[0], lowerOk);
    WaitingWith(c, s, id, q[1..]);
    assert Waiting(c, t) + (Debts(c, q[0]) + Owed(c, q[1..])) == Waiting(c, s) + Owed(c, q[1..]);
    Cancel(Waiting(c, s), Owed(c, q[1..]), Waiting(c, t), Debts(c, q[0]));
  }
}
