/** The invariants of a cache level and their preservation by every step. */
module CacheInvariants {
  import opened Bits
  import opened CacheModel
  import opened CacheProofs
  import opened Waiters
  import opened Wrappers

  // ---------------------------------------------------------------- the invariants

  /** Miss registers never share a block and never outnumber their capacity. */
  ghost predicate DistinctMisses(c: Config, q: seq<Packet>) {
    && |q| <= c.mshrSize
    && forall i, j :: 0 <= i < j < |q| ==> BlockOf(c, q[i].address) != BlockOf(c, q[j].address)
  }

  /** Returned entries come first, by increasing fill cycle. */
  ghost predicate Sequenced(q: seq<Packet>) {
    forall i, j :: 0 <= i < j < |q| && q[j].eventCycle.Some? ==>
      q[i].eventCycle.Some? && q[i].eventCycle.value <= q[j].eventCycle.value
  }

  ghost predicate Within(q: seq<Packet>, limit: nat) {
    forall i :: 0 <= i < |q| && q[i].eventCycle.Some? ==> q[i].eventCycle.value <= limit
  }

  /** Fill order, for returned misses and for writes in flight. */
  ghost predicate FillOrder(c: Config, s: State) {
    && Sequenced(s.mshr) && Within(s.mshr, Delay(s, c.fillLatency))
    && Sequenced(s.inflight) && Within(s.inflight, Delay(s, c.fillLatency))
    && forall i :: 0 <= i < |s.inflight| ==> s.inflight[i].eventCycle.Some?
  }

  /** Writes cannot bypass the miss registers. */
  predicate WritesAllocate(c: Config) { c.matchOffsetBits || c.queueSize(WQ) == 0 }

  /** Valid ways hold blocks of their own set. */
  ghost predicate SetPlaced(c: Config, ways: seq<Block>, i: nat) {
    forall w :: 0 <= w < |ways| && ways[w].valid ==> SetIndex(c, ways[w].address) == i
  }

  ghost predicate Placed(c: Config, s: State) { forall i :: 0 <= i < |s.sets| ==> SetPlaced(c, s.sets[i], i) }

  /** Valid ways of one set hold different blocks, all of that set. */
  ghost predicate SetTidy(c: Config, ways: seq<Block>, i: nat) {
    && SetPlaced(c, ways, i)
    && forall v, w :: 0 <= v < w < |ways| && ways[v].valid && ways[w].valid ==>
         BlockOf(c, ways[v].address) != BlockOf(c, ways[w].address)
  }

  ghost predicate Tidy(c: Config, s: State) { forall i :: 0 <= i < |s.sets| ==> SetTidy(c, s.sets[i], i) }

  ghost predicate MissesAbsent(c: Config, s: State)
    requires Sized(c, s)
  {
    forall i :: 0 <= i < |s.mshr| ==> !Hits(c, s, s.mshr[i].address)
  }

  /** Under write-allocate, a block is valid in one way at most, and not while a miss to it is outstanding. */
  ghost predicate Exclusive(c: Config, s: State)
    requires Sized(c, s)
  {
    && s.inflight == []
    && (c.queueSize(WQ) == 0 ==> s.wq == [])
    && Tidy(c, s)
    && MissesAbsent(c, s)
  }

  ghost predicate Inv(c: Config, s: State) {
    && Sized(c, s)
    && HonestState(s)
    && DistinctMisses(c, s.mshr)
    && FillOrder(c, s)
    && Placed(c, s)
    && (WritesAllocate(c) ==> Exclusive(c, s))
  }

  // ---------------------------------------------------------------- accepting and merging

  lemma AcceptHonest(c: Config, s: State, id: QueueId, p: Packet)
    requires HonestState(s) && Enabled(c, s, Offer(id, p))
    ensures HonestState(Accept(c, s, id, p).0)
  {
    assert Honest(Admitted(s, c, id, p));
    assert AllHonest(Queue(s, id));
  }

  lemma CollideHonest(c: Config, s: State)
    requires HonestState(s)
    ensures HonestState(CheckCollision(c, s).0)
  {
    var grain := WriteGrain(c);
    var wq := MergeWrites(s.wq, FirstUnchecked(s.wq), grain);
    MergeWritesHonest(s.wq, FirstUnchecked(s.wq), grain);
    CollideReadsHonest(c, wq, s.rq, FirstUnchecked(s.rq), grain);
    CollideReadsHonest(c, wq, s.pq, FirstUnchecked(s.pq), grain);
  }

  lemma MergeWritesEmpty(q: seq<Packet>, grain: Pos)
    ensures MergeWrites([], 0, grain) == [] && FirstUnchecked([]) == 0
  {
  }

  lemma OfferKeeps(c: Config, s: State, id: QueueId, p: Packet)
    requires Inv(c, s) && Enabled(c, s, Offer(id, p))
    ensures Inv(c, Accept(c, s, id, p).0)
  {
    AcceptHonest(c, s, id, p);
  }

  lemma CollideKeeps(c: Config, s: State)
    requires Inv(c, s)
    ensures Inv(c, CheckCollision(c, s).0)
  {
    CollideHonest(c, s);
    MergeWritesEmpty(s.wq, WriteGrain(c));
  }

  // ---------------------------------------------------------------- fills

  /** Writing an absent block into a set keeps the set tidy and changes no other block's presence. */
  lemma PlaceTidy(c: Config, ways: seq<Block>, i: nat, w: nat, b: Block)
    requires SetTidy(c, ways, i) && w < |ways| && b.valid && SetIndex(c, b.address) == i
    requires FindWay(c, ways, b.address) == |ways|
    ensures SetTidy(c, ways[w := b], i)
  {
  }

  lemma PlaceAbsent(c: Config, ways: seq<Block>, w: nat, b: Block, address: nat)
    requires w < |ways| && FindWay(c, ways, address) == |ways|
    requires BlockOf(c, b.address) != BlockOf(c, address)
    ensures FindWay(c, ways[w := b], address) == |ways|
  {
    var r := ways[w := b];
    assert forall j :: 0 <= j < |ways| ==> !(r[j].valid && BlockOf(c, r[j].address) == BlockOf(c, address));
  }

  /** What a tidy set holds after writing an absent block: all it held but the replaced block, and the new one. */
  lemma PlacePresence(c: Config, ways: seq<Block>, i: nat, w: nat, b: Block, address: nat)
    requires SetTidy(c, ways, i) && w < |ways| && b.valid
    ensures FindWay(c, ways[w := b], address) < |ways| <==>
            || BlockOf(c, b.address) == BlockOf(c, address)
            || (FindWay(c, ways, address) < |ways| &&
                !(ways[w].valid && BlockOf(c, ways[w].address) == BlockOf(c, address)))
  {
    var r := ways[w := b];
    var k := FindWay(c, ways, address);
    assert r[w] == b;
    if k < |ways| && k != w {
      assert r[k] == ways[k];
    }
  }

  lemma FillAbsent(c: Config, s: State, p: Packet, victim: nat, ok: bool, address: nat)
    requires Sized(c, s) && victim <= c.numWay && !Hits(c, s, address)
    requires BlockOf(c, p.address) != BlockOf(c, address)
    ensures !Hits(c, HandleFill(c, s, p, victim, ok).0, address)
  {
    var w := FillWay(c, s, p.address, victim);
    var i := SetIndex(c, p.address);
    if w < c.numWay && SetIndex(c, address) == i {
      PlaceAbsent(c, s.sets[i], w, Block(true, p.kind == Write, p.address), address);
    }
  }

  lemma FillTidy(c: Config, s: State, p: Packet, victim: nat, ok: bool)
    requires Sized(c, s) && victim <= c.numWay && Tidy(c, s) && !Hits(c, s, p.address)
    ensures Tidy(c, HandleFill(c, s, p, victim, ok).0)
  {
    var w := FillWay(c, s, p.address, victim);
    var i := SetIndex(c, p.address);
    if w < c.numWay {
      PlaceTidy(c, s.sets[i], i, w, Block(true, p.kind == Write, p.address));
    }
  }

  lemma FillPlaced(c: Config, s: State, p: Packet, victim: nat, ok: bool)
    requires Sized(c, s) && victim <= c.numWay && Placed(c, s)
    ensures Placed(c, HandleFill(c, s, p, victim, ok).0)
  {
  }

  lemma TailKeeps(c: Config, q: seq<Packet>, limit: nat)
    requires q != [] && AllReal(q) && Sequenced(q) && Within(q, limit)
    ensures AllReal(q[1..]) && Sequenced(q[1..]) && Within(q[1..], limit)
    ensures DistinctMisses(c, q) ==> DistinctMisses(c, q[1..])
  {
  }

  lemma FillMissExclusive(c: Config, s: State, victim: nat, ok: bool)
    requires Sized(c, s) && s.mshr != [] && victim <= c.numWay
    requires DistinctMisses(c, s.mshr) && Exclusive(c, s)
    requires HandleFill(c, s, s.mshr[0], victim, ok).1
    ensures Exclusive(c, HandleFill(c, s, s.mshr[0], victim, ok).0.(mshr := s.mshr[1..]))
  {
    var p := s.mshr[0];
    var t := HandleFill(c, s, p, victim, ok).0;
    assert !Hits(c, s, p.address);
    FillTidy(c, s, p, victim, ok);
    forall i | 0 <= i < |s.mshr[1..]| ensures !Hits(c, t, s.mshr[1..][i].address) {
      assert s.mshr[1..][i] == s.mshr[i + 1];
      FillAbsent(c, s, p, victim, ok, s.mshr[i + 1].address);
    }
  }

  lemma FillMissKeeps(c: Config, s: State, victim: nat, ok: bool)
    requires Inv(c, s) && Enabled(c, s, FillMiss(victim, ok))
    ensures Inv(c, Apply(c, s, FillMiss(victim, ok)).state)
  {
    if HandleFill(c, s, s.mshr[0], victim, ok).1 {
      TailKeeps(c, s.mshr, Delay(s, c.fillLatency));
      FillPlaced(c, s, s.mshr[0], victim, ok);
      if WritesAllocate(c) {
        FillMissExclusive(c, s, victim, ok);
      }
    }
  }

  lemma FillWriteKeeps(c: Config, s: State, victim: nat, ok: bool)
    requires Inv(c, s) && Enabled(c, s, FillWrite(victim, ok))
    ensures Inv(c, Apply(c, s, FillWrite(victim, ok)).state)
  {
    TailKeeps(c, s.inflight, Delay(s, c.fillLatency));
    FillPlaced(c, s, s.inflight[0], victim, ok);
  }

  // ---------------------------------------------------------------- lookups

  lemma DirtyTidy(c: Config, ways: seq<Block>, i: nat, w: nat, dirty: bool)
    requires SetTidy(c, ways, i) && w < |ways|
    ensures SetTidy(c, ways[w := ways[w].(dirty := dirty)], i)
  {
  }

  lemma DirtyAbsent(c: Config, ways: seq<Block>, w: nat, dirty: bool, address: nat)
    requires w < |ways| && FindWay(c, ways, address) == |ways|
    ensures FindWay(c, ways[w := ways[w].(dirty := dirty)], address) == |ways|
  {
    var r := ways[w := ways[w].(dirty := dirty)];
    assert forall j :: 0 <= j < |ways| ==> !(r[j].valid && BlockOf(c, r[j].address) == BlockOf(c, address));
  }

  lemma HitExclusive(c: Config, s: State, p: Packet)
    requires Sized(c, s) && Exclusive(c, s) && Hits(c, s, p.address)
    ensures Exclusive(c, TryHit(c, s, p))
  {
    var i := SetIndex(c, p.address);
    var w := FindWay(c, s.sets[i], p.address);
    DirtyTidy(c, s.sets[i], i, w, p.kind == Write);
    forall k | 0 <= k < |s.mshr| ensures !Hits(c, TryHit(c, s, p), s.mshr[k].address) {
      if SetIndex(c, s.mshr[k].address) == i {
        DirtyAbsent(c, s.sets[i], w, p.kind == Write, s.mshr[k].address);
      }
    }
  }

  lemma JoinKeeps(c: Config, q: seq<Packet>, k: nat, p: Packet, limit: nat)
    requires k < |q| && BlockOf(c, q[k].address) == BlockOf(c, p.address) && p.address != 0
    requires AllReal(q) && DistinctMisses(c, q) && Sequenced(q) && Within(q, limit)
    ensures var r := q[k := Joined(q[k], p)];
            AllReal(r) && DistinctMisses(c, r) && Sequenced(r) && Within(r, limit)
  {
    var j := Joined(q[k], p);
    JoinedSame(c, q[k], p);
    hide Joined;
    JoinOrder(q, k, j, limit);
    JoinDistinct(c, q, k, j);
  }

  /** Joining keeps the block, the progress and all waiters; the result is a prefetch only if both were. */
  lemma JoinedSame(c: Config, entry: Packet, p: Packet)
    requires BlockOf(c, entry.address) == BlockOf(c, p.address) && p.address != 0 && entry.address != 0
    ensures var j := Joined(entry, p);
            && j.eventCycle == entry.eventCycle && j.address != 0 && BlockOf(c, j.address) == BlockOf(c, entry.address)
            && j.toReturn == entry.toReturn + p.toReturn
            && (j.kind == Prefetch <==> entry.kind == Prefetch && p.kind == Prefetch)
  {
  }

  lemma JoinOrder(q: seq<Packet>, k: nat, j: Packet, limit: nat)
    requires k < |q| && j.eventCycle == q[k].eventCycle && Sequenced(q) && Within(q, limit)
    ensures Sequenced(q[k := j]) && Within(q[k := j], limit)
  {
  }

  lemma JoinDistinct(c: Config, q: seq<Packet>, k: nat, j: Packet)
    requires k < |q| && j.address != 0 && BlockOf(c, j.address) == BlockOf(c, q[k].address)
    requires AllReal(q) && DistinctMisses(c, q)
    ensures AllReal(q[k := j]) && DistinctMisses(c, q[k := j])
  {
    hide BlockOf;
  }

  lemma AllocateKeeps(c: Config, q: seq<Packet>, p: Packet, limit: nat)
    requires AllReal(q) && DistinctMisses(c, q) && Sequenced(q) && Within(q, limit)
    requires p.address != 0 && |q| < c.mshrSize && p.eventCycle.None?
    requires forall i :: 0 <= i < |q| ==> BlockOf(c, q[i].address) != BlockOf(c, p.address)
    ensures var r := q + [p];
            AllReal(r) && DistinctMisses(c, r) && Sequenced(r) && Within(r, limit)
  {
  }

  /** The miss registers may change within their own invariants. */
  lemma MissesReplaced(c: Config, s: State, q: seq<Packet>)
    requires Inv(c, s) && Sized(c, s) && AllReal(q) && DistinctMisses(c, q)
    requires Sequenced(q) && Within(q, Delay(s, c.fillLatency))
    requires WritesAllocate(c) ==> MissesAbsent(c, s.(mshr := q))
    ensures Inv(c, s.(mshr := q))
  {
    hide AllHonest;
    hide AllReal;
    hide DistinctMisses;
    hide Sequenced;
    hide Within;
  }

  lemma JoinAbsent(c: Config, s: State, k: nat, p: Packet)
    requires Sized(c, s) && k < |s.mshr| && MissesAbsent(c, s) && !Hits(c, s, p.address)
    ensures MissesAbsent(c, s.(mshr := s.mshr[k := Joined(s.mshr[k], p)]))
  {
  }

  lemma AllocateAbsent(c: Config, s: State, p: Packet)
    requires Sized(c, s) && MissesAbsent(c, s) && !Hits(c, s, p.address)
    ensures MissesAbsent(c, s.(mshr := s.mshr + [p]))
  {
  }

  lemma MissKeeps(c: Config, s: State, p: Packet, lowerOk: bool)
    requires Inv(c, s) && Sized(c, s) && Honest(p)
    requires WritesAllocate(c) ==> !Hits(c, s, p.address)
    ensures Inv(c, HandleMiss(c, s, p, lowerOk).0)
  {
    var k := FindPacket(s.mshr, p.address, c.blockSize);
    var x := p.(eventCycle := None);
    FindPacketReal(c, s.mshr, p.address);
    if k < |s.mshr| {
      JoinKeeps(c, s.mshr, k, p, Delay(s, c.fillLatency));
      if WritesAllocate(c) {
        JoinAbsent(c, s, k, p);
      }
      hide Inv;
      hide MissesAbsent;
      MissesReplaced(c, s, s.mshr[k := Joined(s.mshr[k], p)]);
    } else if |s.mshr| < c.mshrSize {
      AllocateKeeps(c, s.mshr, x, Delay(s, c.fillLatency));
      if WritesAllocate(c) {
        AllocateAbsent(c, s, x);
      }
      hide Inv;
      hide MissesAbsent;
      MissesReplaced(c, s, s.mshr + [x]);
    } else {
      assert |s.mshr| == c.mshrSize;
    }
  }

  lemma WriteOrder(q: seq<Packet>, p: Packet, limit: nat)
    requires Sequenced(q) && Within(q, limit) && p.eventCycle == Some(limit)
    requires forall i :: 0 <= i < |q| ==> q[i].eventCycle.Some?
    ensures Sequenced(q + [p]) && Within(q + [p], limit)
  {
  }

  lemma WriteKeeps(c: Config, s: State, p: Packet)
    requires Inv(c, s) && Honest(p) && !WritesAllocate(c)
    ensures Inv(c, HandleWrite(c, s, p))
  {
    WriteOrder(s.inflight, p.(eventCycle := Some(Delay(s, c.fillLatency))), Delay(s, c.fillLatency));
  }

  lemma HitPlaced(c: Config, s: State, p: Packet)
    requires Sized(c, s) && Placed(c, s) && Hits(c, s, p.address)
    ensures Placed(c, TryHit(c, s, p))
  {
  }

  lemma HitKeeps(c: Config, s: State, p: Packet)
    requires Inv(c, s) && Hits(c, s, p.address)
    ensures Inv(c, TryHit(c, s, p))
  {
    HitPlaced(c, s, p);
    if WritesAllocate(c) {
      HitExclusive(c, s, p);
    }
  }

  lemma LookupKeeps(c: Config, s: State, id: QueueId, p: Packet, lowerOk: bool)
    requires Inv(c, s) && Sized(c, s) && Honest(p) && (id == WQ ==> c.queueSize(WQ) != 0)
    ensures Inv(c, Lookup(c, s, id, p, lowerOk).0)
  {
    hide Inv;
    if Hits(c, s, p.address) {
      HitKeeps(c, s, p);
    } else if id == WQ && !c.matchOffsetBits {
      WriteKeeps(c, s, p);
    } else {
      MissKeeps(c, s, p, lowerOk);
    }
  }

  lemma DropHead(c: Config, s: State, id: QueueId)
    requires Inv(c, s) && Queue(s, id) != []
    ensures Inv(c, WithQueue(s, id, Queue(s, id)[1..]))
  {
    assert AllHonest(Queue(s, id));
  }

  lemma HeadHonest(c: Config, s: State, id: QueueId)
    requires Inv(c, s) && Queue(s, id) != []
    ensures Honest(Queue(s, id)[0])
    ensures id == WQ ==> c.queueSize(WQ) != 0
  {
    assert AllHonest(Queue(s, id));
  }

  // ---------------------------------------------------------------- data returns

  lemma SwapSequenced(q: seq<Packet>, k: nat, f: nat, done: Packet)
    requires k < |q| && f == FirstUnreturned(q) && f < |q| && q[k].eventCycle.None?
    requires Sequenced(q) && done.eventCycle.Some?
    ensures Sequenced(q[k := q[f]][f := done]) <==>
            forall i :: 0 <= i < f ==> q[i].eventCycle.value <= done.eventCycle.value
  {
    var r := q[k := q[f]][f := done];
    if Sequenced(r) {
      forall i | 0 <= i < f ensures q[i].eventCycle.value <= done.eventCycle.value {
        assert r[i] == q[i] && r[f] == done;
      }
    }
  }

  lemma LookupQueues(c: Config, s: State, id: QueueId, p: Packet, lowerOk: bool)
    requires Sized(c, s)
    ensures Queue(Lookup(c, s, id, p, lowerOk).0, id) == Queue(s, id)
  {
  }

  lemma TagKeeps(c: Config, s: State, id: QueueId, lowerOk: bool)
    requires Inv(c, s) && Sized(c, s) && Enabled(c, s, Tag(id, lowerOk))
    ensures Inv(c, Apply(c, s, Tag(id, lowerOk)).state)
  {
    hide Inv;
    hide Lookup;
    var p := Queue(s, id)[0];
    HeadHonest(c, s, id);
    LookupKeeps(c, s, id, p, lowerOk);
    LookupQueues(c, s, id, p, lowerOk);
    DropHead(c, Lookup(c, s, id, p, lowerOk).0, id);
  }

  lemma SwapMisses(c: Config, q: seq<Packet>, k: nat, f: nat, done: Packet, limit: nat)
    requires k < |q| && f < |q| && done.address == q[k].address && done.eventCycle == Some(limit)
    requires AllReal(q) && DistinctMisses(c, q) && Within(q, limit)
    ensures var r := q[k := q[f]][f := done];
            AllReal(r) && DistinctMisses(c, r) && Within(r, limit)
  {
  }

  lemma SwapAbsent(c: Config, s: State, k: nat, f: nat, done: Packet)
    requires Sized(c, s) && k < |s.mshr| && f < |s.mshr| && done.address == s.mshr[k].address
    requires MissesAbsent(c, s)
    ensures MissesAbsent(c, s.(mshr := s.mshr[k := s.mshr[f]][f := done]))
  {
    var t := s.(mshr := s.mshr[k := s.mshr[f]][f := done]);
    forall i | 0 <= i < |t.mshr| ensures !Hits(c, t, t.mshr[i].address) {
      var j := if i == f then k else if i == k then f else i;
      assert t.mshr[i].address == s.mshr[j].address;
      assert !Hits(c, s, s.mshr[j].address);
    }
  }

  /** What the swap of `ReturnData` amounts to. */
  lemma ReturnIsSwap(c: Config, s: State, address: nat)
    requires Enabled(c, s, Answer(address))
    ensures var k := FindPacket(s.mshr, address, c.blockSize);
            var f := FirstUnreturned(s.mshr);
            && k < |s.mshr| && f <= k && s.mshr[k].eventCycle.None?
            && ReturnData(c, s, address) ==
               s.(mshr := s.mshr[k := s.mshr[f]][f := s.mshr[k].(eventCycle := Some(Delay(s, c.fillLatency)))])
  {
    var k := FindPacket(s.mshr, address, c.blockSize);
    var f := FirstUnreturned(s.mshr);
    var done := s.mshr[k].(eventCycle := Some(Delay(s, c.fillLatency)));
    if k == f {
      assert s.mshr[k := done][k := done][f := done] == s.mshr[k := s.mshr[f]][f := done];
    } else {
      assert s.mshr[k := done][k := s.mshr[f]][f := done] == s.mshr[k := s.mshr[f]][f := done];
    }
  }

  lemma AnswerKeeps(c: Config, s: State, address: nat)
    requires Inv(c, s) && Enabled(c, s, Answer(address))
    ensures Inv(c, ReturnData(c, s, address))
  {
    var k := FindPacket(s.mshr, address, c.blockSize);
    var f := FirstUnreturned(s.mshr);
    ReturnIsSwap(c, s, address);
    var done := s.mshr[k].(eventCycle := Some(Delay(s, c.fillLatency)));
    SwapMisses(c, s.mshr, k, f, done, Delay(s, c.fillLatency));
    SwapSequenced(s.mshr, k, f, done);
    SwapAbsentIfExclusive(c, s, k, f, done);
  }

  lemma SwapAbsentIfExclusive(c: Config, s: State, k: nat, f: nat, done: Packet)
    requires Sized(c, s) && k < |s.mshr| && f < |s.mshr| && done.address == s.mshr[k].address
    ensures Exclusive(c, s) ==> Exclusive(c, s.(mshr := s.mshr[k := s.mshr[f]][f := done]))
  {
    if Exclusive(c, s) {
      SwapAbsent(c, s, k, f, done);
    }
  }

  lemma WithinLater(q: seq<Packet>, limit: nat, later: nat)
    requires Within(q, limit) && limit <= later
    ensures Within(q, later)
  {
  }

  lemma TickKeeps(c: Config, s: State, warmup: bool)
    requires Inv(c, s) && Enabled(c, s, Tick(warmup))
    ensures Inv(c, s.(cycle := s.cycle + 1, warmup := warmup))
  {
    var t := s.(cycle := s.cycle + 1, warmup := warmup);
    WithinLater(s.mshr, Delay(s, c.fillLatency), Delay(t, c.fillLatency));
    WithinLater(s.inflight, Delay(s, c.fillLatency), Delay(t, c.fillLatency));
  }

  /** Every step of a cache level keeps the invariant. */
  lemma ApplyKeeps(c: Config, s: State, a: Action)
    requires Inv(c, s) && Sized(c, s) && Enabled(c, s, a)
    ensures Inv(c, Apply(c, s, a).state)
  {
    hide Inv;
    match a
    case Offer(id, p) => OfferKeeps(c, s, id, p);
    case Collide => CollideKeeps(c, s);
    case FillMiss(victim, ok) => FillMissKeeps(c, s, victim, ok);
    case FillWrite(victim, ok) => FillWriteKeeps(c, s, victim, ok);
    case Tag(id, ok) => TagKeeps(c, s, id, ok);
    case Answer(address) => AnswerKeeps(c, s, address);
    case Tick(warmup) => TickKeeps(c, s, warmup);
  }

  // ---------------------------------------------------------------- debts

  lemma SwapOwed(c: Config, q: seq<Packet>, k: nat, f: nat, done: Packet)
    requires k < |q| && f < |q| && Debts(c, done) == Debts(c, q[k])
    ensures Owed(c, q[k := q[f]][f := done]) == Owed(c, q)
  {
    hide Debts;
    hide Owed;
    OwedUpdate(c, q, k, q[f]);
    OwedUpdate(c, q[k := q[f]], f, done);
    var r := Owed(c, q[k := q[f]][f := done]);
    if k == f {
      Cancel(r, Debts(c, q[f]), Owed(c, q), multiset{});
    } else {
      assert q[k := q[f]][f] == q[f];
      assert r + (Debts(c, q[f]) + Debts(c, q[k])) == (Owed(c, q[k := q[f]]) + Debts(c, q[k])) + Debts(c, done);
      Cancel(r, Debts(c, q[f]) + Debts(c, q[k]), Owed(c, q), multiset{});
    }
  }

  lemma AnswerOwes(c: Config, s: State, address: nat)
    requires Enabled(c, s, Answer(address))
    ensures Waiting(c, ReturnData(c, s, address)) == Waiting(c, s)
  {
    hide Enabled;
    ReturnIsSwap(c, s, address);
    var k := FindPacket(s.mshr, address, c.blockSize);
    var done := s.mshr[k].(eventCycle := Some(Delay(s, c.fillLatency)));
    assert Debts(c, done) == Debts(c, s.mshr[k]);
    SwapOwed(c, s.mshr, k, FirstUnreturned(s.mshr), done);
  }

  lemma FillKeepsQueues(c: Config, s: State, p: Packet, victim: nat, ok: bool)
    requires Sized(c, s) && victim <= c.numWay
    ensures HandleFill(c, s, p, victim, ok).0 == s.(sets := HandleFill(c, s, p, victim, ok).0.sets)
  {
  }

  lemma FillMissSettles(c: Config, s: State, victim: nat, ok: bool)
    requires Sized(c, s) && Enabled(c, s, FillMiss(victim, ok))
    ensures var o := Apply(c, s, FillMiss(victim, ok));
            Waiting(c, o.state) + o.answered == Waiting(c, s) && o.accepted == multiset{}
  {
    FillKeepsQueues(c, s, s.mshr[0], victim, ok);
    hide HandleFill;
    hide Debts;
  }

  lemma FillWriteSettles(c: Config, s: State, victim: nat, ok: bool)
    requires Sized(c, s) && Enabled(c, s, FillWrite(victim, ok))
    ensures var o := Apply(c, s, FillWrite(victim, ok));
            Waiting(c, o.state) + o.answered == Waiting(c, s) && o.accepted == multiset{}
  {
    FillKeepsQueues(c, s, s.inflight[0], victim, ok);
    hide HandleFill;
    hide Debts;
  }

  /** No step loses a waiter, and none answers one that was not waiting. */
  lemma ApplySettles(c: Config, s: State, a: Action)
    requires Inv(c, s) && Sized(c, s) && Enabled(c, s, a)
    ensures var o := Apply(c, s, a);
            Settles(Waiting(c, s) + o.accepted, Waiting(c, o.state) + o.answered)
  {
    hide Inv;
    hide Settles;
    hide Waiting;
    var o := Apply(c, s, a);
    SettlesRefl(Waiting(c, s) + o.accepted);
    assert Waiting(c, s) + multiset{} == Waiting(c, s);
    match a
    case Offer(id, p) =>
      OfferSettles(c, s, id, p);
      assert Waiting(c, o.state) + o.answered == Waiting(c, s) + o.accepted;
    case Collide => CollideSettles(c, s);
    case FillMiss(victim, ok) => FillMissSettles(c, s, victim, ok);
    case FillWrite(victim, ok) => FillWriteSettles(c, s, victim, ok);
    case Tag(id, ok) =>
      HeadHonest(c, s, id);
      if Lookup(c, s, id, Queue(s, id)[0], ok).1 {
        TagSettles(c, s, id, ok);
      }
    case Answer(address) => AnswerOwes(c, s, address);
    case Tick(warmup) => TickOwes(c, s, warmup);
  }

  lemma TickOwes(c: Config, s: State, warmup: bool)
    ensures Waiting(c, s.(cycle := s.cycle + 1, warmup := warmup)) == Waiting(c, s)
  {
  }
}
