/** What holds on every run of a cache level. */
module CacheTheorems {
  import opened CacheInvariants
  import opened CacheModel
  import opened CacheProofs
  import opened Waiters
  import opened Wrappers

  ghost predicate Initial(c: Config, s: State) {
    && Sized(c, s)
    && (forall i, w :: 0 <= i < |s.sets| && 0 <= w < |s.sets[i]| ==> !s.sets[i][w].valid)
    && s.mshr == s.inflight == s.wq == s.ptwq == s.rq == s.pq == []
  }

  /** Every step of `run` is allowed where it happens. */
  ghost predicate Legal(c: Config, s: State, run: seq<Action>)
    requires Sized(c, s)
    decreases |run|
  {
    run == [] || (Enabled(c, s, run[0]) && Legal(c, Apply(c, s, run[0]).state, run[1..]))
  }

  /** The last state, and all requests accepted and answered on the way. */
  ghost function Run(c: Config, s: State, run: seq<Action>): (r: Outcome)
    requires Sized(c, s) && Legal(c, s, run)
    ensures Sized(c, r.state)
    decreases |run|
  {
    if run == [] then Outcome(s, multiset{}, multiset{})
    else
      var o := Apply(c, s, run[0]);
      var r := Run(c, o.state, run[1..]);
      Outcome(r.state, o.accepted + r.accepted, o.answered + r.answered)
  }

  lemma InitialInv(c: Config, s: State)
    requires Initial(c, s)
    ensures Inv(c, s) && Waiting(c, s) == multiset{}
  {
  }

  lemma {:induction false} RunKeeps(c: Config, s: State, run: seq<Action>)
    requires Sized(c, s) && Inv(c, s) && Legal(c, s, run)
    ensures Inv(c, Run(c, s, run).state)
    decreases |run|
  {
    if run != [] {
      ApplyKeeps(c, s, run[0]);
      RunKeeps(c, Apply(c, s, run[0]).state, run[1..]);
    }
  }

  /**
   * No waiter is lost on any run: whoever waited or was accepted is answered or still waits for the same
   * block, and nobody is answered more often than asked.
   */
  lemma {:induction false} NoWaiterLost(c: Config, s: State, run: seq<Action>)
    requires Sized(c, s) && Inv(c, s) && Legal(c, s, run)
    ensures var r := Run(c, s, run);
            Settles(Waiting(c, s) + r.accepted, Waiting(c, r.state) + r.answered)
    decreases |run|
  {
    hide Settles;
    hide Inv;
    hide Waiting;
    hide Apply;
    if run == [] {
      SettlesRefl(Waiting(c, s) + multiset{});
    } else {
      var o := Apply(c, s, run[0]);
      ApplyKeeps(c, s, run[0]);
      ApplySettles(c, s, run[0]);
      NoWaiterLost(c, o.state, run[1..]);
      var r := Run(c, o.state, run[1..]);
      Chain(Waiting(c, s), o.accepted, Waiting(c, o.state), o.answered, r.accepted, Waiting(c, r.state), r.answered);
    }
  }

  /**
   * From any moment of any run: once nobody waits any more, everybody who waited then, or was accepted since, has
   * been answered since, and nobody else.
   */
  lemma DrainedAnswersAll(c: Config, s: State, run: seq<Action>)
    requires Sized(c, s) && Inv(c, s) && Legal(c, s, run)
    ensures var r := Run(c, s, run);
            Waiting(c, r.state) == multiset{} ==>
              && r.answered <= Waiting(c, s) + r.accepted
              && forall d :: d in Waiting(c, s) + r.accepted <==> d in r.answered
  {
    NoWaiterLost(c, s, run);
    var r := Run(c, s, run);
    hide Inv, Waiting;
    if Waiting(c, r.state) == multiset{} {
      assert Waiting(c, r.state) + r.answered == r.answered;
    }
  }

  // ---------------------------------------------------------------- tags

  /** Two places of the tag array hold the same block. */
  ghost predicate Twins(c: Config, s: State) {
    exists i, v, j, w ::
      && 0 <= i < |s.sets| && 0 <= v < |s.sets[i]| && 0 <= j < |s.sets| && 0 <= w < |s.sets[j]|
      && (i, v) != (j, w) && s.sets[i][v].valid && s.sets[j][w].valid
      && BlockOf(c, s.sets[i][v].address) == BlockOf(c, s.sets[j][w].address)
  }

  lemma OtherSetOtherBlock(c: Config, a: nat, b: nat)
    requires SetIndex(c, a) != SetIndex(c, b)
    ensures BlockOf(c, a) != BlockOf(c, b)
  {
  }

  lemma TidyHasNoTwins(c: Config, s: State)
    requires Tidy(c, s)
    ensures !Twins(c, s)
  {
    forall i, v, j, w |
      && 0 <= i < |s.sets| && 0 <= v < |s.sets[i]| && 0 <= j < |s.sets| && 0 <= w < |s.sets[j]|
      && (i, v) != (j, w) && s.sets[i][v].valid && s.sets[j][w].valid
      ensures BlockOf(c, s.sets[i][v].address) != BlockOf(c, s.sets[j][w].address)
    {
      TidyApart(c, s, i, v, j, w);
    }
  }

  lemma TidyApart(c: Config, s: State, i: nat, v: nat, j: nat, w: nat)
    requires Tidy(c, s) && i < |s.sets| && v < |s.sets[i]| && j < |s.sets| && w < |s.sets[j]|
    requires (i, v) != (j, w) && s.sets[i][v].valid && s.sets[j][w].valid
    ensures BlockOf(c, s.sets[i][v].address) != BlockOf(c, s.sets[j][w].address)
  {
    assert SetTidy(c, s.sets[i], i) && SetTidy(c, s.sets[j], j);
    if i != j {
      OtherSetOtherBlock(c, s.sets[i][v].address, s.sets[j][w].address);
    }
  }

  /**
   * With `match_offset_bits` (or no write queue), on every run: no block is in two ways, no block is both valid and
   * outstanding, no two miss registers share a block, and their number stays within bounds.
   */
  lemma TagsExclusive(c: Config, s: State, run: seq<Action>)
    requires WritesAllocate(c) && Initial(c, s) && Legal(c, s, run)
    ensures var t := Run(c, s, run).state;
            && !Twins(c, t)
            && |t.mshr| <= c.mshrSize
            && (forall i, j :: 0 <= i < j < |t.mshr| ==>
                  BlockOf(c, t.mshr[i].address) != BlockOf(c, t.mshr[j].address))
            && (forall k, i, w ::
                  0 <= k < |t.mshr| && 0 <= i < |t.sets| && 0 <= w < |t.sets[i]| && t.sets[i][w].valid ==>
                    BlockOf(c, t.sets[i][w].address) != BlockOf(c, t.mshr[k].address))
  {
    InitialInv(c, s);
    RunKeeps(c, s, run);
    var t := Run(c, s, run).state;
    TidyHasNoTwins(c, t);
    forall k, i, w | 0 <= k < |t.mshr| && 0 <= i < |t.sets| && 0 <= w < |t.sets[i]| && t.sets[i][w].valid
      ensures BlockOf(c, t.sets[i][w].address) != BlockOf(c, t.mshr[k].address)
    {
      OutstandingIsAbsent(c, t, k, i, w);
    }
  }

  lemma OutstandingIsAbsent(c: Config, t: State, k: nat, i: nat, w: nat)
    requires Sized(c, t) && MissesAbsent(c, t) && Tidy(c, t)
    requires k < |t.mshr| && i < |t.sets| && w < |t.sets[i]| && t.sets[i][w].valid
    ensures BlockOf(c, t.sets[i][w].address) != BlockOf(c, t.mshr[k].address)
  {
    assert !Hits(c, t, t.mshr[k].address);
    assert SetTidy(c, t.sets[i], i);
  }

  /**
   * A completed fill makes its block present. It gives up nothing while its set has a free way, and otherwise
   * at most the block of the chosen way.
   */
  lemma FillExactly(c: Config, s: State, p: Packet, victim: nat, writebackOk: bool, address: nat)
    requires Sized(c, s) && Tidy(c, s) && victim <= c.numWay && HandleFill(c, s, p, victim, writebackOk).1
    ensures var ways := s.sets[SetIndex(c, p.address)];
            var t := HandleFill(c, s, p, victim, writebackOk).0;
            var free := exists w :: 0 <= w < |ways| && !ways[w].valid;
            Hits(c, t, address) <==>
              || (BlockOf(c, address) == BlockOf(c, p.address) && (free || victim < c.numWay))
              || (Hits(c, s, address) &&
                  (free || victim == c.numWay || SetIndex(c, address) != SetIndex(c, p.address)
                   || BlockOf(c, ways[victim].address) != BlockOf(c, address)))
  {
    var i := SetIndex(c, p.address);
    var w := FillWay(c, s, p.address, victim);
    var ways := s.sets[i];
    assert FreeWay(ways) < |ways| <==> exists w :: 0 <= w < |ways| && !ways[w].valid;
    if w < c.numWay {
      var b := Block(true, p.kind == Write, p.address);
      PlacePresence(c, ways, i, w, b, address);
      SetMatters(c, address, p.address);
    }
  }

  lemma SetMatters(c: Config, a: nat, b: nat)
    ensures SetIndex(c, a) != SetIndex(c, b) ==> BlockOf(c, a) != BlockOf(c, b)
  {
  }

  // ---------------------------------------------------------------- twins, exactly

  ghost predicate TwinsReachable(c: Config) {
    exists s: State, run: seq<Action> ::
      Initial(c, s) && Legal(c, s, run) && Twins(c, Run(c, s, run).state)
  }

  lemma OneWayNoTwins(c: Config, s: State)
    requires Sized(c, s) && Placed(c, s) && c.numWay < 2
    ensures !Twins(c, s)
  {
    forall i, v, j, w |
      && 0 <= i < |s.sets| && 0 <= v < |s.sets[i]| && 0 <= j < |s.sets| && 0 <= w < |s.sets[j]|
      && (i, v) != (j, w) && s.sets[i][v].valid && s.sets[j][w].valid
      ensures BlockOf(c, s.sets[i][v].address) != BlockOf(c, s.sets[j][w].address)
    {
      assert SetPlaced(c, s.sets[i], i) && SetPlaced(c, s.sets[j], j);
      assert i != j;
      OtherSetOtherBlock(c, s.sets[i][v].address, s.sets[j][w].address);
    }
  }

  /** A store of the first block, and the form it takes in flight. */
  function Store(c: Config): Packet { Packet(1, 0, Write, true, false, true, false, None, {}) }

  function StoreInFlight(c: Config, s: State): Packet {
    Admitted(s, c, WQ, Store(c)).(eventCycle := Some(Delay(s, c.fillLatency)))
  }

  lemma StoreTwice(c: Config, s: State)
    requires Sized(c, s) && s.wq == [] && c.queueSize(WQ) > 0 && !c.matchOffsetBits
    requires s.warmup && !Hits(c, s, 1)
    ensures Legal(c, s, [Offer(WQ, Store(c)), Tag(WQ, true)])
    ensures Run(c, s, [Offer(WQ, Store(c)), Tag(WQ, true)]).state == s.(inflight := s.inflight + [StoreInFlight(c, s)])
  {
    var x := Admitted(s, c, WQ, Store(c));
    var a := Apply(c, s, Offer(WQ, Store(c))).state;
    assert a == s.(wq := [x]);
    var b := Apply(c, a, Tag(WQ, true)).state;
    assert b == s.(inflight := s.inflight + [StoreInFlight(c, s)]);
    assert [Offer(WQ, Store(c)), Tag(WQ, true)][1..] == [Tag(WQ, true)];
    assert [Tag(WQ, true)][1..] == [];
    assert Legal(c, b, []);
    assert Legal(c, a, [Tag(WQ, true)]);
  }

  /** The row after a fill into free way `w`. */
  function Filled(ways: seq<Block>, w: nat): seq<Block>
    requires w < |ways|
  {
    ways[w := Block(true, true, 1)]
  }

  lemma FillFree(c: Config, s: State, w: nat)
    requires Sized(c, s) && s.inflight != [] && w < c.numWay
    requires s.inflight[0].address == 1 && s.inflight[0].kind == Write && Due(s, s.inflight[0])
    requires FreeWay(s.sets[SetIndex(c, 1)]) == w
    ensures var i := SetIndex(c, 1);
            && Enabled(c, s, FillWrite(0, true))
            && Apply(c, s, FillWrite(0, true)).state ==
               s.(inflight := s.inflight[1..], sets := s.sets[i := Filled(s.sets[i], w)])
  {
  }

  lemma {:induction false} RunConcat(c: Config, s: State, a: seq<Action>, b: seq<Action>)
    requires Sized(c, s) && Legal(c, s, a) && Legal(c, Run(c, s, a).state, b)
    ensures Legal(c, s, a + b) && Run(c, s, a + b).state == Run(c, Run(c, s, a).state, b).state
    decreases |a|
  {
    hide Apply;
    hide Enabled;
    if a == [] {
      assert a + b == b;
    } else {
      assert (a + b)[1..] == a[1..] + b;
      RunConcat(c, Apply(c, s, a[0]).state, a[1..], b);
    }
  }

  lemma RunOne(c: Config, s: State, a: Action)
    requires Sized(c, s) && Enabled(c, s, a)
    ensures Legal(c, s, [a]) && Run(c, s, [a]).state == Apply(c, s, a).state
  {
    assert [a][1..] == [];
    assert Legal(c, Apply(c, s, a).state, []);
  }

  function EmptyRow(n: nat): (r: seq<Block>)
    ensures |r| == n && forall w :: 0 <= w < n ==> !r[w].valid
  {
    seq(n, _ => Block(false, false, 0))
  }

  function Empty(c: Config): (s: State)
    ensures Initial(c, s) && s.warmup
  {
    State(seq(c.numSet, _ => EmptyRow(c.numWay)), [], [], [], [], [], [], 0, true)
  }

  lemma TwoStores(c: Config)
    requires !c.matchOffsetBits && c.queueSize(WQ) > 0
    ensures var one := [Offer(WQ, Store(c)), Tag(WQ, true)];
            var y := StoreInFlight(c, Empty(c));
            && Legal(c, Empty(c), one + one)
            && Run(c, Empty(c), one + one).state == Empty(c).(inflight := [y, y])
  {
    var one := [Offer(WQ, Store(c)), Tag(WQ, true)];
    var s := Empty(c);
    var y := StoreInFlight(c, s);
    StoreTwice(c, s);
    var t := s.(inflight := [y]);
    assert Run(c, s, one).state == t;
    StoreTwice(c, t);
    assert t.inflight + [StoreInFlight(c, t)] == [y, y];
    RunConcat(c, s, one, one);
  }

  lemma TwoFills(c: Config, s: State, y: Packet)
    requires c.numWay >= 2 && s == Empty(c).(inflight := [y, y])
    requires y.address == 1 && y.kind == Write && Due(s, y)
    ensures Legal(c, s, [FillWrite(0, true)] + [FillWrite(0, true)])
    ensures Twins(c, Run(c, s, [FillWrite(0, true)] + [FillWrite(0, true)]).state)
  {
    var i := SetIndex(c, 1);
    var f := FillWrite(0, true);
    var row := s.sets[i];
    FillFree(c, s, 0);
    RunOne(c, s, f);
    var t := s.(inflight := s.inflight[1..], sets := s.sets[i := Filled(row, 0)]);
    assert t == Apply(c, s, f).state;
    assert t.inflight == [y];
    assert FreeWay(t.sets[i]) == 1;
    FillFree(c, t, 1);
    RunOne(c, t, f);
    RunConcat(c, s, [f], [f]);
    var u := Run(c, s, [f] + [f]).state;
    assert u.sets[i][0] == u.sets[i][1] == Block(true, true, 1);
    assert (i, 0) != (i, 1);
  }

  lemma TwinRun(c: Config)
    requires !WritesAllocate(c) && c.numWay >= 2
    ensures TwinsReachable(c)
  {
    hide Twins;
    var one := [Offer(WQ, Store(c)), Tag(WQ, true)];
    var two := [FillWrite(0, true)] + [FillWrite(0, true)];
    var y := StoreInFlight(c, Empty(c));
    TwoStores(c);
    TwoFills(c, Empty(c).(inflight := [y, y]), y);
    RunConcat(c, Empty(c), one + one, two);
  }

  /**
   * Some run puts one block into two ways exactly when writes may fill without looking at the miss
   * registers and a set has room for two.
   */
  lemma TwinsExactly(c: Config)
    ensures TwinsReachable(c) <==> !WritesAllocate(c) && c.numWay >= 2
  {
    if !WritesAllocate(c) && c.numWay >= 2 {
      TwinRun(c);
    }
    if TwinsReachable(c) {
      var s: State, run: seq<Action> :| Initial(c, s) && Legal(c, s, run) && Twins(c, Run(c, s, run).state);
      InitialInv(c, s);
      RunKeeps(c, s, run);
      if WritesAllocate(c) {
        TidyHasNoTwins(c, Run(c, s, run).state);
      } else if c.numWay < 2 {
        OneWayNoTwins(c, Run(c, s, run).state);
      }
    }
  }

  // ---------------------------------------------------------------- order of fills

  /** A fill that is ready never waits behind one that is not. */
  lemma ReadyFillFirst(c: Config, s: State, k: nat)
    requires Inv(c, s)
    ensures k < |s.mshr| && Due(s, s.mshr[k]) ==> Due(s, s.mshr[0])
    ensures k < |s.inflight| && Due(s, s.inflight[k]) ==> Due(s, s.inflight[0])
  {
    if k > 0 {
      assert k < |s.mshr| && s.mshr[k].eventCycle.Some? ==>
        s.mshr[0].eventCycle.Some? && s.mshr[0].eventCycle.value <= s.mshr[k].eventCycle.value;
      assert k < |s.inflight| && s.inflight[k].eventCycle.Some? ==>
        s.inflight[0].eventCycle.Some? && s.inflight[0].eventCycle.value <= s.inflight[k].eventCycle.value;
    }
  }

  /** `return_data` keeps the order exactly when nothing already returned is due later than now plus the fill delay. */
  lemma AnswerOrderExactly(c: Config, s: State, address: nat)
    requires Sequenced(s.mshr) && Enabled(c, s, Answer(address))
    ensures Sequenced(ReturnData(c, s, address).mshr) <==> Within(s.mshr, Delay(s, c.fillLatency))
  {
    ReturnIsSwap(c, s, address);
    var k := FindPacket(s.mshr, address, c.blockSize);
    var f := FirstUnreturned(s.mshr);
    SwapSequenced(s.mshr, k, f, s.mshr[k].(eventCycle := Some(Delay(s, c.fillLatency))));
  }

  /** Were warm-up to restart, a ready fill could be stuck behind an unready one. */
  lemma WarmupRestartBreaksOrder(c: Config, early: Packet, late: Packet)
    returns (s: State, address: nat)
    requires c.fillLatency >= 2 && c.mshrSize >= 2
    requires early.address != 0 && early.address / c.blockSize != late.address / c.blockSize
    requires late.address != 0
    ensures Inv(c, s) && Enabled(c, s.(warmup := true), Answer(address))
    ensures var t := ReturnData(c, s.(warmup := true), address);
            |t.mshr| == 2 && Due(t, t.mshr[1]) && !Due(t, t.mshr[0])
  {
    s := Empty(c).(warmup := false,
                   mshr := [early.(eventCycle := Some(c.fillLatency)), late.(eventCycle := None)]);
    address := late.address;
    ReturnIsSwap(c, s.(warmup := true), address);
  }

  // ---------------------------------------------------------------- replies

  ghost function UnreturnedOf(c: Config, q: seq<Packet>): set<nat> {
    set i | 0 <= i < |q| && q[i].eventCycle.None? :: BlockOf(c, q[i].address)
  }

  /** Blocks asked from the lower level and not yet returned. */
  ghost function Unreturned(c: Config, s: State): set<nat> { UnreturnedOf(c, s.mshr) }

  /** The packet that a step sends to the lower level, if the lower level takes it. */
  function Sent(c: Config, s: State, a: Action): Option<Packet>
    requires Sized(c, s) && Enabled(c, s, a)
  {
    if a.Tag? then
      var p := Queue(s, a.id)[0];
      if !Hits(c, s, p.address) && !(a.id == WQ && !c.matchOffsetBits)
         && FindPacket(s.mshr, p.address, c.blockSize) == |s.mshr| && |s.mshr| < c.mshrSize && a.lowerOk
      then Some(Forwarded(c, p)) else None
    else None
  }

  /** The blocks a step asks the lower level to return. */
  ghost function Asked(c: Config, s: State, a: Action): set<nat>
    requires Sized(c, s) && Enabled(c, s, a)
  {
    match Sent(c, s, a)
    case Some(p) => if c.self in p.toReturn then {BlockOf(c, p.address)} else {}
    case None => {}
  }

  ghost function Replied(c: Config, a: Action): set<nat> {
    if a.Answer? then {BlockOf(c, a.address)} else {}
  }

  /** `return_data` finds its entry, and an unreturned one to swap with, exactly for blocks still asked for. */
  lemma AnswerableExactly(c: Config, s: State, address: nat)
    requires Inv(c, s)
    ensures Enabled(c, s, Answer(address)) <==> BlockOf(c, address) in Unreturned(c, s)
  {
    var k := FindPacket(s.mshr, address, c.blockSize);
    FindPacketReal(c, s.mshr, address);
    if BlockOf(c, address) in Unreturned(c, s) {
      var i :| 0 <= i < |s.mshr| && s.mshr[i].eventCycle.None? && BlockOf(c, s.mshr[i].address) == BlockOf(c, address);
      assert i == k;
    }
  }

  lemma UnreturnedTail(c: Config, q: seq<Packet>)
    requires q != [] && q[0].eventCycle.Some?
    ensures UnreturnedOf(c, q[1..]) == UnreturnedOf(c, q)
  {
    forall b | b in UnreturnedOf(c, q) ensures b in UnreturnedOf(c, q[1..]) {
      var i :| 0 <= i < |q| && q[i].eventCycle.None? && BlockOf(c, q[i].address) == b;
      assert q[1..][i - 1] == q[i];
    }
  }

  lemma UnreturnedJoin(c: Config, q: seq<Packet>, k: nat, p: Packet)
    requires k < |q| && BlockOf(c, q[k].address) == BlockOf(c, p.address)
    ensures UnreturnedOf(c, q[k := Joined(q[k], p)]) == UnreturnedOf(c, q)
  {
    var r := q[k := Joined(q[k], p)];
    assert forall i :: 0 <= i < |q| ==>
      r[i].eventCycle == q[i].eventCycle && BlockOf(c, r[i].address) == BlockOf(c, q[i].address);
    hide Joined;
    hide BlockOf;
    forall b | b in UnreturnedOf(c, q) ensures b in UnreturnedOf(c, r) {
      var i :| 0 <= i < |q| && q[i].eventCycle.None? && BlockOf(c, q[i].address) == b;
      assert r[i].eventCycle.None? && BlockOf(c, r[i].address) == b;
    }
  }

  lemma UnreturnedAppend(c: Config, q: seq<Packet>, p: Packet)
    requires p.eventCycle.None?
    ensures UnreturnedOf(c, q + [p]) == UnreturnedOf(c, q) + {BlockOf(c, p.address)}
  {
    var r := q + [p];
    assert r[|q|] == p;
    forall b | b in UnreturnedOf(c, q) ensures b in UnreturnedOf(c, r) {
      var i :| 0 <= i < |q| && q[i].eventCycle.None? && BlockOf(c, q[i].address) == b;
      assert r[i] == q[i];
    }
  }

  lemma UnreturnedSwap(c: Config, q: seq<Packet>, k: nat, f: nat, done: Packet)
    requires k < |q| && f < |q| && q[k].eventCycle.None? && q[f].eventCycle.None? && done.eventCycle.Some?
    requires DistinctMisses(c, q)
    ensures UnreturnedOf(c, q[k := q[f]][f := done]) == UnreturnedOf(c, q) - {BlockOf(c, q[k].address)}
  {
    var r := q[k := q[f]][f := done];
    forall b | b in UnreturnedOf(c, q) && b != BlockOf(c, q[k].address) ensures b in UnreturnedOf(c, r) {
      var i :| 0 <= i < |q| && q[i].eventCycle.None? && BlockOf(c, q[i].address) == b;
      var j := if i == f then k else i;
      assert r[j] == q[i];
    }
    forall b | b in UnreturnedOf(c, r) ensures b in UnreturnedOf(c, q) && b != BlockOf(c, q[k].address) {
      var i :| 0 <= i < |r| && r[i].eventCycle.None? && BlockOf(c, r[i].address) == b;
      assert i != f;
      assert r[i] == q[if i == k then f else i];
    }
  }

  /** An allocated miss adds its block to the open questions, any other outcome adds nothing. */
  lemma MissReplies(c: Config, s: State, p: Packet, lowerOk: bool)
    requires AllReal(s.mshr)
    ensures var k := FindPacket(s.mshr, p.address, c.blockSize);
            var allocates := k == |s.mshr| && |s.mshr| != c.mshrSize && lowerOk;
            Unreturned(c, HandleMiss(c, s, p, lowerOk).0) ==
              Unreturned(c, s) + if allocates && p.fillThisLevel then {BlockOf(c, p.address)} else {}
    ensures FindPacket(s.mshr, p.address, c.blockSize) == |s.mshr| ==> BlockOf(c, p.address) !in Unreturned(c, s)
  {
    var k := FindPacket(s.mshr, p.address, c.blockSize);
    FindPacketReal(c, s.mshr, p.address);
    assert k == |s.mshr| ==> BlockOf(c, p.address) !in Unreturned(c, s);
    hide UnreturnedOf;
    if k < |s.mshr| {
      UnreturnedJoin(c, s.mshr, k, p);
    } else {
      UnreturnedAppend(c, s.mshr, p.(eventCycle := None));
    }
  }

  lemma LookupMisses(c: Config, s: State, id: QueueId, p: Packet, lowerOk: bool)
    requires Sized(c, s)
    ensures Lookup(c, s, id, p, lowerOk).0.mshr ==
            if Hits(c, s, p.address) || (id == WQ && !c.matchOffsetBits) then s.mshr
            else HandleMiss(c, s, p, lowerOk).0.mshr
    ensures Hits(c, s, p.address) || (id == WQ && !c.matchOffsetBits) ==> Lookup(c, s, id, p, lowerOk).1
    ensures !Hits(c, s, p.address) && !(id == WQ && !c.matchOffsetBits) ==>
              Lookup(c, s, id, p, lowerOk).1 == HandleMiss(c, s, p, lowerOk).1
  {
  }

  /** The miss registers after a tag step, and what the step asks for. */
  lemma TagMisses(c: Config, s: State, id: QueueId, lowerOk: bool)
    requires Sized(c, s) && Enabled(c, s, Tag(id, lowerOk)) && |s.mshr| <= c.mshrSize
    ensures var p := Queue(s, id)[0];
            var missed := !Hits(c, s, p.address) && !(id == WQ && !c.matchOffsetBits);
            && Apply(c, s, Tag(id, lowerOk)).state.mshr ==
               (if missed then HandleMiss(c, s, p, lowerOk).0.mshr else s.mshr)
            && Asked(c, s, Tag(id, lowerOk)) ==
               if missed && FindPacket(s.mshr, p.address, c.blockSize) == |s.mshr| && |s.mshr| != c.mshrSize && lowerOk
                  && p.fillThisLevel
               then {BlockOf(c, p.address)} else {}
  {
    var p := Queue(s, id)[0];
    hide HandleMiss;
    hide Hits;
    LookupMisses(c, s, id, p, lowerOk);
    MissFails(c, s, p, lowerOk);
    hide Lookup;
  }

  lemma MissFails(c: Config, s: State, p: Packet, lowerOk: bool)
    ensures !HandleMiss(c, s, p, lowerOk).1 ==> HandleMiss(c, s, p, lowerOk).0 == s
  {
  }

  lemma TagReplies(c: Config, s: State, id: QueueId, lowerOk: bool)
    requires Sized(c, s) && Enabled(c, s, Tag(id, lowerOk)) && Inv(c, s)
    ensures Unreturned(c, Apply(c, s, Tag(id, lowerOk)).state) == Unreturned(c, s) + Asked(c, s, Tag(id, lowerOk))
    ensures Asked(c, s, Tag(id, lowerOk)) !! Unreturned(c, s)
  {
    var p := Queue(s, id)[0];
    TagMisses(c, s, id, lowerOk);
    MissReplies(c, s, p, lowerOk);
    hide Inv;
    hide UnreturnedOf;
    hide HandleMiss;
    hide Apply;
    hide Asked;
    hide Hits;
    hide Enabled;
  }

  lemma AnswerReplies(c: Config, s: State, address: nat)
    requires Enabled(c, s, Answer(address)) && Inv(c, s)
    ensures Unreturned(c, ReturnData(c, s, address)) == Unreturned(c, s) - {BlockOf(c, address)}
  {
    var k := FindPacket(s.mshr, address, c.blockSize);
    ReturnIsSwap(c, s, address);
    UnreturnedSwap(c, s.mshr, k, FirstUnreturned(s.mshr), s.mshr[k].(eventCycle := Some(Delay(s, c.fillLatency))));
  }

  lemma FillMissReplies(c: Config, s: State, victim: nat, ok: bool)
    requires Sized(c, s) && Enabled(c, s, FillMiss(victim, ok))
    ensures Unreturned(c, Apply(c, s, FillMiss(victim, ok)).state) == Unreturned(c, s)
  {
    UnreturnedTail(c, s.mshr);
    hide UnreturnedOf;
  }

  lemma OthersKeepMisses(c: Config, s: State, a: Action)
    requires Sized(c, s) && Enabled(c, s, a) && !a.FillMiss? && !a.Tag? && !a.Answer?
    ensures Apply(c, s, a).state.mshr == s.mshr
  {
  }

  /** Each step asks for blocks not yet asked for, and the open questions are those asked and not replied to. */
  lemma RepliesExact(c: Config, s: State, a: Action)
    requires Sized(c, s) && Enabled(c, s, a) && Inv(c, s)
    ensures Unreturned(c, Apply(c, s, a).state) == Unreturned(c, s) + Asked(c, s, a) - Replied(c, a)
    ensures Asked(c, s, a) !! Unreturned(c, s)
  {
    hide Inv;
    hide UnreturnedOf;
    if a.Tag? {
      TagReplies(c, s, a.id, a.lowerOk);
    } else if a.Answer? {
      AnswerReplies(c, s, a.address);
    } else if a.FillMiss? {
      FillMissReplies(c, s, a.victim, a.writebackOk);
    } else {
      OthersKeepMisses(c, s, a);
    }
  }

  /** What the lower level still owes after a run. */
  ghost function Open(c: Config, s: State, run: seq<Action>, open: set<nat>): set<nat>
    requires Sized(c, s) && Legal(c, s, run)
    decreases |run|
  {
    if run == [] then open
    else Open(c, Apply(c, s, run[0]).state, run[1..], open + Asked(c, s, run[0]) - Replied(c, run[0]))
  }

  lemma {:induction false} OpenIsUnreturned(c: Config, s: State, run: seq<Action>)
    requires Sized(c, s) && Inv(c, s) && Legal(c, s, run)
    ensures Open(c, s, run, Unreturned(c, s)) == Unreturned(c, Run(c, s, run).state)
    decreases |run|
  {
    hide Inv;
    hide Unreturned;
    hide Apply;
    if run != [] {
      RepliesExact(c, s, run[0]);
      ApplyKeeps(c, s, run[0]);
      OpenIsUnreturned(c, Apply(c, s, run[0]).state, run[1..]);
    }
  }

  /**
   * After any run, `return_data` may be called exactly for the blocks the lower level was asked for and has
   * not returned, so its sanity check holds whenever each forwarded miss is returned once.
   */
  lemma RepliesAlwaysFindTheirMiss(c: Config, s: State, run: seq<Action>, address: nat)
    requires Initial(c, s) && Legal(c, s, run)
    ensures Enabled(c, Run(c, s, run).state, Answer(address)) <==> BlockOf(c, address) in Open(c, s, run, {})
  {
    InitialInv(c, s);
    RunKeeps(c, s, run);
    OpenIsUnreturned(c, s, run);
    assert Unreturned(c, s) == {};
    AnswerableExactly(c, Run(c, s, run).state, address);
  }

  /** What one level sends, the next level may accept, on behalf of the sender only. */
  lemma SentIsAcceptable(c: Config, s: State, a: Action, lower: Config, t: State, id: QueueId)
    requires Sized(c, s) && Enabled(c, s, a) && Inv(c, s) && Sent(c, s, a).Some?
    ensures var p := Sent(c, s, a).value;
            && Enabled(lower, t, Offer(id, p))
            && Debts(lower, p) == DebtsOf(if Asked(c, s, a) == {} then {} else {c.self}, BlockOf(lower, p.address))
            && p.kind != Write
  {
    HeadHonest(c, s, a.id);
    var p := Sent(c, s, a).value;
    assert Asked(c, s, a) == (if p.toReturn == {} then {} else {BlockOf(c, p.address)});
  }
}
