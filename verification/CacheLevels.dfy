/** Two cache levels together: the lower one answers exactly the misses of the upper one, each once. */
module CacheLevels {
  import opened CacheInvariants
  import opened CacheModel
  import opened CacheProofs
  import opened CacheTheorems
  import opened Waiters

  datatype Levels = Levels(upper: State, lower: State)

  /** A step of the upper level, or one of the lower level with the data it returns to the upper one, in order. */
  datatype Event = Above(a: Action) | Below(a: Action, returned: seq<nat>)

  ghost predicate SizedBoth(up: Config, low: Config, s: Levels) { Sized(up, s.upper) && Sized(low, s.lower) }

  /** Prefetches go to the prefetch queue of the next level unless they are sent as loads. */
  function SendQueue(up: Config, p: Packet): QueueId { if up.prefetchAsLoad || p.kind != Prefetch then RQ else PQ }

  function BlocksOf(c: Config, addresses: seq<nat>): (r: seq<nat>)
    ensures |r| == |addresses|
  {
    seq(|addresses|, i requires 0 <= i < |addresses| => BlockOf(c, addresses[i]))
  }

  /**
   * Whether an event can happen. The lower level decides whether a miss is taken, other callers wait under their
   * own names, and `returned` is what a step answers to the upper level. That the upper level can take the data is
   * not part of this.
   */
  ghost predicate Possible(up: Config, low: Config, s: Levels, e: Event)
    requires SizedBoth(up, low, s)
  {
    match e
    case Above(a) =>
      && Enabled(up, s.upper, a) && !a.Answer?
      && (a.Tag? ==>
            var sent := Sent(up, s.upper, Tag(a.id, true));
            sent.Some? ==> a.lowerOk == Accept(low, s.lower, SendQueue(up, sent.value), sent.value).1)
    case Below(a, returned) =>
      && Enabled(low, s.lower, a)
      && (a.Offer? ==> up.self !in a.packet.toReturn)
      && forall b: nat :: multiset(BlocksOf(up, returned))[b] == Apply(low, s.lower, a).answered[(up.self, b)]
  }

  /** `return_data` for each address in turn. */
  function ReturnAll(c: Config, s: State, returned: seq<nat>): (t: State)
    ensures Sized(c, s) ==> Sized(c, t)
    decreases |returned|
  {
    if returned == [] then s else ReturnAll(c, ReturnData(c, s, returned[0]), returned[1..])
  }

  function Next(up: Config, low: Config, s: Levels, e: Event): (t: Levels)
    requires SizedBoth(up, low, s) && Possible(up, low, s, e)
    ensures SizedBoth(up, low, t)
  {
    match e
    case Above(a) =>
      var sent := Sent(up, s.upper, a);
      Levels(Apply(up, s.upper, a).state,
             if sent.Some? then Accept(low, s.lower, SendQueue(up, sent.value), sent.value).0 else s.lower)
    case Below(a, returned) => Levels(ReturnAll(up, s.upper, returned), Apply(low, s.lower, a).state)
  }

  /** Every return finds its entry, and an unreturned one to swap with: the sanity check of `return_data` holds. */
  ghost predicate Welcome(c: Config, s: State, returned: seq<nat>)
    decreases |returned|
  {
    returned == [] ||
    (Enabled(c, s, Answer(returned[0])) && Welcome(c, ReturnData(c, s, returned[0]), returned[1..]))
  }

  /** The upper level waits in the lower one exactly once for each block it was not returned yet. */
  ghost predicate InStep(up: Config, low: Config, s: Levels) {
    && Inv(up, s.upper) && Inv(low, s.lower)
    && forall b: nat :: Waiting(low, s.lower)[(up.self, b)] == if b in Unreturned(up, s.upper) then 1 else 0
  }

  // ---------------------------------------------------------------- one event

  lemma SettlesOnce(before: multiset<Debt>, after: multiset<Debt>, d: Debt)
    requires Settles(before, after) && before[d] <= 1
    ensures after[d] == before[d]
  {
  }

  lemma OneDebt(w: Waiter, block: nat, waiters: set<Waiter>, b: nat)
    ensures DebtsOf(waiters, block)[(w, b)] == if w in waiters && b == block then 1 else 0
  {
  }

  lemma AcceptIsOffer(low: Config, s: State, id: QueueId, p: Packet)
    requires Sized(low, s) && Enabled(low, s, Offer(id, p)) && Accept(low, s, id, p).1
    ensures Apply(low, s, Offer(id, p)) == Outcome(Accept(low, s, id, p).0, Debts(low, p), multiset{})
  {
  }

  /** A miss that is sent enters the lower level, on behalf of the upper one if data is to come back. */
  lemma SentWaits(up: Config, low: Config, s: Levels, a: Action, b: nat)
    requires SizedBoth(up, low, s) && InStep(up, low, s) && Possible(up, low, s, Above(a))
    requires up.blockSize == low.blockSize && Sent(up, s.upper, a).Some?
    ensures var t := Next(up, low, s, Above(a)).lower;
            && Inv(low, t)
            && Waiting(low, t)[(up.self, b)] ==
               Waiting(low, s.lower)[(up.self, b)] + if b in Asked(up, s.upper, a) then 1 else 0
  {
    var p := Sent(up, s.upper, a).value;
    var id := SendQueue(up, p);
    SentIsAcceptable(up, s.upper, a, low, s.lower, id);
    RepliesExact(up, s.upper, a);
    assert a == Tag(a.id, true);
    AcceptIsOffer(low, s.lower, id, p);
    ApplySettles(low, s.lower, Offer(id, p));
    ApplyKeeps(low, s.lower, Offer(id, p));
    OneDebt(up.self, BlockOf(low, p.address), if Asked(up, s.upper, a) == {} then {} else {up.self}, b);
    assert Asked(up, s.upper, a) == {} || Asked(up, s.upper, a) == {BlockOf(low, p.address)};
    var t := Accept(low, s.lower, id, p).0;
    hide Settles, Inv, Waiting, Apply, Accept, Enabled, Debts, Unreturned, Sent, Asked;
    var before := Waiting(low, s.lower) + Debts(low, p);
    assert Waiting(low, t) + multiset{} == Waiting(low, t);
    SettlesOnce(before, Waiting(low, t), (up.self, b));
  }

  lemma AboveKeeps(up: Config, low: Config, s: Levels, a: Action)
    requires SizedBoth(up, low, s) && InStep(up, low, s) && Possible(up, low, s, Above(a))
    requires up.blockSize == low.blockSize
    ensures InStep(up, low, Next(up, low, s, Above(a)))
  {
    hide Inv, Waiting, Unreturned, Accept, Apply, Sent;
    ApplyKeeps(up, s.upper, a);
    RepliesExact(up, s.upper, a);
    if Sent(up, s.upper, a).Some? {
      forall b: nat
        ensures Waiting(low, Next(up, low, s, Above(a)).lower)[(up.self, b)] ==
                Waiting(low, s.lower)[(up.self, b)] + if b in Asked(up, s.upper, a) then 1 else 0
      {
        SentWaits(up, low, s, a, b);
      }
      SentWaits(up, low, s, a, 0);
    }
  }

  lemma AnswerKeeps(c: Config, s: State, address: nat)
    requires Inv(c, s) && Enabled(c, s, Answer(address))
    ensures Inv(c, ReturnData(c, s, address))
    ensures Unreturned(c, ReturnData(c, s, address)) == Unreturned(c, s) - {BlockOf(c, address)}
  {
    ApplyKeeps(c, s, Answer(address));
    AnswerReplies(c, s, address);
  }

  lemma FirstOf(c: Config, returned: seq<nat>)
    requires returned != []
    ensures multiset(BlocksOf(c, returned)) == multiset{BlockOf(c, returned[0])} + multiset(BlocksOf(c, returned[1..]))
  {
    assert BlocksOf(c, returned) == [BlockOf(c, returned[0])] + BlocksOf(c, returned[1..]);
  }

  /** Returns of different open blocks are all welcome, and close them. */
  lemma {:induction false} ReturnsWelcome(c: Config, s: State, returned: seq<nat>)
    requires Inv(c, s)
    requires forall b: nat :: multiset(BlocksOf(c, returned))[b] <= if b in Unreturned(c, s) then 1 else 0
    ensures Welcome(c, s, returned) && Inv(c, ReturnAll(c, s, returned))
    ensures forall b: nat :: b in Unreturned(c, ReturnAll(c, s, returned)) <==>
              b in Unreturned(c, s) && multiset(BlocksOf(c, returned))[b] == 0
    decreases |returned|
  {
    if returned != [] {
      var b := BlockOf(c, returned[0]);
      FirstOf(c, returned);
      assert multiset(BlocksOf(c, returned))[b] >= 1;
      AnswerableExactly(c, s, returned[0]);
      AnswerKeeps(c, s, returned[0]);
      hide Inv, Unreturned, ReturnData, Enabled, BlockOf, BlocksOf;
      ReturnsWelcome(c, ReturnData(c, s, returned[0]), returned[1..]);
    }
  }

  lemma AcceptsOthers(c: Config, s: State, a: Action, w: Waiter, b: nat)
    requires Sized(c, s) && Enabled(c, s, a) && (a.Offer? ==> w !in a.packet.toReturn)
    ensures Apply(c, s, a).accepted[(w, b)] == 0
  {
    hide Accept, CheckCollision, HandleFill, Lookup, ReturnData;
    if a.Offer? {
      OneDebt(w, BlockOf(c, a.packet.address), a.packet.toReturn, b);
    }
  }

  lemma BelowSettles(up: Config, low: Config, s: Levels, a: Action, returned: seq<nat>, b: nat)
    requires SizedBoth(up, low, s) && InStep(up, low, s) && Possible(up, low, s, Below(a, returned))
    ensures var o := Apply(low, s.lower, a);
            Waiting(low, o.state)[(up.self, b)] + o.answered[(up.self, b)] == Waiting(low, s.lower)[(up.self, b)]
  {
    hide Settles, Inv, Waiting, Apply, Enabled, Unreturned;
    var o := Apply(low, s.lower, a);
    ApplySettles(low, s.lower, a);
    AcceptsOthers(low, s.lower, a, up.self, b);
    SettlesOnce(Waiting(low, s.lower) + o.accepted, Waiting(low, o.state) + o.answered, (up.self, b));
  }

  /** What the lower level returns is welcome, and both levels stay in step. */
  lemma BelowKeeps(up: Config, low: Config, s: Levels, a: Action, returned: seq<nat>)
    requires SizedBoth(up, low, s) && InStep(up, low, s) && Possible(up, low, s, Below(a, returned))
    ensures Welcome(up, s.upper, returned) && InStep(up, low, Next(up, low, s, Below(a, returned)))
  {
    hide Inv, Waiting, Unreturned, Apply, Enabled, Welcome, BlocksOf;
    var o := Apply(low, s.lower, a);
    ApplyKeeps(low, s.lower, a);
    forall b: nat
      ensures Waiting(low, o.state)[(up.self, b)] + o.answered[(up.self, b)] == Waiting(low, s.lower)[(up.self, b)]
    {
      BelowSettles(up, low, s, a, returned, b);
    }
    ReturnsWelcome(up, s.upper, returned);
  }

  // ---------------------------------------------------------------- runs

  ghost predicate PossibleAll(up: Config, low: Config, s: Levels, events: seq<Event>)
    requires SizedBoth(up, low, s)
    decreases |events|
  {
    events == [] ||
    (Possible(up, low, s, events[0]) && PossibleAll(up, low, Next(up, low, s, events[0]), events[1..]))
  }

  ghost function RunAll(up: Config, low: Config, s: Levels, events: seq<Event>): (t: Levels)
    requires SizedBoth(up, low, s) && PossibleAll(up, low, s, events)
    ensures SizedBoth(up, low, t)
    decreases |events|
  {
    if events == [] then s else RunAll(up, low, Next(up, low, s, events[0]), events[1..])
  }

  /** Wherever the lower level returns data on the run, the upper level can take it. */
  ghost predicate WelcomeAll(up: Config, low: Config, s: Levels, events: seq<Event>)
    requires SizedBoth(up, low, s) && PossibleAll(up, low, s, events)
    decreases |events|
  {
    events == [] ||
    (&& (events[0].Below? ==> Welcome(up, s.upper, events[0].returned))
     && WelcomeAll(up, low, Next(up, low, s, events[0]), events[1..]))
  }

  lemma {:induction false} StayInStep(up: Config, low: Config, s: Levels, events: seq<Event>)
    requires SizedBoth(up, low, s) && InStep(up, low, s) && PossibleAll(up, low, s, events)
    requires up.blockSize == low.blockSize
    ensures WelcomeAll(up, low, s, events) && InStep(up, low, RunAll(up, low, s, events))
    decreases |events|
  {
    hide InStep, Possible, Next, Welcome;
    if events != [] {
      match events[0] {
        case Above(a) => AboveKeeps(up, low, s, a);
        case Below(a, returned) => BelowKeeps(up, low, s, a, returned);
      }
      StayInStep(up, low, Next(up, low, s, events[0]), events[1..]);
    }
  }

  lemma InitialInStep(up: Config, low: Config, s: Levels)
    requires Initial(up, s.upper) && Initial(low, s.lower)
    ensures InStep(up, low, s)
  {
    InitialInv(up, s.upper);
    InitialInv(low, s.lower);
    assert Unreturned(up, s.upper) == {};
  }

  /**
   * Two levels composed, on every interleaving: whatever the lower level returns is welcome above, so `return_data`
   * never misses its entry, and at the end the upper level waits below for exactly the blocks it still misses.
   */
  lemma LevelsCompose(up: Config, low: Config, s: Levels, events: seq<Event>)
    requires Initial(up, s.upper) && Initial(low, s.lower) && up.blockSize == low.blockSize
    requires PossibleAll(up, low, s, events)
    ensures WelcomeAll(up, low, s, events)
    ensures var t := RunAll(up, low, s, events);
            && (forall b: nat :: b in Unreturned(up, t.upper) <==> (up.self, b) in Waiting(low, t.lower))
            && forall b: nat :: Waiting(low, t.lower)[(up.self, b)] <= 1
  {
    InitialInStep(up, low, s);
    StayInStep(up, low, s, events);
  }
}
