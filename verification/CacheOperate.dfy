/** One `operate()` of a cache level: bounded prefixes of each queue, in a fixed order. */
module CacheOperate {
  import opened CacheInvariants
  import opened CacheModel
  import opened CacheProofs
  import opened CacheTheorems
  import opened Waiters

  /** The replacement policy and the lower level, by remaining bandwidth. */
  datatype Environment = Environment(
    victim: (nat, Packet) -> nat, writebackOk: nat -> bool, lowerOk: (nat, QueueId) -> bool)

  ghost predicate Obeys(c: Config, e: Environment) {
    forall n: nat, p: Packet :: MayReplace(c, p, e.victim(n, p))
  }

  datatype Target = Misses | Writes | Requests(id: QueueId)

  /** What `operate_queue` tries next with `n` units of bandwidth left. */
  function Attempt(s: State, e: Environment, t: Target, n: nat): Action {
    match t
    case Misses => FillMiss(if s.mshr == [] then 0 else e.victim(n, s.mshr[0]), e.writebackOk(n))
    case Writes => FillWrite(if s.inflight == [] then 0 else e.victim(n, s.inflight[0]), e.writebackOk(n))
    case Requests(id) => Tag(id, e.lowerOk(n, id))
  }

  /** Whether the attempt takes its packet out of the queue. */
  predicate Succeeds(c: Config, s: State, a: Action)
    requires Sized(c, s) && Enabled(c, s, a)
  {
    match a
    case FillMiss(victim, ok) => HandleFill(c, s, s.mshr[0], victim, ok).1
    case FillWrite(victim, ok) => HandleFill(c, s, s.inflight[0], victim, ok).1
    case Tag(id, ok) => Lookup(c, s, id, Queue(s, id)[0], ok).1
    case _ => true
  }

  datatype Progress = Progress(state: State, left: nat, answered: multiset<Debt>)

  /** The longest prefix of a queue that succeeds within the bandwidth. */
  function Drain(c: Config, s: State, e: Environment, t: Target, n: nat, answered: multiset<Debt>): (r: Progress)
    requires Sized(c, s)
    ensures Sized(c, r.state)
    decreases n
  {
    if n == 0 then Progress(s, 0, answered)
    else
      var a := Attempt(s, e, t, n);
      if !Enabled(c, s, a) || !Succeeds(c, s, a) then Progress(s, n, answered)
      else
        var o := Apply(c, s, a);
        Drain(c, o.state, e, t, n - 1, answered + o.answered)
  }

  /** Fills first, then the request queues, writes before walks before reads before prefetches. */
  function Operate(c: Config, s: State, e: Environment, maxFill: nat, maxTag: nat): (r: Progress)
    requires Sized(c, s)
    ensures Sized(c, r.state)
  {
    var a := Drain(c, s, e, Misses, maxFill, multiset{});
    var b := Drain(c, a.state, e, Writes, a.left, a.answered);
    var d := Drain(c, b.state, e, Requests(WQ), maxTag, b.answered);
    var f := Drain(c, d.state, e, Requests(PTWQ), d.left, d.answered);
    var g := Drain(c, f.state, e, Requests(RQ), f.left, f.answered);
    Drain(c, g.state, e, Requests(PQ), g.left, g.answered)
  }

  /** `t` is reached from `s` by a legal run of at most `n` steps that answers `answered` and accepts nothing. */
  ghost predicate Reaches(c: Config, s: State, t: State, n: nat, answered: multiset<Debt>)
    requires Sized(c, s)
  {
    exists run: seq<Action> ::
      Legal(c, s, run) && |run| <= n && Run(c, s, run) == Outcome(t, multiset{}, answered)
  }

  lemma ReachesStep(c: Config, s: State, a: Action, t: State, n: nat, answered: multiset<Debt>)
    requires Sized(c, s) && Enabled(c, s, a) && Apply(c, s, a).accepted == multiset{}
    requires Reaches(c, Apply(c, s, a).state, t, n, answered)
    ensures Reaches(c, s, t, n + 1, Apply(c, s, a).answered + answered)
  {
    var o := Apply(c, s, a);
    var run: seq<Action> :|
      Legal(c, o.state, run) && |run| <= n && Run(c, o.state, run) == Outcome(t, multiset{}, answered);
    hide Apply;
    hide Enabled;
    var longer := [a] + run;
    assert longer[1..] == run;
    assert Legal(c, s, longer);
    assert Run(c, s, longer) == Outcome(t, multiset{} + multiset{}, o.answered + answered);
  }

  lemma ReachesNothing(c: Config, s: State)
    requires Sized(c, s)
    ensures Reaches(c, s, s, 0, multiset{})
  {
    assert Legal(c, s, []);
  }

  lemma {:induction false} ReachesThen(c: Config, s: State, t: State, m: nat, x: multiset<Debt>,
                                       u: State, n: nat, y: multiset<Debt>)
    requires Sized(c, s) && Sized(c, t) && Reaches(c, s, t, m, x) && Reaches(c, t, u, n, y)
    ensures Reaches(c, s, u, m + n, x + y)
  {
    var run: seq<Action> :| Legal(c, s, run) && |run| <= m && Run(c, s, run) == Outcome(t, multiset{}, x);
    RunThen(c, s, run, u, n, y);
    Weaken(c, s, u, |run| + n, m + n, x + y);
  }

  lemma Weaken(c: Config, s: State, t: State, m: nat, n: nat, x: multiset<Debt>)
    requires Sized(c, s) && m <= n && Reaches(c, s, t, m, x)
    ensures Reaches(c, s, t, n, x)
  {
  }

  lemma {:induction false} RunThen(c: Config, s: State, run: seq<Action>, u: State, n: nat, y: multiset<Debt>)
    requires Sized(c, s) && Legal(c, s, run) && Reaches(c, Run(c, s, run).state, u, n, y)
    requires Run(c, s, run).accepted == multiset{}
    ensures Reaches(c, s, u, |run| + n, Run(c, s, run).answered + y)
    decreases |run|
  {
    hide Reaches;
    hide Apply;
    hide Enabled;
    if run == [] {
      assert Run(c, s, run).answered + y == y;
    } else {
      var o := Apply(c, s, run[0]);
      var r := Run(c, o.state, run[1..]);
      assert o.accepted + r.accepted == multiset{};
      var both := o.accepted + r.accepted;
      assert forall d: Debt :: o.accepted[d] <= both[d] && r.accepted[d] <= both[d];
      assert o.accepted == multiset{} && r.accepted == multiset{};
      RunThen(c, o.state, run[1..], u, n, y);
      ReachesStep(c, s, run[0], u, |run[1..]| + n, r.answered + y);
      assert o.answered + (r.answered + y) == (o.answered + r.answered) + y;
    }
  }

  lemma ReachesOneMore(c: Config, s: State, t: State, m: nat, x: multiset<Debt>, a: Action)
    requires Sized(c, s) && Sized(c, t) && Reaches(c, s, t, m, x)
    requires Enabled(c, t, a) && Apply(c, t, a).accepted == multiset{}
    ensures Reaches(c, s, Apply(c, t, a).state, m + 1, x + Apply(c, t, a).answered)
  {
    hide Reaches;
    var o := Apply(c, t, a);
    ReachesNothing(c, o.state);
    ReachesStep(c, t, a, o.state, 0, multiset{});
    assert o.answered + multiset{} == o.answered;
    ReachesThen(c, s, t, m, x, o.state, 1, o.answered);
  }

  lemma {:induction false} DrainReaches(c: Config, s: State, t: State, m: nat, x: multiset<Debt>,
                                        e: Environment, target: Target, n: nat)
    requires Sized(c, s) && Sized(c, t) && Reaches(c, s, t, m, x)
    ensures var r := Drain(c, t, e, target, n, x);
            r.left <= n && Reaches(c, s, r.state, m + (n - r.left), r.answered)
    decreases n
  {
    hide Reaches;
    hide Succeeds;
    hide Attempt;
    hide Enabled;
    hide Apply;
    var a := Attempt(t, e, target, n);
    if n > 0 && Enabled(c, t, a) && Succeeds(c, t, a) {
      AttemptAccepts(c, t, e, target, n);
      var o := Apply(c, t, a);
      ReachesOneMore(c, s, t, m, x, a);
      DrainReaches(c, s, o.state, m + 1, x + o.answered, e, target, n - 1);
    }
  }

  lemma AttemptAccepts(c: Config, s: State, e: Environment, t: Target, n: nat)
    requires Sized(c, s) && Enabled(c, s, Attempt(s, e, t, n))
    ensures Apply(c, s, Attempt(s, e, t, n)).accepted == multiset{}
  {
  }

  /** An `operate()` is a legal run of no more steps than the two bandwidths allow. */
  lemma OperateReaches(c: Config, s: State, e: Environment, maxFill: nat, maxTag: nat)
    requires Sized(c, s)
    ensures var r := Operate(c, s, e, maxFill, maxTag);
            Reaches(c, s, r.state, maxFill + maxTag, r.answered)
  {
    hide Reaches;
    hide Drain;
    hide Sized;
    var a := Drain(c, s, e, Misses, maxFill, multiset{});
    var b := Drain(c, a.state, e, Writes, a.left, a.answered);
    var d := Drain(c, b.state, e, Requests(WQ), maxTag, b.answered);
    var f := Drain(c, d.state, e, Requests(PTWQ), d.left, d.answered);
    var g := Drain(c, f.state, e, Requests(RQ), f.left, f.answered);
    ReachesNothing(c, s);
    DrainReaches(c, s, s, 0, multiset{}, e, Misses, maxFill);
    DrainReaches(c, s, a.state, maxFill - a.left, a.answered, e, Writes, a.left);
    DrainReaches(c, s, b.state, maxFill - b.left, b.answered, e, Requests(WQ), maxTag);
    Weaken(c, s, d.state, maxFill - b.left + (maxTag - d.left), maxFill + (maxTag - d.left), d.answered);
    DrainReaches(c, s, d.state, maxFill + (maxTag - d.left), d.answered, e, Requests(PTWQ), d.left);
    DrainReaches(c, s, f.state, maxFill + (maxTag - f.left), f.answered, e, Requests(RQ), f.left);
    DrainReaches(c, s, g.state, maxFill + (maxTag - g.left), g.answered, e, Requests(PQ), g.left);
    var r := Drain(c, g.state, e, Requests(PQ), g.left, g.answered);
    Weaken(c, s, r.state, maxFill + (maxTag - r.left), maxFill + maxTag, r.answered);
  }

  /** Between two calls of `operate()` the invariant holds, and no waiter is lost. */
  lemma OperateKeeps(c: Config, s: State, e: Environment, maxFill: nat, maxTag: nat)
    requires Sized(c, s) && Inv(c, s)
    ensures var r := Operate(c, s, e, maxFill, maxTag);
            Inv(c, r.state) && Settles(Waiting(c, s), Waiting(c, r.state) + r.answered)
  {
    var r := Operate(c, s, e, maxFill, maxTag);
    OperateReaches(c, s, e, maxFill, maxTag);
    hide Inv;
    hide Settles;
    hide Waiting;
    hide Operate;
    var run: seq<Action> :|
      Legal(c, s, run) && |run| <= maxFill + maxTag && Run(c, s, run) == Outcome(r.state, multiset{}, r.answered);
    RunKeeps(c, s, run);
    NoWaiterLost(c, s, run);
    assert Waiting(c, s) + multiset{} == Waiting(c, s);
  }
}
