/** What a collision check does with each packet: answered from the write queue, joined to an earlier one, or kept. */
module CacheCollisions {
  import opened Bits
  import opened CacheModel
  import opened Waiters

  // ---------------------------------------------------------------- the specification

  /** The first of the first `n` packets with this address, at this grain. */
  ghost predicate FirstWith(q: seq<Packet>, n: int, address: nat, grain: Pos, k: int) {
    && 0 <= k < n <= |q| && q[k].address != 0 && q[k].address / grain == address / grain
    && forall j :: 0 <= j < k ==> !(q[j].address != 0 && q[j].address / grain == address / grain)
  }

  /** The packet is translated, and the first of the first `n` packets of its address is too. */
  ghost predicate Meets(q: seq<Packet>, n: int, p: Packet, grain: Pos, k: int) {
    p.translated && FirstWith(q, n, p.address, grain, k) && q[k].translated
  }

  ghost predicate Forwardable(wq: seq<Packet>, p: Packet, grain: Pos) { exists k :: Meets(wq, |wq|, p, grain, k) }

  datatype Fate = Kept(at: nat) | Forwarded | Joined(at: nat)

  ghost predicate LandsAt(f: Fate, a: int) { (f.Kept? || f.Joined?) && f.at == a }

  /** What can become of packet `j` of a queue that is checked from packet `i` on and ends up as `r`. */
  ghost predicate FateOk(wq: seq<Packet>, grain: Pos, block: Pos, q: seq<Packet>, i: nat, r: seq<Packet>, j: nat,
                         f: Fate)
    requires j < |q|
  {
    match f
    case Kept(a) =>
      && a < |r|
      && r[a] == q[j].(checked := r[a].checked, fillThisLevel := r[a].fillThisLevel, toReturn := r[a].toReturn)
      && (if j < i then r[a].checked == q[j].checked && a == j
          else r[a].checked && !Forwardable(wq, q[j], grain) && forall k :: !Meets(r, a, q[j], block, k))
    case Forwarded => i <= j && Forwardable(wq, q[j], grain)
    case Joined(a) => i <= j && !Forwardable(wq, q[j], grain) && Meets(r, |r|, q[j], block, a)
  }

  /** What is kept keeps its order, what joins joins something earlier, and nothing else is in the queue. */
  ghost predicate Arranged(fates: seq<Fate>, n: nat) {
    InOrder(fates) && JoinsEarlier(fates) && Onto(fates, n)
  }

  ghost predicate InOrder(fates: seq<Fate>) {
    forall j, k :: 0 <= j < k < |fates| && fates[j].Kept? && fates[k].Kept? ==> fates[j].at < fates[k].at
  }

  ghost predicate KeptBefore(fates: seq<Fate>, n: int, a: nat) {
    exists k :: 0 <= k < n && k < |fates| && fates[k] == Kept(a)
  }

  ghost predicate JoinsEarlier(fates: seq<Fate>) {
    forall j :: 0 <= j < |fates| && fates[j].Joined? ==> KeptBefore(fates, j, fates[j].at)
  }

  ghost predicate Onto(fates: seq<Fate>, n: nat) {
    forall a: nat :: a < n ==> KeptBefore(fates, |fates|, a)
  }

  ghost predicate WaitsAt(q: seq<Packet>, fates: seq<Fate>, a: int, w: Waiter)
    requires |fates| == |q|
  {
    exists j :: 0 <= j < |q| && LandsAt(fates[j], a) && w in q[j].toReturn
  }

  ghost predicate FillsAt(q: seq<Packet>, fates: seq<Fate>, a: int)
    requires |fates| == |q|
  {
    exists j :: 0 <= j < |q| && LandsAt(fates[j], a) && q[j].fillThisLevel
  }

  /** An entry has the waiters of exactly the packets that landed there, and fills if one of them does. */
  ghost predicate Gathered(q: seq<Packet>, fates: seq<Fate>, r: seq<Packet>) {
    && |fates| == |q|
    && (forall a, w :: 0 <= a < |r| ==> (w in r[a].toReturn <==> WaitsAt(q, fates, a, w)))
    && forall a :: 0 <= a < |r| ==> (r[a].fillThisLevel <==> FillsAt(q, fates, a))
  }

  function Zip(q: seq<Packet>, fates: seq<Fate>): (z: seq<(Packet, Fate)>)
    requires |fates| == |q|
    ensures |z| == |q|
  {
    seq(|q|, j requires 0 <= j < |q| => (q[j], fates[j]))
  }

  function GoneDebts(c: Config): ((Packet, Fate)) -> multiset<Debt> {
    (z: (Packet, Fate)) => if z.1.Forwarded? then DebtsOf(z.0.toReturn, z.0.address / c.blockSize) else multiset{}
  }

  /** The outcome of a check from packet `i` on: every packet has its fate, and exactly the forwarded are answered. */
  ghost predicate Checks(c: Config, wq: seq<Packet>, grain: Pos, block: Pos, q: seq<Packet>, i: nat, r: seq<Packet>,
                         answered: multiset<Debt>, fates: seq<Fate>)
  {
    && i <= |q| == |fates| && i <= |r|
    && (forall j :: 0 <= j < |q| ==> FateOk(wq, grain, block, q, i, r, j, fates[j]))
    && Arranged(fates, |r|) && Gathered(q, fates, r)
    && answered == Total(Zip(q, fates), GoneDebts(c))
  }

  // ---------------------------------------------------------------- one packet

  function Insert(fates: seq<Fate>, i: nat, f: Fate): (r: seq<Fate>)
    requires i <= |fates|
    ensures |r| == |fates| + 1
  {
    fates[..i] + [f] + fates[i..]
  }

  function Nth(fates: seq<Fate>, i: nat, f: Fate, j: int): Fate
    requires i <= |fates| && 0 <= j <= |fates|
  {
    if j < i then fates[j] else if j == i then f else fates[j - 1]
  }

  lemma InsertAt(fates: seq<Fate>, i: nat, f: Fate)
    requires i <= |fates|
    ensures forall j :: 0 <= j <= |fates| ==> Insert(fates, i, f)[j] == Nth(fates, i, f, j)
  {
    forall j | 0 <= j <= |fates| ensures Insert(fates, i, f)[j] == Nth(fates, i, f, j) {
      if j > i {
        assert Insert(fates, i, f)[j] == fates[i..][j - i - 1];
      }
    }
  }

  lemma KeptInsert(fates: seq<Fate>, i: nat, f: Fate, n: nat, m: nat, a: nat)
    requires i <= |fates| && KeptBefore(fates, n, a) && n + 1 <= m
    ensures KeptBefore(Insert(fates, i, f), m, a)
    ensures n <= i ==> KeptBefore(Insert(fates, i, f), n, a)
  {
    InsertAt(fates, i, f);
    var k :| 0 <= k < n && k < |fates| && fates[k] == Kept(a);
    hide Insert;
    var g := Insert(fates, i, f);
    assert g[if k < i then k else k + 1] == Kept(a);
  }

  lemma ArrangedInsert(fates: seq<Fate>, i: nat, f: Fate, n: nat)
    requires i <= |fates| && Arranged(fates, n) && (f.Joined? || f.Forwarded?)
    requires f.Joined? ==> KeptBefore(fates, i, f.at)
    ensures Arranged(Insert(fates, i, f), n)
  {
    var g := Insert(fates, i, f);
    InsertAt(fates, i, f);
    hide Insert, KeptBefore;
    forall j | 0 <= j < |g| && g[j].Joined? ensures KeptBefore(g, j, g[j].at) {
      if j < i {
        KeptInsert(fates, i, f, j, j + 1, g[j].at);
      } else if j == i {
        KeptInsert(fates, i, f, i, i + 1, f.at);
      } else {
        KeptInsert(fates, i, f, j - 1, j, g[j].at);
      }
    }
    forall a: nat | a < n ensures KeptBefore(g, |g|, a) {
      KeptInsert(fates, i, f, |fates|, |g|, a);
    }
  }

  lemma ZipParts(q: seq<Packet>, i: nat, fates: seq<Fate>, f: Fate)
    requires i < |q| == |fates| + 1
    ensures var z, y := Zip(q, Insert(fates, i, f)), Zip(RemoveAt(q, i), fates);
            z[..i] == y[..i] && z[i + 1..] == y[i..] && z[i] == (q[i], f)
  {
    var z, y := Zip(q, Insert(fates, i, f)), Zip(RemoveAt(q, i), fates);
    InsertAt(fates, i, f);
    hide Insert;
    forall j | 0 <= j < i ensures z[j] == y[j] {
    }
    forall j | i <= j < |y| ensures z[j + 1] == y[j] {
    }
  }

  lemma ZipInsert(c: Config, q: seq<Packet>, i: nat, fates: seq<Fate>, f: Fate)
    requires i < |q| == |fates| + 1
    ensures Total(Zip(q, Insert(fates, i, f)), GoneDebts(c)) ==
            Total(Zip(RemoveAt(q, i), fates), GoneDebts(c)) + GoneDebts(c)((q[i], f))
  {
    var z, y := Zip(q, Insert(fates, i, f)), Zip(RemoveAt(q, i), fates);
    ZipParts(q, i, fates, f);
    hide Zip, Insert, RemoveAt, GoneDebts;
    TotalSplit(z, i, GoneDebts(c));
    TotalConcat(y[..i], y[i..], GoneDebts(c));
    assert y[..i] + y[i..] == y;
  }

  lemma ZipSame(c: Config, q: seq<Packet>, p: seq<Packet>, fates: seq<Fate>)
    requires |p| == |q| == |fates|
    requires forall j :: 0 <= j < |q| && fates[j].Forwarded? ==>
               p[j].toReturn == q[j].toReturn && p[j].address == q[j].address
    ensures Total(Zip(p, fates), GoneDebts(c)) == Total(Zip(q, fates), GoneDebts(c))
  {
    TotalPointwise(Zip(p, fates), Zip(q, fates), GoneDebts(c), GoneDebts(c));
  }

  /** Packet `i` is taken out; the others have their fates already. */
  lemma FatesInsert(wq: seq<Packet>, grain: Pos, block: Pos, q: seq<Packet>, p: seq<Packet>, i: nat, r: seq<Packet>,
                    fates: seq<Fate>, f: Fate)
    requires i < |q| == |fates| + 1 && |p| == |fates|
    requires forall j :: 0 <= j < |p| ==>
               p[j] == q[if j < i then j else j + 1].(toReturn := p[j].toReturn, fillThisLevel := p[j].fillThisLevel)
    requires forall j :: 0 <= j < |p| ==> FateOk(wq, grain, block, p, i, r, j, fates[j])
    requires FateOk(wq, grain, block, q, i, r, i, f)
    ensures forall j :: 0 <= j < |q| ==> FateOk(wq, grain, block, q, i, r, j, Insert(fates, i, f)[j])
  {
    InsertAt(fates, i, f);
    hide Insert;
    forall j | 0 <= j < |q| ensures FateOk(wq, grain, block, q, i, r, j, Insert(fates, i, f)[j]) {
      if j != i {
        var k := if j < i then j else j - 1;
        assert FateOk(wq, grain, block, p, i, r, k, fates[k]);
        SameChances(wq, q[j], p[k], grain);
        SameMeetings(r, q[j], p[k], block);
        hide Forwardable, Meets;
      }
    }
  }

  lemma SameChances(wq: seq<Packet>, a: Packet, b: Packet, grain: Pos)
    requires a.translated == b.translated && a.address == b.address
    ensures Forwardable(wq, a, grain) <==> Forwardable(wq, b, grain)
  {
    SameMeetings(wq, a, b, grain);
    hide Meets;
  }

  lemma SameMeetings(r: seq<Packet>, a: Packet, b: Packet, block: Pos)
    requires a.translated == b.translated && a.address == b.address
    ensures forall n: int, k: int :: Meets(r, n, a, block, k) <==> Meets(r, n, b, block, k)
  {
  }

  lemma RemovedAt(q: seq<Packet>, i: nat)
    requires i < |q|
    ensures forall j :: 0 <= j < |q| - 1 ==> RemoveAt(q, i)[j] == q[if j < i then j else j + 1]
  {
  }

  /** Where packet `j` of the shorter queue is in the longer one. */
  lemma PlaceBefore(q: seq<Packet>, i: nat, fates: seq<Fate>, j: nat) returns (k: nat)
    requires i < |q| == |fates| + 1 && j < |fates|
    ensures k < |q| && Insert(fates, i, Forwarded)[k] == fates[j] && q[k] == RemoveAt(q, i)[j]
  {
    InsertAt(fates, i, Forwarded);
    RemovedAt(q, i);
    hide Insert, RemoveAt;
    k := if j < i then j else j + 1;
    assert Insert(fates, i, Forwarded)[k] == Nth(fates, i, Forwarded, k);
  }

  /** And the other way around, for a packet that stays. */
  lemma PlaceAfter(q: seq<Packet>, i: nat, fates: seq<Fate>, k: nat) returns (j: nat)
    requires i < |q| == |fates| + 1 && k < |q| && k != i
    ensures j < |fates| && Insert(fates, i, Forwarded)[k] == fates[j] && q[k] == RemoveAt(q, i)[j]
  {
    InsertAt(fates, i, Forwarded);
    RemovedAt(q, i);
    hide Insert, RemoveAt;
    j := if k < i then k else k - 1;
    assert Insert(fates, i, Forwarded)[k] == Nth(fates, i, Forwarded, k);
  }

  lemma WaitsForward(q: seq<Packet>, i: nat, fates: seq<Fate>, a: int, w: Waiter)
    requires i < |q| == |fates| + 1
    ensures WaitsAt(q, Insert(fates, i, Forwarded), a, w) <==> WaitsAt(RemoveAt(q, i), fates, a, w)
  {
    var p, g := RemoveAt(q, i), Insert(fates, i, Forwarded);
    assert g[i] == Forwarded;
    hide Insert, RemoveAt;
    if WaitsAt(p, fates, a, w) {
      var j :| 0 <= j < |p| && LandsAt(fates[j], a) && w in p[j].toReturn;
      var k := PlaceBefore(q, i, fates, j);
    }
    if WaitsAt(q, g, a, w) {
      var k :| 0 <= k < |q| && LandsAt(g[k], a) && w in q[k].toReturn;
      var j := PlaceAfter(q, i, fates, k);
    }
  }

  lemma FillsForward(q: seq<Packet>, i: nat, fates: seq<Fate>, a: int)
    requires i < |q| == |fates| + 1
    ensures FillsAt(q, Insert(fates, i, Forwarded), a) <==> FillsAt(RemoveAt(q, i), fates, a)
  {
    var p, g := RemoveAt(q, i), Insert(fates, i, Forwarded);
    assert g[i] == Forwarded;
    hide Insert, RemoveAt;
    if FillsAt(p, fates, a) {
      var j :| 0 <= j < |p| && LandsAt(fates[j], a) && p[j].fillThisLevel;
      var k := PlaceBefore(q, i, fates, j);
    }
    if FillsAt(q, g, a) {
      var k :| 0 <= k < |q| && LandsAt(g[k], a) && q[k].fillThisLevel;
      var j := PlaceAfter(q, i, fates, k);
    }
  }

  /** Taking a packet out without joining it changes nobody's waiters. */
  lemma GatheredForward(q: seq<Packet>, i: nat, r: seq<Packet>, fates: seq<Fate>)
    requires i < |q| && Gathered(RemoveAt(q, i), fates, r)
    ensures Gathered(q, Insert(fates, i, Forwarded), r)
  {
    forall a, w ensures WaitsAt(q, Insert(fates, i, Forwarded), a, w) <==> WaitsAt(RemoveAt(q, i), fates, a, w) {
      WaitsForward(q, i, fates, a, w);
    }
    forall a ensures FillsAt(q, Insert(fates, i, Forwarded), a) <==> FillsAt(RemoveAt(q, i), fates, a) {
      FillsForward(q, i, fates, a);
    }
    hide WaitsAt, FillsAt, Insert, RemoveAt;
  }

  /** `p` is `q` without packet `i`, whose waiters and fill have joined packet `k`. */
  ghost predicate JoinedInto(q: seq<Packet>, i: nat, k: nat, p: seq<Packet>) {
    && k < i < |q| && |p| == |q| - 1
    && (forall j :: 0 <= j < |p| && j != k ==> p[j] == q[if j < i then j else j + 1])
    && p[k].toReturn == q[k].toReturn + q[i].toReturn
    && p[k].fillThisLevel == (q[i].fillThisLevel || q[k].fillThisLevel)
  }

  lemma WaitsJoin(q: seq<Packet>, i: nat, k: nat, p: seq<Packet>, fates: seq<Fate>, a: int, w: Waiter)
    requires JoinedInto(q, i, k, p) && |fates| == |p| && fates[k] == Kept(k)
    ensures WaitsAt(q, Insert(fates, i, Joined(k)), a, w) <==> WaitsAt(p, fates, a, w)
  {
    var g := Insert(fates, i, Joined(k));
    InsertAt(fates, i, Joined(k));
    hide Insert;
    if WaitsAt(p, fates, a, w) {
      var j :| 0 <= j < |p| && LandsAt(fates[j], a) && w in p[j].toReturn;
      var n := if j == k && w !in q[k].toReturn then i else if j < i then j else j + 1;
      assert LandsAt(g[n], a) && w in q[n].toReturn;
    }
    if WaitsAt(q, g, a, w) {
      var n :| 0 <= n < |q| && LandsAt(g[n], a) && w in q[n].toReturn;
      var j := if n == i then k else if n < i then n else n - 1;
      assert LandsAt(fates[j], a) && w in p[j].toReturn;
    }
  }

  lemma FillsJoin(q: seq<Packet>, i: nat, k: nat, p: seq<Packet>, fates: seq<Fate>, a: int)
    requires JoinedInto(q, i, k, p) && |fates| == |p| && fates[k] == Kept(k)
    ensures FillsAt(q, Insert(fates, i, Joined(k)), a) <==> FillsAt(p, fates, a)
  {
    var g := Insert(fates, i, Joined(k));
    InsertAt(fates, i, Joined(k));
    hide Insert;
    if FillsAt(p, fates, a) {
      var j :| 0 <= j < |p| && LandsAt(fates[j], a) && p[j].fillThisLevel;
      var n := if j == k && !q[k].fillThisLevel then i else if j < i then j else j + 1;
      assert LandsAt(g[n], a) && q[n].fillThisLevel;
    }
    if FillsAt(q, g, a) {
      var n :| 0 <= n < |q| && LandsAt(g[n], a) && q[n].fillThisLevel;
      var j := if n == i then k else if n < i then n else n - 1;
      assert LandsAt(fates[j], a) && p[j].fillThisLevel;
    }
  }

  /** A packet that joins entry `k` brings its waiters along. */
  lemma GatheredJoin(q: seq<Packet>, i: nat, k: nat, p: seq<Packet>, r: seq<Packet>, fates: seq<Fate>)
    requires JoinedInto(q, i, k, p) && |fates| == |p| && fates[k] == Kept(k) && Gathered(p, fates, r)
    ensures Gathered(q, Insert(fates, i, Joined(k)), r)
  {
    forall a, w ensures WaitsAt(q, Insert(fates, i, Joined(k)), a, w) <==> WaitsAt(p, fates, a, w) {
      WaitsJoin(q, i, k, p, fates, a, w);
    }
    forall a ensures FillsAt(q, Insert(fates, i, Joined(k)), a) <==> FillsAt(p, fates, a) {
      FillsJoin(q, i, k, p, fates, a);
    }
    hide WaitsAt, FillsAt, Insert, JoinedInto;
  }

  // ---------------------------------------------------------------- the three steps

  lemma StepForward(c: Config, wq: seq<Packet>, grain: Pos, block: Pos, q: seq<Packet>, i: nat, r: seq<Packet>,
                    answered: multiset<Debt>, fates: seq<Fate>) returns (g: seq<Fate>)
    requires i < |q| && Forwardable(wq, q[i], grain)
    requires Checks(c, wq, grain, block, RemoveAt(q, i), i, r, answered, fates)
    ensures Checks(c, wq, grain, block, q, i, r, DebtsOf(q[i].toReturn, q[i].address / c.blockSize) + answered, g)
  {
    g := Insert(fates, i, Forwarded);
    hide Insert, Arranged, Gathered, Zip;
    RemovedAt(q, i);
    FatesInsert(wq, grain, block, q, RemoveAt(q, i), i, r, fates, Forwarded);
    hide FateOk, Forwardable, RemoveAt;
    ArrangedInsert(fates, i, Forwarded, |r|);
    GatheredForward(q, i, r, fates);
    ZipInsert(c, q, i, fates, Forwarded);
  }

  /** The entries before `i` are where they were. */
  lemma FrontMeets(wq: seq<Packet>, grain: Pos, block: Pos, q: seq<Packet>, i: nat, r: seq<Packet>, fates: seq<Fate>,
                   p: Packet,
                   n: int, k: int)
    requires i <= |q| == |fates| && i <= |r| && n <= i
    requires forall j :: 0 <= j < i ==> FateOk(wq, grain, block, q, i, r, j, fates[j])
    ensures Meets(r, n, p, block, k) <==> Meets(q, n, p, block, k)
  {
    forall j | 0 <= j < i ensures r[j].address == q[j].address && r[j].translated == q[j].translated {
      assert FateOk(wq, grain, block, q, i, r, j, fates[j]);
    }
    hide FateOk;
  }

  lemma InsertedFates(fates: seq<Fate>, i: nat, k: nat)
    requires k < i <= |fates| && fates[k] == Kept(k)
    ensures forall j :: 0 <= j <= |fates| && (j == k || j == i) ==> !Insert(fates, i, Joined(k))[j].Forwarded?
  {
    InsertAt(fates, i, Joined(k));
  }

  lemma StepJoin(c: Config, wq: seq<Packet>, grain: Pos, block: Pos, q: seq<Packet>, i: nat, k: nat, r: seq<Packet>,
                 answered: multiset<Debt>, fates: seq<Fate>) returns (g: seq<Fate>)
    requires k < i < |q| && !Forwardable(wq, q[i], grain) && Meets(q, i, q[i], block, k)
    requires Checks(c, wq, grain, block, RemoveAt(q[k := Merged(q[i], q[k])], i), i, r, answered, fates)
    ensures Checks(c, wq, grain, block, q, i, r, answered, g)
  {
    g := Insert(fates, i, Joined(k));
    var m := q[k := Merged(q[i], q[k])];
    var p := RemoveAt(m, i);
    assert JoinedInto(q, i, k, p);
    assert FateOk(wq, grain, block, p, i, r, k, fates[k]);
    hide Insert, Arranged, Gathered, Zip, Forwardable;
    FrontMeets(wq, grain, block, p, i, r, fates, q[i], i, k);
    MeetsLonger(r, i, q[i], block, k);
    FatesInsert(wq, grain, block, q, p, i, r, fates, Joined(k));
    assert KeptBefore(fates, i, k);
    ArrangedInsert(fates, i, Joined(k), |r|);
    GatheredJoin(q, i, k, p, r, fates);
    ZipInsert(c, q, i, fates, Joined(k));
    ZipInsert(c, m, i, fates, Joined(k));
    InsertedFates(fates, i, k);
    ZipSame(c, q, m, Insert(fates, i, Joined(k)));
    hide FateOk, RemoveAt;
  }

  lemma MeetsLonger(r: seq<Packet>, n: nat, p: Packet, block: Pos, k: int)
    requires n <= |r| && Meets(r, n, p, block, k)
    ensures Meets(r, |r|, p, block, k)
  {
  }

  lemma StepKeep(c: Config, wq: seq<Packet>, grain: Pos, block: Pos, q: seq<Packet>, i: nat, r: seq<Packet>,
                 answered: multiset<Debt>, fates: seq<Fate>)
    requires i < |q| && !Forwardable(wq, q[i], grain) && forall k :: !Meets(q, i, q[i], block, k)
    requires Checks(c, wq, grain, block, q[i := q[i].(checked := true)], i + 1, r, answered, fates)
    ensures Checks(c, wq, grain, block, q, i, r, answered, fates)
  {
    var p := q[i := q[i].(checked := true)];
    forall k ensures !Meets(r, i, q[i], block, k) {
      FrontMeets(wq, grain, block, p, i + 1, r, fates, q[i], i, k);
      MeetsSame(p, q, i, q[i], block, k);
    }
    forall j | 0 <= j < |q| ensures FateOk(wq, grain, block, q, i, r, j, fates[j]) {
      assert FateOk(wq, grain, block, p, i + 1, r, j, fates[j]);
      SameChances(wq, q[j], p[j], grain);
      SameMeetings(r, q[j], p[j], block);
      hide Meets, Forwardable;
    }
    ZipSame(c, q, p, fates);
    GatheredSame(q, p, fates, r);
    hide FateOk, Arranged, Gathered, Zip;
  }

  lemma MeetsSame(a: seq<Packet>, b: seq<Packet>, n: nat, p: Packet, block: Pos, k: int)
    requires n <= |a| && n <= |b| && forall j :: 0 <= j < n ==> a[j] == b[j]
    ensures Meets(a, n, p, block, k) <==> Meets(b, n, p, block, k)
  {
  }

  lemma GatheredSame(q: seq<Packet>, p: seq<Packet>, fates: seq<Fate>, r: seq<Packet>)
    requires |p| == |q| && Gathered(p, fates, r)
    requires forall j :: 0 <= j < |q| ==> p[j].toReturn == q[j].toReturn && p[j].fillThisLevel == q[j].fillThisLevel
    ensures Gathered(q, fates, r)
  {
    assert forall a, w :: WaitsAt(q, fates, a, w) <==> WaitsAt(p, fates, a, w);
    assert forall a :: FillsAt(q, fates, a) <==> FillsAt(p, fates, a);
    hide WaitsAt, FillsAt;
  }

  lemma NothingLeft(c: Config, wq: seq<Packet>, grain: Pos, block: Pos, q: seq<Packet>) returns (fates: seq<Fate>)
    ensures Checks(c, wq, grain, block, q, |q|, q, multiset{}, fates)
  {
    fates := seq(|q|, j requires 0 <= j < |q| => Kept(j));
    forall a: nat | a < |q| ensures KeptBefore(fates, |q|, a) {
      assert fates[a] == Kept(a);
    }
    forall a, w | 0 <= a < |q| ensures w in q[a].toReturn <==> WaitsAt(q, fates, a, w) {
      assert LandsAt(fates[a], a);
    }
    forall a | 0 <= a < |q| ensures q[a].fillThisLevel <==> FillsAt(q, fates, a) {
      assert LandsAt(fates[a], a);
    }
    NobodyGone(c, Zip(q, fates));
    hide WaitsAt, FillsAt, KeptBefore, Zip;
  }

  lemma {:induction false} NobodyGone(c: Config, z: seq<(Packet, Fate)>)
    requires forall j :: 0 <= j < |z| ==> !z[j].1.Forwarded?
    ensures Total(z, GoneDebts(c)) == multiset{}
  {
    if z != [] {
      NobodyGone(c, z[1..]);
    }
  }

  // ---------------------------------------------------------------- the two loops

  lemma FoundFirst(q: seq<Packet>, n: nat, p: Packet, grain: Pos)
    requires n <= |q|
    ensures var k := FindPacket(q[..n], p.address, grain);
            if k < n && p.translated && q[k].translated then Meets(q, n, p, grain, k)
            else forall j :: !Meets(q, n, p, grain, j)
  {
    var k := FindPacket(q[..n], p.address, grain);
    assert forall j :: 0 <= j < n ==> q[..n][j] == q[j];
    if k < n {
      assert FirstWith(q, n, p.address, grain, k);
    }
    forall j | Meets(q, n, p, grain, j) ensures j == k {
      assert q[..n][j] == q[j];
    }
  }

  lemma FoundForward(wq: seq<Packet>, p: Packet, grain: Pos)
    ensures Forwards(wq, p, grain) <==> Forwardable(wq, p, grain)
  {
    assert wq[..|wq|] == wq;
    FoundFirst(wq, |wq|, p, grain);
  }

  /** Every packet of a read or prefetch queue has its fate. */
  lemma {:induction false} CollideFates(c: Config, wq: seq<Packet>, q: seq<Packet>, i: nat, grain: Pos)
    returns (fates: seq<Fate>)
    requires i <= |q|
    ensures var r := CollideReads(c, wq, q, i, grain); Checks(c, wq, grain, c.blockSize, q, i, r.0, r.1, fates)
    decreases |q| - i
  {
    hide Checks, Meets, Forwardable, RemoveAt, FindPacket, Merged;
    if i == |q| {
      fates := NothingLeft(c, wq, grain, c.blockSize, q);
    } else {
      FoundForward(wq, q[i], grain);
      FoundFirst(q, i, q[i], c.blockSize);
      if Forwards(wq, q[i], grain) {
        var r := CollideReads(c, wq, RemoveAt(q, i), i, grain);
        var f := CollideFates(c, wq, RemoveAt(q, i), i, grain);
        fates := StepForward(c, wq, grain, c.blockSize, q, i, r.0, r.1, f);
      } else if Merges(q, i, c.blockSize) {
        var k := FindPacket(q[..i], q[i].address, c.blockSize);
        var r := CollideReads(c, wq, MergeAt(q, i, c.blockSize), i, grain);
        var f := CollideFates(c, wq, MergeAt(q, i, c.blockSize), i, grain);
        fates := StepJoin(c, wq, grain, c.blockSize, q, i, k, r.0, r.1, f);
      } else {
        var p := q[i := q[i].(checked := true)];
        var r := CollideReads(c, wq, p, i + 1, grain);
        fates := CollideFates(c, wq, p, i + 1, grain);
        StepKeep(c, wq, grain, c.blockSize, q, i, r.0, r.1, fates);
      }
    }
  }

  lemma NoneForwardable(p: Packet, grain: Pos)
    ensures !Forwardable([], p, grain)
  {
  }

  /** Every packet of the write queue has its fate, and none is answered. */
  lemma {:induction false} MergeFates(c: Config, q: seq<Packet>, i: nat, grain: Pos) returns (fates: seq<Fate>)
    requires i <= |q|
    ensures Checks(c, [], grain, grain, q, i, MergeWrites(q, i, grain), multiset{}, fates)
    decreases |q| - i
  {
    hide Checks, Meets, Forwardable, RemoveAt, FindPacket, Merged;
    if i == |q| {
      fates := NothingLeft(c, [], grain, grain, q);
    } else {
      NoneForwardable(q[i], grain);
      FoundFirst(q, i, q[i], grain);
      if Merges(q, i, grain) {
        var k := FindPacket(q[..i], q[i].address, grain);
        var f := MergeFates(c, MergeAt(q, i, grain), i, grain);
        fates := StepJoin(c, [], grain, grain, q, i, k, MergeWrites(MergeAt(q, i, grain), i, grain), multiset{}, f);
      } else {
        var p := q[i := q[i].(checked := true)];
        fates := MergeFates(c, p, i + 1, grain);
        StepKeep(c, [], grain, grain, q, i, MergeWrites(p, i + 1, grain), multiset{}, fates);
      }
    }
  }

  // ---------------------------------------------------------------- a whole check

  /** `std::find_if_not` on the checked flags. */
  ghost predicate StartsAt(q: seq<Packet>, k: int) {
    && 0 <= k <= |q| && (forall j :: 0 <= j < k ==> q[j].checked) && (k < |q| ==> !q[k].checked)
  }

  lemma {:induction false} FirstUncheckedStarts(q: seq<Packet>)
    ensures StartsAt(q, FirstUnchecked(q))
  {
    if q != [] && q[0].checked {
      FirstUncheckedStarts(q[1..]);
      forall j | 0 <= j < FirstUnchecked(q) ensures q[j].checked {
        assert j > 0 ==> q[j] == q[1..][j - 1];
      }
    }
  }

  ghost function ForwardedDebts(c: Config, wq: seq<Packet>, grain: Pos): Packet -> multiset<Debt> {
    (p: Packet) => if Forwardable(wq, p, grain) then DebtsOf(p.toReturn, p.address / c.blockSize) else multiset{}
  }

  lemma FateForwarded(wq: seq<Packet>, grain: Pos, block: Pos, q: seq<Packet>, i: nat, r: seq<Packet>, j: nat, f: Fate)
    requires j < |q| && FateOk(wq, grain, block, q, i, r, j, f)
    ensures f.Forwarded? <==> i <= j && Forwardable(wq, q[j], grain)
  {
    hide Forwardable, Meets;
  }

  lemma ZipFrom(q: seq<Packet>, fates: seq<Fate>, i: nat)
    requires i <= |q| == |fates|
    ensures var z := Zip(q, fates);
            && z[..i] + z[i..] == z
            && (forall j :: 0 <= j < i ==> z[..i][j] == (q[j], fates[j]))
            && forall j :: 0 <= j < |q| - i ==> z[i..][j] == (q[i + j], fates[i + j]) && q[i..][j] == q[i + j]
  {
  }

  /** A check answers exactly the waiters of the forwardable packets among those it looks at. */
  lemma AnsweredExactly(c: Config, wq: seq<Packet>, grain: Pos, block: Pos, q: seq<Packet>, i: nat, r: seq<Packet>,
                        answered: multiset<Debt>, fates: seq<Fate>)
    requires Checks(c, wq, grain, block, q, i, r, answered, fates)
    ensures i <= |q| && answered == Total(q[i..], ForwardedDebts(c, wq, grain))
  {
    var z := Zip(q, fates);
    hide Forwardable, Meets, Arranged, Gathered, Total, FateOk, Zip;
    ZipFrom(q, fates, i);
    TotalConcat(z[..i], z[i..], GoneDebts(c));
    forall j | 0 <= j < |q| ensures fates[j].Forwarded? <==> i <= j && Forwardable(wq, q[j], grain) {
      FateForwarded(wq, grain, block, q, i, r, j, fates[j]);
    }
    hide Checks;
    NobodyGone(c, z[..i]);
    TotalPointwise(z[i..], q[i..], GoneDebts(c), ForwardedDebts(c, wq, grain));
  }

  /** Afterwards the whole queue is checked. */
  lemma AllCheckedAfter(c: Config, wq: seq<Packet>, grain: Pos, block: Pos, q: seq<Packet>, i: nat, r: seq<Packet>,
                        answered: multiset<Debt>, fates: seq<Fate>)
    requires Checks(c, wq, grain, block, q, i, r, answered, fates) && StartsAt(q, i)
    ensures forall a :: 0 <= a < |r| ==> r[a].checked
  {
    forall a: nat | a < |r| ensures r[a].checked {
      assert KeptBefore(fates, |fates|, a);
      var j :| 0 <= j < |fates| && fates[j] == Kept(a);
      assert FateOk(wq, grain, block, q, i, r, j, fates[j]);
    }
  }

  /** One queue after a check from its first unchecked packet on. */
  ghost predicate CheckedInto(c: Config, wq: seq<Packet>, grain: Pos, block: Pos, q: seq<Packet>, r: seq<Packet>,
                              answered: multiset<Debt>)
  {
    && (forall a :: 0 <= a < |r| ==> r[a].checked)
    && exists k: nat, fates :: StartsAt(q, k) && Checks(c, wq, grain, block, q, k, r, answered, fates)
                               && answered == Total(q[k..], ForwardedDebts(c, wq, grain))
  }

  lemma ChecksInto(c: Config, wq: seq<Packet>, grain: Pos, block: Pos, q: seq<Packet>, r: seq<Packet>,
                   answered: multiset<Debt>, fates: seq<Fate>)
    requires Checks(c, wq, grain, block, q, FirstUnchecked(q), r, answered, fates)
    ensures CheckedInto(c, wq, grain, block, q, r, answered)
  {
    FirstUncheckedStarts(q);
    AllCheckedAfter(c, wq, grain, block, q, FirstUnchecked(q), r, answered, fates);
    AnsweredExactly(c, wq, grain, block, q, FirstUnchecked(q), r, answered, fates);
    hide Checks;
  }

  /**
   * A collision check, exactly: writes merge among themselves at the write grain; then reads and prefetches are
   * answered from the merged writes at that grain, or merge among themselves by blocks, or stay.
   */
  lemma CollisionsExactly(c: Config, s: State) returns (toReads: multiset<Debt>, toPrefetches: multiset<Debt>)
    ensures var (t, answered) := CheckCollision(c, s);
            var grain: Pos := if c.matchOffsetBits then 1 else c.blockSize;
            && t == s.(wq := t.wq, rq := t.rq, pq := t.pq)
            && CheckedInto(c, [], grain, grain, s.wq, t.wq, multiset{})
            && CheckedInto(c, t.wq, grain, c.blockSize, s.rq, t.rq, toReads)
            && CheckedInto(c, t.wq, grain, c.blockSize, s.pq, t.pq, toPrefetches)
            && answered == toReads + toPrefetches
  {
    hide Checks, CheckedInto, FirstUnchecked;
    var grain: Pos := if c.matchOffsetBits then 1 else c.blockSize;
    var wq := MergeWrites(s.wq, FirstUnchecked(s.wq), grain);
    var w := MergeFates(c, s.wq, FirstUnchecked(s.wq), grain);
    var r := CollideFates(c, wq, s.rq, FirstUnchecked(s.rq), grain);
    var p := CollideFates(c, wq, s.pq, FirstUnchecked(s.pq), grain);
    var rq := CollideReads(c, wq, s.rq, FirstUnchecked(s.rq), grain);
    var pq := CollideReads(c, wq, s.pq, FirstUnchecked(s.pq), grain);
    toReads, toPrefetches := rq.1, pq.1;
    ChecksInto(c, [], grain, grain, s.wq, wq, multiset{}, w);
    ChecksInto(c, wq, grain, c.blockSize, s.rq, rq.0, rq.1, r);
    ChecksInto(c, wq, grain, c.blockSize, s.pq, pq.0, pq.1, p);
  }
}
