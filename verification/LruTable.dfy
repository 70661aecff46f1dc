/** The set-associative LRU table of msl/lru_table.h, refined to one recency list per set. */
module LruTable {
  import opened Bits
  import opened Wrappers

  /** A block is valid once it has been used. */
  datatype Block<+T> = Block(lastUsed: nat, data: T)

  predicate InUse<T>(b: Block<T>) { b.lastUsed > 0 }

  // ---------------------------------------------------------------- recency lists

  /** Most recently used first. */
  function Insert<T>(b: Block<T>, l: seq<Block<T>>): (r: seq<Block<T>>)
    ensures |r| == |l| + 1
  {
    if l == [] || b.lastUsed > l[0].lastUsed then [b] + l else [l[0]] + Insert(b, l[1..])
  }

  /** The valid blocks of a set in the order of their last use. */
  function Recent<T>(ways: seq<Block<T>>): (l: seq<Block<T>>)
    ensures |l| <= |ways|
  {
    if ways == [] then []
    else if InUse(ways[0]) then Insert(ways[0], Recent(ways[1..]))
    else Recent(ways[1..])
  }

  function WithoutTag<T>(l: seq<Block<T>>, tagOf: T -> int, tag: int): (r: seq<Block<T>>)
    ensures |r| <= |l|
  {
    if l == [] then []
    else if tagOf(l[0].data) == tag then WithoutTag(l[1..], tagOf, tag)
    else [l[0]] + WithoutTag(l[1..], tagOf, tag)
  }

  ghost predicate Descending<T>(l: seq<Block<T>>) {
    forall i, j :: 0 <= i < j < |l| ==> l[i].lastUsed > l[j].lastUsed
  }

  ghost predicate TagsApart<T>(ways: seq<Block<T>>, tagOf: T -> int) {
    forall i, j :: 0 <= i < j < |ways| && InUse(ways[i]) && InUse(ways[j]) ==>
      tagOf(ways[i].data) != tagOf(ways[j].data)
  }

  ghost predicate UsesApart<T>(ways: seq<Block<T>>) {
    forall i, j :: 0 <= i < j < |ways| && InUse(ways[i]) && InUse(ways[j]) ==> ways[i].lastUsed != ways[j].lastUsed
  }

  lemma {:induction false} InsertMember<T>(b: Block<T>, l: seq<Block<T>>, x: Block<T>)
    ensures x in Insert(b, l) <==> x == b || x in l
  {
    if l != [] && b.lastUsed <= l[0].lastUsed {
      InsertMember(b, l[1..], x);
      assert l == [l[0]] + l[1..];
    }
  }

  lemma {:induction false} RecentMember<T>(ways: seq<Block<T>>, x: Block<T>)
    ensures x in Recent(ways) <==> x in ways && InUse(x)
  {
    if ways != [] {
      RecentMember(ways[1..], x);
      assert ways == [ways[0]] + ways[1..];
      if InUse(ways[0]) {
        InsertMember(ways[0], Recent(ways[1..]), x);
      }
    }
  }

  lemma {:induction false} InsertDescending<T>(b: Block<T>, l: seq<Block<T>>)
    requires Descending(l) && forall x :: x in l ==> x.lastUsed != b.lastUsed
    ensures Descending(Insert(b, l))
  {
    if l != [] && b.lastUsed <= l[0].lastUsed {
      InsertDescending(b, l[1..]);
      var r := Insert(b, l[1..]);
      forall x | x in r ensures x.lastUsed < l[0].lastUsed {
        InsertMember(b, l[1..], x);
      }
    }
  }

  lemma {:induction false} RecentDescending<T>(ways: seq<Block<T>>)
    requires UsesApart(ways)
    ensures Descending(Recent(ways))
  {
    if ways != [] {
      RecentDescending(ways[1..]);
      if InUse(ways[0]) {
        forall x | x in Recent(ways[1..]) ensures x.lastUsed != ways[0].lastUsed {
          RecentMember(ways[1..], x);
        }
        InsertDescending(ways[0], Recent(ways[1..]));
      }
    }
  }

  lemma {:induction false} RecentInvalid<T>(ways: seq<Block<T>>, k: nat, x: Block<T>)
    requires k < |ways| && !InUse(ways[k]) && !InUse(x)
    ensures Recent(ways[k := x]) == Recent(ways)
  {
    assert ways[k := x][1..] == if k == 0 then ways[1..] else ways[1..][k - 1 := x];
    if k > 0 {
      RecentInvalid(ways[1..], k - 1, x);
    }
  }

  /** A block used now leads the list, wherever it is stored. */
  lemma {:induction false} RecentTop<T>(ways: seq<Block<T>>, k: nat, b: Block<T>, x: Block<T>)
    requires k < |ways| && InUse(b) && !InUse(x)
    requires forall i :: 0 <= i < |ways| ==> ways[i].lastUsed < b.lastUsed
    ensures Recent(ways[k := b]) == [b] + Recent(ways[k := x])
  {
    if k == 0 {
      assert ways[0 := b][1..] == ways[1..] == ways[0 := x][1..];
      forall y | y in Recent(ways[1..]) ensures y.lastUsed < b.lastUsed {
        RecentMember(ways[1..], y);
      }
    } else {
      assert ways[k := b][1..] == ways[1..][k - 1 := b];
      assert ways[k := x][1..] == ways[1..][k - 1 := x];
      RecentTop(ways[1..], k - 1, b, x);
      assert ([b] + Recent(ways[1..][k - 1 := x]))[1..] == Recent(ways[1..][k - 1 := x]);
    }
  }

  lemma {:induction false} WithoutAbsent<T>(l: seq<Block<T>>, tagOf: T -> int, tag: int)
    requires forall x :: x in l ==> tagOf(x.data) != tag
    ensures WithoutTag(l, tagOf, tag) == l
  {
    if l != [] {
      WithoutAbsent(l[1..], tagOf, tag);
    }
  }

  lemma {:induction false} WithoutInserted<T>(b: Block<T>, l: seq<Block<T>>, tagOf: T -> int)
    requires forall x :: x in l ==> tagOf(x.data) != tagOf(b.data)
    ensures WithoutTag(Insert(b, l), tagOf, tagOf(b.data)) == l
  {
    if l == [] || b.lastUsed > l[0].lastUsed {
      assert ([b] + l)[1..] == l;
      WithoutAbsent(l, tagOf, tagOf(b.data));
    } else {
      WithoutInserted(b, l[1..], tagOf);
      assert ([l[0]] + Insert(b, l[1..]))[1..] == Insert(b, l[1..]);
    }
  }

  lemma {:induction false} InsertAll<T>(b: Block<T>, l: seq<Block<T>>, tagOf: T -> int, tag: int)
    requires forall x :: x in l ==> x.lastUsed < b.lastUsed
    ensures Insert(b, WithoutTag(l, tagOf, tag)) == [b] + WithoutTag(l, tagOf, tag)
  {
    if l != [] && tagOf(l[0].data) == tag {
      InsertAll(b, l[1..], tagOf, tag);
    }
  }

  lemma {:induction false} InsertWithout<T>(b: Block<T>, l: seq<Block<T>>, tagOf: T -> int, tag: int)
    requires Descending(l) && tagOf(b.data) != tag && forall x :: x in l ==> x.lastUsed != b.lastUsed
    ensures WithoutTag(Insert(b, l), tagOf, tag) == Insert(b, WithoutTag(l, tagOf, tag))
  {
    if l == [] {
    } else if b.lastUsed > l[0].lastUsed {
      assert ([b] + l)[1..] == l;
      InsertAll(b, l, tagOf, tag);
    } else {
      InsertWithout(b, l[1..], tagOf, tag);
      assert ([l[0]] + Insert(b, l[1..]))[1..] == Insert(b, l[1..]);
      var w := WithoutTag(l[1..], tagOf, tag);
      assert ([l[0]] + w)[1..] == w;
    }
  }

  /** Invalidating a way takes its block out of the list, which is the one of its tag. */
  lemma {:induction false} RecentRemove<T>(ways: seq<Block<T>>, k: nat, x: Block<T>, tagOf: T -> int)
    requires k < |ways| && InUse(ways[k]) && !InUse(x) && TagsApart(ways, tagOf) && UsesApart(ways)
    ensures Recent(ways[k := x]) == WithoutTag(Recent(ways), tagOf, tagOf(ways[k].data))
  {
    var rest := ways[1..];
    if k == 0 {
      assert ways[0 := x][1..] == rest;
      forall y | y in Recent(rest) ensures tagOf(y.data) != tagOf(ways[0].data) {
        RecentMember(rest, y);
      }
      WithoutInserted(ways[0], Recent(rest), tagOf);
    } else {
      assert ways[k := x][1..] == rest[k - 1 := x];
      RecentRemove(rest, k - 1, x, tagOf);
      if InUse(ways[0]) {
        RecentDescending(rest);
        forall y | y in Recent(rest) ensures y.lastUsed != ways[0].lastUsed {
          RecentMember(rest, y);
        }
        InsertWithout(ways[0], Recent(rest), tagOf, tagOf(ways[k].data));
      }
    }
  }

  lemma {:induction false} InsertBelow<T>(b: Block<T>, l: seq<Block<T>>, m: Block<T>)
    requires b.lastUsed > m.lastUsed
    ensures Insert(b, l + [m]) == Insert(b, l) + [m]
  {
    if l == [] {
    } else if b.lastUsed > l[0].lastUsed {
      assert [b] + (l + [m]) == ([b] + l) + [m];
    } else {
      assert (l + [m])[1..] == l[1..] + [m];
      InsertBelow(b, l[1..], m);
    }
  }

  lemma {:induction false} InsertLast<T>(m: Block<T>, l: seq<Block<T>>)
    requires forall x :: x in l ==> x.lastUsed > m.lastUsed
    ensures Insert(m, l) == l + [m]
  {
    if l != [] {
      InsertLast(m, l[1..]);
    }
  }

  /** The least recently used block is the last of the list. */
  lemma {:induction false} RecentBottom<T>(ways: seq<Block<T>>, k: nat, x: Block<T>)
    requires k < |ways| && InUse(ways[k]) && !InUse(x)
    requires forall i :: 0 <= i < |ways| && i != k && InUse(ways[i]) ==> ways[k].lastUsed < ways[i].lastUsed
    ensures Recent(ways) == Recent(ways[k := x]) + [ways[k]]
  {
    var rest := ways[1..];
    if k == 0 {
      assert ways[0 := x][1..] == rest;
      forall y | y in Recent(rest) ensures y.lastUsed > ways[0].lastUsed {
        RecentMember(rest, y);
      }
      InsertLast(ways[0], Recent(rest));
    } else {
      assert ways[k := x][1..] == rest[k - 1 := x];
      RecentBottom(rest, k - 1, x);
      if InUse(ways[0]) {
        InsertBelow(ways[0], Recent(rest[k - 1 := x]), ways[k]);
      }
    }
  }

  lemma {:induction false} RecentFull<T>(ways: seq<Block<T>>)
    ensures |Recent(ways)| == |ways| <==> forall i :: 0 <= i < |ways| ==> InUse(ways[i])
  {
    if ways != [] {
      RecentFull(ways[1..]);
      assert forall i :: 0 <= i < |ways[1..]| ==> ways[1..][i] == ways[i + 1];
      if InUse(ways[0]) && |Recent(ways)| == |ways| {
        forall i | 0 <= i < |ways| ensures InUse(ways[i]) {
          assert i > 0 ==> ways[i] == ways[1..][i - 1];
        }
      }
    }
  }

  // ---------------------------------------------------------------- the victim search

  predicate Matches<T>(b: Block<T>, tagOf: T -> int, tag: int) { tagOf(b.data) == tag }

  /** `match_and_check`: invalid blocks come before everything, even each other. */
  predicate Before<T>(x: Block<T>, y: Block<T>, tagOf: T -> int, tag: int) {
    var xMatch, yMatch := Matches(x, tagOf, tag), Matches(y, tagOf, tag);
    !InUse(x) || (InUse(y) && ((!xMatch && yMatch) || (xMatch == yMatch && x.lastUsed < y.lastUsed)))
  }

  /** It puts every invalid block before itself. */
  lemma BeforeReflexive<T>(x: Block<T>, tagOf: T -> int, tag: int)
    ensures Before(x, x, tagOf, tag) <==> !InUse(x)
  {
  }

  /** What the smaller result means: an invalid block if there is one, else no later than any non-match. */
  ghost predicate IsMiss<T>(ways: seq<Block<T>>, n: nat, k: nat, tagOf: T -> int, tag: int) {
    && k < n <= |ways|
    && forall i :: 0 <= i < n ==>
         if !InUse(ways[i]) then !InUse(ways[k])
         else !InUse(ways[k]) || i == k || !Before(ways[i], ways[k], tagOf, tag)
  }

  /** What the larger result means: a valid block if there is one, a match if there is one. */
  ghost predicate IsHit<T>(ways: seq<Block<T>>, n: nat, k: nat, tagOf: T -> int, tag: int) {
    && k < n <= |ways|
    && forall i :: 0 <= i < n && InUse(ways[i]) ==> InUse(ways[k]) && (i == k || !Before(ways[k], ways[i], tagOf, tag))
  }

  /** `std::minmax_element`, two elements at a time. */
  method MinMax<T>(ways: seq<Block<T>>, tagOf: T -> int, tag: int) returns (miss: nat, hit: nat)
    requires |ways| > 0
    ensures IsMiss(ways, |ways|, miss, tagOf, tag) && IsHit(ways, |ways|, hit, tagOf, tag)
  {
    if |ways| == 1 {
      return 0, 0;
    }
    if Before(ways[1], ways[0], tagOf, tag) {
      miss, hit := 1, 0;
    } else {
      miss, hit := 0, 1;
    }
    var first := 2;
    while first < |ways|
      invariant first <= |ways|
      invariant IsMiss(ways, first, miss, tagOf, tag) && IsHit(ways, first, hit, tagOf, tag)
    {
      var next := first + 1;
      if next == |ways| {
        if Before(ways[first], ways[miss], tagOf, tag) {
          miss := first;
        } else if !Before(ways[first], ways[hit], tagOf, tag) {
          hit := first;
        }
        first := next;
      } else {
        if Before(ways[next], ways[first], tagOf, tag) {
          if Before(ways[next], ways[miss], tagOf, tag) {
            miss := next;
          }
          if !Before(ways[first], ways[hit], tagOf, tag) {
            hit := first;
          }
        } else {
          if Before(ways[first], ways[miss], tagOf, tag) {
            miss := first;
          }
          if !Before(ways[next], ways[hit], tagOf, tag) {
            hit := next;
          }
        }
        first := next + 1;
      }
    }
  }

  // ---------------------------------------------------------------- one set against its specification

  ghost predicate SetInv<T>(ways: seq<Block<T>>, tagOf: T -> int, now: nat) {
    TagsApart(ways, tagOf) && UsesApart(ways) && forall i :: 0 <= i < |ways| ==> ways[i].lastUsed <= now
  }

  function Take<U>(l: seq<U>, n: nat): seq<U> { if |l| <= n then l else l[..n] }

  /** A fill leads the list, replaces its own tag, and pushes the last block out of a full set. */
  ghost function Filled<T>(l: seq<Block<T>>, b: Block<T>, tagOf: T -> int, capacity: nat): seq<Block<T>> {
    Take([b] + WithoutTag(l, tagOf, tagOf(b.data)), capacity)
  }

  lemma {:induction false} WithoutPresent<T>(l: seq<Block<T>>, tagOf: T -> int, tag: int)
    ensures forall x :: x in WithoutTag(l, tagOf, tag) ==> x in l
    ensures (exists x :: x in l && tagOf(x.data) == tag) ==> |WithoutTag(l, tagOf, tag)| < |l|
  {
    if l != [] {
      WithoutPresent(l[1..], tagOf, tag);
      assert l == [l[0]] + l[1..];
    }
  }

  lemma StoreKeepsInv<T>(ways: seq<Block<T>>, k: nat, data: T, tagOf: T -> int, now: nat)
    requires k < |ways| && SetInv(ways, tagOf, now)
    requires forall i :: 0 <= i < |ways| && i != k && InUse(ways[i]) ==> tagOf(ways[i].data) != tagOf(data)
    ensures SetInv(ways[k := Block(now + 1, data)], tagOf, now + 1)
  {
  }

  /** Writing the matching way: an update in place. */
  lemma StoreMatch<T>(ways: seq<Block<T>>, k: nat, data: T, tagOf: T -> int, now: nat)
    requires k < |ways| && SetInv(ways, tagOf, now) && InUse(ways[k]) && tagOf(ways[k].data) == tagOf(data)
    ensures var b := Block(now + 1, data);
            && SetInv(ways[k := b], tagOf, now + 1)
            && Recent(ways[k := b]) == [b] + WithoutTag(Recent(ways), tagOf, tagOf(data))
            && Recent(ways[k := b]) == Filled(Recent(ways), b, tagOf, |ways|)
  {
    var b := Block(now + 1, data);
    var x := ways[k].(lastUsed := 0);
    StoreKeepsInv(ways, k, data, tagOf, now);
    RecentTop(ways, k, b, x);
    RecentRemove(ways, k, x, tagOf);
    RecentMember(ways, ways[k]);
    WithoutPresent(Recent(ways), tagOf, tagOf(data));
  }

  /** Writing where no way matches: a free way, or the least recently used one. */
  lemma StoreNew<T>(ways: seq<Block<T>>, k: nat, data: T, tagOf: T -> int, now: nat)
    requires k < |ways| && SetInv(ways, tagOf, now)
    requires forall i :: 0 <= i < |ways| && InUse(ways[i]) ==> tagOf(ways[i].data) != tagOf(data)
    requires !InUse(ways[k]) || forall i :: 0 <= i < |ways| ==> InUse(ways[i]) && ways[k].lastUsed <= ways[i].lastUsed
    ensures var b := Block(now + 1, data);
            SetInv(ways[k := b], tagOf, now + 1) && Recent(ways[k := b]) == Filled(Recent(ways), b, tagOf, |ways|)
  {
    var b := Block(now + 1, data);
    var x := ways[k].(lastUsed := 0);
    StoreKeepsInv(ways, k, data, tagOf, now);
    RecentTop(ways, k, b, x);
    forall y | y in Recent(ways) ensures tagOf(y.data) != tagOf(data) {
      RecentMember(ways, y);
    }
    WithoutAbsent(Recent(ways), tagOf, tagOf(data));
    RecentFull(ways);
    if InUse(ways[k]) {
      RecentBottom(ways, k, x);
      assert [b] + Recent(ways[k := x]) == ([b] + Recent(ways))[..|ways|];
    } else {
      RecentInvalid(ways, k, x);
    }
  }

  /** Whichever way the scan picks, a fill is a fill of the recency list. */
  lemma FillRefines<T>(ways: seq<Block<T>>, miss: nat, hit: nat, data: T, tagOf: T -> int, now: nat)
    requires SetInv(ways, tagOf, now)
    requires IsMiss(ways, |ways|, miss, tagOf, tagOf(data)) && IsHit(ways, |ways|, hit, tagOf, tagOf(data))
    ensures var k := if tagOf(ways[hit].data) == tagOf(data) then hit else miss;
            var b := Block(now + 1, data);
            SetInv(ways[k := b], tagOf, now + 1) && Recent(ways[k := b]) == Filled(Recent(ways), b, tagOf, |ways|)
  {
    if tagOf(ways[hit].data) == tagOf(data) {
      if InUse(ways[hit]) {
        StoreMatch(ways, hit, data, tagOf, now);
      } else {
        StoreNew(ways, hit, data, tagOf, now);
      }
    } else {
      StoreNew(ways, miss, data, tagOf, now);
    }
  }

  lemma PickedInside<T>(ways: seq<Block<T>>, miss: nat, hit: nat, tagOf: T -> int, tag: int)
    requires IsMiss(ways, |ways|, miss, tagOf, tag) && IsHit(ways, |ways|, hit, tagOf, tag)
    ensures miss < |ways| && hit < |ways|
  {
  }

  lemma InvalidateRefines<T>(ways: seq<Block<T>>, k: nat, x: Block<T>, tagOf: T -> int, now: nat)
    requires k < |ways| && SetInv(ways, tagOf, now) && InUse(ways[k]) && !InUse(x)
    ensures SetInv(ways[k := x], tagOf, now)
    ensures Recent(ways[k := x]) == WithoutTag(Recent(ways), tagOf, tagOf(ways[k].data))
  {
    RecentRemove(ways, k, x, tagOf);
  }

  // ---------------------------------------------------------------- how long an element stays

  function Tags<T>(l: seq<Block<T>>, tagOf: T -> int): (r: seq<int>)
    ensures |r| == |l| && forall i :: 0 <= i < |l| ==> r[i] == tagOf(l[i].data)
  {
    seq(|l|, i requires 0 <= i < |l| => tagOf(l[i].data))
  }

  function Remove(l: seq<int>, t: int): (r: seq<int>)
    ensures |r| <= |l| && t !in r && forall x :: x in r <==> x in l && x != t
  {
    if l == [] then []
    else
      var r := Remove(l[1..], t);
      assert l == [l[0]] + l[1..];
      if l[0] == t then r else [l[0]] + r
  }

  /** One use on the list of tags: the used tag leads, the last one leaves a full set. */
  function Used(l: seq<int>, t: int, capacity: nat): seq<int> { Take([t] + Remove(l, t), capacity) }

  lemma {:induction false} TagsWithout<T>(l: seq<Block<T>>, tagOf: T -> int, tag: int)
    ensures Tags(WithoutTag(l, tagOf, tag), tagOf) == Remove(Tags(l, tagOf), tag)
  {
    if l != [] {
      TagsWithout(l[1..], tagOf, tag);
      assert Tags(l, tagOf)[1..] == Tags(l[1..], tagOf);
      var w := WithoutTag(l[1..], tagOf, tag);
      assert Tags([l[0]] + w, tagOf) == [tagOf(l[0].data)] + Tags(w, tagOf);
    }
  }

  /** A fill of a set uses the filled tag. */
  lemma FillUses<T>(l: seq<Block<T>>, b: Block<T>, tagOf: T -> int, capacity: nat)
    ensures Tags(Filled(l, b, tagOf, capacity), tagOf) == Used(Tags(l, tagOf), tagOf(b.data), capacity)
  {
    var w := WithoutTag(l, tagOf, tagOf(b.data));
    TagsWithout(l, tagOf, tagOf(b.data));
    assert Tags([b] + w, tagOf) == [tagOf(b.data)] + Tags(w, tagOf);
  }

  /** A set sees fills, probes that count as uses only when they hit, and invalidations. */
  datatype Access = Fill(tag: int) | Probe(tag: int) | Drop(tag: int)

  predicate Touches(l: seq<int>, a: Access) { a.Fill? || (a.Probe? && a.tag in l) }

  function After(l: seq<int>, a: Access, capacity: nat): seq<int> {
    if a.Drop? then Remove(l, a.tag) else if Touches(l, a) then Used(l, a.tag, capacity) else l
  }

  function AfterAll(l: seq<int>, accesses: seq<Access>, capacity: nat): seq<int>
    decreases |accesses|
  {
    if accesses == [] then l else AfterAll(After(l, accesses[0], capacity), accesses[1..], capacity)
  }

  /** The tags used since some moment, and not invalidated after their last use, after one more access. */
  ghost function Passed(l: seq<int>, before: set<int>, a: Access): set<int> {
    if a.Drop? then before - {a.tag} else if Touches(l, a) then before + {a.tag} else before
  }

  ghost function PassedAll(l: seq<int>, before: set<int>, accesses: seq<Access>, capacity: nat): set<int>
    decreases |accesses|
  {
    if accesses == [] then before
    else PassedAll(After(l, accesses[0], capacity), Passed(l, before, accesses[0]), accesses[1..], capacity)
  }

  /** Fewer than `capacity` of them at any time. */
  ghost predicate AlwaysRoom(l: seq<int>, before: set<int>, accesses: seq<Access>, capacity: nat)
    decreases |accesses|
  {
    && |before| < capacity
    && (accesses == [] ||
        AlwaysRoom(After(l, accesses[0], capacity), Passed(l, before, accesses[0]), accesses[1..], capacity))
  }

  ghost predicate Apart(l: seq<int>) { forall i, j :: 0 <= i < j < |l| ==> l[i] != l[j] }

  /** `t` stands behind exactly the tags in `before`. */
  ghost predicate Behind(l: seq<int>, t: int, before: set<int>) {
    && |before| < |l| && l[|before|] == t
    && (forall i :: 0 <= i < |before| ==> l[i] in before)
    && (forall x :: x in before ==> x in l[..|before|])
    && Apart(l)
  }

  lemma {:induction false} RemoveOne(l: seq<int>, p: nat, t: int)
    requires p < |l| && l[p] == t && Apart(l)
    ensures Remove(l, t) == l[..p] + l[p + 1..]
  {
    if p == 0 {
      RemoveNone(l[1..], t);
    } else {
      RemoveOne(l[1..], p - 1, t);
      assert l[1..][..p - 1] == l[1..p] && l[1..][p..] == l[p + 1..];
    }
  }

  lemma {:induction false} RemoveNone(l: seq<int>, t: int)
    requires t !in l
    ensures Remove(l, t) == l
  {
    if l != [] {
      RemoveNone(l[1..], t);
    }
  }

  lemma SmallerSet(a: set<int>, b: set<int>)
    requires a <= b
    ensures |a| <= |b|
  {
    var rest := b - a;
    assert b == a + rest;
  }

  lemma RemoveApart(l: seq<int>, t: int)
    requires Apart(l)
    ensures Apart(Remove(l, t))
  {
    if t in l {
      var p :| 0 <= p < |l| && l[p] == t;
      RemoveOne(l, p, t);
    } else {
      RemoveNone(l, t);
    }
  }

  lemma UsedApart(l: seq<int>, y: int, capacity: nat)
    requires Apart(l)
    ensures Apart(Used(l, y, capacity)) && (capacity > 0 ==> |Used(l, y, capacity)| > 0 && Used(l, y, capacity)[0] == y)
  {
    RemoveApart(l, y);
  }

  lemma KnownPlaces(l: seq<int>, t: int, before: set<int>, p: nat, u: seq<int>)
    requires Behind(l, t, before) && p < |before| && Apart(u)
    requires u == [l[p]] + (l[..p] + l[p + 1..])
    ensures Behind(u, t, before)
  {
    var n := |before|;
    hide Apart;
    assert forall i :: 0 <= i < n ==> u[i] == l[if i == 0 then p else if i <= p then i - 1 else i];
    forall x | x in before ensures x in u[..n] {
      var j :| 0 <= j < n && l[j] == x;
      assert u[if j == p then 0 else if j < p then j + 1 else j] == x;
    }
  }

  /** A tag in front of `t` is used again: nothing moves behind `t`. */
  lemma UseKnown(l: seq<int>, t: int, before: set<int>, p: nat, capacity: nat)
    requires Behind(l, t, before) && |l| <= capacity && p < |before|
    ensures Behind(Used(l, l[p], capacity), t, before)
  {
    RemoveOne(l, p, l[p]);
    UsedApart(l, l[p], capacity);
    hide Apart;
    KnownPlaces(l, t, before, p, Used(l, l[p], capacity));
  }

  /** Removing a tag that is not in front of `t` changes nothing there. */
  lemma FrontStays(l: seq<int>, t: int, before: set<int>, y: int)
    requires Behind(l, t, before) && y != t && y !in before
    ensures |before| < |Remove(l, y)| && Remove(l, y)[..|before| + 1] == l[..|before|] + [t]
  {
    hide Apart;
    if y in l {
      var p :| 0 <= p < |l| && l[p] == y;
      assert |before| < p;
      RemoveOne(l, p, y);
    } else {
      RemoveNone(l, y);
    }
  }

  /** Any other tag pushes `t` one place back, out of a full set. */
  lemma UseFresh(l: seq<int>, t: int, before: set<int>, y: int, capacity: nat)
    requires Behind(l, t, before) && |l| <= capacity && y != t && y !in before
    ensures if |before| + 1 < capacity then Behind(Used(l, y, capacity), t, before + {y})
            else t !in Used(l, y, capacity)
  {
    var n := |before|;
    FrontStays(l, t, before, y);
    UsedApart(l, y, capacity);
    hide Apart, Remove;
    FreshSplit(Remove(l, y), l[..n], t, y, capacity);
    if n + 1 < capacity {
      FreshPlaces(Used(l, y, capacity), l, t, before, y);
    }
  }

  lemma FreshSplit(r: seq<int>, front: seq<int>, t: int, y: int, capacity: nat)
    requires |front| < |r| && r[..|front| + 1] == front + [t] && capacity > |front| && y != t && t !in front
    ensures var u := Take([y] + r, capacity);
            if |front| + 1 < capacity then |front| + 1 < |u| && u[1..|front| + 1] == front && u[|front| + 1] == t
            else t !in u
  {
    var n := |front|;
    assert r[n] == r[..n + 1][n] == t;
    assert r[..n] == r[..n + 1][..n] == front;
    assert ([y] + r)[..n + 1] == [y] + front;
  }

  lemma ShiftedMember(u: seq<int>, front: seq<int>, y: int, x: int)
    requires |front| < |u| && u[0] == y && u[1..|front| + 1] == front
    ensures x in u[..|front| + 1] <==> x == y || x in front
  {
    assert u[..|front| + 1] == [y] + front;
  }

  lemma FreshPlaces(u: seq<int>, l: seq<int>, t: int, before: set<int>, y: int)
    requires Behind(l, t, before) && y !in before && |before| + 1 < |u|
    requires u[0] == y && u[1..|before| + 1] == l[..|before|] && u[|before| + 1] == t
    requires Apart(u)
    ensures Behind(u, t, before + {y})
  {
    var n, front := |before|, l[..|before|];
    hide Apart;
    assert |before + {y}| == n + 1;
    forall i | 0 <= i < n + 1 ensures u[i] in before + {y} {
      assert u[i] in u[..n + 1];
      ShiftedMember(u, front, y, u[i]);
    }
    forall x | x in before + {y} ensures x in u[..n + 1] {
      ShiftedMember(u, front, y, x);
    }
  }

  /** Another tag is used while `t` stands behind `before`. */
  lemma UseBehind(l: seq<int>, t: int, before: set<int>, y: int, capacity: nat)
    requires Behind(l, t, before) && |l| <= capacity && y != t && t !in before
    ensures var after := before + {y};
            if |after| < capacity then Behind(Used(l, y, capacity), t, after) else t !in Used(l, y, capacity)
  {
    if y in before {
      assert before + {y} == before;
      var p :| 0 <= p < |before| && l[p] == y;
      UseKnown(l, t, before, p, capacity);
    } else {
      UseFresh(l, t, before, y, capacity);
      assert |before + {y}| == |before| + 1;
    }
  }

  lemma {:induction false} StaysOut(l: seq<int>, t: int, accesses: seq<Access>, capacity: nat)
    requires t !in l && forall a :: a in accesses ==> a.tag != t
    ensures t !in AfterAll(l, accesses, capacity)
    decreases |accesses|
  {
    if accesses != [] {
      StaysOut(After(l, accesses[0], capacity), t, accesses[1..], capacity);
    }
  }

  lemma UsedFits(l: seq<int>, y: int, capacity: nat)
    ensures |Used(l, y, capacity)| <= capacity
  {
  }

  lemma AtItsPlace(l: seq<int>, t: int, before: set<int>)
    requires Behind(l, t, before)
    ensures t in l && |before| < |l|
  {
  }

  /** An invalidation of another tag moves `t` forward, if at all. */
  lemma DropBehind(l: seq<int>, t: int, before: set<int>, y: int)
    requires Behind(l, t, before) && y != t
    ensures Behind(Remove(l, y), t, before - {y})
  {
    RemoveApart(l, y);
    if y in before {
      var p :| 0 <= p < |before| && l[p] == y;
      DropKnown(l, t, before, p);
    } else {
      assert before - {y} == before;
      if y in l {
        DropLater(l, t, before, y);
      } else {
        RemoveNone(l, y);
      }
    }
  }

  lemma DropKnown(l: seq<int>, t: int, before: set<int>, p: nat)
    requires Behind(l, t, before) && p < |before| && Apart(Remove(l, l[p]))
    ensures Behind(Remove(l, l[p]), t, before - {l[p]})
  {
    var y, n, r := l[p], |before|, Remove(l, l[p]);
    RemoveOne(l, p, y);
    assert |before - {y}| == n - 1;
    forall i | 0 <= i < n - 1 ensures r[i] in before - {y} {
      assert r[i] == l[if i < p then i else i + 1];
    }
    hide Apart, Remove;
    forall x | x in before - {y} ensures x in r[..n - 1] {
      var j :| 0 <= j < n && l[j] == x;
      assert r[if j < p then j else j - 1] == x;
    }
  }

  lemma DropLater(l: seq<int>, t: int, before: set<int>, y: int)
    requires Behind(l, t, before) && y in l && y != t && y !in before && Apart(Remove(l, y))
    ensures Behind(Remove(l, y), t, before)
  {
    var p :| 0 <= p < |l| && l[p] == y;
    RemoveOne(l, p, y);
    assert |before| < p;
    assert Remove(l, y)[..|before|] == l[..|before|];
  }

  lemma {:induction false} StaysWhile(l: seq<int>, t: int, before: set<int>, accesses: seq<Access>, capacity: nat)
    requires Behind(l, t, before) && |l| <= capacity && t !in before
    requires forall a :: a in accesses ==> a.tag != t
    ensures t in AfterAll(l, accesses, capacity) <==> AlwaysRoom(l, before, accesses, capacity)
    decreases |accesses|
  {
    hide Behind, Used, Remove;
    AtItsPlace(l, t, before);
    if accesses != [] {
      var a := accesses[0];
      var next := After(l, a, capacity);
      if a.Drop? {
        DropBehind(l, t, before, a.tag);
        StaysWhile(next, t, before - {a.tag}, accesses[1..], capacity);
      } else if Touches(l, a) {
        var after := before + {a.tag};
        UseBehind(l, t, before, a.tag, capacity);
        UsedFits(l, a.tag, capacity);
        if |after| < capacity {
          StaysWhile(next, t, after, accesses[1..], capacity);
        } else {
          StaysOut(next, t, accesses[1..], capacity);
        }
      } else {
        StaysWhile(next, t, before, accesses[1..], capacity);
      }
    }
  }

  lemma {:induction false} RoomThroughout(l: seq<int>, before: set<int>, accesses: seq<Access>, capacity: nat)
    ensures AlwaysRoom(l, before, accesses, capacity) <==>
            forall n :: 0 <= n <= |accesses| ==> |PassedAll(l, before, accesses[..n], capacity)| < capacity
    decreases |accesses|
  {
    hide After, Passed;
    assert accesses[..0] == [];
    if accesses != [] {
      var next, after, rest := After(l, accesses[0], capacity), Passed(l, before, accesses[0]), accesses[1..];
      RoomThroughout(next, after, rest, capacity);
      forall n | 0 < n <= |accesses|
        ensures PassedAll(l, before, accesses[..n], capacity) == PassedAll(next, after, rest[..n - 1], capacity)
      {
        assert accesses[..n][1..] == rest[..n - 1];
      }
      assert forall n :: 0 <= n <= |rest| ==>
        PassedAll(next, after, rest[..n], capacity) == PassedAll(l, before, accesses[..n + 1], capacity);
    }
  }

  /**
   * A used element still hits exactly if at no time since have as many distinct other tags as there are ways been
   * used without being invalidated after their last use.
   */
  lemma HitsExactlyWithinCapacity(l: seq<int>, t: int, accesses: seq<Access>, capacity: Pos)
    requires Apart(l)
    requires forall a :: a in accesses ==> a.tag != t
    ensures var start := Used(l, t, capacity);
            t in AfterAll(start, accesses, capacity) <==>
            forall n :: 0 <= n <= |accesses| ==> |PassedAll(start, {}, accesses[..n], capacity)| < capacity
  {
    var start := Used(l, t, capacity);
    UsedApart(l, t, capacity);
    UsedFits(l, t, capacity);
    var none: set<int> := {};
    assert Behind(start, t, none);
    StaysWhile(start, t, {}, accesses, capacity);
    RoomThroughout(start, {}, accesses, capacity);
  }

  // ---------------------------------------------------------------- without invalidations

  /** The distinct tags used by a sequence of accesses. */
  ghost function TouchedTags(l: seq<int>, accesses: seq<Access>, capacity: nat): set<int>
    decreases |accesses|
  {
    if accesses == [] then {}
    else
      (if Touches(l, accesses[0]) then {accesses[0].tag} else {})
      + TouchedTags(After(l, accesses[0], capacity), accesses[1..], capacity)
  }

  lemma Unfold(l: seq<int>, before: set<int>, accesses: seq<Access>, capacity: nat)
    requires accesses != []
    ensures before + TouchedTags(l, accesses, capacity) ==
            (if Touches(l, accesses[0]) then before + {accesses[0].tag} else before)
            + TouchedTags(After(l, accesses[0], capacity), accesses[1..], capacity)
  {
    hide After;
    hide Touches;
  }

  lemma {:induction false} RoomWhileFewTouched(l: seq<int>, before: set<int>, accesses: seq<Access>, capacity: nat)
    requires forall a :: a in accesses ==> !a.Drop?
    ensures AlwaysRoom(l, before, accesses, capacity) <==> |before + TouchedTags(l, accesses, capacity)| < capacity
    decreases |accesses|
  {
    hide After, Touches, TouchedTags;
    SmallerSet(before, before + TouchedTags(l, accesses, capacity));
    if accesses == [] {
      NothingTouched(l, before, capacity);
    } else {
      Unfold(l, before, accesses, capacity);
      RoomWhileFewTouched(After(l, accesses[0], capacity), Passed(l, before, accesses[0]), accesses[1..], capacity);
    }
  }

  lemma NothingTouched(l: seq<int>, before: set<int>, capacity: nat)
    ensures before + TouchedTags(l, [], capacity) == before
  {
  }

  /** Without invalidations: exactly while fewer distinct other tags than ways were used since. */
  lemma HitsExactlyWhileFewTouched(l: seq<int>, t: int, accesses: seq<Access>, capacity: Pos)
    requires Apart(l)
    requires forall a :: a in accesses ==> a.tag != t && !a.Drop?
    ensures var start := Used(l, t, capacity);
            t in AfterAll(start, accesses, capacity) <==> |TouchedTags(start, accesses, capacity)| < capacity
  {
    var start := Used(l, t, capacity);
    HitsExactlyWithinCapacity(l, t, accesses, capacity);
    RoomThroughout(start, {}, accesses, capacity);
    RoomWhileFewTouched(start, {}, accesses, capacity);
    assert {} + TouchedTags(start, accesses, capacity) == TouchedTags(start, accesses, capacity);
  }

  /** A set holds a tag once. */
  lemma RecencyApart<T>(ways: seq<Block<T>>, tagOf: T -> int, now: nat)
    requires SetInv(ways, tagOf, now)
    ensures Apart(Tags(Recent(ways), tagOf))
  {
    var l := Recent(ways);
    RecentDescending(ways);
    forall i, j | 0 <= i < j < |l| ensures tagOf(l[i].data) != tagOf(l[j].data) {
      RecentMember(ways, l[i]);
      RecentMember(ways, l[j]);
    }
  }

  /** An invalidation takes its tag out of the list. */
  lemma InvalidateDrops<T>(l: seq<Block<T>>, tagOf: T -> int, tag: int, capacity: nat)
    ensures Tags(WithoutTag(l, tagOf, tag), tagOf) == After(Tags(l, tagOf), Drop(tag), capacity)
  {
    TagsWithout(l, tagOf, tag);
  }

  /** A probe of a set uses its tag if it hits, and changes nothing otherwise. */
  lemma ProbeUses<T>(l: seq<Block<T>>, r: Option<T>, tagOf: T -> int, tag: int, now: nat, capacity: nat)
    requires Answers(l, r, tagOf, tag) && |l| <= capacity
    ensures Tags(if r.Some? then [Block(now, r.value)] + WithoutTag(l, tagOf, tag) else l, tagOf)
         == After(Tags(l, tagOf), Probe(tag), capacity)
  {
    TagsWithout(l, tagOf, tag);
    WithoutPresent(l, tagOf, tag);
    var w := WithoutTag(l, tagOf, tag);
    if r.Some? {
      var x :| x in l && x.data == r.value;
      var i :| 0 <= i < |l| && l[i] == x;
      assert Tags(l, tagOf)[i] == tag;
      assert Tags([Block(now, r.value)] + w, tagOf) == [tag] + Tags(w, tagOf);
    } else {
      assert tag !in Tags(l, tagOf);
    }
  }

  /** What a lookup may answer: the data of the block with this tag, or nothing if there is none. */
  ghost predicate Answers<T>(l: seq<Block<T>>, r: Option<T>, tagOf: T -> int, tag: int) {
    match r
    case Some(data) => tagOf(data) == tag && exists x :: x in l && x.data == data
    case None => forall x :: x in l ==> tagOf(x.data) != tag
  }

  ghost predicate FirstMatch<T>(ways: seq<Block<T>>, k: nat, tagOf: T -> int, tag: int) {
    && k <= |ways|
    && (k < |ways| ==> InUse(ways[k]) && tagOf(ways[k].data) == tag)
    && forall j :: 0 <= j < k ==> !(InUse(ways[j]) && tagOf(ways[j].data) == tag)
  }

  lemma MatchAnswers<T>(ways: seq<Block<T>>, k: nat, tagOf: T -> int, tag: int)
    requires FirstMatch(ways, k, tagOf, tag)
    ensures Answers(Recent(ways), if k < |ways| then Some(ways[k].data) else None, tagOf, tag)
  {
    if k < |ways| {
      RecentMember(ways, ways[k]);
    } else {
      forall x | x in Recent(ways) ensures tagOf(x.data) != tag {
        RecentMember(ways, x);
      }
    }
  }

  lemma {:induction false} RecentEmpty<T>(ways: seq<Block<T>>)
    requires forall i :: 0 <= i < |ways| ==> !InUse(ways[i])
    ensures Recent(ways) == []
  {
    if ways != [] {
      RecentEmpty(ways[1..]);
    }
  }

  // ---------------------------------------------------------------- the table

  lemma SpanFits(sets: nat, ways: nat, i: nat)
    requires i < sets
    ensures 0 <= i * ways <= (i + 1) * ways == i * ways + ways <= sets * ways
  {
  }

  lemma SpansApart(ways: nat, i: nat, j: nat)
    requires i != j
    ensures (i + 1) * ways <= j * ways || (j + 1) * ways <= i * ways
  {
    if i < j {
      assert (i + 1) * ways <= j * ways;
    } else {
      assert (j + 1) * ways <= i * ways;
    }
  }

  class Table<T> {
    const sets: Pos
    const ways: Pos
    const setOf: T -> nat
    const tagOf: T -> int
    const blank: T
    const block: array<Block<T>>
    var accessCount: nat

    function SetIndex(elem: T): (i: nat)
      ensures i < sets
    {
      setOf(elem) % Pow2(Lg2(sets))
    }

    ghost function SetAt(i: nat): (s: seq<Block<T>>)
      requires i < sets && block.Length == sets * ways
      reads block
      ensures |s| == ways
    {
      SpanFits(sets, ways, i);
      block[i * ways..i * ways + ways]
    }

    /** Valid tags of a set are distinct, and so are their uses. */
    ghost predicate Valid()
      reads this, block
    {
      && block.Length == sets * ways
      && forall i :: 0 <= i < sets ==> SetInv(SetAt(i), tagOf, accessCount)
    }

    /** The recency list of a set. */
    ghost function Recency(i: nat): seq<Block<T>>
      requires i < sets && block.Length == sets * ways
      reads block
    {
      Recent(SetAt(i))
    }

    constructor (sets: Pos, ways: Pos, setOf: T -> nat, tagOf: T -> int, blank: T)
      ensures Valid() && this.sets == sets && this.ways == ways && this.setOf == setOf && this.tagOf == tagOf
      ensures forall i :: 0 <= i < sets ==> Recency(i) == []
    {
      this.sets, this.ways, this.setOf, this.tagOf, this.blank := sets, ways, setOf, tagOf, blank;
      block := new Block<T>[sets * ways](_ => Block(0, blank));
      accessCount := 0;
      new;
      EmptyTable();
    }

    lemma EmptyTable()
      requires block.Length == sets * ways && forall k :: 0 <= k < block.Length ==> block[k].lastUsed == 0
      ensures Valid() && forall i :: 0 <= i < sets ==> Recency(i) == []
    {
      forall i | 0 <= i < sets ensures SetInv(SetAt(i), tagOf, accessCount) && Recency(i) == [] {
        SpanFits(sets, ways, i);
        RecentEmpty(SetAt(i));
      }
    }

    /** The first valid block of the set with the same tag, by `std::find_if`. */
    method FindMatch(i: nat, tag: int) returns (k: nat)
      requires i < sets && block.Length == sets * ways
      ensures FirstMatch(SetAt(i), k, tagOf, tag)
    {
      SpanFits(sets, ways, i);
      ghost var s := SetAt(i);
      k := 0;
      while k < ways && !(InUse(block[i * ways + k]) && tagOf(block[i * ways + k].data) == tag)
        invariant k <= ways
        invariant forall j :: 0 <= j < k ==> !(InUse(s[j]) && tagOf(s[j].data) == tag)
      {
        assert block[i * ways + k] == s[k];
        k := k + 1;
      }
      assert k < ways ==> block[i * ways + k] == s[k];
    }

    method Store(i: nat, k: nat, b: Block<T>)
      requires i < sets && k < ways && block.Length == sets * ways
      modifies block
      ensures SetAt(i) == old(SetAt(i))[k := b]
      ensures forall j :: 0 <= j < sets && j != i ==> SetAt(j) == old(SetAt(j))
    {
      SpanFits(sets, ways, i);
      block[i * ways + k] := b;
      forall j | 0 <= j < sets && j != i ensures SetAt(j) == old(SetAt(j)) {
        SpanFits(sets, ways, j);
        SpansApart(ways, i, j);
      }
    }

    lemma LaterStill()
      requires Valid()
      ensures forall j :: 0 <= j < sets ==> SetInv(SetAt(j), tagOf, accessCount + 1)
    {
    }

    /** A use: the clock advances and stamps the block. */
    method Use(i: nat, k: nat, data: T)
      requires Valid() && i < sets && k < ways
      requires SetInv(SetAt(i)[k := Block(accessCount + 1, data)], tagOf, accessCount + 1)
      modifies this`accessCount, block
      ensures Valid() && accessCount == old(accessCount) + 1
      ensures SetAt(i) == old(SetAt(i))[k := Block(accessCount, data)]
      ensures forall j :: 0 <= j < sets && j != i ==> SetAt(j) == old(SetAt(j))
    {
      hide SetInv;
      LaterStill();
      accessCount := accessCount + 1;
      Store(i, k, Block(accessCount, data));
    }

    /** A hit is a use: the block leads its set's recency list. */
    method CheckHit(elem: T) returns (r: Option<T>)
      requires Valid()
      modifies this`accessCount, block
      ensures Valid()
      ensures var i, t, l := SetIndex(elem), tagOf(elem), old(Recency(SetIndex(elem)));
              && Answers(l, r, tagOf, t)
              && Recency(i) == if r.Some? then [Block(accessCount, r.value)] + WithoutTag(l, tagOf, t) else l
      ensures forall j :: 0 <= j < sets && j != SetIndex(elem) ==> Recency(j) == old(Recency(j))
    {
      hide SetInv;
      hide Recent;
      hide WithoutTag;
      hide Answers;
      var i := SetIndex(elem);
      var k := FindMatch(i, tagOf(elem));
      ghost var s := SetAt(i);
      MatchAnswers(s, k, tagOf, tagOf(elem));
      if k == ways {
        return None;
      }
      SpanFits(sets, ways, i);
      var data := block[i * ways + k].data;
      assert s[k].data == data;
      StoreMatch(s, k, data, tagOf, accessCount);
      Use(i, k, data);
      return Some(data);
    }

    /** Update in place, or evict exactly the least recently used block of a full set. */
    method FillElement(elem: T)
      requires Valid()
      modifies this`accessCount, block
      ensures Valid()
      ensures var i := SetIndex(elem);
              Recency(i) == Filled(old(Recency(i)), Block(accessCount, elem), tagOf, ways)
      ensures forall j :: 0 <= j < sets && j != SetIndex(elem) ==> Recency(j) == old(Recency(j))
    {
      hide Recent;
      hide Filled;
      hide IsMiss;
      hide IsHit;
      var tag := tagOf(elem);
      var i := SetIndex(elem);
      SpanFits(sets, ways, i);
      ghost var s := SetAt(i);
      var miss, hit := MinMax(block[i * ways..i * ways + ways], tagOf, tag);
      FillRefines(s, miss, hit, elem, tagOf, accessCount);
      assert miss < ways && hit < ways by {
        PickedInside(s, miss, hit, tagOf, tag);
      }
      hide SetInv;
      assert block[i * ways + hit] == s[hit];
      if tagOf(block[i * ways + hit].data) == tag {
        Use(i, hit, elem);
      } else {
        Use(i, miss, elem);
      }
    }

    /** The block of this tag leaves the list. */
    method Invalidate(elem: T) returns (r: Option<T>)
      requires Valid()
      modifies block
      ensures Valid()
      ensures var i, t, l := SetIndex(elem), tagOf(elem), old(Recency(SetIndex(elem)));
              Answers(l, r, tagOf, t) && Recency(i) == WithoutTag(l, tagOf, t)
      ensures forall j :: 0 <= j < sets && j != SetIndex(elem) ==> Recency(j) == old(Recency(j))
    {
      var i := SetIndex(elem);
      var k := FindMatch(i, tagOf(elem));
      ghost var s := SetAt(i);
      MatchAnswers(s, k, tagOf, tagOf(elem));
      if k == ways {
        WithoutAbsent(Recent(s), tagOf, tagOf(elem));
        return None;
      }
      SpanFits(sets, ways, i);
      var data := block[i * ways + k].data;
      assert s[k].data == data;
      InvalidateRefines(s, k, Block(0, blank), tagOf, accessCount);
      Store(i, k, Block(0, blank));
      return Some(data);
    }
  }
}
