/** The set-associative cache of custom_util.h: ways and their lookup maps, with LRU and SRRIP replacement. */
module SetAssociative {
  import opened Bits
  import opened Wrappers
  import LruTable

  datatype Entry<+T> = Entry(key: nat, index: nat, tag: nat, valid: bool, data: T)

  /** One set: its ways, and the map from tags to ways. */
  datatype Set<+T> = Set(ways: seq<Entry<T>>, cam: map<nat, nat>)

  // ---------------------------------------------------------------- indexing

  function IndexOf(sets: Pos, key: nat): nat { key % Pow2(BitLength(sets - 1)) }

  function TagOf(sets: Pos, key: nat): int { key / Pow2(BitLength(sets - 1)) }

  /** The masks of `find` and the remainders of `get_lru` agree exactly for power-of-two set counts. */
  lemma IndexingCoincides(sets: Pos)
    ensures IsPow2(sets) <==>
            forall key: nat :: IndexOf(sets, key) == key % sets && TagOf(sets, key) == key / sets
  {
    IndexWidth(sets);
    var n := Pow2(BitLength(sets - 1));
    if n != sets {
      DivUnique(sets, sets, 1, 0);
      assert IndexOf(sets, sets) == sets % n;
      if sets < n {
        DivUnique(sets, n, 0, sets);
      }
    }
  }

  // ---------------------------------------------------------------- agreement

  /** A tag maps to a way exactly when this way is valid with that tag. */
  ghost predicate Agrees<T>(s: Set<T>) {
    && (forall t :: t in s.cam ==> s.cam[t] < |s.ways| && s.ways[s.cam[t]].valid && s.ways[s.cam[t]].tag == t)
    && forall w :: 0 <= w < |s.ways| && s.ways[w].valid ==> s.ways[w].tag in s.cam && s.cam[s.ways[w].tag] == w
  }

  /** What a set stores. */
  ghost function Contents<T>(s: Set<T>): map<nat, T>
    requires Agrees(s)
  {
    map t | t in s.cam :: s.ways[s.cam[t]].data
  }

  function Find<T>(s: Set<T>, tag: nat): Option<nat>
    requires tag in s.cam ==> s.cam[tag] < |s.ways|
  {
    if tag in s.cam && s.ways[s.cam[tag]].valid then Some(s.cam[tag]) else None
  }

  function FirstFree<T>(ways: seq<Entry<T>>): (k: nat)
    ensures k <= |ways|
    ensures k < |ways| ==> !ways[k].valid
    ensures forall j :: 0 <= j < k ==> ways[j].valid
  {
    if ways == [] || !ways[0].valid then 0 else 1 + FirstFree(ways[1..])
  }

  /** A free way if there is one, else the victim. */
  function Target<T>(ways: seq<Entry<T>>, victim: nat): (w: nat)
    requires victim < |ways|
    ensures w < |ways|
  {
    if FirstFree(ways) < |ways| then FirstFree(ways) else victim
  }

  function Replaced<T>(s: Set<T>, w: nat, e: Entry<T>): Set<T>
    requires w < |s.ways|
  {
    var replaced := s.ways[w];
    Set(s.ways[w := e], (if replaced.valid then s.cam - {replaced.tag} else s.cam)[e.tag := w])
  }

  /** `insert`: update in place, or take a free way or the victim. */
  function Insert<T>(s: Set<T>, e: Entry<T>, victim: nat): Set<T>
    requires victim < |s.ways| && (e.tag in s.cam ==> s.cam[e.tag] < |s.ways|)
  {
    match Find(s, e.tag)
    case Some(w) => s.(ways := s.ways[w := s.ways[w].(data := e.data)])
    case None => Replaced(s, Target(s.ways, victim), e)
  }

  function Erase<T>(s: Set<T>, tag: nat): Set<T>
    requires tag in s.cam ==> s.cam[tag] < |s.ways|
  {
    match Find(s, tag)
    case Some(w) => Set(s.ways[w := s.ways[w].(valid := false)], s.cam - {tag})
    case None => s.(cam := s.cam - {tag})
  }

  lemma ReplacedAgrees<T>(s: Set<T>, w: nat, e: Entry<T>)
    requires Agrees(s) && w < |s.ways| && e.valid && e.tag !in s.cam
    ensures Agrees(Replaced(s, w, e))
    ensures Contents(Replaced(s, w, e)) ==
            (if s.ways[w].valid then Contents(s) - {s.ways[w].tag} else Contents(s))[e.tag := e.data]
  {
  }

  /** Inserting keeps the agreement and stores exactly this, giving up at most the victim of a full set. */
  lemma InsertStores<T>(s: Set<T>, e: Entry<T>, victim: nat)
    requires Agrees(s) && victim < |s.ways| && e.valid
    ensures var r := Insert(s, e, victim);
            && Agrees(r)
            && Contents(r) ==
               (if e.tag in Contents(s) || (exists w :: 0 <= w < |s.ways| && !s.ways[w].valid) then Contents(s)
                else Contents(s) - {s.ways[victim].tag})[e.tag := e.data]
  {
    match Find(s, e.tag) {
      case Some(w) =>
        assert forall t :: t in s.cam ==> (s.cam[t] == w <==> t == e.tag);
      case None => ReplacedAgrees(s, Target(s.ways, victim), e);
    }
  }

  /** What was inserted is stored under its tag. */
  lemma InsertedIsFound<T>(s: Set<T>, e: Entry<T>, victim: nat)
    requires Agrees(s) && victim < |s.ways| && e.valid
    ensures var r := Insert(s, e, victim);
            Agrees(r) && e.tag in Contents(r) && Contents(r)[e.tag] == e.data
  {
    InsertStores(s, e, victim);
    hide Agrees;
    hide Insert;
    hide Contents;
  }

  lemma EraseRemoves<T>(s: Set<T>, tag: nat)
    requires Agrees(s)
    ensures Agrees(Erase(s, tag)) && Contents(Erase(s, tag)) == Contents(s) - {tag}
  {
  }

  lemma FindFinds<T>(s: Set<T>, tag: nat)
    requires Agrees(s)
    ensures Find(s, tag).Some? <==> tag in Contents(s)
    ensures Find(s, tag).Some? ==> var w := Find(s, tag).value; w < |s.ways| && s.ways[w].data == Contents(s)[tag]
  {
  }

  /** `cams[index][tag]` in `get_lru` adds a mapping to way 0: promotion is safe exactly for present keys. */
  function Promoted<T>(s: Set<T>, tag: nat): Set<T> { if tag in s.cam then s else s.(cam := s.cam[tag := 0]) }

  lemma PromotionNeedsPresence<T>(s: Set<T>, tag: nat)
    requires Agrees(s)
    ensures Agrees(Promoted(s, tag)) <==> tag in Contents(s)
  {
    if tag !in s.cam {
      var p := Promoted(s, tag);
      assert tag in p.cam && p.cam[tag] == 0;
      assert forall w :: 0 <= w < |p.ways| ==> !(p.ways[w].valid && p.ways[w].tag == tag);
    }
  }

  // ---------------------------------------------------------------- least recently used

  /** `std::min_element` over the stamps of a set. */
  function Oldest(lru: seq<nat>, n: nat): (k: nat)
    requires 0 < n <= |lru|
    ensures k < n && forall i :: 0 <= i < n ==> lru[k] <= lru[i]
  {
    if n == 1 then 0
    else
      var k := Oldest(lru, n - 1);
      if lru[n - 1] < lru[k] then n - 1 else k
  }

  function EntryTag<T>(): Entry<T> -> int { (e: Entry<T>) => e.tag }

  /** The ways as the blocks of an LRU table: an invalid way was never used. */
  function Blocks<T>(s: Set<T>, lru: seq<nat>): (b: seq<LruTable.Block<Entry<T>>>)
    requires |lru| == |s.ways|
    ensures |b| == |s.ways|
    ensures forall w :: 0 <= w < |b| ==> b[w] == LruTable.Block(if s.ways[w].valid then lru[w] else 0, s.ways[w])
  {
    seq(|s.ways|, w requires 0 <= w < |s.ways| => LruTable.Block(if s.ways[w].valid then lru[w] else 0, s.ways[w]))
  }

  ghost predicate LruInv<T>(s: Set<T>, lru: seq<nat>, t: nat) {
    && |lru| == |s.ways| > 0 && Agrees(s)
    && (forall w :: 0 <= w < |lru| && s.ways[w].valid ==> 0 < lru[w] < t)
    && forall v, w :: 0 <= v < w < |lru| && s.ways[v].valid && s.ways[w].valid ==> lru[v] != lru[w]
  }

  /** The entries of a set, most recently used first. */
  ghost function Recency<T>(s: Set<T>, lru: seq<nat>): seq<LruTable.Block<Entry<T>>>
    requires |lru| == |s.ways|
  {
    LruTable.Recent(Blocks(s, lru))
  }

  lemma BlocksInv<T>(s: Set<T>, lru: seq<nat>, t: nat)
    requires LruInv(s, lru, t) && t > 0
    ensures LruTable.SetInv(Blocks(s, lru), EntryTag(), t - 1)
  {
  }

  /** Entries of one set with the same tag have the same key. */
  ghost predicate SameKey<T>(s: Set<T>, e: Entry<T>) {
    forall w :: 0 <= w < |s.ways| && s.ways[w].valid && s.ways[w].tag == e.tag ==>
      s.ways[w].key == e.key && s.ways[w].index == e.index
  }

  /** `insert` followed by `set_mru`. */
  function InsertedWay<T>(s: Set<T>, e: Entry<T>, lru: seq<nat>): (w: nat)
    requires |lru| == |s.ways| > 0 && (e.tag in s.cam ==> s.cam[e.tag] < |s.ways|)
    ensures w < |s.ways|
  {
    match Find(s, e.tag)
    case Some(w) => w
    case None => Target(s.ways, Oldest(lru, |lru|))
  }

  lemma InsertBlocks<T>(s: Set<T>, e: Entry<T>, lru: seq<nat>, t: nat)
    requires LruInv(s, lru, t) && e.valid && SameKey(s, e)
    ensures var w := InsertedWay(s, e, lru);
            var r := Insert(s, e, Oldest(lru, |lru|));
            && |r.ways| == |s.ways| && r.ways[w] == e && e.tag in r.cam && r.cam[e.tag] == w
            && Blocks(r, lru[w := t]) == Blocks(s, lru)[w := LruTable.Block(t, e)]
  {
  }

  lemma InsertElsewhere<T>(s: Set<T>, e: Entry<T>, lru: seq<nat>)
    requires |lru| == |s.ways| > 0 && Agrees(s)
    ensures var r := Insert(s, e, Oldest(lru, |lru|));
            && |r.ways| == |s.ways|
            && forall i :: 0 <= i < |s.ways| && i != InsertedWay(s, e, lru) ==> r.ways[i] == s.ways[i]
  {
  }

  lemma StampOne<T>(s: Set<T>, r: Set<T>, w: nat, lru: seq<nat>, t: nat)
    requires LruInv(s, lru, t) && t > 0 && w < |s.ways| && |r.ways| == |s.ways| && Agrees(r)
    requires forall i :: 0 <= i < |s.ways| && i != w ==> r.ways[i] == s.ways[i]
    ensures LruInv(r, lru[w := t], t + 1)
  {
    hide Agrees;
  }

  lemma InsertLru<T>(s: Set<T>, e: Entry<T>, lru: seq<nat>, t: nat)
    requires LruInv(s, lru, t) && t > 0 && e.valid
    ensures var r := Insert(s, e, Oldest(lru, |lru|));
            |r.ways| == |s.ways| && LruInv(r, lru[InsertedWay(s, e, lru) := t], t + 1)
  {
    InsertStores(s, e, Oldest(lru, |lru|));
    InsertElsewhere(s, e, lru);
    hide Insert;
    hide InsertedWay;
    StampOne(s, Insert(s, e, Oldest(lru, |lru|)), InsertedWay(s, e, lru), lru, t);
  }

  /** Whichever way an insertion takes suits an LRU fill: the match, a free way, or the oldest of a full set. */
  lemma InsertedWaySuits<T>(s: Set<T>, e: Entry<T>, lru: seq<nat>, t: nat)
    requires LruInv(s, lru, t)
    ensures var w := InsertedWay(s, e, lru);
            var b := Blocks(s, lru);
            if e.tag in s.cam then LruTable.InUse(b[w]) && b[w].data.tag == e.tag
            else
              && (forall i :: 0 <= i < |b| && LruTable.InUse(b[i]) ==> b[i].data.tag != e.tag)
              && (!LruTable.InUse(b[w]) ||
                  forall i :: 0 <= i < |b| ==> LruTable.InUse(b[i]) && b[w].lastUsed <= b[i].lastUsed)
  {
  }

  /** `insert` followed by `set_mru` is a fill of the set's recency list. */
  lemma InsertMru<T>(s: Set<T>, e: Entry<T>, lru: seq<nat>, t: nat)
    requires LruInv(s, lru, t) && t > 0 && e.valid && SameKey(s, e)
    ensures var w := InsertedWay(s, e, lru);
            var r := Insert(s, e, Oldest(lru, |lru|));
            && |r.ways| == |s.ways| && LruInv(r, lru[w := t], t + 1)
            && Recency(r, lru[w := t]) ==
               LruTable.Filled(Recency(s, lru), LruTable.Block(t, e), EntryTag(), |s.ways|)
  {
    var w := InsertedWay(s, e, lru);
    var b := Blocks(s, lru);
    InsertLru(s, e, lru, t);
    InsertBlocks(s, e, lru, t);
    InsertedWaySuits(s, e, lru, t);
    BlocksInv(s, lru, t);
    hide *;
    hide LruTable.SetInv;
    hide LruTable.Recent;
    hide LruTable.Filled;
    StoreInBlocks(b, w, e, e.tag in s.cam, t);
    assert |b| == |s.ways|;
    RecencyIs(s, lru);
    RecencyIs(Insert(s, e, Oldest(lru, |lru|)), lru[w := t]);
  }

  lemma RecencyIs<T>(s: Set<T>, lru: seq<nat>)
    requires |lru| == |s.ways|
    ensures Recency(s, lru) == LruTable.Recent(Blocks(s, lru))
  {
  }

  lemma StoreInBlocks<T>(b: seq<LruTable.Block<Entry<T>>>, w: nat, e: Entry<T>, known: bool, t: nat)
    requires w < |b| && t > 0 && LruTable.SetInv(b, EntryTag(), t - 1)
    requires known ==> LruTable.InUse(b[w]) && b[w].data.tag == e.tag
    requires !known ==>
               && (forall i :: 0 <= i < |b| && LruTable.InUse(b[i]) ==> b[i].data.tag != e.tag)
               && (!LruTable.InUse(b[w]) ||
                   forall i :: 0 <= i < |b| ==> LruTable.InUse(b[i]) && b[w].lastUsed <= b[i].lastUsed)
    ensures LruTable.Recent(b[w := LruTable.Block(t, e)])
         == LruTable.Filled(LruTable.Recent(b), LruTable.Block(t, e), EntryTag(), |b|)
  {
    if known {
      LruTable.StoreMatch(b, w, e, EntryTag(), t - 1);
    } else {
      LruTable.StoreNew(b, w, e, EntryTag(), t - 1);
    }
  }

  lemma PromoteBlocks<T>(s: Set<T>, w: nat, lru: seq<nat>, t: nat)
    requires LruInv(s, lru, t) && w < |s.ways| && s.ways[w].valid
    ensures LruInv(s, lru[w := t], t + 1)
    ensures Blocks(s, lru[w := t]) == Blocks(s, lru)[w := LruTable.Block(t, s.ways[w])]
  {
  }

  /** `find` followed by `set_mru`: the entry leads the list. */
  lemma PromoteMru<T>(s: Set<T>, tag: nat, lru: seq<nat>, t: nat)
    requires LruInv(s, lru, t) && t > 0 && tag in s.cam
    ensures var w := s.cam[tag];
            && w < |s.ways| && LruInv(s, lru[w := t], t + 1)
            && Recency(s, lru[w := t]) ==
               [LruTable.Block(t, s.ways[w])] + LruTable.WithoutTag(Recency(s, lru), EntryTag(), tag)
  {
    var w := s.cam[tag];
    BlocksInv(s, lru, t);
    PromoteBlocks(s, w, lru, t);
    assert s.ways[w].valid && s.ways[w].tag == tag && lru[w] > 0;
    hide LruInv, LruTable.Recent, LruTable.WithoutTag, LruTable.SetInv;
    LruTable.StoreMatch(Blocks(s, lru), w, s.ways[w], EntryTag(), t - 1);
  }

  lemma EraseLru<T>(s: Set<T>, tag: nat, lru: seq<nat>, t: nat)
    requires LruInv(s, lru, t)
    ensures var r := Erase(s, tag); |r.ways| == |s.ways| && LruInv(r, lru, t)
  {
    EraseRemoves(s, tag);
    hide Agrees;
  }

  lemma EraseBlocks<T>(s: Set<T>, tag: nat, lru: seq<nat>, t: nat)
    requires LruInv(s, lru, t) && tag in s.cam
    ensures var w := s.cam[tag];
            var r := Erase(s, tag);
            w < |r.ways| == |s.ways| && Blocks(r, lru) == Blocks(s, lru)[w := LruTable.Block(0, r.ways[w])]
  {
  }

  lemma AbsentFromRecency<T>(s: Set<T>, tag: nat, lru: seq<nat>, t: nat)
    requires LruInv(s, lru, t) && tag !in s.cam
    ensures LruTable.WithoutTag(Recency(s, lru), EntryTag(), tag) == Recency(s, lru)
  {
    var b := Blocks(s, lru);
    forall x | x in LruTable.Recent(b) ensures x.data.tag != tag {
      LruTable.RecentMember(b, x);
    }
    LruTable.WithoutAbsent(LruTable.Recent(b), EntryTag(), tag);
  }

  /** `erase`: the entry leaves the list. */
  lemma EraseRecency<T>(s: Set<T>, tag: nat, lru: seq<nat>, t: nat)
    requires LruInv(s, lru, t) && t > 0
    ensures var r := Erase(s, tag);
            && |r.ways| == |s.ways| && LruInv(r, lru, t)
            && Recency(r, lru) == LruTable.WithoutTag(Recency(s, lru), EntryTag(), tag)
  {
    EraseLru(s, tag, lru, t);
    var r := Erase(s, tag);
    if tag in s.cam {
      var w := s.cam[tag];
      BlocksInv(s, lru, t);
      EraseBlocks(s, tag, lru, t);
      assert s.ways[w].valid && s.ways[w].tag == tag && lru[w] > 0;
      hide LruInv;
      hide Erase;
      LruTable.InvalidateRefines(Blocks(s, lru), w, LruTable.Block(0, r.ways[w]), EntryTag(), t - 1);
    } else {
      AbsentFromRecency(s, tag, lru, t);
      assert r.cam == s.cam;
    }
  }
}
