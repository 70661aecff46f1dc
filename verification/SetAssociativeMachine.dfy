/** The set-associative caches as the simulator runs them, with LRU stamps, and the SRRIP victim search. */
module SetAssociativeMachine {
  import opened Bits
  import opened SetAssociative
  import opened Wrappers
  import LruTable

  // ---------------------------------------------------------------- SRRIP

  function Largest(s: seq<nat>): (m: nat)
    requires |s| > 0
    ensures m in s && forall i :: 0 <= i < |s| ==> s[i] <= m
  {
    if |s| == 1 then s[0]
    else
      var m := Largest(s[1..]);
      assert s == [s[0]] + s[1..];
      if s[0] > m then s[0] else m
  }

  /** How far a set ages before its largest value reaches the maximum. */
  function Shift(s: seq<nat>, maxRrpv: nat): nat
    requires |s| > 0
  {
    if Largest(s) >= maxRrpv then 0 else maxRrpv - Largest(s)
  }

  /** `aging`: one saturating step for every way. */
  method Age(rrpv: array<nat>, maxRrpv: nat)
    modifies rrpv
    ensures forall i :: 0 <= i < rrpv.Length ==>
              rrpv[i] == if old(rrpv[i]) >= maxRrpv then old(rrpv[i]) else old(rrpv[i]) + 1
  {
    for i := 0 to rrpv.Length
      invariant forall j :: 0 <= j < i ==> rrpv[j] == if old(rrpv[j]) >= maxRrpv then old(rrpv[j]) else old(rrpv[j]) + 1
      invariant forall j :: i <= j < rrpv.Length ==> rrpv[j] == old(rrpv[j])
    {
      if rrpv[i] < maxRrpv {
        rrpv[i] := rrpv[i] + 1;
      }
    }
  }

  /**
   * The search ends. It ages every way by the same amount, the least that brings some way to the maximum,
   * and picks the first way that gets there: the first one that held the largest value.
   */
  method SelectSrripVictim(rrpv: array<nat>, maxRrpv: nat) returns (victim: nat)
    requires rrpv.Length > 0
    modifies rrpv
    ensures victim < rrpv.Length
    ensures var was := old(rrpv[..]);
            && (forall i :: 0 <= i < |was| ==> rrpv[i] == was[i] + Shift(was, maxRrpv))
            && (Largest(was) <= maxRrpv ==>
                  && was[victim] == Largest(was)
                  && (forall j :: 0 <= j < victim ==> was[j] < Largest(was))
                  && forall i :: 0 <= i < |was| ==> rrpv[i] <= maxRrpv)
  {
    ghost var was := rrpv[..];
    ghost var n := 0;
    while true
      invariant 0 <= n <= Shift(was, maxRrpv)
      invariant forall i :: 0 <= i < |was| ==> rrpv[i] == was[i] + n
      decreases Shift(was, maxRrpv) - n
    {
      for i := 0 to rrpv.Length
        invariant forall j :: 0 <= j < i ==> rrpv[j] < maxRrpv
      {
        if rrpv[i] >= maxRrpv {
          assert was[i] <= Largest(was);
          return i;
        }
      }
      assert exists i :: 0 <= i < |was| && was[i] == Largest(was);
      Age(rrpv, maxRrpv);
      n := n + 1;
    }
  }

  // ---------------------------------------------------------------- LRU

  method SearchFree<T>(ways: seq<Entry<T>>) returns (k: nat)
    ensures k == FirstFree(ways)
  {
    k := 0;
    while k < |ways| && ways[k].valid
      invariant k <= |ways|
      invariant FirstFree(ways) == k + FirstFree(ways[k..])
    {
      assert ways[k..][1..] == ways[k + 1..];
      k := k + 1;
    }
  }

  method SearchOldest(lru: seq<nat>) returns (k: nat)
    requires |lru| > 0
    ensures k == Oldest(lru, |lru|)
  {
    k := 0;
    var i := 1;
    while i < |lru|
      invariant k < i <= |lru| && k == Oldest(lru, i)
    {
      if lru[i] < lru[k] {
        k := i;
      }
      i := i + 1;
    }
  }

  lemma KeySplits(key: nat, sets: Pos)
    ensures 0 <= key % sets < sets && 0 <= key / sets && key == key / sets * sets + key % sets
  {
  }

  lemma LruInvLater<T>(s: Set<T>, lru: seq<nat>, t: nat)
    requires LruInv(s, lru, t)
    ensures LruInv(s, lru, t + 1)
  {
    hide Agrees;
  }

  /** A set with its stamps, whose entries belong to set `i` of `sets`. */
  ghost predicate SetValid<T>(s: Set<T>, lru: seq<nat>, t: nat, i: nat, ways: nat, sets: nat) {
    && |s.ways| == ways && LruInv(s, lru, t)
    && forall w :: 0 <= w < |s.ways| && s.ways[w].valid ==>
         s.ways[w].index == i && s.ways[w].key == s.ways[w].tag * sets + i
  }

  lemma InsertKeys<T>(s: Set<T>, r: Set<T>, w: nat, e: Entry<T>, i: nat, sets: nat)
    requires w < |s.ways| == |r.ways| && r.ways[w] == e && e.index == i && e.key == e.tag * sets + i
    requires forall v :: 0 <= v < |s.ways| && v != w ==> r.ways[v] == s.ways[v]
    requires forall v :: 0 <= v < |s.ways| && s.ways[v].valid ==>
               s.ways[v].index == i && s.ways[v].key == s.ways[v].tag * sets + i
    ensures forall v :: 0 <= v < |r.ways| && r.ways[v].valid ==>
              r.ways[v].index == i && r.ways[v].key == r.ways[v].tag * sets + i
  {
  }

  lemma InsertValid<T>(s: Set<T>, e: Entry<T>, lru: seq<nat>, t: nat, i: nat, ways: nat, sets: nat)
    requires SetValid(s, lru, t, i, ways, sets) && t > 0
    requires e.valid && e.index == i && e.key == e.tag * sets + i
    ensures SameKey(s, e)
    ensures SetValid(Insert(s, e, Oldest(lru, |lru|)), lru[InsertedWay(s, e, lru) := t], t + 1, i, ways, sets)
  {
    KeyedSame(s, e, i, sets);
    InsertLru(s, e, lru, t);
    InsertElsewhere(s, e, lru);
    InsertBlocks(s, e, lru, t);
    hide Insert;
    hide InsertedWay;
    hide LruInv;
    hide SameKey;
    hide Blocks;
    InsertKeys(s, Insert(s, e, Oldest(lru, |lru|)), InsertedWay(s, e, lru), e, i, sets);
  }

  lemma KeyedSame<T>(s: Set<T>, e: Entry<T>, i: nat, sets: nat)
    requires forall v :: 0 <= v < |s.ways| && s.ways[v].valid ==>
               s.ways[v].index == i && s.ways[v].key == s.ways[v].tag * sets + i
    requires e.index == i && e.key == e.tag * sets + i
    ensures SameKey(s, e)
  {
  }

  /** Everything an insertion does to its set. */
  lemma InsertOutcome<T>(s: Set<T>, e: Entry<T>, lru: seq<nat>, t: nat, i: nat, ways: nat, sets: nat)
    requires SetValid(s, lru, t, i, ways, sets) && t > 0
    requires e.valid && e.index == i && e.key == e.tag * sets + i
    ensures |lru| == |s.ways| > 0 && Agrees(s)
    ensures var w, r := InsertedWay(s, e, lru), Insert(s, e, Oldest(lru, |lru|));
            && w < ways && SetValid(r, lru[w := t], t + 1, i, ways, sets) && Agrees(r)
            && Contents(r) ==
               (if e.tag in s.cam || (exists v :: 0 <= v < |s.ways| && !s.ways[v].valid) then Contents(s)
                else Contents(s) - {s.ways[w].tag})[e.tag := e.data]
            && Recency(r, lru[w := t]) ==
               LruTable.Filled(Recency(s, lru), LruTable.Block(t, e), EntryTag(), ways)
  {
    InsertValid(s, e, lru, t, i, ways, sets);
    InsertMru(s, e, lru, t);
    InsertStores(s, e, Oldest(lru, |lru|));
  }

  lemma PromoteValid<T>(s: Set<T>, tag: nat, lru: seq<nat>, t: nat, i: nat, ways: nat, sets: nat)
    requires SetValid(s, lru, t, i, ways, sets) && t > 0 && tag in s.cam
    ensures s.cam[tag] < |s.ways| && SetValid(s, lru[s.cam[tag] := t], t + 1, i, ways, sets)
  {
    PromoteMru(s, tag, lru, t);
  }

  lemma EraseValid<T>(s: Set<T>, tag: nat, lru: seq<nat>, t: nat, i: nat, ways: nat, sets: nat)
    requires SetValid(s, lru, t, i, ways, sets)
    ensures SetValid(Erase(s, tag), lru, t, i, ways, sets)
  {
    EraseLru(s, tag, lru, t);
    hide LruInv;
    assert forall w :: 0 <= w < |s.ways| && Erase(s, tag).ways[w].valid ==> Erase(s, tag).ways[w] == s.ways[w];
  }

  /** The in-place part of `insert`: update, free way, or evict the oldest and forget its tag. */
  method StoreIn<T>(s: Set<T>, e: Entry<T>, lru: seq<nat>) returns (way: nat, oldEntry: Entry<T>, next: Set<T>)
    requires |lru| == |s.ways| > 0 && Agrees(s) && e.valid
    ensures way == InsertedWay(s, e, lru) && oldEntry == s.ways[way] && next == Insert(s, e, Oldest(lru, |lru|))
  {
    var row, cam := s.ways, s.cam;
    if e.tag in cam && row[cam[e.tag]].valid {
      way := cam[e.tag];
      oldEntry := row[way];
      row := row[way := oldEntry.(data := e.data)];
    } else {
      way := SearchFree(row);
      if way == |row| {
        way := SearchOldest(lru);
      }
      oldEntry := row[way];
      row := row[way := e];
      if oldEntry.valid {
        cam := cam - {oldEntry.tag};
      }
      cam := cam[e.tag := way];
    }
    next := Set(row, cam);
  }

  function Stamped(stamps: seq<nat>, way: nat, t: nat): seq<nat>
    requires way < |stamps|
  {
    stamps[way := t]
  }

  lemma ReplaceValid<T>(entries: seq<seq<Entry<T>>>, cams: seq<map<nat, nat>>, lru: seq<seq<nat>>, t: nat,
                        ways: nat, sets: nat, i: nat, next: Set<T>, stamps: seq<nat>)
    requires |entries| == |cams| == |lru| == sets && i < sets && SetValid(next, stamps, t, i, ways, sets)
    requires forall j :: 0 <= j < sets && j != i ==> SetValid(Set(entries[j], cams[j]), lru[j], t, j, ways, sets)
    ensures var es, cs, ls := entries[i := next.ways], cams[i := next.cam], lru[i := stamps];
            forall j :: 0 <= j < sets ==> SetValid(Set(es[j], cs[j]), ls[j], t, j, ways, sets)
  {
    hide SetValid;
    assert Set(next.ways, next.cam) == next;
  }

  class LruCache<T> {
    const sets: Pos
    const ways: Pos
    var entries: seq<seq<Entry<T>>>
    var cams: seq<map<nat, nat>>
    var lru: seq<seq<nat>>
    var t: nat

    function SetAt(i: nat): Set<T>
      requires i < |entries| && i < |cams|
      reads this
    {
      Set(entries[i], cams[i])
    }

    /** Power-of-two sets, in each of which ways and map agree and stamps are distinct and past. */
    ghost predicate Valid()
      reads this
    {
      && IsPow2(sets) && t > 0
      && |entries| == sets && |cams| == sets && |lru| == sets
      && forall i :: 0 <= i < sets ==> SetValid(SetAt(i), lru[i], t, i, ways, sets)
    }

    constructor (sets: Pos, ways: Pos, blank: T)
      requires IsPow2(sets)
      ensures Valid() && this.sets == sets && this.ways == ways
      ensures forall i :: 0 <= i < sets ==> cams[i] == map[]
    {
      this.sets, this.ways := sets, ways;
      entries := seq(sets, _ => seq(ways, _ => Entry(0, 0, 0, false, blank)));
      cams := seq(sets, _ => map[]);
      lru := seq(sets, _ => seq(ways, _ => 0));
      t := 1;
    }

    /** `find` and `set_mru`: the entry of a key leads the recency list of its set. */
    method FindAndPromote(key: nat) returns (r: Option<Entry<T>>)
      requires Valid()
      modifies this
      ensures Valid()
      ensures entries == old(entries) && cams == old(cams)
      ensures var i, tag := key % sets, key / sets;
              && i >= 0 && tag >= 0
              && if tag in cams[i] then
                   && SetValid(SetAt(i), lru[i], t, i, ways, sets)
                   && cams[i][tag] < ways && r == Some(entries[i][cams[i][tag]]) && r.value.key == key
                   && Recency(SetAt(i), lru[i]) ==
                      [LruTable.Block(old(t), r.value)]
                      + LruTable.WithoutTag(old(Recency(SetAt(i), lru[i])), EntryTag(), tag)
                 else r == None && lru == old(lru)
      ensures forall j :: 0 <= j < sets && j != key % sets ==> lru[j] == old(lru[j])
    {
      var i, tag := Locate(key);
      assert SetValid(SetAt(i), lru[i], t, i, ways, sets);
      r := None;
      if tag in cams[i] && entries[i][cams[i][tag]].valid {
        var way := cams[i][tag];
        PromoteMru(SetAt(i), tag, lru[i], t);
        PromoteValid(SetAt(i), tag, lru[i], t, i, ways, sets);
        r := Some(entries[i][way]);
        Stamp(i, way);
      }
    }

    /** `*get_lru(key) = t++`. */
    method Stamp(i: nat, way: nat)
      requires Valid() && i < sets && way < ways
      requires SetValid(SetAt(i), lru[i][way := t], t + 1, i, ways, sets)
      modifies `lru, `t
      ensures Valid() && lru == old(lru)[i := Stamped(old(lru)[i], way, old(t))] && t == old(t) + 1
    {
      OthersLater(i);
      hide SetValid;
      hide IsPow2;
      lru := lru[i := Stamped(lru[i], way, t)];
      t := t + 1;
    }

    method Locate(key: nat) returns (i: nat, tag: nat)
      requires IsPow2(sets)
      ensures i == key % sets && tag == key / sets && i < sets && key == tag * sets + i
    {
      IndexingCoincides(sets);
      KeySplits(key, sets);
      i, tag := IndexOf(sets, key), TagOf(sets, key);
    }

    lemma OthersLater(i: nat)
      requires Valid() && i < sets
      ensures forall j :: 0 <= j < sets && j != i ==> SetValid(SetAt(j), lru[j], t + 1, j, ways, sets)
    {
      forall j | 0 <= j < sets && j != i ensures SetValid(SetAt(j), lru[j], t + 1, j, ways, sets) {
        LruInvLater(SetAt(j), lru[j], t);
      }
    }

    method Replace(i: nat, next: Set<T>, way: nat)
      requires Valid() && i < sets && way < ways && |lru[i]| == ways
      requires SetValid(next, Stamped(lru[i], way, t), t + 1, i, ways, sets)
      modifies this
      ensures Valid() && lru == old(lru)[i := Stamped(old(lru)[i], way, old(t))] && t == old(t) + 1
      ensures entries == old(entries)[i := next.ways] && cams == old(cams)[i := next.cam]
    {
      hide SetValid;
      hide Stamped;
      hide IsPow2;
      OthersLater(i);
      var stamps := Stamped(lru[i], way, t);
      ReplaceValid(entries, cams, lru, t + 1, ways, sets, i, next, stamps);
      entries, cams, lru, t := entries[i := next.ways], cams[i := next.cam], lru[i := stamps], t + 1;
    }

    /** `insert` and `set_mru`: a fill of the recency list of its set; the old state of the entry is returned. */
    method InsertAndPromote(key: nat, data: T) returns (oldEntry: Entry<T>)
      requires Valid()
      modifies this
      ensures Valid()
      ensures var i, tag := key % sets, key / sets;
              && i >= 0 && tag >= 0
              && var e := Entry(key, i, tag, true, data);
                 var s, w := old(SetAt(i)), InsertedWay(old(SetAt(i)), e, old(lru[i]));
                 && oldEntry == s.ways[w]
                 && entries == old(entries)[i := SetAt(i).ways] && cams == old(cams)[i := SetAt(i).cam]
                 && Contents(SetAt(i)) ==
                    (if tag in s.cam || (exists v :: 0 <= v < |s.ways| && !s.ways[v].valid) then Contents(s)
                     else Contents(s) - {oldEntry.tag})[tag := data]
                 && Recency(SetAt(i), lru[i]) ==
                    LruTable.Filled(old(Recency(SetAt(i), lru[i])), LruTable.Block(old(t), e), EntryTag(), ways)
    {
      var i, tag := Locate(key);
      var s, stamps := SetAt(i), lru[i];
      var e := Entry(key, i, tag, true, data);
      assert SetValid(s, stamps, t, i, ways, sets);
      InsertOutcome(s, e, stamps, t, i, ways, sets);
      hide Agrees;
      hide Insert;
      hide InsertedWay;
      hide Recency;
      hide Contents;
      hide LruInv;
      hide IsPow2;
      var way, next;
      way, oldEntry, next := StoreIn(s, e, stamps);
      Replace(i, next, way);
      assert SetAt(i) == next && lru[i] == stamps[way := old(t)];
    }

    /** `erase`: the entry leaves its set and its recency list. */
    method EraseKey(key: nat) returns (r: Option<Entry<T>>)
      requires Valid()
      modifies `entries, `cams
      ensures Valid()
      ensures var i, tag := key % sets, key / sets;
              && i >= 0 && tag >= 0
              && var s := old(SetAt(i));
                 && r == (if tag in s.cam then Some(s.ways[s.cam[tag]].(valid := false)) else None)
                 && entries == old(entries)[i := SetAt(i).ways] && cams == old(cams)[i := SetAt(i).cam]
                 && Contents(SetAt(i)) == Contents(s) - {tag}
                 && Recency(SetAt(i), lru[i]) == LruTable.WithoutTag(old(Recency(SetAt(i), lru[i])), EntryTag(), tag)
    {
      var i, tag := Locate(key);
      ghost var s := SetAt(i);
      assert SetValid(s, lru[i], t, i, ways, sets);
      EraseValid(s, tag, lru[i], t, i, ways, sets);
      EraseRemoves(s, tag);
      EraseRecency(s, tag, lru[i], t);
      r := None;
      var row, cam := entries[i], cams[i] - {tag};
      if tag in cams[i] && entries[i][cams[i][tag]].valid {
        var way := cams[i][tag];
        row := row[way := row[way].(valid := false)];
        r := Some(row[way]);
      }
      assert Set(row, cam) == Erase(s, tag);
      hide Erase;
      hide SetValid;
      hide Agrees;
      entries, cams := entries[i := row], cams[i := cam];
      assert SetAt(i) == Erase(s, tag);
    }

    method Flush()
      requires Valid()
      modifies `entries, `cams
      ensures Valid() && forall i :: 0 <= i < sets ==> cams[i] == map[]
    {
      var i := 0;
      while i < sets
        invariant i <= sets && |entries| == sets && |cams| == sets
        invariant forall j :: 0 <= j < i ==> cams[j] == map[] && |entries[j]| == ways
        invariant forall j :: 0 <= j < i ==> forall w :: 0 <= w < ways ==> !entries[j][w].valid
        invariant forall j :: i <= j < sets ==> entries[j] == old(entries)[j] && cams[j] == old(cams)[j]
      {
        assert SetValid(old(SetAt(i)), lru[i], t, i, ways, sets);
        cams := cams[i := map[]];
        entries := entries[i := Invalidated(entries[i])];
        i := i + 1;
      }
      forall j | 0 <= j < sets ensures SetValid(SetAt(j), lru[j], t, j, ways, sets) {
        assert SetValid(old(SetAt(j)), lru[j], t, j, ways, sets);
      }
    }
  }

  function Invalidated<T>(ways: seq<Entry<T>>): (r: seq<Entry<T>>)
    ensures |r| == |ways| && forall w :: 0 <= w < |r| ==> !r[w].valid
  {
    seq(|ways|, w requires 0 <= w < |ways| => ways[w].(valid := false))
  }
}
