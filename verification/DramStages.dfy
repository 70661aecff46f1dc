/** What the parts of a DRAM channel's cycle do, exactly: mode changes, collisions, completion and address decoding. */
module DramStages {
  import opened Bits
  import opened DramModel
  import opened DramProofs
  import opened DramTheorems
  import opened Seqs
  import opened Waiters
  import opened Wrappers

  // ---------------------------------------------------------------- offers

  ghost predicate FirstEmpty(q: seq<Entry>, k: nat) {
    k < |q| && q[k].address == 0 && forall j :: 0 <= j < k ==> q[j].address != 0
  }

  /** A request takes the first empty slot of its queue, unchecked and due at once, and is refused if there is none. */
  lemma AddExactly(s: State, write: bool, e: Entry)
    ensures var (t, ok) := Add(s, write, e);
            var q, r := Queue(s, write), Queue(t, write);
            && (ok <==> exists k :: 0 <= k < |q| && q[k].address == 0)
            && t == WithQueue(s, write, r) && |r| == |q|
            && forall k :: 0 <= k < |q| ==>
                 r[k] == if FirstEmpty(q, k) then e.(checked := false, eventCycle := Some(s.cycle)) else q[k]
  {
    assert FirstFree(Queue(s, write)) < |Queue(s, write)| ==> FirstEmpty(Queue(s, write), FirstFree(Queue(s, write)));
  }

  // ---------------------------------------------------------------- mode changes

  /** The mode changes under exactly these conditions, on the slots that are in use. */
  lemma ModeChangesExactly(c: Config, s: State)
    requires Inv(c, s)
    ensures SlotsInQueues(s)
    ensures Flip(c, s).writeMode == if ChangesMode(c, s) then !s.writeMode else s.writeMode
  {
    SlotsInside(c, s);
    OccupiedIsCount(s.wq);
    OccupiedIsCount(s.rq);
    ResetKeepsMode(c, s, 0);
  }

  lemma {:induction false} ResetKeepsMode(c: Config, s: State, i: nat)
    requires i <= |s.banks| && SlotsInQueues(s)
    ensures var t := ResetBanks(c, s, i);
            && t.writeMode == s.writeMode && t.cycle == s.cycle && t.busFree == s.busFree
            && t.warmup == s.warmup && t.congestion == s.congestion
    decreases |s.banks| - i
  {
    if i < |s.banks| {
      if Resets(s, i) {
        ResetKeepsMode(c, ResetBank(c, s, i), i + 1);
      } else {
        ResetKeepsMode(c, s, i + 1);
      }
    }
  }

  /**
   * Without a queued write the channel reads, unless the write queue has a single slot: then seven eighths of it
   * round to nothing, and a reading channel changes to writing with nothing to write.
   */
  lemma NothingToWrite(c: Config, s: State)
    requires Inv(c, s) && forall i :: 0 <= i < |s.wq| ==> s.wq[i].address == 0
    ensures SlotsInQueues(s)
    ensures Flip(c, s).writeMode <==> !s.writeMode && c.wqSize == 1
  {
    CountZero(s.wq, InUse());
    ModeChangesExactly(c, s);
  }

  /** With a read queued and writes from six eighths up to seven, the channel stays in its mode. */
  lemma ModeStaysBetween(c: Config, s: State)
    requires Inv(c, s) && exists i :: 0 <= i < |s.rq| && s.rq[i].address != 0
    requires c.wqSize * 6 / 8 <= Count(s.wq, InUse()) < c.wqSize * 7 / 8
    ensures SlotsInQueues(s)
    ensures Flip(c, s).writeMode == s.writeMode
  {
    ModeChangesExactly(c, s);
    CountZero(s.rq, InUse());
    assert c.wqSize >= 2;
  }

  // ---------------------------------------------------------------- what a mode change takes back

  /** Some bank from `i` on, other than the one on the bus, holds the packet. */
  ghost predicate HeldOff(s: State, i: nat, slot: Slot) {
    exists b :: i <= b < |s.banks| && b != s.active && s.banks[b].valid && s.banks[b].slot == slot
  }

  /** Every request that is not on the bus gives its packet back, and its row unless the row was just being opened. */
  ghost predicate TakenBack(c: Config, s: State, i: nat, t: State) {
    && |t.banks| == |s.banks| && |t.rq| == |s.rq| && |t.wq| == |s.wq|
    && (forall b :: 0 <= b < |s.banks| ==>
          t.banks[b] ==
          if i <= b && s.banks[b].valid && b != s.active then
            s.banks[b].(valid := false,
                        openRow := if s.banks[b].eventCycle < s.cycle + c.tCAS then NO_ROW else s.banks[b].openRow)
          else s.banks[b])
    && forall slot: Slot :: InQueue(s, slot) ==>
         InQueue(t, slot) && EntryAt(t, slot) ==
         if HeldOff(s, i, slot) then EntryAt(s, slot).(scheduled := false, eventCycle := Some(s.cycle))
         else EntryAt(s, slot)
  }

  lemma ResetOne(c: Config, s: State, i: nat)
    requires i < |s.banks| && Resets(s, i) && InQueue(s, s.banks[i].slot)
    ensures var u := ResetBank(c, s, i);
            && u == s.(banks := u.banks, rq := u.rq, wq := u.wq) && |u.rq| == |s.rq| && |u.wq| == |s.wq|
            && u.banks == s.banks[i := s.banks[i].(valid := false,
                 openRow := if s.banks[i].eventCycle < s.cycle + c.tCAS then NO_ROW else s.banks[i].openRow)]
            && forall slot: Slot :: InQueue(s, slot) ==>
                 InQueue(u, slot) && EntryAt(u, slot) ==
                 if slot == s.banks[i].slot then EntryAt(s, slot).(scheduled := false, eventCycle := Some(s.cycle))
                 else EntryAt(s, slot)
  {
  }

  lemma HeldOffThen(s: State, i: nat, u: State, slot: Slot)
    requires i < |s.banks| && Resets(s, i) && |u.banks| == |s.banks| && u.active == s.active
    requires forall b :: 0 <= b < |s.banks| && b != i ==> u.banks[b] == s.banks[b]
    ensures HeldOff(s, i, slot) <==> slot == s.banks[i].slot || HeldOff(u, i + 1, slot)
  {
  }

  lemma HeldOffLater(s: State, i: nat, slot: Slot)
    requires i < |s.banks| && !Resets(s, i)
    ensures HeldOff(s, i, slot) <==> HeldOff(s, i + 1, slot)
  {
  }

  lemma {:induction false} ResetBanksExactly(c: Config, s: State, i: nat)
    requires i <= |s.banks| && SlotsInQueues(s)
    ensures TakenBack(c, s, i, ResetBanks(c, s, i))
    decreases |s.banks| - i
  {
    hide ResetBank, HeldOff, TakenBack;
    if i == |s.banks| {
      TakesNothing(c, s);
    } else if Resets(s, i) {
      var u := ResetBank(c, s, i);
      ResetOne(c, s, i);
      ResetBanksExactly(c, u, i + 1);
      TakenThen(c, s, i, u, ResetBanks(c, u, i + 1));
    } else {
      ResetBanksExactly(c, s, i + 1);
      TakenLater(c, s, i, ResetBanks(c, s, i + 1));
    }
  }

  lemma TakesNothing(c: Config, s: State)
    ensures TakenBack(c, s, |s.banks|, s)
  {
  }

  lemma TakenLater(c: Config, s: State, i: nat, t: State)
    requires i < |s.banks| && !Resets(s, i) && TakenBack(c, s, i + 1, t)
    ensures TakenBack(c, s, i, t)
  {
    forall slot: Slot ensures HeldOff(s, i, slot) <==> HeldOff(s, i + 1, slot) {
      HeldOffLater(s, i, slot);
    }
    hide HeldOff;
  }

  lemma TakenThen(c: Config, s: State, i: nat, u: State, t: State)
    requires i < |s.banks| && Resets(s, i) && InQueue(s, s.banks[i].slot) && u == ResetBank(c, s, i)
    requires TakenBack(c, u, i + 1, t)
    ensures TakenBack(c, s, i, t)
  {
    ResetOne(c, s, i);
    hide ResetBank;
    forall slot: Slot ensures HeldOff(s, i, slot) <==> slot == s.banks[i].slot || HeldOff(u, i + 1, slot) {
      HeldOffThen(s, i, u, slot);
    }
    hide HeldOff;
  }

  /** A mode change, exactly; without one nothing changes. */
  lemma FlipEffect(c: Config, s: State)
    requires Inv(c, s)
    ensures SlotsInQueues(s)
    ensures var t := Flip(c, s);
            if ChangesMode(c, s) then
              && TakenBack(c, s, 0, t)
              && t == s.(banks := t.banks, rq := t.rq, wq := t.wq, writeMode := !s.writeMode,
                         busFree := (if s.active < |s.banks| then s.banks[s.active].eventCycle else s.cycle)
                                    + c.turnAround)
            else t == s
  {
    SlotsInside(c, s);
    OccupiedIsCount(s.wq);
    OccupiedIsCount(s.rq);
    ResetBanksExactly(c, s, 0);
    ResetKeepsMode(c, s, 0);
    hide ResetBanks, Occupied, Count;
    var t := ResetBanks(c, s, 0);
    assert TakenBack(c, s, 0, t.(busFree := Flip(c, s).busFree, writeMode := !s.writeMode)) by {
      TakenBackLater(c, s, t, Flip(c, s).busFree);
    }
  }

  lemma TakenBackLater(c: Config, s: State, t: State, free: nat)
    requires TakenBack(c, s, 0, t)
    ensures TakenBack(c, s, 0, t.(busFree := free, writeMode := !s.writeMode))
  {
    var u := t.(busFree := free, writeMode := !s.writeMode);
    forall slot: Slot | InQueue(s, slot) ensures InQueue(u, slot) && EntryAt(u, slot) == EntryAt(t, slot) {
    }
    hide HeldOff;
  }

  // ---------------------------------------------------------------- completion

  /** The request on the bus completes when its cycle has come, answering exactly its packet's waiters. */
  lemma FinishExactly(c: Config, s: State)
    requires Inv(c, s)
    ensures BusDone(s) ==> InQueue(s, s.banks[s.active].slot)
    ensures var (t, answered) := Finish(c, s);
            if s.active < |s.banks| && s.banks[s.active].eventCycle <= s.cycle then
              var slot := s.banks[s.active].slot;
              && InQueue(t, slot) && EntryAt(t, slot) == EMPTY
              && (forall other: Slot :: InQueue(s, other) && other != slot ==>
                    InQueue(t, other) && EntryAt(t, other) == EntryAt(s, other))
              && t == s.(rq := t.rq, wq := t.wq, active := |s.banks|,
                         banks := s.banks[s.active := s.banks[s.active].(valid := false)])
              && answered == DebtsOf(EntryAt(s, slot).toReturn, EntryAt(s, slot).address / c.blockSize)
            else t == s && answered == multiset{}
  {
    SlotsInside(c, s);
  }

  // ---------------------------------------------------------------- collisions

  predicate OfBlock(c: Config, e: Entry, address: nat) {
    e.address != 0 && e.address / c.blockSize == address / c.blockSize
  }

  predicate New(e: Entry) { e.address != 0 && !e.checked }

  /** Another request of the block of slot `n` that was checked before, or stands later. */
  ghost predicate Superseded(c: Config, q: seq<Entry>, n: int)
    requires 0 <= n < |q|
  {
    exists j :: 0 <= j < |q| && j != n && OfBlock(c, q[j], q[n].address) && (q[j].checked || j > n)
  }

  /** What a check from slot `i` on makes of the write in slot `n`. */
  ghost predicate WriteFate(c: Config, q: seq<Entry>, i: nat, n: int, e: Entry)
    requires 0 <= n < |q|
  {
    e == if n < i || !New(q[n]) then q[n] else if Superseded(c, q, n) then EMPTY else q[n].(checked := true)
  }

  lemma OtherExactly(c: Config, q: seq<Entry>, i: nat)
    requires i < |q| && CheckedTo(c, q, i) && New(q[i])
    ensures Other(c, q, i) < |q| <==> Superseded(c, q, i)
  {
    var k := Other(c, q, i);
    if k < |q| {
      assert q[k].checked || k > i;
    } else {
      forall j | 0 <= j < |q| && j != i ensures !OfBlock(c, q[j], q[i].address) {
        assert !SameBlock(c, q[j], q[i].address);
      }
    }
  }

  /** A change of slot `i`, which is new, decides nothing for a later slot of another block. */
  lemma SupersededSame(c: Config, q: seq<Entry>, p: seq<Entry>, i: nat, n: nat)
    requires i < n < |q| == |p| && !q[i].checked
    requires forall j :: 0 <= j < |q| && j != i ==> p[j].address == q[j].address && p[j].checked == q[j].checked
    requires !OfBlock(c, p[i], q[n].address)
    ensures Superseded(c, p, n) <==> Superseded(c, q, n)
  {
    if Superseded(c, q, n) {
      var j :| 0 <= j < |q| && j != n && OfBlock(c, q[j], q[n].address) && (q[j].checked || j > n);
      assert OfBlock(c, p[j], p[n].address);
    }
    if Superseded(c, p, n) {
      var j :| 0 <= j < |p| && j != n && OfBlock(c, p[j], p[n].address) && (p[j].checked || j > n);
      assert OfBlock(c, q[j], q[n].address);
    }
  }

  /** An unsuperseded new entry has no later entry of its block. */
  lemma LastOfBlock(c: Config, q: seq<Entry>, i: nat, n: nat)
    requires i < n < |q| && New(q[i]) && New(q[n]) && !Superseded(c, q, i)
    ensures !OfBlock(c, q[i], q[n].address)
  {
  }

  /** Writes, exactly: a new write is dropped if its block has a checked write or a later one, and kept otherwise. */
  lemma {:induction false} CheckWritesExactly(c: Config, q: seq<Entry>, i: nat)
    requires CheckedTo(c, q, i)
    ensures forall n :: 0 <= n < |q| ==> WriteFate(c, q, i, n, CheckWrites(c, q, i)[n])
    decreases |q| - i
  {
    var r := CheckWrites(c, q, i);
    if i < |q| {
      if !New(q[i]) {
        CheckWritesExactly(c, q, i + 1);
        assert r == CheckWrites(c, q, i + 1);
        forall n | 0 <= n < |q| ensures WriteFate(c, q, i, n, r[n]) {
          assert WriteFate(c, q, i + 1, n, CheckWrites(c, q, i + 1)[n]);
        }
      } else {
        OtherExactly(c, q, i);
        var p := if Other(c, q, i) < |q| then q[i := EMPTY] else q[i := q[i].(checked := true)];
        if Other(c, q, i) < |q| {
          DropOne(c, q, i);
        } else {
          KeepOne(c, q, i);
        }
        CheckWritesExactly(c, p, i + 1);
        assert r == CheckWrites(c, p, i + 1);
        forall n | 0 <= n < |q| ensures WriteFate(c, q, i, n, r[n]) {
          assert WriteFate(c, p, i + 1, n, CheckWrites(c, p, i + 1)[n]);
          if i < n && New(q[n]) {
            if Other(c, q, i) == |q| {
              LastOfBlock(c, q, i, n);
            }
            SupersededSame(c, q, p, i, n);
          }
        }
      }
    }
  }

  // ---------------------------------------------------------------- reads

  ghost predicate Written(c: Config, wq: seq<Entry>, e: Entry) {
    exists k :: 0 <= k < |wq| && OfBlock(c, wq[k], e.address)
  }

  /** A waiter of the read in slot `n` afterwards: its own, or that of a new read of its block that joins. */
  ghost predicate WaitsAfter(c: Config, wq: seq<Entry>, q: seq<Entry>, i: nat, n: int, w: Waiter)
    requires 0 <= n < |q|
  {
    || w in q[n].toReturn
    || (!Written(c, wq, q[n])
        && exists j :: i <= j < |q| && j != n && New(q[j]) && OfBlock(c, q[j], q[n].address) && w in q[j].toReturn)
  }

  /** What a check from slot `i` on makes of the read in slot `n`. */
  ghost predicate ReadFate(c: Config, wq: seq<Entry>, q: seq<Entry>, i: nat, n: int, e: Entry)
    requires 0 <= n < |q|
  {
    if q[n].address == 0 then e == q[n]
    else if i <= n && New(q[n]) && (Written(c, wq, q[n]) || Superseded(c, q, n)) then e == EMPTY
    else
      && e == q[n].(checked := n >= i || q[n].checked, toReturn := e.toReturn)
      && forall w :: w in e.toReturn <==> WaitsAfter(c, wq, q, i, n, w)
  }

  ghost function AnsweredDebts(c: Config, wq: seq<Entry>): Entry -> multiset<Debt> {
    (e: Entry) => if New(e) && Written(c, wq, e) then DebtsOf(e.toReturn, e.address / c.blockSize) else multiset{}
  }

  lemma WrittenFound(c: Config, wq: seq<Entry>, e: Entry)
    ensures FindEntry(c, wq, e.address) < |wq| <==> Written(c, wq, e)
  {
    var k := FindEntry(c, wq, e.address);
    if k < |wq| {
      assert OfBlock(c, wq[k], e.address);
    }
    if Written(c, wq, e) {
      var j :| 0 <= j < |wq| && OfBlock(c, wq[j], e.address);
      assert SameBlock(c, wq[j], e.address);
    }
  }

  lemma WrittenBlock(c: Config, wq: seq<Entry>, a: Entry, b: Entry)
    requires a.address / c.blockSize == b.address / c.blockSize
    ensures Written(c, wq, a) <==> Written(c, wq, b)
  {
    assert forall e: Entry :: OfBlock(c, e, a.address) <==> OfBlock(c, e, b.address);
  }

  /** Nothing to do at slot `i`. */
  lemma ReadSkips(c: Config, wq: seq<Entry>, q: seq<Entry>, i: nat, n: int, e: Entry)
    requires i < |q| && 0 <= n < |q| && CheckedTo(c, q, i) && !New(q[i]) && ReadFate(c, wq, q, i + 1, n, e)
    ensures ReadFate(c, wq, q, i, n, e)
  {
    forall w ensures WaitsAfter(c, wq, q, i, n, w) <==> WaitsAfter(c, wq, q, i + 1, n, w) {
    }
    hide WaitsAfter, Superseded, Written;
  }

  /** Slot `i` is answered. */
  lemma ReadAnswers(c: Config, wq: seq<Entry>, q: seq<Entry>, i: nat, n: int, e: Entry)
    requires i < |q| && 0 <= n < |q| && CheckedTo(c, q, i) && New(q[i]) && Written(c, wq, q[i])
    requires ReadFate(c, wq, q[i := EMPTY], i + 1, n, e)
    ensures ReadFate(c, wq, q, i, n, e)
  {
    var p := q[i := EMPTY];
    if n != i && q[n].address != 0 {
      if OfBlock(c, q[i], q[n].address) {
        WrittenBlock(c, wq, q[i], q[n]);
      }
      forall w ensures WaitsAfter(c, wq, q, i, n, w) <==> WaitsAfter(c, wq, p, i + 1, n, w) {
        WaitsWithout(c, wq, q, i, n, w);
      }
      hide WaitsAfter, Written;
      if i < n && New(q[n]) {
        SupersededSame(c, q, p, i, n);
      }
      hide Superseded;
    }
  }

  lemma WaitsWithout(c: Config, wq: seq<Entry>, q: seq<Entry>, i: nat, n: int, w: Waiter)
    requires i < |q| && 0 <= n < |q| && n != i && q[n].address != 0
    requires OfBlock(c, q[i], q[n].address) ==> Written(c, wq, q[n])
    ensures WaitsAfter(c, wq, q, i, n, w) <==> WaitsAfter(c, wq, q[i := EMPTY], i + 1, n, w)
  {
    var p := q[i := EMPTY];
    hide Written;
    if !Written(c, wq, q[n]) {
      forall j | i <= j < |q| && j != n && New(q[j]) && OfBlock(c, q[j], q[n].address) && w in q[j].toReturn
        ensures i + 1 <= j && p[j] == q[j]
      {
      }
    }
  }

  /** Slot `i` is kept. */
  lemma ReadStays(c: Config, wq: seq<Entry>, q: seq<Entry>, i: nat, n: int, e: Entry)
    requires i < |q| && 0 <= n < |q| && CheckedTo(c, q, i) && New(q[i]) && !Written(c, wq, q[i]) && !Superseded(c, q, i)
    requires ReadFate(c, wq, q[i := q[i].(checked := true)], i + 1, n, e)
    ensures ReadFate(c, wq, q, i, n, e)
  {
    var p := q[i := q[i].(checked := true)];
    if q[n].address != 0 {
      forall j | 0 <= j < |q| && j != i && (q[j].checked || j > i) ensures !OfBlock(c, q[j], q[i].address) {
      }
      assert n != i ==> !OfBlock(c, q[i], q[n].address);
      forall w ensures WaitsAfter(c, wq, q, i, n, w) <==> WaitsAfter(c, wq, p, i + 1, n, w) {
        WaitsKept(c, wq, q, i, n, w);
      }
      hide WaitsAfter, Written;
      if i < n && New(q[n]) {
        SupersededSame(c, q, p, i, n);
      }
      hide Superseded;
    }
  }

  lemma WaitsKept(c: Config, wq: seq<Entry>, q: seq<Entry>, i: nat, n: int, w: Waiter)
    requires i < |q| && 0 <= n < |q| && q[n].address != 0 && (n != i ==> !OfBlock(c, q[i], q[n].address))
    ensures WaitsAfter(c, wq, q, i, n, w) <==> WaitsAfter(c, wq, q[i := q[i].(checked := true)], i + 1, n, w)
  {
    var p := q[i := q[i].(checked := true)];
    hide Written;
    forall j | i <= j < |q| && j != n && New(q[j]) && OfBlock(c, q[j], q[n].address) && w in q[j].toReturn
      ensures i + 1 <= j && p[j] == q[j]
    {
    }
  }

  /** Slot `i` joins slot `k`. */
  lemma ReadJoins(c: Config, wq: seq<Entry>, q: seq<Entry>, i: nat, k: nat, n: int, e: Entry)
    requires i < |q| && k < |q| && k != i && 0 <= n < |q| && CheckedTo(c, q, i) && New(q[i]) && !Written(c, wq, q[i])
    requires OfBlock(c, q[k], q[i].address) && (q[k].checked || k > i)
    requires ReadFate(c, wq, Join(q, i, k), i + 1, n, e)
    ensures ReadFate(c, wq, q, i, n, e)
  {
    var p := Join(q, i, k);
    assert Superseded(c, q, i);
    if n != i && q[n].address != 0 {
      if i < n && New(q[n]) {
        SupersededSame(c, q, p, i, n);
      }
      if OfBlock(c, q[i], q[n].address) {
        WrittenBlock(c, wq, q[i], q[n]);
        WrittenBlock(c, wq, p[n], q[n]);
        JoinedSlot(c, q, i, k, n);
      }
      if i <= n && New(q[n]) && (Written(c, wq, q[n]) || Superseded(c, q, n)) {
      } else {
        forall w ensures WaitsAfter(c, wq, q, i, n, w) <==> WaitsAfter(c, wq, p, i + 1, n, w) {
          WaitsJoined(c, wq, q, i, k, n, w);
        }
        hide WaitsAfter, Written, Superseded;
      }
    }
  }

  /** Of the same block, only `k` or a superseded entry can be left beside `k`. */
  lemma JoinedSlot(c: Config, q: seq<Entry>, i: nat, k: nat, n: nat)
    requires i < |q| && k < |q| && k != i && n < |q| && n != i && CheckedTo(c, q, i) && New(q[i])
    requires OfBlock(c, q[k], q[i].address) && (q[k].checked || k > i)
    requires q[n].address != 0 && OfBlock(c, q[i], q[n].address)
    ensures n == k || (i < k && New(q[k])) || (i <= n && New(q[n]) && Superseded(c, q, n))
  {
    if n != k && q[k].checked {
      assert OfBlock(c, q[k], q[n].address);
      if q[n].checked {
        CheckedAlone(c, q, n, k);
      }
    }
  }

  lemma CheckedAlone(c: Config, q: seq<Entry>, n: nat, k: nat)
    requires CheckedApart(c, q) && n < |q| && k < |q| && n != k && q[n].checked && q[k].checked
    requires q[n].address != 0 && q[k].address != 0
    ensures q[n].address / c.blockSize != q[k].address / c.blockSize
  {
  }

  lemma WaitsJoined(c: Config, wq: seq<Entry>, q: seq<Entry>, i: nat, k: nat, n: int, w: Waiter)
    requires i < |q| && k < |q| && k != i && 0 <= n < |q| && n != i && New(q[i]) && q[n].address != 0
    requires OfBlock(c, q[k], q[i].address)
    requires OfBlock(c, q[i], q[n].address) ==> !Written(c, wq, q[n]) && (n == k || (i < k && New(q[k])))
    ensures WaitsAfter(c, wq, q, i, n, w) <==> WaitsAfter(c, wq, Join(q, i, k), i + 1, n, w)
  {
    var p := Join(q, i, k);
    assert Written(c, wq, p[n]) <==> Written(c, wq, q[n]) by {
      WrittenBlock(c, wq, p[n], q[n]);
    }
    hide Written;
    if WaitsAfter(c, wq, q, i, n, w) && w !in p[n].toReturn {
      var j :| i <= j < |q| && j != n && New(q[j]) && OfBlock(c, q[j], q[n].address) && w in q[j].toReturn;
      var l := if j == i then k else j;
      assert l != n && New(p[l]) && OfBlock(c, p[l], p[n].address) && w in p[l].toReturn;
    }
    if WaitsAfter(c, wq, p, i + 1, n, w) && w !in q[n].toReturn {
      if w in p[n].toReturn {
        assert n == k && w in q[i].toReturn;
        assert OfBlock(c, q[i], q[n].address);
      } else {
        var j :| i + 1 <= j < |p| && j != n && New(p[j]) && OfBlock(c, p[j], p[n].address) && w in p[j].toReturn;
        var l := if j == k && w !in q[k].toReturn then i else j;
        assert New(q[l]) && OfBlock(c, q[l], q[n].address) && w in q[l].toReturn;
      }
    }
  }

  ghost predicate ReadFates(c: Config, wq: seq<Entry>, q: seq<Entry>, i: nat, r: seq<Entry>) {
    |r| == |q| && forall n :: 0 <= n < |q| ==> ReadFate(c, wq, q, i, n, r[n])
  }

  lemma ReadsSkip(c: Config, wq: seq<Entry>, q: seq<Entry>, i: nat, r: seq<Entry>)
    requires i < |q| && CheckedTo(c, q, i) && !New(q[i]) && ReadFates(c, wq, q, i + 1, r)
    ensures ReadFates(c, wq, q, i, r)
  {
    hide ReadFate;
    forall n | 0 <= n < |q| ensures ReadFate(c, wq, q, i, n, r[n]) {
      ReadSkips(c, wq, q, i, n, r[n]);
    }
  }

  lemma ReadsAnswer(c: Config, wq: seq<Entry>, q: seq<Entry>, i: nat, r: seq<Entry>)
    requires i < |q| && CheckedTo(c, q, i) && New(q[i]) && Written(c, wq, q[i])
    requires ReadFates(c, wq, q[i := EMPTY], i + 1, r)
    ensures ReadFates(c, wq, q, i, r)
  {
    hide ReadFate, Written;
    forall n | 0 <= n < |q| ensures ReadFate(c, wq, q, i, n, r[n]) {
      ReadAnswers(c, wq, q, i, n, r[n]);
    }
  }

  lemma ReadsJoin(c: Config, wq: seq<Entry>, q: seq<Entry>, i: nat, k: nat, r: seq<Entry>)
    requires i < |q| && k < |q| && k != i && CheckedTo(c, q, i) && New(q[i]) && !Written(c, wq, q[i])
    requires OfBlock(c, q[k], q[i].address) && ReadFates(c, wq, Join(q, i, k), i + 1, r)
    ensures ReadFates(c, wq, q, i, r)
  {
    hide ReadFate, Written;
    assert q[k].checked || k > i;
    hide CheckedTo;
    forall n | 0 <= n < |q| ensures ReadFate(c, wq, q, i, n, r[n]) {
      ReadJoins(c, wq, q, i, k, n, r[n]);
    }
  }

  lemma ReadsStay(c: Config, wq: seq<Entry>, q: seq<Entry>, i: nat, r: seq<Entry>)
    requires i < |q| && CheckedTo(c, q, i) && New(q[i]) && !Written(c, wq, q[i]) && !Superseded(c, q, i)
    requires ReadFates(c, wq, q[i := q[i].(checked := true)], i + 1, r)
    ensures ReadFates(c, wq, q, i, r)
  {
    hide ReadFate, Written, Superseded;
    forall n | 0 <= n < |q| ensures ReadFate(c, wq, q, i, n, r[n]) {
      ReadStays(c, wq, q, i, n, r[n]);
    }
  }

  /** Reads, exactly. */
  lemma {:induction false} CheckReadsExactly(c: Config, wq: seq<Entry>, q: seq<Entry>, i: nat)
    requires CheckedTo(c, q, i)
    ensures ReadFates(c, wq, q, i, CheckReads(c, wq, q, i).0)
    decreases |q| - i
  {
    InsideQueue(c, q, i);
    hide ReadFates, Superseded, Written, CheckedTo;
    if i == |q| {
      ReadsLeft(c, wq, q);
    } else if !New(q[i]) {
      KeepsChecked(c, q, i);
      CheckReadsExactly(c, wq, q, i + 1);
      ReadsSkip(c, wq, q, i, CheckReads(c, wq, q, i + 1).0);
    } else {
      WrittenFound(c, wq, q[i]);
      OtherExactly(c, q, i);
      if Written(c, wq, q[i]) {
        DropOne(c, q, i);
        CheckReadsExactly(c, wq, q[i := EMPTY], i + 1);
        ReadsAnswer(c, wq, q, i, CheckReads(c, wq, q[i := EMPTY], i + 1).0);
      } else if Superseded(c, q, i) {
        var k := Other(c, q, i);
        JoinOne(c, q, i, k);
        CheckReadsExactly(c, wq, Join(q, i, k), i + 1);
        ReadsJoin(c, wq, q, i, k, CheckReads(c, wq, Join(q, i, k), i + 1).0);
      } else {
        var p := q[i := q[i].(checked := true)];
        KeepOne(c, q, i);
        CheckReadsExactly(c, wq, p, i + 1);
        ReadsStay(c, wq, q, i, CheckReads(c, wq, p, i + 1).0);
      }
    }
  }

  lemma InsideQueue(c: Config, q: seq<Entry>, i: nat)
    requires CheckedTo(c, q, i)
    ensures i <= |q|
  {
  }

  lemma KeepsChecked(c: Config, q: seq<Entry>, i: nat)
    requires CheckedTo(c, q, i) && i < |q| && !New(q[i])
    ensures CheckedTo(c, q, i + 1)
  {
  }

  lemma ReadsLeft(c: Config, wq: seq<Entry>, q: seq<Entry>)
    ensures ReadFates(c, wq, q, |q|, q)
  {
    hide ReadFate;
    forall n | 0 <= n < |q| ensures ReadFate(c, wq, q, |q|, n, q[n]) {
      ReadLeft(c, wq, q, n);
    }
  }

  lemma ReadLeft(c: Config, wq: seq<Entry>, q: seq<Entry>, n: nat)
    requires n < |q|
    ensures ReadFate(c, wq, q, |q|, n, q[n])
  {
    hide Written;
  }

  lemma JoinAnswersNobody(c: Config, wq: seq<Entry>, q: seq<Entry>, i: nat, k: nat)
    requires i < |q| && k < |q| && k != i && OfBlock(c, q[k], q[i].address) && !Written(c, wq, q[i])
    ensures Total(Join(q, i, k)[i + 1..], AnsweredDebts(c, wq)) == Total(q[i + 1..], AnsweredDebts(c, wq))
  {
    WrittenBlock(c, wq, q[i], q[k]);
    WrittenBlock(c, wq, q[i], Join(q, i, k)[k]);
    hide Written;
    TotalPointwise(Join(q, i, k)[i + 1..], q[i + 1..], AnsweredDebts(c, wq), AnsweredDebts(c, wq));
  }

  /** Exactly the waiters of the new reads whose block has a write are answered. */
  lemma {:induction false} ReadsAnsweredExactly(c: Config, wq: seq<Entry>, q: seq<Entry>, i: nat)
    requires CheckedTo(c, q, i)
    ensures CheckReads(c, wq, q, i).1 == Total(q[i..], AnsweredDebts(c, wq))
    decreases |q| - i
  {
    InsideQueue(c, q, i);
    hide Written, Superseded, CheckedTo;
    if i < |q| {
      assert q[i..][1..] == q[i + 1..];
      if !New(q[i]) {
        KeepsChecked(c, q, i);
        ReadsAnsweredExactly(c, wq, q, i + 1);
      } else {
        WrittenFound(c, wq, q[i]);
        OtherExactly(c, q, i);
        if Written(c, wq, q[i]) {
          DropOne(c, q, i);
          ReadsAnsweredExactly(c, wq, q[i := EMPTY], i + 1);
          assert q[i := EMPTY][i + 1..] == q[i + 1..];
        } else if Superseded(c, q, i) {
          var k := Other(c, q, i);
          JoinOne(c, q, i, k);
          ReadsAnsweredExactly(c, wq, Join(q, i, k), i + 1);
          JoinAnswersNobody(c, wq, q, i, k);
        } else {
          KeepOne(c, q, i);
          var p := q[i := q[i].(checked := true)];
          ReadsAnsweredExactly(c, wq, p, i + 1);
          assert p[i + 1..] == q[i + 1..];
        }
      }
    }
  }

  lemma StartsChecked(c: Config, s: State)
    requires Inv(c, s)
    ensures CheckedTo(c, s.wq, 0) && CheckedTo(c, s.rq, 0)
  {
    CollideKeeps(c, s);
  }

  /**
   * A collision check, exactly: a new write is dropped for a checked or later write of its block; then a new read is
   * answered if its block has a write, and otherwise joins a checked or later read of its block, or stays.
   */
  lemma CollisionsExactly(c: Config, s: State)
    requires Inv(c, s)
    ensures var (t, answered) := CheckCollision(c, s);
            && t == s.(wq := t.wq, rq := t.rq) && |t.wq| == |s.wq| && |t.rq| == |s.rq|
            && (forall n :: 0 <= n < |s.wq| ==> WriteFate(c, s.wq, 0, n, t.wq[n]))
            && ReadFates(c, t.wq, s.rq, 0, t.rq)
            && answered == Total(s.rq, AnsweredDebts(c, t.wq))
  {
    StartsChecked(c, s);
    CheckWritesExactly(c, s.wq, 0);
    var wq := CheckWrites(c, s.wq, 0);
    CheckReadsExactly(c, wq, s.rq, 0);
    ReadsAnsweredExactly(c, wq, s.rq, 0);
    assert s.rq[0..] == s.rq;
    hide WriteFate, ReadFates, Inv;
  }

  // ---------------------------------------------------------------- address decoding

  /** A number with lowest digit `digit` of `values` values. */
  function Above(digit: nat, values: nat, rest: nat): int { digit + values * rest }

  function Values(size: Pos): Pos { Pow2(Lg2(size)) }

  function Shifted(x: nat, shift: nat): nat { Quotient(x, Pow2(shift)) }

  lemma ShiftedNone(x: nat)
    ensures Shifted(x, 0) == x
  {
    assert Pow2(0) == 1;
  }

  /** The part of a number above its lowest bits, from two adjacent fields. */
  lemma SplitField(x: nat, shift: nat, size: Pos)
    ensures Shifted(x, shift) == Above(Field(x, shift, size), Values(size), Shifted(x, shift + Lg2(size)))
    ensures Field(x, shift, size) < Values(size)
  {
    Pow2Sum(shift, Lg2(size));
    DivDiv(x, Pow2(shift), Pow2(Lg2(size)));
  }

  /**
   * Address decoding, exactly: from the lowest bit upwards a block number holds channel, bank, column, rank and row,
   * each with as many bits as its number of values provides; and banks are counted over the ranks.
   */
  lemma DecodeExactly(c: Config, x: nat) returns (bank: nat, column: nat, rank: nat, row: nat, above: nat)
    ensures BlockOf(c, x) == Above(ChannelOf(c, x), Values(c.channels), bank)
    ensures bank == Above(BankOf(c, x), Values(c.banks), column)
    ensures column == Above(ColumnOf(c, x), Values(c.columns), rank)
    ensures rank == Above(RankOf(c, x), Values(c.ranks), row)
    ensures row == Above(RowOf(c, x), Values(c.rows), above)
    ensures ChannelOf(c, x) < Values(c.channels) && BankOf(c, x) < Values(c.banks)
    ensures ColumnOf(c, x) < Values(c.columns) && RankOf(c, x) < Values(c.ranks) && RowOf(c, x) < Values(c.rows)
    ensures BankIndex(c, x) == RankOf(c, x) * c.banks + BankOf(c, x)
  {
    var b := BlockOf(c, x);
    var s1 := Lg2(c.channels);
    var s2 := s1 + Lg2(c.banks);
    var s3 := s2 + Lg2(c.columns);
    var s4 := s3 + Lg2(c.ranks);
    hide Pow2, Lg2, Field, Above, Values, Shifted;
    SplitField(b, 0, c.channels);
    SplitField(b, s1, c.banks);
    SplitField(b, s2, c.columns);
    SplitField(b, s3, c.ranks);
    SplitField(b, s4, c.rows);
    bank, column, rank, row := Shifted(b, s1), Shifted(b, s2), Shifted(b, s3), Shifted(b, s4);
    above := Shifted(b, s4 + Lg2(c.rows));
    assert Shifted(b, 0) == b by { ShiftedNone(b); }
  }
}
