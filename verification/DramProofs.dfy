/** What every step of a DRAM channel keeps. */
module DramProofs {
  import opened DramModel
  import opened Wrappers

  // ---------------------------------------------------------------- the invariants

  ghost predicate Shape(c: Config, s: State) {
    && |s.banks| == c.ranks * c.banks && s.active <= |s.banks|
    && |s.rq| == c.rqSize && |s.wq| == c.wqSize
  }

  ghost predicate FreeIsEmpty(q: seq<Entry>) { forall i :: 0 <= i < |q| && q[i].address == 0 ==> q[i] == EMPTY }

  /** Checked entries of one queue never share a block. */
  ghost predicate CheckedApart(c: Config, q: seq<Entry>) {
    forall i, j :: 0 <= i < j < |q| && q[i].address != 0 && q[i].checked && q[j].address != 0 && q[j].checked ==>
      BlockOf(c, q[i].address) != BlockOf(c, q[j].address)
  }

  ghost predicate Silent(q: seq<Entry>) { forall i :: 0 <= i < |q| ==> q[i].toReturn == {} }

  /** A valid bank request points to a scheduled packet that decodes to this bank. */
  ghost predicate BankOwns(c: Config, s: State, b: nat)
    requires b < |s.banks|
  {
    var slot := s.banks[b].slot;
    && InQueue(s, slot)
    && EntryAt(s, slot).address != 0 && EntryAt(s, slot).scheduled
    && BankIndex(c, EntryAt(s, slot).address) == b
  }

  ghost predicate BanksOwn(c: Config, s: State) {
    forall b :: 0 <= b < |s.banks| && s.banks[b].valid ==> BankOwns(c, s, b)
  }

  /** A scheduled packet is checked, out of the race, and owned by its bank. */
  ghost predicate Owned(c: Config, banks: seq<BankRequest>, e: Entry, slot: Slot) {
    && e.address != 0 && e.checked && e.eventCycle.None?
    && BankIndex(c, e.address) < |banks|
    && banks[BankIndex(c, e.address)].valid && banks[BankIndex(c, e.address)].slot == slot
  }

  ghost predicate AllOwned(c: Config, banks: seq<BankRequest>, q: seq<Entry>, write: bool) {
    forall i :: 0 <= i < |q| && q[i].scheduled ==> Owned(c, banks, q[i], Slot(write, i))
  }

  /** The bus carries a valid request; all other requests are of the current mode. */
  ghost predicate Mode(s: State) {
    && (!Idle(s) ==> s.banks[s.active].valid)
    && forall b :: 0 <= b < |s.banks| && s.banks[b].valid && b != s.active ==> s.banks[b].slot.write == s.writeMode
  }

  ghost predicate Cold(s: State) { s.warmup ==> forall b :: 0 <= b < |s.banks| ==> !s.banks[b].valid }

  ghost predicate QueueInv(c: Config, banks: seq<BankRequest>, q: seq<Entry>, write: bool) {
    FreeIsEmpty(q) && CheckedApart(c, q) && AllOwned(c, banks, q, write)
  }

  ghost predicate Inv(c: Config, s: State) {
    && Shape(c, s) && Mode(s) && Cold(s) && BanksOwn(c, s)
    && QueueInv(c, s.banks, s.rq, false) && QueueInv(c, s.banks, s.wq, true) && Silent(s.wq)
  }

  ghost predicate AllChecked(q: seq<Entry>) { forall i :: 0 <= i < |q| && q[i].address != 0 ==> q[i].checked }

  /** What collision checking establishes and the rest of an `operate()` relies on. */
  ghost predicate Checked(s: State) { AllChecked(s.rq) && AllChecked(s.wq) }

  /** During warm-up nothing is queued once the drain is over. */
  ghost predicate Drained(s: State) {
    s.warmup ==>
      && (forall i :: 0 <= i < |s.rq| ==> s.rq[i].address == 0)
      && forall i :: 0 <= i < |s.wq| ==> s.wq[i].address == 0
  }

  // ---------------------------------------------------------------- accepting

  lemma AddKeeps(c: Config, s: State, write: bool, e: Entry)
    requires Inv(c, s) && e.address != 0 && !e.scheduled && (write ==> e.toReturn == {})
    ensures Inv(c, Add(s, write, e).0)
  {
    var q := Queue(s, write);
    var k := FirstFree(q);
    if k < |q| {
      assert q[k] == EMPTY;
    }
  }

  // ---------------------------------------------------------------- collisions

  /** Scheduled packets are untouched, up to waiters that join them. */
  ghost predicate Spares(q: seq<Entry>, r: seq<Entry>) {
    && |q| == |r|
    && forall i :: 0 <= i < |q| ==>
         && q[i].scheduled == r[i].scheduled && (q[i].scheduled ==> r[i] == q[i].(toReturn := r[i].toReturn))
         && (q[i].scheduled ==> q[i].toReturn <= r[i].toReturn)
         && (r[i].address == 0 || r[i].address == q[i].address)
  }

  lemma SparesThen(q: seq<Entry>, r: seq<Entry>, t: seq<Entry>)
    requires Spares(q, r) && Spares(r, t)
    ensures Spares(q, t)
  {
  }

  /** Progress of a check at entry `i`. */
  ghost predicate CheckedTo(c: Config, q: seq<Entry>, i: nat) {
    && i <= |q| && FreeIsEmpty(q) && CheckedApart(c, q)
    && (forall j :: 0 <= j < |q| && q[j].scheduled ==> q[j].checked && q[j].address != 0)
    && forall j :: 0 <= j < i && q[j].address != 0 ==> q[j].checked
  }

  lemma DropOne(c: Config, q: seq<Entry>, i: nat)
    requires i < |q| && CheckedTo(c, q, i) && !q[i].checked
    ensures CheckedTo(c, q[i := EMPTY], i + 1) && Spares(q, q[i := EMPTY])
  {
  }

  lemma KeepOne(c: Config, q: seq<Entry>, i: nat)
    requires i < |q| && CheckedTo(c, q, i) && Unchecked(q[i])
    requires Other(c, q, i) == |q|
    ensures CheckedTo(c, q[i := q[i].(checked := true)], i + 1) && Spares(q, q[i := q[i].(checked := true)])
  {
    assert forall j :: 0 <= j < |q| && j != i && q[j].address != 0 ==> !SameBlock(c, q[j], q[i].address);
  }

  lemma JoinOne(c: Config, q: seq<Entry>, i: nat, k: nat)
    requires i < |q| && k < |q| && k != i && CheckedTo(c, q, i) && Unchecked(q[i])
    requires q[k].address != 0
    ensures CheckedTo(c, Join(q, i, k), i + 1) && Spares(q, Join(q, i, k))
  {
  }

  lemma {:induction false} CheckWritesKeeps(c: Config, q: seq<Entry>, i: nat)
    requires CheckedTo(c, q, i)
    ensures var r := CheckWrites(c, q, i); CheckedTo(c, r, |q|) && Spares(q, r)
    decreases |q| - i
  {
    hide Spares;
    var r := CheckWrites(c, q, i);
    if i == |q| {
      SparesSelf(q);
    } else if !Unchecked(q[i]) {
      CheckWritesKeeps(c, q, i + 1);
    } else if Other(c, q, i) < |q| {
      DropOne(c, q, i);
      CheckWritesKeeps(c, q[i := EMPTY], i + 1);
      SparesThen(q, q[i := EMPTY], r);
    } else {
      KeepOne(c, q, i);
      CheckWritesKeeps(c, q[i := q[i].(checked := true)], i + 1);
      SparesThen(q, q[i := q[i].(checked := true)], r);
    }
  }

  lemma SparesSelf(q: seq<Entry>)
    ensures Spares(q, q)
  {
  }

  lemma {:induction false} CheckWritesSilent(c: Config, q: seq<Entry>, i: nat)
    requires i <= |q| && Silent(q)
    ensures Silent(CheckWrites(c, q, i))
    decreases |q| - i
  {
    if i < |q| {
      if !Unchecked(q[i]) {
        CheckWritesSilent(c, q, i + 1);
      } else if Other(c, q, i) < |q| {
        CheckWritesSilent(c, q[i := EMPTY], i + 1);
      } else {
        CheckWritesSilent(c, q[i := q[i].(checked := true)], i + 1);
      }
    }
  }

  /** The blocks with a write in some slot. */
  ghost function Pended(c: Config, q: seq<Entry>): set<int> {
    set i | 0 <= i < |q| && q[i].address != 0 :: BlockOf(c, q[i].address)
  }

  lemma PendedDrop(c: Config, q: seq<Entry>, i: nat)
    requires i < |q| && Other(c, q, i) < |q|
    ensures Pended(c, q[i := EMPTY]) == Pended(c, q)
  {
    var k, r := Other(c, q, i), q[i := EMPTY];
    forall x | x in Pended(c, q) ensures x in Pended(c, r) {
      var j :| 0 <= j < |q| && q[j].address != 0 && BlockOf(c, q[j].address) == x;
      var n := if j == i then k else j;
      assert r[n].address != 0 && BlockOf(c, r[n].address) == x;
    }
  }

  lemma PendedCheck(c: Config, q: seq<Entry>, i: nat)
    requires i < |q|
    ensures Pended(c, q[i := q[i].(checked := true)]) == Pended(c, q)
  {
    var r := q[i := q[i].(checked := true)];
    assert forall j :: 0 <= j < |q| ==> r[j].address == q[j].address;
  }

  /** Dropping duplicate writes leaves a write for every block that had one. */
  lemma {:induction false} CheckWritesPended(c: Config, q: seq<Entry>, i: nat)
    requires i <= |q|
    ensures Pended(c, CheckWrites(c, q, i)) == Pended(c, q)
    decreases |q| - i
  {
    hide Pended;
    if i == |q| {
    } else if !Unchecked(q[i]) {
      CheckWritesPended(c, q, i + 1);
    } else if Other(c, q, i) < |q| {
      PendedDrop(c, q, i);
      CheckWritesPended(c, q[i := EMPTY], i + 1);
    } else {
      PendedCheck(c, q, i);
      CheckWritesPended(c, q[i := q[i].(checked := true)], i + 1);
    }
  }

  lemma {:induction false} CheckReadsKeeps(c: Config, wq: seq<Entry>, q: seq<Entry>, i: nat)
    requires CheckedTo(c, q, i)
    ensures var r := CheckReads(c, wq, q, i).0; CheckedTo(c, r, |q|) && Spares(q, r)
    decreases |q| - i
  {
    hide Spares;
    var r := CheckReads(c, wq, q, i).0;
    if i == |q| {
      SparesSelf(q);
    } else if !Unchecked(q[i]) {
      CheckReadsKeeps(c, wq, q, i + 1);
    } else if FindEntry(c, wq, q[i].address) < |wq| {
      DropOne(c, q, i);
      CheckReadsKeeps(c, wq, q[i := EMPTY], i + 1);
      SparesThen(q, q[i := EMPTY], r);
    } else if Other(c, q, i) < |q| {
      var next := Join(q, i, Other(c, q, i));
      JoinOne(c, q, i, Other(c, q, i));
      CheckReadsKeeps(c, wq, next, i + 1);
      SparesThen(q, next, r);
    } else {
      KeepOne(c, q, i);
      CheckReadsKeeps(c, wq, q[i := q[i].(checked := true)], i + 1);
      SparesThen(q, q[i := q[i].(checked := true)], r);
    }
  }

  lemma SparedOwned(c: Config, banks: seq<BankRequest>, q: seq<Entry>, r: seq<Entry>, write: bool)
    requires AllOwned(c, banks, q, write) && Spares(q, r)
    ensures AllOwned(c, banks, r, write)
  {
  }

  lemma SparedBanks(c: Config, s: State, t: State)
    requires BanksOwn(c, s) && t == s.(rq := t.rq, wq := t.wq) && Spares(s.rq, t.rq) && Spares(s.wq, t.wq)
    ensures BanksOwn(c, t)
  {
    forall b | 0 <= b < |t.banks| && t.banks[b].valid ensures BankOwns(c, t, b) {
      assert BankOwns(c, s, b);
      var slot := s.banks[b].slot;
      assert EntryAt(s, slot).scheduled;
    }
  }

  /** Afterwards all blocks of a queue are distinct, and no scheduled packet was cleared. */
  lemma CollideKeeps(c: Config, s: State)
    requires Inv(c, s)
    ensures var t := CheckCollision(c, s).0;
            Inv(c, t) && Checked(t) && Spares(s.rq, t.rq) && Spares(s.wq, t.wq) && (Drained(s) ==> Drained(t))
  {
    var t := CheckCollision(c, s).0;
    CheckWritesKeeps(c, s.wq, 0);
    CheckWritesSilent(c, s.wq, 0);
    CheckReadsKeeps(c, t.wq, s.rq, 0);
    SparedOwned(c, s.banks, s.rq, t.rq, false);
    SparedOwned(c, s.banks, s.wq, t.wq, true);
    SparedBanks(c, s, t);
    assert Drained(s) ==> Drained(t);
    hide Spares;
    hide CheckWrites;
    hide CheckReads;
  }

  // ---------------------------------------------------------------- warm-up and completion

  lemma WarmupKeeps(c: Config, s: State)
    requires Inv(c, s)
    ensures Inv(c, WarmupDrain(c, s).0) && Drained(WarmupDrain(c, s).0)
  {
  }

  lemma SlotsInside(c: Config, s: State)
    requires BanksOwn(c, s) && Mode(s)
    ensures SlotsInQueues(s)
    ensures BusDone(s) ==> InQueue(s, s.banks[s.active].slot)
  {
    forall b | 0 <= b < |s.banks| && s.banks[b].valid ensures InQueue(s, s.banks[b].slot) {
      assert BankOwns(c, s, b);
    }
  }

  /** Different banks own different packets. */
  lemma BanksApart(c: Config, s: State, a: nat, b: nat)
    requires BanksOwn(c, s) && a < |s.banks| && b < |s.banks| && s.banks[a].valid && s.banks[b].valid
    ensures a != b ==> s.banks[a].slot != s.banks[b].slot
  {
    assert BankOwns(c, s, a) && BankOwns(c, s, b);
  }

  /** The state with bank `a` freed, its packet replaced by an unscheduled `e`, and row `row`. */
  function Freed(s: State, a: nat, e: Entry, row: nat): State
    requires a < |s.banks| && InQueue(s, s.banks[a].slot)
  {
    Put(s, s.banks[a].slot, e).(banks := s.banks[a := s.banks[a].(valid := false, openRow := row)])
  }

  lemma FreedBanks(c: Config, s: State, a: nat, e: Entry, row: nat)
    requires BanksOwn(c, s) && a < |s.banks| && s.banks[a].valid
    ensures InQueue(s, s.banks[a].slot) && BanksOwn(c, Freed(s, a, e, row))
  {
    assert BankOwns(c, s, a);
    var t := Freed(s, a, e, row);
    forall b | 0 <= b < |t.banks| && t.banks[b].valid ensures BankOwns(c, t, b) {
      assert BankOwns(c, s, b);
      BanksApart(c, s, a, b);
      hide BankIndex;
    }
  }

  lemma FreedOwned(c: Config, s: State, a: nat, e: Entry, row: nat, write: bool)
    requires BanksOwn(c, s) && a < |s.banks| && s.banks[a].valid && InQueue(s, s.banks[a].slot)
    requires AllOwned(c, s.banks, Queue(s, write), write) && !e.scheduled
    ensures AllOwned(c, Freed(s, a, e, row).banks, Queue(Freed(s, a, e, row), write), write)
  {
    assert BankOwns(c, s, a);
    var t := Freed(s, a, e, row);
    var q := Queue(t, write);
    forall i | 0 <= i < |q| && q[i].scheduled ensures Owned(c, t.banks, q[i], Slot(write, i)) {
      assert Owned(c, s.banks, Queue(s, write)[i], Slot(write, i));
    }
  }

  lemma PutQueue(c: Config, q: seq<Entry>, i: nat, e: Entry)
    requires i < |q| && FreeIsEmpty(q) && CheckedApart(c, q)
    requires e == EMPTY || (e.address == q[i].address && e.checked == q[i].checked && e.address != 0)
    ensures FreeIsEmpty(q[i := e]) && CheckedApart(c, q[i := e])
    ensures AllChecked(q) ==> AllChecked(q[i := e])
    ensures Silent(q) && e.toReturn <= q[i].toReturn ==> Silent(q[i := e])
  {
  }

  /** Freeing a bank keeps everything but the mode, whose condition is the caller's. */
  lemma FreedKeeps(c: Config, s: State, a: nat, e: Entry, row: nat)
    requires Inv(c, s) && a < |s.banks| && s.banks[a].valid && !e.scheduled
    requires InQueue(s, s.banks[a].slot)
    requires var f := EntryAt(s, s.banks[a].slot);
             e == EMPTY || (e.address == f.address && e.checked == f.checked && e.toReturn == f.toReturn)
    ensures var t := Freed(s, a, e, row);
            && Shape(c, t) && Cold(t) && BanksOwn(c, t)
            && QueueInv(c, t.banks, t.rq, false) && QueueInv(c, t.banks, t.wq, true) && Silent(t.wq)
            && (Checked(s) ==> Checked(t))
  {
    var slot := s.banks[a].slot;
    var t := Freed(s, a, e, row);
    assert BankOwns(c, s, a);
    FreedBanks(c, s, a, e, row);
    FreedOwned(c, s, a, e, row, false);
    FreedOwned(c, s, a, e, row, true);
    PutQueue(c, Queue(s, slot.write), slot.index, e);
    hide BanksOwn;
    hide AllOwned;
    hide CheckedApart;
    hide FreeIsEmpty;
    hide AllChecked;
    hide Silent;
  }

  lemma FinishKeeps(c: Config, s: State)
    requires Inv(c, s) && Checked(s) && Drained(s)
    ensures BusDone(s) ==> InQueue(s, s.banks[s.active].slot)
    ensures var t := Finish(c, s).0;
            && Inv(c, t) && Checked(t) && Drained(t)
            && (!Idle(t) ==> t.banks[t.active].eventCycle > t.cycle)
  {
    SlotsInside(c, s);
    if BusDone(s) {
      FreedKeeps(c, s, s.active, EMPTY, s.banks[s.active].openRow);
    }
  }

  // ---------------------------------------------------------------- mode flips

  lemma ResetKeeps(c: Config, s: State, i: nat)
    requires Inv(c, s) && Checked(s) && i < |s.banks| && Resets(s, i)
    ensures InQueue(s, s.banks[i].slot)
    ensures Inv(c, ResetBank(c, s, i)) && Checked(ResetBank(c, s, i))
  {
    assert BankOwns(c, s, i);
    var b := s.banks[i];
    var e := EntryAt(s, b.slot).(scheduled := false, eventCycle := Some(s.cycle));
    FreedKeeps(c, s, i, e, if b.eventCycle < s.cycle + c.tCAS then NO_ROW else b.openRow);
    hide BanksOwn;
    hide QueueInv;
    hide Checked;
  }

  /** What a reset leaves alone. */
  ghost predicate SameBus(s: State, t: State) {
    && |t.banks| == |s.banks| && t.active == s.active && (!Idle(s) ==> t.banks[s.active] == s.banks[s.active])
    && t.cycle == s.cycle && t.warmup == s.warmup && t.writeMode == s.writeMode && t.congestion == s.congestion
  }

  /** After the resets only the request on the bus is left. */
  lemma {:induction false} ResetBanksKeeps(c: Config, s: State, i: nat)
    requires Inv(c, s) && Checked(s) && Drained(s) && i <= |s.banks| && SlotsInQueues(s)
    requires forall b :: 0 <= b < i && b != s.active ==> !s.banks[b].valid
    ensures var t := ResetBanks(c, s, i);
            && Inv(c, t) && Checked(t) && Drained(t) && SameBus(s, t)
            && forall b :: 0 <= b < |t.banks| && b != t.active ==> !t.banks[b].valid
    decreases |s.banks| - i
  {
    if i < |s.banks| {
      if Resets(s, i) {
        ResetKeeps(c, s, i);
        var t := ResetBank(c, s, i);
        SlotsInside(c, t);
        hide Inv;
        ResetBanksKeeps(c, t, i + 1);
      } else {
        ResetBanksKeeps(c, s, i + 1);
      }
    }
  }

  /** The modes change hands; the request on the bus stays, and keeps its cycle. */
  lemma FlipKeeps(c: Config, s: State)
    requires Inv(c, s) && Checked(s) && Drained(s)
    ensures SlotsInQueues(s)
    ensures var t := Flip(c, s);
            && Inv(c, t) && Checked(t) && Drained(t) && SameBus(s, t.(writeMode := s.writeMode))
            && (t.writeMode != s.writeMode ==> forall b :: 0 <= b < |t.banks| && b != t.active ==> !t.banks[b].valid)
  {
    SlotsInside(c, s);
    if Unbalanced(c, s) {
      ResetBanksKeeps(c, s, 0);
      hide QueueInv;
      hide BanksOwn;
      hide ResetBanks;
    }
  }

  // ---------------------------------------------------------------- the two searches

  /** Despite its comparator, the scan finds the first earliest valid request whenever there is one. */
  lemma {:induction false} NextBankEarliest(banks: seq<BankRequest>, n: nat)
    requires 0 < n <= |banks|
    ensures var k := NextBank(banks, n);
            forall b :: 0 <= b < n && banks[b].valid ==>
              && banks[k].valid && banks[k].eventCycle <= banks[b].eventCycle
              && (b < k ==> banks[k].eventCycle < banks[b].eventCycle)
    ensures (forall b :: 0 <= b < n ==> !banks[b].valid) ==> NextBank(banks, n) == n - 1
  {
    if n > 1 {
      NextBankEarliest(banks, n - 1);
    }
  }

  /** Despite its comparator, the scan finds the first earliest pending packet whenever there is one. */
  lemma {:induction false} NextEntryEarliest(q: seq<Entry>, n: nat)
    requires 0 < n <= |q|
    ensures var k := NextEntry(q, n);
            forall i :: 0 <= i < n && Pending(q[i]) ==>
              && Pending(q[k]) && !Earlier(q[i].eventCycle, q[k].eventCycle)
              && (i < k ==> Earlier(q[k].eventCycle, q[i].eventCycle))
    ensures (forall i :: 0 <= i < n ==> !Pending(q[i])) ==> NextEntry(q, n) == n - 1
  {
    if n > 1 {
      NextEntryEarliest(q, n - 1);
    }
  }

  // ---------------------------------------------------------------- the bus

  /** The bus is granted only when idle, to the earliest request; waiting always costs at least one cycle. */
  lemma GrantKeeps(c: Config, s: State)
    requires Inv(c, s) && Checked(s) && Drained(s) && |s.banks| > 0
    requires !Idle(s) ==> s.banks[s.active].eventCycle > s.cycle
    ensures var t := Grant(c, s);
            && Inv(c, t) && Checked(t) && Drained(t)
            && t.congestion >= s.congestion
            && (!Idle(s) ==> t.active == s.active && t.banks == s.banks)
  {
    GrantDelays(c, s);
    BanksOnlyDelayed(c, s, Grant(c, s));
    hide BanksOwn;
    hide QueueInv;
    hide NextBank;
    hide AllChecked;
  }

  lemma GrantDelays(c: Config, s: State)
    requires |s.banks| > 0
    ensures var t := Grant(c, s);
            && t.rq == s.rq && t.wq == s.wq
            && forall b :: 0 <= b < |s.banks| ==> t.banks[b] == s.banks[b].(eventCycle := t.banks[b].eventCycle)
  {
    hide NextBank;
  }

  lemma BanksOnlyDelayed(c: Config, s: State, t: State)
    requires |t.banks| == |s.banks| && t.rq == s.rq && t.wq == s.wq
    requires forall b :: 0 <= b < |s.banks| ==> t.banks[b] == s.banks[b].(eventCycle := t.banks[b].eventCycle)
    requires BanksOwn(c, s) && QueueInv(c, s.banks, s.rq, false) && QueueInv(c, s.banks, s.wq, true)
    ensures BanksOwn(c, t) && QueueInv(c, t.banks, t.rq, false) && QueueInv(c, t.banks, t.wq, true)
  {
    forall b | 0 <= b < |t.banks| && t.banks[b].valid ensures BankOwns(c, t, b) {
      assert BankOwns(c, s, b);
    }
    OwnedOnlyDelayed(c, s.banks, t.banks, s.rq, false);
    OwnedOnlyDelayed(c, s.banks, t.banks, s.wq, true);
  }

  lemma OwnedOnlyDelayed(c: Config, x: seq<BankRequest>, y: seq<BankRequest>, q: seq<Entry>, write: bool)
    requires |x| == |y| && forall b :: 0 <= b < |x| ==> y[b] == x[b].(eventCycle := y[b].eventCycle)
    requires AllOwned(c, x, q, write)
    ensures AllOwned(c, y, q, write)
  {
    forall i | 0 <= i < |q| && q[i].scheduled ensures Owned(c, y, q[i], Slot(write, i)) {
      assert Owned(c, x, q[i], Slot(write, i));
    }
  }

  // ---------------------------------------------------------------- scheduling

  /** Packet `i` of the queue `write` goes to its free bank. */
  function Assigned(c: Config, s: State, write: bool, i: nat, r: BankRequest): State
    requires i < |Queue(s, write)| && BankIndex(c, Queue(s, write)[i].address) < |s.banks|
  {
    var e := Queue(s, write)[i];
    Put(s, Slot(write, i), e.(scheduled := true, eventCycle := None)).(banks := s.banks[BankIndex(c, e.address) := r])
  }

  lemma AssignedBanks(c: Config, s: State, write: bool, i: nat, r: BankRequest)
    requires i < |Queue(s, write)| && BankIndex(c, Queue(s, write)[i].address) < |s.banks|
    requires BanksOwn(c, s) && Pending(Queue(s, write)[i]) && r.slot == Slot(write, i)
    ensures BanksOwn(c, Assigned(c, s, write, i, r))
  {
    var t := Assigned(c, s, write, i, r);
    var n := BankIndex(c, Queue(s, write)[i].address);
    forall b | 0 <= b < |t.banks| && t.banks[b].valid ensures BankOwns(c, t, b) {
      if b != n {
        assert BankOwns(c, s, b);
        assert s.banks[b].slot != Slot(write, i);
      }
    }
  }

  lemma AssignedOwned(c: Config, s: State, write: bool, i: nat, r: BankRequest, w: bool)
    requires i < |Queue(s, write)| && BankIndex(c, Queue(s, write)[i].address) < |s.banks|
    requires Pending(Queue(s, write)[i]) && Queue(s, write)[i].checked
    requires r.valid && r.slot == Slot(write, i) && !s.banks[BankIndex(c, Queue(s, write)[i].address)].valid
    requires AllOwned(c, s.banks, Queue(s, w), w)
    ensures var t := Assigned(c, s, write, i, r); AllOwned(c, t.banks, Queue(t, w), w)
  {
    var t := Assigned(c, s, write, i, r);
    var q := Queue(t, w);
    forall j | 0 <= j < |q| && q[j].scheduled ensures Owned(c, t.banks, q[j], Slot(w, j)) {
      if w != write || j != i {
        assert Owned(c, s.banks, Queue(s, w)[j], Slot(w, j));
      }
    }
  }

  lemma ScheduleKeeps(c: Config, s: State)
    requires Inv(c, s) && Checked(s) && Drained(s)
    ensures |Queue(s, s.writeMode)| > 0
    ensures Inv(c, Schedule(c, s))
  {
    var q := Queue(s, s.writeMode);
    var k := NextEntry(q, |q|);
    var e := q[k];
    var b := BankIndex(c, e.address);
    if e.address != 0 && e.eventCycle.Some? && e.eventCycle.value <= s.cycle && !s.banks[b].valid {
      var t := Schedule(c, s);
      var r := t.banks[b];
      assert t == Assigned(c, s, s.writeMode, k, r);
      assert !e.scheduled by {
        assert e.scheduled ==> Owned(c, s.banks, e, Slot(s.writeMode, k));
      }
      AssignedBanks(c, s, s.writeMode, k, r);
      AssignedOwned(c, s, s.writeMode, k, r, false);
      AssignedOwned(c, s, s.writeMode, k, r, true);
      PutQueue(c, q, k, e.(scheduled := true, eventCycle := None));
      hide BanksOwn;
      hide AllOwned;
      hide FreeIsEmpty;
      hide CheckedApart;
      hide Silent;
    }
  }
}
