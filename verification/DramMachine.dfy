/** The channel as the simulator runs it: fixed arrays changed in place by scanning loops. */
module DramMachine {
  import opened DramModel
  import opened DramProofs
  import opened DramTheorems
  import opened Waiters
  import opened Wrappers

  method SearchFree(a: array<Entry>) returns (k: nat)
    ensures k == FirstFree(a[..])
  {
    k := 0;
    assert a[0..] == a[..];
    while k < a.Length && a[k].address != 0
      invariant k <= a.Length
      invariant FirstFree(a[..]) == k + FirstFree(a[k..])
    {
      assert a[k..][1..] == a[k + 1..];
      k := k + 1;
    }
  }

  /** `std::find_if` over a part of a queue. */
  method SearchBlock(c: Config, a: array<Entry>, lo: nat, hi: nat, address: nat) returns (k: nat)
    requires lo <= hi <= a.Length
    ensures k == lo + FindEntry(c, a[lo..hi], address)
  {
    k := lo;
    while k < hi && !SameBlock(c, a[k], address)
      invariant lo <= k <= hi
      invariant FindEntry(c, a[lo..hi], address) == k - lo + FindEntry(c, a[k..hi], address)
    {
      assert a[k..hi][1..] == a[k + 1..hi];
      k := k + 1;
    }
  }

  /** Forward check, then backward check. */
  method SearchOther(c: Config, a: array<Entry>, i: nat) returns (k: nat)
    requires i < a.Length
    ensures k == Other(c, a[..], i)
  {
    assert a[..][..i] == a[0..i] && a[..][i + 1..] == a[i + 1..a.Length];
    k := SearchBlock(c, a, 0, i, a[i].address);
    if k == i {
      k := SearchBlock(c, a, i + 1, a.Length, a[i].address);
    }
  }

  method CollideWrites(c: Config, wq: array<Entry>)
    modifies wq
    ensures wq[..] == CheckWrites(c, old(wq[..]), 0)
  {
    var i := 0;
    while i < wq.Length
      invariant i <= wq.Length
      invariant CheckWrites(c, wq[..], i) == CheckWrites(c, old(wq[..]), 0)
    {
      ghost var q := wq[..];
      if Unchecked(wq[i]) {
        var k := SearchOther(c, wq, i);
        if k < wq.Length {
          wq[i] := EMPTY;
          assert wq[..] == q[i := EMPTY];
        } else {
          wq[i] := wq[i].(checked := true);
          assert wq[..] == q[i := q[i].(checked := true)];
        }
      }
      i := i + 1;
    }
  }

  method CollideReads(c: Config, wq: array<Entry>, rq: array<Entry>) returns (answered: multiset<Debt>)
    requires wq != rq
    modifies rq
    ensures rq[..] == CheckReads(c, wq[..], old(rq[..]), 0).0
    ensures answered == CheckReads(c, wq[..], old(rq[..]), 0).1
  {
    answered := multiset{};
    var i := 0;
    while i < rq.Length
      invariant i <= rq.Length && wq[..] == old(wq[..])
      invariant CheckReads(c, wq[..], rq[..], i).0 == CheckReads(c, wq[..], old(rq[..]), 0).0
      invariant answered + CheckReads(c, wq[..], rq[..], i).1 == CheckReads(c, wq[..], old(rq[..]), 0).1
    {
      ghost var q := rq[..];
      if Unchecked(rq[i]) {
        assert wq[0..wq.Length] == wq[..];
        var f := SearchBlock(c, wq, 0, wq.Length, rq[i].address);
        var k := SearchOther(c, rq, i);
        if f < wq.Length {
          answered := answered + Debts(c, rq[i]);
          rq[i] := EMPTY;
          assert rq[..] == q[i := EMPTY];
        } else if k < rq.Length {
          rq[k] := rq[k].(toReturn := rq[k].toReturn + rq[i].toReturn);
          rq[i] := EMPTY;
          assert rq[..] == Join(q, i, k);
        } else {
          rq[i] := rq[i].(checked := true);
          assert rq[..] == q[i := q[i].(checked := true)];
        }
      }
      i := i + 1;
    }
    assert answered + multiset{} == answered;
  }

  method CountOccupied(a: array<Entry>) returns (n: nat)
    ensures n == Occupied(a[..])
  {
    n := 0;
    var i := 0;
    assert a[0..] == a[..];
    while i < a.Length
      invariant i <= a.Length
      invariant Occupied(a[..]) == n + Occupied(a[i..])
    {
      assert a[i..][1..] == a[i + 1..];
      n, i := if a[i].address != 0 then n + 1 else n, i + 1;
    }
  }

  /** `std::min_element` over the bank requests. */
  method SearchBank(banks: array<BankRequest>) returns (k: nat)
    requires banks.Length > 0
    ensures k == NextBank(banks[..], banks.Length) && k < banks.Length
  {
    k := 0;
    var i := 1;
    while i < banks.Length
      invariant k < i <= banks.Length && k == NextBank(banks[..], i)
    {
      if BankBefore(banks[i], banks[k]) {
        k := i;
      }
      i := i + 1;
    }
  }

  method SearchPending(a: array<Entry>) returns (k: nat)
    requires a.Length > 0
    ensures k == NextEntry(a[..], a.Length) && k < a.Length
  {
    k := 0;
    var i := 1;
    while i < a.Length
      invariant k < i <= a.Length && k == NextEntry(a[..], i)
    {
      if EntryBefore(a[i], a[k]) {
        k := i;
      }
      i := i + 1;
    }
  }

  class DramChannel {
    const config: Config
    const rq: array<Entry>
    const wq: array<Entry>
    const bankRequest: array<BankRequest>
    var active: nat
    var writeMode: bool
    var busFree: nat
    var currentCycle: nat
    var warmup: bool
    var congestion: int

    ghost function View(): State
      reads this, rq, wq, bankRequest
    {
      State(rq[..], wq[..], bankRequest[..], active, writeMode, busFree, currentCycle, warmup, congestion)
    }

    ghost predicate Valid()
      reads this, rq, wq, bankRequest
    {
      rq != wq && Inv(config, View())
    }

    constructor (c: Config)
      ensures Valid() && config == c && Initial(c, View())
    {
      config := c;
      rq := new Entry[c.rqSize](_ => EMPTY);
      wq := new Entry[c.wqSize](_ => EMPTY);
      bankRequest := new BankRequest[c.ranks * c.banks](_ => BankRequest(false, false, NO_ROW, 0, Slot(false, 0)));
      active := c.ranks * c.banks;
      writeMode, busFree, currentCycle, warmup, congestion := false, 0, 0, true, 0;
      new;
      InitialInv(c, View());
    }

    method AddRq(e: Entry) returns (ok: bool)
      requires Valid() && Enabled(View(), OfferRead(e))
      modifies rq
      ensures (View(), ok) == Add(old(View()), false, e) && Valid()
    {
      AddKeeps(config, View(), false, e);
      hide Inv;
      ghost var q := rq[..];
      var k := SearchFree(rq);
      if k < rq.Length {
        rq[k] := e.(checked := false, eventCycle := Some(currentCycle));
        assert rq[..] == q[k := e.(checked := false, eventCycle := Some(currentCycle))];
        return true;
      }
      return false;
    }

    method AddWq(e: Entry) returns (ok: bool)
      requires Valid() && Enabled(View(), OfferWrite(e))
      modifies wq
      ensures (View(), ok) == Add(old(View()), true, e) && Valid()
    {
      AddKeeps(config, View(), true, e);
      hide Inv;
      ghost var q := wq[..];
      var k := SearchFree(wq);
      if k < wq.Length {
        wq[k] := e.(checked := false, eventCycle := Some(currentCycle));
        assert wq[..] == q[k := e.(checked := false, eventCycle := Some(currentCycle))];
        return true;
      }
      return false;
    }

    /** During warm-up every read is answered at once and every write dropped. */
    method DrainForWarmup() returns (answered: multiset<Debt>)
      requires rq != wq
      modifies rq, wq
      ensures rq[..] == Cleared(old(rq[..])) && wq[..] == Cleared(old(wq[..]))
      ensures answered == Total(old(rq[..]), EntryDebts(config))
    {
      answered := multiset{};
      assert rq[0..] == rq[..];
      for i := 0 to rq.Length
        invariant forall j :: 0 <= j < i ==> rq[j] == EMPTY
        invariant rq[i..] == old(rq[..])[i..] && wq[..] == old(wq[..])
        invariant answered + Total(rq[i..], EntryDebts(config)) == Total(old(rq[..]), EntryDebts(config))
      {
        assert rq[i..][1..] == rq[i + 1..];
        answered := answered + Debts(config, rq[i]);
        rq[i] := EMPTY;
      }
      assert answered + multiset{} == answered;
      for i := 0 to wq.Length
        invariant forall j :: 0 <= j < i ==> wq[j] == EMPTY
        invariant forall j :: 0 <= j < rq.Length ==> rq[j] == EMPTY
      {
        wq[i] := EMPTY;
      }
    }

    /** Warm-up drain, then collision checks. */
    method Collide() returns (answered: multiset<Debt>)
      requires rq != wq
      modifies rq, wq
      ensures (View(), answered) == AfterCollisions(config, old(View()))
    {
      answered := multiset{};
      if warmup {
        answered := DrainForWarmup();
      }
      CollideWrites(config, wq);
      var forwarded := CollideReads(config, wq, rq);
      answered := answered + forwarded;
    }

    /** Change the packet behind a bank request through its iterator. */
    method Write(slot: Slot, e: Entry)
      requires rq != wq && InQueue(View(), slot)
      modifies rq, wq
      ensures View() == Put(old(View()), slot, e)
    {
      if slot.write {
        wq[slot.index] := e;
        assert wq[..] == old(wq[..])[slot.index := e];
      } else {
        rq[slot.index] := e;
        assert rq[..] == old(rq[..])[slot.index := e];
      }
    }

    method Read(slot: Slot) returns (e: Entry)
      requires InQueue(View(), slot)
      ensures e == EntryAt(View(), slot)
    {
      if slot.write {
        e := wq[slot.index];
      } else {
        e := rq[slot.index];
      }
    }

    method FinishRequest() returns (answered: multiset<Debt>)
      requires rq != wq && (BusDone(View()) ==> InQueue(View(), bankRequest[active].slot))
      modifies this, rq, wq, bankRequest
      ensures (View(), answered) == Finish(config, old(View()))
    {
      answered := multiset{};
      if active < bankRequest.Length && bankRequest[active].eventCycle <= currentCycle {
        var b := bankRequest[active];
        var e := Read(b.slot);
        answered := Debts(config, e);
        bankRequest[active] := b.(valid := false);
        assert bankRequest[..] == old(bankRequest[..])[active := b.(valid := false)];
        Write(b.slot, EMPTY);
        active := bankRequest.Length;
      }
    }

    method FlipMode()
      requires rq != wq && SlotsInQueues(View())
      modifies this, rq, wq, bankRequest
      ensures View() == Flip(config, old(View()))
    {
      var writes := CountOccupied(wq);
      var readsLeft := CountOccupied(rq);
      if (!writeMode && (writes >= config.wqSize * 7 / 8 || (readsLeft == 0 && writes > 0)))
         || (writeMode && (writes == 0 || (readsLeft > 0 && writes < config.wqSize * 6 / 8))) {
        ResetRequests();
        if active < bankRequest.Length {
          busFree := bankRequest[active].eventCycle + config.turnAround;
        } else {
          busFree := currentCycle + config.turnAround;
        }
        writeMode := !writeMode;
      }
    }

    /** Every request that is not on the bus gives its packet back. */
    method ResetRequests()
      requires rq != wq && SlotsInQueues(View())
      modifies rq, wq, bankRequest
      ensures View() == ResetBanks(config, old(View()), 0)
    {
      var i := 0;
      while i < bankRequest.Length
        invariant i <= bankRequest.Length && SlotsInQueues(View())
        invariant ResetBanks(config, View(), i) == ResetBanks(config, old(View()), 0)
      {
        ghost var s := View();
        if i != active && bankRequest[i].valid {
          var b := bankRequest[i];
          var e := Read(b.slot);
          var row := if b.eventCycle < currentCycle + config.tCAS then NO_ROW else b.openRow;
          bankRequest[i] := b.(valid := false, openRow := row);
          assert bankRequest[..] == s.banks[i := b.(valid := false, openRow := row)];
          Write(b.slot, e.(scheduled := false, eventCycle := Some(currentCycle)));
          assert View() == ResetBank(config, s, i);
        }
        i := i + 1;
      }
    }

    method GrantBus()
      requires bankRequest.Length > 0
      modifies this, bankRequest
      ensures View() == Grant(config, old(View()))
    {
      var k := SearchBank(bankRequest);
      if bankRequest[k].valid && bankRequest[k].eventCycle <= currentCycle {
        if active >= bankRequest.Length && busFree <= currentCycle {
          active := k;
          bankRequest[k] := bankRequest[k].(eventCycle := currentCycle + config.returnTime);
          assert bankRequest[..] == old(bankRequest[..])[k := bankRequest[k]];
        } else if active < bankRequest.Length {
          congestion := congestion + (bankRequest[active].eventCycle - currentCycle);
        } else {
          congestion := congestion + (busFree - currentCycle);
        }
      }
    }

    method ScheduleNext()
      requires rq != wq && |Queue(View(), writeMode)| > 0 && bankRequest.Length == config.ranks * config.banks
      modifies rq, wq, bankRequest
      ensures View() == Schedule(config, old(View()))
    {
      var k;
      if writeMode {
        k := SearchPending(wq);
      } else {
        k := SearchPending(rq);
      }
      var slot := Slot(writeMode, k);
      var e := Read(slot);
      if e.address != 0 && e.eventCycle.Some? && e.eventCycle.value <= currentCycle {
        var b := BankIndex(config, e.address);
        if !bankRequest[b].valid {
          var row := RowOf(config, e.address);
          var hit := bankRequest[b].openRow == row;
          var ready := currentCycle + config.tCAS + if hit then 0 else config.tRP + config.tRCD;
          bankRequest[b] := BankRequest(true, hit, row, ready, slot);
          assert bankRequest[..] == old(bankRequest[..])[b := BankRequest(true, hit, row, ready, slot)];
          Write(slot, e.(scheduled := true, eventCycle := None));
        }
      }
    }

    /** One cycle of work; what holds on every run holds after it. */
    method OperateCycle() returns (answered: multiset<Debt>)
      requires Valid()
      modifies this, rq, wq, bankRequest
      ensures (View(), answered) == Operate(config, old(View())) && Valid()
    {
      ghost var s := View();
      OperateKeeps(config, s);
      AfterCollisionsKeeps(config, s);
      FinishKeeps(config, AfterCollisions(config, s).0);
      FlipKeeps(config, AfterFinish(config, AfterCollisions(config, s).0).0);
      answered := Collide();
      var finished := FinishRequest();
      answered := answered + finished;
      FlipMode();
      BanksExist(config, View());
      GrantKeeps(config, View());
      GrantBus();
      ScheduleKeeps(config, View());
      ScheduleNext();
    }

    method Advance(warm: bool)
      requires Valid() && (warm ==> warmup)
      modifies this
      ensures View() == Apply(config, old(View()), Tick(warm)).state && Valid()
    {
      ApplyKeeps(config, View(), Tick(warm));
      hide Inv;
      currentCycle, warmup := currentCycle + 1, warm;
    }
  }
}
