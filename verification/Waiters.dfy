/** Who waits for which block, and what it means to lose nobody. */
module Waiters {

  /** Whoever waits for data: an upper cache, a page table walker, or a core's bus. */
  type Waiter = nat

  /** A waiter together with the block it waits for. */
  type Debt = (Waiter, nat)

  function DebtsOf(waiters: set<Waiter>, block: nat): multiset<Debt> {
    multiset(set w | w in waiters :: (w, block))
  }

  /** Merging may settle equal debts together, but invents none and forgets none. */
  ghost predicate Settles(before: multiset<Debt>, after: multiset<Debt>) {
    after <= before && forall d :: d in before ==> d in after
  }

  lemma SettlesRefl(a: multiset<Debt>)
    ensures Settles(a, a)
  {
  }

  lemma SettlesThen(a: multiset<Debt>, b: multiset<Debt>, d: multiset<Debt>)
    requires Settles(a, b) && Settles(b, d)
    ensures Settles(a, d)
  {
  }

  lemma SettlesPlus(a: multiset<Debt>, b: multiset<Debt>, x: multiset<Debt>)
    requires Settles(a, b)
    ensures Settles(a + x, b + x)
  {
    forall d: Debt ensures (b + x)[d] <= (a + x)[d] {
    }
  }

  /** Two settlements in a row. */
  lemma Chain(w: multiset<Debt>, a1: multiset<Debt>, w1: multiset<Debt>, b1: multiset<Debt>,
              a2: multiset<Debt>, w2: multiset<Debt>, b2: multiset<Debt>)
    requires Settles(w + a1, w1 + b1) && Settles(w1 + a2, w2 + b2)
    ensures Settles(w + (a1 + a2), w2 + (b1 + b2))
  {
    SettlesPlus(w + a1, w1 + b1, a2);
    SettlesPlus(w1 + a2, w2 + b2, b1);
    assert w + a1 + a2 == w + (a1 + a2);
    assert w1 + b1 + a2 == w1 + a2 + b1;
    assert w2 + b2 + b1 == w2 + (b1 + b2);
  }

  lemma Cancel(after: multiset<Debt>, q: multiset<Debt>, before: multiset<Debt>, x: multiset<Debt>)
    requires after + q == before + (q + x)
    ensures after == before + x
  {
    forall d: Debt ensures after[d] == (before + x)[d] {
      assert (after + q)[d] == (before + (q + x))[d];
    }
  }

  /** Trading two groups of debts for a group that settles them. */
  lemma Trade(before: multiset<Debt>, after: multiset<Debt>, rest: multiset<Debt>,
              x: multiset<Debt>, y: multiset<Debt>, m: multiset<Debt>)
    requires before == rest + y + x
    requires after + x + y == before + m
    requires Settles(y + x, m)
    ensures Settles(before, after)
  {
    forall d: Debt ensures after[d] == rest[d] + m[d] {
      assert (after + x + y)[d] == (before + m)[d];
    }
  }

  /** Debts to the same block under the union of two waiter sets. */
  lemma DebtsUnion(a: set<Waiter>, b: set<Waiter>, block: nat)
    ensures Settles(DebtsOf(a, block) + DebtsOf(b, block), DebtsOf(a + b, block))
  {
    var x, y, u := DebtsOf(a, block), DebtsOf(b, block), DebtsOf(a + b, block);
    forall d: Debt
      ensures u[d] <= x[d] + y[d]
      ensures d in x + y ==> d in u
    {
    }
  }

  // ---------------------------------------------------------------- totals

  /** All debts of a sequence, with multiplicity. */
  function Total<T>(q: seq<T>, debts: T -> multiset<Debt>): multiset<Debt> {
    if q == [] then multiset{} else debts(q[0]) + Total(q[1..], debts)
  }

  lemma {:induction false} TotalConcat<T>(a: seq<T>, b: seq<T>, debts: T -> multiset<Debt>)
    ensures Total(a + b, debts) == Total(a, debts) + Total(b, debts)
  {
    if a == [] {
      assert a + b == b;
    } else {
      assert (a + b)[1..] == a[1..] + b;
      TotalConcat(a[1..], b, debts);
    }
  }

  /** The total only depends on the debts of the elements. */
  lemma {:induction false} TotalPointwise<T, U>(a: seq<T>, b: seq<U>, f: T -> multiset<Debt>, g: U -> multiset<Debt>)
    requires |a| == |b| && forall j :: 0 <= j < |a| ==> f(a[j]) == g(b[j])
    ensures Total(a, f) == Total(b, g)
  {
    if a != [] {
      TotalPointwise(a[1..], b[1..], f, g);
    }
  }

  lemma TotalSplit<T>(q: seq<T>, i: nat, debts: T -> multiset<Debt>)
    requires i < |q|
    ensures Total(q, debts) == Total(q[..i], debts) + debts(q[i]) + Total(q[i + 1..], debts)
  {
    TotalConcat(q[..i], q[i..], debts);
    assert q[..i] + q[i..] == q;
    assert q[i..][1..] == q[i + 1..];
  }

  lemma TotalUpdate<T>(q: seq<T>, i: nat, x: T, debts: T -> multiset<Debt>)
    requires i < |q|
    ensures Total(q[i := x], debts) + debts(q[i]) == Total(q, debts) + debts(x)
  {
    TotalSplit(q, i, debts);
    TotalSplit(q[i := x], i, debts);
    assert q[i := x][..i] == q[..i];
    assert q[i := x][i + 1..] == q[i + 1..];
  }

  /** Changing what does not matter for the debts. */
  lemma TotalSame<T>(q: seq<T>, i: nat, x: T, debts: T -> multiset<Debt>)
    requires i < |q| && debts(x) == debts(q[i])
    ensures Total(q[i := x], debts) == Total(q, debts)
  {
    TotalUpdate(q, i, x, debts);
    Cancel(Total(q[i := x], debts), debts(x), Total(q, debts), multiset{});
  }
}
