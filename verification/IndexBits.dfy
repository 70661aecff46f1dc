/** The index hash and the perceptron's indices, bit by bit. */
module IndexBits {
  import opened Bits
  import opened HashIndex
  import H = HashedPerceptron

  /** Bit `i` of a number. */
  function Bit(n: nat, i: nat): (b: nat)
    ensures b < 2
  {
    if i == 0 then n % 2 else Bit(n / 2, i - 1)
  }

  function Parity(n: nat): (p: nat)
    ensures p < 2
  {
    n % 2
  }

  lemma LowestBit(a: nat, b: nat, n: nat)
    requires n > 0
    ensures Bit(Xor(a, b, n), 0) == Parity(Bit(a, 0) + Bit(b, 0))
  {
    hide *;
    XorHalves(a, b, n);
    BitZero(a);
    BitZero(b);
    BitZero(Xor(a, b, n));
    SumParity(a, b);
  }

  lemma BitZero(n: nat)
    ensures Bit(n, 0) == n % 2
  {
  }

  lemma SumParity(a: nat, b: nat)
    ensures Parity(a % 2 + b % 2) == (a + b) % 2
  {
    var s := a % 2 + b % 2;
    assert a == a / 2 * 2 + a % 2 && b == b / 2 * 2 + b % 2;
    DivUnique(a + b, 2, a / 2 + b / 2 + s / 2, s % 2);
  }

  lemma HigherBit(n: nat, i: nat)
    requires i > 0
    ensures Bit(n, i) == Bit(n / 2, i - 1)
  {
  }

  lemma {:induction false} XorBit(a: nat, b: nat, n: nat, i: nat)
    requires i < n
    ensures Bit(Xor(a, b, n), i) == Parity(Bit(a, i) + Bit(b, i))
  {
    hide *;
    if i == 0 {
      LowestBit(a, b, n);
    } else {
      XorHalves(a, b, n);
      HigherBit(a, i);
      HigherBit(b, i);
      HigherBit(Xor(a, b, n), i);
      XorBit(a / 2, b / 2, n - 1, i - 1);
    }
  }

  /** Bits below `len` are those of the low part, and the others those of the high part. */
  lemma {:induction false} JoinBit(high: nat, low: nat, len: nat, i: nat)
    requires low < Pow2(len)
    ensures Join(high, low, len) >= 0
    ensures Bit(Join(high, low, len), i) == if i < len then Bit(low, i) else Bit(high, i - len)
    decreases len
  {
    if len > 0 {
      assert Pow2(len) == 2 * Pow2(len - 1);
      var n := Join(high, low, len);
      assert n == low + 2 * (high * Pow2(len - 1));
      assert low == low % 2 + 2 * (low / 2);
      assert n == low % 2 + 2 * Join(high, low / 2, len - 1);
      DivUnique(n, 2, Join(high, low / 2, len - 1), low % 2);
      if i > 0 {
        JoinBit(high, low / 2, len - 1, i - 1);
      }
    }
  }

  lemma PartBits(n: nat, len: nat, i: nat)
    ensures Bit(n, i) == if i < len then Bit(Low(n, len), i) else Bit(High(n, len), i - len)
  {
    SplitJoins(n, len);
    JoinBit(High(n, len), Low(n, len), len, i);
  }

  // ---------------------------------------------------------------- the index hash

  /** How many of the bits `i`, `i + len`, `i + 2 len`, and so on, are set. */
  function Ones(n: nat, len: nat, i: nat): nat
    requires len > 0
    decreases n
  {
    if n == 0 then 0
    else
      Shrinks(n, len);
      Bit(n, i) + Ones(High(n, len), len, i)
  }

  lemma FoldUnfolds(low: nat, tag: nat, len: nat, i: nat)
    requires low < Pow2(len) && len > 0 && tag > 0
    ensures Fold(low, tag, len) == Fold(Xor(low, Low(tag, len), len), High(tag, len), len)
    ensures Ones(tag, len, i) == Bit(tag, i) + Ones(High(tag, len), len, i)
  {
    hide Bit, Xor, Pow2, Low, High;
  }

  lemma FoldNothing(low: nat, len: nat, i: nat)
    requires low < Pow2(len) && i < len
    ensures Bit(Fold(low, 0, len), i) == Parity(Bit(low, i) + Ones(0, len, i))
  {
  }

  lemma Parities(a: nat, b: nat, n: nat)
    ensures Parity(Parity(a + b) + n) == Parity(a + (b + n))
  {
  }

  lemma {:induction false} FoldBit(low: nat, tag: nat, len: nat, i: nat)
    requires low < Pow2(len) && i < len
    ensures Bit(Fold(low, tag, len), i) == Parity(Bit(low, i) + Ones(tag, len, i))
    decreases tag
  {
    hide *;
    if tag > 0 {
      Shrinks(tag, len);
      var chunk, rest := Low(tag, len), High(tag, len);
      FoldUnfolds(low, tag, len, i);
      XorBit(low, chunk, len, i);
      PartBits(tag, len, i);
      FoldBit(Xor(low, chunk, len), rest, len, i);
      Parities(Bit(low, i), Bit(chunk, i), Ones(rest, len, i));
    } else {
      FoldNothing(low, len, i);
    }
  }

  lemma {:induction false} ZeroBits(i: nat)
    ensures Bit(0, i) == 0
  {
    if i > 0 {
      ZeroBits(i - 1);
    }
  }

  /**
   * The index hash leaves the higher bits alone; each of the lowest `len` bits becomes the parity of all bits of the
   * key that are a multiple of `len` above it.
   */
  lemma HashBits(key: nat, len: nat, i: nat)
    ensures len == 0 ==> Hash(key, len) == key
    ensures len > 0 ==> Bit(Hash(key, len), i) == if i < len then Parity(Ones(key, len, i)) else Bit(key, i)
  {
    if len > 0 {
      HashParts(key, len);
      PartBits(Hash(key, len), len, i);
      PartBits(key, len, i);
      if i < len {
        FoldBit(Low(key, len), High(key, len), len, i);
        if key == 0 {
          ZeroBits(i);
          DivUnique(0, Pow2(len), 0, 0);
        }
      }
      hide Hash, Low, High, Fold, Bit, Pow2;
    }
  }

  // ---------------------------------------------------------------- the perceptron's indices

  lemma {:induction false} ValueBit(bits: seq<bool>, i: nat)
    ensures Bit(H.Value(bits), i) == if i < |bits| && bits[i] then 1 else 0
  {
    if bits == [] {
      ZeroBits(i);
    } else {
      var v, b := H.Value(bits[1..]), if bits[0] then 1 else 0;
      DivUnique(b + 2 * v, 2, v, b);
      if i > 0 {
        ValueBit(bits[1..], i - 1);
      }
    }
  }

  /** How many of the outcomes `i`, `i + 12`, `i + 24`, and so on, among the first `n`, are taken. */
  function Taken(h: seq<bool>, n: nat, i: nat): nat
    requires n <= |h|
    decreases n - i
  {
    if i >= n then 0 else (if h[i] then 1 else 0) + Taken(h, n, i + 12)
  }

  /** A last word of `r` outcomes adds at most its own. */
  lemma {:induction false} TakenWord(h: seq<bool>, j: nat, r: nat, k: nat, i: nat)
    requires 12 * j + r <= |h| && r <= 12 && i < 12 && k <= j
    ensures Taken(h, 12 * j + r, 12 * k + i) ==
            Taken(h, 12 * j, 12 * k + i) + if i < r && h[12 * j + i] then 1 else 0
    decreases j - k
  {
    if k < j {
      TakenWord(h, j, r, k + 1, i);
    }
  }

  lemma ParitySum(t: nat, w: nat, p: nat)
    ensures Parity(Parity(t) + w) == Parity(t + w)
    ensures Parity(Parity(Parity(t) + w) + p) == Parity(t + w + p)
  {
  }

  lemma WordBit(h: seq<bool>, from: nat, r: nat, i: nat)
    requires from + r <= |h|
    ensures Bit(H.Value(h[from..from + r]), i) == if i < r && h[from + i] then 1 else 0
  {
    ValueBit(h[from..from + r], i);
    hide Bit, H.Value;
  }

  lemma FoldedNext(h: seq<bool>, j: nat)
    requires 0 < j && 12 * j <= |h|
    ensures H.Folded(h, j) == Xor(H.Folded(h, j - 1), H.Value(h[12 * (j - 1)..12 * (j - 1) + 12]), 12)
  {
    hide Xor, H.Value;
  }

  lemma FoldedNothing(h: seq<bool>, i: nat)
    ensures Bit(H.Folded(h, 0), i) == Parity(Taken(h, 12 * 0, i))
  {
    ZeroBits(i);
  }

  lemma {:induction false} FoldedBit(h: seq<bool>, j: nat, i: nat)
    requires 12 * j <= |h| && i < 12
    ensures Bit(H.Folded(h, j), i) == Parity(Taken(h, 12 * j, i))
  {
    hide *;
    if j == 0 {
      FoldedNothing(h, i);
    } else {
      var m := 12 * (j - 1);
      var word := h[m..m + 12];
      FoldedBit(h, j - 1, i);
      FoldedNext(h, j);
      XorBit(H.Folded(h, j - 1), H.Value(word), 12, i);
      WordBit(h, m, 12, i);
      TakenWord(h, j - 1, 12, 0, i);
      ParitySum(Taken(h, m, i), if h[m + i] then 1 else 0, 0);
    }
  }

  lemma IndexParts(pc: nat, h: seq<bool>, n: nat)
    requires n <= |h|
    ensures var m := 12 * (n / 12);
            && m + n % 12 == n
            && H.Index(pc, h, n) == Xor(Xor(H.Folded(h, n / 12), H.Value(h[m..m + n % 12]), 12), pc, 12)
  {
    hide Xor, H.Value, H.Folded;
  }

  /** Bit `i` of a table's index is the parity of bit `i` of the address and of every twelfth outcome from `i` on. */
  lemma PerceptronIndexBits(pc: nat, h: seq<bool>, n: nat, i: nat)
    requires n <= |h| && i < 12
    ensures Bit(H.Index(pc, h, n), i) == Parity(Taken(h, n, i) + Bit(pc, i))
  {
    hide *;
    var j, r := n / 12, n % 12;
    var m := 12 * j;
    IndexParts(pc, h, n);
    FoldedBit(h, j, i);
    XorBit(H.Folded(h, j), H.Value(h[m..m + r]), 12, i);
    WordBit(h, m, r, i);
    XorBit(Xor(H.Folded(h, j), H.Value(h[m..m + r]), 12), pc, 12, i);
    TakenWord(h, j, r, 0, i);
    ParitySum(Taken(h, m, i), if i < r && h[m + i] then 1 else 0, Bit(pc, i));
  }
}
