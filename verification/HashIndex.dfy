/** The index hash of custom_util.cc, and the rotation of patterns. */
module HashIndex {
  import opened Bits

  // ---------------------------------------------------------------- hashing

  function High(key: nat, len: nat): nat { Quotient(key, Pow2(len)) }

  function Low(key: nat, len: nat): (l: nat)
    ensures l < Pow2(len)
  {
    Remainder(key, Pow2(len))
  }

  lemma Shrinks(tag: nat, len: nat)
    requires tag > 0 && len > 0
    ensures High(tag, len) < tag
  {
    assert Pow2(len) == 2 * Pow2(len - 1);
    QuotientShrinks(tag, Pow2(len));
  }

  /** Every higher group of `len` bits is folded into the lowest one. */
  function Fold(low: nat, tag: nat, len: nat): (f: nat)
    requires len > 0 && low < Pow2(len)
    ensures f < Pow2(len)
    decreases tag
  {
    if tag == 0 then low
    else
      Shrinks(tag, len);
      Fold(Xor(low, Low(tag, len), len), High(tag, len), len)
  }

  function Join(high: nat, low: nat, len: nat): nat { high * Pow2(len) + low }

  /** `hash_index`. */
  function Hash(key: nat, len: nat): nat {
    if len == 0 then key else Join(High(key, len), Fold(Low(key, len), High(key, len), len), len)
  }

  lemma JoinSplits(high: nat, low: nat, len: nat)
    requires low < Pow2(len)
    ensures High(Join(high, low, len), len) == high && Low(Join(high, low, len), len) == low
  {
    Unique(Join(high, low, len), Pow2(len), high, low);
  }

  lemma SplitJoins(key: nat, len: nat)
    ensures Join(High(key, len), Low(key, len), len) == key
  {
    Divided(key, Pow2(len));
  }

  lemma {:induction false} FoldXor(low: nat, x: nat, tag: nat, len: nat)
    requires len > 0 && low < Pow2(len)
    ensures Fold(Xor(low, x, len), tag, len) == Xor(Fold(low, tag, len), x, len)
    decreases tag
  {
    if tag > 0 {
      Shrinks(tag, len);
      hide Xor;
      hide High;
      XorSwap(low, x, Low(tag, len), len);
      FoldXor(Xor(low, Low(tag, len), len), x, High(tag, len), len);
    }
  }

  lemma {:induction false} FoldTwice(low: nat, tag: nat, len: nat)
    requires len > 0 && low < Pow2(len)
    ensures Fold(Fold(low, tag, len), tag, len) == low
    decreases tag
  {
    if tag > 0 {
      Shrinks(tag, len);
      var chunk, rest := Low(tag, len), High(tag, len);
      var once := Fold(Xor(low, chunk, len), rest, len);
      assert Fold(low, tag, len) == once;
      FoldXor(once, chunk, rest, len);
      assert Fold(once, tag, len) == Xor(Fold(once, rest, len), chunk, len);
      FoldTwice(Xor(low, chunk, len), rest, len);
      XorBack(low, chunk, len);
      DivUnique(low, Pow2(len), 0, low);
    }
  }

  /** The hash changes only the lowest `len` bits. */
  lemma HashParts(key: nat, len: nat)
    requires len > 0
    ensures High(Hash(key, len), len) == High(key, len)
    ensures Low(Hash(key, len), len) == Fold(Low(key, len), High(key, len), len)
  {
    JoinSplits(High(key, len), Fold(Low(key, len), High(key, len), len), len);
  }

  /** `hash_index` is its own inverse, for every index length. */
  lemma HashInvolution(key: nat, len: nat)
    ensures Hash(Hash(key, len), len) == key
  {
    if len > 0 {
      HashParts(key, len);
      FoldTwice(Low(key, len), High(key, len), len);
      SplitJoins(key, len);
      hide Fold;
      hide High;
      hide Low;
      hide Join;
    }
  }

  lemma HashInjective(x: nat, y: nat, len: nat)
    requires Hash(x, len) == Hash(y, len)
    ensures x == y
  {
    HashInvolution(x, len);
    HashInvolution(y, len);
  }

  /** `build_key` of the tables that follow regions: the lowest 37 bits of the region number, hashed. */
  function RegionKey(region: nat, len: nat): nat { Hash(Low(region, 37), len) }

  /** Two regions share a key exactly when their lowest 37 bits agree. */
  lemma RegionKeysExactly(x: nat, y: nat, len: nat)
    ensures RegionKey(x, len) == RegionKey(y, len) <==> Low(x, 37) == Low(y, 37)
  {
    if RegionKey(x, len) == RegionKey(y, len) {
      HashInjective(Low(x, 37), Low(y, 37), len);
    }
  }

  lemma JoinBelow(high: nat, low: nat, len: nat, width: nat)
    requires low < Pow2(len) && len <= width
    ensures Join(high, low, len) < Pow2(width) <==> high < Pow2(width - len)
  {
    Pow2Divides(len, width);
    hide Pow2;
    BelowMultiple(high, Pow2(len), low, Pow2(width - len));
  }

  /** Keys of limited width keep it, if the index is no wider. */
  lemma HashWidth(key: nat, len: nat, width: nat)
    requires key < Pow2(width) && len <= width
    ensures Hash(key, len) < Pow2(width)
  {
    if len > 0 {
      SplitJoins(key, len);
      JoinBelow(High(key, len), Low(key, len), len, width);
      hide Join;
      hide Fold;
      JoinBelow(High(key, len), Fold(Low(key, len), High(key, len), len), len, width);
    }
  }

  /** The loop of `hash_index` over the shifted tag. */
  method HashLoop(key: nat, len: nat) returns (h: nat)
    ensures h == Hash(key, len)
  {
    if len == 0 {
      return key;
    }
    var tag: nat, low: nat := High(key, len), Low(key, len);
    hide High;
    hide Low;
    hide Xor;
    hide Pow2;
    while tag > 0
      invariant low < Pow2(len)
      invariant Fold(low, tag, len) == Fold(Low(key, len), High(key, len), len)
      decreases tag
    {
      Shrinks(tag, len);
      low := Xor(low, Low(tag, len), len);
      tag := High(tag, len);
    }
    h := Join(High(key, len), low, len);
  }

  // ---------------------------------------------------------------- rotation

  /** `my_rotate`: element `i` comes from `n` places before it, around the end. */
  function Rotated<T>(x: seq<T>, n: int): (y: seq<T>)
    ensures |y| == |x|
  {
    seq(|x|, i requires 0 <= i < |x| => x[(i - n) % |x|])
  }

  lemma Around(i: nat, n: int, len: Pos)
    requires i < len
    ensures ((i - n) % len + n) % len == i
  {
    var q := (i - n) / len;
    assert i - n == q * len + (i - n) % len;
    assert (i - n) % len + n == -q * len + i;
    EuclidUnique((i - n) % len + n, len, -q, i);
  }

  lemma EuclidUnique(n: int, b: Pos, q: int, r: nat)
    requires n == q * b + r && r < b
    ensures n % b == r
  {
    var d := n / b - q;
    assert n == (n / b) * b + n % b;
    assert d * b == r - n % b;
    ProductSign(d, b);
  }

  /** Rotating back and forth is the identity. */
  lemma RotateBack<T>(x: seq<T>, n: int)
    ensures Rotated(Rotated(x, -n), n) == x
  {
    var y := Rotated(x, -n);
    forall i | 0 <= i < |x| ensures Rotated(y, n)[i] == x[i] {
      Around(i, n, |x|);
      assert Rotated(y, n)[i] == y[(i - n) % |x|];
    }
  }

  /** A rotation by `n` moves every element `n` places up, around the end. */
  lemma RotatesUp<T>(x: seq<T>, n: int, i: nat)
    requires i < |x|
    ensures 0 <= (i + n) % |x| < |x| && Rotated(x, n)[(i + n) % |x|] == x[i]
  {
    var len, j := |x|, (i + n) % |x|;
    assert i + n == (i + n) / len * len + j;
    assert j - n == -((i + n) / len) * len + i;
    EuclidUnique(j - n, len, -((i + n) / len), i);
  }

  /** Rotating down by `t` brings element `t` to the front, and every element that far down. */
  lemma RotatesDown<T>(x: seq<T>, t: nat, i: nat)
    requires i < |x| && t < |x|
    ensures 0 <= (i - t) % |x| < |x| && Rotated(x, 0 - t)[(i - t) % |x|] == x[i]
    ensures Rotated(x, 0 - t)[0] == x[t]
  {
    RotatesUp(x, 0 - t, i);
    RotatesUp(x, 0 - t, t);
    hide Rotated;
    assert t + (0 - t) == 0 && i + (0 - t) == i - t;
    EuclidUnique(0, |x|, 0, 0);
  }

  /** C++ remainder: towards zero. */
  function Truncated(n: int, len: Pos): int { if n >= 0 then n % len else -((-n) % len) }

  lemma ShiftedRemainder(x: int, d: int, len: Pos)
    ensures (x + d * len) % len == x % len
  {
    var q, r := x / len, x % len;
    assert x + d * len == (q + d) * len + r;
    EuclidUnique(x + d * len, len, q + d, r);
  }

  lemma TruncatedParts(n: int, len: Pos) returns (q: int)
    ensures n == q * len + Truncated(n, len)
    ensures 0 - len < Truncated(n, len) < len
  {
    q := if n >= 0 then n / len else -((-n) / len);
    if n < 0 {
      assert -n == (-n) / len * len + (-n) % len;
    }
  }

  lemma TruncatedSame(i: int, n: int, len: Pos)
    ensures (i - Truncated(n, len) + len) % len == (i - n) % len
    ensures 0 - len < Truncated(n, len) < len
  {
    var q := TruncatedParts(n, len);
    var m := Truncated(n, len);
    hide Truncated;
    assert i - m + len == (i - n) + (q + 1) * len;
    ShiftedRemainder(i - n, q + 1, len);
  }

  method RotateLoop<T>(x: seq<T>, n: int) returns (y: seq<T>)
    ensures y == Rotated(x, n)
  {
    y := [];
    var len := |x|;
    if len == 0 {
      return;
    }
    var m := Truncated(n, len);
    for i := 0 to len
      invariant |y| == i && forall j :: 0 <= j < i ==> y[j] == Rotated(x, n)[j]
    {
      TruncatedSame(i, n, len);
      y := y + [x[(i - m + len) % len]];
    }
  }
}
