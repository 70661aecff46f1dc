/** Powers of two and the integer logarithm used to size every table. */
module Bits {
  function Pow2(n: nat): (p: nat)
    ensures p > 0
  {
    if n == 0 then 1 else 2 * Pow2(n - 1)
  }

  /** `lg2` of bits.h: rounds down, and sends 0 and 1 to 0. */
  function Lg2(n: nat): (k: nat)
    ensures n >= 1 ==> Pow2(k) <= n < 2 * Pow2(k)
  {
    if n < 2 then 0 else 1 + Lg2(n / 2)
  }

  predicate IsPow2(n: nat) { n > 0 && n == Pow2(Lg2(n)) }

  type Pos = n: nat | n > 0 witness 1

  lemma MulAssoc(a: int, b: int, d: int)
    ensures a * (b * d) == (a * b) * d
  {
  }

  lemma {:induction false} Pow2Sum(a: nat, b: nat)
    ensures Pow2(a + b) == Pow2(a) * Pow2(b)
  {
    if a > 0 {
      Pow2Sum(a - 1, b);
      MulAssoc(2, Pow2(a - 1), Pow2(b));
    }
  }

  lemma SmallDiv(n: nat, m: Pos)
    requires n < m
    ensures n / m == 0
  {
  }

  /** A product with a positive number is at least as far from zero. */
  lemma ProductSign(d: int, b: Pos)
    ensures d > 0 ==> d * b >= b
    ensures d < 0 ==> d * b <= -(b as int)
  {
  }

  lemma ProductOrder(x: int, y: int, m: Pos)
    ensures x >= y ==> x * m >= y * m
    ensures x < y ==> x * m + m <= y * m
  {
    ProductSign(x - y, m);
  }

  /** Quotient and remainder are unique. */
  lemma DivUnique(n: nat, b: Pos, q: nat, r: nat)
    requires n == q * b + r && r < b
    ensures n / b == q && n % b == r
  {
    var d := n / b - q;
    assert n == (n / b) * b + n % b;
    assert d * b == r - n % b;
    ProductSign(d, b);
  }

  lemma MulBelow(a: Pos, b: Pos, u: nat, v: nat)
    requires u < b && v < a
    ensures a * u + v < a * b
  {
    assert a * (u + 1) <= a * b;
  }

  /** Dividing twice is dividing by the product. */
  lemma DivDiv(n: nat, a: Pos, b: Pos)
    ensures a * b > 0 && n / (a * b) == n / a / b
  {
    var u, v := n / a % b, n % a;
    var q := n / a / b;
    assert n / a == b * q + u;
    assert n == a * (b * q + u) + v;
    MulBelow(a, b, u, v);
    assert a * (b * q + u) == a * (b * q) + a * u;
    MulAssoc(a, b, q);
    DivUnique(n, a * b, q, a * u + v);
  }

  // ---------------------------------------------------------------- alignment

  predicate Aligned(a: nat, m: Pos) { a % m == 0 }

  lemma AlignedPlus(a: nat, m: Pos)
    requires Aligned(a, m)
    ensures Aligned(a + m, m) && (a + m) / m == a / m + 1
  {
    DivUnique(a + m, m, a / m + 1, 0);
  }

  lemma AlignedApart(a: nat, b: nat, m: Pos)
    requires Aligned(a, m) && Aligned(b, m) && a < b
    ensures a + m <= b
  {
    ProductOrder(a / m, b / m, m);
  }

  lemma SameQuotient(a: nat, m: Pos, x: nat)
    requires Aligned(a, m) && x < m
    ensures (a + x) / m == a / m && (a + x) % m == x
  {
    DivUnique(a + x, m, a / m, x);
  }

  lemma AlignedProduct(a: nat, m: Pos, k: Pos)
    requires k * m > 0 && Aligned(a, k * m)
    ensures Aligned(a, m)
  {
    MulAssoc(a / (k * m), k, m);
    DivUnique(a, m, a / (k * m) * k, 0);
  }

  lemma Pow2Divides(a: nat, b: nat)
    requires a <= b
    ensures Pow2(b) == Pow2(b - a) * Pow2(a)
  {
    Pow2Sum(b - a, a);
  }

  lemma {:induction false} Pow2Increases(a: nat, b: nat)
    requires a < b
    ensures Pow2(a) < Pow2(b)
  {
    if a + 1 < b {
      Pow2Increases(a, b - 1);
    }
  }

  lemma {:induction false} Lg2Pow2(n: nat)
    ensures Lg2(Pow2(n)) == n
  {
    if n > 0 {
      Lg2Pow2(n - 1);
    }
  }

  lemma RemainderBelow(n: nat, m: Pos)
    ensures n % m <= n
  {
    if n < m {
      DivUnique(n, m, 0, n);
    }
  }

  /** The high part of one number and the low `bits` bits of another. */
  function SpliceBits(upper: nat, lower: nat, bits: nat): nat {
    var m: Pos := Pow2(bits);
    RemainderBelow(upper, m);
    upper - upper % m + lower % m
  }

  // ---------------------------------------------------------------- index widths

  /** Number of bits of `n`, by shifting it right until nothing is left. */
  function BitLength(n: nat): (b: nat)
    ensures n < Pow2(b)
    ensures n > 0 ==> b > 0 && Pow2(b - 1) <= n
  {
    if n == 0 then 0 else 1 + BitLength(n / 2)
  }

  /** Masking with the bits of `n - 1` is taking the remainder by `n` exactly for powers of two. */
  lemma IndexWidth(n: Pos)
    ensures Pow2(BitLength(n - 1)) == n <==> IsPow2(n)
  {
    var b := BitLength(n - 1);
    if IsPow2(n) {
      var k := Lg2(n);
      if b < k {
        Pow2Increases(b, k);
      } else if b > k {
        if k < b - 1 {
          Pow2Increases(k, b - 1);
        }
      }
    } else if Pow2(b) == n {
      Lg2Pow2(b);
    }
  }

  // ---------------------------------------------------------------- exclusive or

  /** Exclusive or of the lowest `n` bits. */
  function Xor(a: nat, b: nat, n: nat): (x: nat)
    ensures x < Pow2(n)
  {
    if n == 0 then 0 else (a + b) % 2 + 2 * Xor(a / 2, b / 2, n - 1)
  }

  /** The lowest bit and the others of an exclusive or. */
  lemma XorHalves(a: nat, b: nat, n: nat)
    requires n > 0
    ensures Xor(a, b, n) / 2 == Xor(a / 2, b / 2, n - 1) && Xor(a, b, n) % 2 == (a + b) % 2
  {
    hide Pow2;
  }

  lemma XorUnfold(a: nat, b: nat, n: nat)
    requires n > 0
    ensures Xor(a, b, n) == (a + b) % 2 + 2 * Xor(a / 2, b / 2, n - 1)
  {
  }

  lemma ParityBack(a: nat, b: nat, x: nat)
    requires x % 2 == (a + b) % 2
    ensures (x + b) % 2 == a % 2
  {
  }

  lemma ParitySwap(a: nat, b: nat, d: nat, x: nat, y: nat)
    requires x % 2 == (a + b) % 2 && y % 2 == (a + d) % 2
    ensures (x + d) % 2 == (y + b) % 2
  {
  }

  lemma ModDoubles(bit: nat, v: nat, p: Pos)
    requires bit < 2
    ensures (bit + 2 * v) % (2 * p) == bit + 2 * (v % p)
  {
    assert v == v / p * p + v % p;
    assert bit + 2 * v == v / p * (2 * p) + (bit + 2 * (v % p));
    DivUnique(bit + 2 * v, 2 * p, v / p, bit + 2 * (v % p));
  }

  lemma ModHalves(a: nat, n: nat)
    requires n > 0
    ensures a % Pow2(n) == a % 2 + 2 * (a / 2 % Pow2(n - 1))
  {
    ModDoubles(a % 2, a / 2, Pow2(n - 1));
    assert a == a % 2 + 2 * (a / 2);
  }

  lemma {:induction false} XorBack(a: nat, b: nat, n: nat)
    ensures Xor(Xor(a, b, n), b, n) == a % Pow2(n)
  {
    if n > 0 {
      var x := Xor(a, b, n);
      XorHalves(a, b, n);
      XorUnfold(x, b, n);
      ParityBack(a, b, x);
      XorBack(a / 2, b / 2, n - 1);
      ModHalves(a, n);
      hide Xor;
      hide Pow2;
    }
  }

  /** The order of two exclusive ors does not matter. */
  lemma {:induction false} XorSwap(a: nat, b: nat, d: nat, n: nat)
    ensures Xor(Xor(a, b, n), d, n) == Xor(Xor(a, d, n), b, n)
  {
    if n > 0 {
      var x, y := Xor(a, b, n), Xor(a, d, n);
      XorHalves(a, b, n);
      XorHalves(a, d, n);
      XorUnfold(x, d, n);
      XorUnfold(y, b, n);
      ParitySwap(a, b, d, x, y);
      XorSwap(a / 2, b / 2, d / 2, n - 1);
      hide Xor;
      hide Pow2;
    }
  }

  // ---------------------------------------------------------------- quotient and remainder

  function Quotient(n: nat, m: Pos): nat {
    QuotientExists(n, m);
    n / m
  }

  function Remainder(n: nat, m: Pos): (r: nat)
    ensures r < m
  {
    n % m
  }

  lemma QuotientExists(n: nat, m: Pos)
    ensures n / m >= 0 && n == n / m * m + n % m
  {
    ProductSign(n / m, m);
  }

  lemma Divided(n: nat, m: Pos)
    ensures n == Quotient(n, m) * m + Remainder(n, m)
  {
    QuotientExists(n, m);
  }

  lemma Unique(n: nat, m: Pos, q: nat, r: nat)
    requires n == q * m + r && r < m
    ensures Quotient(n, m) == q && Remainder(n, m) == r
  {
    DivUnique(n, m, q, r);
  }

  lemma MulMono(a: nat, b: nat, x: nat, y: nat)
    requires a <= b && x <= y
    ensures a * x <= b * y
  {
    assert b * y == a * x + a * (y - x) + (b - a) * y;
  }

  lemma QuotientShrinks(n: nat, m: Pos)
    requires n > 0 && m >= 2
    ensures Quotient(n, m) < n
  {
    Divided(n, m);
    if Quotient(n, m) >= n {
      MulMono(n, Quotient(n, m), 2, m);
    }
  }

  /** Comparing with a multiple compares the high parts. */
  lemma BelowMultiple(q: nat, p: Pos, r: nat, k: nat)
    requires r < p
    ensures q * p + r < k * p <==> q < k
  {
    if q < k {
      MulMono(q + 1, k, p, p);
      assert (q + 1) * p == q * p + p;
    } else {
      MulMono(k, q, p, p);
    }
  }
}
