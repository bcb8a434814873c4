// Binary floating point as exact integers: the rounding that
// internal/lima/sizes.go goes through when it parses and prints sizes.
//
// A non-negative float is written as an integer count of some fixed power of
// two, so rounding to p significant bits, to nearest and ties to even, is
// integer arithmetic.

module Floats {

  function Pow2(n: nat): (r: nat)
    ensures r > 0
  {
    if n == 0 then 1 else 2 * Pow2(n - 1)
  }

  /** The number of binary digits of n. */
  function BitLen(n: nat): nat {
    if n == 0 then 0 else 1 + BitLen(n / 2)
  }

  function Whole(a: nat, b: nat): nat
    requires b > 0
  {
    a / b
  }

  /** a/b rounded to the nearest integer, ties to even. */
  function Nearest(a: nat, b: nat): nat
    requires b > 0
  {
    var q, r := a / b, a % b;
    if 2 * r < b || (2 * r == b && q % 2 == 0) then q else q + 1
  }

  /** How many low bits of n do not fit in p significant bits. */
  function Excess(p: nat, n: nat): nat {
    if BitLen(n) > p then BitLen(n) - p else 0
  }

  /** a/b rounded to p significant bits. */
  function Round(p: nat, a: nat, b: nat): nat
    requires b > 0
  {
    var k := Excess(p, a / b);
    Nearest(a, b * Pow2(k)) * Pow2(k)
  }

  const FLOAT64_BITS: nat := 53
  const FLOAT32_BITS: nat := 24

  ghost predicate Scaled(p: nat, n: nat, m: nat, e: nat) {
    n == m * Pow2(e) && m < Pow2(p)
  }

  /** n needs at most p significant bits. */
  ghost predicate Fits(p: nat, n: nat) {
    exists m: nat, e: nat :: Scaled(p, n, m, e)
  }

  // ---------------------------------------------------------------------
  // Arithmetic
  // ---------------------------------------------------------------------

  lemma MulOrder(a: nat, b: nat, c: nat)
    ensures a < b && c > 0 ==> a * c < b * c
    ensures a <= b ==> a * c <= b * c
  {
  }

  lemma MulAssoc(a: nat, b: nat, c: nat)
    ensures a * b * c == a * (b * c)
  {
  }

  lemma Cancel(a: nat, b: nat, c: nat)
    requires c > 0 && a * c == b * c
    ensures a == b
  {
    MulOrder(a, b, c);
    MulOrder(b, a, c);
  }

  lemma LessByFactor(a: nat, b: nat, c: nat)
    requires a * c < b * c
    ensures a < b
  {
    MulOrder(b, a, c);
  }

  lemma DivUnique(n: nat, d: nat, q: nat, r: nat)
    requires d > 0 && r < d && n == q * d + r
    ensures n / d == q && n % d == r
  {
    var a, b := n / d, n % d;
    assert a * d + b == n;
    MulOrder(a + 1, q, d);
    MulOrder(q + 1, a, d);
    assert (a + 1) * d == a * d + d && (q + 1) * d == q * d + d;
  }

  lemma {:induction false} Pow2Add(a: nat, b: nat)
    ensures Pow2(a + b) == Pow2(a) * Pow2(b)
  {
    if a > 0 {
      Pow2Add(a - 1, b);
      MulAssoc(2, Pow2(a - 1), Pow2(b));
    }
  }

  lemma {:induction false} Pow2Monotone(a: nat, b: nat)
    requires a <= b
    ensures Pow2(a) <= Pow2(b)
  {
    if a < b { Pow2Monotone(a, b - 1); }
  }

  lemma {:induction false} BitLenBounds(n: nat)
    ensures n < Pow2(BitLen(n))
    ensures n > 0 ==> BitLen(n) > 0 && Pow2(BitLen(n) - 1) <= n
  {
    if n > 0 {
      BitLenBounds(n / 2);
      if n / 2 > 0 {
        assert Pow2(BitLen(n) - 1) == 2 * Pow2(BitLen(n / 2) - 1);
      }
    }
  }

  // ---------------------------------------------------------------------
  // When rounding changes nothing
  // ---------------------------------------------------------------------

  lemma RoundInteger(p: nat, n: nat)
    ensures Round(p, n, 1) == Nearest(n, Pow2(Excess(p, n))) * Pow2(Excess(p, n))
  {
    assert n / 1 == n;
  }

  lemma NearestExact(q: nat, d: nat)
    requires d > 0
    ensures Nearest(q * d, d) == q
  {
    DivUnique(q * d, d, q, 0);
  }

  /** A number with few significant bits is a multiple of whatever rounding
      would cut off. */
  lemma FitsDivides(p: nat, n: nat, m: nat, e: nat)
    requires Scaled(p, n, m, e) && n > 0
    ensures Excess(p, n) <= e
  {
    // n < 2^(p + e), while the top bit of n is worth 2^(p + cut - 1).
    BitLenBounds(n);
    Pow2Add(p, e);
    MulOrder(m, Pow2(p), Pow2(e));
    if p + e < BitLen(n) {
      Pow2Monotone(p + e, BitLen(n) - 1);
    }
  }

  lemma FitsIsFixed(p: nat, n: nat)
    requires Fits(p, n)
    ensures Round(p, n, 1) == n
  {
    var m: nat, e: nat :| Scaled(p, n, m, e);
    var k := Excess(p, n);
    RoundInteger(p, n);
    if n > 0 {
      FitsDivides(p, n, m, e);
      Pow2Add(e - k, k);
      MulAssoc(m, Pow2(e - k), Pow2(k));
      NearestExact(m * Pow2(e - k), Pow2(k));
    } else {
      NearestExact(0, Pow2(k));
    }
  }

  /** The rounded significand is at most 2^p. */
  lemma SignificandBound(p: nat, n: nat)
    ensures Nearest(n, Pow2(Excess(p, n))) <= Pow2(p)
  {
    var k := Excess(p, n);
    BitLenBounds(n);
    if k > 0 {
      Pow2Add(p, k);
      QuotientBelow(n, Pow2(p), Pow2(k));
    } else {
      Pow2Monotone(BitLen(n), p);
      NearestExact(n, 1);
    }
  }

  lemma QuotientBelow(n: nat, q: nat, d: nat)
    requires d > 0 && n < q * d
    ensures n / d < q && Nearest(n, d) <= q
  {
    assert n == (n / d) * d + n % d;
    LessByFactor(n / d, q, d);
  }

  lemma FixedFits(p: nat, n: nat)
    requires p > 0 && Round(p, n, 1) == n
    ensures Fits(p, n)
  {
    var k := Excess(p, n);
    var q := Nearest(n, Pow2(k));
    RoundInteger(p, n);
    SignificandBound(p, n);
    if q < Pow2(p) {
      assert Scaled(p, n, q, k);
    } else {
      Pow2Add(p, k);
      assert Pow2(0) == 1;
      Pow2Monotone(1, p);
      assert Scaled(p, n, 1, p + k);
    }
  }

  /** Rounding leaves a number alone exactly when its bits fit. */
  lemma RoundExact(p: nat, n: nat)
    requires p > 0
    ensures Round(p, n, 1) == n <==> Fits(p, n)
  {
    if Fits(p, n) { FitsIsFixed(p, n); }
    if Round(p, n, 1) == n { FixedFits(p, n); }
  }

  /** Rounding a multiple of 2^j gives a multiple of 2^j. */
  lemma RoundKeepsFactor(p: nat, n: nat, j: nat) returns (q: nat)
    ensures Round(p, n * Pow2(j), 1) == q * Pow2(j)
  {
    var a := n * Pow2(j);
    var k := Excess(p, a);
    RoundInteger(p, a);
    if k >= j {
      q := Nearest(a, Pow2(k)) * Pow2(k - j);
      Pow2Add(k - j, j);
      MulAssoc(Nearest(a, Pow2(k)), Pow2(k - j), Pow2(j));
    } else {
      q := n;
      Pow2Add(j - k, k);
      MulAssoc(n, Pow2(j - k), Pow2(k));
      NearestExact(n * Pow2(j - k), Pow2(k));
    }
  }

  /** Multiplying by a power of two does not change how many bits are needed. */
  lemma FitsScaled(p: nat, n: nat, j: nat)
    ensures Fits(p, n * Pow2(j)) <==> Fits(p, n)
  {
    if Fits(p, n) {
      var m: nat, e: nat :| Scaled(p, n, m, e);
      Pow2Add(e, j);
      MulAssoc(m, Pow2(e), Pow2(j));
      assert Scaled(p, n * Pow2(j), m, e + j);
    }
    if Fits(p, n * Pow2(j)) {
      var m: nat, e: nat :| Scaled(p, n * Pow2(j), m, e);
      FitsUnscaled(p, n, j, m, e);
    }
  }

  lemma FitsUnscaled(p: nat, n: nat, j: nat, m: nat, e: nat)
    requires Scaled(p, n * Pow2(j), m, e)
    ensures Fits(p, n)
  {
    if e >= j {
      Pow2Add(e - j, j);
      MulAssoc(m, Pow2(e - j), Pow2(j));
      Cancel(n, m * Pow2(e - j), Pow2(j));
      assert Scaled(p, n, m, e - j);
    } else {
      Pow2Add(j - e, e);
      MulAssoc(n, Pow2(j - e), Pow2(e));
      Cancel(m, n * Pow2(j - e), Pow2(e));
      MulOrder(1, Pow2(j - e), n);
      assert Pow2(0) == 1;
      assert Scaled(p, n, n, 0);
    }
  }

  /** Rounding keeps a positive number positive and at most doubles it. */
  lemma RoundWithinDouble(p: nat, n: nat)
    requires p > 0
    ensures Round(p, n, 1) <= 2 * n && (n > 0 ==> Round(p, n, 1) > 0)
  {
    var k := Excess(p, n);
    var d := Pow2(k);
    RoundInteger(p, n);
    BitLenBounds(n);
    if n == 0 {
      NearestExact(0, d);
    } else {
      if k > 0 { Pow2Monotone(k, BitLen(n) - 1); }
      NearestNear(n, d);
    }
  }

  lemma NearestNear(n: nat, d: nat)
    requires 0 < d <= n
    ensures 0 < Nearest(n, d) && Nearest(n, d) * d <= 2 * n
  {
    var q := n / d;
    assert n == q * d + n % d;
    MulOrder(q, 0, d);
    assert (q + 1) * d == q * d + d;
    MulOrder(Nearest(n, d), q + 1, d);
  }
}
