/** Decimal money as used by the charge and statistics services.

    Every amount is an integer number of 10^-4 units, i.e. a `BigDecimal` of
    scale 4: 1.00 is `10000`, 0.01 is `100`.  The services only ever round
    with `RoundingMode.HALF_UP`, which rounds to the nearest value and breaks a
    tie away from zero; `DivHalfUp` is that rounding for an integer quotient,
    and the scale-changing operations below are built from it. */
module Money {

  /** 1.0000 */
  const ONE: int := 10000
  /** 0.01, the unit of scale 2 */
  const CENT: int := 100

  function Abs(x: int): nat {
    if x < 0 then -x else x
  }

  /** The HALF_UP contract for an integer quotient: q is nearest to n / d and a
      tie is broken away from zero. */
  predicate IsHalfUpQuotient(n: int, d: int, q: int)
    requires d != 0
  {
    && 2 * Abs(n - q * d) <= Abs(d)
    && (2 * Abs(n - q * d) == Abs(d) ==> Abs(q * d) > Abs(n))
  }

  lemma DivBounds(a: int, b: int)
    requires b > 0
    ensures b * (a / b) <= a < b * (a / b) + b
  {
  }

  /** HALF_UP on magnitudes: m = floor((2a + b) / 2b). */
  lemma MagnitudeHalfUp(a: nat, b: int, m: int)
    requires b > 0
    requires m == (2 * a + b) / (2 * b)
    ensures m >= 0
    ensures 2 * Abs(a - m * b) <= b
    ensures 2 * Abs(a - m * b) == b ==> m * b > a
  {
    DivBounds(2 * a + b, 2 * b);
    assert (2 * b) * m == 2 * (m * b);
  }

  /** n / d rounded HALF_UP to an integer (`BigDecimal.divide(.., HALF_UP)`
      with the scales folded into n and d). */
  function DivHalfUp(n: int, d: int): (q: int)
    requires d != 0
    ensures IsHalfUpQuotient(n, d, q)
  {
    var a := Abs(n);
    var b := Abs(d);
    var m := (2 * a + b) / (2 * b);
    MagnitudeHalfUp(a, b, m);
    SignedProduct(n, d, m);
    if (n < 0) == (d < 0) then m else -m
  }

  lemma SignedProduct(n: int, d: int, m: int)
    requires d != 0 && m >= 0
    ensures var q := if (n < 0) == (d < 0) then m else -m;
      Abs(n - q * d) == Abs(Abs(n) - m * Abs(d)) && Abs(q * d) == m * Abs(d)
  {
    var q := if (n < 0) == (d < 0) then m else -m;
    if d > 0 {
      assert m * Abs(d) == m * d;
      if n < 0 {
        assert q * d == -(m * d);
      }
    } else {
      assert m * Abs(d) == -(m * d);
      if n < 0 {
        assert q * d == m * d;
      } else {
        assert q * d == -(m * d);
      }
    }
  }

  lemma ProductNonNegative(a: int, b: int)
    requires a >= 0 && b >= 0
    ensures a * b >= 0
  {
  }

  /** Sign and spacing facts about multiples of a positive divisor. */
  lemma MultipleFacts(d: int, lo: int, hi: int)
    requires d > 0
    ensures lo < hi ==> hi * d >= lo * d + d
    ensures lo >= 0 ==> lo * d >= 0
    ensures hi <= 0 ==> hi * d <= 0
  {
    if lo < hi {
      ProductNonNegative(hi - lo - 1, d);
      assert (hi - lo - 1) * d == hi * d - lo * d - d;
    }
    if lo >= 0 {
      ProductNonNegative(lo, d);
    }
    if hi <= 0 {
      ProductNonNegative(-hi, d);
      assert (-hi) * d == -(hi * d);
    }
  }

  lemma NegateHalfUp(n: int, d: int, q: int)
    requires d != 0
    ensures IsHalfUpQuotient(n, d, q) <==> IsHalfUpQuotient(-n, -d, q)
  {
    assert (-n) - q * (-d) == -(n - q * d);
    assert q * (-d) == -(q * d);
  }

  /** HALF_UP rounding is determined by its contract: a quotient is the
      HALF_UP one exactly when it meets `IsHalfUpQuotient`. */
  lemma HalfUpQuotientUnique(n: int, d: int, q: int)
    requires d != 0
    ensures IsHalfUpQuotient(n, d, q) <==> q == DivHalfUp(n, d)
  {
    if IsHalfUpQuotient(n, d, q) {
      var r := DivHalfUp(n, d);
      if d < 0 {
        NegateHalfUp(n, d, q);
        NegateHalfUp(n, d, r);
        UniquePositive(-n, -d, q, r);
      } else {
        UniquePositive(n, d, q, r);
      }
    }
  }

  lemma UniquePositive(n: int, d: int, q1: int, q2: int)
    requires d > 0
    requires IsHalfUpQuotient(n, d, q1) && IsHalfUpQuotient(n, d, q2)
    ensures q1 == q2
  {
    OrderedCandidates(n, d, q1, q2);
    OrderedCandidates(n, d, q2, q1);
  }

  /** Two candidates a whole divisor apart both sit half a divisor from n, and
      only one of them is the farther from zero. */
  lemma OrderedCandidates(n: int, d: int, lo: int, hi: int)
    requires d > 0
    ensures lo < hi && IsHalfUpQuotient(n, d, lo) ==> !IsHalfUpQuotient(n, d, hi)
  {
    MultipleFacts(d, lo, hi);
  }

  /** `a.divide(BigDecimal.valueOf(k), 4, HALF_UP)` for an integer count k. */
  function DivCountScale4(a: int, k: int): (r: int)
    requires k != 0
    ensures IsHalfUpQuotient(a, k, r)
  {
    DivHalfUp(a, k)
  }

  /** `a.divide(BigDecimal.valueOf(k), 2, HALF_UP)` for an integer count k:
      the nearest whole number of cents to a / k. */
  function DivCountScale2(a: int, k: int): (r: int)
    requires k != 0
    ensures r % CENT == 0 && IsHalfUpQuotient(a, CENT * k, r / CENT)
  {
    DivHalfUp(a, CENT * k) * CENT
  }

  /** `a.divide(b, 4, HALF_UP)` for two amounts. */
  function DivScale4(a: int, b: int): (r: int)
    requires b != 0
    ensures IsHalfUpQuotient(a * ONE, b, r)
  {
    DivHalfUp(a * ONE, b)
  }

  /** `a.setScale(2, HALF_UP)`. */
  function SetScale2(a: int): (r: int)
    ensures r % CENT == 0
    ensures 2 * Abs(a - r) <= CENT
  {
    var q := DivHalfUp(a, CENT);
    assert q * CENT == CENT * q;
    q * CENT
  }

  /** A whole number of cents is already at scale 2. */
  lemma SetScale2Cents(a: int)
    requires a % CENT == 0
    ensures SetScale2(a) == a
  {
    DivHalfUpExact(a, CENT);
  }

  /** `part.divide(base, 4, HALF_UP).multiply(100).setScale(2, HALF_UP)`, or 0
      when the base is 0: the percentage rounded at the fourth decimal of the
      ratio, which is already a whole number of cents. */
  function Percentage(part: int, base: int): (r: int)
    ensures base == 0 ==> r == 0
    ensures base != 0 ==> r % CENT == 0 && IsHalfUpQuotient(part * ONE, base, r / CENT)
  {
    if base == 0 then 0 else DivScale4(part, base) * 100
  }

  /** Σ of a sequence of amounts (`reduce(BigDecimal.ZERO, BigDecimal::add)`). */
  function Sum(s: seq<int>): int {
    if |s| == 0 then 0 else Sum(s[..|s| - 1]) + s[|s| - 1]
  }

  lemma {:induction false} SumAppend(s: seq<int>, t: seq<int>)
    ensures Sum(s + t) == Sum(s) + Sum(t)
    decreases |t|
  {
    if |t| == 0 {
      assert s + t == s;
    } else {
      assert (s + t)[..|s + t| - 1] == s + t[..|t| - 1];
      SumAppend(s, t[..|t| - 1]);
    }
  }

  /** An exact quotient needs no rounding. */
  lemma DivHalfUpExact(n: int, d: int)
    requires d != 0 && n % d == 0
    ensures DivHalfUp(n, d) == n / d
  {
    assert n == d * (n / d);
    assert n - (n / d) * d == 0;
    HalfUpQuotientUnique(n, d, n / d);
  }
}
