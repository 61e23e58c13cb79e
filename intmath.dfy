/** Integer arithmetic as the C++ source performs it.
    Dafny's `/` and `%` on `int` are Euclidean; C++ truncates toward zero, and
    `std::round` of a ratio rounds half away from zero. */
module IntMath {

  function Abs(x: int): nat
  {
    if x < 0 then -x else x
  }

  /** Euclidean quotient of naturals, bracketed by its divisor's multiples. */
  lemma DivBounds(a: nat, b: nat)
    requires b > 0
    ensures (a / b) * b <= a < (a / b + 1) * b
  {
    var m := a / b;
    assert a == m * b + a % b;
    assert (m + 1) * b == m * b + b;
  }

  /** The magnitude of a product is the product of the magnitudes. */
  lemma AbsMul(x: int, y: int)
    ensures Abs(x * y) == Abs(x) * Abs(y)
  {
    if x < 0 && y < 0 {
      assert x * y == (-x) * (-y);
    } else if x < 0 {
      assert x * y == -((-x) * y);
    } else if y < 0 {
      assert x * y == -(x * (-y));
    }
  }

  /** Multiplying by a positive factor preserves a strict order of naturals,
      by whole steps of that factor. */
  lemma MulMonotone(x: nat, y: nat, k: nat)
    requires k > 0
    requires x * k <= y * k < (x + 1) * k
    ensures x == y
  {
  }

  /** Euclidean division of a natural by a positive divisor. */
  lemma DivModNat(a: int, b: int)
    requires a >= 0 && b > 0
    ensures 0 <= a / b <= a && 0 <= a % b < b && a == (a / b) * b + a % b
  {
    DivBounds(a, b);
    if b > 1 {
      assert a / b <= a by {
        if a / b > a {
          MulAtLeastFactor(b, a / b);
        }
      }
    }
  }

  /** Euclidean division of any integer by a positive divisor. */
  lemma DivModPos(a: int, b: int)
    requires b > 0
    ensures 0 <= a % b < b && a == (a / b) * b + a % b
  {
  }

  /** Multiplying by a non-negative factor keeps an order. */
  lemma MulLe(x: int, y: int, k: int)
    requires x <= y && k >= 0
    ensures x * k <= y * k
  {
  }

  lemma MulAtLeastFactor(x: nat, k: nat)
    requires x >= 1
    ensures x * k >= k
  {
  }

  /** C++ `a / b` on signed integers: the quotient truncated toward zero. */
  function TruncDiv(a: int, b: int): (q: int)
    requires b != 0
    ensures Abs(q) * Abs(b) <= Abs(a) < (Abs(q) + 1) * Abs(b)
    ensures q == 0 || ((q < 0) <==> ((a < 0) != (b < 0)))
  {
    var m := Abs(a) / Abs(b);
    DivModNat(Abs(a), Abs(b));
    DivBounds(Abs(a), Abs(b));
    var q := if (a < 0) == (b < 0) then m else -m;
    assert Abs(q) == m;
    q
  }

  /** C++ `a % b` on signed integers: the remainder takes the sign of the dividend. */
  function TruncMod(a: int, b: int): (r: int)
    requires b != 0
    ensures a == TruncDiv(a, b) * b + r
    ensures Abs(r) < Abs(b)
    ensures r == 0 || ((r < 0) <==> (a < 0))
  {
    var q := TruncDiv(a, b);
    AbsMul(q, b);
    a - q * b
  }

  /** On a non-negative dividend and a positive divisor, truncation and the
      Euclidean operators agree. */
  lemma TruncIsEuclidOnNatural(a: int, b: int)
    requires a >= 0 && b > 0
    ensures TruncDiv(a, b) == a / b && TruncMod(a, b) == a % b
  {
  }

  /** `std::round(n / d)` computed exactly: the nearest integer to the ratio,
      halves going away from zero. */
  function RoundHalfAway(n: int, d: int): (r: int)
    requires d != 0
    ensures 2 * Abs(n - r * d) <= Abs(d)
    ensures 2 * Abs(n - r * d) == Abs(d) ==> Abs(r) * Abs(d) > Abs(n)
    ensures r == 0 || ((r < 0) <==> ((n < 0) != (d < 0)))
  {
    var m := (2 * Abs(n) + Abs(d)) / (2 * Abs(d));
    var r := if (n < 0) == (d < 0) then m else -m;
    RoundCorrect(n, d, m, r);
    r
  }

  lemma RoundCorrect(n: int, d: int, m: nat, r: int)
    requires d != 0
    requires m == (2 * Abs(n) + Abs(d)) / (2 * Abs(d))
    requires r == if (n < 0) == (d < 0) then m else -(m as int)
    ensures 2 * Abs(n - r * d) <= Abs(d)
    ensures 2 * Abs(n - r * d) == Abs(d) ==> Abs(r) * Abs(d) > Abs(n)
    ensures r == 0 || ((r < 0) <==> ((n < 0) != (d < 0)))
  {
    RoundBounds(Abs(n), Abs(d));
    RoundResidue(n, d, r, m);
    assert Abs(r) == m;
  }

  lemma RoundBounds(a: nat, b: nat)
    requires b > 0
    ensures var m := (2 * a + b) / (2 * b);
      2 * Abs(a - m * b) <= b && (2 * Abs(a - m * b) == b ==> m * b > a)
  {
    var m := (2 * a + b) / (2 * b);
    DivBounds(2 * a + b, 2 * b);
    assert m * (2 * b) == 2 * (m * b);
    assert (m + 1) * (2 * b) == 2 * (m * b) + 2 * b;
  }

  lemma RoundResidue(n: int, d: int, r: int, m: nat)
    requires d != 0
    requires r == if (n < 0) == (d < 0) then m else -(m as int)
    ensures Abs(n - r * d) == Abs(Abs(n) - m * Abs(d))
  {
    NegMul(m, d);
    NegMul(m, Abs(d));
    if d < 0 {
      assert d == -(Abs(d) as int);
    }
  }

  lemma NegMul(x: int, y: int)
    ensures (-x) * y == -(x * y) && x * (-y) == -(x * y)
  {
  }

  /** Rounding a ratio that is already a whole number gives that number. */
  lemma RoundOfExact(q: int, d: int)
    requires d != 0
    ensures RoundHalfAway(q * d, d) == q
  {
    NearestMultiple(q, d, RoundHalfAway(q * d, d));
  }

  /** Only `q` itself lies within half a step `d` of `q * d`, on the grid of multiples of `d`. */
  lemma NearestMultiple(q: int, d: int, r: int)
    requires d != 0
    requires 2 * Abs(q * d - r * d) <= Abs(d)
    ensures r == q
  {
    var e := q - r;
    SubMul(q, r, d);
    AbsMul(e, d);
    if e != 0 {
      MulAtLeastFactor(Abs(e), Abs(d));
    }
  }

  lemma SubMul(a: int, b: int, k: int)
    ensures a * k - b * k == (a - b) * k
  {
  }

  /** Regrouping a product of three factors. */
  lemma MulAssoc(a: int, b: int, c: int)
    ensures a * b * c == a * (b * c)
  {
  }

  /** Truncating division of an exact multiple gives the multiplier back. */
  lemma TruncDivOfExact(q: int, d: int)
    requires d != 0
    ensures TruncDiv(q * d, d) == q
  {
    var t := TruncDiv(q * d, d);
    AbsMul(q, d);
    MulMonotone(Abs(t), Abs(q), Abs(d));
  }

  /** A `qreal` converted to an integer type (`static_cast`): truncation toward zero. */
  function TruncReal(x: real): (r: int)
    ensures Abs(r) as real <= (if x < 0.0 then -x else x) < (Abs(r) + 1) as real
    ensures r == 0 || ((r < 0) <==> (x < 0.0))
  {
    if x < 0.0 then -((-x).Floor) else x.Floor
  }

  /** Ratios with positive denominators compare as their cross products. */
  lemma RatioLess(a: int, b: int, c: int, d: int)
    requires b > 0 && d > 0
    ensures (a as real / b as real < c as real / d as real) <==> a * d < c * b
    ensures (a as real / b as real == c as real / d as real) <==> a * d == c * b
  {
    var x, y, k := a as real / b as real, c as real / d as real, (b * d) as real;
    assert x * k == (a * d) as real;
    assert y * k == (c * b) as real;
    PositiveScaling(x, y, k);
  }

  lemma PositiveScaling(x: real, y: real, k: real)
    requires k > 0.0
    ensures x < y <==> x * k < y * k
    ensures x == y <==> x * k == y * k
  {
  }

  /** Quotient and remainder are determined by any split with a remainder in range. */
  lemma DivModUnique(x: int, k: int, q: int, r: int)
    requires k > 0 && 0 <= r < k && x == q * k + r
    ensures x / k == q && x % k == r
  {
    var q', r' := x / k, x % k;
    assert (q - q') * k == r' - r;
    if q > q' {
      MulAtLeastFactor(q - q', k);
    } else if q < q' {
      MulAtLeastFactor(q' - q, k);
    }
  }

  /** Division by a positive divisor keeps an order. */
  lemma DivMonotone(a: int, b: int, k: int)
    requires 0 <= a <= b && k > 0
    ensures a / k <= b / k
  {
    DivModNat(a, k);
    DivModNat(b, k);
    if a / k > b / k {
      MulLe(b / k + 1, a / k, k);
    }
  }
}
