/** The decimal arithmetic of a component, `score / maximum * weight`: a quotient and a
    product of 28 significant digits each, rounded half to even as the default context
    does, and then two places half up. Everything is counted in hundredths. */
module DecimalArithmetic {
  import opened Common

  /** The smallest and the first too large coefficient of 28 digits. */
  const LOW := 1_000_000_000_000_000_000_000_000_000
  const HIGH := 10_000_000_000_000_000_000_000_000_000

  /** `n / d` rounded to the nearest integer, ties away from zero. */
  function RoundHalfUp(n: int, d: int): int
    requires d > 0
  {
    if n >= 0 then (2 * n + d) / (2 * d) else -((2 * -n + d) / (2 * d))
  }

  function Pow10(k: nat): (p: nat)
    ensures p > 0
  {
    if k == 0 then 1 else 10 * Pow10(k - 1)
  }

  /** How many places give the quotient 28 significant digits. */
  function Places(score: nat, maximum: nat): nat
    requires score > 0 && maximum > 0
    decreases maximum * LOW - score
  {
    if score >= maximum * LOW then 0 else 1 + Places(10 * score, maximum)
  }

  /** The coefficient of the quotient. */
  function Quotient28(score: nat, maximum: nat): nat
    requires score > 0 && maximum > 0
  {
    RoundHalfEven(score * Pow10(Places(score, maximum)), maximum)
  }

  /** What the last of 28 digits of `x` counts, starting from `unit`. */
  function LastDigit(x: nat, unit: nat): (u: nat)
    requires unit > 0
    ensures u > 0
    decreases x - HIGH * unit
  {
    if x < HIGH * unit then unit else LastDigit(x, 10 * unit)
  }

  function Shortened(x: nat): nat {
    RoundHalfEven(x, LastDigit(x, 1)) * LastDigit(x, 1)
  }

  /** The coefficient of the product, in the quotient's places. */
  function Product28(score: nat, maximum: nat, weight: nat): nat
    requires score > 0 && maximum > 0
  {
    Shortened(Quotient28(score, maximum) * weight)
  }

  /** The component, in hundredths. */
  function Earned(score: nat, maximum: nat, weight: nat): nat
    requires maximum > 0
  {
    if score == 0 then 0 else RoundHalfUp(Product28(score, maximum, weight), Pow10(Places(score, maximum)))
  }

  // ------------------------------------------------ what finite precision changes

  /** `n / d` lies exactly halfway between two integers. */
  predicate ExactTie(n: int, d: int)
    requires d > 0
  {
    (2 * n + d) % (2 * d) == 0
  }

  /** The product was computed below the exact share. */
  predicate ComputedBelow(score: nat, maximum: nat, weight: nat)
    requires maximum > 0
  {
    score > 0 && Product28(score, maximum, weight) * maximum < score * weight * Pow10(Places(score, maximum))
  }

  /** `n / d` rounded half up, except that an exact tie may have been lost. */
  function Rounded(n: nat, d: nat, lost: bool): int
    requires d > 0
  {
    RoundHalfUp(n, d) - if lost && ExactTie(n, d) then 1 else 0
  }

  lemma Scaled(a: int, b: int)
    requires a >= 0 && b >= 1
    ensures a * b >= a
  {
  }

  lemma Quotient(d: int, q: int, r: int)
    requires 0 <= r < d
    ensures (d * q + r) / d == q
  {
    var x := (d * q + r) / d;
    assert d * q + r == d * x + (d * q + r) % d;
    assert d * q - d * x == d * (q - x) && d * x - d * q == d * (x - q);
    if x < q {
      Scaled(d, q - x);
    } else if x > q {
      Scaled(d, x - q);
    }
  }

  function Abs(x: int): (y: nat) { if x >= 0 then x else -x }

  lemma HalfEvenNear(n: nat, d: nat)
    requires d > 0
    ensures 2 * Abs(RoundHalfEven(n, d) * d - n) <= d && RoundHalfEven(n, d) >= 0
  {
    var q := n / d;
    assert n == q * d + n % d;
    assert (q + 1) * d == q * d + d;
  }

  lemma HalfEvenWithin(n: nat, d: nat, bound: nat)
    requires d > 0 && n <= bound * d
    ensures RoundHalfEven(n, d) <= bound
  {
    var q := n / d;
    assert n == d * q + n % d;
    assert d * (q - bound) == d * q - bound * d;
    if q >= bound + 1 {
      Scaled(d, q - bound);
    }
  }

  lemma {:induction false} PlacesExact(score: nat, maximum: nat)
    requires score > 0 && maximum > 0
    ensures maximum * LOW <= score * Pow10(Places(score, maximum))
    ensures score < maximum * HIGH ==> score * Pow10(Places(score, maximum)) < maximum * HIGH
    decreases maximum * LOW - score
  {
    if score < maximum * LOW {
      PlacesExact(10 * score, maximum);
      var p := Pow10(Places(10 * score, maximum));
      assert (10 * score) * p == score * (10 * p);
    }
  }

  predicate SmallUnit(u: nat) { u in {1, 10, 100, 1000, 10000, 100000} }

  lemma {:induction false} LastDigitSmall(x: nat, unit: nat)
    requires SmallUnit(unit) && x <= HIGH * 10000
    ensures SmallUnit(LastDigit(x, unit))
    decreases x - HIGH * unit
  {
    if x >= HIGH * unit {
      LastDigitSmall(x, 10 * unit);
    }
  }

  lemma CancelFactor(a: nat, b: nat, c: nat)
    requires a > 0 && a * b <= a * c
    ensures b <= c
  {
    assert a * (b - c) == a * b - a * c;
    if c < b {
      Scaled(a, b - c);
    }
  }

  lemma ProductAtMost(a: nat, b: nat, c: nat, d: nat)
    requires a <= b && c <= d
    ensures a * c <= b * d
  {
    assert a * c <= b * c <= b * d;
  }

  lemma QuotientNear(score: nat, maximum: nat)
    requires 0 < score <= maximum
    ensures var t, c := Pow10(Places(score, maximum)), Quotient28(score, maximum);
            t >= LOW && c <= HIGH && 2 * Abs(c * maximum - score * t) <= maximum
  {
    var t := Pow10(Places(score, maximum));
    PlacesExact(score, maximum);
    CancelFactor(score, LOW, t);
    HalfEvenNear(score * t, maximum);
    HalfEvenWithin(score * t, maximum, HIGH);
  }

  lemma ShortenedNear(x: nat)
    requires x <= HIGH * 10000
    ensures SmallUnit(LastDigit(x, 1)) && 2 * Abs(Shortened(x) - x) <= LastDigit(x, 1)
  {
    LastDigitSmall(x, 1);
    HalfEvenNear(x, LastDigit(x, 1));
  }

  /** How far the product is from the exact share, all told. */
  lemma ProductNear(score: nat, maximum: nat, weight: nat)
    requires 0 < score <= maximum && weight <= 10000
    ensures var t, p := Pow10(Places(score, maximum)), Product28(score, maximum, weight);
            t >= LOW && 2 * Abs(p * maximum - score * weight * t) <= 110000 * maximum
  {
    hide Quotient28, Places, Shortened, Pow10;
    var t, c, p := Pow10(Places(score, maximum)), Quotient28(score, maximum), Product28(score, maximum, weight);
    QuotientNear(score, maximum);
    ProductAtMost(c, HIGH, weight, 10000);
    ShortenedNear(c * weight);
    AbsTimes(p - c * weight, maximum, 100000);
    AbsTimes(c * maximum - score * t, weight, maximum);
    ProductAtMost(maximum, maximum, weight, 10000);
    Rearranged(p, c, score, t, weight, maximum);
  }

  lemma AbsTimes(e: int, m: nat, bound: nat)
    requires 2 * Abs(e) <= bound
    ensures 2 * Abs(e * m) <= bound * m
  {
    ProductAtMost(2 * Abs(e), bound, m, m);
    if e >= 0 {
      assert e * m >= 0;
    } else {
      assert (-e) * m >= 0 && (-e) * m == -(e * m);
    }
  }

  lemma Rearranged(p: int, c: int, score: int, t: int, weight: int, maximum: int)
    ensures (p - c * weight) * maximum + (c * maximum - score * t) * weight == p * maximum - score * weight * t
  {
    assert (p - c * weight) * maximum == p * maximum - c * weight * maximum;
    assert (c * maximum - score * t) * weight == c * maximum * weight - score * t * weight;
    assert c * weight * maximum == c * maximum * weight && score * t * weight == score * weight * t;
  }

  // ------------------------------------------------------------------ rounding

  /** Rounding a computed `p / t` instead of the exact `n / d`, when the two are closer
      than `1 / 2d`: the same, unless the exact one is a tie and the other fell below it. */
  lemma RoundingAgrees(n: nat, d: nat, p: nat, t: nat)
    requires d > 0 && t > 0 && 2 * Abs(p * d - n * t) < t
    ensures RoundHalfUp(p, t) == Rounded(n, d, p * d < n * t)
  {
    var q, r := (2 * n + d) / (2 * d), (2 * n + d) % (2 * d);
    var e, z := 2 * (p * d - n * t), 2 * p + t - (2 * t) * q;
    assert 2 * n + d == (2 * d) * q + r;
    Remainder(n, d, p, t, q, r);
    RemainderBounds(t, r, d);
    BetweenFactors(z, d, t, r == 0 && e < 0);
    if r == 0 && e < 0 {
      assert (2 * t) * (q - 1) == (2 * t) * q - 2 * t;
      Quotient(2 * t, q - 1, z + 2 * t);
    } else {
      Quotient(2 * t, q, z);
    }
  }

  lemma Remainder(n: nat, d: nat, p: nat, t: nat, q: int, r: int)
    requires 2 * n + d == (2 * d) * q + r
    ensures (2 * p + t - (2 * t) * q) * d == t * r + 2 * (p * d - n * t)
  {
    assert (2 * p + t - (2 * t) * q) * d == 2 * (p * d) + t * d - ((2 * t) * q) * d;
    assert t * (2 * n + d) == 2 * (n * t) + t * d;
    assert t * ((2 * d) * q + r) == t * ((2 * d) * q) + t * r;
    assert t * ((2 * d) * q) == ((2 * t) * q) * d;
  }

  lemma RemainderBounds(t: nat, r: nat, d: nat)
    requires r < 2 * d
    ensures r > 0 ==> t <= t * r
    ensures t * r <= (2 * t) * d - t
  {
    ProductAtMost(t, t, r, 2 * d - 1);
    assert t * (2 * d - 1) == (2 * t) * d - t;
    if r > 0 {
      Scaled(t, r);
    }
  }

  /** A product between multiples of a factor puts the other factor between them. */
  lemma BetweenFactors(z: int, d: nat, t: nat, below: bool)
    requires d > 0 && t > 0
    requires if below then 0 - t <= z * d < 0 else 0 <= z * d < (2 * t) * d
    ensures if below then 0 - 2 * t <= z < 0 else 0 <= z < 2 * t
  {
    assert d * (0 - z) == 0 - z * d && d * (z - 2 * t) == z * d - (2 * t) * d;
    if z < 0 {
      Scaled(d, 0 - z);
      Scaled(0 - z, d);
      assert (0 - z) * d == 0 - z * d;
    } else {
      assert z * d >= 0;
    }
    if z > 2 * t {
      Scaled(d, z - 2 * t);
    }
  }

  /** Finite precision changes nothing but exact ties: for every score within its maximum,
      what the code computes is the exact share rounded half up, unless the share is an
      exact tie that was computed too small. */
  lemma EarnedExactly(score: nat, maximum: nat, weight: nat)
    requires 0 < maximum <= 999999 && score <= maximum && weight <= 10000
    ensures Earned(score, maximum, weight) == Rounded(score * weight, maximum, ComputedBelow(score, maximum, weight))
  {
    if score == 0 {
      NothingEarned(maximum, weight);
    } else {
      ProductNear(score, maximum, weight);
      var t, p := Pow10(Places(score, maximum)), Product28(score, maximum, weight);
      hide *;
      CloseEnough(p * maximum - score * weight * t, maximum, t);
      RoundingAgrees(score * weight, maximum, p, t);
      EarnedIs(score, maximum, weight);
    }
  }

  lemma EarnedIs(score: nat, maximum: nat, weight: nat)
    requires score > 0 && maximum > 0
    ensures var t, p := Pow10(Places(score, maximum)), Product28(score, maximum, weight);
            && Earned(score, maximum, weight) == RoundHalfUp(p, t)
            && (ComputedBelow(score, maximum, weight) <==> p * maximum < score * weight * t)
  {
    hide Places, Pow10, Product28, RoundHalfUp;
  }

  lemma NothingEarned(maximum: nat, weight: nat)
    requires maximum > 0
    ensures Earned(0, maximum, weight) == Rounded(0 * weight, maximum, ComputedBelow(0, maximum, weight))
  {
    Quotient(2 * maximum, 0, maximum);
  }

  lemma CloseEnough(e: int, maximum: nat, t: nat)
    requires 2 * Abs(e) <= 110000 * maximum && maximum <= 999999 && t >= LOW
    ensures 2 * Abs(e) < t
  {
  }

  // ------------------------------------------------------- when a tie is lost

  /** Rounding half to even falls below an even number only from more than half a unit. */
  lemma HalfEvenBelow(x: nat, u: nat, y: int)
    requires u > 0 && y % 2 == 0
    ensures RoundHalfEven(x, u) < y <==> 2 * x + u < 2 * (u * y)
  {
    var q, r := x / u, x % u;
    assert x == u * q + r;
    assert u * (q - y) == u * q - u * y && u * (y - q) == u * y - u * q;
    if q >= y {
      assert u * (q - y) >= 0;
    } else if y - q >= 2 {
      assert u * (y - q) >= u * 2 by {
        ProductAtMost(2, y - q, u, u);
      }
    } else {
      assert y - q == 1;
    }
  }

  lemma {:induction false} PowAtLeast(k: nat)
    ensures k <= 6 ==> Pow10(k) <= 1000000
    ensures k >= 7 ==> Pow10(k) == 10000000 * Pow10(k - 7)
  {
    if k > 7 {
      PowAtLeast(k - 1);
    } else {
      assert Pow10(3) == 1000 && Pow10(6) == 1000000;
    }
  }

  lemma UnitDivides(k: nat, u: nat) returns (v: nat)
    requires Pow10(k) >= LOW && SmallUnit(u)
    ensures Pow10(k) == 4 * (u * v)
  {
    PowAtLeast(k);
    v := (2500000 / u) * Pow10(k - 7);
    assert u * (2500000 / u) == 2500000;
    assert u * v == (u * (2500000 / u)) * Pow10(k - 7);
  }

  /** When a tie is lost: exactly when what the quotient fell short by, times the weight,
      is more than half a unit of the product's last digit. */
  lemma TieLostExactly(score: nat, maximum: nat, weight: nat)
    requires 0 < score <= maximum && weight <= 10000 && ExactTie(score * weight, maximum)
    ensures var t, c := Pow10(Places(score, maximum)), Quotient28(score, maximum);
            ComputedBelow(score, maximum, weight)
            <==> LastDigit(c * weight, 1) * maximum < 2 * ((score * t - c * maximum) * weight)
  {
    var k, c := Places(score, maximum), Quotient28(score, maximum);
    var t, u := Pow10(k), LastDigit(c * weight, 1);
    QuotientNear(score, maximum);
    ProductAtMost(c, HIGH, weight, 10000);
    ShortenedNear(c * weight);
    EarnedIs(score, maximum, weight);
    var v := UnitDivides(k, u);
    assert Product28(score, maximum, weight) == RoundHalfEven(c * weight, u) * u;
    var q := (2 * (score * weight) + maximum) / (2 * maximum);
    assert 2 * (score * weight) + maximum == (2 * maximum) * q;
    hide *;
    TieCompared(score * weight, maximum, c * weight, t, u, v, q);
    Shortfall(score, t, c, maximum, weight);
  }

  lemma Shortfall(score: nat, t: nat, c: nat, maximum: nat, weight: nat)
    ensures (score * t - c * maximum) * weight == score * weight * t - c * weight * maximum
  {
    assert (score * t - c * maximum) * weight == score * t * weight - c * maximum * weight;
    assert score * t * weight == score * weight * t && c * maximum * weight == c * weight * maximum;
  }

  /** The comparison behind it: `n / d` is a tie, `x` stands for `n / d` in units of `1 / t`
      and is rounded to a multiple of `u`, of which half of `t` is an even multiple. */
  lemma TieCompared(n: nat, d: nat, x: nat, t: nat, u: nat, v: nat, q: int)
    requires d > 0 && u > 0 && 2 * n + d == (2 * d) * q && t == 4 * (u * v)
    ensures RoundHalfEven(x, u) * u * d < n * t <==> u * d < 2 * (n * t - x * d)
  {
    var y := 2 * (v * (2 * q - 1));
    TieTimes(n, d, q, t, u, v);
    HalfEvenBelow(x, u, y);
    hide RoundHalfEven;
    CompareScaled(RoundHalfEven(x, u), y, u * d);
    CompareHalves(x, u, y, d);
    assert RoundHalfEven(x, u) * u * d == RoundHalfEven(x, u) * (u * d);
  }

  lemma TieTimes(n: nat, d: nat, q: int, t: nat, u: nat, v: nat)
    requires d > 0 && 2 * n + d == (2 * d) * q && t == 4 * (u * v)
    ensures n * t == (2 * (v * (2 * q - 1))) * (u * d)
  {
    assert 2 * n == d * (2 * q - 1);
    assert n * t == (2 * n) * (2 * (u * v)) == (d * (2 * q - 1)) * (2 * (u * v));
  }

  lemma CompareScaled(a: int, b: int, m: nat)
    requires m > 0
    ensures a * m < b * m <==> a < b
  {
  }

  lemma CompareHalves(x: nat, u: nat, y: int, m: nat)
    requires m > 0
    ensures 2 * x + u < 2 * (u * y) <==> u * m < 2 * (y * (u * m) - x * m)
  {
    CompareScaled(2 * x + u, 2 * (u * y), m);
    assert (2 * x + u) * m == 2 * (x * m) + u * m;
    assert (2 * (u * y)) * m == 2 * (y * (u * m));
  }

  // --------------------------------------------------------------- an example

  lemma {:induction false} PlacesAre(score: nat, maximum: nat, k: nat)
    requires score > 0 && maximum > 0 && maximum * LOW <= score * Pow10(k)
    requires k > 0 ==> score * Pow10(k - 1) < maximum * LOW
    ensures Places(score, maximum) == k
    decreases k
  {
    if k > 0 {
      ProductAtMost(score, score, 1, Pow10(k - 1));
      assert (10 * score) * Pow10(k - 1) == score * Pow10(k);
      if k > 1 {
        assert (10 * score) * Pow10(k - 2) == score * Pow10(k - 1);
      }
      PlacesAre(10 * score, maximum, k - 1);
    }
  }

  lemma Powers()
    ensures Pow10(27) == LOW && Pow10(28) == HIGH
  {
    assert Pow10(4) == 10000 && Pow10(8) == 100000000 && Pow10(12) == 1000000000000;
    assert Pow10(16) == 10000000000000000 && Pow10(20) == 100000000000000000000;
    assert Pow10(24) == 1000000000000000000000000;
  }

  /** Ties are really lost: 5.00 out of 14.00 at a weight of 21.07 is exactly 7.525. The
      quotient is 0.3571428571428571428571428571, the product
      7.524999999999999999999999999, and the component 7.52, not 7.53. */
  lemma TieLost()
    ensures ExactTie(500 * 2107, 1400) && RoundHalfUp(500 * 2107, 1400) == 753
    ensures Quotient28(500, 1400) == 3571428571428571428571428571 && Places(500, 1400) == 28
    ensures Product28(500, 1400, 2107) == 7524999999999999999999999999000
    ensures Earned(500, 1400, 2107) == 752
  {
    Powers();
    PlacesAre(500, 1400, 28);
    hide Pow10, Places;
    assert Quotient28(500, 1400) == 3571428571428571428571428571;
    UnitOfExample();
  }

  lemma UnitOfExample()
    ensures LastDigit(3571428571428571428571428571 * 2107, 1) == 1000
  {
    assert LastDigit(3571428571428571428571428571 * 2107, 100) == 1000;
  }
}
