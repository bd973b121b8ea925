/** decimal.js keeps 34 significant digits of a quotient; money.ts rounds the
    quotient a second time, to four decimals. This module shows that the first
    rounding never changes the second, so the rest of the model may divide
    exactly. */
module Precision {
  import opened Rounding
  import opened Products
  import opened Amounts

  const DIGITS_33 := 1_000_000_000_000_000_000_000_000_000_000_000
  const LIMIT := 10_000_000_000_000_000_000_000_000_000

  function Pow10(k: nat): (p: nat)
    ensures p >= 1
  {
    if k == 0 then 1 else 10 * Pow10(k - 1)
  }

  /** The least number of decimal places, from `k` on, that shows 34 significant
      digits of n / d. */
  function Places(n: nat, d: nat, k: nat): (p: nat)
    requires n > 0 && d > 0
    ensures n * Pow10(p) >= DIGITS_33 * d && p >= k
    ensures forall j | k <= j < p :: n * Pow10(j) < DIGITS_33 * d
    decreases DIGITS_33 * d - n * Pow10(k)
  {
    if n * Pow10(k) >= DIGITS_33 * d then k
    else
      assert n * Pow10(k + 1) == 10 * (n * Pow10(k));
      Places(n, d, k + 1)
  }

  /** n / d as decimal.js returns it, for a quotient below 10 to the 33rd: the
      magnitude is rounded, the sign is kept beside it. */
  function Quotient34(n: int, d: nat): Decimal
    requires d > 0
  {
    if n < 0 then -Magnitude34(-n, d) else Magnitude34(n, d)
  }

  function Magnitude34(n: nat, d: nat): Decimal
    requires d > 0
  {
    if n == 0 then 0.0
    else
      var scale := Pow10(Places(n, d, 0));
      RoundHalfAway((n * scale) as real / d as real) as real / scale as real
  }

  /** Half-away rounding of a non-negative ratio, in integers. */
  lemma RoundOfRatio(a: nat, b: nat)
    requires b > 0
    ensures var y := RoundHalfAway(a as real / b as real);
            y >= 0 && y * (2 * b) <= 2 * a + b < (y + 1) * (2 * b)
  {
    var x := a as real / b as real;
    SignTimesPositive(x, b as real);
    assert x * b as real == a as real;
    RatioBounds(a, b, RoundHalfAway(x), x);
  }

  lemma RatioBounds(a: nat, b: nat, y: int, x: real)
    requires b > 0 && x * b as real == a as real
    requires x - 0.5 < y as real <= x + 0.5
    ensures y * (2 * b) <= 2 * a + b < (y + 1) * (2 * b)
  {
    var lo := y * b;
    assert lo as real == y as real * b as real;
    NamedDifference(x, y as real, b as real, a as real, lo as real);
    HalfTimes(x - y as real, b as real, a as real - lo as real);
    assert y * (2 * b) == 2 * lo;
    DistributeSum(y, 1, 2 * b);
    InUnits(a, b, lo);
  }

  lemma HalfTimes(e: real, b: real, eb: real)
    requires b > 0.0 && -0.5 <= e < 0.5 && eb == e * b
    ensures -0.5 * b <= eb < 0.5 * b
  {
    SignTimesPositive(e + 0.5, b);
    SignTimesPositive(0.5 - e, b);
    assert (e + 0.5) * b == e * b + 0.5 * b;
    assert (0.5 - e) * b == 0.5 * b - e * b;
  }

  lemma InUnits(a: int, b: int, lo: int)
    requires -0.5 * b as real <= a as real - lo as real < 0.5 * b as real
    ensures 2 * lo <= 2 * a + b < 2 * lo + 2 * b
  {
  }

  /** Rounding n·l / d to an integer, where n = f·d + r, keeps it between the
      same multiples of l when l exceeds half of d. */
  lemma RoundedBetween(f: nat, r: nat, l: nat, d: nat, num: int, y: int)
    requires r < d < 2 * l
    requires num == 2 * ((f * d + r) * l) + d
    requires y * (2 * d) <= num < (y + 1) * (2 * d)
    ensures l * f <= y < l * (f + 1)
  {
    var lo := l * f;
    Expand(f, r, l, d);
    Residue(r, l, d);
    DistributeSum(lo, l, 2 * d);
    SmallerFactor(lo, y + 1, 2 * d);
    SmallerFactor(y, lo + l, 2 * d);
    DistributeSum(f, 1, l);
  }

  lemma Residue(r: nat, l: nat, d: nat)
    requires r < d < 2 * l
    ensures 0 <= 2 * (r * l) + d < l * (2 * d)
  {
    NonNegative(d - 1 - r, l);
    NonNegative(r, l);
    assert (d - 1 - r) * l == d * l - l - r * l;
    assert l * (2 * d) == 2 * (d * l);
  }

  lemma Expand(f: int, r: int, l: int, d: int)
    ensures 2 * ((f * d + r) * l) == l * f * (2 * d) + 2 * (r * l)
  {
    DistributeSum(f * d, r, l);
    assert f * d * l == l * f * d;
  }

  lemma TwoFactors(l: nat, m: nat, k: nat)
    requires k >= 5 && l == Pow10(k - 5)
    ensures m * Pow10(k) == m * 100_000 * l
  {
    assert Pow10(k) == 10 * Pow10(k - 1) == 100 * Pow10(k - 2) == 1000 * Pow10(k - 3)
        == 10_000 * Pow10(k - 4) == 100_000 * l;
  }

  /** 34 digits of a positive quotient fix its value to the fifth decimal. */
  lemma FifthDecimalKept(n: nat, d: nat)
    requires 0 < n < 2 * LIMIT && d > 0
    ensures (Magnitude34(n, d) * 100_000.0).Floor == n * 100_000 / d
  {
    hide RoundHalfAway, Places, Pow10;
    var k := Places(n, d, 0);
    FivePlaces(n, d, k);
    var l := Pow10(k - 5);
    TwoFactors(l, n, k);
    TwoFactors(l, 1, k);
    LargeScale(n, l, d);
    var y := RoundHalfAway((n * Pow10(k)) as real / d as real);
    var x := y as real / Pow10(k) as real * 100_000.0;
    FifthDecimalOf(n * 100_000, l, d, y);
    Unscale(y, l, x);
    FloorOfScaled(y, l, n * 100_000 / d, x);
  }

  /** What the 34-digit quotient is: a whole number of 34 digits (or ten to the
      34th), moved k places, the nearest to the exact quotient. */
  lemma ThirtyFourDigits(n: nat, d: nat) returns (k: nat, digits: int)
    requires 0 < n < 2 * LIMIT && d > 0
    ensures Magnitude34(n, d) * Pow10(k) as real == digits as real
    ensures IsNearest(digits, (n * Pow10(k)) as real / d as real)
    ensures 1_000_000_000_000_000_000_000_000_000_000_000 <= digits <= 10_000_000_000_000_000_000_000_000_000_000_000
  {
    k := Places(n, d, 0);
    FivePlaces(n, d, k);
    var x := (n * Pow10(k)) as real / d as real;
    digits := RoundHalfAway(x);
    NearestIsRounded(digits, x);
    assert Pow10(k) == 10 * Pow10(k - 1) && n * Pow10(k - 1) < DIGITS_33 * d;
    TenTimesLess(n, Pow10(k - 1), d);
    BetweenPowers(n * Pow10(k), d, digits, x);
  }

  lemma TenTimesLess(n: nat, p: nat, d: nat)
    requires n * p < DIGITS_33 * d
    ensures n * (10 * p) < 10 * DIGITS_33 * d
  {
    assert n * (10 * p) == 10 * (n * p);
  }

  lemma BetweenPowers(m: nat, d: nat, digits: int, x: real)
    requires d > 0 && DIGITS_33 * d <= m < 10 * DIGITS_33 * d && x == m as real / d as real
    requires digits == RoundHalfAway(x)
    ensures DIGITS_33 <= digits <= 10 * DIGITS_33
  {
    assert x * d as real == m as real;
    AtLeast(x, d as real, DIGITS_33 as real, m as real);
    Below(x, d as real, (10 * DIGITS_33) as real, m as real);
  }

  lemma AtLeast(x: real, d: real, bound: real, m: real)
    requires d > 0.0 && x * d == m && bound * d <= m
    ensures x >= bound
  {
    ProductOfDifference(x, bound, d);
    SignTimesPositive(x - bound, d);
  }

  lemma Below(x: real, d: real, bound: real, m: real)
    requires d > 0.0 && x * d == m && m < bound * d
    ensures x < bound
  {
    ProductOfDifference(bound, x, d);
    SignTimesPositive(bound - x, d);
  }

  lemma LargeScale(n: nat, l: nat, d: nat)
    requires n < 2 * LIMIT && l > 0 && n * 100_000 * l >= DIGITS_33 * d
    ensures d < 2 * l
  {
    NonNegative(2 * LIMIT - 1 - n, l);
    assert (2 * LIMIT - 1 - n) * l == 2 * LIMIT * l - l - n * l;
    assert n * 100_000 * l == 100_000 * (n * l);
  }

  lemma FifthDecimalOf(n: nat, l: nat, d: nat, y: int)
    requires 0 < d < 2 * l && y == RoundHalfAway((n * l) as real / d as real)
    ensures l * (n / d) <= y < l * (n / d + 1)
  {
    RoundOfRatio(n * l, d);
    var f, r := n / d, n % d;
    assert n == f * d + r;
    RoundedBetween(f, r, l, d, 2 * (n * l) + d, y);
  }

  lemma FivePlaces(n: nat, d: nat, k: nat)
    requires 0 < n < 2 * LIMIT && d > 0
    requires n * Pow10(k) >= DIGITS_33 * d
    ensures k >= 5
  {
    if k <= 4 {
      assert Pow10(4) == 10_000 && Pow10(3) == 1000 && Pow10(2) == 100;
      assert Pow10(k) <= 10_000;
      NonNegative(10_000 - Pow10(k), n);
    }
  }

  lemma FloorOfScaled(y: int, l: nat, f: nat, x: real)
    requires l > 0 && l * f <= y < l * (f + 1)
    requires x * l as real == y as real
    ensures x.Floor == f
  {
    var ll := l as real;
    assert (l * f) as real == f as real * ll;
    assert (l * (f + 1)) as real == (f + 1) as real * ll;
    ProductOfDifference(x, f as real, ll);
    ProductOfDifference((f + 1) as real, x, ll);
    SignTimesPositive(x - f as real, ll);
    SignTimesPositive((f + 1) as real - x, ll);
  }

  lemma Unscale(y: int, l: nat, x: real)
    requires l > 0 && x == y as real / (100_000 * l) as real * 100_000.0
    ensures x * l as real == y as real
  {
    var q, s := y as real / (100_000 * l) as real, (100_000 * l) as real;
    assert q * s == y as real;
    assert s == 100_000.0 * l as real;
  }

  /** What money.ts makes of a non-negative value depends only on its first five
      decimals. */
  lemma RoundingsOfFifth(x: real, y: real)
    requires x >= 0.0 && y >= 0.0 && (x * 100_000.0).Floor == (y * 100_000.0).Floor
    ensures Money(x) == Money(y)
    ensures TruncTowardZero(x * 10000.0) == TruncTowardZero(y * 10000.0)
  {
    var f := (x * 100_000.0).Floor;
    MoneyFromFifth(x, f);
    MoneyFromFifth(y, f);
  }

  lemma MoneyFromFifth(x: real, f: nat)
    requires x >= 0.0 && (x * 100_000.0).Floor == f
    ensures Money(x) == (f + 5) / 10
    ensures TruncTowardZero(x * 10000.0) == f / 10
  {
    RoundUnique(x * 10000.0, (f + 5) / 10);
    TruncUnique(x * 10000.0, f / 10);
  }

  /** Main result: for a numerator below 2·10^28, rounding the 34-digit quotient
      to storage scale, half away or down, is rounding the exact one. */
  lemma PrecisionIsInvisible(n: int, d: nat)
    requires -2 * LIMIT < n < 2 * LIMIT && d > 0
    ensures var exact := n as real / d as real;
            && Money(Quotient34(n, d)) == Money(exact)
            && TruncTowardZero(Quotient34(n, d) * 10000.0) == TruncTowardZero(exact * 10000.0)
  {
    hide Magnitude34, TruncTowardZero, Money;
    if n > 0 {
      PositiveQuotient(n, d);
    } else if n < 0 {
      PositiveQuotient(-n, d);
      MirroredRoundings(Magnitude34(-n, d));
      MirroredRoundings((-n) as real / d as real);
      NegatedRatio(n, d);
    } else {
      ZeroQuotient(d);
    }
  }

  lemma ZeroQuotient(d: nat)
    requires d > 0
    ensures Quotient34(0, d) == 0 as real / d as real
  {
  }

  lemma MirroredRoundings(x: real)
    ensures Money(-x) == -Money(x)
    ensures TruncTowardZero(-x * 10000.0) == -TruncTowardZero(x * 10000.0)
  {
    MoneyOdd(x);
    TruncOdd(x * 10000.0);
    assert -x * 10000.0 == -(x * 10000.0);
  }

  lemma NegatedRatio(n: int, d: nat)
    requires d > 0
    ensures n as real / d as real == -((-n) as real / d as real)
  {
  }

  lemma PositiveQuotient(n: nat, d: nat)
    requires 0 < n < 2 * LIMIT && d > 0
    ensures var exact := n as real / d as real;
            && Money(Magnitude34(n, d)) == Money(exact)
            && TruncTowardZero(Magnitude34(n, d) * 10000.0) == TruncTowardZero(exact * 10000.0)
  {
    FifthDecimalKept(n, d);
    var exact := n as real / d as real;
    var f, r := n * 100_000 / d, n * 100_000 % d;
    assert n * 100_000 == f * d + r;
    FloorOfRatio(n * 100_000, d, f, r, exact * 100_000.0);
    NonNegativeFloor(Magnitude34(n, d), f);
    NonNegativeFloor(exact, f);
    RoundingsOfFifth(Magnitude34(n, d), exact);
  }

  lemma NonNegativeFloor(x: real, f: nat)
    requires (x * 100_000.0).Floor == f
    ensures x >= 0.0
  {
  }

}
