/** Rounding an exact value to a whole number of units, in the two modes that
    the money helpers use: half away from zero, and toward zero. */
module Rounding {

  /** decimal.js ROUND_HALF_UP: the nearest integer, ties away from zero. */
  function RoundHalfAway(x: real): (n: int)
    ensures x >= 0.0 ==> x - 0.5 < n as real <= x + 0.5
    ensures x <= 0.0 ==> x - 0.5 <= n as real < x + 0.5
  {
    if x >= 0.0 then (x + 0.5).Floor else -((0.5 - x).Floor)
  }

  /** decimal.js ROUND_DOWN: the integer part. */
  function TruncTowardZero(x: real): (n: int)
    ensures x >= 0.0 ==> 0 <= n && x - 1.0 < n as real <= x
    ensures x <= 0.0 ==> n <= 0 && x <= n as real < x + 1.0
  {
    if x >= 0.0 then x.Floor else -((-x).Floor)
  }

  function Abs(x: real): (r: real)
    ensures r >= 0.0 && (r == x || r == -x)
  {
    if x >= 0.0 then x else -x
  }

  /** The nearest integer, the one further from zero on a tie. */
  predicate IsNearest(n: int, x: real) {
    var off := n as real - x;
    -0.5 <= off <= 0.5 && (off == 0.5 ==> x > 0.0) && (off == -0.5 ==> x < 0.0)
  }

  /** The last integer on the way from zero to the value. */
  predicate IsTruncated(n: int, x: real) {
    if x >= 0.0 then 0 <= n && n as real <= x < n as real + 1.0
    else n <= 0 && n as real - 1.0 < x <= n as real
  }

  lemma NearestIsRounded(n: int, x: real)
    ensures IsNearest(n, x) <==> n == RoundHalfAway(x)
  {
    if IsNearest(n, x) {
      RoundUnique(x, n);
    }
  }

  lemma TruncatedIsTrunc(n: int, x: real)
    ensures IsTruncated(n, x) <==> n == TruncTowardZero(x)
  {
    if IsTruncated(n, x) {
      TruncUnique(x, n);
    }
  }

  /** Exactly half way between two integers. */
  predicate IsTie(x: real) {
    x - x.Floor as real == 0.5
  }

  /** The contract of RoundHalfAway determines its result. */
  lemma RoundUnique(x: real, n: int)
    requires x >= 0.0 ==> x - 0.5 < n as real <= x + 0.5
    requires x <= 0.0 ==> x - 0.5 <= n as real < x + 0.5
    ensures RoundHalfAway(x) == n
  {
    var m := RoundHalfAway(x);
    assert -1.0 < m as real - n as real < 1.0;
  }

  lemma TruncUnique(x: real, n: int)
    requires x >= 0.0 ==> 0 <= n && x - 1.0 < n as real <= x
    requires x <= 0.0 ==> n <= 0 && x <= n as real < x + 1.0
    ensures TruncTowardZero(x) == n
  {
    var m := TruncTowardZero(x);
    assert -1.0 < m as real - n as real < 1.0;
  }

  /** An integer closer than one half is the rounded value. */
  lemma RoundWithin(x: real, n: int)
    requires Abs(x - n as real) < 0.5
    ensures RoundHalfAway(x) == n
  {
    RoundUnique(x, n);
  }

  lemma RoundMonotone(x: real, y: real)
    requires x <= y
    ensures RoundHalfAway(x) <= RoundHalfAway(y)
  {
    var m, n := RoundHalfAway(x), RoundHalfAway(y);
    assert m as real - n as real < 1.0;
  }

  lemma RoundOdd(x: real)
    ensures RoundHalfAway(-x) == -RoundHalfAway(x)
  {
    RoundUnique(-x, -RoundHalfAway(x));
  }

  lemma TruncOdd(x: real)
    ensures TruncTowardZero(-x) == -TruncTowardZero(x)
  {
    TruncUnique(-x, -TruncTowardZero(x));
  }

  /** Half-away rounding commutes with subtracting a whole number, except for a
      tie that the subtraction carries across zero. */
  lemma RoundShift(x: real, k: int)
    ensures RoundHalfAway(x - k as real) == RoundHalfAway(x) - k
            <==> !(IsTie(x) && ((x > 0.0 && x < k as real) || (x < 0.0 && k as real < x)))
  {
    var y := x - k as real;
    var n := RoundHalfAway(x);
    if IsTie(x) {
      var f := x.Floor;
      RoundUnique(x, if x > 0.0 then f + 1 else f);
      RoundUnique(y, if y > 0.0 then f - k + 1 else f - k);
    } else {
      if Abs(x - n as real) == 0.5 {
        TieIsHalf(x, n);
      }
      RoundWithin(y, n - k);
    }
  }

  lemma TieIsHalf(x: real, n: int)
    requires Abs(x - n as real) == 0.5
    ensures IsTie(x)
  {
    if x == n as real + 0.5 {
      assert x.Floor == n;
    } else {
      assert x.Floor == n - 1;
    }
  }

  lemma RoundBelowTie(x: real, q: real)
    requires IsTie(x) && q < x
    ensures RoundHalfAway(q) as real < x
  {
    assert RoundHalfAway(q) < x.Floor + 1;
  }

  lemma RoundAboveTie(x: real, q: real)
    requires IsTie(x) && q > x
    ensures RoundHalfAway(q) as real > x
  {
    assert RoundHalfAway(q) > x.Floor;
  }
}
