/** Facts about products and quotients, one at a time: the solver uses them by
    name instead of searching for them. */
module Products {

  // ----- reals

  lemma ProductNonNegative(x: real, y: real)
    requires x >= 0.0 && y >= 0.0
    ensures x * y >= 0.0
  {
  }

  lemma ProductOfDifference(x: real, y: real, d: real)
    ensures (x - y) * d == x * d - y * d
  {
  }

  lemma NamedDifference(x: real, y: real, d: real, xd: real, yd: real)
    requires xd == x * d && yd == y * d
    ensures (x - y) * d == xd - yd
  {
    ProductOfDifference(x, y, d);
  }

  lemma SignTimesPositive(x: real, d: real)
    requires d > 0.0
    ensures x * d >= 0.0 <==> x >= 0.0
    ensures x * d > 0.0 <==> x > 0.0
  {
  }

  lemma SignOfProduct(a: real, b: real)
    ensures a * b > 0.0 <==> (a > 0.0 && b > 0.0) || (a < 0.0 && b < 0.0)
    ensures a * b == 0.0 <==> a == 0.0 || b == 0.0
  {
    if a > 0.0 && b > 0.0 {
      assert a * b > 0.0;
    } else if a < 0.0 && b < 0.0 {
      assert a * b == (-a) * (-b);
      assert (-a) * (-b) > 0.0;
    } else if a > 0.0 && b < 0.0 {
      assert a * (-b) > 0.0;
    } else if a < 0.0 && b > 0.0 {
      assert (-a) * b > 0.0;
    }
  }

  lemma UndoDivision(x: real, den: real)
    requires den != 0.0
    ensures x / den * 10000.0 * den == x * 10000.0
  {
    var y := x / den;
    assert y * den == x;
  }

  // ----- integers

  lemma NonNegative(x: int, y: int)
    requires x >= 0 && y >= 0
    ensures x * y >= 0
  {
  }

  lemma DistributeSum(x: int, y: int, c: int)
    ensures (x + y) * c == x * c + y * c
  {
  }

  lemma NegatedFactor(x: int, c: int)
    ensures -x * c == -(x * c)
  {
  }

  lemma SmallerFactor(x: int, y: int, c: int)
    requires c > 0 && x * c < y * c
    ensures x < y
  {
    DistributeSum(x - y, y, c);
    if x >= y {
      NonNegative(x - y, c);
    }
  }

  lemma DivisionUnique(total: int, n: nat, q: int, r: int)
    requires n > 0 && total == q * n + r && 0 <= r < n
    ensures total / n == q && total % n == r
  {
    var q', r' := total / n, total % n;
    assert total == q' * n + r';
    DistributeSum(q, 1, n);
    DistributeSum(q', 1, n);
    SmallerFactor(q, q' + 1, n);
    SmallerFactor(q', q + 1, n);
  }

  // ----- between them

  lemma FloorOfRatio(n: int, d: nat, f: int, r: nat, x: real)
    requires d > 0 && n == f * d + r && r < d && x * d as real == n as real
    ensures x.Floor == f
  {
    assert n as real == f as real * d as real + r as real;
    NamedDifference(x, f as real, d as real, n as real, f as real * d as real);
    SignTimesPositive(x - f as real, d as real);
    NamedDifference((f + 1) as real, x, d as real, f as real * d as real + d as real, n as real);
    SignTimesPositive((f + 1) as real - x, d as real);
  }
}
