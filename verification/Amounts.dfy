/** The fixed-point arithmetic of src/lib/money.ts.

    A Decimal is an exact value in rupees. An Amount is what is left after
    rounding to storage scale: a whole number of units of 0.0001. */
module Amounts {
  import opened Rounding
  import opened Products

  type Decimal = real
  type Amount = int

  datatype Result<+T> = Ok(value: T) | RangeError

  /** The exact value of a stored amount. */
  function Val(a: Amount): Decimal {
    a as real / 10000.0
  }

  /** Round to storage scale, four decimals. */
  function Money(x: Decimal): Amount {
    RoundHalfAway(x * 10000.0)
  }

  /** Round to presentation scale; the result counts paise. */
  function Round2(x: Decimal): int {
    RoundHalfAway(x * 100.0)
  }

  function Sum(values: seq<Decimal>): Decimal {
    if values == [] then 0.0 else Sum(values[..|values| - 1]) + values[|values| - 1]
  }

  function Product(values: seq<Decimal>): Decimal {
    if values == [] then 1.0 else Product(values[..|values| - 1]) * values[|values| - 1]
  }

  function Add(values: seq<Decimal>): Amount {
    Money(Sum(values))
  }

  function Subtract(minuend: Decimal, values: seq<Decimal>): Amount {
    Money(minuend - Sum(values))
  }

  function Multiply(values: seq<Decimal>): Amount {
    Money(Product(values))
  }

  function Divide(dividend: Decimal, divisor: Decimal): Result<Amount> {
    if divisor == 0.0 then RangeError else Ok(Money(dividend / divisor))
  }

  function PercentOf(value: Decimal, percent: Decimal): Amount {
    Money(value * percent / 100.0)
  }

  function TaxFromInclusive(inclusive: Decimal, rate: Decimal): Amount {
    var divisor := 100.0 + rate;
    if divisor == 0.0 then 0 else Money(inclusive * rate / divisor)
  }

  function NetFromInclusive(inclusive: Decimal, rate: Decimal): Amount {
    Subtract(inclusive, [Val(TaxFromInclusive(inclusive, rate))])
  }

  /** `max` rounds the running best but compares it with unrounded candidates.
      An empty argument list starts, and ends, at zero. */
  function Max(values: seq<Decimal>): Amount {
    MaxFold(values, Money(if values == [] then 0.0 else values[0]))
  }

  function MaxFold(values: seq<Decimal>, first: Amount): Amount {
    if values == [] then first
    else
      var best := MaxFold(values[..|values| - 1], first);
      var v := values[|values| - 1];
      if v > Val(best) then Money(v) else best
  }

  function Min(values: seq<Decimal>): Amount {
    MinFold(values, Money(if values == [] then 0.0 else values[0]))
  }

  function MinFold(values: seq<Decimal>, first: Amount): Amount {
    if values == [] then first
    else
      var best := MinFold(values[..|values| - 1], first);
      var v := values[|values| - 1];
      if v < Val(best) then Money(v) else best
  }

  /** Nearest whole rupee minus the stored amount. */
  function RoundOffDifference(value: Decimal): Amount {
    var exact := Val(Money(value));
    Subtract(RoundHalfAway(exact) as real, [exact])
  }

  // ----- rounding to storage scale

  lemma MoneyOfVal(a: Amount)
    ensures Money(Val(a)) == a
  {
    RoundWithin(Val(a) * 10000.0, a);
  }

  lemma MoneyMonotone(x: Decimal, y: Decimal)
    requires x <= y
    ensures Money(x) <= Money(y)
  {
    RoundMonotone(x * 10000.0, y * 10000.0);
  }

  lemma SumOne(x: Decimal)
    ensures Sum([x]) == x
  {
    assert [x][..0] == [];
  }

  lemma SumTwo(x: Decimal, y: Decimal)
    ensures Sum([x, y]) == x + y
  {
    assert [x, y][..1] == [x];
    SumOne(x);
  }

  // ----- what the operations compute

  /** A list may be added up in parts; so no value is left out, and none counts
      twice. */
  lemma {:induction false} SumOfParts(a: seq<Decimal>, b: seq<Decimal>)
    ensures Sum(a + b) == Sum(a) + Sum(b)
  {
    if b == [] {
      assert a + b == a;
    } else {
      var last := |b| - 1;
      assert (a + b)[..|a + b| - 1] == a + b[..last];
      SumOfParts(a, b[..last]);
    }
  }

  lemma {:induction false} ProductOfParts(a: seq<Decimal>, b: seq<Decimal>)
    ensures Product(a + b) == Product(a) * Product(b)
  {
    if b == [] {
      assert a + b == a;
    } else {
      var last := |b| - 1;
      assert (a + b)[..|a + b| - 1] == a + b[..last];
      ProductOfParts(a, b[..last]);
      Associate(Product(a), Product(b[..last]), b[last]);
    }
  }

  lemma Associate(x: real, y: real, z: real)
    ensures x * y * z == x * (y * z)
  {
  }

  /** `add` and `multiply`: the amount nearest the exact result. A list of one
      value, and any two lists taken together, fix the exact result. */
  lemma FoldsAreNearest(a: seq<Decimal>, b: seq<Decimal>, x: Decimal)
    ensures IsNearest(Add(a), Sum(a) * 10000.0) && IsNearest(Multiply(a), Product(a) * 10000.0)
    ensures Sum(a + b) == Sum(a) + Sum(b) && Sum([x]) == x && Sum([]) == 0.0
    ensures Product(a + b) == Product(a) * Product(b) && Product([x]) == x && Product([]) == 1.0
  {
    NearestIsRounded(Add(a), Sum(a) * 10000.0);
    NearestIsRounded(Multiply(a), Product(a) * 10000.0);
    SumOfParts(a, b);
    ProductOfParts(a, b);
    SumOne(x);
    ProductOne(x);
  }

  lemma ProductOne(x: Decimal)
    ensures Product([x]) == x
  {
    assert [x][..0] == [];
  }

  /** `subtract` takes the values away one after the other. */
  lemma SubtractIsNearest(minuend: Decimal, x: Decimal, values: seq<Decimal>)
    ensures IsNearest(Subtract(minuend, []), minuend * 10000.0)
    ensures Subtract(minuend, [x] + values) == Subtract(minuend - x, values)
  {
    NearestIsRounded(Subtract(minuend, []), minuend * 10000.0);
    SumOfParts([x], values);
    SumOne(x);
  }

  /** `percentOf`, for values of any precision. */
  lemma PercentIsNearest(value: Decimal, percent: Decimal)
    ensures IsNearest(PercentOf(value, percent), value * percent * 100.0)
  {
    var product := value * percent;
    assert product / 100.0 * 10000.0 == product * 100.0;
    NearestIsRounded(PercentOf(value, percent), product / 100.0 * 10000.0);
  }

  /** `divide`: the amount nearest the exact quotient, and a RangeError exactly
      for a zero divisor. */
  lemma DivideIsNearest(dividend: Decimal, divisor: Decimal, units: real)
    requires divisor != 0.0 ==> units * divisor == dividend * 10000.0
    ensures Divide(dividend, divisor) == RangeError <==> divisor == 0.0
    ensures divisor != 0.0 ==> IsNearest(Divide(dividend, divisor).value, units)
  {
    if divisor != 0.0 {
      QuotientIs(dividend, divisor, units);
      NearestIsRounded(Money(dividend / divisor), units);
    }
  }

  lemma QuotientIs(dividend: real, divisor: real, units: real)
    requires divisor != 0.0 && units * divisor == dividend * 10000.0
    ensures dividend / divisor * 10000.0 == units
  {
    var x := dividend / divisor * 10000.0;
    UndoDivision(dividend, divisor);
    NamedDifference(x, units, divisor, dividend * 10000.0, dividend * 10000.0);
    SignOfProduct(x - units, divisor);
  }

  /** `taxFromInclusive`, for amounts of any precision: the amount nearest the
      exact tax; nothing at -100 per cent. */
  lemma TaxIsNearest(inclusive: Decimal, rate: Decimal, units: real)
    requires 100.0 + rate != 0.0 ==> units * (100.0 + rate) == inclusive * rate * 10000.0
    ensures rate == -100.0 ==> TaxFromInclusive(inclusive, rate) == 0
    ensures rate != -100.0 ==> IsNearest(TaxFromInclusive(inclusive, rate), units)
  {
    if rate != -100.0 {
      QuotientIs(inclusive * rate, 100.0 + rate, units);
      NearestIsRounded(TaxFromInclusive(inclusive, rate), units);
    }
  }

  // ----- tax: adding it on and taking it out again

  lemma ScaledError(e: real, d: real)
    requires Abs(e) <= 0.5
    ensures Abs(e * d) <= Abs(d) / 2.0
  {
    var size := Abs(d);
    ProductNonNegative(0.5 - e, size);
    ProductNonNegative(0.5 + e, size);
    assert (0.5 - e) * size == 0.5 * size - e * size;
    assert (0.5 + e) * size == 0.5 * size + e * size;
  }

  lemma ValUnits(a: Amount)
    ensures Val(a) * 10000.0 == a as real
  {
  }

  /** A stored amount times a factor, in units. */
  lemma ValTimes(a: Amount, d: real)
    ensures Val(a) * d == a as real * d / 10000.0
  {
  }

  /** The unrounded percentage in units. */
  function ExactPercent(a: Amount, rate: Decimal): real {
    a as real * rate / 100.0
  }

  lemma UnroundedPercent(a: Amount, rate: Decimal) returns (exact: real)
    ensures exact == ExactPercent(a, rate) && exact * 100.0 == a as real * rate
    ensures PercentOf(Val(a), rate) == RoundHalfAway(exact)
    ensures rate == 0.0 ==> PercentOf(Val(a), rate) == 0
  {
    exact := ExactPercent(a, rate);
    ValTimes(a, rate);
    hide Val, RoundHalfAway;
    PercentUnits(a as real * rate, Val(a) * rate);
    if rate == 0.0 {
      assert a as real * rate == 0.0;
      RoundWithin(exact, 0);
    }
  }

  lemma PercentUnits(units: real, product: real)
    requires product == units / 10000.0
    ensures product / 100.0 * 10000.0 == units / 100.0
  {
  }

  /** The unrounded tax in units, multiplied back by its divisor. */
  lemma UnroundedTax(inclusive: Decimal, rate: Decimal, units: real) returns (q: real)
    requires 100.0 + rate != 0.0 && units == inclusive * 10000.0
    ensures q * (100.0 + rate) == units * rate
    ensures TaxFromInclusive(inclusive, rate) == RoundHalfAway(q)
  {
    var den, product := 100.0 + rate, inclusive * rate;
    q := product / den * 10000.0;
    UndoDivision(product, den);
    assert units * rate == product * 10000.0;
  }

  // ----- exactly when the round trip holds

  /** Extracting from net plus tax gives back that tax and that net. */
  predicate RoundTrips(net: Amount, rate: Decimal) {
    var tax := PercentOf(Val(net), rate);
    var inclusive := Add([Val(net), Val(tax)]);
    TaxFromInclusive(Val(inclusive), rate) == tax && NetFromInclusive(Val(inclusive), rate) == net
  }

  /** Twice the error of rounding the tax, as a percentage of a unit, is smaller
      than 100 plus the rate in size; or as large, and pulls the tax to zero. */
  predicate RoundingIsSmall(net: Amount, rate: Decimal) {
    var divisor, exact := 100.0 + rate, ExactPercent(net, rate);
    var tax := RoundHalfAway(exact);
    if divisor == 0.0 then net == 0 else SmallError(200.0 * (exact - tax as real), divisor, tax)
  }

  predicate SmallError(error: real, divisor: real, tax: int) {
    Abs(error) < Abs(divisor) || (error == divisor && tax < 0) || (error == -divisor && tax > 0)
  }

  lemma RoundTripIsTax(net: Amount, rate: Decimal)
    ensures var tax := PercentOf(Val(net), rate);
            && Add([Val(net), Val(tax)]) == net + tax
            && (RoundTrips(net, rate) <==> TaxFromInclusive(Val(net + tax), rate) == tax)
  {
    var tax := PercentOf(Val(net), rate);
    SumTwo(Val(net), Val(tax));
    assert Val(net) + Val(tax) == Val(net + tax);
    MoneyOfVal(net + tax);
    StoredNet(net + tax, rate);
  }

  /** Rounding takes t + e back to t only if e is small enough. */
  lemma RoundBackTo(t: int, e: real)
    ensures RoundHalfAway(t as real + e) == t
            <==> Abs(e) < 0.5 || (e == 0.5 && t < 0) || (e == -0.5 && t > 0)
  {
  }

  lemma ErrorSize(e: real, divisor: real, error: real)
    requires divisor != 0.0 && 2.0 * e * divisor == error
    ensures Abs(e) < 0.5 <==> Abs(error) < Abs(divisor)
    ensures e == 0.5 <==> error == divisor
    ensures e == -0.5 <==> error == -divisor
  {
    SignOfProduct(e - 0.5, divisor);
    SignOfProduct(e + 0.5, divisor);
    assert (e - 0.5) * divisor == e * divisor - 0.5 * divisor;
    assert (e + 0.5) * divisor == e * divisor + 0.5 * divisor;
  }

  lemma SmallErrorMeans(q: real, tax: int, divisor: real, error: real)
    requires divisor != 0.0 && 2.0 * (q - tax as real) * divisor == error
    ensures RoundHalfAway(q) == tax <==> SmallError(error, divisor, tax)
  {
    hide RoundHalfAway;
    ErrorSize(q - tax as real, divisor, error);
    RoundBackTo(tax, q - tax as real);
  }

  /** The round trip, for every stored net and every rate, negative ones too. */
  lemma TaxRoundTripExactly(net: Amount, rate: Decimal)
    ensures RoundTrips(net, rate) <==> RoundingIsSmall(net, rate)
  {
    hide RoundTrips, TaxFromInclusive, PercentOf, NetFromInclusive, RoundHalfAway, ExactPercent, SmallError, Val;
    RoundTripIsTax(net, rate);
    if 100.0 + rate == 0.0 {
      RoundTripAtMinus100(net);
    } else {
      ExtractionRounds(net, rate, PercentOf(Val(net), rate));
    }
  }

  lemma ExtractionRounds(net: Amount, rate: Decimal, tax: Amount)
    requires 100.0 + rate != 0.0 && tax == PercentOf(Val(net), rate)
    ensures tax == RoundHalfAway(ExactPercent(net, rate))
    ensures TaxFromInclusive(Val(net + tax), rate) == tax
            <==> SmallError(200.0 * (ExactPercent(net, rate) - tax as real), 100.0 + rate, tax)
  {
    hide *;
    var exact := UnroundedPercent(net, rate);
    ValUnits(net + tax);
    var q := UnroundedTax(Val(net + tax), rate, (net + tax) as real);
    ErrorOfExtraction(net as real, tax as real, rate, exact, q);
    SmallErrorMeans(q, tax, 100.0 + rate, 200.0 * (exact - tax as real));
  }

  lemma ErrorOfExtraction(n: real, t: real, rate: real, exact: real, q: real)
    requires q * (100.0 + rate) == (n + t) * rate && exact * 100.0 == n * rate
    ensures 2.0 * (q - t) * (100.0 + rate) == 200.0 * (exact - t)
  {
    ProductOfDifference(q, t, 100.0 + rate);
    assert (n + t) * rate == n * rate + t * rate;
    assert t * (100.0 + rate) == 100.0 * t + t * rate;
  }

  lemma RoundTripAtMinus100(net: Amount)
    ensures TaxFromInclusive(Val(net + PercentOf(Val(net), -100.0)), -100.0) == PercentOf(Val(net), -100.0)
            <==> net == 0
  {
    assert Val(net) * -100.0 / 100.0 == Val(-net);
    MoneyOfVal(-net);
  }

  /** The least multiple of a step that reaches a start. */
  lemma FirstMultiple(step: real, start: real) returns (n: int)
    requires step > 0.0 && start > 0.0
    ensures n > 0 && start <= n as real * step < start + step
  {
    var x := start / step;
    assert x * step == start;
    n := -((-x).Floor);
    assert x <= n as real < x + 1.0;
    BetweenMultiples(n as real, x, step, start, n as real * step);
  }

  lemma BetweenMultiples(n: real, x: real, step: real, start: real, product: real)
    requires step > 0.0 && start > 0.0 && x * step == start && x <= n < x + 1.0 && product == n * step
    ensures start <= product < start + step && n > 0.0
  {
    NamedDifference(n, x, step, product, start);
    SignTimesPositive(n - x, step);
    SignTimesPositive(1.0 - (n - x), step);
    NamedDifference(1.0, n - x, step, step, product - start);
    SignTimesPositive(n, step);
  }

  /** Between -200 and 0 per cent some net loses the round trip: the multiples of
      the rate step into the gap around a half that rounding cannot cross. */
  lemma FailingNet(rate: Decimal) returns (net: Amount)
    requires -200.0 < rate < 0.0
    ensures !RoundingIsSmall(net, rate)
  {
    if rate == -100.0 {
      net := 1;
    } else if rate > -100.0 {
      net := FirstMultiple(-rate, (100.0 + rate) / 2.0);
      FailsAboveMinus100(net, rate, net as real * -rate);
    } else {
      net := FirstMultiple(200.0 + rate, (-100.0 - rate) / 2.0);
      FailsBelowMinus100(net, rate, net as real * (200.0 + rate));
    }
  }

  lemma FailsAboveMinus100(net: Amount, rate: Decimal, w: real)
    requires -100.0 < rate < 0.0 && w == net as real * -rate
    requires (100.0 + rate) / 2.0 <= w < (100.0 - rate) / 2.0
    ensures !RoundingIsSmall(net, rate)
  {
    var exact := ExactPercent(net, rate);
    assert exact == -w / 100.0;
    RoundUnique(exact, if w < 50.0 then 0 else -1);
  }

  lemma FailsBelowMinus100(net: Amount, rate: Decimal, w: real)
    requires -200.0 < rate < -100.0 && w == net as real * (200.0 + rate) && net > 0
    requires (-100.0 - rate) / 2.0 <= w < (300.0 + rate) / 2.0
    ensures !RoundingIsSmall(net, rate)
  {
    var exact := ExactPercent(net, rate);
    assert w == 200.0 * net as real + net as real * rate;
    assert exact == w / 100.0 - 2.0 * net as real;
    RoundUnique(exact, if w <= 50.0 then -2 * net else -2 * net + 1);
  }

  lemma SafeRate(net: Amount, rate: Decimal)
    requires rate >= 0.0 || rate <= -200.0
    ensures RoundingIsSmall(net, rate)
  {
    var exact := ExactPercent(net, rate);
    if rate == 0.0 {
      RoundWithin(exact, 0);
    } else if rate == -200.0 {
      RoundWithin(exact, -2 * net);
    }
  }

  /** Charging tax on a stored net amount and extracting it from the inclusive
      total gives back exactly the same tax and the same net. */
  lemma TaxRoundTrip(net: Amount, rate: Decimal)
    requires rate >= 0.0
    ensures var tax := PercentOf(Val(net), rate);
            var inclusive := Add([Val(net), Val(tax)]);
            && inclusive == net + tax
            && TaxFromInclusive(Val(inclusive), rate) == tax
            && NetFromInclusive(Val(inclusive), rate) == net
  {
    hide TaxFromInclusive, PercentOf, NetFromInclusive;
    SafeRate(net, rate);
    hide RoundingIsSmall;
    TaxRoundTripExactly(net, rate);
    RoundTripIsTax(net, rate);
  }

  /** A rate at which no net ever loses the round trip: none strictly between
      -200 and 0 per cent, and all others. */
  lemma RatesThatRoundTrip(rate: Decimal)
    ensures (forall net :: RoundTrips(net, rate)) <==> rate >= 0.0 || rate <= -200.0
  {
    hide RoundTrips, RoundingIsSmall;
    if rate >= 0.0 || rate <= -200.0 {
      forall net
        ensures RoundTrips(net, rate)
      {
        SafeRate(net, rate);
        TaxRoundTripExactly(net, rate);
      }
    } else {
      var net := FailingNet(rate);
      TaxRoundTripExactly(net, rate);
    }
  }

  /** One such: 0.0001 at minus 50 per cent. */
  lemma HalfRebateLosesAUnit()
    ensures !RoundTrips(1, -50.0)
  {
    RoundUnique(-0.5, -1);
    TaxRoundTripExactly(1, -50.0);
  }

  // ----- tax: splitting an inclusive amount

  /** Net and tax add up to the rounded inclusive amount, however fine the
      amount, except for one family: a rate below minus 100 per cent applied to
      an amount that is a rounding tie. */
  lemma SplitConserves(inclusive: Decimal, rate: Decimal)
    ensures NetFromInclusive(inclusive, rate) + TaxFromInclusive(inclusive, rate) == Money(inclusive)
            <==> !(rate < -100.0 && IsTie(inclusive * 10000.0))
  {
    var x := inclusive * 10000.0;
    var tax := TaxFromInclusive(inclusive, rate);
    SumOne(Val(tax));
    assert (inclusive - Val(tax)) * 10000.0 == x - tax as real;
    RoundShift(x, tax);
    if 100.0 + rate != 0.0 && IsTie(x) {
      var q := UnroundedTax(inclusive, rate, x);
      TieAndTax(x, rate, q);
    }
  }

  /** Where the rounded tax on a tie falls, relative to the tie and to zero. */
  lemma TieAndTax(x: real, rate: real, q: real)
    requires IsTie(x) && 100.0 + rate != 0.0 && q * (100.0 + rate) == x * rate
    ensures var tax := RoundHalfAway(q) as real;
            ((x > 0.0 && x < tax) || (x < 0.0 && tax < x)) <==> rate < -100.0
  {
    ProductOfDifference(x, q, 100.0 + rate);
    assert (x - q) * (100.0 + rate) == 100.0 * x;
    SignOfProduct(x - q, 100.0 + rate);
    if q < x {
      RoundBelowTie(x, q);
    } else if q > x {
      RoundAboveTie(x, q);
    }
  }

  /** What the extracted net is taxed when the rate is applied to it again. */
  function TaxAgain(inclusive: Amount, rate: Decimal): Amount {
    PercentOf(Val(NetFromInclusive(Val(inclusive), rate)), rate)
  }

  /** Re-applying the rate to the extracted net misses the extracted tax by no
      more than the rate's own magnification of one rounding, plus one more. */
  lemma SplitAccuracy(inclusive: Amount, rate: Decimal)
    requires rate >= 0.0
    ensures var tax, again := TaxFromInclusive(Val(inclusive), rate), TaxAgain(inclusive, rate);
            && Abs(again as real - tax as real) <= (100.0 + rate) / 200.0 + 0.5
            && (rate <= 200.0 ==> -1 <= again - tax <= 1)
  {
    hide *;
    var tax, q, exact := SplitInUnits(inclusive, rate);
    var net := (inclusive - tax) as real;
    assert net == inclusive as real - tax as real;
    ReapplyError(inclusive as real, tax as real, net, rate, q, exact);
    NearlyEqual(inclusive, tax, rate, exact, RoundHalfAway(exact));
  }

  /** The two taxes before rounding, in units. */
  lemma SplitInUnits(inclusive: Amount, rate: Decimal) returns (tax: Amount, q: real, exact: real)
    requires 100.0 + rate != 0.0
    ensures tax == TaxFromInclusive(Val(inclusive), rate) == RoundHalfAway(q)
    ensures q * (100.0 + rate) == inclusive as real * rate
    ensures TaxAgain(inclusive, rate) == RoundHalfAway(exact)
    ensures exact == ExactPercent(inclusive - tax, rate) && exact * 100.0 == (inclusive - tax) as real * rate
  {
    hide TaxFromInclusive, NetFromInclusive, PercentOf, Val, RoundHalfAway, ExactPercent;
    tax := TaxFromInclusive(Val(inclusive), rate);
    StoredNet(inclusive, rate);
    ValUnits(inclusive);
    q := UnroundedTax(Val(inclusive), rate, inclusive as real);
    exact := UnroundedPercent(inclusive - tax, rate);
  }

  lemma NearlyEqual(inclusive: Amount, tax: Amount, rate: Decimal, exact: real, again: int)
    requires again == RoundHalfAway(exact) && Abs(exact - tax as real) <= (100.0 + rate) / 200.0
    requires exact * 100.0 == (inclusive - tax) as real * rate
    ensures Abs(again as real - tax as real) <= (100.0 + rate) / 200.0 + 0.5
    ensures rate <= 200.0 ==> -1 <= again - tax <= 1
  {
    assert Abs(again as real - exact) <= 0.5;
    if rate < 200.0 {
      assert Abs(exact - tax as real) < 1.5;
    } else if rate == 200.0 {
      TwiceTheNet(inclusive - tax, rate, exact);
    }
  }

  /** At 200 per cent the second tax needs no rounding. */
  lemma TwiceTheNet(net: Amount, rate: Decimal, exact: real)
    requires rate == 200.0 && exact * 100.0 == net as real * rate
    ensures exact == (2 * net) as real && RoundHalfAway(exact) == 2 * net
  {
    RoundWithin(exact, 2 * net);
  }

  /** Above 200 per cent some inclusive amount is off by two units. */
  lemma FailingInclusive(rate: Decimal) returns (inclusive: Amount)
    requires rate > 200.0
    ensures !(-1 <= TaxAgain(inclusive, rate) - TaxFromInclusive(Val(inclusive), rate) <= 1)
  {
    hide *;
    var n := FirstMultiple(rate - 200.0, 50.0);
    inclusive := 3 * n - 1;
    var tax, q, exact := SplitInUnits(inclusive, rate);
    var w := n as real * (rate - 200.0);
    assert (3 * n - 1) as real == 3.0 * n as real - 1.0;
    TaxOfTriple(n as real, rate, w, q);
    TwoUnitsOff(n, rate, w, q, tax, exact);
  }

  lemma TaxOfTriple(n: real, rate: real, w: real, q: real)
    requires rate > 200.0 && w == n * (rate - 200.0) && 50.0 <= w < rate - 150.0
    requires q * (100.0 + rate) == (3.0 * n - 1.0) * rate
    ensures (2.0 * n - q) * (100.0 + rate) == rate - w
    ensures 0.0 < 2.0 * n - q < 1.0
  {
    var f, divisor := 2.0 * n - q, 100.0 + rate;
    assert n * rate == w + 200.0 * n;
    assert (3.0 * n - 1.0) * rate == 3.0 * (n * rate) - rate;
    ProductOfDifference(2.0 * n, q, divisor);
    assert 2.0 * n * divisor == 200.0 * n + 2.0 * (n * rate);
    SignTimesPositive(f, divisor);
    ProductOfDifference(1.0, f, divisor);
    SignTimesPositive(1.0 - f, divisor);
  }

  lemma TwoUnitsOff(n: int, rate: real, w: real, q: real, tax: int, exact: real)
    requires n > 0 && rate > 200.0 && w == n as real * (rate - 200.0) && 50.0 <= w < rate - 150.0
    requires (2.0 * n as real - q) * (100.0 + rate) == rate - w && 0.0 < 2.0 * n as real - q < 1.0
    requires tax == RoundHalfAway(q) && exact * 100.0 == (3 * n - 1 - tax) as real * rate
    ensures !(-1 <= RoundHalfAway(exact) - tax <= 1)
  {
    var f := 2.0 * n as real - q;
    assert n as real * rate == w + 200.0 * n as real;
    if f <= 0.5 {
      RoundUnique(q, 2 * n);
      assert (n - 1) as real * rate == n as real * rate - rate;
      assert exact < 2.0 * n as real - 1.5;
    } else {
      RoundUnique(q, 2 * n - 1);
      assert exact >= 2.0 * n as real + 0.5;
    }
  }

  /** One unit is enough for every stored inclusive amount up to 200 per cent, and
      at no higher rate. */
  lemma OneUnitUpTo200(rate: Decimal)
    requires rate >= 0.0
    ensures (forall inclusive :: -1 <= TaxAgain(inclusive, rate) - TaxFromInclusive(Val(inclusive), rate) <= 1)
            <==> rate <= 200.0
  {
    hide *;
    if rate <= 200.0 {
      forall inclusive
        ensures -1 <= TaxAgain(inclusive, rate) - TaxFromInclusive(Val(inclusive), rate) <= 1
      {
        SplitAccuracy(inclusive, rate);
      }
    } else {
      var inclusive := FailingInclusive(rate);
    }
  }

  lemma StoredNet(inclusive: Amount, rate: Decimal)
    ensures NetFromInclusive(Val(inclusive), rate) == inclusive - TaxFromInclusive(Val(inclusive), rate)
  {
    var tax := TaxFromInclusive(Val(inclusive), rate);
    SumOne(Val(tax));
    assert Val(inclusive) - Val(tax) == Val(inclusive - tax);
    MoneyOfVal(inclusive - tax);
  }

  lemma ReapplyError(i: real, t: real, n: real, rate: real, q: real, exact: real)
    requires rate >= 0.0 && q * (100.0 + rate) == i * rate
    requires Abs(q - t) <= 0.5 && n == i - t && exact * 100.0 == n * rate
    ensures Abs(exact - t) <= (100.0 + rate) / 200.0
  {
    ScaledError(q - t, 100.0 + rate);
    ProductOfDifference(q, t, 100.0 + rate);
    ProductOfDifference(i, t, rate);
    assert t * (100.0 + rate) == 100.0 * t + t * rate;
  }

  // ----- max and min

  /** The exact largest of `first` and the values. */
  function Largest(values: seq<Decimal>, first: Decimal): (m: Decimal)
    ensures m == first || m in values
    ensures first <= m && forall v | v in values :: v <= m
  {
    if values == [] then first
    else
      var last := |values| - 1;
      var best := Largest(values[..last], first);
      assert values == values[..last] + [values[last]];
      if values[last] > best then values[last] else best
  }

  /** The exact smallest of `first` and the values. */
  function Smallest(values: seq<Decimal>, first: Decimal): (m: Decimal)
    ensures m == first || m in values
    ensures m <= first && forall v | v in values :: m <= v
  {
    if values == [] then first
    else
      var last := |values| - 1;
      var best := Smallest(values[..last], first);
      assert values == values[..last] + [values[last]];
      if values[last] < best then values[last] else best
  }

  /** Comparing an unrounded candidate with the rounded best never picks a value
      that rounds differently from the true maximum. */
  lemma {:induction false} MaxFoldRounds(values: seq<Decimal>, first: Decimal)
    ensures MaxFold(values, Money(first)) == Money(Largest(values, first))
  {
    if values != [] {
      var last := |values| - 1;
      var v, best := values[last], Largest(values[..last], first);
      MaxFoldRounds(values[..last], first);
      MoneyOfVal(Money(best));
      if v > Val(Money(best)) {
        MoneyMonotone(Val(Money(best)), v);
      } else {
        MoneyMonotone(v, Val(Money(best)));
      }
      if v > best {
        MoneyMonotone(best, v);
      } else {
        MoneyMonotone(v, best);
      }
    }
  }

  lemma MaxIsRoundedMaximum(values: seq<Decimal>, m: Decimal)
    requires m in values && forall v | v in values :: v <= m
    ensures Max(values) == Money(m)
  {
    MaxFoldRounds(values, values[0]);
    assert Largest(values, values[0]) in values;
  }

  function Negated(values: seq<Decimal>): (r: seq<Decimal>)
    ensures |r| == |values| && forall i | 0 <= i < |r| :: r[i] == -values[i]
  {
    if values == [] then [] else Negated(values[..|values| - 1]) + [-values[|values| - 1]]
  }

  lemma MoneyOdd(x: Decimal)
    ensures Money(-x) == -Money(x)
  {
    RoundOdd(x * 10000.0);
    assert -x * 10000.0 == -(x * 10000.0);
  }

  lemma {:induction false} MinFoldMirrorsMax(values: seq<Decimal>, first: Amount)
    ensures MinFold(values, first) == -MaxFold(Negated(values), -first)
  {
    if values != [] {
      var last := |values| - 1;
      MinFoldMirrorsMax(values[..last], first);
      assert Negated(values)[..last] == Negated(values[..last]);
      MoneyOdd(values[last]);
    }
  }

  lemma MinIsRoundedMinimum(values: seq<Decimal>, m: Decimal)
    requires m in values && forall v | v in values :: m <= v
    ensures Min(values) == Money(m)
  {
    var mirrored := Negated(values);
    MinFoldMirrorsMax(values, Money(values[0]));
    MoneyOdd(values[0]);
    MoneyOdd(m);
    NegatedMembers(values, m);
    forall w | w in mirrored ensures w <= -m {
      NegatedMembers(values, -w);
    }
    MaxIsRoundedMaximum(mirrored, -m);
  }

  lemma {:induction false} NegatedMembers(values: seq<Decimal>, v: Decimal)
    ensures -v in Negated(values) <==> v in values
  {
    if values != [] {
      var last := |values| - 1;
      NegatedMembers(values[..last], v);
      assert values == values[..last] + [values[last]];
    }
  }

  /** Without arguments both are zero. */
  lemma EmptyExtremes()
    ensures Max([]) == Min([]) == 0
  {
    MoneyOfVal(0);
  }

  /** Neither depends on the order of its arguments. */
  lemma MaxMinIgnoreOrder(a: seq<Decimal>, b: seq<Decimal>)
    requires multiset(a) == multiset(b)
    ensures Max(a) == Max(b) && Min(a) == Min(b)
  {
    assert forall v :: v in a <==> v in multiset(a);
    assert forall v :: v in b <==> v in multiset(b);
    if a == [] {
      assert |multiset(b)| == 0;
    } else {
      assert a[0] in b;
      var m := Largest(a, a[0]);
      MaxIsRoundedMaximum(a, m);
      MaxIsRoundedMaximum(b, m);
      var n := Smallest(a, a[0]);
      MinIsRoundedMinimum(a, n);
      MinIsRoundedMinimum(b, n);
    }
  }

  // ----- how far rounding can drift

  function SumAmounts(amounts: seq<Amount>): Amount {
    if amounts == [] then 0 else SumAmounts(amounts[..|amounts| - 1]) + amounts[|amounts| - 1]
  }

  /** Rounding every value before adding. */
  function SumOfMoney(values: seq<Decimal>): Amount {
    if values == [] then 0 else SumOfMoney(values[..|values| - 1]) + Money(values[|values| - 1])
  }

  /** Applying a percentage line by line. */
  function SumOfPercent(amounts: seq<Amount>, rate: Decimal): Amount {
    if amounts == [] then 0
    else SumOfPercent(amounts[..|amounts| - 1], rate) + PercentOf(Val(amounts[|amounts| - 1]), rate)
  }

  lemma {:induction false} RoundedLinesDrift(values: seq<Decimal>)
    ensures Abs(SumOfMoney(values) as real - Sum(values) * 10000.0) <= |values| as real / 2.0
  {
    if values != [] {
      RoundedLinesDrift(values[..|values| - 1]);
    }
  }

  /** Adding once and rounding, against rounding each value and adding. */
  lemma AddDrift(values: seq<Decimal>)
    ensures Abs(Add(values) as real - SumOfMoney(values) as real) <= (|values| + 1) as real / 2.0
  {
    RoundedLinesDrift(values);
  }

  /** The unrounded percentages of the lines. */
  function PercentLines(amounts: seq<Amount>, rate: Decimal): (r: seq<Decimal>)
    ensures |r| == |amounts|
  {
    if amounts == [] then []
    else PercentLines(amounts[..|amounts| - 1], rate) + [Val(amounts[|amounts| - 1]) * rate / 100.0]
  }

  lemma {:induction false} PercentLinesRounded(amounts: seq<Amount>, rate: Decimal)
    ensures SumOfMoney(PercentLines(amounts, rate)) == SumOfPercent(amounts, rate)
  {
    if amounts != [] {
      var rest := amounts[..|amounts| - 1];
      PercentLinesRounded(rest, rate);
      var lines := PercentLines(amounts, rate);
      assert lines[..|lines| - 1] == PercentLines(rest, rate);
    }
  }

  lemma {:induction false} PercentLinesAddUp(amounts: seq<Amount>, rate: Decimal)
    ensures Sum(PercentLines(amounts, rate)) == Val(SumAmounts(amounts)) * rate / 100.0
  {
    if amounts != [] {
      var rest, a := amounts[..|amounts| - 1], amounts[|amounts| - 1];
      PercentLinesAddUp(rest, rate);
      var lines := PercentLines(amounts, rate);
      assert lines[..|lines| - 1] == PercentLines(rest, rate);
      assert Val(SumAmounts(amounts)) == Val(SumAmounts(rest)) + Val(a);
      PercentOfSum(Val(SumAmounts(rest)), Val(a), rate);
    }
  }

  lemma PercentOfSum(x: real, y: real, r: real)
    ensures (x + y) * r / 100.0 == x * r / 100.0 + y * r / 100.0
  {
  }

  /** Tax per line against tax on the total of the lines. */
  lemma PercentDrift(amounts: seq<Amount>, rate: Decimal)
    ensures Abs(SumOfPercent(amounts, rate) as real - PercentOf(Val(SumAmounts(amounts)), rate) as real)
            <= (|amounts| + 1) as real / 2.0
  {
    PercentLinesRounded(amounts, rate);
    PercentLinesAddUp(amounts, rate);
    AddDrift(PercentLines(amounts, rate));
  }

  /** Dividing and multiplying back. */
  lemma DivideThenMultiply(a: Amount, d: Decimal)
    requires d != 0.0
    ensures Divide(Val(a), d).Ok?
    ensures Abs(Multiply([Val(Divide(Val(a), d).value), d]) as real - a as real) <= (Abs(d) + 1.0) / 2.0
  {
    var exact := Val(a) / d * 10000.0;
    QuotientTimesDivisor(a as real, d, exact);
    MultiplyBack(Money(Val(a) / d), d, exact);
  }

  lemma MultiplyBack(q: Amount, d: Decimal, exact: real)
    requires Abs(q as real - exact) <= 0.5
    ensures Abs(Multiply([Val(q), d]) as real - exact * d) <= (Abs(d) + 1.0) / 2.0
  {
    hide *;
    var product := q as real * d;
    ProductInUnits(q, d, product);
    ScaledError(q as real - exact, d);
    ProductOfDifference(q as real, exact, d);
    ErrorsAdd(RoundHalfAway(product), product, exact * d, Abs(d) / 2.0);
  }

  lemma ProductInUnits(q: Amount, d: Decimal, product: real)
    requires product == q as real * d
    ensures Multiply([Val(q), d]) == RoundHalfAway(product)
  {
    ProductTwo(Val(q), d);
    ValTimes(q, d);
    hide Val, Product, RoundHalfAway;
    InUnits(Val(q) * d, product);
  }

  lemma InUnits(value: Decimal, units: real)
    requires value == units / 10000.0
    ensures value * 10000.0 == units
  {
  }

  lemma ErrorsAdd(rounded: int, x: real, y: real, bound: real)
    requires rounded == RoundHalfAway(x) && Abs(x - y) <= bound
    ensures Abs(rounded as real - y) <= bound + 0.5
  {
    assert Abs(rounded as real - x) <= 0.5;
  }

  lemma QuotientTimesDivisor(a: real, d: real, exact: real)
    requires d != 0.0 && exact == a / 10000.0 / d * 10000.0
    ensures exact * d == a
  {
    var quotient := a / 10000.0 / d;
    assert quotient * d == a / 10000.0;
  }

  lemma ProductTwo(x: Decimal, y: Decimal)
    ensures Product([x, y]) == x * y
  {
    assert [x, y][..1] == [x];
    assert [x][..0] == [];
    assert Product([x]) == 1.0 * x;
  }

  /** The round-off carries the stored amount to the nearest whole rupee, by at
      most half a rupee, upward from an exact half of a positive amount. */
  lemma RoundOffReachesRupee(value: Decimal)
    ensures var a, diff := Money(value), RoundOffDifference(value);
            && (a + diff) % 10000 == 0
            && -5000 <= diff <= 5000
            && (diff == 5000 ==> a > 0) && (diff == -5000 ==> a < 0)
            && (diff == 0 <==> a % 10000 == 0)
  {
    var a := Money(value);
    var rupees := RoundHalfAway(Val(a));
    ValUnits(a);
    SumOne(Val(a));
    assert rupees as real - Val(a) == Val(10000 * rupees - a);
    MoneyOfVal(10000 * rupees - a);
    RupeeBounds(a, Val(a), rupees);
  }

  lemma RupeeBounds(a: Amount, exact: Decimal, rupees: int)
    requires exact * 10000.0 == a as real && rupees == RoundHalfAway(exact)
    ensures var diff := 10000 * rupees - a;
            && -5000 <= diff <= 5000 && (diff == 5000 ==> a > 0) && (diff == -5000 ==> a < 0)
  {
  }
}
