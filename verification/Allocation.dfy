/** Splitting an amount into shares that add back up to it: `allocate` and
    `allocateByWeight` of src/lib/money.ts. */
module Allocation {
  import opened Rounding
  import opened Products
  import opened Amounts

  function Negation(amounts: seq<Amount>): (r: seq<Amount>)
    ensures |r| == |amounts| && forall i | 0 <= i < |r| :: r[i] == -amounts[i]
  {
    seq(|amounts|, i requires 0 <= i < |amounts| => -amounts[i])
  }

  function Magnitude(a: Amount): nat {
    if a < 0 then -a else a
  }

  // ----- even split

  /** The reference split of a magnitude: quotient and remainder, the remainder
      handed out one unit each from the front. */
  function EvenMagnitudes(total: nat, n: nat): (shares: seq<Amount>)
    requires n > 0
    ensures |shares| == n
  {
    seq(n, i => total / n + (if i < total % n then 1 else 0))
  }

  function EvenShares(total: Amount, n: nat): (shares: seq<Amount>)
    requires n > 0
    ensures |shares| == n
  {
    if total < 0 then Negation(EvenMagnitudes(-total, n)) else EvenMagnitudes(total, n)
  }

  /** Truncating the real quotient truncates the magnitude's integer quotient. */
  lemma BaseShare(total: Amount, n: nat)
    requires n > 0
    ensures TruncTowardZero(total as real / n as real)
            == if total < 0 then -((-total) / n) else total / n
  {
    if total >= 0 {
      PositiveBaseShare(total, n);
    } else {
      PositiveBaseShare(-total, n);
      NegatedQuotient(total, n);
      TruncOdd((-total) as real / n as real);
    }
  }

  lemma NegatedQuotient(total: int, n: nat)
    requires n > 0
    ensures total as real / n as real == -((-total) as real / n as real)
  {
  }

  lemma PositiveBaseShare(total: nat, n: nat)
    requires n > 0
    ensures TruncTowardZero(total as real / n as real) == total / n
  {
    var q, r, x := total / n, total % n, total as real / n as real;
    assert total == q * n + r;
    assert x * n as real == total as real;
    FloorOfRatio(total, n, q, r, x);
  }

  /** Each share is the base share, plus one step while the remainder lasts. */
  lemma SharesFromBase(total: Amount, n: nat, base: Amount, left: Amount)
    requires n > 0 && base == TruncTowardZero(total as real / n as real)
    requires left == total - base * n
    ensures Magnitude(left) < n
    ensures forall k | 0 <= k < n ::
              EvenShares(total, n)[k]
              == base + (if k >= Magnitude(left) then 0 else if left < 0 then -1 else 1)
  {
    hide TruncTowardZero, EvenShares;
    var size := Magnitude(total);
    var q, r := size / n, size % n;
    BaseShare(total, n);
    ShareAt(total, n, q, r);
    Leftover(size, n, q, r);
    NegatedFactor(q, n);
    assert left == if total < 0 then -r else r;
  }

  lemma Leftover(size: nat, n: nat, q: int, r: int)
    requires n > 0 && q == size / n && r == size % n
    ensures size == q * n + r && 0 <= r < n
  {
  }

  lemma ShareAt(total: Amount, n: nat, q: int, r: int)
    requires n > 0 && q == Magnitude(total) / n && r == Magnitude(total) % n
    ensures forall k | 0 <= k < n ::
              var size := q + (if k < r then 1 else 0); EvenShares(total, n)[k] == if total < 0 then -size else size
  {
  }

  lemma SmallModulus(index: nat, n: nat)
    requires index < n
    ensures index % n == index
  {
  }

  /** `allocate`: the loop hands the remainder out one unit at a time, and always
      stops because nothing is left, before it comes round to the first share. */
  method Allocate(value: Decimal, parts: real) returns (r: Result<seq<Amount>>)
    ensures r.Ok? <==> parts > 0.0 && parts == parts.Floor as real
    ensures r.Ok? ==> r.value == EvenShares(Money(value), parts.Floor)
  {
    if parts != parts.Floor as real || parts <= 0.0 {
      return RangeError;
    }
    var n := parts.Floor;
    var total := Money(value);
    var baseShare := TruncTowardZero(total as real / n as real);
    var shares := new Amount[n](_ => baseShare);
    var remainder := total - baseShare * n;
    ghost var left := remainder;
    SharesFromBase(total, n, baseShare, left);
    hide EvenShares, TruncTowardZero, Money;
    var index := 0;
    var step := if remainder < 0 then -1 else 1;
    while remainder != 0 && index < n * 2
      invariant 0 <= index <= Magnitude(left)
      invariant remainder == if left < 0 then left + index else left - index
      invariant forall k | 0 <= k < n :: shares[k] == baseShare + (if k < index then step else 0)
    {
      SmallModulus(index, n);
      shares[index % n] := shares[index % n] + step;
      remainder := remainder - step;
      index := index + 1;
    }
    assert remainder == 0 && index < n;
    assert shares[..] == EvenShares(total, n);
    return Ok(shares[..]);
  }

  lemma {:induction false} SumOfNegation(amounts: seq<Amount>)
    ensures SumAmounts(Negation(amounts)) == -SumAmounts(amounts)
  {
    if amounts != [] {
      var last := |amounts| - 1;
      assert Negation(amounts)[..last] == Negation(amounts[..last]);
      SumOfNegation(amounts[..last]);
    }
  }

  lemma {:induction false} EvenPrefix(total: nat, n: nat, q: nat, r: nat, k: nat)
    requires 0 < n && k <= n && q == total / n && r == total % n
    ensures SumAmounts(EvenMagnitudes(total, n)[..k]) == k * q + (if k < r then k else r)
  {
    var shares := EvenMagnitudes(total, n);
    if k == 0 {
      assert shares[..0] == [];
    } else {
      EvenPrefix(total, n, q, r, k - 1);
      assert shares[..k][..k - 1] == shares[..k - 1];
      DistributeSum(k - 1, 1, q);
    }
  }

  lemma EvenSum(total: nat, n: nat)
    requires n > 0
    ensures SumAmounts(EvenMagnitudes(total, n)) == total
  {
    EvenPrefix(total, n, total / n, total % n, n);
    assert EvenMagnitudes(total, n)[..n] == EvenMagnitudes(total, n);
  }

  lemma EvenShareBounds(total: nat, n: nat, i: nat, j: nat)
    requires i < j < n
    ensures var shares := EvenMagnitudes(total, n);
            0 <= shares[j] <= shares[i] <= shares[j] + 1
  {
  }

  /** Shares of one sign, the larger magnitudes first, no two of them more than
      one unit apart. */
  predicate IsFair(shares: seq<Amount>) {
    && ((forall i | 0 <= i < |shares| :: shares[i] >= 0) || (forall i | 0 <= i < |shares| :: shares[i] <= 0))
    && (forall i, j | 0 <= i < j < |shares| ::
         Magnitude(shares[j]) <= Magnitude(shares[i]) <= Magnitude(shares[j]) + 1)
  }

  /** Nothing is lost, no two shares differ by more than one unit, the larger
      magnitudes come first, every share has the sign of the total, and
      splitting the negated amount negates every share. */
  lemma EvenSharesAreFair(total: Amount, n: nat)
    requires n > 0
    ensures var shares := EvenShares(total, n);
            && SumAmounts(shares) == total && IsFair(shares)
            && (forall i | 0 <= i < n :: total >= 0 ==> shares[i] >= 0)
            && (forall i | 0 <= i < n :: total <= 0 ==> shares[i] <= 0)
            && EvenShares(-total, n) == Negation(shares)
  {
    hide EvenShares;
    EvenSharesConserve(total, n);
    EvenSharesOdd(total, n);
    EvenSharesSigned(total, n);
    forall i, j | 0 <= i < j < n
      ensures var shares := EvenShares(total, n);
              Magnitude(shares[j]) <= Magnitude(shares[i]) <= Magnitude(shares[j]) + 1
    {
      EvenSharesOrdered(total, n, i, j);
    }
  }

  lemma EvenSharesConserve(total: Amount, n: nat)
    requires n > 0
    ensures SumAmounts(EvenShares(total, n)) == total
  {
    EvenSum(Magnitude(total), n);
    SumOfNegation(EvenMagnitudes(Magnitude(total), n));
  }

  lemma EvenSharesOrdered(total: Amount, n: nat, i: nat, j: nat)
    requires i < j < n
    ensures var shares := EvenShares(total, n);
            Magnitude(shares[j]) <= Magnitude(shares[i]) <= Magnitude(shares[j]) + 1
  {
    EvenShareBounds(Magnitude(total), n, i, j);
  }

  lemma QuotientFromZero(total: nat, n: nat)
    requires n > 0
    ensures total / n >= 0
    ensures total == 0 ==> total / n == 0 && total % n == 0
  {
    if total == 0 {
      DivisionUnique(0, n, 0, 0);
    }
  }

  lemma EvenMagnitudesSigned(total: nat, n: nat)
    requires n > 0
    ensures forall i | 0 <= i < n :: EvenMagnitudes(total, n)[i] >= 0
    ensures total == 0 ==> forall i | 0 <= i < n :: EvenMagnitudes(total, n)[i] == 0
  {
    QuotientFromZero(total, n);
  }

  lemma EvenSharesSigned(total: Amount, n: nat)
    requires n > 0
    ensures forall i | 0 <= i < n :: total >= 0 ==> EvenShares(total, n)[i] >= 0
    ensures forall i | 0 <= i < n :: total <= 0 ==> EvenShares(total, n)[i] <= 0
  {
    hide EvenMagnitudes;
    EvenMagnitudesSigned(Magnitude(total), n);
  }

  lemma EvenSharesOdd(total: Amount, n: nat)
    requires n > 0
    ensures EvenShares(-total, n) == Negation(EvenShares(total, n))
  {
    hide EvenMagnitudes;
    EvenMagnitudesSigned(0, n);
  }

  /** The fairness conditions leave only one possible split. */
  lemma EvenSharesUnique(shares: seq<Amount>)
    requires shares != [] && IsFair(shares)
    ensures shares == EvenShares(SumAmounts(shares), |shares|)
  {
    hide EvenShares, SumAmounts;
    if forall i | 0 <= i < |shares| :: shares[i] >= 0 {
      FromZeroUnique(shares);
    } else {
      var mirrored := Negation(shares);
      FromZeroUnique(mirrored);
      hide Magnitude, IsFair;
      SumOfNegation(shares);
      EvenSharesOdd(SumAmounts(mirrored), |shares|);
      assert shares == Negation(mirrored);
    }
  }

  lemma FromZeroUnique(shares: seq<Amount>)
    requires shares != [] && forall i | 0 <= i < |shares| :: shares[i] >= 0
    requires forall i, j | 0 <= i < j < |shares| :: shares[j] <= shares[i] <= shares[j] + 1
    ensures shares == EvenShares(SumAmounts(shares), |shares|)
  {
    var n, low := |shares|, shares[|shares| - 1];
    var k := CountHigh(shares, low);
    SumFromCount(shares, low, k, n);
    NonNegative(n, low);
    var total := SumAmounts(shares);
    assert shares[..n] == shares;
    assert total == n * low + k;
    DivisionUnique(total, n, low, k);
    assert EvenShares(total, n) == EvenMagnitudes(total, n);
    forall i | 0 <= i < n
      ensures shares[i] == EvenMagnitudes(total, n)[i]
    {
    }
  }

  lemma CountHigh(shares: seq<Amount>, low: Amount) returns (k: nat)
    requires shares != [] && low == shares[|shares| - 1]
    requires forall i, j | 0 <= i < j < |shares| :: shares[j] <= shares[i] <= shares[j] + 1
    ensures k < |shares|
    ensures forall i | 0 <= i < |shares| :: shares[i] == if i < k then low + 1 else low
  {
    k := 0;
    while shares[k] != low
      invariant k < |shares|
      invariant forall i | 0 <= i < k :: shares[i] == low + 1
      decreases |shares| - k
    {
      k := k + 1;
    }
  }

  lemma {:induction false} SumFromCount(shares: seq<Amount>, low: Amount, k: nat, m: nat)
    requires m <= |shares|
    requires forall i | 0 <= i < |shares| :: shares[i] == if i < k then low + 1 else low
    ensures SumAmounts(shares[..m]) == m * low + (if m < k then m else k)
  {
    if m > 0 {
      SumFromCount(shares, low, k, m - 1);
      assert shares[..m][..m - 1] == shares[..m - 1];
      DistributeSum(m - 1, 1, low);
    }
  }

  // ----- split by weight

  /** One share before the remainder is placed: the proportion, rounded down. */
  function DownShare(total: Amount, weight: Decimal, totalWeight: Amount): Amount
    requires totalWeight != 0
  {
    TruncTowardZero(Val(total) * weight / Val(totalWeight) * 10000.0)
  }

  function DownShares(total: Amount, weights: seq<Decimal>, totalWeight: Amount): (r: seq<Amount>)
    requires totalWeight != 0
    ensures |r| == |weights|
  {
    seq(|weights|, i requires 0 <= i < |weights| => DownShare(total, weights[i], totalWeight))
  }

  /** Every line but the last takes its proportion rounded down; the last takes
      what is left. With a zero total weight the split is even. */
  function ByWeight(total: Amount, weights: seq<Decimal>): (shares: seq<Amount>)
    ensures |shares| == |weights|
  {
    var totalWeight := Add(weights);
    if weights == [] then []
    else if totalWeight == 0 then EvenShares(total, |weights|)
    else
      var front := DownShares(total, weights[..|weights| - 1], totalWeight);
      front + [total - SumAmounts(front)]
  }

  method AllocateByWeight(value: Decimal, weights: seq<Decimal>) returns (r: seq<Amount>)
    ensures r == ByWeight(Money(value), weights)
  {
    var total := Money(value);
    var totalWeight := Add(weights);
    if totalWeight == 0 {
      var parts := if |weights| > 1 then |weights| else 1;
      MoneyOfVal(total);
      var even := Allocate(Val(total), parts as real);
      r := even.value[..|weights|];
      return;
    }
    assert weights != [] by { EmptyAdd(weights); }
    var shares := new Amount[|weights|](i requires 0 <= i < |weights| => DownShare(total, weights[i], totalWeight));
    var distributed := 0;
    hide DownShare, Add;
    for i := 0 to shares.Length
      invariant shares[..] == DownShares(total, weights, totalWeight)
      invariant distributed == SumAmounts(shares[..i])
    {
      distributed := distributed + shares[i];
      assert shares[..i + 1][..i] == shares[..i];
    }
    var remainder := total - distributed;
    ghost var down := shares[..];
    ghost var last := |weights| - 1;
    if remainder != 0 && shares.Length > 0 {
      var lastIndex := shares.Length - 1;
      shares[lastIndex] := shares[lastIndex] + remainder;
    }
    r := shares[..];
    LastTakesRest(total, weights, down, r, remainder);
  }

  lemma LastTakesRest(total: Amount, weights: seq<Decimal>, down: seq<Amount>, shares: seq<Amount>, remainder: int)
    requires weights != [] && Add(weights) != 0
    requires down == DownShares(total, weights, Add(weights)) && remainder == total - SumAmounts(down[..|weights|])
    requires var last := |weights| - 1; shares == down[last := down[last] + remainder]
    ensures shares == ByWeight(total, weights)
  {
    hide DownShare, Add;
    var last := |weights| - 1;
    assert down[..|weights|] == down;
    assert down[..last] == DownShares(total, weights[..last], Add(weights));
    assert shares[..last] == down[..last];
    assert shares == shares[..last] + [shares[last]];
  }

  lemma EmptyAdd(weights: seq<Decimal>)
    requires Add(weights) != 0
    ensures weights != []
  {
    if weights == [] {
      MoneyOfVal(0);
    }
  }

  /** The shares add up to the amount, unless there is no line to carry it. */
  lemma ByWeightConserves(total: Amount, weights: seq<Decimal>)
    ensures SumAmounts(ByWeight(total, weights)) == total <==> weights != [] || total == 0
  {
    var shares := ByWeight(total, weights);
    if weights != [] {
      if Add(weights) == 0 {
        EvenSharesAreFair(total, |weights|);
      } else {
        var last := |weights| - 1;
        assert shares[..last] == DownShares(total, weights[..last], Add(weights));
      }
    }
  }

  /** With weights that add up to zero the split is even. */
  lemma WeightlessIsFair(total: Amount, weights: seq<Decimal>)
    requires weights != [] && Add(weights) == 0
    ensures SumAmounts(ByWeight(total, weights)) == total && IsFair(ByWeight(total, weights))
  {
    EvenSharesAreFair(total, |weights|);
  }

  /** Otherwise, whatever the signs and the precision of the weights, every line
      but the last gets its exact proportion truncated to whole units. */
  lemma ByWeightTruncates(total: Amount, weights: seq<Decimal>, i: nat, exact: real)
    requires Add(weights) != 0 && i < |weights| - 1
    requires exact * Add(weights) as real == total as real * weights[i] * 10000.0
    ensures IsTruncated(ByWeight(total, weights)[i], exact)
  {
    hide Add, TruncTowardZero;
    TruncatedIsTrunc(DownShare(total, weights[i], Add(weights)), exact);
    DownShareIs(total, weights[i], Add(weights), exact);
  }

  lemma DownShareIs(total: Amount, weight: Decimal, totalWeight: Amount, exact: real)
    requires totalWeight != 0 && exact * totalWeight as real == total as real * weight * 10000.0
    ensures DownShare(total, weight, totalWeight) == TruncTowardZero(exact)
  {
    hide TruncTowardZero;
    var x := Val(total) * weight / Val(totalWeight) * 10000.0;
    assert DownShare(total, weight, totalWeight) == TruncTowardZero(x);
    InUnitsOf(total as real, Val(total), weight, totalWeight as real, Val(totalWeight), exact);
    hide Val, DownShare;
    QuotientIs(Val(total) * weight, Val(totalWeight), exact);
    assert x == exact;
  }

  lemma InUnitsOf(t: real, vt: real, w: real, d: real, vd: real, exact: real)
    requires vt == t / 10000.0 && vd == d / 10000.0 && exact * d == t * w * 10000.0
    ensures exact * vd == vt * w * 10000.0 && (d != 0.0 ==> vd != 0.0)
  {
    Scaled(exact, d, vd);
    Scaled(w, t, vt);
  }

  lemma Scaled(x: real, y: real, vy: real)
    requires vy == y / 10000.0
    ensures x * vy == x * y / 10000.0 && vy * x == y * x / 10000.0
  {
  }

  // ----- fairness of the split by weight

  /** The exact share of the total, in units, that a stored weight earns. */
  function Proportion(total: Amount, weight: Amount, totalWeight: Amount): real
    requires totalWeight != 0
  {
    total as real * weight as real / totalWeight as real
  }

  function Vals(amounts: seq<Amount>): (r: seq<Decimal>)
    ensures |r| == |amounts|
  {
    seq(|amounts|, i requires 0 <= i < |amounts| => Val(amounts[i]))
  }

  lemma {:induction false} AddOfVals(amounts: seq<Amount>)
    ensures Sum(Vals(amounts)) == Val(SumAmounts(amounts))
    ensures Add(Vals(amounts)) == SumAmounts(amounts)
  {
    if amounts != [] {
      var last := |amounts| - 1;
      AddOfVals(amounts[..last]);
      assert Vals(amounts)[..last] == Vals(amounts[..last]);
    }
    MoneyOfVal(SumAmounts(amounts));
  }

  lemma ProportionTimesWeight(total: Amount, weight: Amount, totalWeight: Amount)
    requires totalWeight != 0
    ensures Proportion(total, weight, totalWeight) * totalWeight as real == total as real * weight as real
  {
  }

  lemma DownShareOfStored(total: Amount, weight: Amount, totalWeight: Amount)
    requires totalWeight != 0
    ensures DownShare(total, Val(weight), totalWeight) == TruncTowardZero(Proportion(total, weight, totalWeight))
  {
    var x := Val(total) * Val(weight) / Val(totalWeight) * 10000.0;
    hide TruncTowardZero;
    assert DownShare(total, Val(weight), totalWeight) == TruncTowardZero(x);
    hide DownShare;
    CancelScale(total as real, weight as real, totalWeight as real,
                Val(total), Val(weight), Val(totalWeight), x, Proportion(total, weight, totalWeight));
  }

  lemma CancelScale(t: real, w: real, d: real, vt: real, vw: real, vd: real, x: real, p: real)
    requires d != 0.0 && vt == t / 10000.0 && vw == w / 10000.0 && vd == d / 10000.0
    requires x == vt * vw / vd * 10000.0 && p == t * w / d
    ensures x == p
  {
    UndoDivision(vt * vw, vd);
    assert vt * vw * 10000.0 == t * w / 10000.0;
    assert x * vd == x * d / 10000.0;
    assert p * d == t * w;
    NamedDifference(x, p, d, t * w, t * w);
    SignOfProduct(x - p, d);
  }

  lemma DownShareBounds(total: Amount, weight: Amount, totalWeight: Amount)
    requires total >= 0 && weight >= 0 && totalWeight > 0
    ensures var p, share := Proportion(total, weight, totalWeight), DownShare(total, Val(weight), totalWeight);
            0 <= share && p - 1.0 < share as real <= p
  {
    DownShareOfStored(total, weight, totalWeight);
    ProportionTimesWeight(total, weight, totalWeight);
    ProductNonNegative(total as real, weight as real);
    SignTimesPositive(Proportion(total, weight, totalWeight), totalWeight as real);
  }

  function SumProportions(total: Amount, weights: seq<Amount>, totalWeight: Amount): real
    requires totalWeight != 0
  {
    if weights == [] then 0.0
    else SumProportions(total, weights[..|weights| - 1], totalWeight)
         + Proportion(total, weights[|weights| - 1], totalWeight)
  }

  lemma {:induction false} ProportionsAddUp(total: Amount, weights: seq<Amount>, totalWeight: Amount)
    requires totalWeight != 0
    ensures SumProportions(total, weights, totalWeight) * totalWeight as real
            == total as real * SumAmounts(weights) as real
  {
    if weights != [] {
      hide Proportion;
      var rest, w := weights[..|weights| - 1], weights[|weights| - 1];
      ProportionsAddUp(total, rest, totalWeight);
      ProportionTimesWeight(total, w, totalWeight);
      AddScaled(SumProportions(total, rest, totalWeight), Proportion(total, w, totalWeight), totalWeight as real,
                total as real, SumAmounts(rest) as real, w as real);
    }
  }

  lemma AddScaled(x: real, y: real, d: real, t: real, u: real, v: real)
    requires x * d == t * u && y * d == t * v
    ensures (x + y) * d == t * (u + v)
  {
    assert (x + y) * d == x * d + y * d;
    assert t * (u + v) == t * u + t * v;
  }

  /** All the proportions together are the total. */
  lemma AllProportions(total: Amount, weights: seq<Amount>)
    requires SumAmounts(weights) != 0
    ensures SumProportions(total, weights, SumAmounts(weights)) == total as real
  {
    var s, w := SumProportions(total, weights, SumAmounts(weights)), SumAmounts(weights) as real;
    ProportionsAddUp(total, weights, SumAmounts(weights));
    NamedDifference(s, total as real, w, s * w, s * w);
    SignOfProduct(s - total as real, w);
  }

  lemma {:induction false} RoundingDownLoses(total: Amount, weights: seq<Amount>, totalWeight: Amount)
    requires total >= 0 && totalWeight > 0
    requires forall i | 0 <= i < |weights| :: weights[i] >= 0
    ensures var lost := SumProportions(total, weights, totalWeight)
                        - SumAmounts(DownShares(total, Vals(weights), totalWeight)) as real;
            0.0 <= lost && (if weights == [] then lost == 0.0 else lost < |weights| as real)
  {
    if weights != [] {
      hide Proportion, DownShare;
      var last := |weights| - 1;
      var down := DownShares(total, Vals(weights), totalWeight);
      RoundingDownLoses(total, weights[..last], totalWeight);
      DownShareBounds(total, weights[last], totalWeight);
      assert down[..last] == DownShares(total, Vals(weights[..last]), totalWeight);
    }
  }

  /** Non-negative stored weights: no share is negative, every line but the last
      gets its exact proportion less under one unit, and the last gets at least
      its own, plus less than one unit for each line before it. */
  lemma ByWeightIsFair(total: Amount, weights: seq<Amount>)
    requires total >= 0 && SumAmounts(weights) > 0
    requires forall i | 0 <= i < |weights| :: weights[i] >= 0
    ensures var shares, totalWeight, last := ByWeight(total, Vals(weights)), SumAmounts(weights), |weights| - 1;
            && weights != []
            && (forall i | 0 <= i <= last :: shares[i] >= 0)
            && (forall i | 0 <= i < last ::
                 var p := Proportion(total, weights[i], totalWeight); p - 1.0 < shares[i] as real <= p)
            && (var excess := shares[last] as real - Proportion(total, weights[last], totalWeight);
                0.0 <= excess && (if last == 0 then excess == 0.0 else excess < last as real))
  {
    hide Proportion, DownShare, ByWeight, SumAmounts;
    var totalWeight, last := SumAmounts(weights), |weights| - 1;
    SharesOfStored(total, weights);
    LastShareExcess(total, weights);
    forall i | 0 <= i <= last
      ensures var p := Proportion(total, weights[i], totalWeight);
              var share := DownShare(total, Val(weights[i]), totalWeight);
              0 <= share && p - 1.0 < share as real <= p
    {
      DownShareBounds(total, weights[i], totalWeight);
    }
  }

  lemma SharesOfStored(total: Amount, weights: seq<Amount>)
    requires SumAmounts(weights) != 0
    ensures weights != []
    ensures var shares, totalWeight, last := ByWeight(total, Vals(weights)), SumAmounts(weights), |weights| - 1;
            && (forall i | 0 <= i < last :: shares[i] == DownShare(total, Val(weights[i]), totalWeight))
            && shares[last] == total - SumAmounts(DownShares(total, Vals(weights[..last]), totalWeight))
  {
    AddOfVals(weights);
    var last := |weights| - 1;
    assert Vals(weights)[..last] == Vals(weights[..last]);
  }

  lemma LastShareExcess(total: Amount, weights: seq<Amount>)
    requires total >= 0 && SumAmounts(weights) > 0
    requires forall i | 0 <= i < |weights| :: weights[i] >= 0
    ensures var shares, totalWeight, last := ByWeight(total, Vals(weights)), SumAmounts(weights), |weights| - 1;
            && weights != []
            && shares[last] >= 0
            && (var excess := shares[last] as real - Proportion(total, weights[last], totalWeight);
                0.0 <= excess && (if last == 0 then excess == 0.0 else excess < last as real))
  {
    hide Proportion, DownShare, ByWeight;
    var totalWeight, last := SumAmounts(weights), |weights| - 1;
    SharesOfStored(total, weights);
    AllProportions(total, weights);
    RoundingDownLoses(total, weights[..last], totalWeight);
    DownShareBounds(total, weights[last], totalWeight);
  }

  /** The leftover can reach a last line that has no weight at all. */
  lemma ZeroWeightLastLineTakesLeftover()
    ensures ByWeight(1, Vals([1, 1, 0])) == [0, 0, 1]
  {
    var weights := [1, 1, 0];
    SumOfFew(weights);
    AddOfVals(weights);
    DownShareOfStored(1, 1, 2);
    TruncUnique(0.5, 0);
    assert Proportion(1, 1, 2) == 0.5;
    var front := DownShares(1, Vals(weights)[..2], 2);
    assert front[0] == 0 && front[1] == 0;
    SumOfFew(front);
  }

  lemma SumOfFew(s: seq<Amount>)
    ensures |s| == 2 ==> SumAmounts(s) == s[0] + s[1]
    ensures |s| == 3 ==> SumAmounts(s) == s[0] + s[1] + s[2]
  {
    if |s| >= 2 {
      assert s[..|s| - 1][..|s| - 2] == s[..|s| - 2];
      if |s| == 3 {
        assert s[..1][..0] == [];
      }
    }
  }

  /** Negating the amount negates every share. */
  lemma ByWeightOdd(total: Amount, weights: seq<Decimal>)
    ensures ByWeight(-total, weights) == Negation(ByWeight(total, weights))
  {
    hide DownShare, EvenShares, Add;
    var totalWeight := Add(weights);
    if weights != [] {
      if totalWeight == 0 {
        EvenSharesOdd(total, |weights|);
      } else {
        var front := DownShares(total, weights[..|weights| - 1], totalWeight);
        forall i | 0 <= i < |front|
          ensures DownShare(-total, weights[i], totalWeight) == -front[i]
        {
          DownShareOdd(total, weights[i], totalWeight);
        }
        assert DownShares(-total, weights[..|weights| - 1], totalWeight) == Negation(front);
        SumOfNegation(front);
      }
    }
  }

  lemma DownShareOdd(total: Amount, weight: Decimal, totalWeight: Amount)
    requires totalWeight != 0
    ensures DownShare(-total, weight, totalWeight) == -DownShare(total, weight, totalWeight)
  {
    var x, y := Val(total) * weight / Val(totalWeight) * 10000.0, Val(-total) * weight / Val(totalWeight) * 10000.0;
    NegatedShare(Val(total), Val(-total), weight, Val(totalWeight), x, y);
    TruncOdd(x);
  }

  lemma NegatedShare(t: real, u: real, w: real, d: real, x: real, y: real)
    requires d != 0.0 && u == -t
    requires x == t * w / d * 10000.0 && y == u * w / d * 10000.0
    ensures y == -x
  {
    NegatedProduct(t, u, w);
    NegatedRatio(t * w, u * w, d);
  }

  lemma NegatedProduct(t: real, u: real, w: real)
    requires u == -t
    ensures u * w == -(t * w)
  {
  }

  lemma NegatedRatio(x: real, y: real, d: real)
    requires d != 0.0 && y == -x
    ensures y / d == -(x / d)
  {
  }
}
