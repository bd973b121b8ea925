/** The figure a KPI tile shows: `formatCurrencyCompact` of src/lib/format.ts for
    rupees, as a number. */
module CompactDisplay {
  import opened Rounding
  import opened Products
  import opened Amounts

  /** What the reader sees: a sign, a figure with two decimals, a suffix. Below a
      thousand the figure is in rupees and carries no suffix. */
  datatype Tier = Plain | K | L | Cr
  datatype Shown = Shown(negative: bool, hundredths: nat, tier: Tier)

  function Rupees(tier: Tier): (r: nat)
    ensures r > 0
  {
    match tier
    case Plain => 1
    case K => 1_000
    case L => 100_000
    case Cr => 10_000_000
  }

  function Absolute(a: Amount): nat {
    if a < 0 then -a else a
  }

  function TierOf(absolute: Decimal): Tier {
    if absolute >= 10_000_000.0 then Cr
    else if absolute >= 100_000.0 then L
    else if absolute >= 1_000.0 then K
    else Plain
  }

  /** The figure in hundredths of its tier's unit. */
  function Hundredths(absolute: Decimal, tier: Tier): int {
    RoundHalfAway(absolute / Rupees(tier) as real * 100.0)
  }

  /** `format(divisor, suffix)`, and the plain currency format below a thousand. */
  function FormatCompact(value: Decimal): Shown {
    var amount := Money(value);
    var absolute := Val(Absolute(amount));
    match TierOf(absolute)
    case Plain =>
      var paise := Round2(Val(amount));
      Shown(paise < 0, Absolute(paise), Plain)
    case tier => Shown(amount < 0, Hundredths(absolute, tier), tier)
  }

  /** The amount the shown text stands for, in units of 0.0001. */
  function Meaning(s: Shown): Amount {
    var size := s.hundredths * Rupees(s.tier) * 100;
    if s.negative then -size else size
  }

  function ShownAmount(a: Amount): Amount {
    Meaning(FormatCompact(Val(a)))
  }

  // ----- one magnitude in its tier

  /** The last digit of a tier's figure, in units of 0.0001. */
  function StepOf(tier: Tier): (step: int)
    ensures step > 0
  {
    match tier
    case Plain => 100
    case K => 100_000
    case L => 10_000_000
    case Cr => 1_000_000_000
  }

  lemma ScaledFigure(size: nat, tier: Tier)
    ensures Val(size) / Rupees(tier) as real * 100.0 * StepOf(tier) as real == size as real
  {
  }

  lemma HalfStep(x: real, size: nat, tier: Tier)
    requires x * StepOf(tier) as real == size as real
    ensures -StepOf(tier) <= 2 * (RoundHalfAway(x) * StepOf(tier) - size) <= StepOf(tier)
    ensures x >= 0.0
  {
    var n := RoundHalfAway(x) as real;
    match tier {
      case Plain => assert -100.0 <= 2.0 * (n * 100.0 - size as real) <= 100.0;
      case K => assert -100_000.0 <= 2.0 * (n * 100_000.0 - size as real) <= 100_000.0;
      case L => assert -10_000_000.0 <= 2.0 * (n * 10_000_000.0 - size as real) <= 10_000_000.0;
      case Cr => assert -1_000_000_000.0 <= 2.0 * (n * 1_000_000_000.0 - size as real) <= 1_000_000_000.0;
    }
  }

  /** The figure is a nearest multiple of its last digit, and grows with the
      magnitude. */
  lemma FigureIsNearest(size: nat, tier: Tier)
    ensures Hundredths(Val(size), tier) >= 0
    ensures -StepOf(tier) <= 2 * (Hundredths(Val(size), tier) * StepOf(tier) - size) <= StepOf(tier)
  {
    hide StepOf, Rupees, RoundHalfAway, Val;
    ScaledFigure(size, tier);
    HalfStep(Val(size) / Rupees(tier) as real * 100.0, size, tier);
  }

  lemma FigureIsMonotone(a: nat, b: nat, tier: Tier)
    requires a <= b
    ensures Hundredths(Val(a), tier) * StepOf(tier) <= Hundredths(Val(b), tier) * StepOf(tier)
  {
    hide StepOf, Rupees, RoundHalfAway, Val;
    var x, y, step := Val(a) / Rupees(tier) as real * 100.0, Val(b) / Rupees(tier) as real * 100.0, StepOf(tier);
    ScaledFigure(a, tier);
    ScaledFigure(b, tier);
    NamedDifference(y, x, step as real, b as real, a as real);
    SignTimesPositive(y - x, step as real);
    RoundMonotone(x, y);
    NonNegative(RoundHalfAway(y) - RoundHalfAway(x), step);
    DistributeSum(RoundHalfAway(y) - RoundHalfAway(x), RoundHalfAway(x), step);
  }

  /** What is shown is the figure of the magnitude, with the amount's sign. */
  lemma ShownIsFigure(a: Amount)
    ensures var tier := TierOf(Val(Absolute(a)));
            var size := Hundredths(Val(Absolute(a)), tier) * StepOf(tier);
            ShownAmount(a) == if a < 0 then -size else size
  {
    MoneyOfVal(a);
    FigureIsNearest(Absolute(a), TierOf(Val(Absolute(a))));
    if TierOf(Val(Absolute(a))) == Plain {
      PaiseOf(a);
    }
  }

  lemma PaiseOf(a: Amount)
    ensures Round2(Val(a)) == if a < 0 then -Hundredths(Val(-a), Plain) else Hundredths(Val(a), Plain)
  {
    hide RoundHalfAway;
    assert Val(a) * 100.0 == -(Val(-a) * 100.0);
    RoundOdd(Val(-a) * 100.0);
    assert Val(a) / Rupees(Plain) as real == Val(a) && Val(-a) / Rupees(Plain) as real == Val(-a);
  }

  /** The suffix goes by the size of the stored amount, in units of 0.0001: K from
      1,000 rupees, L from 1,00,000, Cr from 1,00,00,000. An amount finer than
      that is shown as the stored one is, and the sign only where it matters. */
  lemma SuffixBySize(value: Decimal)
    ensures var size, tier := Absolute(Money(value)), FormatCompact(value).tier;
            && (tier == Plain <==> size < 10_000_000)
            && (tier == K <==> 10_000_000 <= size < 1_000_000_000)
            && (tier == L <==> 1_000_000_000 <= size < 100_000_000_000)
            && (tier == Cr <==> 100_000_000_000 <= size)
    ensures FormatCompact(value) == FormatCompact(Val(Money(value)))
    ensures FormatCompact(value).negative <==> Meaning(FormatCompact(value)) < 0
  {
    MoneyOfVal(Money(value));
    ShownIsFigure(Money(value));
    FigureOfAbsolute(Absolute(Money(value)));
  }

  lemma FigureOfAbsolute(size: nat)
    ensures size >= 10_000_000 ==> Hundredths(Val(size), TierOf(Val(size))) > 0
  {
    FigureIsNearest(size, TierOf(Val(size)));
  }

  /** The shown magnitude is a nearest multiple of the tier's last digit. */
  lemma ShownStep(a: Amount)
    ensures var size, shown, step := Absolute(a), Absolute(ShownAmount(a)), StepOf(TierOf(Val(Absolute(a))));
            && shown % step == 0
            && -step <= 2 * (shown - size) <= step
    ensures a >= 0 ==> ShownAmount(a) >= 0
    ensures a <= 0 ==> ShownAmount(a) <= 0
  {
    hide ShownAmount, TierOf, Val, Hundredths, StepOf;
    var size, tier := Absolute(a), TierOf(Val(Absolute(a)));
    ShownIsFigure(a);
    FigureIsNearest(size, tier);
    NonNegative(Hundredths(Val(size), tier), StepOf(tier));
    IsMultiple(Hundredths(Val(size), tier), tier);
  }

  lemma IsMultiple(n: int, tier: Tier)
    ensures n * StepOf(tier) % StepOf(tier) == 0
  {
    match tier {
      case Plain => assert n * 100 % 100 == 0;
      case K => assert n * 100_000 % 100_000 == 0;
      case L => assert n * 10_000_000 % 10_000_000 == 0;
      case Cr => assert n * 1_000_000_000 % 1_000_000_000 == 0;
    }
  }

  /** Changing the sign of the amount changes the sign of what is shown. */
  lemma CompactIsOdd(a: Amount)
    ensures ShownAmount(-a) == -ShownAmount(a)
  {
    hide ShownAmount, TierOf, Val, Hundredths;
    ShownIsFigure(a);
    ShownIsFigure(-a);
    FigureOfZero(TierOf(Val(0)));
  }

  lemma FigureOfZero(tier: Tier)
    ensures Hundredths(Val(0), tier) == 0
  {
    FigureIsNearest(0, tier);
  }

  /** A larger amount is never shown as a smaller figure, even across a change
      of suffix. */
  lemma CompactIsMonotone(a: Amount, b: Amount)
    requires a <= b
    ensures ShownAmount(a) <= ShownAmount(b)
  {
    hide ShownAmount, TierOf, Val, StepOf;
    if a >= 0 {
      MonotoneFromZero(a, b);
    } else if b <= 0 {
      CompactIsOdd(a);
      CompactIsOdd(b);
      MonotoneFromZero(-b, -a);
    } else {
      ShownStep(a);
      ShownStep(b);
    }
  }

  lemma MonotoneFromZero(a: nat, b: nat)
    requires a <= b
    ensures ShownAmount(a) <= ShownAmount(b)
  {
    hide ShownAmount, Val, StepOf, Hundredths, TierOf;
    ShownIsFigure(a);
    ShownIsFigure(b);
    if TierOf(Val(a)) == TierOf(Val(b)) {
      FigureIsMonotone(a, b, TierOf(Val(a)));
    } else {
      BoundaryBetween(a, b);
    }
  }

  /** A tier never shows more than where the next one starts, and the next one
      never shows less. */
  lemma BoundaryBetween(a: nat, b: nat)
    requires a < b && TierOf(Val(a)) != TierOf(Val(b))
    ensures var tierA, tierB := TierOf(Val(a)), TierOf(Val(b));
            Hundredths(Val(a), tierA) * StepOf(tierA) <= Hundredths(Val(b), tierB) * StepOf(tierB)
  {
    var tierA, tierB := TierOf(Val(a)), TierOf(Val(b));
    var boundary := 100 * StepOf(tierB);
    assert StepOf(tierA) < StepOf(tierB) && a < boundary <= b;
    hide TierOf, Val, Hundredths;
    FigureIsNearest(a, tierA);
    FigureIsNearest(b, tierB);
    var multiple := 100 * StepOf(tierB) / StepOf(tierA);
    assert 100 * StepOf(tierB) == multiple * StepOf(tierA);
    hide StepOf;
    NearestKeepsSide(Hundredths(Val(a), tierA), a, StepOf(tierA), multiple);
    NearestKeepsSide(Hundredths(Val(b), tierB), b, StepOf(tierB), 100);
  }

  /** A nearest multiple stays on the same side of any other multiple. */
  lemma NearestKeepsSide(figure: int, size: int, step: int, multiple: int)
    requires step > 0 && -step <= 2 * (figure * step - size) <= step
    ensures size <= multiple * step ==> figure * step <= multiple * step
    ensures size >= multiple * step ==> figure * step >= multiple * step
  {
    DistributeSum(figure - multiple - 1, multiple + 1, step);
    DistributeSum(multiple, 1, step);
    DistributeSum(multiple - figure - 1, figure + 1, step);
    DistributeSum(figure, 1, step);
    if figure > multiple {
      NonNegative(figure - multiple - 1, step);
    } else if figure < multiple {
      NonNegative(multiple - figure - 1, step);
    }
  }

  /** Off by at most half a paisa below a thousand rupees, by at most half a per
      cent from there on. */
  lemma CompactAccuracy(a: Amount)
    ensures Absolute(a) < 10_000_000 ==> Absolute(ShownAmount(a) - a) <= 50
    ensures Absolute(a) >= 10_000_000 ==> 200 * Absolute(ShownAmount(a) - a) <= Absolute(a)
  {
    hide ShownAmount;
    ShownStep(a);
  }

  /** Exactly the top half-step of a tier is shown as a hundred of it: 99,995
      rupees and up read 100K, 99,99,500 and up read 100L. */
  lemma HundredIsShown(a: Amount)
    ensures FormatCompact(Val(a)).tier == K ==>
              (FormatCompact(Val(a)).hundredths == 10_000 <==> Absolute(a) >= 999_950_000)
    ensures FormatCompact(Val(a)).tier == L ==>
              (FormatCompact(Val(a)).hundredths == 10_000 <==> Absolute(a) >= 99_995_000_000)
  {
    MoneyOfVal(a);
  }
}
