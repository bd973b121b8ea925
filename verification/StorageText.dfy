/** Amounts as text: `toStorageString` and the string branch of `toDecimal` in
    src/lib/money.ts. */
module StorageText {
  import opened Rounding
  import opened Amounts

  // ----- printing

  function DigitChar(d: nat): (c: char)
    requires d < 10
    ensures IsDigit(c) && DigitValue(c) == d
  {
    ('0' as int + d) as char
  }

  predicate IsDigit(c: char) {
    '0' <= c <= '9'
  }

  predicate AllDigits(s: string) {
    forall i | 0 <= i < |s| :: IsDigit(s[i])
  }

  function DigitValue(c: char): nat
    requires IsDigit(c)
  {
    c as int - '0' as int
  }

  /** Decimal digits without leading zeros. */
  function Digits(n: nat): (s: string)
    ensures s != [] && AllDigits(s)
    ensures s[0] == '0' ==> s == "0"
  {
    if n < 10 then [DigitChar(n)] else Digits(n / 10) + [DigitChar(n % 10)]
  }

  function FourDigits(n: nat): (s: string)
    requires n < 10_000
    ensures |s| == 4 && AllDigits(s)
  {
    [DigitChar(n / 1000), DigitChar(n / 100 % 10), DigitChar(n / 10 % 10), DigitChar(n % 10)]
  }

  function Fixed4(size: nat): (s: string)
    ensures |s| >= 6 && IsDigit(s[0])
  {
    Digits(size / 10_000) + "." + FourDigits(size % 10_000)
  }

  function ToFixed4(a: Amount): string {
    if a < 0 then "-" + Fixed4(-a) else Fixed4(a)
  }

  function ToStorageString(value: Decimal): string {
    ToFixed4(Money(value))
  }

  // ----- parsing

  /** The white space that JavaScript's `trim` removes. */
  predicate IsSpace(c: char) {
    c in "\t\n\U{0B}\U{0C}\r \U{A0}\U{1680}\U{2028}\U{2029}\U{202F}\U{205F}\U{3000}\U{FEFF}"
    || '\U{2000}' <= c <= '\U{200A}'
  }

  predicate AllSpace(s: string) {
    forall i | 0 <= i < |s| :: IsSpace(s[i])
  }

  predicate NoSpace(s: string) {
    forall i | 0 <= i < |s| :: !IsSpace(s[i])
  }

  /** By number: ECMAScript's white space and line terminators. */
  lemma SpaceCodePoints(c: char)
    ensures IsSpace(c) <==> c as int in {9, 10, 11, 12, 13, 32, 160, 5760, 8192, 8193, 8194, 8195, 8196, 8197, 8198,
                                         8199, 8200, 8201, 8202, 8232, 8233, 8239, 8287, 12288, 65279}
  {
  }

  function TrimStart(s: string): string {
    if s != [] && IsSpace(s[0]) then TrimStart(s[1..]) else s
  }

  function TrimEnd(s: string): string {
    if s != [] && IsSpace(s[|s| - 1]) then TrimEnd(s[..|s| - 1]) else s
  }

  function Trim(s: string): string {
    TrimEnd(TrimStart(s))
  }

  function RemoveCommas(s: string): (r: string)
    ensures ',' !in r
  {
    if s == [] then []
    else (if s[0] == ',' then [] else [s[0]]) + RemoveCommas(s[1..])
  }

  function NatValue(s: string): nat
    requires AllDigits(s)
  {
    if s == [] then 0 else 10 * NatValue(s[..|s| - 1]) + DigitValue(s[|s| - 1])
  }

  function IndexOfPoint(s: string): (i: nat)
    ensures i <= |s| && (i < |s| ==> s[i] == '.')
  {
    if s == [] || s[0] == '.' then 0 else 1 + IndexOfPoint(s[1..])
  }

  function TenTo(k: nat): (p: nat)
    ensures p > 0
  {
    if k == 0 then 1 else 10 * TenTo(k - 1)
  }

  /** NotPlain: not digits with an optional point and sign. decimal.js then
      throws, unless the text is in one of its other notations. */
  datatype Parsed = Number(value: Decimal) | NotPlain

  /** Digits with an optional point among or beside them. */
  function ParseMagnitude(s: string): Parsed {
    var at := IndexOfPoint(s);
    var whole, fraction := s[..at], if at < |s| then s[at + 1..] else [];
    if whole + fraction != [] && AllDigits(whole + fraction)
    then Number(NatValue(whole + fraction) as real / TenTo(|fraction|) as real)
    else NotPlain
  }

  function ParseDecimal(s: string): Parsed
    requires s != []
  {
    if s[0] == '-' then
      match ParseMagnitude(s[1..])
      case Number(x) => Number(-x)
      case NotPlain => NotPlain
    else ParseMagnitude(if s[0] == '+' then s[1..] else s)
  }

  function ToDecimal(text: string): Parsed {
    var normalised := RemoveCommas(Trim(text));
    if text == "" || normalised == "" || normalised == "-" then Number(0.0)
    else ParseDecimal(normalised)
  }

  // ----- the printed form

  /** Always a sign exactly when negative, a whole part without leading zeros, a
      point, and four fraction digits. */
  lemma StorageShape(value: Decimal)
    ensures var s := ToStorageString(value);
            var from := if Money(value) < 0 then 1 else 0;
            && |s| >= from + 6
            && (s[0] == '-' <==> Money(value) < 0)
            && s[|s| - 5] == '.'
            && AllDigits(s[from..|s| - 5]) && AllDigits(s[|s| - 4..])
            && (s[from] == '0' ==> |s| == from + 6)
  {
    hide Money, Fixed4;
    var a := Money(value);
    var size := if a < 0 then -a else a;
    Fixed4Shape(size);
    var s, t := ToStorageString(value), Fixed4(size);
    if a < 0 {
      assert s == "-" + t;
      assert s[1..|s| - 5] == t[..|t| - 5] && s[|s| - 4..] == t[|t| - 4..] && s[1] == t[0];
    } else {
      assert s[0..|s| - 5] == t[..|t| - 5];
    }
  }

  lemma Fixed4Shape(size: nat)
    ensures var s := Fixed4(size);
            && |s| >= 6 && IsDigit(s[0]) && s[|s| - 5] == '.'
            && AllDigits(s[..|s| - 5]) && AllDigits(s[|s| - 4..])
            && (s[0] == '0' ==> |s| == 6)
  {
    hide Digits, FourDigits;
    var s, whole, fraction := Fixed4(size), Digits(size / 10_000), FourDigits(size % 10_000);
    assert s[..|s| - 5] == whole;
    assert s[|s| - 4..] == fraction;
    assert s[0] == whole[0];
  }

  lemma {:induction false} ValueOfDigits(n: nat)
    ensures NatValue(Digits(n)) == n
  {
    if n >= 10 {
      ValueOfDigits(n / 10);
      assert Digits(n)[..|Digits(n)| - 1] == Digits(n / 10);
    }
  }

  lemma ValueOfAppended(s: string, c: char)
    requires AllDigits(s) && IsDigit(c)
    ensures NatValue(s + [c]) == 10 * NatValue(s) + DigitValue(c)
  {
    assert (s + [c])[..|s|] == s;
  }

  lemma ValueWithFraction(s: string, n: nat)
    requires AllDigits(s) && n < 10_000
    ensures NatValue(s + FourDigits(n)) == 10_000 * NatValue(s) + n
  {
    var f := FourDigits(n);
    var s1 := s + [f[0]];
    var s2 := s1 + [f[1]];
    var s3 := s2 + [f[2]];
    ValueOfAppended(s, f[0]);
    ValueOfAppended(s1, f[1]);
    ValueOfAppended(s2, f[2]);
    ValueOfAppended(s3, f[3]);
    assert s + f == s3 + [f[3]];
    hide NatValue;
    DigitsOfFour(n);
  }

  lemma DigitsOfFour(n: nat)
    requires n < 10_000
    ensures 1000 * (n / 1000) + 100 * (n / 100 % 10) + 10 * (n / 10 % 10) + n % 10 == n
  {
    LastDigit(n);
    LastDigit(n / 10);
    LastDigit(n / 100);
    ShiftTwice(n);
    ShiftTwice(n / 10);
    assert n / 10 / 100 == n / 1000;
  }

  lemma LastDigit(n: nat)
    ensures n == 10 * (n / 10) + n % 10
  {
  }

  lemma ShiftTwice(n: nat)
    ensures n / 10 / 10 == n / 100
  {
  }

  lemma {:induction false} PointAfterDigits(whole: string, fraction: string)
    requires AllDigits(whole)
    ensures IndexOfPoint(whole + "." + fraction) == |whole|
  {
    var s := whole + "." + fraction;
    if whole != [] {
      PointAfterDigits(whole[1..], fraction);
      assert s[1..] == whole[1..] + "." + fraction;
    }
  }

  lemma TenToFour()
    ensures TenTo(4) == 10_000
  {
    assert TenTo(4) == 10 * TenTo(3) == 100 * TenTo(2) == 1000 * TenTo(1);
  }

  lemma ParsePrintedMagnitude(size: nat)
    ensures ParseMagnitude(Fixed4(size)) == Number(size as real / 10000.0)
  {
    var whole, fraction := Digits(size / 10_000), FourDigits(size % 10_000);
    var s := whole + "." + fraction;
    hide Digits, FourDigits, NatValue, IndexOfPoint, TenTo, IsDigit;
    PointAfterDigits(whole, fraction);
    assert s[..|whole|] == whole && s[|whole| + 1..] == fraction;
    ValueOfDigits(size / 10_000);
    ValueWithFraction(whole, size % 10_000);
    TenToFour();
  }

  lemma PrintedHasNoSpaceOrComma(a: Amount)
    ensures NoSpace(ToFixed4(a)) && ',' !in ToFixed4(a)
  {
    var size := if a < 0 then -a else a;
    DigitsArePlain(Digits(size / 10_000));
    DigitsArePlain(FourDigits(size % 10_000));
    hide Digits, FourDigits, IsSpace;
    PlainSign();
  }

  lemma DigitsArePlain(s: string)
    requires AllDigits(s)
    ensures NoSpace(s) && ',' !in s
  {
  }

  lemma PlainSign()
    ensures !IsSpace('-') && !IsSpace('+') && !IsSpace('.')
  {
  }

  lemma {:induction false} NothingToRemove(s: string)
    requires ',' !in s
    ensures RemoveCommas(s) == s
  {
    if s != [] {
      NothingToRemove(s[1..]);
    }
  }

  /** Reading back what was printed gives the rounded amount. */
  lemma PrintParseRoundTrip(value: Decimal)
    ensures ToDecimal(ToStorageString(value)) == Number(Val(Money(value)))
  {
    var a := Money(value);
    hide Money;
    PrintedHasNoSpaceOrComma(a);
    NothingToRemove(ToFixed4(a));
    NothingToTrim(ToFixed4(a));
    hide NoSpace, RemoveCommas, Trim;
    ParsePrinted(a);
  }

  lemma NothingToTrim(s: string)
    requires NoSpace(s)
    ensures Trim(s) == s
  {
    hide IsSpace;
  }

  lemma ParsePrinted(a: Amount)
    ensures |ToFixed4(a)| > 1
    ensures ParseDecimal(ToFixed4(a)) == Number(Val(a))
  {
    hide Fixed4, ParseMagnitude, ParseDecimal;
    var size := if a < 0 then -a else a;
    ParsePrintedMagnitude(size);
    WithSign(Fixed4(size));
  }

  lemma WithSign(s: string)
    requires s != [] && IsDigit(s[0]) && ParseMagnitude(s).Number?
    ensures ParseDecimal(s) == ParseMagnitude(s)
    ensures ParseDecimal("-" + s) == Number(-ParseMagnitude(s).value)
  {
    hide ParseMagnitude;
    assert ("-" + s)[1..] == s;
  }

  /** Two values print alike only when they round to the same amount. */
  lemma PrintIsInjective(x: Decimal, y: Decimal)
    ensures ToStorageString(x) == ToStorageString(y) <==> Money(x) == Money(y)
  {
    PrintParseRoundTrip(x);
    PrintParseRoundTrip(y);
    MoneyOfVal(Money(x));
    MoneyOfVal(Money(y));
  }

  // ----- what every plain text reads as

  /** Digits, with or without a point behind the first of them. */
  function Unsigned(whole: string, fraction: string, pointed: bool): string {
    if pointed then whole + "." + fraction else whole
  }

  /** A sign or none, then digits with or without a point among or beside them. */
  predicate IsForm(s: string, sign: string, whole: string, fraction: string, pointed: bool) {
    && sign in {"", "+", "-"} && AllDigits(whole) && AllDigits(fraction) && whole + fraction != []
    && (pointed || fraction == []) && s == sign + Unsigned(whole, fraction, pointed)
  }

  ghost predicate IsPlain(s: string) {
    exists sign, whole, fraction, pointed :: IsForm(s, sign, whole, fraction, pointed)
  }

  lemma {:induction false} NoPoint(s: string)
    requires AllDigits(s)
    ensures IndexOfPoint(s) == |s|
  {
    if s != [] {
      NoPoint(s[1..]);
    }
  }

  lemma MagnitudeReads(whole: string, fraction: string, pointed: bool)
    requires AllDigits(whole) && AllDigits(fraction) && whole + fraction != [] && (pointed || fraction == [])
    ensures ParseMagnitude(Unsigned(whole, fraction, pointed))
            == Number(NatValue(whole + fraction) as real / TenTo(|fraction|) as real)
  {
    hide IsDigit, NatValue, IndexOfPoint, TenTo;
    if pointed {
      var s := whole + "." + fraction;
      PointAfterDigits(whole, fraction);
      assert s[..|whole|] == whole && s[|whole| + 1..] == fraction;
    } else {
      NoPoint(whole);
      assert whole[..|whole|] + [] == whole + fraction;
    }
  }

  lemma UnsignedStart(whole: string, fraction: string, pointed: bool)
    requires AllDigits(whole) && AllDigits(fraction) && whole + fraction != [] && (pointed || fraction == [])
    ensures var rest := Unsigned(whole, fraction, pointed); rest != [] && rest[0] != '+' && rest[0] != '-'
  {
  }

  lemma SignedReads(s: string, sign: string, rest: string)
    requires s == sign + rest && sign in {"", "+", "-"}
    requires rest != [] && rest[0] != '+' && rest[0] != '-' && ParseMagnitude(rest).Number?
    ensures s != "" && s != "-"
    ensures ParseDecimal(s) == Number(if sign == "-" then -ParseMagnitude(rest).value else ParseMagnitude(rest).value)
  {
    hide ParseMagnitude;
    if sign == "" {
      assert s == rest;
    } else {
      assert s[1..] == rest;
    }
  }

  lemma FormReads(s: string, sign: string, whole: string, fraction: string, pointed: bool)
    requires IsForm(s, sign, whole, fraction, pointed)
    ensures s != "" && s != "-" && ParseDecimal(s).Number?
    ensures var size := NatValue(whole + fraction) as real / TenTo(|fraction|) as real;
            ParseDecimal(s).value == if sign == "-" then -size else size
  {
    hide AllDigits, ParseMagnitude, ParseDecimal, Unsigned, NatValue, TenTo;
    MagnitudeReads(whole, fraction, pointed);
    UnsignedStart(whole, fraction, pointed);
    SignedReads(s, sign, Unsigned(whole, fraction, pointed));
  }

  lemma ReadsAsForm(s: string)
    requires s != "" && ParseDecimal(s).Number?
    ensures IsPlain(s)
  {
    var signed := s[0] == '-' || s[0] == '+';
    var sign, rest := if signed then s[..1] else "", if signed then s[1..] else s;
    assert ParseMagnitude(rest).Number?;
    hide ParseDecimal, ParseMagnitude;
    var whole, fraction, pointed := MagnitudeForm(rest);
    hide AllDigits, Unsigned;
    assert signed ==> sign == [s[0]];
    assert s == sign + rest && sign in {"", "+", "-"};
    assert IsForm(s, sign, whole, fraction, pointed);
  }

  lemma MagnitudeForm(s: string) returns (whole: string, fraction: string, pointed: bool)
    requires ParseMagnitude(s).Number?
    ensures AllDigits(whole) && AllDigits(fraction) && whole + fraction != [] && (pointed || fraction == [])
    ensures s == Unsigned(whole, fraction, pointed)
  {
    hide IsDigit, NatValue, IndexOfPoint, TenTo;
    var at := IndexOfPoint(s);
    whole, fraction, pointed := s[..at], if at < |s| then s[at + 1..] else [], at < |s|;
    DigitsApart(whole, fraction);
  }

  lemma DigitsApart(x: string, y: string)
    requires AllDigits(x + y)
    ensures AllDigits(x) && AllDigits(y)
  {
    assert forall i | 0 <= i < |x| :: (x + y)[i] == x[i];
    assert forall i | 0 <= i < |y| :: (x + y)[|x| + i] == y[i];
  }

  lemma FormIsClean(s: string, sign: string, whole: string, fraction: string, pointed: bool)
    requires IsForm(s, sign, whole, fraction, pointed)
    ensures NoSpace(s) && ',' !in s && AllDigits(whole + fraction)
  {
    DigitsArePlain(whole);
    DigitsArePlain(fraction);
    PlainSign();
    hide IsSpace, AllDigits;
  }

  /** Reading a plain text: the natural number its digits spell, divided by ten
      for every digit behind the point, with the sign in front. */
  lemma PlainTextReads(s: string, sign: string, whole: string, fraction: string, pointed: bool)
    requires IsForm(s, sign, whole, fraction, pointed)
    ensures ToDecimal(s).Number?
    ensures ToDecimal(s).value * TenTo(|fraction|) as real
            == if sign == "-" then -(NatValue(whole + fraction) as real) else NatValue(whole + fraction) as real
  {
    hide NoSpace, AllDigits, NatValue, TenTo, ParseDecimal, RemoveCommas, Trim, IsForm;
    FormIsClean(s, sign, whole, fraction, pointed);
    FormReads(s, sign, whole, fraction, pointed);
    NothingToRemove(s);
    NothingToTrim(s);
    QuotientTimes(NatValue(whole + fraction) as real, TenTo(|fraction|) as real);
  }

  lemma QuotientTimes(x: real, y: real)
    requires y != 0.0
    ensures x / y * y == x && -(x / y) * y == -x
  {
    assert -(x / y) * y == -(x / y * y);
  }

  /** The same without powers or digit sums: a digit counts for itself, one more
      digit makes ten times the number and the digit, moving the point one place
      to the right makes ten times the number, and a sign is a sign. */
  lemma DigitAppended(whole: string, d: char)
    requires AllDigits(whole) && IsDigit(d)
    ensures ToDecimal([d]) == Number((d as int - '0' as int) as real)
    ensures whole != [] ==>
              && ToDecimal(whole).Number?
              && ToDecimal(whole + [d]) == Number(10.0 * ToDecimal(whole).value + (d as int - '0' as int) as real)
  {
    hide ToDecimal, NatValue;
    OneDigitReads(d);
    if whole != [] {
      ValueOfAppended(whole, d);
      WholeReads(whole);
      WholeReads(whole + [d]);
    }
  }

  lemma OneDigitReads(d: char)
    requires IsDigit(d)
    ensures ToDecimal([d]) == Number(DigitValue(d) as real)
  {
    assert [d][..0] == [] && NatValue([d]) == DigitValue(d);
    hide ToDecimal, NatValue;
    WholeReads([d]);
  }

  lemma WholeReads(whole: string)
    requires AllDigits(whole) && whole != []
    ensures ToDecimal(whole) == Number(NatValue(whole) as real)
  {
    hide ToDecimal, NatValue;
    assert whole + [] == whole && "" + whole == whole;
    PlainTextReads(whole, "", whole, "", false);
  }

  lemma PointMoves(whole: string, d: char, fraction: string)
    requires AllDigits(whole) && IsDigit(d) && AllDigits(fraction)
    ensures ToDecimal(whole + "." + ([d] + fraction)).Number?
    ensures ToDecimal(whole + [d] + "." + fraction)
            == Number(10.0 * ToDecimal(whole + "." + ([d] + fraction)).value)
  {
    hide ToDecimal, NatValue;
    var near, far := whole + "." + ([d] + fraction), whole + [d] + "." + fraction;
    assert "" + near == near && "" + far == far;
    PlainTextReads(near, "", whole, [d] + fraction, true);
    PlainTextReads(far, "", whole + [d], fraction, true);
    assert whole + [d] + fraction == whole + ([d] + fraction);
    assert TenTo(|[d] + fraction|) == 10 * TenTo(|fraction|);
    hide TenTo;
    TenTimes(ToDecimal(far).value, ToDecimal(near).value, TenTo(|fraction|) as real);
  }

  lemma TenTimes(x: real, y: real, power: real)
    requires power > 0.0 && x * power == y * (10.0 * power)
    ensures x == 10.0 * y
  {
    assert y * (10.0 * power) == 10.0 * y * power;
    SameFactor(x, 10.0 * y, power);
  }

  lemma SameFactor(x: real, y: real, power: real)
    requires power > 0.0 && x * power == y * power
    ensures x == y
  {
    assert (x - y) * power == x * power - y * power;
  }

  lemma SignsRead(whole: string, fraction: string, pointed: bool)
    requires AllDigits(whole) && AllDigits(fraction) && whole + fraction != [] && (pointed || fraction == [])
    ensures var s := Unsigned(whole, fraction, pointed);
            && ToDecimal(s).Number?
            && ToDecimal("+" + s) == ToDecimal(s)
            && ToDecimal("-" + s) == Number(-ToDecimal(s).value)
  {
    hide ToDecimal, NatValue, Unsigned, AllDigits, TenTo;
    var s := Unsigned(whole, fraction, pointed);
    assert "" + s == s;
    assert "+" != "-" && "" != "-" by {
      assert "+"[0] != "-"[0];
    }
    FormIsClean(s, "", whole, fraction, pointed);
    PlainTextReads(s, "", whole, fraction, pointed);
    PlainTextReads("+" + s, "+", whole, fraction, pointed);
    PlainTextReads("-" + s, "-", whole, fraction, pointed);
    SameQuotient(ToDecimal("+" + s).value, ToDecimal(s).value, TenTo(|fraction|) as real,
                 NatValue(whole + fraction) as real);
    OppositeQuotient(ToDecimal("-" + s).value, ToDecimal(s).value, TenTo(|fraction|) as real,
                     NatValue(whole + fraction) as real);
  }

  lemma SameQuotient(x: real, y: real, power: real, n: real)
    requires power > 0.0 && x * power == n && y * power == n
    ensures x == y
  {
    SameFactor(x, y, power);
  }

  lemma OppositeQuotient(x: real, y: real, power: real, n: real)
    requires power > 0.0 && x * power == -n && y * power == n
    ensures x == -y
  {
    assert (x + y) * power == x * power + y * power;
    SameFactor(x + y, 0.0, power);
  }

  /** A point with nothing behind it does not matter. */
  lemma EmptyFraction(whole: string)
    requires AllDigits(whole) && whole != []
    ensures ToDecimal(whole + ".") == ToDecimal(whole)
  {
    hide ToDecimal, NatValue;
    WholeReads(whole);
    assert whole + [] == whole && "" + (whole + "." + []) == whole + ".";
    PlainTextReads(whole + ".", "", whole, "", true);
  }

  /** Nothing else is read: of the texts left after trimming and taking the commas
      out, the empty one and a lone minus read as zero, a plain one as its number,
      and every other is refused. */
  lemma OnlyPlainTextReads(text: string)
    ensures var s := RemoveCommas(Trim(text));
            && (s == "" || s == "-" ==> ToDecimal(text) == Number(0.0))
            && (s != "" && s != "-" ==> ToDecimal(text) == ParseDecimal(s) && (ToDecimal(text).Number? <==> IsPlain(s)))
  {
    var s := RemoveCommas(Trim(text));
    TrimOfEmpty(text);
    hide RemoveCommas, Trim;
    if s != "" && s != "-" {
      if ParseDecimal(s).Number? {
        ReadsAsForm(s);
      }
      if IsPlain(s) {
        var sign, whole, fraction, pointed :| IsForm(s, sign, whole, fraction, pointed);
        FormReads(s, sign, whole, fraction, pointed);
      }
    }
  }

  lemma TrimOfEmpty(text: string)
    ensures text == "" ==> RemoveCommas(Trim(text)) == ""
  {
  }

  // ----- what parsing ignores

  lemma {:induction false} TrimStartSpaces(w: string, t: string)
    requires AllSpace(w)
    ensures TrimStart(w + t) == TrimStart(t)
  {
    hide IsSpace;
    if w == [] {
      assert w + t == t;
    } else {
      assert (w + t)[1..] == w[1..] + t;
      TrimStartSpaces(w[1..], t);
    }
  }

  lemma {:induction false} TrimEndSpaces(t: string, w: string)
    requires AllSpace(w)
    ensures TrimEnd(t + w) == TrimEnd(t)
  {
    hide IsSpace;
    if w == [] {
      assert t + w == t;
    } else {
      var s := t + w;
      assert s[..|s| - 1] == t + w[..|w| - 1];
      TrimEndSpaces(t, w[..|w| - 1]);
    }
  }

  /** White space around a text and commas anywhere inside it, however many, do
      not change what it parses to. */
  lemma ParsingIgnoresSpaceAndCommas(before: string, text: string, after: string)
    requires AllSpace(before) && AllSpace(after) && NoSpace(text)
    ensures ToDecimal(before + text + after) == ToDecimal(RemoveCommas(text))
  {
    assert RemoveCommas("") == "";
    hide IsSpace, ParseDecimal, RemoveCommas;
    var plain := RemoveCommas(text);
    NothingToRemove(plain);
    CommasAreNotSpace(text);
    NothingToTrim(plain);
    TrimAround(before, text, after);
  }

  lemma TrimAround(before: string, text: string, after: string)
    requires AllSpace(before) && AllSpace(after) && NoSpace(text)
    ensures Trim(before + text + after) == text
  {
    hide IsSpace;
    assert before + text + after == before + (text + after);
    TrimStartSpaces(before, text + after);
    if text == [] {
      assert text + after == after + [];
      TrimStartSpaces(after, []);
    } else {
      assert TrimStart(text + after) == text + after;
      TrimEndSpaces(text, after);
    }
  }

  lemma {:induction false} CommasAreNotSpace(text: string)
    requires NoSpace(text)
    ensures NoSpace(RemoveCommas(text))
  {
    if text != [] {
      CommasAreNotSpace(text[1..]);
    }
  }

  /** A printed amount may be regrouped and padded at will and still reads back
      as the same amount. */
  lemma RegroupedAmountReadsBack(value: Decimal, before: string, text: string, after: string)
    requires AllSpace(before) && AllSpace(after) && NoSpace(text)
    requires RemoveCommas(text) == ToStorageString(value)
    ensures ToDecimal(before + text + after) == Number(Val(Money(value)))
  {
    ParsingIgnoresSpaceAndCommas(before, text, after);
    PrintParseRoundTrip(value);
  }

  // ----- trimming before or after the commas go

  /** No white space at either end. */
  predicate Tight(s: string) {
    s == [] || (!IsSpace(s[0]) && !IsSpace(s[|s| - 1]))
  }

  lemma {:induction false} TrimmedStart(s: string) returns (w: string)
    ensures AllSpace(w) && s == w + TrimStart(s)
    ensures TrimStart(s) != [] ==> !IsSpace(TrimStart(s)[0])
  {
    hide IsSpace;
    w := [];
    if s != [] && IsSpace(s[0]) {
      var rest := TrimmedStart(s[1..]);
      w := [s[0]] + rest;
    }
  }

  lemma {:induction false} TrimmedEnd(s: string) returns (w: string)
    ensures AllSpace(w) && s == TrimEnd(s) + w
    ensures TrimEnd(s) != [] ==> !IsSpace(TrimEnd(s)[|TrimEnd(s)| - 1])
  {
    hide IsSpace;
    w := [];
    if s != [] && IsSpace(s[|s| - 1]) {
      var rest := TrimmedEnd(s[..|s| - 1]);
      w := rest + [s[|s| - 1]];
    }
  }

  /** A text is its trimmed form between two stretches of white space. */
  lemma TrimSplits(s: string) returns (before: string, after: string)
    ensures AllSpace(before) && AllSpace(after) && s == before + Trim(s) + after && Tight(Trim(s))
  {
    hide IsSpace, TrimStart, TrimEnd;
    before := TrimmedStart(s);
    after := TrimmedEnd(TrimStart(s));
    assert s == before + (Trim(s) + after);
  }

  lemma TrimOfTight(s: string)
    ensures Trim(s) == s <==> Tight(s)
  {
    hide IsSpace;
    if !Tight(s) {
      var before, after := TrimSplits(s);
    }
  }

  lemma {:induction false} TrimStartOfPadded(s: string, w: string)
    requires AllSpace(w)
    ensures TrimStart(s + w) == if AllSpace(s) then [] else TrimStart(s) + w
  {
    hide IsSpace;
    if AllSpace(s) {
      TrimStartSpaces(s + w, []);
      assert s + w + [] == s + w;
    } else if IsSpace(s[0]) {
      assert (s + w)[1..] == s[1..] + w;
      TrimStartOfPadded(s[1..], w);
    }
  }

  lemma TrimOfPadded(before: string, s: string, after: string)
    requires AllSpace(before) && AllSpace(after)
    ensures Trim(before + s + after) == Trim(s)
  {
    hide IsSpace, TrimStart, TrimEnd;
    assert before + s + after == before + (s + after);
    TrimStartSpaces(before, s + after);
    TrimStartOfPadded(s, after);
    TrimStartOfPadded(s, []);
    assert s + [] == s;
    if !AllSpace(s) {
      TrimEndSpaces(TrimStart(s), after);
    }
  }

  lemma RemoveCommasStep(c: char, s: string)
    ensures RemoveCommas([c] + s) == (if c == ',' then [] else [c]) + RemoveCommas(s)
  {
    assert ([c] + s)[1..] == s;
  }

  lemma {:induction false} RemoveCommasParts(s: string, t: string)
    ensures RemoveCommas(s + t) == RemoveCommas(s) + RemoveCommas(t)
  {
    if s == [] {
      assert s + t == t;
    } else {
      hide RemoveCommas;
      var c, rest := s[0], s[1..];
      assert s == [c] + rest && s + t == [c] + (rest + t);
      RemoveCommasStep(c, rest);
      RemoveCommasStep(c, rest + t);
      RemoveCommasParts(rest, t);
    }
  }

  lemma SpaceInside(s: string, i: nat)
    requires i < |s| && IsSpace(s[i])
    ensures ParseMagnitude(s) == NotPlain
  {
    var at := IndexOfPoint(s);
    var whole, fraction := s[..at], if at < |s| then s[at + 1..] else [];
    assert !IsDigit(s[i]) && s[i] != '.';
    assert (whole + fraction)[if i < at then i else i - 1] == s[i];
  }

  lemma LooseIsNotPlain(s: string)
    requires !Tight(s)
    ensures s != "-" && ParseDecimal(s) == NotPlain
  {
    hide ParseMagnitude;
    var last := |s| - 1;
    if IsSpace(s[0]) {
      SpaceInside(s, 0);
    } else {
      SpaceInside(s, last);
      assert s[1..][last - 1] == s[last];
      SpaceInside(s[1..], last - 1);
    }
  }

  /** Trimming and taking the commas out may be swapped exactly when no comma at
      either end of the trimmed text has white space behind it; where they may
      not, the text is refused. */
  lemma TrimAndCommasCommute(s: string)
    ensures RemoveCommas(Trim(s)) == Trim(RemoveCommas(s)) <==> Tight(RemoveCommas(Trim(s)))
    ensures !Tight(RemoveCommas(Trim(s))) ==> ToDecimal(s) == NotPlain
  {
    var before, after := TrimSplits(s);
    NothingToRemove(before);
    NothingToRemove(after);
    hide IsSpace, ParseDecimal, RemoveCommas, Trim;
    var plain := RemoveCommas(Trim(s));
    RemoveCommasParts(before + Trim(s), after);
    RemoveCommasParts(before, Trim(s));
    TrimOfPadded(before, plain, after);
    TrimOfTight(plain);
    if !Tight(plain) {
      LooseIsNotPlain(plain);
    }
  }

  /** A comma inside the surrounding white space is such a case: the space behind
      it is no longer at the end, and stays in the text. */
  lemma CommaShieldsSpace()
    ensures ToDecimal(", 1") == NotPlain
  {
    OneCommaSpaceOne();
    hide IsSpace, RemoveCommas, Trim, ToDecimal;
    TrimOfTight(", 1");
    RemoveCommasParts(",", " 1");
    NothingToRemove(" 1");
    assert ", 1" == "," + " 1";
    TrimAndCommasCommute(", 1");
  }

  lemma OneCommaSpaceOne()
    ensures RemoveCommas(",") == []
    ensures !IsSpace(',') && !IsSpace('1') && IsSpace(' ')
  {
  }
}
