/** Money shown to operators and typed by them: `format_minor_amount`, the
  * decimal presenters, and `decimal_to_scaled_integer`. */
module Money {
  import opened Wrappers
  import opened Decimal

  const DASH: string := "—"

  /** The thousands separators of `f"{n:,}"`: a comma before every third digit from the right. */
  function Grouped(digits: string): string {
    if |digits| <= 3 then digits else Grouped(digits[..|digits| - 3]) + "," + digits[|digits| - 3..]
  }

  function Number(absolute: nat, exponent: int): string {
    if exponent <= 0 then Grouped(Digits(absolute))
    else
      var (whole, fraction) := DivMod(absolute, Pow10(exponent));
      Grouped(Digits(whole)) + "." + Padded(fraction, exponent)
  }

  /** Python's `divmod` on non-negative numbers. */
  function DivMod(a: nat, b: nat): (r: (nat, nat))
    requires b >= 1
    ensures a == r.0 * b + r.1 && r.1 < b
  {
    DivisionFacts(a, b);
    (a / b, a % b)
  }

  lemma DivisionFacts(a: nat, b: nat)
    requires b >= 1
    ensures a / b >= 0 && a == (a / b) * b + a % b
  {
  }

  function Abs(n: int): nat { if n < 0 then -n else n }

  /** `format_minor_amount` */
  function FormatMinorAmount(amount: Option<int>, exponent: Option<int>, currency: string): string {
    if amount.None? then DASH
    else
      var e := if exponent.None? then 0 else exponent.value;
      (if amount.value < 0 then "-" else "") + Number(Abs(amount.value), e) + " "
          + (if currency == "" then DASH else currency)
  }

  // ----------------------------------------------------------------------
  // A reader
  // ----------------------------------------------------------------------

  function UpToSpace(s: string): string {
    if s == [] || s[0] == ' ' then [] else [s[0]] + UpToSpace(s[1..])
  }

  /** Drop the commas and the point. */
  function Unpunctuated(s: string): string {
    if s == [] then []
    else if s[0] == ',' || s[0] == '.' then Unpunctuated(s[1..])
    else [s[0]] + Unpunctuated(s[1..])
  }

  /** The amount a reader takes from the printed text, in minor units. */
  function ReadAmount(s: string): Option<int> {
    var number := UpToSpace(s);
    var negative := number != [] && number[0] == '-';
    var digits := Unpunctuated(if negative then number[1..] else number);
    if digits == [] || !AllDigits(digits) then None
    else
      var n: int := Value(digits);
      Some(if negative then -n else n)
  }

  lemma {:induction false} UnpunctuatedConcat(s: string, t: string)
    ensures Unpunctuated(s + t) == Unpunctuated(s) + Unpunctuated(t)
  {
    if s == [] {
      assert s + t == t;
    } else {
      assert (s + t)[1..] == s[1..] + t;
      UnpunctuatedConcat(s[1..], t);
    }
  }

  lemma {:induction false} UnpunctuatedDigits(s: string)
    requires AllDigits(s)
    ensures Unpunctuated(s) == s
  {
    if s != [] {
      assert AllDigits(s[1..]) by {
        assert forall k :: 0 <= k < |s| - 1 ==> s[1..][k] == s[k + 1];
      }
      UnpunctuatedDigits(s[1..]);
      assert IsDigit(s[0]);
      assert s == [s[0]] + s[1..];
    }
  }

  lemma UnpunctuatedJoint(s: string, mark: char, t: string)
    requires mark == ',' || mark == '.'
    ensures Unpunctuated(s + [mark] + t) == Unpunctuated(s) + Unpunctuated(t)
  {
    UnpunctuatedConcat(s + [mark], t);
    UnpunctuatedConcat(s, [mark]);
    assert [mark][1..] == [];
  }

  lemma {:induction false} UngroupGrouped(s: string)
    requires AllDigits(s)
    ensures Unpunctuated(Grouped(s)) == s
    decreases |s|
  {
    if |s| <= 3 {
      UnpunctuatedDigits(s);
    } else {
      var a, b := s[..|s| - 3], s[|s| - 3..];
      UngroupGrouped(a);
      UnpunctuatedDigits(b);
      UnpunctuatedJoint(Grouped(a), ',', b);
      assert Grouped(s) == Grouped(a) + [','] + b;
      assert s == a + b;
    }
  }

  predicate Figures(s: string) {
    forall k :: 0 <= k < |s| ==> IsDigit(s[k]) || s[k] == ',' || s[k] == '.'
  }

  lemma {:induction false} GroupedFigures(s: string)
    requires AllDigits(s)
    ensures Figures(Grouped(s)) && (s != [] ==> Grouped(s) != [])
    decreases |s|
  {
    if |s| > 3 {
      GroupedFigures(s[..|s| - 3]);
    }
  }

  /** Without its punctuation, the printed number is the amount in minor units. */
  lemma NumberBack(absolute: nat, exponent: int)
    ensures var number := Number(absolute, exponent); var digits := Unpunctuated(number);
      && number != [] && Figures(number)
      && digits != [] && AllDigits(digits) && Value(digits) == absolute
  {
    if exponent <= 0 {
      GroupedBack(absolute);
    } else {
      var (whole, fraction) := DivMod(absolute, Pow10(exponent));
      GroupedBack(whole);
      PaddedBack(fraction, exponent);
      PointBack(Grouped(Digits(whole)), Digits(whole), Padded(fraction, exponent));
    }
  }

  lemma GroupedBack(n: nat)
    ensures var number := Grouped(Digits(n));
      && number != [] && Figures(number) && AllDigits(Digits(n))
      && Unpunctuated(number) == Digits(n) && Value(Digits(n)) == n
  {
    DigitsBack(n);
    UngroupGrouped(Digits(n));
    GroupedFigures(Digits(n));
  }

  lemma PointBack(grouped: string, whole: string, fraction: string)
    requires Figures(grouped) && Unpunctuated(grouped) == whole && AllDigits(whole) && AllDigits(fraction)
    ensures var number := grouped + "." + fraction;
      && Figures(number) && Unpunctuated(number) == whole + fraction
      && AllDigits(whole + fraction) && Value(whole + fraction) == Value(whole) * Pow10(|fraction|) + Value(fraction)
  {
    assert grouped + "." + fraction == grouped + ['.'] + fraction;
    UnpunctuatedJoint(grouped, '.', fraction);
    UnpunctuatedDigits(fraction);
    ValueConcat(whole, fraction);
  }

  lemma {:induction false} UpToSpaceStops(s: string, rest: string)
    requires forall k :: 0 <= k < |s| ==> s[k] != ' '
    ensures UpToSpace(s + " " + rest) == s
  {
    if s == [] {
      assert s + " " + rest == " " + rest;
    } else {
      assert (s + " " + rest)[1..] == s[1..] + " " + rest;
      UpToSpaceStops(s[1..], rest);
    }
  }

  /** A printed number with its sign and the currency after it. */
  lemma SignedBack(number: string, digits: string, n: int, negative: bool, suffix: string)
    requires number != [] && Figures(number) && digits == Unpunctuated(number)
    requires digits != [] && AllDigits(digits) && Value(digits) == n
    ensures ReadAmount((if negative then "-" else "") + number + " " + suffix) == Some(if negative then -n else n)
  {
    assert forall k :: 0 <= k < |number| ==> number[k] != ' ' && number[k] != '-';
    var signed := (if negative then "-" else "") + number;
    assert signed == if negative then "-" + number else number;
    UpToSpaceStops(signed, suffix);
    assert negative ==> signed[1..] == number;
  }

  lemma AmountRead(amount: int, exponent: Option<int>, currency: string)
    ensures ReadAmount(FormatMinorAmount(Some(amount), exponent, currency)) == Some(amount)
  {
    var e := if exponent.None? then 0 else exponent.value;
    var number := Number(Abs(amount), e);
    NumberBack(Abs(amount), e);
    SignedBack(number, Unpunctuated(number), Abs(amount), amount < 0, if currency == "" then DASH else currency);
  }

  /** Every integer amount, at every exponent, is printed as the text it should be, and recovered from it. */
  lemma AmountRecovered(amount: int, exponent: Option<int>, currency: string)
    ensures AmountText(FormatMinorAmount(Some(amount), exponent, currency), amount, exponent, currency)
    ensures ReadAmount(FormatMinorAmount(Some(amount), exponent, currency)) == Some(amount)
  {
    AmountPrinted(amount, exponent, currency);
    AmountRead(amount, exponent, currency);
  }

  /** Distinct amounts at one exponent and currency never print alike; an unknown amount prints as none of them. */
  lemma PrintsDistinct(a: Option<int>, b: Option<int>, exponent: Option<int>, currency: string)
    requires a != b
    ensures FormatMinorAmount(a, exponent, currency) != FormatMinorAmount(b, exponent, currency)
  {
    assert ReadAmount(DASH).None? by {
      assert DASH[1..] == "";
      assert UpToSpace(DASH) == [DASH[0]] + UpToSpace(DASH[1..]) == DASH;
      assert Unpunctuated(DASH) == [DASH[0]] + Unpunctuated(DASH[1..]) == DASH;
      assert !IsDigit(DASH[0]);
    }
    if a.Some? {
      AmountRead(a.value, exponent, currency);
    }
    if b.Some? {
      AmountRead(b.value, exponent, currency);
    }
  }

  // ----------------------------------------------------------------------
  // How it looks
  // ----------------------------------------------------------------------

  predicate IsFourth(place: nat) { place % 4 == 3 }

  lemma FourthAgain(place: nat)
    ensures IsFourth(place + 4) <==> IsFourth(place)
    ensures !IsFourth(0) && !IsFourth(1) && !IsFourth(2) && IsFourth(3)
  {
  }

  /** Counted from the right, exactly every fourth character is a comma; the others are digits. */
  ghost predicate InGroups(g: string) {
    forall k :: 0 <= k < |g| ==> if IsFourth(|g| - 1 - k) then g[k] == ',' else IsDigit(g[k])
  }

  lemma OneGroupMore(g: string, back: string)
    requires InGroups(g) && |back| == 3 && AllDigits(back)
    ensures InGroups(g + "," + back)
  {
    var all := g + "," + back;
    forall k | 0 <= k < |all|
      ensures if IsFourth(|all| - 1 - k) then all[k] == ',' else IsDigit(all[k])
    {
      if k < |g| {
        FourthAgain(|g| - 1 - k);
        assert |all| - 1 - k == |g| - 1 - k + 4;
      } else {
        FourthAgain(0);
        var place := |all| - 1 - k;
        assert place == 0 || place == 1 || place == 2 || place == 3;
        assert place < 3 ==> all[k] == back[2 - place];
      }
    }
  }

  lemma {:induction false} CommasEveryThird(s: string)
    requires AllDigits(s)
    ensures InGroups(Grouped(s))
    decreases |s|
  {
    if |s| > 3 {
      CommasEveryThird(s[..|s| - 3]);
      OneGroupMore(Grouped(s[..|s| - 3]), s[|s| - 3..]);
    } else {
      FourthAgain(0);
      forall k | 0 <= k < |s|
        ensures !IsFourth(|s| - 1 - k) && IsDigit(s[k])
      {
        assert |s| - 1 - k == 0 || |s| - 1 - k == 1 || |s| - 1 - k == 2;
      }
    }
  }

  /** The number is the whole part in groups and, for a positive exponent, a point and exactly that many digits. */
  lemma NumberShape(absolute: nat, exponent: int)
    ensures exponent <= 0 ==> InGroups(Number(absolute, exponent))
    ensures exponent > 0 ==>
      var number := Number(absolute, exponent);
      var point := |number| - 1 - exponent;
      && point >= 0 && InGroups(number[..point]) && number[point] == '.' && AllDigits(number[point + 1..])
  {
    DigitsBack(absolute);
    CommasEveryThird(Digits(absolute));
    if exponent > 0 {
      var (whole, fraction) := DivMod(absolute, Pow10(exponent));
      DigitsBack(whole);
      CommasEveryThird(Digits(whole));
      PaddedBack(fraction, exponent);
      PointSplits(Grouped(Digits(whole)), Padded(fraction, exponent), Number(absolute, exponent));
    }
  }

  lemma PointSplits(whole: string, fraction: string, number: string)
    requires number == whole + "." + fraction
    ensures number[..|number| - 1 - |fraction|] == whole && number[|number| - 1 - |fraction|] == '.'
    ensures number[|number| - |fraction|..] == fraction
  {
  }

  /** `g` is `n` in decimal with a comma before every third digit from the right. */
  ghost predicate WholeText(g: string, n: nat) {
    && g != [] && g[0] != ',' && (|g| > 1 ==> g[0] != '0') && InGroups(g)
    && AllDigits(Unpunctuated(g)) && Value(Unpunctuated(g)) == n
  }

  /** `number` is `n` over `10^e`: a grouped whole part and, for a positive `e`, a point and exactly `e` digits. */
  ghost predicate NumberText(number: string, n: nat, e: nat) {
    if e == 0 then WholeText(number, n)
    else
      && |number| > e && number[|number| - 1 - e] == '.' && AllDigits(number[|number| - e..])
      && exists whole: nat :: WholeText(number[..|number| - 1 - e], whole) &&
           n == whole * Pow10(e) + Value(number[|number| - e..])
  }

  /** The whole printed text: a minus sign exactly for a negative amount, the number, a space, and the currency or a
    * dash. An exponent that is missing or not positive is none. */
  ghost predicate AmountText(text: string, amount: int, exponent: Option<int>, currency: string) {
    var e: nat := if exponent.Some? && exponent.value > 0 then exponent.value else 0;
    exists number :: AmountTextOf(text, number, amount, e, currency)
  }

  ghost predicate AmountTextOf(text: string, number: string, amount: int, e: nat, currency: string) {
    && NumberText(number, if amount < 0 then -amount else amount, e)
    && text == (if amount < 0 then "-" else "") + number + " " + (if currency == "" then "—" else currency)
  }

  lemma {:induction false} GroupedLead(s: string)
    requires s != [] && AllDigits(s) && (|s| > 1 ==> s[0] != '0')
    ensures Grouped(s) != [] && Grouped(s)[0] == s[0] && (|Grouped(s)| > 1 ==> |s| > 1)
    decreases |s|
  {
    if |s| > 3 {
      GroupedLead(s[..|s| - 3]);
    }
  }

  lemma WholeIs(n: nat)
    ensures WholeText(Grouped(Digits(n)), n)
  {
    GroupedBack(n);
    DigitsLead(n);
    DigitsLength(n, 1);
    assert Pow10(1) == 10 * Pow10(0);
    GroupedLead(Digits(n));
    CommasEveryThird(Digits(n));
  }

  lemma NumberIs(n: nat, e: int)
    ensures NumberText(Number(n, e), n, if e > 0 then e else 0)
  {
    if e <= 0 {
      WholeIs(n);
    } else {
      var (whole, fraction) := DivMod(n, Pow10(e));
      WholeIs(whole);
      PaddedBack(fraction, e);
      PointSplits(Grouped(Digits(whole)), Padded(fraction, e), Number(n, e));
    }
  }

  /** The printed text, whole, for every amount, exponent and currency. */
  lemma AmountPrinted(amount: int, exponent: Option<int>, currency: string)
    ensures AmountText(FormatMinorAmount(Some(amount), exponent, currency), amount, exponent, currency)
  {
    var e := if exponent.None? then 0 else exponent.value;
    NumberIs(Abs(amount), e);
    assert AmountTextOf(FormatMinorAmount(Some(amount), exponent, currency), Number(Abs(amount), e), amount,
                        if e > 0 then e else 0, currency);
  }

  // ----------------------------------------------------------------------
  // Reading with the point kept
  // ----------------------------------------------------------------------

  function UpToPoint(s: string): string {
    if s == [] || s[0] == '.' then [] else [s[0]] + UpToPoint(s[1..])
  }

  /** A printed number: its sign, its whole part, and the fraction with its number of digits. */
  datatype Parts = Parts(negative: bool, whole: nat, fraction: nat, places: nat)

  function BodyParts(body: string, negative: bool): Option<Parts> {
    var whole := UpToPoint(body);
    var fraction := if |whole| < |body| then body[|whole| + 1..] else "";
    var digits := Unpunctuated(whole);
    if digits == [] || !AllDigits(digits) || !AllDigits(fraction) then None
    else Some(Parts(negative, Value(digits), Value(fraction), |fraction|))
  }

  /** The number before the space. */
  function ReadParts(s: string): Option<Parts> {
    var number := UpToSpace(s);
    if number != [] && number[0] == '-' then BodyParts(number[1..], true) else BodyParts(number, false)
  }

  lemma {:induction false} UpToPointStops(s: string, rest: string)
    requires forall k :: 0 <= k < |s| ==> s[k] != '.'
    ensures UpToPoint(s) == s && UpToPoint(s + "." + rest) == s
  {
    if s == [] {
      assert s + "." + rest == "." + rest;
    } else {
      assert (s + "." + rest)[1..] == s[1..] + "." + rest;
      UpToPointStops(s[1..], rest);
    }
  }

  lemma FractionRead(body: string, g: string, digits: string, fraction: string, negative: bool)
    requires body == g + "." + fraction && UpToPoint(body) == g && digits == Unpunctuated(g)
    requires digits != [] && AllDigits(digits) && AllDigits(fraction)
    ensures BodyParts(body, negative) == Some(Parts(negative, Value(digits), Value(fraction), |fraction|))
  {
    assert body[|g| + 1..] == fraction;
  }

  /** The number between sign and space. */
  lemma BodyRead(n: nat, e: int, negative: bool)
    ensures e <= 0 ==> BodyParts(Number(n, e), negative) == Some(Parts(negative, n, 0, 0))
    ensures e > 0 ==> BodyParts(Number(n, e), negative) == Some(Parts(negative, n / Pow10(e), n % Pow10(e), e))
  {
    if e <= 0 {
      var g, digits := WholeRead(n, "");
      assert Value("") == 0;
    } else {
      var (whole, part) := DivMod(n, Pow10(e));
      var fraction := Padded(part, e);
      PaddedBack(part, e);
      var g, digits := WholeRead(whole, fraction);
      FractionRead(Number(n, e), g, digits, fraction, negative);
    }
  }

  lemma WholeRead(n: nat, rest: string) returns (g: string, digits: string)
    ensures g == Grouped(Digits(n)) && digits == Unpunctuated(g)
    ensures UpToPoint(g) == g && UpToPoint(g + "." + rest) == g
    ensures digits != [] && AllDigits(digits) && Value(digits) == n
  {
    g, digits := Grouped(Digits(n)), Digits(n);
    GroupedBack(n);
    CommasEveryThird(Digits(n));
    UpToPointStops(g, rest);
  }

  /** Read with the point kept, the printed text has the sign of the amount, the whole part of the amount over ten to
    * the exponent, and the rest as a fraction of exactly as many digits. */
  lemma PartsRead(amount: int, exponent: Option<int>, currency: string)
    ensures var e: nat := if exponent.Some? && exponent.value > 0 then exponent.value else 0;
      var n: nat := if amount < 0 then -amount else amount;
      ReadParts(FormatMinorAmount(Some(amount), exponent, currency))
        == Some(Parts(amount < 0, n / Pow10(e), n % Pow10(e), e))
  {
    var e := if exponent.None? then 0 else exponent.value;
    var places: nat := if e > 0 then e else 0;
    NumberBack(Abs(amount), e);
    BodyRead(Abs(amount), e, amount < 0);
    assert Pow10(0) == 1;
    SignedParts(Number(Abs(amount), e), if currency == "" then DASH else currency,
                Parts(amount < 0, Abs(amount) / Pow10(places), Abs(amount) % Pow10(places), places));
  }

  lemma SignedParts(number: string, suffix: string, parts: Parts)
    requires number != [] && Figures(number) && BodyParts(number, parts.negative) == Some(parts)
    ensures ReadParts((if parts.negative then "-" else "") + number + " " + suffix) == Some(parts)
  {
    SignCut(number, parts.negative, suffix);
  }

  lemma SignCut(number: string, negative: bool, suffix: string)
    requires number != [] && Figures(number)
    ensures var s := (if negative then "-" else "") + number;
      && UpToSpace(s + " " + suffix) == s && (s[0] == '-' <==> negative) && (if negative then s[1..] else s) == number
  {
    assert forall k :: 0 <= k < |number| ==> number[k] != ' ' && number[k] != '-';
    var s := (if negative then "-" else "") + number;
    assert s == if negative then "-" + number else number;
    UpToSpaceStops(s, suffix);
  }

  // ----------------------------------------------------------------------
  // Decimals and scaled integers
  // ----------------------------------------------------------------------

  datatype FormError = TooPrecise

  /** `decimal_to_scaled_integer`, on exact decimals. */
  function ToScaled(value: real, scale: int): Result<int, FormError> {
    Integral(Times(value, scale))
  }

  function Times(value: real, scale: int): real { value * scale as real }

  function Integral(scaled: real): Result<int, FormError> {
    if scaled != scaled.Floor as real then Err(TooPrecise) else Ok(scaled.Floor)
  }

  function DecimalEur(cents: int): real { cents as real / 100.0 }

  function PercentFromBps(bps: int): real { bps as real / 100.0 }

  function DecimalMicros(micros: int): real { micros as real / 1000000.0 }

  /** It accepts exactly the values that are a whole number of units, and gives that number. */
  lemma ScaledExactly(value: real, scale: int, units: int)
    requires scale >= 1
    ensures ToScaled(value, scale) == Ok(units) <==> value == units as real / scale as real
  {
    Quotient(value, scale as real, units as real);
    IntegralExactly(Times(value, scale), units);
  }

  lemma IntegralExactly(scaled: real, units: int)
    ensures Integral(scaled) == Ok(units) <==> scaled == units as real
  {
    assert (units as real).Floor == units;
  }

  lemma Quotient(value: real, scale: real, units: real)
    requires scale > 0.0
    ensures value * scale == units <==> value == units / scale
  {
    assert units / scale * scale == units;
    if value * scale == units {
      assert (value - units / scale) * scale == 0.0;
    }
  }

  /** The conversions invert the presenters. */
  lemma PresentersInverted(n: int)
    ensures ToScaled(DecimalEur(n), 100) == Ok(n)
    ensures ToScaled(PercentFromBps(n), 100) == Ok(n)
    ensures ToScaled(DecimalMicros(n), 1000000) == Ok(n)
  {
    ScaledExactly(DecimalEur(n), 100, n);
    ScaledExactly(DecimalMicros(n), 1000000, n);
  }

  /** And the presenters invert the conversions: whatever the form accepts is shown back unchanged. */
  lemma ConversionsInverted(value: real)
    ensures ToScaled(value, 100).Ok? ==>
      DecimalEur(ToScaled(value, 100).value) == value == PercentFromBps(ToScaled(value, 100).value)
    ensures ToScaled(value, 1000000).Ok? ==> DecimalMicros(ToScaled(value, 1000000).value) == value
  {
    if ToScaled(value, 100).Ok? {
      ScaledExactly(value, 100, ToScaled(value, 100).value);
    }
    if ToScaled(value, 1000000).Ok? {
      ScaledExactly(value, 1000000, ToScaled(value, 1000000).value);
    }
  }
}
