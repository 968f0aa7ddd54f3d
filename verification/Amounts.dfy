/** Printing cents as a decimal with two places, and reading amounts back from import files. */
module Amounts {
  import opened Wrappers
  import opened NoteTags
  import opened Numerals

  const MAX_CENTS: int := 100_000_000

  function IntText(n: nat): (s: string)
    ensures Digits(s) && s != ""
  {
    if n < 10 then [DigitOf(n)] else IntText(n / 10) + [DigitOf(n % 10)]
  }

  /** `f"{Decimal(cents) / Decimal(100):.2f}"`. */
  function PriceText(cents: nat): (s: string)
    ensures s != ""
  {
    IntText(cents / 100) + "." + [DigitOf(cents / 10 % 10), DigitOf(cents % 10)]
  }

  /** The number `coefficient / 10^scale`. */
  datatype Decimal = Decimal(negative: bool, coefficient: nat, scale: nat)

  function Point(s: string): (p: nat)
    ensures p <= |s| && (p < |s| ==> s[p] == '.') && '.' !in s[..p]
  {
    if s == "" || s[0] == '.' then 0
    else
      var p := Point(s[1..]);
      assert s[..p + 1] == [s[0]] + s[1..][..p];
      p + 1
  }

  /** Plain decimal notation with an optional sign. */
  function ParseDecimal(s: string): Option<Decimal> {
    var signed := s != "" && (s[0] == '-' || s[0] == '+');
    var body := if signed then s[1..] else s;
    var p := Point(body);
    var (whole, fraction) := (body[..p], if p < |body| then body[p + 1..] else "");
    if Digits(whole) && Digits(fraction) && whole + fraction != ""
    then Some(Decimal(signed && s[0] == '-', Value(whole + fraction), |fraction|))
    else None
  }

  function WithoutCommas(s: string): (r: string)
    ensures ',' !in r
  {
    if s == "" then "" else if s[0] == ',' then WithoutCommas(s[1..]) else [s[0]] + WithoutCommas(s[1..])
  }

  /** `Unquantizable` is not caught where the other errors are: it ends the whole preview. */
  datatype AmountError = Missing | NotANumber | NotPositive | NotInteger | TooManyPlaces | TooLarge | Unquantizable

  /** The first whole number with more digits than the twenty-eight the decimal context keeps. */
  const TOO_WIDE: nat := 10_000_000_000_000_000_000_000_000_000

  function HalfUp(numerator: nat, denominator: nat): nat
    requires denominator > 0
  {
    (2 * numerator + denominator) / (2 * denominator)
  }

  /** An amount is rounded to whole cents before it is compared, which raises when the result needs more digits than the
      context keeps; an amount in cents is compared without rounding. */
  function CentsOf(d: Decimal, isCents: bool): Result<int, AmountError> {
    if d.negative || d.coefficient == 0 then Err(NotPositive)
    else if !isCents && HalfUp(d.coefficient * 100, Pow10(d.scale)) >= TOO_WIDE then Err(Unquantizable)
    else
      var scaled := if isCents then d.coefficient else d.coefficient * 100;
      if scaled % Pow10(d.scale) != 0 then Err(if isCents then NotInteger else TooManyPlaces)
      else
        var cents := scaled / Pow10(d.scale);
        if cents > MAX_CENTS then Err(TooLarge) else Ok(cents)
  }

  /** `_import_amount`: either field's text, or nothing. */
  function ImportAmount(cell: Option<string>, isCents: bool): Result<int, AmountError> {
    if cell.None? then Err(Missing)
    else
      var text := WithoutCommas(Strip(cell.value));
      if text == "" then Err(Missing)
      else
        match ParseDecimal(text)
        case None => Err(NotANumber)
        case Some(d) => CentsOf(d, isCents)
  }

  lemma {:induction false} ValueOfIntText(n: nat)
    ensures Value(IntText(n)) == n
  {
    if n >= 10 {
      ValueOfIntText(n / 10);
      var s := IntText(n);
      assert s[..|s| - 1] == IntText(n / 10);
    }
  }

  lemma {:induction false} PointAfterDigits(a: string, b: string)
    requires Digits(a) && b != "" && b[0] == '.'
    ensures Point(a + b) == |a|
  {
    if a == "" {
      assert a + b == b;
    } else {
      assert (a + b)[1..] == a[1..] + b && (a + b)[0] == a[0];
      PointAfterDigits(a[1..], b);
    }
  }

  lemma {:induction false} NoCommas(s: string)
    requires ',' !in s
    ensures WithoutCommas(s) == s
  {
    if s != "" {
      NoCommas(s[1..]);
      assert s == [s[0]] + s[1..];
    }
  }

  lemma PointSplits(whole: string, fraction: string)
    requires Digits(whole)
    ensures var s := whole + "." + fraction;
            Point(s) == |whole| && s[..|whole|] == whole && s[|whole| + 1..] == fraction
  {
    PointAfterDigits(whole, "." + fraction);
    assert whole + "." + fraction == whole + ("." + fraction);
  }

  lemma ParsePlain(whole: string, fraction: string)
    requires whole != "" && Digits(whole) && Digits(fraction)
    ensures ParseDecimal(whole + "." + fraction) == Some(Decimal(false, Value(whole + fraction), |fraction|))
  {
    var s := whole + "." + fraction;
    PointSplits(whole, fraction);
    assert s[0] == whole[0] && IsDigit(s[0]);
  }

  lemma LastTwoDigits(cents: nat)
    ensures cents == 10 * (10 * (cents / 100) + cents / 10 % 10) + cents % 10
  {
    assert cents / 100 == cents / 10 / 10;
  }

  lemma ValueWithTwoMore(whole: string, cents: nat)
    requires Digits(whole) && Value(whole) == cents / 100
    ensures var two := [DigitOf(cents / 10 % 10), DigitOf(cents % 10)];
            Digits(whole + two) && Value(whole + two) == cents
  {
    var (a, b) := (DigitOf(cents / 10 % 10), DigitOf(cents % 10));
    ValueSnoc(whole, a);
    ValueSnoc(whole + [a], b);
    assert whole + [a, b] == whole + [a] + [b];
    LastTwoDigits(cents);
  }

  lemma ParsePrice(cents: nat)
    ensures ParseDecimal(PriceText(cents)) == Some(Decimal(false, cents, 2))
  {
    var whole := IntText(cents / 100);
    ValueOfIntText(cents / 100);
    ValueWithTwoMore(whole, cents);
    ParsePlain(whole, [DigitOf(cents / 10 % 10), DigitOf(cents % 10)]);
  }

  lemma PriceIsPlain(cents: nat)
    ensures Stripped(PriceText(cents)) && WithoutCommas(PriceText(cents)) == PriceText(cents)
  {
    var whole := IntText(cents / 100);
    var s := PriceText(cents);
    assert s[0] == whole[0] && IsDigit(s[|s| - 1]);
    forall i | 0 <= i < |s| ensures s[i] != ',' {
      if i < |whole| { assert s[i] == whole[i]; }
    }
    NoCommas(s);
  }

  lemma HalfUpReaches(numerator: nat, denominator: nat, bound: nat)
    requires denominator > 0
    ensures HalfUp(numerator, denominator) >= bound <==> 2 * numerator >= (2 * bound - 1) * denominator
  {
    var q := HalfUp(numerator, denominator);
    assert 2 * denominator * q <= 2 * numerator + denominator < 2 * denominator * (q + 1);
    if q >= bound {
      assert 2 * denominator * bound <= 2 * denominator * q;
    } else {
      assert 2 * denominator * (q + 1) <= 2 * denominator * bound;
    }
    assert (2 * bound - 1) * denominator == 2 * denominator * bound - denominator;
  }

  /** Reading a number raises exactly in the field for amounts, from half a cent less than ten to the power of
      twenty-eight cents on. */
  lemma RaisesExactly(d: Decimal, isCents: bool)
    ensures CentsOf(d, isCents) == Err(Unquantizable) <==>
            !isCents && !d.negative && d.coefficient > 0 && 200 * d.coefficient >= (2 * TOO_WIDE - 1) * Pow10(d.scale)
  {
    HalfUpReaches(d.coefficient * 100, Pow10(d.scale), TOO_WIDE);
  }

  /** A number of hundredths is rounded to itself. */
  lemma CentsOfHundredths(cents: nat)
    ensures CentsOf(Decimal(false, cents, 2), false) ==
            if cents == 0 then Err(NotPositive)
            else if cents >= TOO_WIDE then Err(Unquantizable)
            else if cents > MAX_CENTS then Err(TooLarge)
            else Ok(cents)
  {
    assert Pow10(2) == 100;
    assert HalfUp(cents * 100, 100) == cents;
  }

  /** Every amount a record may hold survives printing and reading; any other number of cents is refused, or raises when
      it is too long for the decimal context. */
  lemma PriceRoundTrip(cents: nat)
    ensures ImportAmount(Some(PriceText(cents)), false) ==
            if cents == 0 then Err(NotPositive)
            else if cents >= TOO_WIDE then Err(Unquantizable)
            else if cents > MAX_CENTS then Err(TooLarge)
            else Ok(cents)
  {
    PriceIsPlain(cents);
    ParsePrice(cents);
    CentsOfHundredths(cents);
  }

  lemma ExactQuotient(a: nat, b: nat)
    requires b > 0 && a > 0 && a % b == 0
    ensures a / b * b == a && a / b > 0
  {
    assert a == a / b * b + a % b;
  }

  lemma CentsAreExact(d: Decimal, isCents: bool)
    requires CentsOf(d, isCents).Ok?
    ensures var cents := CentsOf(d, isCents).value;
            1 <= cents <= MAX_CENTS && !d.negative
            && cents * Pow10(d.scale) == d.coefficient * (if isCents then 1 else 100)
  {
    ExactQuotient(if isCents then d.coefficient else d.coefficient * 100, Pow10(d.scale));
  }

  /** Whatever the file says, an accepted amount is a positive number of cents within the limit, and it is exactly the
      number that was written. */
  lemma AcceptedAmountIsExact(text: string, isCents: bool)
    ensures var r := ImportAmount(Some(text), isCents);
            r.Ok? ==>
              && 1 <= r.value <= MAX_CENTS
              && exists d :: ParseDecimal(WithoutCommas(Strip(text))) == Some(d) && !d.negative
                             && r.value * Pow10(d.scale) == d.coefficient * (if isCents then 1 else 100)
  {
    if ImportAmount(Some(text), isCents).Ok? {
      CentsAreExact(ParseDecimal(WithoutCommas(Strip(text))).value, isCents);
    }
  }

  /** This many cents are what the cell says: a positive number within the limit, written to the cent or shorter. */
  predicate Means(text: string, isCents: bool, cents: int) {
    var d := ParseDecimal(WithoutCommas(Strip(text)));
    && d.Some? && !d.value.negative && 1 <= cents <= 100_000_000
    && cents * Pow10(d.value.scale) == d.value.coefficient * (if isCents then 1 else 100)
  }

  lemma Multiples(x: nat, y: nat, b: nat)
    ensures x <= y ==> x * b <= y * b
  {
  }

  lemma WholeCents(d: Decimal, isCents: bool, cents: nat)
    requires !d.negative && 1 <= cents <= 100_000_000
    requires cents * Pow10(d.scale) == d.coefficient * (if isCents then 1 else 100)
    ensures CentsOf(d, isCents) == Ok(cents)
  {
    var (scaled, ten) := (d.coefficient * (if isCents then 1 else 100), Pow10(d.scale));
    Quotient(scaled, cents, ten);
    if !isCents {
      HalfUpReaches(scaled, ten, TOO_WIDE);
      Multiples(2 * cents + 1, 2 * TOO_WIDE - 1, ten);
      assert 2 * scaled == 2 * cents * ten;
    }
  }

  lemma Quotient(a: nat, q: nat, b: nat)
    requires b > 0 && a == q * b
    ensures a % b == 0 && a / b == q && (q > 0 ==> a > 0)
  {
    var p := a / b;
    assert a == p * b + a % b;
    Multiples(p + 1, q, b);
    Multiples(q + 1, p, b);
    Multiples(1, q, b);
  }

  /** An amount is accepted, as this many cents, exactly when the cell says so. */
  lemma AmountExactly(text: string, isCents: bool, cents: int)
    ensures ImportAmount(Some(text), isCents) == Ok(cents) <==> Means(text, isCents, cents)
  {
    var d := ParseDecimal(WithoutCommas(Strip(text)));
    if Means(text, isCents, cents) {
      WholeCents(d.value, isCents, cents);
    }
    if ImportAmount(Some(text), isCents) == Ok(cents) {
      CentsAreExact(d.value, isCents);
    }
  }

  /** The cell holds a positive number of half a cent less than ten to the power of twenty-eight cents, or more. */
  predicate TooLong(text: string) {
    var d := ParseDecimal(WithoutCommas(Strip(text)));
    && d.Some? && !d.value.negative && d.value.coefficient > 0
    && 200 * d.value.coefficient >= 19_999_999_999_999_999_999_999_999_999 * Pow10(d.value.scale)
  }

  lemma NothingIsNoNumber()
    ensures ParseDecimal("") == None
  {
  }

  lemma WideTimes(p: nat)
    ensures (2 * TOO_WIDE - 1) * p == 19_999_999_999_999_999_999_999_999_999 * p
  {
  }

  lemma NumberOrNot(text: string, isCents: bool)
    ensures var d := ParseDecimal(WithoutCommas(Strip(text)));
            if d.None? then ImportAmount(Some(text), isCents) != Err(Unquantizable)
            else ImportAmount(Some(text), isCents) == CentsOf(d.value, isCents)
  {
    NothingIsNoNumber();
  }

  lemma TextRaisesExactly(text: string, isCents: bool)
    ensures ImportAmount(Some(text), isCents) == Err(Unquantizable) <==> !isCents && TooLong(text)
  {
    NumberOrNot(text, isCents);
    var d := ParseDecimal(WithoutCommas(Strip(text)));
    if d.Some? {
      RaisesExactly(d.value, isCents);
      WideTimes(Pow10(d.value.scale));
    }
  }

  // ---------- what counts as a number ----------

  /** Digits, and after a point, if there is one, more digits. */
  predicate WrittenPlain(body: string, whole: string, fraction: string) {
    && Digits(whole) && Digits(fraction) && whole + fraction != ""
    && (body == whole + "." + fraction || (fraction == "" && body == whole))
  }

  /** The same behind a sign or none. */
  predicate Written(s: string, sign: string, whole: string, fraction: string) {
    && (sign == "" || sign == "+" || sign == "-") && |sign| <= |s| && s[..|sign|] == sign
    && WrittenPlain(s[|sign|..], whole, fraction)
  }

  lemma {:induction false} PointInDigits(a: string)
    requires Digits(a)
    ensures Point(a) == |a|
  {
    if a != "" { PointInDigits(a[1..]); }
  }

  lemma PlainParts(body: string, whole: string, fraction: string)
    requires WrittenPlain(body, whole, fraction)
    ensures body != "" && body[0] != '-' && body[0] != '+'
    ensures var p := Point(body); body[..p] == whole && (if p < |body| then body[p + 1..] else "") == fraction
  {
    if body == whole + "." + fraction {
      PointSplits(whole, fraction);
      if whole == "" { assert body == "." + fraction; } else { assert body[0] == whole[0] && IsDigit(whole[0]); }
    } else {
      PointInDigits(whole);
      assert whole != "" && IsDigit(whole[0]);
    }
  }

  lemma SignRead(s: string, sign: string)
    requires sign == "" || sign == "+" || sign == "-"
    requires |sign| <= |s| && s[..|sign|] == sign
    requires s[|sign|..] != "" && s[|sign|..][0] != '-' && s[|sign|..][0] != '+'
    ensures var signed := s != "" && (s[0] == '-' || s[0] == '+');
            && (if signed then s[1..] else s) == s[|sign|..] && (signed && s[0] == '-' <==> sign == "-")
  {
    if sign != "" { assert s[0] == s[..|sign|][0]; }
  }

  /** Every such text is read as the number it writes. */
  lemma WrittenIsRead(s: string, sign: string, whole: string, fraction: string)
    requires Written(s, sign, whole, fraction)
    ensures ParseDecimal(s) == Some(Decimal(sign == "-", Value(whole + fraction), |fraction|))
  {
    PlainParts(s[|sign|..], whole, fraction);
    SignRead(s, sign);
  }

  lemma PlainAgain(body: string, p: nat) returns (whole: string, fraction: string)
    requires p <= |body| && (p < |body| ==> body[p] == '.')
    requires Digits(body[..p]) && Digits(if p < |body| then body[p + 1..] else "")
    requires body[..p] + (if p < |body| then body[p + 1..] else "") != ""
    ensures WrittenPlain(body, whole, fraction)
  {
    whole, fraction := body[..p], if p < |body| then body[p + 1..] else "";
    if p < |body| { assert body == body[..p] + [body[p]] + body[p + 1..]; } else { assert body == whole; }
  }

  /** And no other text is read as a number. */
  lemma ReadWasWritten(s: string) returns (sign: string, whole: string, fraction: string)
    requires ParseDecimal(s).Some?
    ensures Written(s, sign, whole, fraction)
  {
    var signed := s != "" && (s[0] == '-' || s[0] == '+');
    sign := if signed then [s[0]] else "";
    whole, fraction := PlainAgain(s[|sign|..], Point(s[|sign|..]));
  }

  /** Commas are passed over, wherever they stand. */
  lemma {:induction false} CommaPassedOver(a: string, b: string)
    ensures WithoutCommas(a + "," + b) == WithoutCommas(a + b)
  {
    if a == "" {
      assert a + "," + b == "," + b && ("," + b)[1..] == b && a + b == b;
    } else {
      assert (a + "," + b)[1..] == a[1..] + "," + b && (a + b)[1..] == a[1..] + b;
      CommaPassedOver(a[1..], b);
    }
  }
}
