/** `parse_rate_to_decimal` of `app/utils/rates.py`: a user-entered rate,
    given as a number or as text such as "2.7", "2.7%" or "0.027", becomes a
    decimal fraction such as 0.027.

    Python's `Decimal` becomes an exact `real`, and the text grammar is the
    plain signed decimal literal (no exponent, no NaN or Infinity, no digit
    separators). */
module Rates {
  import opened Wrappers
  import Text

  // ---------------------------------------------------------------------
  // Plain decimal literals
  // ---------------------------------------------------------------------

  /** The position of the first `c` in `s`, or `|s|` when there is none. */
  function IndexOf(s: string, c: char): (k: nat)
    ensures k <= |s|
    ensures forall i :: 0 <= i < k ==> s[i] != c
    ensures k < |s| ==> s[k] == c
  {
    if |s| == 0 then 0 else if s[0] == c then 0 else 1 + IndexOf(s[1..], c)
  }

  /** A leading `-` or `+` and the rest of the literal. */
  function SplitSign(s: string): (parts: (bool, string))
    ensures parts.1 == if |s| > 0 && (s[0] == '-' || s[0] == '+') then s[1..] else s
    ensures parts.0 <==> |s| > 0 && s[0] == '-'
  {
    if |s| > 0 && s[0] == '-' then (true, s[1..])
    else if |s| > 0 && s[0] == '+' then (false, s[1..])
    else (false, s)
  }

  /** The exact value of the digits `intPart` "." `fracPart`. */
  function Magnitude(intPart: string, fracPart: string): (m: real)
    requires Text.AllDigits(intPart) && Text.AllDigits(fracPart)
    ensures m >= 0.0
  {
    Text.DigitsValue(intPart) as real + Shifted(Text.DigitsValue(fracPart), |fracPart|)
  }

  /** `n` moved `k` places right of the point, one place at a time. */
  function Shifted(n: nat, k: nat): (r: real)
    ensures r >= 0.0
  {
    if k == 0 then n as real else Shifted(n, k - 1) / 10.0
  }

  /** Moving `k` places is dividing by ten to the `k`. */
  lemma {:induction false} ShiftedIsQuotient(n: nat, k: nat)
    ensures Shifted(n, k) == n as real / Text.Pow10(k) as real
  {
    if k > 0 {
      ShiftedIsQuotient(n, k - 1);
      assert Text.Pow10(k) == 10 * Text.Pow10(k - 1);
    }
  }

  /** The digits before the first point and those after it. */
  function SplitPoint(body: string): (parts: (string, string))
    ensures |parts.0| <= |body|
  {
    var dot := IndexOf(body, '.');
    if dot < |body| then
      (body[..dot], body[dot + 1..])
    else
      (body, "")
  }

  /** `Decimal(text)` on an unsigned literal: digits and an optional point
      with more digits, with at least one digit in all. */
  function ParseUnsigned(body: string): (r: Option<real>)
    ensures r.Some? ==> r.value >= 0.0
  {
    var (intPart, fracPart) := SplitPoint(body);
    if Text.AllDigits(intPart) && Text.AllDigits(fracPart) && |intPart| + |fracPart| >= 1 then
      Some(Magnitude(intPart, fracPart))
    else
      None
  }

  /** `Decimal(text)` for a plain literal: an optional sign before an
      unsigned literal; `None` is the `InvalidOperation` the source turns
      into an error. */
  function ParseDecimal(s: string): (r: Option<real>)
    ensures r.Some? <==> ParseUnsigned(SplitSign(s).1).Some?
    ensures r.Some? ==> |s| >= 1
    ensures r.Some? && r.value < 0.0 ==> s[0] == '-'
    ensures r.Some? && s[0] == '-' ==> r.value <= 0.0
  {
    var (negative, body) := SplitSign(s);
    match ParseUnsigned(body)
    case None => None
    case Some(m) => Some(if negative then -m else m)
  }

  /** An unsigned literal reads as itself. */
  lemma ParsePlain(body: string, v: real)
    requires |body| > 0 && Text.IsDigit(body[0])
    requires ParseUnsigned(body) == Some(v)
    ensures ParseDecimal(body) == Some(v)
  {
    assert SplitSign(body) == (false, body);
  }

  /** A literal after `-` reads as its negation. */
  lemma ParseNegated(body: string, v: real)
    requires ParseUnsigned(body) == Some(v)
    ensures ParseDecimal("-" + body) == Some(-v)
  {
    assert ("-" + body)[1..] == body;
    assert SplitSign("-" + body) == (true, body);
  }

  /** Digits, a point and digits read as their exact value. */
  lemma UnsignedLiteral(intPart: string, fracPart: string)
    requires Text.AllDigits(intPart) && Text.AllDigits(fracPart) && |intPart| >= 1
    ensures ParseUnsigned(intPart + "." + fracPart) == Some(Magnitude(intPart, fracPart))
  {
    var body := intPart + "." + fracPart;
    assert body == intPart + ("." + fracPart);
    IndexOfDigitsThenDot(intPart, "." + fracPart);
    assert body[..|intPart|] == intPart;
    assert body[|intPart| + 1..] == fracPart;
    assert SplitPoint(body) == (intPart, fracPart);
  }

  /** Digits with no point read as their integer value. */
  lemma UnsignedDigits(digits: string)
    requires Text.AllDigits(digits) && |digits| >= 1
    ensures ParseUnsigned(digits) == Some(Text.DigitsValue(digits) as real)
  {
    IndexOfDigitsThenDot(digits, "");
    assert digits + "" == digits;
    assert SplitPoint(digits) == (digits, "");
    assert Magnitude(digits, "") == Text.DigitsValue(digits) as real by {
      assert Text.DigitsValue("") == 0 && Text.Pow10(0) == 1;
    }
  }

  /** Writing a decimal as digits, point and digits, with or without a
      leading `-`, and reading it back gives its value. */
  lemma LiteralRoundTrip(intPart: string, fracPart: string)
    requires Text.AllDigits(intPart) && Text.AllDigits(fracPart) && |intPart| >= 1
    ensures ParseDecimal(intPart + "." + fracPart) == Some(Magnitude(intPart, fracPart))
    ensures ParseDecimal("-" + (intPart + "." + fracPart)) == Some(-Magnitude(intPart, fracPart))
  {
    PlainLiteral(intPart, fracPart);
    NegatedLiteral(intPart, fracPart);
  }

  lemma PlainLiteral(intPart: string, fracPart: string)
    requires Text.AllDigits(intPart) && Text.AllDigits(fracPart) && |intPart| >= 1
    ensures ParseDecimal(intPart + "." + fracPart) == Some(Magnitude(intPart, fracPart))
  {
    UnsignedLiteral(intPart, fracPart);
    assert (intPart + "." + fracPart)[0] == intPart[0];
    ParsePlain(intPart + "." + fracPart, Magnitude(intPart, fracPart));
  }

  lemma NegatedLiteral(intPart: string, fracPart: string)
    requires Text.AllDigits(intPart) && Text.AllDigits(fracPart) && |intPart| >= 1
    ensures ParseDecimal("-" + (intPart + "." + fracPart)) == Some(-Magnitude(intPart, fracPart))
  {
    UnsignedLiteral(intPart, fracPart);
    ParseNegated(intPart + "." + fracPart, Magnitude(intPart, fracPart));
  }

  /** Reading back `str(n)` for a Python int gives `n`. */
  lemma ParseDecimalOfInt(n: int)
    ensures ParseDecimal(Text.IntToString(n)) == Some(n as real)
  {
    var digits := Text.NatToString(if n < 0 then -n else n);
    Text.DigitsValueOfNatToString(if n < 0 then -n else n);
    UnsignedDigits(digits);
    if n < 0 {
      ParseNegated(digits, (-n) as real);
    } else {
      ParsePlain(digits, n as real);
    }
  }

  /** The first point in digits followed by `rest` is the first point of `rest`. */
  lemma {:induction false} IndexOfDigitsThenDot(digits: string, rest: string)
    requires Text.AllDigits(digits)
    requires |rest| == 0 || rest[0] == '.'
    ensures IndexOf(digits + rest, '.') == |digits|
    decreases |digits|
  {
    if |digits| > 0 {
      assert (digits + rest)[1..] == digits[1..] + rest;
      IndexOfDigitsThenDot(digits[1..], rest);
    }
  }

  // ---------------------------------------------------------------------
  // parse_rate_to_decimal
  // ---------------------------------------------------------------------

  /** What the caller passes: a `Decimal`, `int` or `float`, or text. */
  datatype RateInput = NumberInput(value: real) | TextInput(text: string)

  /** The three `ValueError`s the parser raises. */
  datatype RateError = Required | Invalid | Negative {
    function Message(): string {
      match this
      case Required => "Rate is required"
      case Invalid => "Rate must be a valid number"
      case Negative => "Rate cannot be negative"
    }
  }

  /** The tail of the parser shared by numbers and text without `%`: a
      negative rate is refused, a rate up to 1 is already a fraction, and a
      larger one is a percentage. */
  function Normalize(raw: real): (r: Result<real, RateError>)
    ensures r == Failure(Negative) <==> raw < 0.0
    ensures r.Failure? ==> r.error == Negative
    ensures 0.0 <= raw <= 1.0 ==> r == Success(raw)
    ensures raw > 1.0 ==> r == Success(raw / 100.0)
    ensures r.Success? ==> 0.0 <= r.value && (r.value <= 1.0 <==> raw <= 100.0)
  {
    if raw < 0.0 then Failure(Negative)
    else if raw <= 1.0 then Success(raw)
    else Success(raw / 100.0)
  }

  /** The literal left once the text is stripped and a trailing `%`, with the
      white space before it, is removed. */
  function Unsuffixed(t: string): string {
    if HasPercent(t) then Text.Strip(t[..|t| - 1]) else t
  }

  /** `t.endswith("%")`. */
  predicate HasPercent(t: string) {
    |t| > 0 && t[|t| - 1] == '%'
  }

  /** `parse_rate_to_decimal(rate_str_or_number)` as written: the `%` path
      returns the literal over 100 without the negativity check. */
  function ParseRate(input: RateInput): (r: Result<real, RateError>)
    ensures input.NumberInput? ==> r == Normalize(input.value)
    ensures r == Failure(Required) <==> input.TextInput? && Text.Strip(input.text) == ""
  {
    match input
    case NumberInput(v) => Normalize(v)
    case TextInput(s) => ParseStripped(Text.Strip(s))
  }

  /** The text path once white space is stripped from both ends. */
  function ParseStripped(t: string): (r: Result<real, RateError>)
    ensures r == Failure(Required) <==> t == ""
  {
    if |t| == 0 then Failure(Required)
    else
      match ParseDecimal(Unsuffixed(t))
      case None => Failure(Invalid)
      case Some(v) => if HasPercent(t) then Success(v / 100.0) else Normalize(v)
  }

  /** Text is refused as invalid exactly when, once stripped of white space
      and of a trailing `%`, it is not a decimal literal. */
  lemma InvalidIffNotALiteral(s: string)
    ensures ParseRate(TextInput(s)) == Failure(Invalid)
        <==> Text.Strip(s) != "" && ParseDecimal(Unsuffixed(Text.Strip(s))).None?
  {
  }

  /** A trailing `%` always divides by 100, whatever the magnitude and sign. */
  lemma PercentAlwaysDivides(s: string, v: real)
    requires HasPercent(Text.Strip(s)) && ParseDecimal(Unsuffixed(Text.Strip(s))) == Some(v)
    ensures ParseRate(TextInput(s)) == Success(v / 100.0)
  {
    PercentStripped(Text.Strip(s), v);
  }

  lemma PercentStripped(t: string, v: real)
    requires HasPercent(t) && ParseDecimal(Unsuffixed(t)) == Some(v)
    ensures ParseStripped(t) == Success(v / 100.0)
  {
  }

  /** Without `%`, text behaves as the number it spells. */
  lemma PlainTextIsNumber(s: string, v: real)
    requires !HasPercent(Text.Strip(s)) && ParseDecimal(Text.Strip(s)) == Some(v)
    ensures ParseRate(TextInput(s)) == ParseRate(NumberInput(v))
  {
    assert Unsuffixed(Text.Strip(s)) == Text.Strip(s);
  }

  /** An unpadded literal followed by `%` reads as its value over 100. */
  lemma PercentOf(body: string, v: real)
    requires |body| > 0 && !Text.IsSpace(body[0]) && !Text.IsSpace(body[|body| - 1])
    requires ParseDecimal(body) == Some(v)
    ensures ParseRate(TextInput(body + "%")) == Success(v / 100.0)
  {
    var s := body + "%";
    StripUnpadded(s);
    StripUnpadded(body);
    assert s[..|s| - 1] == body;
    assert Unsuffixed(s) == body;
    PercentAlwaysDivides(s, v);
  }

  /** An unpadded literal not ending in `%` reads as the number it spells. */
  lemma PlainOf(body: string, v: real)
    requires |body| > 0 && !Text.IsSpace(body[0]) && !Text.IsSpace(body[|body| - 1]) && body[|body| - 1] != '%'
    requires ParseDecimal(body) == Some(v)
    ensures ParseRate(TextInput(body)) == Normalize(v)
  {
    StripUnpadded(body);
    PlainTextIsNumber(body, v);
  }

  /** A fraction in [0, 1] is its own canonical form. */
  lemma FractionIsFixedPoint(v: real)
    requires 0.0 <= v <= 1.0
    ensures ParseRate(NumberInput(v)) == Success(v)
  {
  }

  /** Parsing is idempotent on what it returns in [0, 1], which is every
      result of a number or plain text between 0 and 100. */
  lemma ReparseIsStable(input: RateInput)
    requires ParseRate(input).Success?
    ensures 0.0 <= ParseRate(input).value <= 1.0 ==>
      ParseRate(NumberInput(ParseRate(input).value)) == ParseRate(input)
    ensures input.NumberInput? && input.value <= 100.0 ==> 0.0 <= ParseRate(input).value <= 1.0
  {
  }

  /** Text with no white space at either end is left as it is by `strip`. */
  lemma StripUnpadded(s: string)
    requires |s| > 0 && !Text.IsSpace(s[0]) && !Text.IsSpace(s[|s| - 1])
    ensures Text.Strip(s) == s
  {
  }

  /** "2.7" is the literal 2.7. */
  lemma TwoPointSeven()
    ensures ParseDecimal("2.7") == Some(2.7)
  {
    UnsignedLiteral("2", "7");
    assert "2" + "." + "7" == "2.7";
    assert Magnitude("2", "7") == 2.7 by {
      LiteralDigits();
      assert Shifted(7, 1) == 0.7;
    }
    ParsePlain("2.7", 2.7);
  }

  /** "0.027" is the literal 0.027. */
  lemma ZeroPointZeroTwoSeven()
    ensures ParseDecimal("0.027") == Some(0.027)
  {
    UnsignedLiteral("0", "027");
    assert "0" + "." + "027" == "0.027";
    assert Magnitude("0", "027") == 0.027 by {
      LiteralDigits();
      assert Shifted(27, 3) == 0.027;
    }
    ParsePlain("0.027", 0.027);
  }

  /** The digit strings of the examples and their values. */
  lemma LiteralDigits()
    ensures Text.DigitsValue("0") == 0 && Text.DigitsValue("2") == 2 && Text.DigitsValue("7") == 7
    ensures Text.DigitsValue("027") == 27
  {
    assert "0"[..0] == "" && "2"[..0] == "" && "7"[..0] == "";
    assert "027"[..2] == "02" && "02"[..1] == "0";
  }

  /** "3" is the literal 3. */
  lemma Three()
    ensures ParseDecimal("3") == Some(3.0)
  {
    UnsignedDigits("3");
    assert Text.DigitsValue("3") == 3;
    ParsePlain("3", 3.0);
  }

  /** The documented examples: "2.7", "2.7%", 0.027, "0.027" and "3". */
  lemma ExampleTwoPointSeven()
    ensures ParseRate(TextInput("2.7")) == Success(0.027)
  {
    TwoPointSeven();
    PlainOf("2.7", 2.7);
  }

  lemma ExampleTwoPointSevenPercent()
    ensures ParseRate(TextInput("2.7%")) == Success(0.027)
  {
    TwoPointSeven();
    PercentOf("2.7", 2.7);
    assert "2.7" + "%" == "2.7%";
  }

  lemma ExampleFraction()
    ensures ParseRate(NumberInput(0.027)) == Success(0.027)
    ensures ParseRate(TextInput("0.027")) == Success(0.027)
  {
    ZeroPointZeroTwoSeven();
    PlainOf("0.027", 0.027);
  }

  lemma ExampleThree()
    ensures ParseRate(TextInput("3")) == Success(0.03)
  {
    Three();
    PlainOf("3", 3.0);
  }

  // ---------------------------------------------------------------------
  // The negative percentage
  // ---------------------------------------------------------------------

  /** A negative percentage gets through: "-5%" parses to -0.05, although
      "-5" and -5 are refused as negative. */
  lemma NegativePercentAccepted()
    ensures ParseRate(TextInput("-5%")) == Success(-0.05)
    ensures ParseRate(TextInput("-5")) == Failure(Negative)
    ensures ParseRate(NumberInput(-5.0)) == Failure(Negative)
  {
    MinusFive();
    PercentOf("-5", -5.0);
    assert "-5" + "%" == "-5%";
    PlainOf("-5", -5.0);
  }

  /** "-5" is the literal -5. */
  lemma MinusFive()
    ensures ParseDecimal("-5") == Some(-5.0)
  {
    UnsignedDigits("5");
    assert Text.DigitsValue("5") == 5;
    ParseNegated("5", 5.0);
    assert "-" + "5" == "-5";
  }

  /** The parser with the negativity check applied on the `%` path too. */
  function ParseRateChecked(input: RateInput): (r: Result<real, RateError>)
    ensures r.Success? ==> r.value >= 0.0
    ensures r == Failure(Required) <==> input.TextInput? && Text.Strip(input.text) == ""
  {
    match ParseRate(input)
    case Success(v) => if v < 0.0 then Failure(Negative) else Success(v)
    case Failure(e) => Failure(e)
  }

  /** The check changes nothing but the answer for negative percentages. */
  lemma CheckedAgreesOnNonNegative(input: RateInput)
    ensures ParseRate(input).Success? && ParseRate(input).value >= 0.0 ==> ParseRateChecked(input) == ParseRate(input)
    ensures ParseRate(input).Failure? ==> ParseRateChecked(input) == ParseRate(input)
    ensures ParseRateChecked(TextInput("-5%")) == Failure(Negative)
  {
    NegativePercentAccepted();
  }
}
