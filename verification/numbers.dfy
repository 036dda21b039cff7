/** Decimal text and numbers: JavaScript's `Number(text)` for decimal
    notation, `toFixed(2)`, and the twelve-integer-digit ceiling
    (`countIntegerDigits`) the import routes share. Numbers are exact reals;
    binary floating-point rounding is not modelled. */
module Numbers {
  import opened Base
  import opened Text

  /** The ceiling on integer digits that every import route applies. */
  const MaxIntegerDigits: nat := 12

  predicate IsDigit(c: char) {
    '0' <= c <= '9'
  }

  predicate AllDigits(s: string) {
    forall k | 0 <= k < |s| :: IsDigit(s[k])
  }

  function Pow10(n: nat): (p: nat)
    ensures p >= 1
  {
    if n == 0 then 1 else 10 * Pow10(n - 1)
  }

  function DigitValue(c: char): nat
    requires IsDigit(c)
  {
    c as int - '0' as int
  }

  /** The natural number a string of decimal digits denotes. */
  function DigitsValue(s: string): nat
    requires AllDigits(s)
  {
    if |s| == 0 then 0 else DigitValue(s[0]) * Pow10(|s| - 1) + DigitsValue(s[1..])
  }

  /** `n` written in decimal without leading zeros (`String(n)` for a natural `n`). */
  function DecimalText(n: nat): (r: string)
    ensures |r| >= 1 && AllDigits(r)
    ensures |r| == 1 || r[0] != '0'
    decreases n
  {
    if n < 10 then ['0' + n as char] else DecimalText(n / 10) + ['0' + (n % 10) as char]
  }

  /** The characters the cleaning below keeps. */
  predicate NumericChar(c: char, minus: bool) {
    IsDigit(c) || c == '.' || (minus && c == '-')
  }

  /** `s.replace(/[^0-9.-]/g, "")` when `minus` holds, and
      `s.replace(/[^0-9.]/g, "")` when it does not: the digits and points of
      `s` (and its minus signs), in their order. */
  function NumericChars(s: string, minus: bool): (r: string)
    ensures |r| <= |s|
    ensures forall k | 0 <= k < |r| :: NumericChar(r[k], minus)
    ensures forall k | 0 <= k < |s| :: NumericChar(s[k], minus) ==> s[k] in r
  {
    if |s| == 0 then ""
    else
      var rest := NumericChars(s[1..], minus);
      assert forall k | 1 <= k < |s| :: s[k] == s[1..][k - 1];
      if NumericChar(s[0], minus) then [s[0]] + rest else rest
  }

  /** The cleaning works character by character: cleaning two pieces and
      joining them is cleaning the joined text. */
  lemma {:induction false} NumericCharsConcat(a: string, b: string, minus: bool)
    ensures NumericChars(a + b, minus) == NumericChars(a, minus) + NumericChars(b, minus)
    decreases |a|
  {
    if |a| > 0 {
      assert (a + b)[1..] == a[1..] + b;
      NumericCharsConcat(a[1..], b, minus);
    } else {
      assert a + b == b;
    }
  }

  /** Text made only of kept characters comes through unchanged. */
  lemma {:induction false} NumericCharsKeepsNumericText(s: string, minus: bool)
    requires forall k | 0 <= k < |s| :: NumericChar(s[k], minus)
    ensures NumericChars(s, minus) == s
    decreases |s|
  {
    if |s| > 0 {
      assert forall k | 0 <= k < |s| - 1 :: s[1..][k] == s[k + 1];
      NumericCharsKeepsNumericText(s[1..], minus);
      assert s == [s[0]] + s[1..];
    }
  }

  /** Text with no kept character is cleaned away entirely. */
  lemma {:induction false} NumericCharsDropsOtherText(s: string, minus: bool)
    requires forall k | 0 <= k < |s| :: !NumericChar(s[k], minus)
    ensures NumericChars(s, minus) == ""
    decreases |s|
  {
    if |s| > 0 {
      assert forall k | 0 <= k < |s| - 1 :: s[1..][k] == s[k + 1];
      NumericCharsDropsOtherText(s[1..], minus);
    }
  }

  /** Cleaning twice is cleaning once. */
  lemma NumericCharsIdempotent(s: string, minus: bool)
    ensures NumericChars(NumericChars(s, minus), minus) == NumericChars(s, minus)
  {
    NumericCharsKeepsNumericText(NumericChars(s, minus), minus);
  }

  // ---------------------------------------------------------------------------
  // JavaScript's Number(text), decimal notation.

  /** `Number(s)` for optional surrounding white space, an optional sign,
      digits with at most one decimal point, and an optional exponent.
      `None` stands for a result that is not a finite number: `NaN`, and
      also the `Infinity` spellings and the `0x`/`0o`/`0b` forms, which this
      model does not read. */
  function NumberOf(s: string): Option<real> {
    var t := Trim(s);
    if t == "" then Some(0.0) else SignedDecimal(t)
  }

  function SignedDecimal(t: string): Option<real> {
    if |t| > 0 && (t[0] == '-' || t[0] == '+') then
      match UnsignedDecimal(t[1..])
      case None => None
      case Some(v) => Some(if t[0] == '-' then -v else v)
    else
      UnsignedDecimal(t)
  }

  function UnsignedDecimal(t: string): Option<real> {
    var e := IndexOf(ToLower(t), 'e');
    if e == |t| then
      Mantissa(t)
    else
      match (Mantissa(t[..e]), Exponent(t[e + 1..]))
      case (Some(m), Some(x)) => Some(Scale(m, x))
      case _ => None
  }

  /** Digits with at most one decimal point and at least one digit. */
  function Mantissa(m: string): Option<real> {
    var parts := SplitOn(m, '.');
    if |parts| == 1 && |m| > 0 && AllDigits(m) then
      Some(DigitsValue(m) as real)
    else if |parts| == 2 && AllDigits(parts[0]) && AllDigits(parts[1]) && |parts[0]| + |parts[1]| > 0 then
      Some(DigitsValue(parts[0]) as real + DigitsValue(parts[1]) as real / Pow10(|parts[1]|) as real)
    else
      None
  }

  lemma NoCharInDigits(s: string, c: char)
    requires AllDigits(s) && !IsDigit(c)
    ensures c !in s
  {
    forall k | 0 <= k < |s| ensures s[k] != c {
      assert IsDigit(s[k]);
    }
  }

  /** `Number` reads a non-empty run of digits as the number it denotes. */
  lemma DigitsNumberOf(t: string)
    requires |t| > 0 && AllDigits(t)
    ensures NumberOf(t) == Some(DigitsValue(t) as real)
  {
    assert IsDigit(t[0]) && IsDigit(t[|t| - 1]);
    UnsignedNumberOf(t);
    DigitsUnsigned(t);
  }

  /** Text with no white space at its ends and no sign is read unsigned. */
  lemma UnsignedNumberOf(t: string)
    requires |t| > 0 && !IsSpace(t[0]) && !IsSpace(t[|t| - 1]) && t[0] != '-' && t[0] != '+'
    ensures NumberOf(t) == UnsignedDecimal(t)
  {
    TrimOfTrimmed(t);
    assert NumberOf(t) == SignedDecimal(t);
  }

  lemma DigitsUnsigned(t: string)
    requires |t| > 0 && AllDigits(t)
    ensures UnsignedDecimal(t) == Some(DigitsValue(t) as real)
  {
    NoCharInDigits(ToLower(t), 'e') by {
      forall k | 0 <= k < |t| ensures IsDigit(ToLower(t)[k]) {
        assert IsDigit(t[k]);
      }
    }
    SplitOnAbsent(ToLower(t), 'e');
    DigitsMantissa(t);
  }

  lemma DigitsMantissa(t: string)
    requires |t| > 0 && AllDigits(t)
    ensures Mantissa(t) == Some(DigitsValue(t) as real)
  {
    NoCharInDigits(t, '.');
    SplitOnAbsent(t, '.');
  }

  /** An optionally signed, non-empty run of digits. */
  function Exponent(x: string): Option<int> {
    if |x| > 0 && (x[0] == '-' || x[0] == '+') then
      if |x| > 1 && AllDigits(x[1..]) then
        var v: int := DigitsValue(x[1..]);
        Some(if x[0] == '-' then -v else v)
      else
        None
    else if |x| > 0 && AllDigits(x) then
      Some(DigitsValue(x))
    else
      None
  }

  function Scale(m: real, x: int): real {
    if x >= 0 then m * Pow10(x) as real else m / Pow10(-x) as real
  }

  /** Trunc toward zero, as `ToIntegerOrInfinity` does. */
  function Trunc(x: real): int {
    if x >= 0.0 then x.Floor else -((-x).Floor)
  }

  /** Truncating a whole number gives it back. */
  lemma TruncWhole(n: int)
    ensures Trunc(n as real) == n
  {
    if n < 0 {
      assert (-(n as real)) == (-n) as real;
    }
  }

  // ---------------------------------------------------------------------------
  // countIntegerDigits

  /** `s.replace(/^0+(?=\d)/, "")`: leading zeros go, as long as a digit
      follows them. */
  function StripLeadingZeros(s: string): (r: string)
    ensures |r| <= |s|
    decreases |s|
  {
    if |s| >= 2 && s[0] == '0' && IsDigit(s[1]) then StripLeadingZeros(s[1..]) else s
  }

  /** `countIntegerDigits(s)`: the length of the text before the first `.`,
      leading zeros not counted, and never less than one. */
  function CountIntegerDigits(s: string): (n: nat)
    ensures n >= 1
  {
    var intPart := SplitOn(s, '.')[0];
    var trimmed := StripLeadingZeros(intPart);
    if |trimmed| == 0 then 1 else |trimmed|
  }

  /** The digits before the first decimal point. */
  function IntegerPart(s: string): string {
    SplitOn(s, '.')[0]
  }

  lemma {:induction false} DigitsValueBelow(s: string)
    requires AllDigits(s)
    ensures DigitsValue(s) < Pow10(|s|)
    decreases |s|
  {
    if |s| > 0 {
      DigitsValueBelow(s[1..]);
      var p := Pow10(|s| - 1);
      var d := DigitValue(s[0]);
      assert d <= 9;
      assert d * p <= 9 * p by { MulLeft(d, 9, p); }
      assert Pow10(|s|) == 10 * p;
    }
  }

  lemma MulLeft(a: nat, b: nat, c: nat)
    requires a <= b
    ensures a * c <= b * c
  {
  }

  lemma MulAssoc(d: nat, p: nat)
    ensures d * (10 * p) == (d * p) * 10
  {
  }

  lemma DigitsValueAtLeast(s: string)
    requires AllDigits(s) && |s| > 0 && s[0] != '0'
    ensures DigitsValue(s) >= Pow10(|s| - 1)
  {
    var p := Pow10(|s| - 1);
    var d := DigitValue(s[0]);
    assert d >= 1;
    assert DigitsValue(s) == d * p + DigitsValue(s[1..]);
    assert 1 * p <= d * p by { MulLeft(1, d, p); }
  }

  lemma {:induction false} StripLeadingZerosKeepsValue(s: string)
    requires AllDigits(s)
    ensures AllDigits(StripLeadingZeros(s))
    ensures DigitsValue(StripLeadingZeros(s)) == DigitsValue(s)
    ensures |StripLeadingZeros(s)| <= 1 || StripLeadingZeros(s)[0] != '0'
    decreases |s|
  {
    if |s| >= 2 && s[0] == '0' {
      StripLeadingZerosKeepsValue(s[1..]);
    }
  }

  lemma Pow10Monotone(a: nat, b: nat)
    requires a <= b
    ensures Pow10(a) <= Pow10(b)
    decreases b
  {
    if a < b {
      Pow10Monotone(a, b - 1);
    }
  }

  /** For digit text, the ceiling is a statement about magnitude: more than
      twelve integer digits exactly when the integer part is at least 10^12,
      however many leading zeros it carries. */
  lemma {:induction false} CountIntegerDigitsMeansMagnitude(d: string)
    requires AllDigits(d)
    ensures CountIntegerDigits(d) > MaxIntegerDigits <==> DigitsValue(d) >= Pow10(MaxIntegerDigits)
  {
    JoinSplitOn(d, '.');
    assert '.' !in d by {
      forall k | 0 <= k < |d| ensures d[k] != '.' { assert IsDigit(d[k]); }
    }
    assert IndexOf(d, '.') == |d|;
    assert SplitOn(d, '.') == [d];
    var t := StripLeadingZeros(d);
    StripLeadingZerosKeepsValue(d);
    if |t| > MaxIntegerDigits {
      DigitsValueAtLeast(t);
      Pow10Monotone(MaxIntegerDigits, |t| - 1);
    } else {
      DigitsValueBelow(t);
      Pow10Monotone(|t|, MaxIntegerDigits);
    }
  }

  // ---------------------------------------------------------------------------
  // toFixed(2) and the integer part of String(x)

  /** `y` is a whole number. */
  predicate IsWhole(y: real) {
    y.Floor as real == y
  }

  /** Whole cents nearest to a non-negative `x`, a half cent rounding up. */
  function Cents(x: real): (k: int)
    requires x >= 0.0
    ensures k as real - 0.5 <= x * 100.0 < k as real + 0.5
  {
    (x * 100.0 + 0.5).Floor
  }

  /** `Number(x.toFixed(2))`: `x` rounded to whole cents, halves away from
      zero; from 10^21 up `toFixed` returns `x` unchanged. */
  function RoundCents(x: real): (r: real)
    ensures -1e21 < x < 1e21 ==> -0.005 <= r - x <= 0.005
    ensures -1e21 < x < 1e21 ==> IsWhole(r * 100.0)
    ensures x >= 0.0 ==> r >= 0.0
  {
    if x >= 1e21 || x <= -1e21 then x
    else if x >= 0.0 then
      var k := Cents(x);
      assert (k as real / 100.0) * 100.0 == k as real;
      assert IsWhole(k as real);
      k as real / 100.0
    else
      var k := Cents(-x);
      assert (-(k as real) / 100.0) * 100.0 == (-k) as real;
      assert IsWhole((-k) as real);
      -(k as real) / 100.0
  }

  /** The text before the decimal point of `String(x)` for a number written
      in plain decimal notation (JavaScript does so for 10^-6 <= |x| < 10^21):
      a minus sign for negatives, then the integer digits of |x|. */
  function IntegerText(x: real): string {
    (if x < 0.0 then "-" else "") + DecimalText(if x < 0.0 then (-x).Floor else x.Floor)
  }

  /** `countIntegerDigits(x) > 12` for a number `x`, as the routes evaluate
      it. From 10^21 up `String(x)` switches to exponent notation such as
      `1e+22` or `1.5e+22`, whose text before the first `.` is at most seven
      characters long, so the check never fires there; below 10^-6 the
      exponent form is just as short. */
  predicate NumberTooLongAsWritten(x: real) {
    -1e21 < x < 1e21 && CountIntegerDigits(IntegerText(x)) > MaxIntegerDigits
  }

  /** The ceiling the routes evidently intend: the integer part of `x`,
      written out in full, has more than twelve characters. */
  predicate NumberTooLong(x: real) {
    CountIntegerDigits(IntegerText(x)) > MaxIntegerDigits
  }

  lemma DecimalTextValue(n: nat)
    ensures DigitsValue(DecimalText(n)) == n
    decreases n
  {
    if n >= 10 {
      DecimalTextValue(n / 10);
      DigitsValueAppend(DecimalText(n / 10), '0' + (n % 10) as char);
    }
  }

  lemma {:induction false} DigitsValueAppend(s: string, c: char)
    requires AllDigits(s) && IsDigit(c)
    ensures AllDigits(s + [c])
    ensures DigitsValue(s + [c]) == DigitsValue(s) * 10 + DigitValue(c)
    decreases |s|
  {
    assert AllDigits(s + [c]) by {
      forall k | 0 <= k < |s + [c]| ensures IsDigit((s + [c])[k]) {
        if k < |s| { assert (s + [c])[k] == s[k]; }
      }
    }
    if |s| > 0 {
      DigitsValueAppend(s[1..], c);
      assert (s + [c])[1..] == s[1..] + [c];
      var d := DigitValue(s[0]);
      var p := Pow10(|s| - 1);
      assert Pow10(|s + [c]| - 1) == 10 * p;
      assert DigitsValue(s + [c]) == d * (10 * p) + DigitsValue(s[1..] + [c]);
      assert d * (10 * p) == (d * p) * 10 by { MulAssoc(d, p); }
    }
  }

  /** For amounts that are not negative the corrected ceiling is a plain
      bound: too long exactly when the amount is at least 10^12. */
  lemma NumberTooLongMeansMagnitude(x: real)
    requires x >= 0.0
    ensures NumberTooLong(x) <==> x >= Pow10(MaxIntegerDigits) as real
  {
    var d := DecimalText(x.Floor);
    assert IntegerText(x) == d;
    DecimalTextValue(x.Floor);
    CountIntegerDigitsMeansMagnitude(d);
  }

  /** For non-negative amounts the two ceilings part exactly at 10^21:
      below it both refuse from 10^12 on, above it only the intended one
      does. */
  lemma AsWrittenCeilingMeansMagnitude(x: real)
    requires x >= 0.0
    ensures NumberTooLongAsWritten(x) <==> Pow10(MaxIntegerDigits) as real <= x < 1e21
    ensures x < 1e21 ==> (NumberTooLongAsWritten(x) <==> NumberTooLong(x))
  {
    NumberTooLongMeansMagnitude(x);
  }

  /** The check as written lets a converted amount of 10^22 through, though
      its integer part has twenty-three digits. */
  lemma ExponentNotationEscapesCeiling()
    ensures !NumberTooLongAsWritten(1e22)
    ensures NumberTooLong(1e22)
  {
    NumberTooLongMeansMagnitude(1e22);
  }
  // ---------------------------------------------------------------------------
  // Cleaned amount text

  /** Digits and decimal points only, as the `[^0-9.]` cleaning leaves. */
  predicate IsCleaned(s: string) {
    forall k | 0 <= k < |s| :: IsDigit(s[k]) || s[k] == '.'
  }

  /** `Number` reads cleaned text as a plain mantissa: it has no white
      space, sign or exponent. */
  lemma CleanedNumberOf(s: string)
    requires IsCleaned(s) && s != ""
    ensures NumberOf(s) == Mantissa(s)
  {
    assert IsDigit(s[0]) || s[0] == '.';
    assert IsDigit(s[|s| - 1]) || s[|s| - 1] == '.';
    UnsignedNumberOf(s);
    CleanedUnsigned(s);
  }

  lemma CleanedUnsigned(s: string)
    requires IsCleaned(s)
    ensures UnsignedDecimal(s) == Mantissa(s)
  {
    assert 'e' !in ToLower(s) by {
      forall k | 0 <= k < |s| ensures ToLower(s)[k] != 'e' {
        assert IsDigit(s[k]) || s[k] == '.';
      }
    }
    SplitOnAbsent(ToLower(s), 'e');
  }

  /** On cleaned text that reads as a number, the number is not negative,
      and the twelve-digit ceiling says exactly that it is at least
      10^12: the fraction digits never push it over. */
  lemma CleanedCeilingMeansMagnitude(s: string)
    requires IsCleaned(s) && s != "" && NumberOf(s).Some?
    ensures NumberOf(s).value >= 0.0
    ensures CountIntegerDigits(s) > MaxIntegerDigits <==> NumberOf(s).value >= Pow10(MaxIntegerDigits) as real
  {
    CleanedNumberOf(s);
    MantissaMagnitude(s, Pow10(MaxIntegerDigits));
    IntegerPartDigits(s);
    CountIntegerDigitsMeansMagnitude(IntegerPart(s));
  }

  /** A mantissa is not negative and reaches a whole bound exactly when its
      integer digits do. */
  lemma {:induction false} MantissaMagnitude(s: string, bound: nat)
    requires Mantissa(s).Some?
    ensures AllDigits(IntegerPart(s))
    ensures Mantissa(s).value >= 0.0
    ensures Mantissa(s).value >= bound as real <==> DigitsValue(IntegerPart(s)) >= bound
  {
    var parts := SplitOn(s, '.');
    var a := DigitsValue(parts[0]);
    if |parts| == 2 && AllDigits(parts[0]) && AllDigits(parts[1]) && |parts[0]| + |parts[1]| > 0 {
      var p1 := parts[1];
      DigitsValueBelow(p1);
      var b := DigitsValue(p1) as real;
      var q := Pow10(|p1|) as real;
      FractionBelowOne(b, q);
      assert Mantissa(s).value == a as real + b / q;
    } else {
      assert |parts| == 1 && AllDigits(s);
      assert parts[0] == s by { SplitOnAbsentOne(s, '.'); }
    }
  }

  lemma FractionBelowOne(b: real, q: real)
    requires 0.0 <= b < q
    ensures 0.0 <= b / q < 1.0
  {
    assert b / q * q == b;
  }

  /** A single piece means the separator is absent. */
  lemma SplitOnAbsentOne(s: string, d: char)
    requires |SplitOn(s, d)| == 1
    ensures SplitOn(s, d) == [s]
  {
  }

  /** The integer digits of a mantissa count as the whole text does. */
  lemma IntegerPartDigits(s: string)
    requires AllDigits(IntegerPart(s))
    ensures CountIntegerDigits(IntegerPart(s)) == CountIntegerDigits(s)
  {
    NoCharInDigits(IntegerPart(s), '.');
    SplitOnAbsent(IntegerPart(s), '.');
  }
}
