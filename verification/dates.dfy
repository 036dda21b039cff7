/** Calendar dates: the proleptic Gregorian calendar JavaScript's `Date`
    uses, the `YYYY-MM-DD` text `toISOString().slice(0, 10)` produces, and
    the import routes' `normalizeDate`. */
module Dates {
  import opened Base
  import opened Text
  import opened Numbers

  /** A day of the calendar, as the UTC date of a JavaScript `Date`. */
  datatype CalDate = CalDate(year: int, month: int, day: int)

  predicate IsLeapYear(y: int) {
    (y % 4 == 0 && y % 100 != 0) || y % 400 == 0
  }

  function DaysInMonth(y: int, m: int): int
    requires 1 <= m <= 12
  {
    if m == 2 then (if IsLeapYear(y) then 29 else 28)
    else if m == 4 || m == 6 || m == 9 || m == 11 then 30
    else 31
  }

  /** A real day: month 1-12, day within the month. */
  predicate ValidDate(d: CalDate) {
    1 <= d.month <= 12 && 1 <= d.day <= DaysInMonth(d.year, d.month)
  }

  /** `n` in decimal, padded with zeros on the left to `width` characters. */
  function PadNumber(n: nat, width: nat): (r: string)
    ensures AllDigits(r)
    ensures |r| == if |DecimalText(n)| >= width then |DecimalText(n)| else width
  {
    var t := DecimalText(n);
    if |t| >= width then t else seq(width - |t|, _ => '0') + t
  }

  /** `toISOString().slice(0, 10)`: `YYYY-MM-DD` for years 0 to 9999; other
      years use the six-digit signed form, of which the first ten characters
      are kept. */
  function IsoDate(d: CalDate): string
    requires ValidDate(d)
  {
    if 0 <= d.year <= 9999 then
      PadNumber(d.year, 4) + "-" + PadNumber(d.month, 2) + "-" + PadNumber(d.day, 2)
    else
      var sign := if d.year < 0 then "-" else "+";
      var full := sign + PadNumber(if d.year < 0 then -d.year else d.year, 6) + "-" + PadNumber(d.month, 2);
      Take(full, 10)
  }

  /** Matches `/^\d{4}-\d{2}-\d{2}$/`. */
  predicate IsIsoShape(s: string) {
    && |s| == 10
    && AllDigits(s[0..4]) && s[4] == '-' && AllDigits(s[5..7]) && s[7] == '-' && AllDigits(s[8..10])
  }

  /** Matches `/^\d{2}-\d{2}-\d{4}$/`. */
  predicate IsDayFirstShape(s: string) {
    && |s| == 10
    && AllDigits(s[0..2]) && s[2] == '-' && AllDigits(s[3..5]) && s[5] == '-' && AllDigits(s[6..10])
  }

  /** The text `normalizeDate` tests: trimmed, every `/` turned into `-`. */
  function DateText(value: string): string {
    ReplaceChar(Trim(value), '/', '-')
  }

  /** `normalizeDate`: `YYYY-MM-DD` stays as it is, `DD-MM-YYYY` is
      reordered to `YYYY-MM-DD`, anything else is rejected. Day and month
      are not range-checked. */
  function NormalizeDate(value: string): (r: Option<string>)
    ensures r.Some? ==> IsIsoShape(r.value)
    ensures IsIsoShape(DateText(value)) ==> r == Some(DateText(value))
    ensures !IsIsoShape(DateText(value)) && IsDayFirstShape(DateText(value)) ==>
              var t := DateText(value); r == Some(t[6..10] + "-" + t[3..5] + "-" + t[0..2])
    ensures !IsIsoShape(DateText(value)) && !IsDayFirstShape(DateText(value)) ==> r == None
  {
    var t := DateText(value);
    if IsIsoShape(t) then
      Some(t)
    else if IsDayFirstShape(t) then
      var parts := SplitDayFirst(t);
      Some(parts[2] + "-" + parts[1] + "-" + parts[0])
    else
      None
  }

  /** `t.split("-")` on `DD-MM-YYYY` text. */
  function SplitDayFirst(t: string): (parts: seq<string>)
    requires IsDayFirstShape(t)
    ensures parts == [t[0..2], t[3..5], t[6..10]]
  {
    var parts := SplitOn(t, '-');
    assert '-' !in t[0..2] && '-' !in t[3..5] && '-' !in t[6..10] by {
      assert forall k | 0 <= k < 2 :: IsDigit(t[0..2][k]) && IsDigit(t[3..5][k]);
      assert forall k | 0 <= k < 4 :: IsDigit(t[6..10][k]);
    }
    assert IndexOf(t, '-') == 2;
    var rest := t[3..];
    assert IndexOf(rest, '-') == 2 by {
      assert rest[2] == '-';
      assert forall k | 0 <= k < 2 :: rest[k] == t[3..5][k];
    }
    var last := rest[3..];
    assert last == t[6..10];
    assert IndexOf(last, '-') == |last|;
    assert SplitOn(last, '-') == [last];
    assert SplitOn(rest, '-') == [rest[..2]] + SplitOn(last, '-');
    assert SplitOn(t, '-') == [t[..2]] + SplitOn(rest, '-');
    assert rest[..2] == t[3..5];
    parts
  }

  /** `normalizeDate` settles its input: applied to its own output it
      returns that output again. */
  lemma NormalizeDateIdempotent(value: string, r: string)
    requires NormalizeDate(value) == Some(r)
    ensures NormalizeDate(r) == Some(r)
  {
    NormalizeDateIdempotentOnShape(r);
  }

  lemma PadNumberValue(n: nat, width: nat)
    ensures DigitsValue(PadNumber(n, width)) == n
  {
    var t := DecimalText(n);
    DecimalTextValue(n);
    if |t| < width {
      LeadingZerosValue(width - |t|, t);
    }
  }

  lemma {:induction false} LeadingZerosValue(z: nat, t: string)
    requires AllDigits(t)
    ensures AllDigits(seq(z, _ => '0') + t)
    ensures DigitsValue(seq(z, _ => '0') + t) == DigitsValue(t)
    decreases z
  {
    var s := seq(z, _ => '0') + t;
    assert AllDigits(s) by {
      forall k | 0 <= k < |s| ensures IsDigit(s[k]) {
        if k >= z { assert s[k] == t[k - z]; }
      }
    }
    if z > 0 {
      LeadingZerosValue(z - 1, t);
      assert s[1..] == seq(z - 1, _ => '0') + t;
      assert s[0] == '0';
      assert DigitsValue(s) == 0 * Pow10(|s| - 1) + DigitsValue(s[1..]);
    } else {
      assert s == t;
    }
  }

  /** A date of the years 0 to 9999 written by `toISOString` is read back
      by `normalizeDate` unchanged, and its three fields give back the
      year, month and day. */
  lemma IsoDateRoundTrip(d: CalDate)
    requires ValidDate(d) && 0 <= d.year <= 9999
    ensures NormalizeDate(IsoDate(d)) == Some(IsoDate(d))
    ensures var s := IsoDate(d);
            DigitsValue(s[0..4]) == d.year && DigitsValue(s[5..7]) == d.month && DigitsValue(s[8..10]) == d.day
  {
    var y := PadNumber(d.year, 4);
    var m := PadNumber(d.month, 2);
    var dd := PadNumber(d.day, 2);
    assert Pow10(4) == 10000 && Pow10(2) == 100;
    DecimalTextBelow(d.year, 4);
    DecimalTextBelow(d.month, 2);
    DecimalTextBelow(d.day, 2);
    var s := y + "-" + m + "-" + dd;
    assert s[0..4] == y && s[5..7] == m && s[8..10] == dd;
    assert IsIsoShape(s);
    PadNumberValue(d.year, 4);
    PadNumberValue(d.month, 2);
    PadNumberValue(d.day, 2);
    NormalizeDateIdempotentOnShape(s);
  }

  /** A number below 10^w needs at most `w` digits. */
  lemma DecimalTextBelow(n: nat, w: nat)
    requires w >= 1 && n < Pow10(w)
    ensures |DecimalText(n)| <= w
  {
    var t := DecimalText(n);
    DecimalTextValue(n);
    if |t| > w {
      DigitsValueAtLeast(t);
      Pow10Monotone(w, |t| - 1);
    }
  }

  lemma NormalizeDateIdempotentOnShape(s: string)
    requires IsIsoShape(s)
    ensures NormalizeDate(s) == Some(s)
  {
    assert NoSpaceAtEnds(s) by {
      assert IsDigit(s[0..4][0]) && IsDigit(s[8..10][1]);
    }
    TrimStartOfTrimmed(s);
    TrimEndOfTrimmed(s);
    assert '/' !in s by {
      forall k | 0 <= k < 10 ensures s[k] != '/' {
        if k < 4 { assert IsDigit(s[0..4][k]); }
        else if 4 < k < 7 { assert IsDigit(s[5..7][k - 5]); }
        else if k > 7 { assert IsDigit(s[8..10][k - 8]); }
      }
    }
    assert DateText(s) == s;
  }
}
