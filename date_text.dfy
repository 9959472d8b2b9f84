/**
 * Date text: how a due date is read from and written to the item's date
 * label. Reading follows `new Date(text)` for the ISO 8601 calendar-date form
 * `YYYY-MM-DD` (section 4.1.2.2 of ISO 8601:2004, extended complete form);
 * writing follows the template `${yyyy}-${mm}-${dd}` with month and day
 * passed through `String(n).padStart(2, "0")`.
 */
module DateText {
  import opened CivilDates

  /** What `new Date(text)` yields for a date label: a day, or the Invalid Date (NaN). */
  datatype DateValue =
    | Valid(date: CivilDate)
    | Empty      // the label is "", which also parses to the Invalid Date
    | Invalid    // any other text that is not a real calendar date

  /** What the formatting code writes for an Invalid Date: every getter returns NaN. */
  const InvalidDateText: string := "NaN-NaN-NaN"

  predicate IsDigit(ch: char) {
    '0' <= ch <= '9'
  }

  predicate AllDigits(s: string) {
    forall i :: 0 <= i < |s| ==> IsDigit(s[i])
  }

  function DigitChar(n: int): (ch: char)
    requires 0 <= n <= 9
    ensures IsDigit(ch)
  {
    ('0' as int + n) as char
  }

  function Pow10(k: nat): (p: nat)
    ensures p >= 1
  {
    if k == 0 then 1 else 10 * Pow10(k - 1)
  }

  /** The number a string of decimal digits denotes (most significant digit first). */
  function DecimalValue(s: string): (v: nat)
    requires AllDigits(s)
    ensures v < Pow10(|s|)
  {
    if s == [] then 0
    else DecimalValue(s[..|s| - 1]) * 10 + (s[|s| - 1] as int - '0' as int)
  }

  /** The shortest decimal digit string of `n`. */
  function Digits(n: nat): (s: string)
    ensures 1 <= |s| && AllDigits(s)
  {
    if n < 10 then [DigitChar(n)] else Digits(n / 10) + [DigitChar(n % 10)]
  }

  /** `String(n)` for a Number holding the integer `n`. */
  function NumberText(n: int): string {
    if n < 0 then "-" + Digits(-n) else Digits(n)
  }

  /** `s.padStart(width, fill)` for a one-character fill string. */
  function PadStart(s: string, width: nat, fill: char): (r: string)
    ensures |r| == if |s| < width then width else |s|
    ensures r[|r| - |s|..] == s
    ensures forall i :: 0 <= i < |r| - |s| ==> r[i] == fill
  {
    if |s| >= width then s else seq(width - |s|, _ => fill) + s
  }

  /** The text written back for a computed date (script.js:286-290). */
  function FormatDate(c: CivilDate): string {
    NumberText(c.year) + "-" + PadStart(NumberText(c.month), 2, '0')
      + "-" + PadStart(NumberText(c.day), 2, '0')
  }

  /** The ten-character shape `DDDD-DD-DD`. */
  predicate IsIsoShape(s: string) {
    |s| == 10 && s[4] == '-' && s[7] == '-'
    && AllDigits(s[..4]) && AllDigits(s[5..7]) && AllDigits(s[8..])
  }

  /**
   * `new Date(text)` for a date label. ISO text naming a real day parses to
   * that day; "" is the empty label; everything else is the Invalid Date.
   */
  function ParseDate(s: string): (v: DateValue)
    ensures v.Empty? <==> s == ""
    ensures v.Valid? ==> IsValid(v.date) && 0 <= v.date.year <= 9999 && IsIsoShape(s)
    ensures IsIsoShape(s) ==>
      var c := CivilDate(DecimalValue(s[..4]), DecimalValue(s[5..7]), DecimalValue(s[8..]));
      v == if IsValid(c) then Valid(c) else Invalid
  {
    if s == "" then Empty
    else if !IsIsoShape(s) then Invalid
    else
      var c := CivilDate(DecimalValue(s[..4]), DecimalValue(s[5..7]), DecimalValue(s[8..]));
      if IsValid(c) then Valid(c) else Invalid
  }

  lemma {:induction false} DigitsRoundTrip(n: nat)
    ensures DecimalValue(Digits(n)) == n
  {
    if n >= 10 {
      var s := Digits(n);
      assert s[..|s| - 1] == Digits(n / 10);
      DigitsRoundTrip(n / 10);
    }
  }

  lemma {:induction false} DigitsLength(n: nat)
    ensures n < 10 ==> |Digits(n)| == 1
    ensures 10 <= n < 100 ==> |Digits(n)| == 2
    ensures 100 <= n < 1000 ==> |Digits(n)| == 3
    ensures 1000 <= n < 10000 ==> |Digits(n)| == 4
  {
    if n >= 10 {
      DigitsLength(n / 10);
    }
  }

  /** Leading zeros do not change a decimal value. */
  lemma {:induction false} LeadingZero(s: string)
    requires AllDigits(s)
    ensures AllDigits("0" + s) && DecimalValue("0" + s) == DecimalValue(s)
  {
    var z := "0" + s;
    if s != [] {
      assert z[..|z| - 1] == "0" + s[..|s| - 1];
      LeadingZero(s[..|s| - 1]);
    }
  }

  /** A month or day number written with `padStart(2, "0")` is two digits that read back as it. */
  lemma TwoDigitRoundTrip(n: int)
    requires 1 <= n <= 99
    ensures var p := PadStart(NumberText(n), 2, '0');
      |p| == 2 && AllDigits(p) && DecimalValue(p) == n
  {
    DigitsLength(n);
    DigitsRoundTrip(n);
    if n < 10 {
      assert PadStart(Digits(n), 2, '0') == "0" + Digits(n);
      LeadingZero(Digits(n));
    }
  }

  /**
   * Writing a valid date with a four-digit year and reading it back yields the
   * same date: the written text is the ISO calendar-date form.
   */
  lemma FormatParseRoundTrip(c: CivilDate)
    requires IsValid(c) && 1000 <= c.year <= 9999
    ensures IsIsoShape(FormatDate(c))
    ensures ParseDate(FormatDate(c)) == Valid(c)
  {
    var y := NumberText(c.year);
    var m := PadStart(NumberText(c.month), 2, '0');
    var d := PadStart(NumberText(c.day), 2, '0');
    DigitsLength(c.year);
    DigitsRoundTrip(c.year);
    TwoDigitRoundTrip(c.month);
    TwoDigitRoundTrip(c.day);
    IsoParts(y, m, d);
  }

  /** The three fields of `y-m-d` sit at the offsets the ISO parser reads. */
  lemma IsoParts(y: string, m: string, d: string)
    requires |y| == 4 && |m| == 2 && |d| == 2
    ensures var s := y + "-" + m + "-" + d;
      |s| == 10 && s[4] == '-' && s[7] == '-' && s[..4] == y && s[5..7] == m && s[8..] == d
  {
  }

  /** The text written for an Invalid Date never parses to a day. */
  lemma InvalidDateTextIsInvalid()
    ensures ParseDate(InvalidDateText) == Invalid
  {
  }

  /** `s.padStart(width, "0")` for a label field: the digits of `n` filled to `width` places. */
  function PaddedNumber(n: nat, width: nat): string {
    PadStart(NumberText(n), width, '0')
  }

  /** Two digit strings of the same length and the same value are the same string. */
  lemma {:induction false} DigitStringsEqual(a: string, b: string)
    requires AllDigits(a) && AllDigits(b) && |a| == |b|
    requires DecimalValue(a) == DecimalValue(b)
    ensures a == b
  {
    if a != [] {
      var n := |a|;
      var da, db := a[n - 1] as int - '0' as int, b[n - 1] as int - '0' as int;
      var pa, pb := DecimalValue(a[..n - 1]), DecimalValue(b[..n - 1]);
      assert pa * 10 + da == pb * 10 + db;
      assert da == db && pa == pb;
      DigitStringsEqual(a[..n - 1], b[..n - 1]);
      assert a == a[..n - 1] + [a[n - 1]] && b == b[..n - 1] + [b[n - 1]];
    }
  }

  /** A number below `10^width` needs at most `width` digits. */
  lemma {:induction false} DigitsFit(n: nat, width: nat)
    requires 1 <= width && n < Pow10(width)
    ensures |Digits(n)| <= width
  {
    if n >= 10 {
      assert width >= 2;
      DigitsFit(n / 10, width - 1);
    }
  }

  /** Any number of leading zeros leaves a decimal value unchanged. */
  lemma {:induction false} LeadingZeros(k: nat, s: string)
    requires AllDigits(s)
    ensures AllDigits(seq(k, _ => '0') + s) && DecimalValue(seq(k, _ => '0') + s) == DecimalValue(s)
  {
    var z := seq(k, _ => '0') + s;
    if k == 0 {
      assert z == s;
    } else {
      LeadingZeros(k - 1, s);
      var t := seq(k - 1, _ => '0') + s;
      assert z == "0" + t;
      LeadingZero(t);
    }
  }

  /** A number padded to `width` places is `width` digits that read back as the number. */
  lemma PaddedRoundTrip(n: nat, width: nat)
    requires 1 <= width && n < Pow10(width)
    ensures var p := PaddedNumber(n, width);
      |p| == width && AllDigits(p) && DecimalValue(p) == n
  {
    var d := Digits(n);
    DigitsFit(n, width);
    DigitsRoundTrip(n);
    assert NumberText(n) == d;
    var p := PadStart(d, width, '0');
    assert p == seq(width - |d|, _ => '0') + d;
    LeadingZeros(width - |d|, d);
  }

  /**
   * Reading a label and writing the date back gives the label again: with
   * the year padded to four places always, and as `FormatDate` writes it
   * when the year has four digits. So a label names exactly one day, and no
   * other text parses to that day.
   */
  lemma ParseFormatRoundTrip(s: string)
    requires ParseDate(s).Valid?
    ensures var c := ParseDate(s).date;
      PaddedNumber(c.year, 4) + "-" + PaddedNumber(c.month, 2) + "-" + PaddedNumber(c.day, 2) == s
    ensures 1000 <= ParseDate(s).date.year ==> FormatDate(ParseDate(s).date) == s
  {
    var c := ParseDate(s).date;
    LabelFromFields(s);
    if 1000 <= c.year {
      DigitsLength(c.year);
      assert NumberText(c.year) == PaddedNumber(c.year, 4);
    }
  }

  /** ISO-shaped text is its three fields, each padded back to its width, joined by dashes. */
  lemma LabelFromFields(s: string)
    requires IsIsoShape(s)
    ensures PaddedNumber(DecimalValue(s[..4]), 4) + "-" + PaddedNumber(DecimalValue(s[5..7]), 2)
      + "-" + PaddedNumber(DecimalValue(s[8..]), 2) == s
  {
    var ys, ms, ds := s[..4], s[5..7], s[8..];
    var y, m, d := PaddedNumber(DecimalValue(ys), 4), PaddedNumber(DecimalValue(ms), 2), PaddedNumber(DecimalValue(ds), 2);
    FieldRoundTrip(ys);
    FieldRoundTrip(ms);
    FieldRoundTrip(ds);
    assert y == ys && m == ms && d == ds;
    IsoSplit(s);
    assert y + "-" + m + "-" + d == ys + "-" + ms + "-" + ds;
  }

  lemma IsoSplit(s: string)
    requires |s| == 10 && s[4] == '-' && s[7] == '-'
    ensures s == s[..4] + "-" + s[5..7] + "-" + s[8..]
  {
  }

  /** A field of digits reads as a number that, padded to the field's width, is the field again. */
  lemma FieldRoundTrip(part: string)
    requires 1 <= |part| && AllDigits(part)
    ensures PaddedNumber(DecimalValue(part), |part|) == part
  {
    var n := DecimalValue(part);
    PaddedRoundTrip(n, |part|);
    DigitStringsEqual(PaddedNumber(n, |part|), part);
  }
}
