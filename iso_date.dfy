/** The calendar dates the report recognises in its first column: the extended
    ISO 8601 calendar-date form YYYY-MM-DD (section 4.1.2.2 of ISO 8601:2004),
    optionally followed by `T` and a local time hh:mm:ss (section 4.3.2), and
    their rendering as `Mon DD YYYY` (strftime's `%b %d %Y` in the C locale). */
module IsoDate {
  import opened Wrappers

  datatype Date = Date(year: nat, month: nat, day: nat)

  predicate IsLeapYear(y: nat)
  {
    y % 4 == 0 && (y % 100 != 0 || y % 400 == 0)
  }

  function DaysInMonth(y: nat, m: nat): nat
    requires 1 <= m <= 12
  {
    if m == 2 then (if IsLeapYear(y) then 29 else 28)
    else if m == 4 || m == 6 || m == 9 || m == 11 then 30
    else 31
  }

  /** A date Python's `datetime` can hold: years 1 to 9999, a real day of a
      real month in the proleptic Gregorian calendar. */
  predicate ValidDate(d: Date)
  {
    1 <= d.year <= 9999 && 1 <= d.month <= 12 && 1 <= d.day <= DaysInMonth(d.year, d.month)
  }

  predicate IsDigit(c: char)
  {
    '0' <= c <= '9'
  }

  predicate AllDigits(s: string)
  {
    forall k :: 0 <= k < |s| ==> IsDigit(s[k])
  }

  function DigitValue(c: char): nat
    requires IsDigit(c)
  {
    c as int - '0' as int
  }

  function DigitChar(n: nat): char
    requires n < 10
  {
    ('0' as int + n) as char
  }

  /** The value of a string of decimal digits (most significant first). */
  function DecimalValue(s: string): nat
    requires AllDigits(s)
  {
    if |s| == 0 then 0 else 10 * DecimalValue(s[..|s| - 1]) + DigitValue(s[|s| - 1])
  }

  /** `n` in decimal without leading zeros, as glibc's `%Y` writes a year. */
  function NatToString(n: nat): string
  {
    if n < 10 then [DigitChar(n)] else NatToString(n / 10) + [DigitChar(n % 10)]
  }

  /** Two digits with a leading zero, as `%d` writes a day and the ISO form
      writes a month or a day. */
  function Pad2(n: nat): string
    requires n < 100
  {
    [DigitChar(n / 10), DigitChar(n % 10)]
  }

  /** Four digits with leading zeros, as the ISO form writes a year. */
  function Pad4(n: nat): string
    requires n < 10000
  {
    Pad2(n / 100) + Pad2(n % 100)
  }

  /** `%b` in the C locale. */
  function MonthAbbrev(m: nat): string
    requires 1 <= m <= 12
  {
    ["Jan", "Feb", "Mar", "Apr", "May", "Jun", "Jul", "Aug", "Sep", "Oct", "Nov", "Dec"][m - 1]
  }

  /** The ISO 8601 extended calendar date `YYYY-MM-DD` of a valid date. */
  function IsoCalendarDate(d: Date): string
    requires ValidDate(d)
  {
    Pad4(d.year) + "-" + Pad2(d.month) + "-" + Pad2(d.day)
  }

  /** `Thh:mm:ss` with hours 00-23, minutes and seconds 00-59. */
  predicate IsTimeSuffix(t: string)
  {
    |t| == 9 && t[0] == 'T' && t[3] == ':' && t[6] == ':'
    && AllDigits(t[1..3]) && AllDigits(t[4..6]) && AllDigits(t[7..9])
    && DecimalValue(t[1..3]) <= 23 && DecimalValue(t[4..6]) <= 59 && DecimalValue(t[7..9]) <= 59
  }

  /** `datetime.fromisoformat` restricted to `YYYY-MM-DD[Thh:mm:ss]`: None where
      Python raises ValueError. A date is recognised exactly when the string
      starts with that date's ISO form and what follows is empty or a time. */
  function ParseIso(s: string): (r: Option<Date>)
    ensures r.Some? ==>
              && ValidDate(r.value) && |s| >= 10 && s[..10] == IsoCalendarDate(r.value)
              && (|s| == 10 || IsTimeSuffix(s[10..]))
  {
    if |s| < 10 || s[4] != '-' || s[7] != '-'
       || !AllDigits(s[..4]) || !AllDigits(s[5..7]) || !AllDigits(s[8..10]) then
      None
    else
      var d := Date(DecimalValue(s[..4]), DecimalValue(s[5..7]), DecimalValue(s[8..10]));
      if ValidDate(d) && (|s| == 10 || IsTimeSuffix(s[10..])) then
        Pad4Decimal(s[..4]);
        Pad2Decimal(s[5..7]);
        Pad2Decimal(s[8..10]);
        assert s[..10] == s[..4] + "-" + s[5..7] + "-" + s[8..10];
        Some(d)
      else
        None
  }

  /** `dt.strftime('%b %d %Y')`. */
  function Format(d: Date): string
    requires ValidDate(d)
  {
    MonthAbbrev(d.month) + " " + Pad2(d.day) + " " + NatToString(d.year)
  }

  lemma Pad2Decimal(s: string)
    requires |s| == 2 && AllDigits(s)
    ensures DecimalValue(s) < 100 && Pad2(DecimalValue(s)) == s
  {
    assert s[..1][..0] == [];
    var a, b := DigitValue(s[0]), DigitValue(s[1]);
    assert DecimalValue(s[..1]) == a;
    assert DecimalValue(s) == 10 * a + b;
    assert DigitChar(a) == s[0] && DigitChar(b) == s[1];
  }

  lemma DecimalAppend2(a: string, b: string)
    requires AllDigits(a) && |b| == 2 && AllDigits(b)
    ensures AllDigits(a + b) && DecimalValue(a + b) == 100 * DecimalValue(a) + DecimalValue(b)
  {
    var ab := a + b;
    assert ab[..|ab| - 1] == a + b[..1];
    assert (a + b[..1])[..|a|] == a;
    assert b[..1][..0] == [];
    assert DecimalValue(b[..1]) == DigitValue(b[0]);
  }

  lemma DivMod100(n: nat, hi: nat, lo: nat)
    requires n == 100 * hi + lo && lo < 100
    ensures n / 100 == hi && n % 100 == lo
  {
  }

  lemma Pad4Decimal(s: string)
    requires |s| == 4 && AllDigits(s)
    ensures DecimalValue(s) < 10000 && Pad4(DecimalValue(s)) == s
  {
    var hi, lo := s[..2], s[2..];
    assert s == hi + lo;
    DecimalAppend2(hi, lo);
    Pad2Decimal(hi);
    Pad2Decimal(lo);
    DivMod100(DecimalValue(s), DecimalValue(hi), DecimalValue(lo));
  }

  lemma DecimalPad2(n: nat)
    requires n < 100
    ensures AllDigits(Pad2(n)) && DecimalValue(Pad2(n)) == n
  {
    var p := Pad2(n);
    assert p[..1][..0] == [];
    assert DecimalValue(p[..1]) == n / 10;
  }

  lemma DecimalPad4(n: nat)
    requires n < 10000
    ensures AllDigits(Pad4(n)) && DecimalValue(Pad4(n)) == n
  {
    DecimalPad2(n / 100);
    DecimalPad2(n % 100);
    DecimalAppend2(Pad2(n / 100), Pad2(n % 100));
  }

  /** Printing a valid date in ISO form, with or without a time, and parsing it
      gives the date back; with the `ensures` of ParseIso this makes ParseIso
      and IsoCalendarDate inverse to each other. */
  lemma ParseIsoRoundTrip(d: Date, time: string)
    requires ValidDate(d)
    requires time == "" || IsTimeSuffix(time)
    ensures ParseIso(IsoCalendarDate(d) + time) == Some(d)
  {
    var s := IsoCalendarDate(d) + time;
    DecimalPad4(d.year);
    DecimalPad2(d.month);
    DecimalPad2(d.day);
    assert s[..4] == Pad4(d.year);
    assert s[5..7] == Pad2(d.month);
    assert s[8..10] == Pad2(d.day);
    assert s[10..] == time;
  }

  /** NatToString writes digits, and reading them back gives the number. */
  lemma {:induction false} NatToStringValue(n: nat)
    ensures AllDigits(NatToString(n)) && DecimalValue(NatToString(n)) == n
  {
    var t := NatToString(n);
    if n >= 10 {
      NatToStringValue(n / 10);
      assert t[..|t| - 1] == NatToString(n / 10);
    }
  }

  /** A year of four digits is written with four digits. */
  lemma NatToStringFourDigits(n: nat)
    requires 1000 <= n <= 9999
    ensures NatToString(n) == Pad4(n)
  {
    var q := n / 100;
    var r := n % 100;
    assert n == 100 * q + r;
    assert n / 10 == 10 * q + r / 10;
    assert n / 10 / 10 == q && n / 10 % 10 == r / 10 && n % 10 == r % 10;
    assert q / 10 == n / 1000;
    assert NatToString(n / 1000) == [DigitChar(n / 1000)];
    assert NatToString(n / 100) == [DigitChar(n / 1000)] + [DigitChar(n / 100 % 10)];
    assert NatToString(n / 10) == [DigitChar(n / 1000)] + [DigitChar(n / 100 % 10)] + [DigitChar(n / 10 % 10)];
  }

  /** The rendered date is a three-letter month abbreviation, a space, the
      day in two digits, a space and the year; for four-digit years that is
      eleven characters. */
  lemma FormatShape(d: Date)
    requires ValidDate(d)
    ensures |MonthAbbrev(d.month)| == 3
    ensures Format(d)[..3] == MonthAbbrev(d.month) && Format(d)[3] == ' '
    ensures Format(d)[4..6] == Pad2(d.day) && Format(d)[6] == ' '
    ensures Format(d)[7..] == NatToString(d.year)
    ensures d.year >= 1000 ==> |Format(d)| == 11
  {
    if d.year >= 1000 {
      NatToStringFourDigits(d.year);
    }
  }

  /** Distinct dates are rendered differently: nothing of the date is lost. */
  lemma FormatInjective(d1: Date, d2: Date)
    requires ValidDate(d1) && ValidDate(d2)
    requires Format(d1) == Format(d2)
    ensures d1 == d2
  {
    FormatShape(d1);
    FormatShape(d2);
    var m := MonthAbbrev(d1.month);
    assert m == MonthAbbrev(d2.month);
    assert d1.month == d2.month;
    DecimalPad2(d1.day);
    DecimalPad2(d2.day);
    assert Pad2(d1.day) == Pad2(d2.day);
    NatToStringValue(d1.year);
    NatToStringValue(d2.year);
  }

  /** For a parsed field with a four-digit year, the rendering takes the day
      and the year digits verbatim from the field and puts the month name in
      place of the month number; the time, if any, is dropped. */
  lemma FormatCopiesDigits(s: string)
    requires ParseIso(s).Some? && ParseIso(s).value.year >= 1000
    ensures Format(ParseIso(s).value)
         == MonthAbbrev(DecimalValue(s[5..7])) + " " + s[8..10] + " " + s[..4]
  {
    var d := ParseIso(s).value;
    NatToStringFourDigits(d.year);
    assert s[..10][8..10] == s[8..10] && s[..10][..4] == s[..4] && s[..10][5..7] == s[5..7];
    Pad2Decimal(s[5..7]);
  }
}
