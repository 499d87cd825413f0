/**
  QDateTime, reduced to what the stores need: a date time is either invalid or a
  whole number of seconds on one time line. Its ISO-8601 text (`Qt::ISODate`) is
  modelled by a decimal rendering of that number; what the stores rely on is that
  parsing the rendering gives the date time back, that an invalid date time
  renders as the empty string, and that text that is not a rendering parses to an
  invalid date time.
 */
module DateTimes {

  datatype DateTime = Invalid | At(secs: int)

  const SecondsPerDay: int := 86400

  /** QDateTime ordering in Qt 6: invalid date times are equal to each other and earlier than every valid one. */
  predicate Before(a: DateTime, b: DateTime) {
    match (a, b)
    case (Invalid, At(_)) => true
    case (At(x), At(y)) => x < y
    case _ => false
  }

  /** `QDateTime::addDays` on the local time line (daylight-saving shifts are not modelled). */
  function AddDays(d: DateTime, days: int): DateTime {
    match d
    case Invalid => Invalid
    case At(s) => At(s + days * SecondsPerDay)
  }

  function DigitChar(d: nat): char
    requires d < 10
  {
    ('0' as int + d) as char
  }

  predicate IsDigit(c: char) {
    '0' <= c <= '9'
  }

  /** Decimal digits of `n`, most significant first, without leading zeros. */
  function Numeral(n: nat): (r: string)
    ensures |r| > 0 && forall i :: 0 <= i < |r| ==> IsDigit(r[i])
    decreases n
  {
    if n < 10 then [DigitChar(n)] else Numeral(n / 10) + [DigitChar(n % 10)]
  }

  predicate IsNumeral(s: string) {
    |s| > 0 && forall i :: 0 <= i < |s| ==> IsDigit(s[i])
  }

  function NumeralValue(s: string): nat
    requires forall i :: 0 <= i < |s| ==> IsDigit(s[i])
    decreases |s|
  {
    if s == [] then 0
    else
      assert IsDigit(s[|s| - 1]);
      NumeralValue(s[..|s| - 1]) * 10 + (s[|s| - 1] as int - '0' as int)
  }

  lemma {:induction false} NumeralValueOfNumeral(n: nat)
    ensures NumeralValue(Numeral(n)) == n
    decreases n
  {
    if n >= 10 {
      var s := Numeral(n);
      assert s[..|s| - 1] == Numeral(n / 10);
      NumeralValueOfNumeral(n / 10);
    }
  }

  /** `QDateTime::toString(Qt::ISODate)`. */
  function IsoText(d: DateTime): string {
    match d
    case Invalid => ""
    case At(s) => if s >= 0 then Numeral(s) else "-" + Numeral(-s)
  }

  /** `QDateTime::fromString(text, Qt::ISODate)`. */
  function FromIsoText(t: string): DateTime {
    if IsNumeral(t) then At(NumeralValue(t))
    else if |t| > 1 && t[0] == '-' && IsNumeral(t[1..]) then At(0 - NumeralValue(t[1..]) as int)
    else Invalid
  }

  /** Rendering a date time and parsing the text back gives the same date time. */
  lemma IsoTextRoundTrip(d: DateTime)
    ensures FromIsoText(IsoText(d)) == d
  {
    match d
    case Invalid =>
    case At(s) =>
      if s >= 0 {
        NumeralValueOfNumeral(s);
      } else {
        var t := IsoText(d);
        assert t[1..] == Numeral(-s);
        assert !IsDigit(t[0]);
        NumeralValueOfNumeral(-s);
      }
  }
}
