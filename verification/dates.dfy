/** `datetime.today().strftime('%Y%m%d')`: the processing date as the
    string written into PatientBirthDate. The clock itself is not modelled;
    the date is an input. */
module Dates {
  import opened Wrappers

  datatype Date = Date(year: int, month: int, day: int)

  /** The ranges `datetime` enforces on its fields (the day is checked
      against 31 only; month lengths are not modelled). */
  predicate ValidDate(d: Date) {
    1 <= d.year <= 9999 && 1 <= d.month <= 12 && 1 <= d.day <= 31
  }

  predicate IsDigit(c: char) {
    '0' <= c <= '9'
  }

  function DigitChar(n: int): (c: char)
    requires 0 <= n < 10
    ensures IsDigit(c) && DigitValue(c) == n
  {
    (48 + n) as char
  }

  function DigitValue(c: char): int
    requires IsDigit(c)
  {
    c as int - 48
  }

  /** The decimal numeral of `n`, without leading zeros. */
  function Decimal(n: nat): (s: string)
    ensures |s| >= 1
    ensures forall i :: 0 <= i < |s| ==> IsDigit(s[i])
    ensures n < 10 <==> |s| == 1
    decreases n
  {
    if n < 10 then [DigitChar(n)] else Decimal(n / 10) + [DigitChar(n % 10)]
  }

  /** A zero-padded two-digit field (`%m`, `%d`). */
  function TwoDigits(n: int): (s: string)
    requires 0 <= n < 100
    ensures |s| == 2 && IsDigit(s[0]) && IsDigit(s[1])
  {
    [DigitChar(n / 10), DigitChar(n % 10)]
  }

  /** `%Y%m%d`: the year, then month and day zero-padded to two digits.
      The processing date is today's date, so only years from 1000 on
      arise, and their year field has four digits on every platform. Earlier
      years are printed here without padding, as glibc's `%Y` does; some
      interpreters pad them to four digits instead. */
  function FormatYmd(d: Date): (s: string)
    requires ValidDate(d)
    ensures 5 <= |s| <= 8
    ensures d.year >= 1000 ==> |s| == 8
    ensures forall i :: 0 <= i < |s| ==> IsDigit(s[i])
  {
    var y := Decimal(d.year);
    DecimalLength(d.year);
    y + TwoDigits(d.month) + TwoDigits(d.day)
  }

  /** The numeral's length grows with its value. */
  lemma {:induction false} DecimalLength(n: nat)
    ensures n < 10000 ==> |Decimal(n)| <= 4
    ensures n >= 1000 ==> |Decimal(n)| >= 4
    decreases n
  {
    if n >= 10 {
      DecimalLength(n / 10);
    }
  }

  /** The value of a non-empty string of digits, `None` for anything else. */
  function ParseDecimal(s: string): (r: Option<nat>)
    ensures r.Some? ==> |s| >= 1 && forall i :: 0 <= i < |s| ==> IsDigit(s[i])
    decreases |s|
  {
    if |s| == 0 || !IsDigit(s[|s| - 1]) then None
    else if |s| == 1 then Some(DigitValue(s[0]))
    else match ParseDecimal(s[..|s| - 1])
      case None => None
      case Some(v) => Some(v * 10 + DigitValue(s[|s| - 1]))
  }

  /** Reads a `%Y%m%d` string back into a date; `None` if it is not one. */
  function ParseYmd(s: string): (r: Option<Date>)
    ensures r.Some? ==> ValidDate(r.value)
  {
    if |s| < 5 then None
    else
      var y := ParseDecimal(s[..|s| - 4]);
      var m := ParseDecimal(s[|s| - 4..|s| - 2]);
      var d := ParseDecimal(s[|s| - 2..]);
      if y.None? || m.None? || d.None? then None
      else if !ValidDate(Date(y.value, m.value, d.value)) then None
      else Some(Date(y.value, m.value, d.value))
  }

  /** Reading a numeral gives back its number. */
  lemma {:induction false} DecimalRoundTrip(n: nat)
    ensures ParseDecimal(Decimal(n)) == Some(n)
    decreases n
  {
    if n >= 10 {
      var s := Decimal(n);
      assert s[..|s| - 1] == Decimal(n / 10);
      DecimalRoundTrip(n / 10);
    }
  }

  lemma TwoDigitsRoundTrip(n: int)
    requires 0 <= n < 100
    ensures ParseDecimal(TwoDigits(n)) == Some(n)
  {
    var s := TwoDigits(n);
    assert s[..1] == [s[0]];
  }

  /** The birth date written into a file can be read back as the
      processing date it was made from. */
  lemma FormatYmdRoundTrip(d: Date)
    requires ValidDate(d)
    ensures ParseYmd(FormatYmd(d)) == Some(d)
  {
    var y := Decimal(d.year);
    var s := FormatYmd(d);
    assert s[..|s| - 4] == y;
    assert s[|s| - 4..|s| - 2] == TwoDigits(d.month);
    assert s[|s| - 2..] == TwoDigits(d.day);
    DecimalRoundTrip(d.year);
    TwoDigitsRoundTrip(d.month);
    TwoDigitsRoundTrip(d.day);
  }
}
