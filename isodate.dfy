/** ISO 8601 calendar dates in the extended complete form YYYY-MM-DD
    (section 5.2.1.1 of ISO 8601), the text `strftime("%Y-%m-%d")` writes
    and the only text this model accepts as a date. */
module IsoDate {
  import opened Wrappers
  import opened Calendar

  predicate IsDigit(c: char)
  {
    '0' <= c <= '9'
  }

  function Digit(n: int): (c: char)
    requires 0 <= n <= 9
    ensures IsDigit(c)
  {
    (48 + n) as char
  }

  function DigitValue(c: char): (n: int)
    requires IsDigit(c)
    ensures 0 <= n <= 9 && Digit(n) == c
  {
    c as int - 48
  }

  /** A number below 100 as two decimal digits. */
  function TwoDigits(n: int): string
    requires 0 <= n <= 99
  {
    [Digit(n / 10), Digit(n % 10)]
  }

  /** A number below 10000 as four decimal digits. */
  function FourDigits(n: int): string
    requires 0 <= n <= 9999
  {
    TwoDigits(n / 100) + TwoDigits(n % 100)
  }

  predicate AllDigits(s: string)
  {
    forall i :: 0 <= i < |s| ==> IsDigit(s[i])
  }

  function TwoValue(s: string): (n: int)
    requires |s| == 2 && AllDigits(s)
    ensures 0 <= n <= 99 && TwoDigits(n) == s
  {
    10 * DigitValue(s[0]) + DigitValue(s[1])
  }

  function FourValue(s: string): (n: int)
    requires |s| == 4 && AllDigits(s)
    ensures 0 <= n <= 9999 && FourDigits(n) == s
  {
    assert AllDigits(s[..2]) && AllDigits(s[2..]);
    var n := 100 * TwoValue(s[..2]) + TwoValue(s[2..]);
    assert n / 100 == TwoValue(s[..2]) && n % 100 == TwoValue(s[2..]);
    assert s == s[..2] + s[2..];
    n
  }

  lemma TwoValueOfDigits(n: int)
    requires 0 <= n <= 99
    ensures AllDigits(TwoDigits(n)) && TwoValue(TwoDigits(n)) == n
  {
  }

  lemma FourValueOfDigits(n: int)
    requires 0 <= n <= 9999
    ensures AllDigits(FourDigits(n)) && FourValue(FourDigits(n)) == n
  {
    var s := FourDigits(n);
    assert s[..2] == TwoDigits(n / 100) && s[2..] == TwoDigits(n % 100);
    TwoValueOfDigits(n / 100);
    TwoValueOfDigits(n % 100);
  }

  /** The ISO text of a date: four-digit year, two-digit month and day. */
  function Format(d: Date): (s: string)
    requires ValidDate(d)
    ensures IsoShaped(s)
  {
    FourValueOfDigits(d.year);
    TwoValueOfDigits(d.month);
    TwoValueOfDigits(d.day);
    var s := FourDigits(d.year) + "-" + TwoDigits(d.month) + "-" + TwoDigits(d.day);
    assert s[..4] == FourDigits(d.year) && s[5..7] == TwoDigits(d.month) && s[8..] == TwoDigits(d.day);
    s
  }

  predicate IsoShaped(s: string)
  {
    |s| == 10 && s[4] == '-' && s[7] == '-'
    && AllDigits(s[..4]) && AllDigits(s[5..7]) && AllDigits(s[8..])
  }

  /** Reads exactly YYYY-MM-DD naming an existing date; anything else fails. */
  function Parse(s: string): (r: Option<Date>)
    ensures r.Some? ==> ValidDate(r.value)
  {
    if IsoShaped(s) then
      var d := Date(FourValue(s[..4]), TwoValue(s[5..7]), TwoValue(s[8..]));
      if ValidDate(d) then Some(d) else None
    else None
  }

  /** Formatting and then parsing gives the date back. */
  lemma ParseFormat(d: Date)
    requires ValidDate(d)
    ensures Parse(Format(d)) == Some(d)
  {
    var s := Format(d);
    assert s[..4] == FourDigits(d.year);
    assert s[5..7] == TwoDigits(d.month);
    assert s[8..] == TwoDigits(d.day);
    FourValueOfDigits(d.year);
    TwoValueOfDigits(d.month);
    TwoValueOfDigits(d.day);
  }

  /** Text that parses is already in canonical form: formatting gives it back. */
  lemma FormatParse(s: string)
    requires Parse(s).Some?
    ensures Format(Parse(s).value) == s
  {
    assert s == s[..4] + "-" + s[5..7] + "-" + s[8..];
  }

  /** Distinct dates have distinct ISO texts. */
  lemma FormatInjective(a: Date, b: Date)
    requires ValidDate(a) && ValidDate(b) && Format(a) == Format(b)
    ensures a == b
  {
    ParseFormat(a);
    ParseFormat(b);
  }

  /** A date as it is written. */
  lemma FormatExample()
    ensures Format(Date(2024, 5, 31)) == "2024-05-31"
    ensures Parse("2024-05-31") == Some(Date(2024, 5, 31))
  {
    assert FourDigits(2024) == "2024";
    assert TwoDigits(5) == "05" && TwoDigits(31) == "31";
    ParseFormat(Date(2024, 5, 31));
  }

  /** Well-shaped text naming a day that does not exist (2023-02-29,
      2024-13-01) fails to parse. */
  lemma ParseRejectsInvalidDate(y: int, m: int, d: int)
    requires 0 <= y <= 9999 && 0 <= m <= 99 && 0 <= d <= 99
    requires !ValidDate(Date(y, m, d))
    ensures Parse(FourDigits(y) + "-" + TwoDigits(m) + "-" + TwoDigits(d)) == None
  {
    var s := FourDigits(y) + "-" + TwoDigits(m) + "-" + TwoDigits(d);
    assert s[..4] == FourDigits(y) && s[5..7] == TwoDigits(m) && s[8..] == TwoDigits(d);
    FourValueOfDigits(y);
    TwoValueOfDigits(m);
    TwoValueOfDigits(d);
  }

  /** Other separators, and the empty text, fail to parse. */
  lemma ParseRejectsOtherShapes()
    ensures Parse("2024/05/31") == None
    ensures Parse("") == None
  {
    assert "2024/05/31"[4] == '/';
  }
}
