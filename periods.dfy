/**
 * Reporting periods written `MM/YYYY`: what `pd.to_datetime(p, format="%m/%Y")`
 * accepts (the extract_date helper of the dataset builder and the dashboard's
 * column parsing), the order the resulting timestamps compare in, and
 * `strftime('%m/%Y')`, which writes a period back.
 */
module Periods {
  import opened Wrappers
  import opened Strings

  /** The first day of a month; `month` counts from 1. */
  datatype MonthYear = MonthYear(month: int, year: int)

  /** Months since January of year 0: timestamps of first days compare as these keys do. */
  function Key(m: MonthYear): int {
    m.year * 12 + m.month - 1
  }

  /** pandas timestamps run from 1677-09-21 to 2262-04-11, so first days from 10/1677 to 04/2262. */
  const FirstKey: int := 1677 * 12 + 9
  const LastKey: int := 2262 * 12 + 3

  predicate Representable(m: MonthYear) {
    1 <= m.month <= 12 && FirstKey <= Key(m) <= LastKey
  }

  /** The value of four ASCII digits (the `%Y` directive takes exactly four). */
  function Year4(s: string): int
    requires |s| == 4 && AllDigits(s)
  {
    1000 * DigitValue(s[0]) + 100 * DigitValue(s[1]) + 10 * DigitValue(s[2]) + DigitValue(s[3])
  }

  /**
   * `%m/%Y`: the month is `1[0-2]`, `0[1-9]` or `[1-9]`, then a slash, then
   * four digits, and nothing else; a date outside the timestamp range is
   * rejected too (pandas raises OutOfBoundsDatetime).
   */
  function Parse(s: string): (r: Option<MonthYear>)
    ensures r.Some? ==> Representable(r.value)
    ensures r.Some? ==> |s| == 6 || |s| == 7
  {
    var m :=
      if |s| == 6 && s[1] == '/' && '1' <= s[0] <= '9' && AllDigits(s[2..]) then
        Some(MonthYear(DigitValue(s[0]), Year4(s[2..])))
      else if |s| == 7 && s[2] == '/' && AllDigits(s[3..])
              && ((s[0] == '0' && '1' <= s[1] <= '9') || (s[0] == '1' && '0' <= s[1] <= '2')) then
        Some(MonthYear(10 * DigitValue(s[0]) + DigitValue(s[1]), Year4(s[3..])))
      else
        None;
    if m.Some? && FirstKey <= Key(m.value) <= LastKey then m else None
  }

  /** A label already in the two-digit-month form the table writes. */
  predicate IsCanonical(s: string) {
    |s| == 7 && Parse(s).Some?
  }

  /** `strftime('%m/%Y')`. */
  function Render(m: MonthYear): (r: string)
    requires Representable(m)
    ensures |r| == 7 && r[2] == '/'
  {
    var y := m.year;
    [DigitChar(m.month / 10), DigitChar(m.month % 10), '/',
     DigitChar(y / 1000), DigitChar(y / 100 % 10), DigitChar(y / 10 % 10), DigitChar(y % 10)]
  }

  lemma FourDigits(y: int)
    requires 1000 <= y <= 9999
    ensures 1000 * (y / 1000) + 100 * (y / 100 % 10) + 10 * (y / 10 % 10) + y % 10 == y
  {
    var a, b, c, d := y / 1000, y / 100 % 10, y / 10 % 10, y % 10;
    assert y / 10 == 10 * (y / 100) + c;
    assert y / 100 == 10 * a + b;
    assert y == 10 * (y / 10) + d;
  }

  /** Rendering a representable date and parsing it back gives the date. */
  lemma ParseRender(m: MonthYear)
    requires Representable(m)
    ensures Parse(Render(m)) == Some(m)
  {
    var y := m.year;
    assert 1677 <= y <= 2262;
    FourDigits(y);
    var r := Render(m);
    var t := r[3..];
    assert t == [DigitChar(y / 1000), DigitChar(y / 100 % 10), DigitChar(y / 10 % 10), DigitChar(y % 10)];
    assert AllDigits(t);
    assert Year4(t) == y;
    assert r[0] == DigitChar(m.month / 10) && r[1] == DigitChar(m.month % 10);
    assert 10 * DigitValue(r[0]) + DigitValue(r[1]) == m.month;
  }

  /** A two-digit-month label: two digits, a slash, four digits. */
  lemma CanonicalShape(s: string)
    requires IsCanonical(s)
    ensures |s| == 7 && s[2] == '/' && IsDigit(s[0]) && IsDigit(s[1]) && AllDigits(s[3..])
    ensures Parse(s).value == MonthYear(10 * DigitValue(s[0]) + DigitValue(s[1]), Year4(s[3..]))
  {
  }

  /** The digits strftime writes for a year read from four digits are those digits. */
  lemma YearDigits(t: string)
    requires |t| == 4 && AllDigits(t)
    ensures Year4(t) / 1000 == DigitValue(t[0]) && Year4(t) / 100 % 10 == DigitValue(t[1])
    ensures Year4(t) / 10 % 10 == DigitValue(t[2]) && Year4(t) % 10 == DigitValue(t[3])
  {
    var a, b, c, d := DigitValue(t[0]), DigitValue(t[1]), DigitValue(t[2]), DigitValue(t[3]);
    var y := Year4(t);
    assert y / 1000 == a;
    assert y / 100 == 10 * a + b;
    assert y / 10 == 100 * a + 10 * b + c;
  }

  /** A canonical label is what strftime writes for the date it parses to. */
  lemma RenderParse(s: string)
    requires IsCanonical(s)
    ensures Render(Parse(s).value) == s
  {
    CanonicalShape(s);
    var m := Parse(s).value;
    var t := s[3..];
    YearDigits(t);
    var r := Render(m);
    assert r[0] == s[0] && r[1] == s[1];
    assert r[3] == t[0] && r[4] == t[1] && r[5] == t[2] && r[6] == t[3];
  }

  lemma KeyInjective(a: MonthYear, b: MonthYear)
    requires 1 <= a.month <= 12 && 1 <= b.month <= 12
    requires Key(a) == Key(b)
    ensures a == b
  {
  }

  /** Two canonical labels denoting the same month are the same label. */
  lemma CanonicalKeyInjective(s: string, t: string)
    requires IsCanonical(s) && IsCanonical(t)
    requires Key(Parse(s).value) == Key(Parse(t).value)
    ensures s == t
  {
    KeyInjective(Parse(s).value, Parse(t).value);
    RenderParse(s);
    RenderParse(t);
  }
}
