/** Calendar dates as the codec stores them: Go's `time.Time` reduced to its
    year, month and day, with the `"20060102"` layout of `time.Format` and
    `time.Parse`. */
module Dates {
  import opened Bytes
  import opened Wrappers
  import opened Strconv

  datatype Date = Date(year: int, month: int, day: int)
  {
    /** A real day of the proleptic Gregorian calendar. */
    predicate Valid()
    {
      1 <= month <= 12 && 1 <= day <= DaysIn(month, year)
    }
  }

  /** A date `time.Time` can hold (its year is unbounded here). */
  type CivilDate = d: Date | d.Valid() witness Date(1, 1, 1)

  /** Go's zero `time.Time`, January 1 of year 1. */
  const ZERO_DATE: CivilDate := Date(1, 1, 1)

  predicate IsLeap(year: int)
  {
    year % 4 == 0 && (year % 100 != 0 || year % 400 == 0)
  }

  function DaysIn(month: int, year: int): (n: int)
    ensures 28 <= n <= 31
    ensures n == 29 <==> month == 2 && IsLeap(year)
  {
    if month == 2 then (if IsLeap(year) then 29 else 28)
    else if month == 4 || month == 6 || month == 9 || month == 11 then 30
    else 31
  }

  /** The year as the layout `2006` prints it: at least four digits, a minus
      sign before the magnitude of a negative year. */
  function YearText(year: int): (r: seq<byte>)
    ensures 0 <= year <= 9999 ==> |r| == 4 && AllDigits(r)
    ensures year < 0 ==> |r| > 0 && r[0] == MINUS
  {
    var mag: nat := if year < 0 then -year else year;
    var digits := if mag < 10000 then FixedDigits(mag, 4) else Digits(mag);
    if year < 0 then [MINUS] + digits else digits
  }

  /** `d.Format("20060102")`. */
  function Format(d: CivilDate): (r: seq<byte>)
    ensures 0 <= d.year <= 9999 ==> |r| == 8 && AllDigits(r)
  {
    YearText(d.year) + FixedDigits(d.month, 2) + FixedDigits(d.day, 2)
  }

  /** `time.Parse("20060102", s)`: exactly eight digits naming a real day. */
  function Parse(s: seq<byte>): (r: Result<CivilDate>)
    ensures r.Ok? ==> |s| == 8 && 0 <= r.value.year <= 9999
    ensures r.Err? ==> r.error == InvalidDate
  {
    if |s| != 8 || !AllDigits(s) then Err(InvalidDate)
    else
      var d := Date(DigitsValue(s[..4]), DigitsValue(s[4..6]), DigitsValue(s[6..]));
      DigitsValueBound(s[..4]);
      Pow10Values();
      if d.Valid() then Ok(d) else Err(InvalidDate)
  }

  lemma Pow10Values()
    ensures Pow10(2) == 100 && Pow10(4) == 10000
  {
    assert Pow10(1) == 10;
    assert Pow10(3) == 1000;
  }

  /** Every date whose year has four digits survives a format and parse. */
  lemma ParseFormat(d: CivilDate)
    requires 0 <= d.year <= 9999
    ensures Parse(Format(d)) == Ok(d)
  {
    var s := Format(d);
    Pow10Values();
    assert s[..4] == FixedDigits(d.year, 4);
    assert s[4..6] == FixedDigits(d.month, 2);
    assert s[6..] == FixedDigits(d.day, 2);
    FixedDigitsValue(d.year, 4);
    FixedDigitsValue(d.month, 2);
    FixedDigitsValue(d.day, 2);
  }

  /** Whatever text parses is exactly the formatting of the date it parses to. */
  lemma FormatParse(s: seq<byte>)
    requires Parse(s).Ok?
    ensures Format(Parse(s).value) == s
  {
    ParseParts(s);
    FormatOfDigits(s, Parse(s).value);
  }

  /** Eight digits are the formatting of the date their groups spell. */
  lemma FormatOfDigits(s: seq<byte>, d: CivilDate)
    requires |s| == 8 && AllDigits(s) && 0 <= d.year <= 9999
    requires d == Date(DigitsValue(s[..4]), DigitsValue(s[4..6]), DigitsValue(s[6..]))
    ensures Format(d) == s
  {
    var y, m, dd := s[..4], s[4..6], s[6..];
    assert AllDigits(y) && AllDigits(m) && AllDigits(dd);
    FormatOfGroups(d, y, m, dd);
    SplitEight(s);
  }

  /** Three digit groups are the formatting of the date they spell. */
  lemma FormatOfGroups(d: CivilDate, y: seq<byte>, m: seq<byte>, dd: seq<byte>)
    requires |y| == 4 && |m| == 2 && |dd| == 2 && AllDigits(y) && AllDigits(m) && AllDigits(dd)
    requires d == Date(DigitsValue(y), DigitsValue(m), DigitsValue(dd)) && 0 <= d.year <= 9999
    ensures Format(d) == y + m + dd
  {
    FixedDigitsOfValue(y);
    FixedDigitsOfValue(m);
    FixedDigitsOfValue(dd);
    FormatIs(d, y, m, dd);
  }

  lemma SplitEight<T>(s: seq<T>)
    requires |s| == 8
    ensures s == s[..4] + s[4..6] + s[6..]
  {
  }

  lemma FormatIs(d: CivilDate, y: seq<byte>, m: seq<byte>, dd: seq<byte>)
    requires 0 <= d.year <= 9999
    requires FixedDigits(d.year, 4) == y && FixedDigits(d.month, 2) == m && FixedDigits(d.day, 2) == dd
    ensures Format(d) == y + m + dd
  {
    FormatParts(d);
  }

  /** What a successful parse read: the three digit groups. */
  lemma ParseParts(s: seq<byte>)
    requires Parse(s).Ok?
    ensures |s| == 8 && AllDigits(s) && 0 <= Parse(s).value.year <= 9999
    ensures Parse(s).value == Date(DigitsValue(s[..4]), DigitsValue(s[4..6]), DigitsValue(s[6..]))
  {
  }

  /** A four-digit year is formatted as three zero-padded groups. */
  lemma FormatParts(d: CivilDate)
    requires 0 <= d.year <= 9999
    ensures Format(d) == FixedDigits(d.year, 4) + FixedDigits(d.month, 2) + FixedDigits(d.day, 2)
  {
  }

  /** Parsing eight digits accepts exactly the real days: a day past the end
      of its month (29 February outside leap years, 31 April, month 13) is an
      error, not a date rolled over into the next month. */
  lemma ParseFixed(year: nat, month: nat, day: nat)
    requires year < 10000 && month < 100 && day < 100
    ensures var s := FixedDigits(year, 4) + FixedDigits(month, 2) + FixedDigits(day, 2);
      Parse(s) == if Date(year, month, day).Valid() then Ok(Date(year, month, day)) else Err(InvalidDate)
  {
    var s := FixedDigits(year, 4) + FixedDigits(month, 2) + FixedDigits(day, 2);
    Pow10Values();
    assert s[..4] == FixedDigits(year, 4);
    assert s[4..6] == FixedDigits(month, 2);
    assert s[6..] == FixedDigits(day, 2);
    FixedDigitsValue(year, 4);
    FixedDigitsValue(month, 2);
    FixedDigitsValue(day, 2);
  }
}
