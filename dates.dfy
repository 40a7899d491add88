/**
  Calendar dates as Python's `datetime.date` has them (proleptic Gregorian,
  from year 1), their ISO text form `YYYY-MM-DD`, and day numbers counted
  from 1970-01-01, the Unix epoch.
*/
module Dates {
  import opened Wrappers
  import opened Text

  datatype Date = Date(year: int, month: int, day: int)

  predicate IsLeapYear(y: int) {
    y % 4 == 0 && (y % 100 != 0 || y % 400 == 0)
  }

  function DaysInMonth(y: int, m: int): int {
    if m == 2 then (if IsLeapYear(y) then 29 else 28)
    else if m == 4 || m == 6 || m == 9 || m == 11 then 30
    else 31
  }

  function DaysInYear(y: int): int {
    if IsLeapYear(y) then 366 else 365
  }

  predicate Valid(d: Date) {
    d.year >= 1 && 1 <= d.month <= 12 && 1 <= d.day <= DaysInMonth(d.year, d.month)
  }

  /** Days from 0001-01-01 to the first of January of year `y`. */
  function DaysBeforeYear(y: int): int
    requires y >= 1
  {
    var p := y - 1;
    365 * p + p / 4 - p / 100 + p / 400
  }

  /** Days from the first of January to the first of month `m` of year `y`. */
  function DaysBeforeMonth(y: int, m: int): int
    requires 1 <= m <= 12
  {
    [0, 31, 59, 90, 120, 151, 181, 212, 243, 273, 304, 334][m - 1]
    + (if m > 2 && IsLeapYear(y) then 1 else 0)
  }

  /** `DaysBeforeYear(1970)`. */
  const EpochOffset: int := 719162

  const Epoch: Date := Date(1970, 1, 1)

  const FirstDate: Date := Date(1, 1, 1)

  /** Days from 1970-01-01 to `d`; negative before the epoch. */
  function DayNumber(d: Date): int
    requires Valid(d)
  {
    DaysBeforeYear(d.year) + DaysBeforeMonth(d.year, d.month) + d.day - 1 - EpochOffset
  }

  lemma EpochIsDayZero()
    ensures Valid(Epoch) && DayNumber(Epoch) == 0
    ensures Valid(FirstDate) && DayNumber(FirstDate) == -EpochOffset
  {
  }

  lemma YearStep(y: int)
    requires y >= 1
    ensures DaysBeforeYear(y + 1) == DaysBeforeYear(y) + DaysInYear(y)
  {
    var p := y - 1;
    assert y / 4 == p / 4 + (if y % 4 == 0 then 1 else 0);
    assert y / 100 == p / 100 + (if y % 100 == 0 then 1 else 0);
    assert y / 400 == p / 400 + (if y % 400 == 0 then 1 else 0);
  }

  lemma MonthStep(y: int, m: int)
    requires 1 <= m < 12
    ensures DaysBeforeMonth(y, m + 1) == DaysBeforeMonth(y, m) + DaysInMonth(y, m)
  {
  }

  lemma LastMonth(y: int)
    ensures DaysBeforeMonth(y, 12) + DaysInMonth(y, 12) == DaysInYear(y)
  {
  }

  /** The day after `d`. */
  function NextDay(d: Date): (n: Date)
    requires Valid(d)
    ensures Valid(n) && DayNumber(n) == DayNumber(d) + 1
    ensures n.year >= d.year
  {
    if d.day < DaysInMonth(d.year, d.month) then
      Date(d.year, d.month, d.day + 1)
    else if d.month < 12 then
      MonthStep(d.year, d.month);
      Date(d.year, d.month + 1, 1)
    else
      LastMonth(d.year);
      YearStep(d.year);
      Date(d.year + 1, 1, 1)
  }

  /** The day before `d`; there is none before 0001-01-01. */
  function PrevDay(d: Date): (p: Date)
    requires Valid(d) && d != FirstDate
    ensures Valid(p) && DayNumber(p) + 1 == DayNumber(d)
    ensures p.year <= d.year
  {
    if d.day > 1 then
      Date(d.year, d.month, d.day - 1)
    else if d.month > 1 then
      MonthStep(d.year, d.month - 1);
      Date(d.year, d.month - 1, DaysInMonth(d.year, d.month - 1))
    else
      LastMonth(d.year - 1);
      YearStep(d.year - 1);
      Date(d.year - 1, 12, 31)
  }

  /** The date with day number `n`. */
  function FromDayNumber(n: int): (d: Date)
    requires n >= -EpochOffset
    ensures Valid(d) && DayNumber(d) == n
    decreases if n >= 0 then n else -n
  {
    if n == 0 then
      EpochIsDayZero();
      Epoch
    else if n > 0 then
      NextDay(FromDayNumber(n - 1))
    else
      var later := FromDayNumber(n + 1);
      EpochIsDayZero();
      PrevDay(later)
  }

  /** `d - timedelta(days=k)`, or nothing when that falls before 0001-01-01 (Python raises `OverflowError`). */
  function MinusDays(d: Date, k: nat): (r: Option<Date>)
    requires Valid(d)
    ensures r.Some? <==> DayNumber(d) - k >= -EpochOffset
    ensures r.Some? ==> Valid(r.value) && DayNumber(r.value) + k == DayNumber(d) && r.value.year <= d.year
  {
    if k == 0 then Some(d)
    else
      match MinusDays(d, k - 1)
      case None => None
      case Some(e) =>
        if e == FirstDate then
          EpochIsDayZero();
          None
        else
          FirstDayIsFirst(e);
          Some(PrevDay(e))
  }

  /** 9999-12-31, the last date `datetime.date` can represent. */
  const LastDate: Date := Date(9999, 12, 31)

  /** `DayNumber(LastDate)`. */
  const MaxDayNumber: int := 2932896

  /**
    The days a pandas `Timestamp` can hold at midnight: from 1677-09-22 to
    2262-04-11 (nanoseconds since the epoch in a signed 64-bit integer).
  */
  const TimestampMinDay: int := -106751
  const TimestampMaxDay: int := 106751

  /** The texts `pd.to_datetime` reads as NaT, the missing time, rather than rejecting. */
  const NaTStrings: set<string> := {"NaT", "nat", "NAT", "nan", "NaN", "NAN"}

  predicate InTimestampRange(d: Date)
    requires Valid(d)
  {
    TimestampMinDay <= DayNumber(d) <= TimestampMaxDay
  }

  lemma RangeEnds()
    ensures Valid(LastDate) && DayNumber(LastDate) == MaxDayNumber
    ensures Valid(Date(1677, 9, 22)) && DayNumber(Date(1677, 9, 22)) == TimestampMinDay
    ensures Valid(Date(2262, 4, 11)) && DayNumber(Date(2262, 4, 11)) == TimestampMaxDay
  {
  }

  /** No valid date other than 0001-01-01 has the smallest day number. */
  lemma FirstDayIsFirst(d: Date)
    requires Valid(d) && d != FirstDate
    ensures DayNumber(d) > -EpochOffset
  {
    if d.year > 1 {
      DaysBeforeYearPositive(d.year);
    }
  }

  lemma DaysBeforeYearPositive(y: int)
    requires y > 1
    ensures DaysBeforeYear(y) >= 365
  {
  }

  /** `s` padded on the left with zeros to at least `n` characters, as `%0nd` does. */
  function ZeroPad(s: string, n: nat): (r: string)
    ensures |r| == if |s| < n then n else |s|
    ensures AllDigits(s) ==> AllDigits(r)
    decreases n - |s|
  {
    if |s| < n then ZeroPad("0" + s, n) else s
  }

  /** `date.isoformat()`. */
  function FormatIso(d: Date): string
    requires Valid(d)
  {
    ZeroPad(NatToString(d.year), 4) + "-" + ZeroPad(NatToString(d.month), 2) + "-" + ZeroPad(NatToString(d.day), 2)
  }

  /** Reads `YYYY-MM-DD`; anything else, or a day the calendar does not have, is rejected. */
  function ParseIso(s: string): (r: Option<Date>)
    ensures r.Some? ==> Valid(r.value) && r.value.year <= 9999
  {
    if |s| == 10 && s[4] == '-' && s[7] == '-' && AllDigits(s[..4]) && AllDigits(s[5..7]) && AllDigits(s[8..]) then
      var d := Date(DigitsValue(s[..4]), DigitsValue(s[5..7]), DigitsValue(s[8..]));
      assert DigitsValue(s[..4]) <= 9999 by { DigitsBound(s[..4]); }
      if Valid(d) then Some(d) else None
    else None
  }

  lemma {:induction false} DigitsBound(s: string)
    requires AllDigits(s)
    ensures DigitsValue(s) < Pow10(|s|)
  {
    if s != [] {
      DigitsBound(s[..|s| - 1]);
    }
  }

  /** Leading zeros do not change the number a digit string denotes. */
  lemma {:induction false} ZeroPadValue(s: string, n: nat)
    requires AllDigits(s)
    ensures DigitsValue(ZeroPad(s, n)) == DigitsValue(s)
    decreases n - |s|
  {
    if |s| < n {
      LeadingZero(s);
      ZeroPadValue("0" + s, n);
    }
  }

  lemma {:induction false} LeadingZero(s: string)
    requires AllDigits(s)
    ensures AllDigits("0" + s) && DigitsValue("0" + s) == DigitsValue(s)
    decreases |s|
  {
    if s != [] {
      var init := s[..|s| - 1];
      LeadingZero(init);
      assert ("0" + s)[..|"0" + s| - 1] == "0" + init;
    }
  }

  /** A number below `10^n` takes at most `n` digits. */
  lemma {:induction false} NatToStringLength(v: nat, n: nat)
    requires n >= 1 && v < Pow10(n)
    ensures |NatToString(v)| <= n
    decreases n
  {
    if v >= 10 {
      assert n >= 2;
      assert v / 10 < Pow10(n - 1);
      NatToStringLength(v / 10, n - 1);
      assert NatToString(v) == NatToString(v / 10) + [DigitChar(v % 10)];
    }
  }

  /** Reading back what `FormatIso` writes gives the same date, for every year `date` supports. */
  lemma ParseFormatIso(d: Date)
    requires Valid(d) && d.year <= 9999
    ensures ParseIso(FormatIso(d)) == Some(d)
  {
    var y := ZeroPad(NatToString(d.year), 4);
    var m := ZeroPad(NatToString(d.month), 2);
    var dd := ZeroPad(NatToString(d.day), 2);
    NatToStringLength(d.year, 4);
    NatToStringLength(d.month, 2);
    NatToStringLength(d.day, 2);
    ZeroPadValue(NatToString(d.year), 4);
    ZeroPadValue(NatToString(d.month), 2);
    ZeroPadValue(NatToString(d.day), 2);
    var s := y + "-" + m + "-" + dd;
    assert s[..4] == y && s[5..7] == m && s[8..] == dd;
  }
}
