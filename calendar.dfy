/** The day label of `formatDateInIST` in helper/generateDateRange.js: the
    calendar day of an instant in India Standard Time, taken as the fixed
    offset UTC+05:30 for every instant, written as the short English month name, a space and
    the two-digit day of the month. Instants are milliseconds since
    1970-01-01T00:00Z; the calendar is the proleptic Gregorian one. */
module Calendar {

  const DayMs: int := 86400000
  const IstOffsetMs: int := 19800000

  datatype Date = Date(year: int, month: int, day: int)

  predicate IsLeap(y: int)
  {
    (y % 4 == 0 && y % 100 != 0) || y % 400 == 0
  }

  function YearLength(y: int): (n: int)
    ensures n == 365 || n == 366
  {
    if IsLeap(y) then 366 else 365
  }

  /** Every entry of `lens` is positive. */
  predicate Positive(lens: seq<int>)
  {
    forall i :: 0 <= i < |lens| ==> lens[i] > 0
  }

  /** The total of the lengths from index `i` on. */
  function DaysFrom(lens: seq<int>, i: int): (n: int)
    requires 0 <= i <= |lens|
    ensures i == |lens| ==> n == 0
    ensures Positive(lens) ==> n >= |lens| - i
    decreases |lens| - i
  {
    if i == |lens| then 0 else lens[i] + DaysFrom(lens, i + 1)
  }

  /** Where zero-based day `doy`, counted from the start of period `i`,
      falls when the periods have the lengths `lens`: whole periods are
      skipped until `doy` lies inside one. The result is that period's
      index and the one-based day within it. */
  function Walk(lens: seq<int>, doy: int, i: int): (r: (int, int))
    requires Positive(lens) && 0 <= i < |lens| && 0 <= doy < DaysFrom(lens, i)
    ensures i <= r.0 < |lens| && 1 <= r.1 <= lens[r.0]
    decreases |lens| - i
  {
    if doy < lens[i] then (i, doy + 1) else Walk(lens, doy - lens[i], i + 1)
  }

  /** The next day is the next day of the same period, or the first day of
      the next period when `doy` is the last day of its period. */
  lemma {:induction false} WalkSucc(lens: seq<int>, doy: int, i: int)
    requires Positive(lens) && 0 <= i < |lens| && 0 <= doy && doy + 1 < DaysFrom(lens, i)
    ensures var r := Walk(lens, doy, i);
      Walk(lens, doy + 1, i) == if r.1 < lens[r.0] then (r.0, r.1 + 1) else (r.0 + 1, 1)
    decreases |lens| - i
  {
    if doy >= lens[i] {
      WalkSucc(lens, doy - lens[i], i + 1);
    }
  }

  /** The last day counted from period `i` is the last day of the last
      period. */
  lemma {:induction false} WalkLast(lens: seq<int>, i: int)
    requires Positive(lens) && 0 <= i < |lens|
    ensures Walk(lens, DaysFrom(lens, i) - 1, i) == (|lens| - 1, lens[|lens| - 1])
    decreases |lens| - i
  {
    if i < |lens| - 1 {
      WalkLast(lens, i + 1);
    }
  }

  /** The lengths of January to December in a leap or a common year. */
  function MonthLengths(leap: bool): (r: seq<int>)
    ensures |r| == 12 && Positive(r)
    ensures forall i :: 0 <= i < 12 ==> 28 <= r[i] <= 31
    ensures r[0] == 31 && r[11] == 31
  {
    [31, if leap then 29 else 28, 31, 30, 31, 30, 31, 31, 30, 31, 30, 31]
  }

  /** The twelve months make up the year. */
  lemma MonthsFillYear(y: int)
    ensures DaysFrom(MonthLengths(IsLeap(y)), 0) == YearLength(y)
  {
    var lens := MonthLengths(IsLeap(y));
    var feb := lens[1];
    // running totals from December back to February
    assert DaysFrom(lens, 12) == 0;
    assert DaysFrom(lens, 11) == 31;
    assert DaysFrom(lens, 10) == 61;
    assert DaysFrom(lens, 9) == 92;
    assert DaysFrom(lens, 8) == 122;
    assert DaysFrom(lens, 7) == 153;
    assert DaysFrom(lens, 6) == 184;
    assert DaysFrom(lens, 5) == 214;
    assert DaysFrom(lens, 4) == 245;
    assert DaysFrom(lens, 3) == 275;
    assert DaysFrom(lens, 2) == 306;
    assert DaysFrom(lens, 1) == 306 + feb;
  }

  /** Number of days in month `m` (1 = January) of year `y`. */
  function MonthLength(y: int, m: int): (n: int)
    requires 1 <= m <= 12
    ensures 28 <= n <= 31
  {
    MonthLengths(IsLeap(y))[m - 1]
  }

  predicate ValidDate(d: Date)
  {
    1 <= d.month <= 12 && 1 <= d.day <= MonthLength(d.year, d.month)
  }

  /** The day after `d`. */
  function NextDate(d: Date): (r: Date)
    requires ValidDate(d)
    ensures ValidDate(r)
  {
    if d.day < MonthLength(d.year, d.month) then Date(d.year, d.month, d.day + 1)
    else if d.month < 12 then Date(d.year, d.month + 1, 1)
    else Date(d.year + 1, 1, 1)
  }

  /** Day number `d` counted from the first day of year `y`, as a year and
      a zero-based day of that year. */
  function YearAndOrdinal(y: int, d: int): (r: (int, int))
    ensures 0 <= r.1 < YearLength(r.0)
    decreases d < 0, if d < 0 then -d else d
  {
    if d < 0 then YearAndOrdinal(y - 1, d + YearLength(y - 1))
    else if d >= YearLength(y) then YearAndOrdinal(y + 1, d - YearLength(y))
    else (y, d)
  }

  /** The date of zero-based day `doy` of year `y`. */
  function FromOrdinal(y: int, doy: int): (r: Date)
    requires 0 <= doy < YearLength(y)
    ensures ValidDate(r) && r.year == y
  {
    MonthsFillYear(y);
    var r := Walk(MonthLengths(IsLeap(y)), doy, 0);
    Date(y, r.0 + 1, r.1)
  }

  /** The calendar date `days` days after 1970-01-01. */
  function FromEpochDays(days: int): (r: Date)
    ensures ValidDate(r)
  {
    var p := YearAndOrdinal(1970, days);
    FromOrdinal(p.0, p.1)
  }

  /** Stepping one day forward steps the year and day-of-year forward. */
  lemma {:induction false} YearAndOrdinalSucc(y: int, d: int)
    ensures YearAndOrdinal(y, d + 1) ==
      var p := YearAndOrdinal(y, d);
      if p.1 + 1 < YearLength(p.0) then (p.0, p.1 + 1) else (p.0 + 1, 0)
    decreases d < 0, if d < 0 then -d else d
  {
    if d < -1 {
      YearAndOrdinalSucc(y - 1, d + YearLength(y - 1));
    } else if d == -1 {
      assert YearAndOrdinal(y, -1) == (y - 1, YearLength(y - 1) - 1);
    } else if d >= YearLength(y) {
      YearAndOrdinalSucc(y + 1, d - YearLength(y));
    }
  }

  /** Within a year, the next day of the year is the next date. */
  lemma FromOrdinalSucc(y: int, doy: int)
    requires 0 <= doy && doy + 1 < YearLength(y)
    ensures FromOrdinal(y, doy + 1) == NextDate(FromOrdinal(y, doy))
  {
    MonthsFillYear(y);
    WalkSucc(MonthLengths(IsLeap(y)), doy, 0);
  }

  /** The day after the last day of a year is the first of January. */
  lemma FromOrdinalNewYear(y: int)
    ensures FromOrdinal(y + 1, 0) == NextDate(FromOrdinal(y, YearLength(y) - 1))
  {
    MonthsFillYear(y);
    MonthsFillYear(y + 1);
    WalkLast(MonthLengths(IsLeap(y)), 0);
  }

  /** The date after day `doy` of year `y`, within the year or across its
      end. */
  lemma FromOrdinalNext(y: int, doy: int)
    requires 0 <= doy < YearLength(y)
    ensures NextDate(FromOrdinal(y, doy)) ==
      if doy + 1 < YearLength(y) then FromOrdinal(y, doy + 1) else FromOrdinal(y + 1, 0)
  {
    if doy + 1 < YearLength(y) {
      FromOrdinalSucc(y, doy);
    } else {
      FromOrdinalNewYear(y);
    }
  }

  /** Consecutive day numbers are consecutive calendar dates. */
  lemma FromEpochDaysSucc(days: int)
    ensures FromEpochDays(days + 1) == NextDate(FromEpochDays(days))
  {
    var p, q := YearAndOrdinal(1970, days), YearAndOrdinal(1970, days + 1);
    YearAndOrdinalSucc(1970, days);
    FromOrdinalNext(p.0, p.1);
    assert FromEpochDays(days) == FromOrdinal(p.0, p.1);
    assert FromEpochDays(days + 1) == FromOrdinal(q.0, q.1);
  }

  /** The day number, counted from 1970-01-01, of the calendar day in India
      Standard Time that contains instant `t`. */
  function IstDayNumber(t: int): int
  {
    (t + IstOffsetMs) / DayMs
  }

  /** The calendar date in India Standard Time of instant `t`. */
  function IstDate(t: int): (r: Date)
    ensures ValidDate(r)
  {
    FromEpochDays(IstDayNumber(t))
  }

  /** An instant one day later falls on the next calendar date. */
  lemma IstDateNextDay(t: int)
    ensures IstDate(t + DayMs) == NextDate(IstDate(t))
  {
    assert IstDayNumber(t + DayMs) == IstDayNumber(t) + 1;
    FromEpochDaysSucc(IstDayNumber(t));
  }

  const MonthAbbrevs: seq<string> :=
    ["Jan", "Feb", "Mar", "Apr", "May", "Jun", "Jul", "Aug", "Sep", "Oct", "Nov", "Dec"]

  predicate IsDigit(c: char)
  {
    '0' <= c <= '9'
  }

  function DigitValue(c: char): int
  {
    c as int - '0' as int
  }

  /** `n` written with exactly two decimal digits ("2-digit"). */
  function TwoDigits(n: int): (r: string)
    requires 0 <= n < 100
    ensures |r| == 2 && IsDigit(r[0]) && IsDigit(r[1])
    ensures 10 * DigitValue(r[0]) + DigitValue(r[1]) == n
  {
    [('0' as int + n / 10) as char, ('0' as int + n % 10) as char]
  }

  /** The label of a date: month abbreviation, a space, the two-digit day. */
  function DateLabel(d: Date): (r: string)
    requires ValidDate(d)
    ensures |r| == 6 && r[3] == ' ' && IsDigit(r[4]) && IsDigit(r[5])
    ensures r[..3] == MonthAbbrevs[d.month - 1]
    ensures 10 * DigitValue(r[4]) + DigitValue(r[5]) == d.day
  {
    MonthAbbrevs[d.month - 1] + " " + TwoDigits(d.day)
  }

  /** Reads a label back: the month number and the day of the month. */
  function ParseLabel(s: string): (r: (int, int))
    requires |s| == 6
  {
    (MonthNumber(s[..3]), 10 * DigitValue(s[4]) + DigitValue(s[5]))
  }

  /** The position, counted from 1, of an abbreviation in `MonthAbbrevs`
      (0 when it is not there). */
  function MonthNumber(a: string): (m: int)
    ensures 0 <= m <= 12
    ensures 1 <= m ==> MonthAbbrevs[m - 1] == a
  {
    if a == "Jan" then 1 else if a == "Feb" then 2 else if a == "Mar" then 3
    else if a == "Apr" then 4 else if a == "May" then 5 else if a == "Jun" then 6
    else if a == "Jul" then 7 else if a == "Aug" then 8 else if a == "Sep" then 9
    else if a == "Oct" then 10 else if a == "Nov" then 11 else if a == "Dec" then 12
    else 0
  }

  /** A label determines its date's month and day: reading it back gives
      them again. */
  lemma LabelRoundTrip(d: Date)
    requires ValidDate(d)
    ensures ParseLabel(DateLabel(d)) == (d.month, d.day)
  {
    var r := DateLabel(d);
    assert r[..3] == MonthAbbrevs[d.month - 1];
    AbbrevNumbered(d.month);
  }

  /** Each abbreviation is read back as its own month number: no two
      months share one. */
  lemma AbbrevNumbered(m: int)
    requires 1 <= m <= 12
    ensures MonthNumber(MonthAbbrevs[m - 1]) == m
  {
  }

  /** `formatDateInIST(t)`: the label of the IST calendar day of `t`. */
  function FormatDateInIst(t: int): (r: string)
    ensures |r| == 6 && r[..3] in MonthAbbrevs && r[3] == ' ' && IsDigit(r[4]) && IsDigit(r[5])
  {
    DateLabel(IstDate(t))
  }

  /** The label of `t` reads back as the month and day of `t` in IST. */
  lemma FormatDateInIstRoundTrip(t: int)
    ensures ParseLabel(FormatDateInIst(t)) == (IstDate(t).month, IstDate(t).day)
  {
    LabelRoundTrip(IstDate(t));
  }

  /** Anchors: day 0 is 1970-01-01, the day before it 1969-12-31, and day 59
      (1970 is not a leap year) is the first of March. */
  lemma EpochAnchors()
    ensures FromEpochDays(0) == Date(1970, 1, 1)
    ensures FromEpochDays(-1) == Date(1969, 12, 31)
    ensures FromEpochDays(59) == Date(1970, 3, 1)
  {
    assert !IsLeap(1970) && !IsLeap(1969);
    assert YearAndOrdinal(1970, 0) == (1970, 0);
    assert YearAndOrdinal(1970, 59) == (1970, 59);
    assert YearAndOrdinal(1969, 364) == (1969, 364);
    assert YearAndOrdinal(1970, -1) == (1969, 364);
    MonthsFillYear(1969);
    MonthsFillYear(1970);
    assert Walk(MonthLengths(false), 0, 0) == (0, 1);
    assert Walk(MonthLengths(false), 59, 0) == (2, 1);
    WalkLast(MonthLengths(false), 0);
  }

  /** 18:30 UTC is already midnight in India: the instant 1970-01-01T18:30Z
      is labelled with the second of January, one millisecond earlier with
      the first. */
  lemma IstMidnight()
    ensures FormatDateInIst(66600000)[..3] == "Jan" && ParseLabel(FormatDateInIst(66600000)) == (1, 2)
    ensures FormatDateInIst(66599999)[..3] == "Jan" && ParseLabel(FormatDateInIst(66599999)) == (1, 1)
  {
    assert IstDayNumber(66600000) == 1;
    assert IstDayNumber(66599999) == 0;
    EpochAnchors();
    FromEpochDaysSucc(0);
    assert IstDate(66600000) == Date(1970, 1, 2);
    assert IstDate(66599999) == Date(1970, 1, 1);
    FormatDateInIstRoundTrip(66600000);
    FormatDateInIstRoundTrip(66599999);
  }
}
