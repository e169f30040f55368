/** generateDateRange(startDate) of helper/generateDateRange.js: one IST day
    label per day, from the start instant while it does not pass "now".
    "Now" (`new Date()`) is a parameter; a start that `new Date` cannot
    parse is `None`. The `Date` object is stepped by exactly one day. */
module DateRange {
  import opened Optional
  import opened Calendar

  /** Number of one-day steps from `start` that stay at or before `today`. */
  function DayCount(start: int, today: int): (n: nat)
    ensures start <= today ==> (n - 1) * DayMs <= today - start < n * DayMs
    ensures start > today ==> n == 0
  {
    if start <= today then (today - start) / DayMs + 1 else 0
  }

  /** The instant `i` one-day steps after `start`, reached the way the
      loop reaches it: by adding one day at a time. */
  function DayInstant(start: int, i: nat): int
  {
    if i == 0 then start else DayInstant(start, i - 1) + DayMs
  }

  /** The `i`-th instant is `i` whole days after the start. */
  lemma {:induction false} DayInstantValue(start: int, i: nat)
    ensures DayInstant(start, i) == start + i * DayMs
  {
    if i > 0 {
      DayInstantValue(start, i - 1);
    }
  }

  /** The loop of generateDateRange: `current` starts at the start instant
      and moves one day forward after each label, until it passes `today`.
      The label function is a parameter, so the loop's proof does not
      depend on how a label is computed. */
  method LabelEachDay(start: int, today: int, format: int -> string) returns (dates: seq<string>)
    ensures |dates| == DayCount(start, today)
    ensures forall i {:trigger dates[i]} :: 0 <= i < |dates| ==> dates[i] == format(DayInstant(start, i))
    ensures DayInstant(start, |dates|) > today
    ensures dates != [] ==> DayInstant(start, |dates| - 1) <= today
  {
    dates := [];
    var current := start;
    while current <= today
      invariant current == DayInstant(start, |dates|)
      invariant dates != [] ==> DayInstant(start, |dates| - 1) <= today
      invariant forall i {:trigger dates[i]} :: 0 <= i < |dates| ==> dates[i] == format(DayInstant(start, i))
      decreases today - current
    {
      dates := dates + [format(current)];
      current := current + DayMs;
    }
    CountFromBounds(start, today, |dates|);
  }

  /** generateDateRange: an unparseable start gives no labels; otherwise
      the IST label of every day from the start up to `today`. */
  method GenerateDateRange(startDate: Option<int>, today: int) returns (dates: seq<string>)
    ensures startDate.None? ==> dates == []
    ensures startDate.Some? ==> |dates| == DayCount(startDate.value, today)
    ensures startDate.Some? ==> forall i {:trigger dates[i]} :: 0 <= i < |dates| ==>
      dates[i] == FormatDateInIst(DayInstant(startDate.value, i))
    ensures startDate.Some? ==> DayInstant(startDate.value, |dates|) > today
    ensures startDate.Some? && dates != [] ==> DayInstant(startDate.value, |dates| - 1) <= today
    ensures startDate.Some? && startDate.value > today ==> dates == []
    ensures startDate.Some? && startDate.value <= today ==> dates != [] && dates[0] == FormatDateInIst(startDate.value)
  {
    if startDate.None? {
      return [];
    }
    dates := LabelEachDay(startDate.value, today, FormatDateInIst);
  }

  /** The number of steps is determined by where the last step lands. */
  lemma CountFromBounds(start: int, today: int, n: nat)
    requires DayInstant(start, n) > today
    requires n > 0 ==> DayInstant(start, n - 1) <= today
    ensures n == DayCount(start, today)
  {
    DayInstantValue(start, n);
    if n > 0 {
      DayInstantValue(start, n - 1);
    }
    if start <= today {
      var q := (today - start) / DayMs;
      assert q * DayMs <= today - start < (q + 1) * DayMs;
    }
  }

  /** A start at "now", or earlier on a day less than a full day before
      it, gives a single label. */
  lemma SameDayGivesOne(start: int, today: int)
    requires start <= today < start + DayMs
    ensures DayCount(start, today) == 1
  {
  }

  /** The loop counts elapsed 24-hour steps, not calendar days: when the
      start lies less than a day before `today` but on the previous IST
      day, there is one label, that of the start's day, and `today`'s own
      day gets none. */
  lemma EarlierTimeOfDayMissesToday(start: int, today: int)
    requires start <= today < start + DayMs
    requires IstDayNumber(today) == IstDayNumber(start) + 1
    ensures DayCount(start, today) == 1
    ensures IstDate(today) == NextDate(IstDate(DayInstant(start, 0)))
  {
    FromEpochDaysSucc(IstDayNumber(start));
  }

  /** A start at 12:00 IST on 1 January 1970 (06:30 UTC) and a "now" one
      millisecond short of a day later, at 11:59:59.999 IST on 2 January:
      there is a single label although now lies on the next IST day. */
  lemma MissedTodayExample()
    ensures var start, today := 23400000, 23400000 + DayMs - 1;
      DayCount(start, today) == 1 && IstDayNumber(today) == IstDayNumber(start) + 1
  {
    var start, today := 23400000, 23400000 + DayMs - 1;
    assert IstDayNumber(start) == 0;
    assert IstDayNumber(today) == 1;
    EarlierTimeOfDayMissesToday(start, today);
  }

  /** The instants the labels are taken from are one day apart, so each
      label names the calendar day right after the one before it: the range
      has neither gaps nor repeats. */
  lemma ConsecutiveLabelDays(start: int, i: nat)
    ensures IstDate(DayInstant(start, i + 1)) == NextDate(IstDate(DayInstant(start, i)))
  {
    IstDateNextDay(DayInstant(start, i));
  }
}
