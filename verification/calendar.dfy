/** Time as the application sees it. An instant is a count of milliseconds
    since 1970-01-01 00:00 (a JavaScript `Date`); a day is a count of whole
    days since that date, which is what a `YYYY-MM-DD` label names. One
    clock is used throughout: the model does not distinguish UTC from the
    host's local time. */
module Calendar {

  /** Milliseconds in a day. */
  const DayMs: int := 86_400_000

  /** The day an instant falls on. */
  function DayOf(t: int): int
  {
    t / DayMs
  }

  /** Midnight at the start of day `d`: what `new Date("YYYY-MM-DD")` gives. */
  function StartOfDay(d: int): int
  {
    d * DayMs
  }

  /** The last millisecond of day `d`: what `setHours(23, 59, 59, 999)` gives. */
  function EndOfDay(d: int): int
  {
    d * DayMs + DayMs - 1
  }

  /** An instant lies on day `d` exactly when it is between the day's first
      and last millisecond, both included. */
  lemma DayOfBounds(t: int, d: int)
    ensures DayOf(t) == d <==> StartOfDay(d) <= t <= EndOfDay(d)
  {
  }

  /** Moving an instant by whole days moves its day by the same count. */
  lemma DayOfMonotone(a: int, b: int)
    ensures a <= b ==> DayOf(a) <= DayOf(b)
  {
  }

  lemma DayOfShift(t: int, k: int)
    ensures DayOf(t + k * DayMs) == DayOf(t) + k
  {
  }

  /** The days `lo`, `lo + 1`, ..., `hi` in ascending order; empty when `lo > hi`. */
  function DaySeries(lo: int, hi: int): (r: seq<int>)
    ensures |r| == if lo <= hi then hi - lo + 1 else 0
    ensures forall k :: 0 <= k < |r| ==> r[k] == lo + k
    decreases hi - lo
  {
    if lo > hi then [] else [lo] + DaySeries(lo + 1, hi)
  }

  /** The report's label loop: a cursor starts at `start` and steps one day
      at a time while it is not past `end`, recording the day it is on.
      From a midnight start this yields exactly the days from the day of
      `start` to the day of `end`. */
  method DayLabels(start: int, end: int) returns (labels: seq<int>)
    ensures |labels| == if start <= end then (end - start) / DayMs + 1 else 0
    ensures forall k :: 0 <= k < |labels| ==> labels[k] == DayOf(start) + k
    ensures start % DayMs == 0 ==> labels == DaySeries(DayOf(start), DayOf(end))
  {
    labels := [];
    var cursor := start;
    while cursor <= end
      invariant cursor == start + |labels| * DayMs
      invariant |labels| > 0 ==> cursor - DayMs <= end
      invariant forall k :: 0 <= k < |labels| ==> labels[k] == DayOf(start) + k
      decreases end - cursor
    {
      DayOfShift(start, |labels|);
      labels := labels + [DayOf(cursor)];
      cursor := cursor + DayMs;
    }
    if start <= end {
      StepCount(start, end, |labels|);
    }
    if start % DayMs == 0 {
      var series := DaySeries(DayOf(start), DayOf(end));
      assert |labels| == |series|;
      assert forall k :: 0 <= k < |labels| ==> labels[k] == series[k];
    }
  }

  /** The number of one-day steps from `start` that stay within `end`. */
  lemma StepCount(start: int, end: int, n: int)
    requires start <= end
    requires start + (n - 1) * DayMs <= end < start + n * DayMs
    ensures n == (end - start) / DayMs + 1
  {
  }

  /** Day of the week, 0 for Sunday to 6 for Saturday (`Date.prototype.getDay`);
      1970-01-01 was a Thursday. */
  function Weekday(d: int): (w: int)
    ensures 0 <= w < 7
  {
    (d + 4) % 7
  }

  /** A calendar date; `month` counts from 1. */
  datatype Date = Date(year: int, month: int, day: int)

  predicate IsLeapYear(y: int)
  {
    y % 4 == 0 && (y % 100 != 0 || y % 400 == 0)
  }

  function DaysInMonth(y: int, m: int): (n: int)
    requires 1 <= m <= 12
    ensures 28 <= n <= 31
  {
    if m == 2 then (if IsLeapYear(y) then 29 else 28)
    else if m == 4 || m == 6 || m == 9 || m == 11 then 30
    else 31
  }

  predicate ValidDate(d: Date)
  {
    1 <= d.month <= 12 && 1 <= d.day <= DaysInMonth(d.year, d.month)
  }

  /** Leap years among 1 .. y - 1 of the proleptic Gregorian calendar. */
  function LeapYearsBefore(y: int): int
  {
    (y - 1) / 4 - (y - 1) / 100 + (y - 1) / 400
  }

  /** Days in the months of year `y` before month `m`. */
  function DaysBeforeMonth(y: int, m: int): int
    requires 1 <= m <= 12
  {
    [0, 31, 59, 90, 120, 151, 181, 212, 243, 273, 304, 334][m - 1]
    + (if m > 2 && IsLeapYear(y) then 1 else 0)
  }

  /** The day number of a calendar date. */
  function DayNumber(d: Date): int
    requires ValidDate(d)
  {
    365 * (d.year - 1970) + (LeapYearsBefore(d.year) - LeapYearsBefore(1970))
    + DaysBeforeMonth(d.year, d.month) + (d.day - 1)
  }

  /** Consecutive dates of one month have consecutive day numbers, and the
      first of a month follows the last day of the month before. */
  lemma DayNumberNext(d: Date)
    requires ValidDate(d)
    ensures d.day < DaysInMonth(d.year, d.month) ==>
              DayNumber(Date(d.year, d.month, d.day + 1)) == DayNumber(d) + 1
    ensures d.day == DaysInMonth(d.year, d.month) && d.month < 12 ==>
              DayNumber(Date(d.year, d.month + 1, 1)) == DayNumber(d) + 1
  {
  }

  /** Floor division by 4, 100 or 400 steps up by one exactly at multiples
      of the divisor. */
  lemma DivStep(n: int, k: int)
    requires k == 4 || k == 100 || k == 400
    ensures (n + 1) / k - n / k == if (n + 1) % k == 0 then 1 else 0
  {
    if k == 4 {
      assert (n + 1) / 4 - n / 4 == if (n + 1) % 4 == 0 then 1 else 0;
    } else if k == 100 {
      assert (n + 1) / 100 - n / 100 == if (n + 1) % 100 == 0 then 1 else 0;
    } else {
      assert (n + 1) / 400 - n / 400 == if (n + 1) % 400 == 0 then 1 else 0;
    }
  }

  /** A multiple of 400 is a multiple of 100, and a multiple of 100 one of 4. */
  lemma DivisorChain(y: int)
    ensures y % 400 == 0 ==> y % 100 == 0
    ensures y % 100 == 0 ==> y % 4 == 0
  {
    if y % 400 == 0 {
      var d := 4 * (y / 400) - y / 100;
      assert y == 400 * (y / 400);
      assert y == 100 * (y / 100) + y % 100;
      assert 100 * d == y % 100;
    }
    if y % 100 == 0 {
      var d := 25 * (y / 100) - y / 4;
      assert y == 100 * (y / 100);
      assert y == 4 * (y / 4) + y % 4;
      assert 4 * d == y % 4;
    }
  }

  /** Year `y` adds one to the leap-year count exactly when it is a leap year. */
  lemma LeapYearsStep(y: int)
    ensures LeapYearsBefore(y + 1) == LeapYearsBefore(y) + (if IsLeapYear(y) then 1 else 0)
  {
    DivStep(y - 1, 4);
    DivStep(y - 1, 100);
    DivStep(y - 1, 400);
    DivisorChain(y);
    var a := if y % 4 == 0 then 1 else 0;
    var b := if y % 100 == 0 then 1 else 0;
    var c := if y % 400 == 0 then 1 else 0;
    assert LeapYearsBefore(y + 1) - LeapYearsBefore(y) == a - b + c;
    assert (if IsLeapYear(y) then 1 else 0) == a - b + c;
  }

  /** The last day of a year is followed by the first day of the next. */
  lemma DayNumberNewYear(y: int)
    ensures DayNumber(Date(y + 1, 1, 1)) == DayNumber(Date(y, 12, 31)) + 1
  {
    LeapYearsStep(y);
  }

  /** Day numbers agree with the calendar: the epoch is day 0 and a Thursday. */
  lemma DayNumberExamples()
    ensures DayNumber(Date(1970, 1, 1)) == 0 && Weekday(0) == 4
    ensures DayNumber(Date(2000, 3, 1)) == 11017
    ensures DayNumber(Date(2024, 2, 29)) == 19782
    ensures DayNumber(Date(2025, 12, 1)) == 20423 && Weekday(20423) == 1
  {
  }
}
