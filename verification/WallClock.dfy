/** Local wall clocks: calendar dates and times of day as points of a local time line. */
module WallClock {
  import opened Common
  import opened Recurrence

  /** A naive local date and time, in microseconds from midnight of 1 January of year 1. */
  type Wall = int

  const HOUR: int := 3_600_000_000 // microseconds
  const DAY: int := 24 * HOUR
  const EPOCH: Date := Date(12, 1)

  function PrevDay(d: Date): Date {
    if d.day > 1 then Date(d.month, d.day - 1) else Date(d.month - 1, MonthLength(d.month - 1))
  }

  /** The n-th day from the epoch. */
  function DayDate(n: int): Date
    decreases if n < 0 then -n else n
  {
    if n == 0 then EPOCH else if n > 0 then NextDay(DayDate(n - 1)) else PrevDay(DayDate(n + 1))
  }

  /** Days before the first of a month. */
  function MonthStart(month: int): int
    decreases if month < 12 then 12 - month else month - 12
  {
    if month == 12 then 0
    else if month > 12 then MonthStart(month - 1) + MonthLength(month - 1)
    else MonthStart(month + 1) - MonthLength(month)
  }

  function DayNumber(d: Date): int { MonthStart(d.month) + d.day - 1 }

  function Combine(d: Date, time: int): Wall { DayNumber(d) * DAY + time }

  function WallDate(w: Wall): Date { DayDate(w / DAY) }

  function WallTime(w: Wall): (t: int)
    ensures 0 <= t < DAY
  {
    w % DAY
  }

  // ------------------------------------------------------------------ the calendar is a bijection

  lemma MonthStartNext(month: int)
    ensures MonthStart(month + 1) == MonthStart(month) + MonthLength(month)
  {}

  lemma {:induction false} MonthStartGrows(a: int, b: int)
    requires a <= b
    ensures MonthStart(a) + (b - a) <= MonthStart(b)
    decreases b - a
  {
    if a < b {
      MonthStartGrows(a, b - 1);
      MonthStartNext(b - 1);
    }
  }

  /** The n-th day is a date of the calendar, and counts as the n-th. */
  lemma {:induction false} DayDateIsNumbered(n: int)
    ensures ValidDate(DayDate(n)) && DayNumber(DayDate(n)) == n
    decreases if n < 0 then -n else n
  {
    if n > 0 {
      DayDateIsNumbered(n - 1);
      MonthStartNext(DayDate(n - 1).month);
    } else if n < 0 {
      DayDateIsNumbered(n + 1);
      MonthStartNext(DayDate(n + 1).month - 1);
    }
  }

  lemma DayNumberIsInjective(a: Date, b: Date)
    requires ValidDate(a) && ValidDate(b) && DayNumber(a) == DayNumber(b)
    ensures a == b
  {
    if a.month < b.month {
      MonthStartNext(a.month);
      MonthStartGrows(a.month + 1, b.month);
    } else if b.month < a.month {
      MonthStartNext(b.month);
      MonthStartGrows(b.month + 1, a.month);
    }
  }

  /** A date and a time of day come back from the wall clock that combines them. */
  lemma CombineSplits(d: Date, time: int)
    requires ValidDate(d) && 0 <= time < DAY
    ensures WallDate(Combine(d, time)) == d && WallTime(Combine(d, time)) == time
  {
    DayDateIsNumbered(DayNumber(d));
    DayNumberIsInjective(DayDate(DayNumber(d)), d);
    SplitDay(DayNumber(d), time);
  }

  lemma SplitDay(n: int, time: int)
    requires 0 <= time < DAY
    ensures (n * DAY + time) / DAY == n && (n * DAY + time) % DAY == time
  {}

  /** A later day's wall clock is later, by the days between. */
  lemma CombineGrows(a: Date, b: Date, time: int)
    requires DayNumber(a) < DayNumber(b)
    ensures Combine(a, time) + DAY <= Combine(b, time)
    ensures DayNumber(b) == DayNumber(a) + 1 ==> Combine(b, time) == Combine(a, time) + DAY
  {}

  lemma WallDateIsValid(w: Wall)
    ensures ValidDate(WallDate(w))
  {
    DayDateIsNumbered(w / DAY);
  }

  // ------------------------------------------------------------------ the calendar is the Gregorian one

  predicate IsLeap(year: int) { year % 400 == 0 || (year % 4 == 0 && year % 100 != 0) }

  /** The lengths of the twelve months of a year. */
  function MonthLengths(year: int): (r: seq<nat>)
    ensures |r| == 12
  {
    [31, if IsLeap(year) then 29 else 28, 31, 30, 31, 30, 31, 31, 30, 31, 30, 31]
  }

  lemma MonthHasLength(year: int, m: nat)
    requires m < 12
    ensures MonthLength(12 * year + m) == MonthLengths(year)[m]
    ensures MonthStart(12 * year + m + 1) == MonthStart(12 * year + m) + MonthLengths(year)[m]
  {
    YearAndMonth(year, m);
    MonthStartNext(12 * year + m);
  }

  lemma YearAndMonth(year: int, m: nat)
    requires m < 12
    ensures (12 * year + m) / 12 == year && (12 * year + m) % 12 == m
  {}

  function YearLength(year: int): int { if IsLeap(year) then 366 else 365 }

  lemma HalfYear(year: int, m: nat)
    requires m <= 6
    ensures var l := MonthLengths(year);
      MonthStart(12 * year + m + 6) == MonthStart(12 * year + m) + l[m] + l[m + 1] + l[m + 2] + l[m + 3] + l[m + 4]
                                       + l[m + 5]
  {
    MonthHasLength(year, m);
    MonthHasLength(year, m + 1);
    MonthHasLength(year, m + 2);
    MonthHasLength(year, m + 3);
    MonthHasLength(year, m + 4);
    MonthHasLength(year, m + 5);
  }

  lemma YearIsTwelveMonths(year: int)
    ensures MonthStart(12 * year + 12) == MonthStart(12 * year) + YearLength(year)
  {
    HalfYear(year, 0);
    HalfYear(year, 6);
  }

  /** Leap days in the years before this one, counted from year 1. */
  function LeapDays(year: int): int { (year - 1) / 4 - (year - 1) / 100 + (year - 1) / 400 }

  lemma LeapDaysNext(year: int)
    ensures LeapDays(year + 1) == LeapDays(year) + if IsLeap(year) then 1 else 0
  {
    Passes(year, 4);
    Passes(year, 100);
    Passes(year, 400);
  }

  lemma Passes(year: int, n: int)
    requires n == 4 || n == 100 || n == 400
    ensures year / n == (year - 1) / n + if year % n == 0 then 1 else 0
  {}

  /** Days before a year in closed form: 365 a year, and a leap day every fourth but not every
      hundredth unless every four-hundredth. */
  lemma {:induction false} YearStartIsGregorian(year: int)
    ensures MonthStart(12 * year) == 365 * (year - 1) + LeapDays(year)
    decreases if year < 1 then 2 - year else year
  {
    if year > 1 {
      YearStartIsGregorian(year - 1);
      YearIsTwelveMonths(year - 1);
      LeapDaysNext(year - 1);
    } else if year < 1 {
      YearStartIsGregorian(year + 1);
      YearIsTwelveMonths(year);
      LeapDaysNext(year);
    }
  }

  // ------------------------------------------------------------------ occurrences stay in it

  lemma {:induction false} AddDaysIsValid(d: Date, n: nat)
    requires ValidDate(d)
    ensures ValidDate(AddDays(d, n))
  {
    if n > 0 { AddDaysIsValid(d, n - 1); }
  }

  lemma {:induction false} OccurrenceIsValid(f: Frequency, interval: nat, base: Date, k: nat)
    requires ValidDate(base)
    ensures ValidDate(Occurrence(f, interval, base, k))
  {
    if k > 0 {
      OccurrenceIsValid(f, interval, base, k - 1);
      var last := Occurrence(f, interval, base, k - 1);
      AddDaysIsValid(last, interval);
      AddDaysIsValid(last, 7 * interval);
    }
  }
}
