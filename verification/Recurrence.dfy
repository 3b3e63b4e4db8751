/** Recurring posts: the dates of a rule, and the clones generated for them. */
module Recurrence {
  import opened Common

  // ------------------------------------------------------------------ calendar dates

  /** A calendar date; `month` counts months from year 0, January being month 0 of a year. */
  datatype Date = Date(month: int, day: nat)

  function MonthLength(month: int): nat {
    var year, m := month / 12, month % 12;
    if m == 1 then (if year % 4 == 0 && (year % 100 != 0 || year % 400 == 0) then 29 else 28)
    else if m == 3 || m == 5 || m == 8 || m == 10 then 30
    else 31
  }

  predicate Before(a: Date, b: Date) { a.month < b.month || (a.month == b.month && a.day < b.day) }

  predicate AtMost(a: Date, b: Date) { a == b || Before(a, b) }

  predicate ValidDate(d: Date) { 1 <= d.day <= MonthLength(d.month) }

  function NextDay(d: Date): Date {
    if d.day < MonthLength(d.month) then Date(d.month, d.day + 1) else Date(d.month + 1, 1)
  }

  function AddDays(d: Date, n: nat): Date { if n == 0 then d else NextDay(AddDays(d, n - 1)) }

  function Min(a: nat, b: nat): nat { if a < b then a else b }

  /** Month arithmetic clips the day to the length of the month reached. */
  function AddMonths(d: Date, n: nat): Date { Date(d.month + n, Min(d.day, MonthLength(d.month + n))) }

  // ------------------------------------------------------------------ dates of a rule

  datatype Frequency = Daily | Weekly | Monthly | Other

  const LOOKAHEAD_DAYS: nat := 90
  const MAX_RECURRENCES: nat := 180

  function Step(f: Frequency, interval: nat, d: Date): Date {
    match f
    case Daily => AddDays(d, interval)
    case Weekly => AddDays(d, 7 * interval)
    case Monthly => AddMonths(d, interval)
    case Other => d
  }

  /** The k-th occurrence: `k` steps from the base date. */
  function Occurrence(f: Frequency, interval: nat, base: Date, k: nat): Date {
    if k == 0 then base else Step(f, interval, Occurrence(f, interval, base, k - 1))
  }

  function Occurrences(f: Frequency, interval: nat, base: Date, n: nat): (r: seq<Date>)
    ensures |r| == n && forall i :: 0 <= i < n ==> r[i] == Occurrence(f, interval, base, i + 1)
  {
    if n == 0 then [] else Occurrences(f, interval, base, n - 1) + [Occurrence(f, interval, base, n)]
  }

  /** How many occurrences are listed, from the k-th on: those up to `end`, `limit` at most. */
  function Listed(f: Frequency, interval: nat, base: Date, end: Date, k: nat, limit: nat): nat
    decreases limit - k
  {
    if k >= limit || !AtMost(Occurrence(f, interval, base, k + 1), end) then 0
    else 1 + Listed(f, interval, base, end, k + 1, limit)
  }

  /** The dates of a rule: its occurrences until `end`, never more than the safety limit. */
  function RecurrenceDates(f: Frequency, interval: nat, base: Date, end: Date, limit: nat): seq<Date> {
    if f == Other then [] else Occurrences(f, interval, base, Listed(f, interval, base, end, 0, limit))
  }

  method ComputeRecurrenceDates(base: Date, f: Frequency, interval: nat, end: Date, limit: nat)
      returns (dates: seq<Date>)
    ensures dates == RecurrenceDates(f, interval, base, end, limit)
  {
    dates := [];
    var current := base;
    var k := 0;
    while k < limit
      invariant 0 <= k <= limit && current == Occurrence(f, interval, base, k)
      invariant dates == Occurrences(f, interval, base, k) && (f == Other ==> k == 0)
      invariant Listed(f, interval, base, end, 0, limit) == k + Listed(f, interval, base, end, k, limit)
    {
      match f {
        case Daily => current := AddDays(current, interval);
        case Weekly => current := AddDays(current, 7 * interval);
        case Monthly => current := AddMonths(current, interval);
        case Other => break;
      }
      if !AtMost(current, end) {
        break;
      }
      dates := dates + [current];
      k := k + 1;
    }
  }

  lemma {:induction false} ListedIsPrefix(f: Frequency, interval: nat, base: Date, end: Date, k: nat, limit: nat)
    requires k <= limit
    ensures var n := Listed(f, interval, base, end, k, limit);
      && k + n <= limit
      && (forall j :: k < j <= k + n ==> AtMost(Occurrence(f, interval, base, j), end))
      && (k + n == limit || !AtMost(Occurrence(f, interval, base, k + n + 1), end))
    decreases limit - k
  {
    if k < limit && AtMost(Occurrence(f, interval, base, k + 1), end) {
      ListedIsPrefix(f, interval, base, end, k + 1, limit);
    }
  }

  // ------------------------------------------------------------------ closed forms

  lemma {:induction false} AddDaysAdds(d: Date, a: nat, b: nat)
    ensures AddDays(AddDays(d, a), b) == AddDays(d, a + b)
  {
    if b > 0 { AddDaysAdds(d, a, b - 1); }
  }

  /** Daily and weekly rules count days from the base. */
  lemma {:induction false} DayOccurrence(f: Frequency, interval: nat, base: Date, k: nat)
    requires f == Daily || f == Weekly
    ensures Occurrence(f, interval, base, k) == AddDays(base, k * (if f == Daily then interval else 7 * interval))
  {
    var step := if f == Daily then interval else 7 * interval;
    if k > 0 {
      DayOccurrence(f, interval, base, k - 1);
      AddDaysAdds(base, (k - 1) * step, step);
      assert (k - 1) * step + step == k * step;
    }
  }

  /** The base day, clipped by every month visited on the way. */
  function ClippedDay(base: Date, interval: nat, k: nat): nat {
    if k == 0 then base.day else Min(ClippedDay(base, interval, k - 1), MonthLength(base.month + k * interval))
  }

  lemma {:induction false} ClippedDayIsMin(base: Date, interval: nat, k: nat)
    ensures ClippedDay(base, interval, k) <= base.day
    ensures forall j :: 1 <= j <= k ==> ClippedDay(base, interval, k) <= MonthLength(base.month + j * interval)
    ensures ClippedDay(base, interval, k) == base.day
      || exists j :: 1 <= j <= k && ClippedDay(base, interval, k) == MonthLength(base.month + j * interval)
  {
    if k > 0 { ClippedDayIsMin(base, interval, k - 1); }
  }

  /** Monthly rules advance the month by the interval; a day once clipped stays clipped. */
  lemma {:induction false} MonthOccurrence(interval: nat, base: Date, k: nat)
    ensures Occurrence(Monthly, interval, base, k) == Date(base.month + k * interval, ClippedDay(base, interval, k))
  {
    if k > 0 {
      MonthOccurrence(interval, base, k - 1);
      assert (k - 1) * interval + interval == k * interval;
    }
  }

  // ------------------------------------------------------------------ order

  lemma {:induction false} AddDaysAfter(d: Date, n: nat)
    ensures n > 0 ==> Before(d, AddDays(d, n))
  {
    if n > 1 { AddDaysAfter(d, n - 1); }
  }

  lemma {:induction false} OccurrencesIncrease(f: Frequency, interval: nat, base: Date, i: nat, j: nat)
    requires f != Other && interval > 0 && i < j
    ensures Before(Occurrence(f, interval, base, i), Occurrence(f, interval, base, j))
  {
    var last := Occurrence(f, interval, base, j - 1);
    assert Before(last, Step(f, interval, last)) by {
      if f == Daily { AddDaysAfter(last, interval); }
      if f == Weekly { AddDaysAfter(last, 7 * interval); }
    }
    if i < j - 1 { OccurrencesIncrease(f, interval, base, i, j - 1); }
  }

  lemma {:induction false} ZeroIntervalStays(f: Frequency, base: Date, k: nat)
    requires ValidDate(base)
    ensures Occurrence(f, 0, base, k) == base
  {
    if k > 0 { ZeroIntervalStays(f, base, k - 1); }
  }

  ghost predicate StrictlyIncreasing(dates: seq<Date>) {
    forall i, j :: 0 <= i < j < |dates| ==> Before(dates[i], dates[j])
  }

  lemma IncreasingWhenPositive(f: Frequency, interval: nat, base: Date, n: nat)
    requires f != Other && interval > 0
    ensures StrictlyIncreasing(Occurrences(f, interval, base, n))
  {
    forall i, j | 0 <= i < j < n
      ensures Before(Occurrences(f, interval, base, n)[i], Occurrences(f, interval, base, n)[j])
    {
      OccurrencesIncrease(f, interval, base, i + 1, j + 1);
    }
  }

  /** Interval zero lists the base date up to the safety limit, or nothing when it is past `end`. */
  lemma ZeroIntervalDates(f: Frequency, base: Date, end: Date)
    requires f != Other && ValidDate(base)
    ensures RecurrenceDates(f, 0, base, end, MAX_RECURRENCES)
         == if AtMost(base, end) then seq(MAX_RECURRENCES, _ => base) else []
  {
    var dates := RecurrenceDates(f, 0, base, end, MAX_RECURRENCES);
    var n := |dates|;
    ListedIsPrefix(f, 0, base, end, 0, MAX_RECURRENCES);
    ZeroIntervalStays(f, base, 1);
    ZeroIntervalStays(f, base, n + 1);
    forall i | 0 <= i < n ensures dates[i] == base { ZeroIntervalStays(f, base, i + 1); }
  }

  /** The dates run strictly forward, none past `end`, exactly when the interval is positive
      or the base date itself lies past `end`: interval zero lists the base over and over. */
  lemma DatesIncreaseIff(f: Frequency, interval: nat, base: Date, end: Date)
    requires f != Other && ValidDate(base)
    ensures var dates := RecurrenceDates(f, interval, base, end, MAX_RECURRENCES);
      && (StrictlyIncreasing(dates) <==> interval > 0 || !AtMost(base, end))
      && (forall d :: d in dates ==> AtMost(d, end))
  {
    ListedIsPrefix(f, interval, base, end, 0, MAX_RECURRENCES);
    if interval > 0 {
      IncreasingWhenPositive(f, interval, base, Listed(f, interval, base, end, 0, MAX_RECURRENCES));
    } else {
      ZeroIntervalDates(f, base, end);
      var dates := RecurrenceDates(f, interval, base, end, MAX_RECURRENCES);
      if AtMost(base, end) { assert !Before(dates[0], dates[1]); }
    }
  }

  ghost predicate Complete(f: Frequency, interval: nat, base: Date, end: Date, dates: seq<Date>) {
    forall k: nat :: k >= 1 && AtMost(Occurrence(f, interval, base, k), end)
      ==> Occurrence(f, interval, base, k) in dates
  }

  lemma BeyondLimitIsUnlisted(f: Frequency, interval: nat, base: Date, n: nat, k: nat)
    requires f != Other && interval > 0 && k > n
    ensures Occurrence(f, interval, base, k) !in Occurrences(f, interval, base, n)
  {
    forall i | 0 <= i < n ensures Occurrences(f, interval, base, n)[i] != Occurrence(f, interval, base, k) {
      OccurrencesIncrease(f, interval, base, i + 1, k);
    }
  }

  /** An occurrence is listed exactly when it is not past `end` and within the safety limit. */
  lemma OccurrenceListedIff(f: Frequency, interval: nat, base: Date, end: Date, k: nat)
    requires f != Other && interval > 0 && k >= 1
    ensures Occurrence(f, interval, base, k) in RecurrenceDates(f, interval, base, end, MAX_RECURRENCES)
      <==> k <= MAX_RECURRENCES && AtMost(Occurrence(f, interval, base, k), end)
  {
    var n := Listed(f, interval, base, end, 0, MAX_RECURRENCES);
    ListedIsPrefix(f, interval, base, end, 0, MAX_RECURRENCES);
    if k > n {
      BeyondLimitIsUnlisted(f, interval, base, n, k);
      if n < MAX_RECURRENCES && k > n + 1 { OccurrencesIncrease(f, interval, base, n + 1, k); }
    } else {
      assert Occurrences(f, interval, base, n)[k - 1] == Occurrence(f, interval, base, k);
    }
  }

  /** Every occurrence up to `end` is listed exactly when the one after the safety limit lies
      past `end`: a rule whose base is too far back runs dry. */
  lemma DatesCompleteIff(f: Frequency, interval: nat, base: Date, end: Date)
    requires f != Other && interval > 0
    ensures Complete(f, interval, base, end, RecurrenceDates(f, interval, base, end, MAX_RECURRENCES))
      <==> !AtMost(Occurrence(f, interval, base, MAX_RECURRENCES + 1), end)
  {
    OccurrenceListedIff(f, interval, base, end, MAX_RECURRENCES + 1);
    if !AtMost(Occurrence(f, interval, base, MAX_RECURRENCES + 1), end) {
      forall k: nat | k >= 1 && AtMost(Occurrence(f, interval, base, k), end)
        ensures Occurrence(f, interval, base, k) in RecurrenceDates(f, interval, base, end, MAX_RECURRENCES)
      {
        if k > MAX_RECURRENCES + 1 { OccurrencesIncrease(f, interval, base, MAX_RECURRENCES + 1, k); }
        OccurrenceListedIff(f, interval, base, end, k);
      }
    }
  }
}
