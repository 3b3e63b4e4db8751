/** What the two readers of account metrics show, day by day, in terms of the stored rows. */
module BundleLaws {
  import opened Common
  import opened PostSeries
  import opened SeriesLaws
  import opened Bundle

  /** The metrics posts may stand in for: the counts that are neither account growth nor unique
      people, and watch time. */
  lemma FallbackMetrics(m: string)
    ensures SupportsPostFallback(m) <==>
      m in {"impressions", "views", "plays", "likes", "reactions", "comments", "replies", "shares", "reposts", "saves",
            "clicks", "outbound", "watch_time"}
  {}

  /** The table holds one row per metric and day. */
  ghost predicate OneRowPerDay(rows: seq<AccountRow>) {
    forall i, j :: 0 <= i < j < |rows| ==> rows[i].metric != rows[j].metric || rows[i].date != rows[j].date
  }

  ghost predicate HasRow(rows: seq<AccountRow>, m: string, d: Day, v: real) {
    exists r :: r in rows && r.metric == m && r.date == d && r.value == v
  }

  ghost predicate HasMetric(rows: seq<AccountRow>, m: string) { exists r :: r in rows && r.metric == m }

  /** A metric's days are exactly those of its rows, each with its own row's value. */
  lemma {:induction false} DaysAreRows(rows: seq<AccountRow>, m: string, d: Day, v: real)
    requires OneRowPerDay(rows)
    ensures d in ByDay(rows, m) && ByDay(rows, m)[d] == v <==> HasRow(rows, m, d, v)
  {
    if rows != [] {
      var n := |rows| - 1;
      DaysAreRows(rows[..n], m, d, v);
      assert rows == rows[..n] + [rows[n]];
      if rows[n].metric == m && rows[n].date == d {
        forall r | r in rows[..n] ensures r.metric != m || r.date != d {
          var i :| 0 <= i < n && rows[..n][i] == r;
          assert rows[i] == r;
        }
      }
    }
  }

  lemma {:induction false} MetricHasDays(rows: seq<AccountRow>, m: string)
    ensures ByDay(rows, m) != map[] <==> HasMetric(rows, m)
  {
    if rows != [] {
      var n := |rows| - 1;
      MetricHasDays(rows[..n], m);
      assert rows == rows[..n] + [rows[n]];
      if rows[n].metric == m { assert rows[n].date in ByDay(rows, m); }
    }
  }

  /** A metric's freshness is the latest capture among its own rows. */
  lemma {:induction false} CapturedIsLatest(rows: seq<AccountRow>, m: string)
    ensures Captured(rows, m).Some? <==> HasMetric(rows, m)
    ensures Captured(rows, m).Some? ==>
      exists r :: r in rows && r.metric == m && r.capturedAt == Captured(rows, m).value
    ensures forall r :: r in rows && r.metric == m ==>
      Captured(rows, m).Some? && r.capturedAt <= Captured(rows, m).value
  {
    if rows != [] {
      var n := |rows| - 1;
      CapturedIsLatest(rows[..n], m);
      assert rows == rows[..n] + [rows[n]];
      if rows[n].metric == m { assert rows[n] in rows; }
    }
  }

  /** The value of a day: its row's, or zero when there is none. */
  ghost predicate DayShows(rows: seq<AccountRow>, m: string, d: Day, v: real) {
    HasRow(rows, m, d, v) || (v == 0.0 && forall x :: !HasRow(rows, m, d, x))
  }

  lemma GetIsRow(rows: seq<AccountRow>, m: string, d: Day)
    requires OneRowPerDay(rows)
    ensures DayShows(rows, m, d, Get(ByDay(rows, m), d))
  {
    forall x ensures d in ByDay(rows, m) && ByDay(rows, m)[d] == x <==> HasRow(rows, m, d, x) {
      DaysAreRows(rows, m, d, x);
    }
  }

  /** The i-th value of the single read belongs to the i-th day of the window: the account row's
      value, else zero; or, for a metric without a single row that posts may stand in for, what
      the post series credits to that very day. */
  lemma ReadShowsRows(rows: seq<AccountRow>, posts: Readings, m: string, start: Day, days: nat, i: nat)
    requires OneRowPerDay(rows) && i < 2 * days
    ensures var v, series := SeriesFor(rows, posts, m, start, days)[i], Series(posts(m), start);
      if HasMetric(rows, m) || !SupportsPostFallback(m) then DayShows(rows, m, start + i, v)
      else v == if start + i in series then series[start + i] else 0.0
  {
    MetricHasDays(rows, m);
    GetIsRow(rows, m, start + i);
  }

  /** Every row of the metric was captured before the newest reading of its posts. */
  ghost predicate PostsAreFresher(rows: seq<AccountRow>, posts: Readings, m: string) {
    exists j :: 0 <= j < |posts(m)| && posts(m)[j].capturedAt.Some?
                && forall r :: r in rows && r.metric == m ==> r.capturedAt < posts(m)[j].capturedAt.value
  }

  lemma FresherIff(rows: seq<AccountRow>, posts: Readings, m: string)
    requires HasMetric(rows, m)
    ensures Fresher(MaxCaptured(posts(m)), Captured(rows, m)) <==> PostsAreFresher(rows, posts, m)
  {
    CapturedIsLatest(rows, m);
    if Fresher(MaxCaptured(posts(m)), Captured(rows, m)) {
      MaxCapturedAttained(posts(m));
    }
    if PostsAreFresher(rows, posts, m) {
      var j :| 0 <= j < |posts(m)| && posts(m)[j].capturedAt.Some?
               && forall r :: r in rows && r.metric == m ==> r.capturedAt < posts(m)[j].capturedAt.value;
      MaxCapturedIsMax(posts(m), j);
    }
  }

  /** The i-th value of a metric in the bundle belongs to the i-th day of the window. It is what
      the post series credits to that day, when the metric has no row, or posts with a reading
      newer than all its rows; else the account row's value, or zero. */
  lemma BundleShowsRows(rows: seq<AccountRow>, posts: Readings, m: string, start: Day, days: nat, i: nat)
    requires OneRowPerDay(rows) && i < 2 * days
    ensures var v, series := Contiguous(Merged(rows, posts, m, start), start, days)[i], Series(posts(m), start);
      if SupportsPostFallback(m) && start + i in series && (HasMetric(rows, m) ==> PostsAreFresher(rows, posts, m))
      then v == series[start + i]
      else DayShows(rows, m, start + i, v)
  {
    MetricHasDays(rows, m);
    GetIsRow(rows, m, start + i);
    if HasMetric(rows, m) { FresherIff(rows, posts, m); }
  }
}
