/**
 The two readers of account metrics: one metric at a time, and the bulk bundle that
 prefers per-post data when it is fresher than the account rows.
 */
module Bundle {
  import opened Common
  import opened PostSeries

  datatype Kind = Count | Percent | Minutes

  /** The metric catalogue. */
  const METRICS: map<string, Kind> := map[
    "impressions" := Count, "reach" := Count, "views" := Count, "plays" := Count, "likes" := Count,
    "reactions" := Count, "comments" := Count, "replies" := Count, "shares" := Count, "reposts" := Count,
    "saves" := Count, "clicks" := Count, "outbound" := Count, "follows" := Count, "followers" := Count,
    "subscribers" := Count, "watch_time" := Minutes, "avg_view_pct" := Percent, "engagement" := Percent]

  const ACCOUNT_ONLY: set<string> := {"follows", "followers", "subscribers"}
  const POST_FALLBACK_DENYLIST: set<string> := {"reach"}

  /** Metrics whose per-post deltas may be summed. */
  predicate SupportsPostFallback(m: string) {
    m in METRICS && m !in ACCOUNT_ONLY && m !in POST_FALLBACK_DENYLIST && (METRICS[m] == Count || METRICS[m] == Minutes)
  }

  /** One account-level daily value. */
  datatype AccountRow = AccountRow(metric: string, date: Day, value: real, capturedAt: Instant)

  /** Per metric, the post readings the snapshot query returns for the window. */
  type Readings = string -> seq<Snapshot>

  ghost predicate OrderedReadings(posts: Readings, start: Day, end: Day) {
    forall m :: Ordered(posts(m), start, end)
  }

  function ByDay(rows: seq<AccountRow>, m: string): map<Day, real> {
    if rows == [] then map[]
    else
      var n := |rows| - 1;
      var earlier := ByDay(rows[..n], m);
      if rows[n].metric == m then earlier[rows[n].date := rows[n].value] else earlier
  }

  function Captured(rows: seq<AccountRow>, m: string): Option<Instant> {
    if rows == [] then None
    else
      var n := |rows| - 1;
      Later(Captured(rows[..n], m), if rows[n].metric == m then Some(rows[n].capturedAt) else None)
  }

  function AnyCaptured(rows: seq<AccountRow>): Option<Instant> {
    if rows == [] then None else Later(AnyCaptured(rows[..|rows| - 1]), Some(rows[|rows| - 1].capturedAt))
  }

  function Contiguous(values: map<Day, real>, start: Day, days: nat): (r: seq<real>)
    ensures |r| == 2 * days && forall i :: 0 <= i < |r| ==> r[i] == Get(values, start + i)
  {
    seq(2 * days, i => Get(values, start + i))
  }

  // ------------------------------------------------------------------ one metric

  function SeriesFor(rows: seq<AccountRow>, posts: Readings, m: string, start: Day, days: nat): seq<real> {
    var own := ByDay(rows, m);
    Contiguous(if own == map[] && SupportsPostFallback(m) then Series(posts(m), start) else own, start, days)
  }

  method ReadSeries(rows: seq<AccountRow>, posts: Readings, m: string, end: Day, days: nat) returns (out: seq<real>)
    requires OrderedReadings(posts, end - (2 * days - 1), end)
    ensures out == SeriesFor(rows, posts, m, end - (2 * days - 1), days)
  {
    var start := end - (2 * days - 1);
    var byDay: map<Day, real> := map[];
    var i := 0;
    while i < |rows|
      invariant 0 <= i <= |rows| && byDay == ByDay(rows[..i], m)
    {
      assert rows[..i + 1][..i] == rows[..i];
      if rows[i].metric == m {
        byDay := byDay[rows[i].date := rows[i].value];
      }
      i := i + 1;
    }
    assert rows[..i] == rows;
    if byDay == map[] && SupportsPostFallback(m) {
      var fallback, _ := PostSummedSeries(posts(m), start, end);
      byDay := byDay + fallback;
    }
    out := [];
    i := 0;
    while i < 2 * days
      invariant 0 <= i <= 2 * days && |out| == i
      invariant forall j :: 0 <= j < i ==> out[j] == Get(byDay, start + j)
    {
      out := out + [Get(byDay, start + i)];
      i := i + 1;
    }
  }

  // ------------------------------------------------------------------ the bundle

  /** The fallback replaces missing account data, or overlays data it is strictly fresher than. */
  predicate UsesFallback(rows: seq<AccountRow>, posts: Readings, m: string, start: Day) {
    SupportsPostFallback(m) && Series(posts(m), start) != map[]
    && (ByDay(rows, m) == map[] || Fresher(MaxCaptured(posts(m)), Captured(rows, m)))
  }

  predicate Fresher(a: Option<Instant>, b: Option<Instant>) { a.Some? && b.Some? && a.value > b.value }

  function Merged(rows: seq<AccountRow>, posts: Readings, m: string, start: Day): map<Day, real> {
    if UsesFallback(rows, posts, m, start) then ByDay(rows, m) + Series(posts(m), start) else ByDay(rows, m)
  }

  /** Freshness of the account rows and of the fallbacks used for the metrics. */
  function Freshness(rows: seq<AccountRow>, posts: Readings, metrics: seq<string>, start: Day): Option<Instant> {
    if metrics == [] then AnyCaptured(rows)
    else
      var n := |metrics| - 1;
      Later(Freshness(rows, posts, metrics[..n], start),
            if UsesFallback(rows, posts, metrics[n], start) then MaxCaptured(posts(metrics[n])) else None)
  }

  function DaysOf(byMetric: map<string, map<Day, real>>, m: string): map<Day, real> {
    if m in byMetric then byMetric[m] else map[]
  }

  function CapturedOf(captured: map<string, Instant>, m: string): Option<Instant> {
    if m in captured then Some(captured[m]) else None
  }

  /** The rows are filed by metric, with the freshness of each metric. */
  ghost predicate Filed(rows: seq<AccountRow>, byMetric: map<string, map<Day, real>>, captured: map<string, Instant>) {
    forall m: string :: FiledUnder(rows, byMetric, captured, m)
  }

  ghost predicate FiledUnder(rows: seq<AccountRow>, byMetric: map<string, map<Day, real>>,
                             captured: map<string, Instant>, m: string) {
    DaysOf(byMetric, m) == ByDay(rows, m) && CapturedOf(captured, m) == Captured(rows, m)
    && (m in captured <==> ByDay(rows, m) != map[])
  }

  /** Files the account rows by metric, with the freshness of each metric. */
  method FileRows(rows: seq<AccountRow>) returns (byMetric: map<string, map<Day, real>>, captured: map<string, Instant>)
    ensures Filed(rows, byMetric, captured)
  {
    byMetric, captured := map[], map[];
    var i := 0;
    while i < |rows|
      invariant 0 <= i <= |rows|
      invariant Filed(rows[..i], byMetric, captured)
    {
      var r := rows[i];
      ghost var byMetric0, captured0 := byMetric, captured;
      assert FiledUnder(rows[..i], byMetric, captured, r.metric);
      byMetric := byMetric[r.metric := DaysOf(byMetric, r.metric)[r.date := r.value]];
      if r.metric !in captured || r.capturedAt > captured[r.metric] {
        captured := captured[r.metric := r.capturedAt];
      }
      assert rows[..i + 1][..i] == rows[..i];
      forall m: string {:trigger FiledUnder(rows[..i + 1], byMetric, captured, m)}
        ensures FiledUnder(rows[..i + 1], byMetric, captured, m)
      {
        assert FiledUnder(rows[..i], byMetric0, captured0, m);
        assert r.date in ByDay(rows[..i], m)[r.date := r.value];
      }
      i := i + 1;
    }
    assert rows[..i] == rows;
  }

  /** The latest capture over all account rows. */
  method LatestCapture(rows: seq<AccountRow>) returns (newest: Option<Instant>)
    ensures newest == AnyCaptured(rows)
  {
    newest := None;
    var i := 0;
    while i < |rows|
      invariant 0 <= i <= |rows| && newest == AnyCaptured(rows[..i])
    {
      assert rows[..i + 1][..i] == rows[..i];
      if newest.None? || rows[i].capturedAt > newest.value {
        newest := Some(rows[i].capturedAt);
      }
      i := i + 1;
    }
    assert rows[..i] == rows;
  }

  /** Overlays one metric with its post series when that is to be used. */
  method OverlayFallback(posts: Readings, m: string, start: Day, end: Day, own: map<Day, real>,
                         ownCaptured: Option<Instant>, maxCaptured: Option<Instant>, ghost rows: seq<AccountRow>)
    returns (merged: map<Day, real>, newest: Option<Instant>)
    requires OrderedReadings(posts, start, end)
    requires ownCaptured == Captured(rows, m) && (ownCaptured.None? <==> ByDay(rows, m) == map[])
    ensures var used := UsesFallback(rows, posts, m, start);
      && merged == (if used then own + Series(posts(m), start) else own)
      && newest == (if used then Later(maxCaptured, MaxCaptured(posts(m))) else maxCaptured)
  {
    merged, newest := own, maxCaptured;
    if SupportsPostFallback(m) {
      var daily, fallbackCaptured := PostSummedSeries(posts(m), start, end);
      if daily != map[] {
        if ownCaptured.None? || Fresher(fallbackCaptured, ownCaptured) {
          merged := own + daily;
          if fallbackCaptured.Some? && (maxCaptured.None? || fallbackCaptured.value > maxCaptured.value) {
            newest := fallbackCaptured;
          }
        }
      }
    }
  }

  /** The metrics listed are merged with their post series where that is to be used. */
  ghost predicate Overlaid(rows: seq<AccountRow>, posts: Readings, metrics: seq<string>, start: Day,
                           byMetric: map<string, map<Day, real>>) {
    forall m: string :: OverlaidUnder(rows, posts, metrics, start, byMetric, m)
  }

  ghost predicate OverlaidUnder(rows: seq<AccountRow>, posts: Readings, metrics: seq<string>, start: Day,
                                byMetric: map<string, map<Day, real>>, m: string) {
    DaysOf(byMetric, m) == if m in metrics then Merged(rows, posts, m, start) else ByDay(rows, m)
  }

  lemma OverlayTwice(own: map<Day, real>, daily: map<Day, real>)
    ensures own + daily + daily == own + daily
  {}

  /** Overlaying a metric again, if it was listed before, changes nothing. */
  lemma OwnOrOverlaid(rows: seq<AccountRow>, posts: Readings, done: seq<string>, start: Day,
                      byMetric: map<string, map<Day, real>>, m: string)
    requires Overlaid(rows, posts, done, start, byMetric)
    ensures Merged(rows, posts, m, start)
      == if UsesFallback(rows, posts, m, start) then DaysOf(byMetric, m) + Series(posts(m), start)
         else DaysOf(byMetric, m)
  {
    assert OverlaidUnder(rows, posts, done, start, byMetric, m);
    OverlayTwice(ByDay(rows, m), Series(posts(m), start));
  }

  /** One metric more is merged. */
  lemma OverlayOneMore(rows: seq<AccountRow>, posts: Readings, done: seq<string>, start: Day,
                       byMetric: map<string, map<Day, real>>, m: string)
    requires Overlaid(rows, posts, done, start, byMetric)
    ensures Overlaid(rows, posts, done + [m], start, byMetric[m := Merged(rows, posts, m, start)])
  {
    var after := byMetric[m := Merged(rows, posts, m, start)];
    forall x: string {:trigger OverlaidUnder(rows, posts, done + [m], start, after, x)}
      ensures OverlaidUnder(rows, posts, done + [m], start, after, x)
    {
      assert OverlaidUnder(rows, posts, done, start, byMetric, x);
    }
  }

  /** Goes through the platform's metrics, overlaying each where the fallback is to be used. */
  method OverlayMetrics(rows: seq<AccountRow>, posts: Readings, metrics: seq<string>, start: Day, end: Day,
                        filed: map<string, map<Day, real>>, captured: map<string, Instant>)
    returns (byMetric: map<string, map<Day, real>>, newest: Option<Instant>)
    requires OrderedReadings(posts, start, end) && Filed(rows, filed, captured)
    ensures Overlaid(rows, posts, metrics, start, byMetric)
    ensures newest == Freshness(rows, posts, metrics, start)
  {
    byMetric := filed;
    newest := LatestCapture(rows);
    var i := 0;
    forall m: string {:trigger OverlaidUnder(rows, posts, [], start, filed, m)}
      ensures OverlaidUnder(rows, posts, [], start, filed, m)
    {
      assert FiledUnder(rows, filed, captured, m);
    }
    while i < |metrics|
      invariant 0 <= i <= |metrics|
      invariant Overlaid(rows, posts, metrics[..i], start, byMetric)
      invariant newest == Freshness(rows, posts, metrics[..i], start)
    {
      var m := metrics[i];
      ghost var before := byMetric;
      assert FiledUnder(rows, filed, captured, m);
      OwnOrOverlaid(rows, posts, metrics[..i], start, byMetric, m);
      var merged;
      merged, newest := OverlayFallback(posts, m, start, end, DaysOf(byMetric, m), CapturedOf(captured, m), newest,
          rows);
      byMetric := byMetric[m := merged];
      OverlayOneMore(rows, posts, metrics[..i], start, before, m);
      assert metrics[..i + 1] == metrics[..i] + [m];
      i := i + 1;
    }
    assert metrics[..i] == metrics;
  }

  method AccountAnalyticsBundle(rows: seq<AccountRow>, posts: Readings, metrics: seq<string>, end: Day, days: nat)
    returns (seriesMap: map<string, seq<real>>, maxCapturedAt: Option<Instant>)
    requires OrderedReadings(posts, end - (2 * days - 1), end)
    ensures var start := end - (2 * days - 1);
      seriesMap == map m | m in metrics :: Contiguous(Merged(rows, posts, m, start), start, days)
    ensures maxCapturedAt == Freshness(rows, posts, metrics, end - (2 * days - 1))
  {
    var start := end - (2 * days - 1);
    var filed, captured := FileRows(rows);
    var byMetric;
    byMetric, maxCapturedAt := OverlayMetrics(rows, posts, metrics, start, end, filed, captured);
    forall m | m in metrics ensures DaysOf(byMetric, m) == Merged(rows, posts, m, start) {
      assert OverlaidUnder(rows, posts, metrics, start, byMetric, m);
    }
    seriesMap := map m | m in metrics :: Contiguous(DaysOf(byMetric, m), start, days);
  }

  // ------------------------------------------------------------------ the bundle refines the single reads

  /** The bundle's series of a metric is the single read's, except when account rows exist and
      the post data is strictly fresher: then it is the post series laid over the account rows. */
  lemma BundleRefinesSingleReads(rows: seq<AccountRow>, posts: Readings, m: string, start: Day, days: nat)
    ensures var bundle := Contiguous(Merged(rows, posts, m, start), start, days);
      var own, fallback := ByDay(rows, m), Series(posts(m), start);
      if own != map[] && SupportsPostFallback(m) && Fresher(MaxCaptured(posts(m)), Captured(rows, m)) then
        forall i :: 0 <= i < 2 * days ==>
          bundle[i] == if start + i in fallback then fallback[start + i] else SeriesFor(rows, posts, m, start, days)[i]
      else bundle == SeriesFor(rows, posts, m, start, days)
  {
    var own, fallback := ByDay(rows, m), Series(posts(m), start);
    if own == map[] { assert own + fallback == fallback; }
  }

  /** An instant that may set the freshness: an account row's, or a used fallback's. */
  ghost predicate Source(rows: seq<AccountRow>, posts: Readings, metrics: seq<string>, start: Day, x: Instant) {
    || (exists r :: r in rows && r.capturedAt == x)
    || (exists m :: m in metrics && UsesFallback(rows, posts, m, start) && MaxCaptured(posts(m)) == Some(x))
  }

  lemma SourceOneMore(rows: seq<AccountRow>, posts: Readings, metrics: seq<string>, start: Day, x: Instant)
    requires metrics != []
    ensures var n := |metrics| - 1;
      Source(rows, posts, metrics, start, x)
      <==> Source(rows, posts, metrics[..n], start, x)
           || (UsesFallback(rows, posts, metrics[n], start) && MaxCaptured(posts(metrics[n])) == Some(x))
  {
    var n := |metrics| - 1;
    assert metrics == metrics[..n] + [metrics[n]];
  }

  /** The freshness signal is the latest capture over all account rows and over the readings
      of exactly the metrics whose fallback was used. */
  lemma {:induction false} FreshnessIsLatest(rows: seq<AccountRow>, posts: Readings, metrics: seq<string>, start: Day)
    ensures var f := Freshness(rows, posts, metrics, start);
      && (f.Some? ==> Source(rows, posts, metrics, start, f.value))
      && forall x :: Source(rows, posts, metrics, start, x) ==> f.Some? && x <= f.value
  {
    var f := Freshness(rows, posts, metrics, start);
    if metrics == [] {
      AnyCapturedIsLatest(rows);
    } else {
      FreshnessIsLatest(rows, posts, metrics[..|metrics| - 1], start);
      if f.Some? { SourceOneMore(rows, posts, metrics, start, f.value); }
      forall x | Source(rows, posts, metrics, start, x) ensures f.Some? && x <= f.value {
        SourceOneMore(rows, posts, metrics, start, x);
      }
    }
  }

  lemma {:induction false} AnyCapturedIsLatest(rows: seq<AccountRow>)
    ensures var f := AnyCaptured(rows);
      && (f.Some? ==> exists r :: r in rows && r.capturedAt == f.value)
      && forall r :: r in rows ==> f.Some? && r.capturedAt <= f.value
  {
    if rows != [] {
      var n := |rows| - 1;
      AnyCapturedIsLatest(rows[..n]);
      assert rows == rows[..n] + [rows[n]];
      assert rows[n] in rows;
    }
  }
}
