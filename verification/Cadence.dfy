/**
 The age-decaying sync cadence of one post: how often its metrics are refreshed, and how
 many refreshes are ever recorded.
 */
module Cadence {
  import opened Common

  const HOUR: int := 3_600_000_000 // microseconds
  const DAY: int := 24 * HOUR

  /** `(max age, interval)`: the first row whose max age exceeds the post's age applies. */
  const POST_SYNC_CADENCE: seq<(Option<int>, Option<int>)> := [
    (Some(DAY), Some(HOUR)),
    (Some(7 * DAY), Some(6 * HOUR)),
    (Some(30 * DAY), Some(DAY)),
    (Some(90 * DAY), Some(7 * DAY)),
    (None, None)]

  /** Sync interval of a post of the given age; None past the ninety-day horizon. */
  function PostSyncInterval(age: int): Option<int> {
    if age < DAY then Some(HOUR)
    else if age < 7 * DAY then Some(6 * HOUR)
    else if age < 30 * DAY then Some(DAY)
    else if age < 90 * DAY then Some(7 * DAY)
    else None
  }

  /** The lookup walks the table and stops at the first row that applies. */
  method LookUpInterval(age: int) returns (interval: Option<int>)
    ensures interval == PostSyncInterval(age)
  {
    var i := 0;
    while i < |POST_SYNC_CADENCE|
      invariant 0 <= i
      invariant (i >= 1 ==> age >= DAY) && (i >= 2 ==> age >= 7 * DAY)
      invariant (i >= 3 ==> age >= 30 * DAY) && (i >= 4 ==> age >= 90 * DAY) && i <= 4
    {
      var (maxAge, every) := POST_SYNC_CADENCE[i];
      if maxAge.None? || age < maxAge.value {
        return every;
      }
      i := i + 1;
    }
    return None;
  }

  // ------------------------------------------------------------------ the platform's window

  /** Days after publication during which a platform's posts are looked at; zero for never. */
  function BackfillDays(platform: string): nat {
    if platform == "tiktok" then 60
    else if platform == "bluesky" || platform == "mastodon" || platform == "linkedin_personal" then 0
    else 90
  }

  /** The per-post loop selects a post of this age. */
  predicate InWindow(platform: string, age: int) {
    BackfillDays(platform) > 0 && age <= BackfillDays(platform) * DAY
  }

  // ------------------------------------------------------------------ due or not

  /** Stored readings of the post: per metric and day, when last captured. */
  type Readings = map<(string, int), Instant>

  /** Metrics the YouTube analytics path writes, left out of the cadence. */
  const YOUTUBE_ANALYTICS_METRICS: set<string> := {"watch_time", "avg_view_pct", "shares"}

  function Excluded(platform: string): set<string> {
    if platform == "youtube" then YOUTUBE_ANALYTICS_METRICS else {}
  }

  function CaptureTimes(readings: Readings, excluded: set<string>): set<Instant> {
    set k | k in readings && k.0 !in excluded :: readings[k]
  }

  function LastCaptured(readings: Readings, excluded: set<string>): Option<Instant> {
    var times := CaptureTimes(readings, excluded);
    if times == {} then None else Some(Greatest(times))
  }

  predicate PostCadenceDue(published: Option<Instant>, readings: Readings, platform: string, now: Instant) {
    published.Some?
    && var cadence := PostSyncInterval(now - published.value);
       cadence.Some?
       && var last := LastCaptured(readings, Excluded(platform));
          last.None? || now - last.value >= cadence.value
  }

  /** Upserts the readings of one sync: the day's row of each metric written. */
  function Upsert(readings: Readings, metrics: set<string>, on: int, now: Instant): Readings {
    readings + map m | m in metrics :: (m, on) := now
  }

  /** A capture of this metric counts for the cadence. */
  ghost predicate Counts(platform: string, metric: string) {
    platform == "youtube" ==> metric != "watch_time" && metric != "avg_view_pct" && metric != "shares"
  }

  /** A post is due exactly when it is published, under ninety days old, and every capture that
      counts is at least an interval of its age ago. */
  lemma DueIff(published: Option<Instant>, readings: Readings, platform: string, now: Instant)
    ensures PostCadenceDue(published, readings, platform, now)
      <==> published.Some? && now - published.value < 90 * DAY
           && forall k :: k in readings && Counts(platform, k.0) ==>
             now - readings[k] >= PostSyncInterval(now - published.value).value
  {
    var times := CaptureTimes(readings, Excluded(platform));
    forall k | k in readings && Counts(platform, k.0) ensures readings[k] in times {}
    if times != {} {
      var k :| k in readings && k.0 !in Excluded(platform) && readings[k] == Greatest(times);
      assert Counts(platform, k.0);
    }
  }

  /** The per-post loop looks at a post of TikTok up to sixty days old, at none of Bluesky, Mastodon
      or personal LinkedIn, and at any other up to ninety, the last moment included. */
  lemma InWindowIff(platform: string, age: int)
    ensures InWindow(platform, age)
      <==> (if platform == "tiktok" then age <= 60 * DAY
            else !(platform in {"bluesky", "mastodon", "linkedin_personal"}) && age <= 90 * DAY)
  {}

  /** The YouTube analytics path, whichever of its metrics it writes, never changes whether a post
      is due, now or later. */
  lemma YouTubePathKeepsDue(published: Option<Instant>, readings: Readings, on: int, t: Instant, now: Instant,
                            writes: set<string>)
    requires writes <= YOUTUBE_ANALYTICS_METRICS
    ensures var after := Upsert(readings, writes, on, t);
      PostCadenceDue(published, after, "youtube", now) == PostCadenceDue(published, readings, "youtube", now)
  {
    var after := Upsert(readings, writes, on, t);
    var ex := Excluded("youtube");
    forall x ensures x in CaptureTimes(after, ex) <==> x in CaptureTimes(readings, ex) {
      if x in CaptureTimes(readings, ex) {
        var k :| k in readings && k.0 !in ex && readings[k] == x;
        assert k in after && after[k] == x;
      }
    }
    assert CaptureTimes(after, ex) == CaptureTimes(readings, ex);
  }

  // ------------------------------------------------------------------ runs

  /** What happens to a post's readings over time. */
  datatype Event =
    | Cron(at: Instant, on: int, writes: set<string>)    // the hourly tick; it syncs only when due
    | Backfill(at: Instant, on: int, writes: set<string>)
    | YouTube(at: Instant, on: int, writes: set<string>) // only its own metrics

  ghost function After(readings: Readings, published: Instant, platform: string, e: Event): Readings {
    match e
    case Cron(at, on, writes) =>
      if InWindow(platform, at - published) && PostCadenceDue(Some(published), readings, platform, at)
      then Upsert(readings, writes, on, at) else readings
    case Backfill(at, on, writes) => Upsert(readings, writes, on, at)
    case YouTube(at, on, writes) => Upsert(readings, writes * YOUTUBE_ANALYTICS_METRICS, on, at)
  }

  /** An event stamps what it writes on its day and nothing else; a tick outside the window, or on a
      post that is not due, does nothing. */
  lemma EventStamps(readings: Readings, published: Instant, platform: string, e: Event, k: (string, int))
    ensures var after := After(readings, published, platform, e);
      var stamped := k.0 in e.writes && k.1 == e.on
        && (e.Cron? ==>
              InWindow(platform, e.at - published) && PostCadenceDue(Some(published), readings, platform, e.at))
        && (e.YouTube? ==> !Counts("youtube", k.0));
      && (k in after <==> k in readings || stamped)
      && (k in after ==> after[k] == if stamped then e.at else readings[k])
  {}

  ghost function ReadingsAfter(published: Instant, platform: string, events: seq<Event>): Readings {
    if events == [] then map[]
    else After(ReadingsAfter(published, platform, events[..|events| - 1]), published, platform, events[|events| - 1])
  }

  /** A tick that found the post in its platform's window and due, and wrote at least one metric
      the cadence looks at. */
  ghost predicate Records(readings: Readings, published: Instant, platform: string, e: Event) {
    e.Cron? && InWindow(platform, e.at - published) && PostCadenceDue(Some(published), readings, platform, e.at)
    && !(e.writes <= Excluded(platform))
  }

  /** Times of the cadence-driven syncs recorded, in order. */
  ghost function Recorded(published: Instant, platform: string, events: seq<Event>): seq<Instant> {
    if events == [] then []
    else
      var n := |events| - 1;
      Recorded(published, platform, events[..n])
      + if Records(ReadingsAfter(published, platform, events[..n]), published, platform, events[n])
        then [events[n].at] else []
  }

  /** One event more. */
  lemma RunOneMore(published: Instant, platform: string, events: seq<Event>, e: Event)
    ensures var readings := ReadingsAfter(published, platform, events);
      && ReadingsAfter(published, platform, events + [e]) == After(readings, published, platform, e)
      && Recorded(published, platform, events + [e])
         == Recorded(published, platform, events) + if Records(readings, published, platform, e) then [e.at] else []
  {
    assert (events + [e])[..|events|] == events;
  }

  /** Events in time order, none before publication. */
  ghost predicate Timed(published: Instant, events: seq<Event>) {
    && (forall i :: 0 <= i < |events| ==> published <= events[i].at)
    && forall i, j :: 0 <= i < j < |events| ==> events[i].at <= events[j].at
  }

  /** Ages at least the later one's interval apart, and none past the horizon. */
  ghost predicate Spaced(published: Instant, times: seq<Instant>) {
    && (forall i :: 0 <= i < |times| ==> published <= times[i] && PostSyncInterval(times[i] - published).Some?)
    && forall i, j :: 0 <= i < |times| && j == i + 1 && j < |times| ==>
      times[j] - times[i] >= PostSyncInterval(times[j] - published).value
  }

  ghost predicate AllInWindow(published: Instant, platform: string, times: seq<Instant>) {
    && (BackfillDays(platform) == 0 ==> times == [])
    && forall i :: 0 <= i < |times| ==> InWindow(platform, times[i] - published)
  }

  /** Readings never get older, and the last recorded sync stays visible to the cadence. */
  ghost predicate Remembers(readings: Readings, platform: string, times: seq<Instant>, now: Instant) {
    && (forall k :: k in readings ==> readings[k] <= now)
    && (times != [] ==>
          LastCaptured(readings, Excluded(platform)).Some?
          && LastCaptured(readings, Excluded(platform)).value >= times[|times| - 1])
  }

  lemma UpsertRemembers(readings: Readings, platform: string, times: seq<Instant>, now: Instant, writes: set<string>,
                        on: int)
    requires Remembers(readings, platform, times, now)
    ensures Remembers(Upsert(readings, writes, on, now), platform, times, now)
    ensures !(writes <= Excluded(platform))
      ==> Remembers(Upsert(readings, writes, on, now), platform, times + [now], now)
  {
    var after, ex := Upsert(readings, writes, on, now), Excluded(platform);
    if times != [] {
      var last := LastCaptured(readings, ex).value;
      var k :| k in readings && k.0 !in ex && readings[k] == last;
      assert k in after && after[k] >= last;
      assert after[k] in CaptureTimes(after, ex);
    }
    if !(writes <= ex) {
      var m :| m in writes && m !in ex;
      assert (m, on) in after && after[(m, on)] == now;
      assert now in CaptureTimes(after, ex);
    }
  }

  lemma SpacedExtends(published: Instant, times: seq<Instant>, readings: Readings, platform: string, now: Instant)
    requires Spaced(published, times) && Remembers(readings, platform, times, now) && published <= now
    requires PostCadenceDue(Some(published), readings, platform, now)
    ensures Spaced(published, times + [now])
  {
    var n := |times|;
    forall i, j | 0 <= i < n + 1 && j == i + 1 && j < n + 1
      ensures (times + [now])[j] - (times + [now])[i] >= PostSyncInterval((times + [now])[j] - published).value
    {
      if j < n { assert times[j] - times[i] >= PostSyncInterval(times[j] - published).value; }
    }
  }

  lemma EventKeepsSpacing(published: Instant, platform: string, readings: Readings, times: seq<Instant>, e: Event)
    requires Spaced(published, times) && Remembers(readings, platform, times, e.at) && published <= e.at
    ensures var more := times + if Records(readings, published, platform, e) then [e.at] else [];
      Spaced(published, more) && Remembers(After(readings, published, platform, e), platform, more, e.at)
  {
    match e {
      case Cron(at, on, writes) =>
        UpsertRemembers(readings, platform, times, at, writes, on);
        if PostCadenceDue(Some(published), readings, platform, at) {
          SpacedExtends(published, times, readings, platform, at);
        }
        assert times + [] == times;
      case Backfill(at, on, writes) =>
        UpsertRemembers(readings, platform, times, at, writes, on);
        assert times + [] == times;
      case YouTube(at, on, writes) =>
        UpsertRemembers(readings, platform, times, at, writes * YOUTUBE_ANALYTICS_METRICS, on);
        assert times + [] == times;
    }
  }

  /** Consecutive recorded syncs are at least the later one's interval apart, and none is
      recorded at ninety days or more, whatever else writes to the post in between. */
  lemma {:induction false} RecordedAreSpaced(published: Instant, platform: string, events: seq<Event>, now: Instant)
    requires Timed(published, events) && forall i :: 0 <= i < |events| ==> events[i].at <= now
    requires published <= now
    ensures Spaced(published, Recorded(published, platform, events))
    ensures Remembers(ReadingsAfter(published, platform, events), platform, Recorded(published, platform, events), now)
  {
    if events != [] {
      var n := |events| - 1;
      RecordedAreSpaced(published, platform, events[..n], events[n].at);
      EventKeepsSpacing(published, platform, ReadingsAfter(published, platform, events[..n]),
                        Recorded(published, platform, events[..n]), events[n]);
      RunOneMore(published, platform, events[..n], events[n]);
      assert events == events[..n] + [events[n]];
    }
  }

  /** Nor is any recorded outside the platform's window. */
  lemma {:induction false} RecordedAreInWindow(published: Instant, platform: string, events: seq<Event>)
    ensures AllInWindow(published, platform, Recorded(published, platform, events))
  {
    if events != [] { RecordedAreInWindow(published, platform, events[..|events| - 1]); }
  }

  // ------------------------------------------------------------------ the lifetime bound

  lemma {:induction false} SpacedIncreases(published: Instant, times: seq<Instant>)
    requires Spaced(published, times)
    ensures Increasing(times)
  {
    if times != [] {
      var n := |times| - 1;
      assert Spaced(published, times[..n]);
      SpacedIncreases(published, times[..n]);
      if n > 0 {
        var m := n - 1;
        assert times[n] - times[m] >= PostSyncInterval(times[n] - published).value;
      }
    }
  }

  /** How many of the first syncs happen before `limit`. */
  lemma Cut(times: seq<Instant>, limit: Instant) returns (c: nat)
    requires Increasing(times)
    ensures c <= |times|
    ensures forall i :: 0 <= i < c ==> times[i] < limit
    ensures forall i :: c <= i < |times| ==> times[i] >= limit
  {
    c := 0;
    while c < |times| && times[c] < limit
      invariant c <= |times| && forall i :: 0 <= i < c ==> times[i] < limit
    {
      c := c + 1;
    }
  }

  /** Within one age band the syncs `i..j` span at least `j - i` intervals. */
  lemma {:induction false} BandSpan(published: Instant, times: seq<Instant>, i: nat, j: nat, interval: int)
    requires Spaced(published, times) && i <= j < |times|
    requires forall k :: i <= k <= j ==> PostSyncInterval(times[k] - published) == Some(interval)
    ensures times[j] - times[i] >= (j - i) * interval
    decreases j
  {
    if i < j {
      var p := j - 1;
      BandSpan(published, times, i, p, interval);
      assert times[j] - times[p] >= PostSyncInterval(times[j] - published).value;
      assert (j - i) * interval == (p - i) * interval + interval;
    }
  }

  lemma Fewer(count: int, slots: int, interval: int)
    requires interval > 0 && count * interval < slots * interval
    ensures count < slots
  {}

  /** Syncs `i..j` that span less than `slots` intervals of their band are at most `slots`. */
  lemma BandFits(published: Instant, times: seq<Instant>, i: nat, j: nat, interval: int, slots: int)
    requires Spaced(published, times) && i < j <= |times| && interval > 0
    requires forall k :: i <= k < j ==> PostSyncInterval(times[k] - published) == Some(interval)
    requires times[j - 1] - times[i] < slots * interval
    ensures j - i <= slots
  {
    BandSpan(published, times, i, j - 1, interval);
    Fewer(j - i - 1, slots, interval);
  }

  /** The age bands of a spaced sequence: syncs below `a`, `b`, `c` and the rest. */
  ghost predicate Banded(published: Instant, times: seq<Instant>, a: nat, b: nat, c: nat) {
    a <= b <= c <= |times|
    && forall k :: 0 <= k < |times| ==> InBand(times[k] - published, a, b, c, k)
  }

  ghost predicate InBand(age: int, a: nat, b: nat, c: nat, k: nat) {
    if k < a then 0 <= age < DAY
    else if k < b then DAY <= age < 7 * DAY
    else if k < c then 7 * DAY <= age < 30 * DAY
    else 30 * DAY <= age < 90 * DAY
  }

  lemma Bands(published: Instant, times: seq<Instant>) returns (a: nat, b: nat, c: nat)
    requires Spaced(published, times)
    ensures Banded(published, times, a, b, c)
  {
    SpacedIncreases(published, times);
    a := Cut(times, published + DAY);
    b := Cut(times, published + 7 * DAY);
    c := Cut(times, published + 30 * DAY);
    assert b < |times| ==> times[b] >= published + 7 * DAY;
    assert c < |times| ==> times[c] >= published + 30 * DAY;
    forall k | 0 <= k < |times| ensures InBand(times[k] - published, a, b, c, k) {
      assert PostSyncInterval(times[k] - published).Some?;
    }
  }

  lemma EarlyBands(published: Instant, times: seq<Instant>, a: nat, b: nat, c: nat)
    requires Spaced(published, times) && Banded(published, times, a, b, c)
    ensures a <= 24 && b - a <= 24 && c - b <= 23
  {
    if a > 0 {
      assert InBand(times[0] - published, a, b, c, 0) && InBand(times[a - 1] - published, a, b, c, a - 1);
      BandFits(published, times, 0, a, HOUR, 24);
    }
    if b > a {
      assert InBand(times[a] - published, a, b, c, a) && InBand(times[b - 1] - published, a, b, c, b - 1);
      BandFits(published, times, a, b, 6 * HOUR, 24);
    }
    if c > b {
      assert InBand(times[b] - published, a, b, c, b) && InBand(times[c - 1] - published, a, b, c, c - 1);
      BandFits(published, times, b, c, DAY, 23);
    }
  }

  /** Nine syncs in the last band leave room for at most twenty in the one before. */
  lemma LateBands(published: Instant, times: seq<Instant>, a: nat, b: nat, c: nat)
    requires Spaced(published, times) && Banded(published, times, a, b, c)
    ensures |times| - c <= 9 && (|times| - c == 9 ==> c - b <= 20)
  {
    var n := |times|;
    if n > c {
      assert InBand(times[c] - published, a, b, c, c) && InBand(times[n - 1] - published, a, b, c, n - 1);
      BandFits(published, times, c, n, 7 * DAY, 9);
      if n - c == 9 && c > b {
        BandSpan(published, times, c, n - 1, 7 * DAY);
        var last := c - 1;
        assert times[c] - times[last] >= PostSyncInterval(times[c] - published).value;
        assert InBand(times[b] - published, a, b, c, b) && InBand(times[last] - published, a, b, c, last);
        BandFits(published, times, b, c, DAY, 20);
      }
    }
  }

  /** Within sixty days the last band holds five syncs at most, and then the one before holds
      at most nineteen. */
  lemma LateBandsOfSixty(published: Instant, times: seq<Instant>, a: nat, b: nat, c: nat)
    requires Spaced(published, times) && Banded(published, times, a, b, c)
    requires forall i :: 0 <= i < |times| ==> times[i] - published <= 60 * DAY
    ensures |times| - c <= 5 && (|times| - c == 5 ==> c - b <= 19)
  {
    var n := |times|;
    if n > c {
      assert InBand(times[c] - published, a, b, c, c) && InBand(times[n - 1] - published, a, b, c, n - 1);
      BandFits(published, times, c, n, 7 * DAY, 5);
      if n - c == 5 && c > b {
        BandSpan(published, times, c, n - 1, 7 * DAY);
        var last := c - 1;
        assert times[c] - times[last] >= PostSyncInterval(times[c] - published).value;
        assert InBand(times[b] - published, a, b, c, b) && InBand(times[last] - published, a, b, c, last);
        BandFits(published, times, b, c, DAY, 19);
      }
    }
  }

  /** The most cadence-driven syncs a post of the platform ever gets. */
  function MaxSyncs(platform: string): nat {
    if BackfillDays(platform) == 0 then 0 else if BackfillDays(platform) == 60 then 75 else 79
  }

  /** No spaced sequence inside the platform's window is longer. By band there are at most
      24 + 24 + 23 + 9 syncs, or 5 in the last for sixty days, but not all four at once. */
  lemma LifetimeSyncBound(published: Instant, platform: string, times: seq<Instant>)
    requires Spaced(published, times) && AllInWindow(published, platform, times)
    ensures |times| <= MaxSyncs(platform)
  {
    if BackfillDays(platform) != 0 {
      var a, b, c := Bands(published, times);
      EarlyBands(published, times, a, b, c);
      if BackfillDays(platform) == 60 {
        LateBandsOfSixty(published, times, a, b, c);
      } else {
        LateBands(published, times, a, b, c);
      }
    }
  }

  // ------------------------------------------------------------------ the bound is reached

  /** The run that ticks at the given times, each tick writing `views`. */
  ghost function Ticks(times: seq<Instant>): (r: seq<Event>)
    ensures |r| == |times| && forall i :: 0 <= i < |r| ==> r[i] == Cron(times[i], 0, {"views"})
  {
    seq(|times|, i requires 0 <= i < |times| => Cron(times[i], 0, {"views"}))
  }

  /** Nothing in the readings is newer than the last tick. */
  ghost predicate NotAfter(readings: Readings, times: seq<Instant>) {
    forall k :: k in readings ==> times != [] && readings[k] <= times[|times| - 1]
  }

  /** Every spaced sequence of instants in the window is what some run records: nothing else
      limits the syncs. */
  lemma {:induction false} SpacedIsRecorded(published: Instant, platform: string, times: seq<Instant>)
    requires Spaced(published, times) && AllInWindow(published, platform, times)
    ensures Recorded(published, platform, Ticks(times)) == times
    ensures NotAfter(ReadingsAfter(published, platform, Ticks(times)), times)
  {
    if times != [] {
      var n := |times| - 1;
      var earlier, tick := Ticks(times[..n]), Cron(times[n], 0, {"views"});
      PrefixIsSpaced(published, platform, times);
      SpacedIsRecorded(published, platform, times[..n]);
      SpacedTickIsDue(published, platform, times, ReadingsAfter(published, platform, earlier));
      assert Ticks(times) == earlier + [tick] && times == times[..n] + [times[n]];
      RunOneMore(published, platform, earlier, tick);
    }
  }

  lemma PrefixIsSpaced(published: Instant, platform: string, times: seq<Instant>)
    requires Spaced(published, times) && AllInWindow(published, platform, times) && times != []
    ensures Spaced(published, times[..|times| - 1]) && AllInWindow(published, platform, times[..|times| - 1])
  {}

  lemma SpacedTickIsDue(published: Instant, platform: string, times: seq<Instant>, readings: Readings)
    requires Spaced(published, times) && AllInWindow(published, platform, times)
    requires times != [] && NotAfter(readings, times[..|times| - 1])
    ensures Records(readings, published, platform, Cron(times[|times| - 1], 0, {"views"}))
    ensures NotAfter(After(readings, published, platform, Cron(times[|times| - 1], 0, {"views"})), times)
  {
    var n := |times| - 1;
    assert "views" !in Excluded(platform);
    if n > 0 {
      var m := n - 1;
      assert times[..n][m] == times[m];
      assert times[n] - times[m] >= PostSyncInterval(times[n] - published).value;
    }
  }

  /** Ages of the densest schedule: hourly for a day, then six-hourly, daily and weekly. */
  function DenseAge(i: nat): int {
    if i < 24 then i * HOUR
    else if i < 48 then (29 + 6 * (i - 24)) * HOUR
    else if i < 71 then (191 + 24 * (i - 48)) * HOUR
    else (887 + 168 * (i - 71)) * HOUR
  }

  lemma DenseIsSpaced(published: Instant, n: nat, times: seq<Instant>)
    requires n <= 79 && |times| == n && forall i :: 0 <= i < n ==> times[i] == published + DenseAge(i)
    ensures Spaced(published, times)
    ensures n <= 75 ==> forall i :: 0 <= i < n ==> times[i] - published <= 60 * DAY
    ensures forall i :: 0 <= i < n ==> times[i] - published <= 90 * DAY
  {
    forall i, j | 0 <= i < n && j == i + 1 && j < n
      ensures times[j] - times[i] >= PostSyncInterval(times[j] - published).value
    {
    }
  }

  /** For every platform there is a run that records as many syncs as the bound allows. */
  lemma LifetimeSyncBoundIsReached(published: Instant, platform: string) returns (events: seq<Event>)
    ensures Timed(published, events) && |Recorded(published, platform, events)| == MaxSyncs(platform)
  {
    var n := MaxSyncs(platform);
    var times := seq(n, i requires 0 <= i < n => published + DenseAge(i));
    DenseIsSpaced(published, n, times);
    SpacedIsRecorded(published, platform, times);
    SpacedIncreases(published, times);
    events := Ticks(times);
    forall i, j | 0 <= i < j < |events| ensures events[i].at <= events[j].at {
      assert times[i] < times[j];
    }
  }

  /** Over any run, whatever else writes to the post, no more cadence-driven syncs than the
      bound are recorded: none, 75 or 79, by the platform's window. */
  lemma LifetimeSyncsAreBounded(published: Instant, platform: string, events: seq<Event>)
    requires Timed(published, events)
    ensures |Recorded(published, platform, events)| <= MaxSyncs(platform)
  {
    var now := if events == [] then published else events[|events| - 1].at;
    RecordedAreSpaced(published, platform, events, now);
    RecordedAreInWindow(published, platform, events);
    LifetimeSyncBound(published, platform, Recorded(published, platform, events));
  }
}
