/** Rolling creation quota of one account over twenty-four hours. */
module Quota {
  import opened Common
  import opened Store

  const SECOND: int := 1_000_000 // microseconds
  const WINDOW: int := 86_400_000_000

  const PLATFORM_DAILY_POST_LIMIT: map<string, nat> := map[
    "linkedin_personal" := 100, "linkedin_company" := 100, "facebook" := 200, "instagram" := 25,
    "instagram_login" := 25, "tiktok" := 15, "youtube" := 50, "pinterest" := 100, "threads" := 250,
    "mastodon" := 200, "bluesky" := 200, "google_business" := 50]

  const DEFAULT_FALLBACK: nat := 50

  /** Per-account override, zero included, else the platform's default, else the fallback. */
  function ResolvePlatformLimit(override: Option<nat>, platform: string): nat {
    if override.Some? then override.value
    else if platform in PLATFORM_DAILY_POST_LIMIT then PLATFORM_DAILY_POST_LIMIT[platform]
    else DEFAULT_FALLBACK
  }

  /** Statuses that spend the platform's budget. */
  predicate Consumes(s: Status) { s == Scheduled || s == Publishing || s == Published || s == Failed }

  type RowId = int

  /** A child row of the account; `enteredAt` is when it last became budget-consuming. */
  datatype Row = Row(status: Status, enteredAt: Instant, updatedAt: Instant)

  type Rows = map<RowId, Row>

  function Recent(rows: Rows, now: Instant): set<RowId> {
    set r | r in rows && Consumes(rows[r].status) && rows[r].updatedAt >= now - WINDOW
  }

  function CountRecentCreations(rows: Rows, now: Instant): nat { |Recent(rows, now)| }

  function UpdateTimes(rows: Rows, ids: set<RowId>): set<Instant> {
    set r | r in ids && r in rows :: rows[r].updatedAt
  }

  /** None lets the request pass; otherwise the seconds the client is told to wait. */
  function CheckPlatformQuota(limit: nat, rows: Rows, now: Instant): Option<nat> {
    var recent := Recent(rows, now);
    if |recent| < limit then None
    else
      var times := UpdateTimes(rows, recent);
      if times == {} then Some(60)
      else
        var remaining := Least(times) + WINDOW - now;
        Some(if remaining < SECOND then 1 else remaining / SECOND)
  }

  /** The rows touched within the last day that are scheduled, at the publisher, published or failed. */
  ghost function Spending(rows: Rows, now: Instant): set<RowId> {
    set r | r in rows && rows[r].status in {Scheduled, Publishing, Published, Failed}
            && now <= rows[r].updatedAt + WINDOW
  }

  /** A request passes exactly while fewer rows than the account's limit spend budget: its own
      limit, whatever the platform, when it has one; else the platform's, at most 250, or fifty for a
      platform not listed. */
  lemma PassesIff(override: Option<nat>, platform: string, rows: Rows, now: Instant)
    ensures var limit := ResolvePlatformLimit(override, platform);
      && (CheckPlatformQuota(limit, rows, now).None? <==> |Spending(rows, now)| < limit)
      && (override.Some? ==> limit == override.value)
      && (override.None? ==> if platform in PLATFORM_DAILY_POST_LIMIT then limit == PLATFORM_DAILY_POST_LIMIT[platform]
                             else limit == 50)
      && (override.None? ==> 0 < limit <= 250)
  {
    forall r ensures r in Recent(rows, now) <==> r in Spending(rows, now) {}
    assert Recent(rows, now) == Spending(rows, now);
    PlatformLimitsAreBounded(platform);
  }

  lemma PlatformLimitsAreBounded(platform: string)
    ensures 0 < ResolvePlatformLimit(None, platform) <= 250
  {
    var limits := PLATFORM_DAILY_POST_LIMIT;
    assert forall p :: p in limits ==> 0 < limits[p] <= 250;
  }

  // ------------------------------------------------------------------ the rolling bound

  type PassId = int

  /** `passes` are the requests that passed the check and have not used or dropped it yet: the
      check and the entry are separate steps. */
  datatype System = System(now: Instant, rows: Rows, passes: set<PassId>)

  datatype Action =
    | Pass(p: PassId)                              // a request passes the check
    | Enter(p: PassId, r: RowId, status: Status)   // it creates a row, or moves a draft on
    | Drop(p: PassId)                              // it fails in between
    | Edit(r: RowId, status: Status, touch: bool)  // any other change; most move updated_at
    | Advance(t: Instant)

  predicate ConsumesNow(s: System, r: RowId) { r in s.rows && Consumes(s.rows[r].status) }

  /** Entering a consuming status takes a pass; edits do not enter one. */
  predicate Enabled(limit: nat, s: System, a: Action) {
    match a
    case Pass(p) => p !in s.passes && CheckPlatformQuota(limit, s.rows, s.now).None?
    case Enter(p, r, status) => p in s.passes && !ConsumesNow(s, r) && Consumes(status)
    case Drop(p) => p in s.passes
    case Edit(r, status, _) => r in s.rows && (Consumes(status) ==> ConsumesNow(s, r))
    case Advance(t) => s.now <= t
  }

  function Next(s: System, a: Action): System {
    match a
    case Pass(p) => s.(passes := s.passes + {p})
    case Enter(p, r, status) => s.(rows := s.rows[r := Row(status, s.now, s.now)], passes := s.passes - {p})
    case Drop(p) => s.(passes := s.passes - {p})
    case Edit(r, status, touch) =>
      if r in s.rows then
        s.(rows := s.rows[r := s.rows[r].(status := status, updatedAt := if touch then s.now else s.rows[r].updatedAt)])
      else s
    case Advance(t) => s.(now := t)
  }

  /** Rows consuming now that entered within the window. */
  function Spent(s: System): set<RowId> {
    set r | r in s.rows && Consumes(s.rows[r].status) && s.rows[r].enteredAt >= s.now - WINDOW
  }

  ghost predicate Dated(s: System) {
    forall r :: r in s.rows ==> s.rows[r].enteredAt <= s.rows[r].updatedAt <= s.now
  }

  /** Budget spent and budget promised, when at most `overlap` passes are ever out at once. */
  ghost predicate Inv(limit: nat, overlap: nat, s: System) {
    Dated(s) && |Spent(s)| + |s.passes| < limit + overlap
  }

  /** A step keeps the bound, as long as it leaves no more than `overlap` passes out. */
  lemma StepKeepsInv(limit: nat, overlap: nat, s: System, a: Action)
    requires Inv(limit, overlap, s) && Enabled(limit, s, a) && |Next(s, a).passes| <= overlap
    ensures Inv(limit, overlap, Next(s, a))
  {
    if a.Pass? { SpentIsRecent(s); }
    if a.Enter? { EnterSpendsOne(s, a.p, a.r, a.status); } else { OthersSpendNothing(limit, s, a); }
  }

  lemma EnterSpendsOne(s: System, p: PassId, r: RowId, status: Status)
    requires p in s.passes && !ConsumesNow(s, r) && Consumes(status)
    ensures |Spent(Next(s, Enter(p, r, status)))| == |Spent(s)| + 1
  {
    assert Spent(Next(s, Enter(p, r, status))) == Spent(s) + {r};
  }

  lemma OthersSpendNothing(limit: nat, s: System, a: Action)
    requires Enabled(limit, s, a) && !a.Enter?
    ensures |Spent(Next(s, a))| <= |Spent(s)|
  {
    assert forall x :: x in Spent(Next(s, a)) ==> x in Spent(s);
    SubsetCardinality(Spent(Next(s, a)), Spent(s));
  }

  /** The check counts every row that still matters, and perhaps more. */
  lemma SpentIsRecent(s: System)
    requires Dated(s)
    ensures Spent(s) <= Recent(s.rows, s.now) && |Spent(s)| <= CountRecentCreations(s.rows, s.now)
  {
    forall r | r in Spent(s) ensures r in Recent(s.rows, s.now) {
      assert s.rows[r].enteredAt <= s.rows[r].updatedAt;
    }
    SubsetCardinality(Spent(s), Recent(s.rows, s.now));
  }

  ghost predicate IsRun(limit: nat, overlap: nat, states: seq<System>, actions: seq<Action>) {
    |states| == |actions| + 1
    && (forall i :: 0 <= i < |actions| ==>
          Enabled(limit, states[i], actions[i]) && states[i + 1] == Next(states[i], actions[i]))
    && forall i :: 0 <= i < |states| ==> |states[i].passes| <= overlap
  }

  lemma {:induction false} RunKeepsInv(limit: nat, overlap: nat, states: seq<System>, actions: seq<Action>, n: nat)
    requires IsRun(limit, overlap, states, actions) && Inv(limit, overlap, states[0]) && n < |states|
    ensures Inv(limit, overlap, states[n])
  {
    if n > 0 {
      RunKeepsInv(limit, overlap, states, actions, n - 1);
      assert states[n] == Next(states[n - 1], actions[n - 1]);
      StepKeepsInv(limit, overlap, states[n - 1], actions[n - 1]);
    }
  }

  /** However requests interleave, the rows consuming budget that entered within the last day
      exceed the limit by less than the passes ever out at once, whatever edits happen. */
  lemma OverlapBoundsExcess(limit: nat, overlap: nat, states: seq<System>, actions: seq<Action>, n: nat)
    requires IsRun(limit, overlap, states, actions) && Inv(limit, overlap, states[0]) && n < |states|
    ensures |Spent(states[n])| < limit + overlap
  {
    RunKeepsInv(limit, overlap, states, actions, n);
  }

  /** So one request at a time, check and entry together, keeps the limit itself. */
  lemma RollingQuotaHolds(limit: nat, states: seq<System>, actions: seq<Action>, n: nat)
    requires IsRun(limit, 1, states, actions) && n < |states|
    requires Dated(states[0]) && states[0].passes == {} && |Spent(states[0])| <= limit
    ensures |Spent(states[n])| <= limit
  {
    OverlapBoundsExcess(limit, 1, states, actions, n);
  }

  /** A request that fails between check and entry leaves no trace. */
  lemma DropUndoesPass(limit: nat, s: System, p: PassId)
    requires Enabled(limit, s, Pass(p))
    ensures Enabled(limit, Next(s, Pass(p)), Drop(p)) && Next(Next(s, Pass(p)), Drop(p)) == s
  {
    assert s.passes + {p} - {p} == s.passes;
  }

  /** The check counts touches, not entries: a row stays counted for a day after an edit that moves
      `updated_at`, but for no longer than before after one that does not, or that makes it a draft. */
  lemma TouchProlongs(s: System, r: RowId, status: Status, touch: bool, t: Instant)
    requires r in s.rows && s.now <= t
    ensures var later := Next(Next(s, Edit(r, status, touch)), Advance(t));
      && later.now == t
      && (r in Recent(later.rows, t) <==>
            Consumes(status) && t <= (if touch then s.now else s.rows[r].updatedAt) + WINDOW)
      && Recent(later.rows, t) - {r} == Recent(s.rows, t) - {r}
  {}

  // ------------------------------------------------------------------ the excess is reached

  function Below(n: nat): (r: set<int>)
    ensures |r| == n && forall i :: i in r <==> 0 <= i < n
  {
    if n == 0 then {} else Below(n - 1) + {n - 1}
  }

  function From(first: nat, n: nat): (r: seq<int>)
    ensures |r| == n && forall i :: 0 <= i < n ==> r[i] == first + i
  {
    if n == 0 then [] else From(first, n - 1) + [first + n - 1]
  }

  lemma RunExtends(limit: nat, overlap: nat, states: seq<System>, actions: seq<Action>, a: Action)
    requires IsRun(limit, overlap, states, actions) && Enabled(limit, states[|actions|], a)
    requires |Next(states[|actions|], a).passes| <= overlap
    ensures IsRun(limit, overlap, states + [Next(states[|actions|], a)], actions + [a])
  {}

  /** Passes handed out in one state, none used yet. */
  lemma {:induction false} PassTogether(limit: nat, overlap: nat, s: System, n: nat)
      returns (states: seq<System>, actions: seq<Action>)
    requires s.passes == {} && CheckPlatformQuota(limit, s.rows, s.now).None? && n <= overlap
    ensures IsRun(limit, overlap, states, actions) && |actions| == n && states[0] == s
    ensures states[n] == s.(passes := Below(n))
  {
    if n == 0 {
      states, actions := [s], [];
    } else {
      states, actions := PassTogether(limit, overlap, s, n - 1);
      RunExtends(limit, overlap, states, actions, Pass(n - 1));
      states, actions := states + [s.(passes := Below(n))], actions + [Pass(n - 1)];
    }
  }

  /** Those passes used one after the other, each for a row of its own. */
  lemma {:induction false} EnterTogether(limit: nat, overlap: nat, states: seq<System>, actions: seq<Action>,
                                         rows: seq<RowId>, n: nat)
      returns (more: seq<System>, acts: seq<Action>)
    requires IsRun(limit, overlap, states, actions) && n <= |rows| && Distinct(rows)
    requires states[|actions|].passes == Below(n)
    requires forall i :: 0 <= i < n ==> !ConsumesNow(states[|actions|], rows[i])
    ensures IsRun(limit, overlap, more, acts) && more[0] == states[0]
    ensures |Spent(more[|acts|])| == |Spent(states[|actions|])| + n
    decreases n
  {
    more, acts := states, actions;
    if n > 0 {
      var last := states[|actions|];
      var enter := Enter(n - 1, rows[n - 1], Scheduled);
      var next := Next(last, enter);
      assert Below(n) - {n - 1} == Below(n - 1);
      assert |states[|actions|].passes| <= overlap;
      RunExtends(limit, overlap, states, actions, enter);
      EnterSpendsOne(last, n - 1, rows[n - 1], Scheduled);
      assert forall i :: 0 <= i < n - 1 ==> rows[i] != rows[n - 1];
      more, acts := EnterTogether(limit, overlap, states + [next], actions + [enter], rows, n - 1);
    }
  }

  /** Rows that all passed the check in one state, each entering on its own pass: afterwards
      the limit holds exactly when there was room for all of them together. */
  lemma PassedTogetherHoldIff(limit: nat, s: System, rows: seq<RowId>)
      returns (states: seq<System>, actions: seq<Action>)
    requires Dated(s) && s.passes == {} && CheckPlatformQuota(limit, s.rows, s.now).None?
    requires Distinct(rows) && forall i :: 0 <= i < |rows| ==> !ConsumesNow(s, rows[i])
    ensures IsRun(limit, |rows|, states, actions) && states[0] == s
    ensures |Spent(states[|actions|])| <= limit <==> |Spent(s)| + |rows| <= limit
  {
    states, actions := PassTogether(limit, |rows|, s, |rows|);
    assert Spent(states[|rows|]) == Spent(s);
    states, actions := EnterTogether(limit, |rows|, states, actions, rows, |rows|);
  }

  /** The bound on the excess is exact: for every positive limit and overlap some run that
      starts within the limit comes to one less than their sum. */
  lemma ExcessIsReached(limit: nat, overlap: nat) returns (states: seq<System>, actions: seq<Action>)
    requires limit > 0 && overlap > 0
    ensures IsRun(limit, overlap, states, actions) && Inv(limit, overlap, states[0])
    ensures |Spent(states[0])| < limit && states[0].passes == {}
    ensures |Spent(states[|actions|])| == limit + overlap - 1
  {
    var ids := Below(limit - 1);
    var s := System(0, map r | r in ids :: Row(Scheduled, 0, 0), {});
    assert Spent(s) == ids && Recent(s.rows, 0) == ids;
    states, actions := PassTogether(limit, overlap, s, overlap);
    assert Spent(states[overlap]) == Spent(s);
    states, actions := EnterTogether(limit, overlap, states, actions, From(limit, overlap), overlap);
  }

  // ------------------------------------------------------------------ retry advice

  lemma OldestIsRecent(rows: Rows, now: Instant) returns (r: RowId)
    requires Recent(rows, now) != {}
    ensures UpdateTimes(rows, Recent(rows, now)) != {}
    ensures r in Recent(rows, now) && rows[r].updatedAt == Least(UpdateTimes(rows, Recent(rows, now)))
    ensures forall o :: o in Recent(rows, now) ==> rows[r].updatedAt <= rows[o].updatedAt
  {
    var some := Pick(Recent(rows, now));
    var times := UpdateTimes(rows, Recent(rows, now));
    assert rows[some].updatedAt in times;
    r :| r in Recent(rows, now) && rows[r].updatedAt == Least(times);
    assert IsLeast(Least(times), times);
    forall o | o in Recent(rows, now) ensures rows[r].updatedAt <= rows[o].updatedAt {
      assert rows[o].updatedAt in times;
    }
  }

  /** Exactly at a positive limit, with no further activity, waiting one second more than the
      advice is always enough. */
  lemma RetryAfterPlusOnePasses(limit: nat, rows: Rows, now: Instant, later: Instant)
    requires limit > 0 && CountRecentCreations(rows, now) == limit
    requires later >= now + (CheckPlatformQuota(limit, rows, now).value + 1) * SECOND
    ensures CheckPlatformQuota(limit, rows, later).None?
  {
    var r := OldestIsRecent(rows, now);
    var remaining := rows[r].updatedAt + WINDOW - now;
    assert remaining < (CheckPlatformQuota(limit, rows, now).value + 1) * SECOND;
    assert Recent(rows, later) <= Recent(rows, now) - {r};
    SubsetCardinality(Recent(rows, later), Recent(rows, now) - {r});
  }

  /** The advice alone is enough exactly when the oldest row has less than a second to go:
      whole seconds are truncated, so otherwise the row is still inside the window. */
  lemma RetryAfterAlonePassesIff(limit: nat, rows: Rows, now: Instant)
    requires limit > 0 && CountRecentCreations(rows, now) == limit
    ensures UpdateTimes(rows, Recent(rows, now)) != {}
    ensures CheckPlatformQuota(limit, rows, now + CheckPlatformQuota(limit, rows, now).value * SECOND).None?
      <==> Least(UpdateTimes(rows, Recent(rows, now))) + WINDOW - now < SECOND
  {
    var r := OldestIsRecent(rows, now);
    var remaining := rows[r].updatedAt + WINDOW - now;
    var later := now + CheckPlatformQuota(limit, rows, now).value * SECOND;
    if remaining < SECOND {
      assert Recent(rows, later) <= Recent(rows, now) - {r};
      SubsetCardinality(Recent(rows, later), Recent(rows, now) - {r});
    } else {
      assert now <= later <= now + remaining;
      forall o ensures o in Recent(rows, later) <==> o in Recent(rows, now) {
        if o in Recent(rows, now) { assert rows[r].updatedAt <= rows[o].updatedAt; }
      }
      assert Recent(rows, later) == Recent(rows, now);
    }
  }

  // ------------------------------------------------------------------ the limit of an account

  /** An account is locked out for good, however long it waits, exactly when its override is
      zero: the override is honoured, and no platform's own limit is zero. */
  lemma LockedOutIff(override: Option<nat>, platform: string, s: System)
    requires Dated(s)
    ensures (forall later :: later >= s.now ==>
               CheckPlatformQuota(ResolvePlatformLimit(override, platform), s.rows, later).Some?)
      <==> override == Some(0)
  {
    var limit := ResolvePlatformLimit(override, platform);
    PlatformLimitsAreBounded(platform);
    if limit > 0 {
      var later := s.now + WINDOW + 1;
      forall r | r in s.rows ensures r !in Recent(s.rows, later) {
        assert s.rows[r].updatedAt <= s.now;
      }
      assert Recent(s.rows, later) == {};
      assert CheckPlatformQuota(limit, s.rows, later).None?;
    }
  }
}
