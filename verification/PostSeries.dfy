/**
 Daily series from cumulative post snapshots: lifetime counters, grouped by post, become
 per-day credits measured against each post's high-water mark.
 */
module PostSeries {
  import opened Common

  type Day = int

  /** One cumulative reading of a post, with the day the post was published. */
  datatype Snapshot = Snapshot(post: int, published: Option<Day>, day: Day, value: real, capturedAt: Option<Instant>)

  /** What the query returns: readings inside the window, ordered by post, then day. */
  ghost predicate Ordered(rows: seq<Snapshot>, start: Day, end: Day) {
    && (forall i :: 0 <= i < |rows| ==> start <= rows[i].day <= end)
    && forall i, j :: 0 <= i < j < |rows| ==> Precedes(rows[i], rows[j])
  }

  ghost predicate Precedes(a: Snapshot, b: Snapshot) {
    a.post < b.post || (a.post == b.post && a.day < b.day && a.published == b.published)
  }

  // ------------------------------------------------------------------ one post

  function Max(a: real, b: real): real { if a < b then b else a }

  /** Highest value among the readings: the mark later readings are measured against. */
  function HighWater(rs: seq<Snapshot>): real
    requires rs != []
  {
    if |rs| == 1 then rs[0].value else Max(HighWater(rs[..|rs| - 1]), rs[|rs| - 1].value)
  }

  /** The post predates the window, so its first reading only anchors the mark. */
  predicate Anchors(r: Snapshot, start: Day) {
    r.published.Some? && r.published.value <= r.day && r.published.value < start
  }

  function Span(a: Day, b: Day): (r: set<Day>)
    ensures forall d :: d in r <==> a <= d <= b
    decreases b - a
  {
    if b < a then {} else Span(a, b - 1) + {b}
  }

  /** Days a post's first reading is spread over, evenly. */
  function FirstDays(r: Snapshot, start: Day): set<Day> {
    if r.published.None? || r.published.value > r.day then {r.day}
    else if r.published.value < start then {}
    else Span(r.published.value, r.day)
  }

  function FirstCredit(r: Snapshot, start: Day, d: Day): real {
    if d !in FirstDays(r, start) then 0.0
    else if r.published.None? || r.published.value > r.day then r.value
    else r.value / (r.day - r.published.value + 1) as real
  }

  /** What one post adds to day `d`: its first reading spread out, then each rise of the mark. */
  function PostCredit(rs: seq<Snapshot>, start: Day, d: Day): real {
    if rs == [] then 0.0
    else if |rs| == 1 then FirstCredit(rs[0], start, d)
    else
      var n := |rs| - 1;
      PostCredit(rs[..n], start, d)
      + if d == rs[n].day && rs[n].value > HighWater(rs[..n]) then rs[n].value - HighWater(rs[..n]) else 0.0
  }

  function PostDays(rs: seq<Snapshot>, start: Day): set<Day> {
    if rs == [] then {}
    else if |rs| == 1 then FirstDays(rs[0], start)
    else
      var n := |rs| - 1;
      PostDays(rs[..n], start) + if rs[n].value > HighWater(rs[..n]) then {rs[n].day} else {}
  }

  // ------------------------------------------------------------------ all posts

  function PostRows(rows: seq<Snapshot>, p: int): seq<Snapshot> {
    if rows == [] then []
    else
      var n := |rows| - 1;
      PostRows(rows[..n], p) + if rows[n].post == p then [rows[n]] else []
  }

  /** The posts read, in order. */
  function PostIds(rows: seq<Snapshot>): seq<int> {
    if rows == [] then []
    else
      var n := |rows| - 1;
      var ids := PostIds(rows[..n]);
      if n > 0 && rows[n - 1].post == rows[n].post then ids else ids + [rows[n].post]
  }

  function Credits(rows: seq<Snapshot>, ids: seq<int>, start: Day, d: Day): real {
    if ids == [] then 0.0
    else
      var n := |ids| - 1;
      Credits(rows, ids[..n], start, d) + PostCredit(PostRows(rows, ids[n]), start, d)
  }

  function Days(rows: seq<Snapshot>, ids: seq<int>, start: Day): set<Day> {
    if ids == [] then {}
    else
      var n := |ids| - 1;
      Days(rows, ids[..n], start) + PostDays(PostRows(rows, ids[n]), start)
  }

  /** The series: every credited day with the sum of what each post adds to it. */
  function Series(rows: seq<Snapshot>, start: Day): map<Day, real> {
    map d | d in Days(rows, PostIds(rows), start) :: Credits(rows, PostIds(rows), start, d)
  }

  function Later(a: Option<Instant>, b: Option<Instant>): Option<Instant> {
    if a.None? then b else if b.None? then a else if a.value < b.value then b else a
  }

  function MaxCaptured(rows: seq<Snapshot>): Option<Instant> {
    if rows == [] then None else Later(MaxCaptured(rows[..|rows| - 1]), rows[|rows| - 1].capturedAt)
  }

  // ------------------------------------------------------------------ the grouped pass

  function Get(m: map<Day, real>, d: Day): real { if d in m then m[d] else 0.0 }

  function Bump(m: map<Day, real>, d: Day, x: real): map<Day, real> { m[d := Get(m, d) + x] }

  /** Credits the first reading of a post, spreading it when the post is born in the window. */
  method CreditFirst(out: map<Day, real>, r: Snapshot, start: Day, end: Day) returns (res: map<Day, real>)
    requires start <= r.day <= end
    ensures res.Keys == out.Keys + FirstDays(r, start)
    ensures forall d :: Get(res, d) == Get(out, d) + FirstCredit(r, start, d)
  {
    res := out;
    if r.published.None? || r.published.value > r.day {
      if start <= r.day <= end {
        res := Bump(res, r.day, r.value);
      }
    } else if r.published.value >= start {
      var pub := r.published.value;
      var perDay := r.value / (r.day - pub + 1) as real;
      var d := pub;
      while d <= r.day
        invariant pub <= d <= r.day + 1
        invariant res.Keys == out.Keys + Span(pub, d - 1)
        invariant forall x :: Get(res, x) == Get(out, x) + if pub <= x < d then perDay else 0.0
      {
        if start <= d <= end {
          res := Bump(res, d, perDay);
        }
        d := d + 1;
      }
    }
  }

  /** What the pass has built from the first `i` rows: the series so far, and the mark of
      the post it is in. */
  ghost predicate PassSoFar(rows: seq<Snapshot>, i: nat, start: Day, out: map<Day, real>, prevValue: real)
    requires i <= |rows|
  {
    && out.Keys == Days(rows[..i], PostIds(rows[..i]), start)
    && (forall d :: Get(out, d) == Credits(rows[..i], PostIds(rows[..i]), start, d))
    && (i > 0 ==> MarkOf(rows[..i], rows[i - 1].post) == Some(prevValue))
  }

  ghost function MarkOf(rows: seq<Snapshot>, p: int): Option<real> {
    if PostRows(rows, p) == [] then None else Some(HighWater(PostRows(rows, p)))
  }

  /** One pass over the ordered rows, carrying the current post's mark. */
  method PostSummedSeries(rows: seq<Snapshot>, start: Day, end: Day)
    returns (out: map<Day, real>, maxCaptured: Option<Instant>)
    requires Ordered(rows, start, end)
    ensures out == Series(rows, start)
    ensures maxCaptured == MaxCaptured(rows)
  {
    out := map[];
    maxCaptured := None;
    PassStarts(rows, start);
    var currentPost: Option<int> := None;
    var prevValue := 0.0;
    var i := 0;
    while i < |rows|
      invariant 0 <= i <= |rows|
      invariant maxCaptured == MaxCaptured(rows[..i])
      invariant currentPost == if i == 0 then None else Some(rows[i - 1].post)
      invariant PassSoFar(rows, i, start, out, prevValue)
    {
      var r := rows[i];
      CapturedOneMore(rows, i);
      if r.capturedAt.Some? && (maxCaptured.None? || r.capturedAt.value > maxCaptured.value) {
        maxCaptured := r.capturedAt;
      }
      out, prevValue := CreditRow(rows, i, start, end, out, currentPost, prevValue);
      currentPost := Some(r.post);
      i := i + 1;
    }
    PassEnds(rows, start, out, prevValue);
    assert rows[..i] == rows;
  }

  /** Credits one row: the first of its post, or a rise of the mark. */
  method CreditRow(rows: seq<Snapshot>, i: nat, start: Day, end: Day, out: map<Day, real>,
                   currentPost: Option<int>, prevValue: real)
    returns (res: map<Day, real>, mark: real)
    requires i < |rows| && Ordered(rows, start, end) && PassSoFar(rows, i, start, out, prevValue)
    requires currentPost == if i == 0 then None else Some(rows[i - 1].post)
    ensures PassSoFar(rows, i + 1, start, res, mark)
  {
    var r := rows[i];
    if currentPost != Some(r.post) {
      res := CreditFirst(out, r, start, end);
      mark := r.value;
      NewPostStep(rows, i, start, end, out, prevValue, res);
    } else {
      SamePostStep(rows, i, start, end, out, prevValue);
      var delta := r.value - prevValue;
      res, mark := out, prevValue;
      if delta > 0.0 {
        res, mark := Bump(out, r.day, delta), r.value;
      }
    }
  }

  lemma PassStarts(rows: seq<Snapshot>, start: Day)
    ensures PassSoFar(rows, 0, start, map[], 0.0) && MaxCaptured(rows[..0]) == None
  {
    assert rows[..0] == [];
  }

  lemma PassEnds(rows: seq<Snapshot>, start: Day, out: map<Day, real>, prevValue: real)
    requires PassSoFar(rows, |rows|, start, out, prevValue)
    ensures out == Series(rows, start)
  {
    assert rows[..|rows|] == rows;
    forall d | d in out ensures out[d] == Credits(rows, PostIds(rows), start, d) {
      assert out[d] == Get(out, d);
    }
  }

  lemma CapturedOneMore(rows: seq<Snapshot>, n: nat)
    requires n < |rows|
    ensures var newest, c := MaxCaptured(rows[..n]), rows[n].capturedAt;
      MaxCaptured(rows[..n + 1]) == if c.Some? && (newest.None? || c.value > newest.value) then c else newest
  {
    assert rows[..n + 1][..n] == rows[..n];
  }

  lemma NewPostStep(rows: seq<Snapshot>, n: nat, start: Day, end: Day, out: map<Day, real>, prevValue: real,
                    credited: map<Day, real>)
    requires n < |rows| && Ordered(rows, start, end) && PassSoFar(rows, n, start, out, prevValue)
    requires n == 0 || rows[n - 1].post != rows[n].post
    requires credited.Keys == out.Keys + FirstDays(rows[n], start)
    requires forall d :: Get(credited, d) == Get(out, d) + FirstCredit(rows[n], start, d)
    ensures PassSoFar(rows, n + 1, start, credited, rows[n].value)
  {
    GroupStarts(rows, n, start, end);
  }

  lemma SamePostStep(rows: seq<Snapshot>, n: nat, start: Day, end: Day, out: map<Day, real>, prevValue: real)
    requires n < |rows| && Ordered(rows, start, end) && PassSoFar(rows, n, start, out, prevValue)
    requires n > 0 && rows[n - 1].post == rows[n].post
    ensures var delta := rows[n].value - prevValue;
      if delta > 0.0 then PassSoFar(rows, n + 1, start, Bump(out, rows[n].day, delta), rows[n].value)
      else PassSoFar(rows, n + 1, start, out, prevValue)
  {
    SamePostGrows(rows, n, start, end);
    var delta := rows[n].value - prevValue;
    if delta > 0.0 {
      var r := Bump(out, rows[n].day, delta);
      assert r.Keys == out.Keys + {rows[n].day};
      assert forall d :: Get(r, d) == Get(out, d) + if d == rows[n].day then delta else 0.0;
    }
  }

  /** Another row of the current post raises its mark, credits its day, or does nothing. */
  lemma SamePostGrows(rows: seq<Snapshot>, n: nat, start: Day, end: Day)
    requires 0 < n < |rows| && Ordered(rows, start, end) && rows[n - 1].post == rows[n].post
    requires MarkOf(rows[..n], rows[n].post).Some?
    ensures var mark, r := MarkOf(rows[..n], rows[n].post).value, rows[n];
      MarkOf(rows[..n + 1], r.post) == Some(if r.value > mark then r.value else mark)
    ensures var mark, r := MarkOf(rows[..n], rows[n].post).value, rows[n];
      Days(rows[..n + 1], PostIds(rows[..n + 1]), start)
      == Days(rows[..n], PostIds(rows[..n]), start) + if r.value > mark then {r.day} else {}
    ensures var mark, r := MarkOf(rows[..n], rows[n].post).value, rows[n];
      forall d :: Credits(rows[..n + 1], PostIds(rows[..n + 1]), start, d)
                  == Credits(rows[..n], PostIds(rows[..n]), start, d)
                     + if d == r.day && r.value > mark then r.value - mark else 0.0
  {
    var rs := PostRows(rows[..n], rows[n].post);
    GroupContinues(rows, n, start, end);
    ReadingAdded(rs, rows[n], start);
    LastPostIncluded(rows, n, start, end);
  }

  lemma LastPostIncluded(rows: seq<Snapshot>, n: nat, start: Day, end: Day)
    requires 0 < n < |rows| && Ordered(rows, start, end) && rows[n - 1].post == rows[n].post
    ensures PostDays(PostRows(rows[..n], rows[n].post), start) <= Days(rows[..n], PostIds(rows[..n]), start)
  {
    PostIdsIncrease(rows[..n], start, end);
  }

  /** One more reading of the same post: the mark, the days and the credits. */
  lemma ReadingAdded(rs: seq<Snapshot>, r: Snapshot, start: Day)
    requires rs != []
    ensures var rise := r.value - HighWater(rs);
      && HighWater(rs + [r]) == (if rise > 0.0 then r.value else HighWater(rs))
      && PostDays(rs + [r], start) == PostDays(rs, start) + (if rise > 0.0 then {r.day} else {})
      && forall d :: PostCredit(rs + [r], start, d)
                     == PostCredit(rs, start, d) + if d == r.day && rise > 0.0 then rise else 0.0
  {
    assert (rs + [r])[..|rs|] == rs;
  }

  // ------------------------------------------------------------------ why one pass suffices

  lemma {:induction false} PostIdsExact(rows: seq<Snapshot>, p: int)
    ensures p in PostIds(rows) <==> exists i :: 0 <= i < |rows| && rows[i].post == p
  {
    if rows != [] {
      var n := |rows| - 1;
      PostIdsExact(rows[..n], p);
      if i :| 0 <= i < n && rows[..n][i].post == p { assert rows[i].post == p; }
      if i :| 0 <= i < n && rows[i].post == p { assert rows[..n][i].post == p; }
      if n > 0 && rows[n - 1].post == rows[n].post { assert rows[..n][n - 1].post == rows[n].post; }
    }
  }

  lemma {:induction false} PostIdsIncrease(rows: seq<Snapshot>, start: Day, end: Day)
    requires Ordered(rows, start, end) && rows != []
    ensures var ids := PostIds(rows);
      ids != [] && ids[|ids| - 1] == rows[|rows| - 1].post && Increasing(ids)
  {
    var n := |rows| - 1;
    if n > 0 {
      assert Precedes(rows[n - 1], rows[n]);
      PostIdsIncrease(rows[..n], start, end);
    }
  }

  lemma {:induction false} PostRowsAbsent(rows: seq<Snapshot>, p: int)
    requires forall i :: 0 <= i < |rows| ==> rows[i].post != p
    ensures PostRows(rows, p) == []
  {
    if rows != [] { PostRowsAbsent(rows[..|rows| - 1], p); }
  }

  lemma {:induction false} OtherPostsUnaffected(rows: seq<Snapshot>, n: nat, ids: seq<int>, start: Day)
    requires n < |rows| && rows[n].post !in ids
    ensures forall d :: Credits(rows[..n + 1], ids, start, d) == Credits(rows[..n], ids, start, d)
    ensures Days(rows[..n + 1], ids, start) == Days(rows[..n], ids, start)
  {
    if ids != [] {
      var m := |ids| - 1;
      assert ids == ids[..m] + [ids[m]];
      OtherPostsUnaffected(rows, n, ids[..m], start);
      assert rows[..n + 1][..n] == rows[..n];
      assert PostRows(rows[..n + 1], ids[m]) == PostRows(rows[..n], ids[m]);
    }
  }

  /** Reading one row more changes the credit of its own post only. */
  lemma GroupContinues(rows: seq<Snapshot>, n: nat, start: Day, end: Day)
    requires 0 < n < |rows| && Ordered(rows, start, end) && rows[n - 1].post == rows[n].post
    ensures var p, before, after := rows[n].post, rows[..n], rows[..n + 1];
      && PostRows(after, p) == PostRows(before, p) + [rows[n]]
      && Days(after, PostIds(after), start)
         == Days(before, PostIds(before), start) + PostDays(PostRows(after, p), start)
      && forall d :: Credits(after, PostIds(after), start, d) == Credits(before, PostIds(before), start, d)
                     + PostCredit(PostRows(after, p), start, d) - PostCredit(PostRows(before, p), start, d)
  {
    var p, before, after := rows[n].post, rows[..n], rows[..n + 1];
    assert after[..n] == before && after[n] == rows[n];
    PostIdsIncrease(before, start, end);
    var ids := PostIds(before);
    var m := |ids| - 1;
    assert PostIds(after) == ids && ids[m] == p;
    assert p !in ids[..m];
    OtherPostsUnaffected(rows, n, ids[..m], start);
    LastGroupDays(before, rows[n], start);
  }

  lemma GroupStarts(rows: seq<Snapshot>, n: nat, start: Day, end: Day)
    requires n < |rows| && Ordered(rows, start, end) && (n == 0 || rows[n - 1].post != rows[n].post)
    ensures var p, before, after := rows[n].post, rows[..n], rows[..n + 1];
      && PostRows(after, p) == [rows[n]] && PostRows(before, p) == []
      && Days(after, PostIds(after), start)
         == Days(before, PostIds(before), start) + PostDays(PostRows(after, p), start)
      && forall d :: Credits(after, PostIds(after), start, d) == Credits(before, PostIds(before), start, d)
                     + PostCredit(PostRows(after, p), start, d) - PostCredit(PostRows(before, p), start, d)
  {
    var p, before, after := rows[n].post, rows[..n], rows[..n + 1];
    assert after[..n] == before && after[n] == rows[n];
    NewPostIsFresh(rows, n, start, end);
    var ids := PostIds(before);
    PostRowsAbsent(before, p);
    PostIdsExact(before, p);
    OtherPostsUnaffected(rows, n, ids, start);
    assert PostIds(after) == ids + [p];
    assert PostIds(after)[..|ids|] == ids;
  }

  lemma NewPostIsFresh(rows: seq<Snapshot>, n: nat, start: Day, end: Day)
    requires n < |rows| && Ordered(rows, start, end) && (n == 0 || rows[n - 1].post != rows[n].post)
    ensures forall i :: 0 <= i < n ==> rows[i].post != rows[n].post
  {
    forall i | 0 <= i < n ensures rows[i].post != rows[n].post {
      assert Precedes(rows[i], rows[n]) && Precedes(rows[n - 1], rows[n]);
      if i < n - 1 { assert Precedes(rows[i], rows[n - 1]); }
    }
  }

  lemma LastGroupDays(before: seq<Snapshot>, r: Snapshot, start: Day)
    requires PostRows(before, r.post) != []
    ensures PostDays(PostRows(before, r.post), start) <= PostDays(PostRows(before, r.post) + [r], start)
  {
    var rs := PostRows(before, r.post);
    assert (rs + [r])[..|rs|] == rs;
  }
}
