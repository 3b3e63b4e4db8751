/** Conservation laws of the post-summed series. */
module SeriesLaws {
  import opened Common
  import opened PostSeries

  /** Readings of one post on strictly later and later days, none before `start`. */
  ghost predicate Chain(rs: seq<Snapshot>, start: Day) {
    && (forall i :: 0 <= i < |rs| ==> start <= rs[i].day)
    && forall i, j :: 0 <= i < j < |rs| ==> rs[i].day < rs[j].day
  }

  /** Credits of one post summed over the days [a, b]. */
  ghost function PostSum(rs: seq<Snapshot>, start: Day, a: Day, b: Day): real
    decreases b - a
  {
    if b < a then 0.0 else PostSum(rs, start, a, b - 1) + PostCredit(rs, start, b)
  }

  /** Highest reading so far, less a first reading that only anchors. */
  ghost function Credited(rs: seq<Snapshot>, start: Day): real
    requires rs != []
  {
    HighWater(rs) - if Anchors(rs[0], start) then rs[0].value else 0.0
  }

  lemma {:induction false} HighWaterIsMax(rs: seq<Snapshot>)
    requires rs != []
    ensures forall i :: 0 <= i < |rs| ==> rs[i].value <= HighWater(rs)
    ensures exists i :: 0 <= i < |rs| && rs[i].value == HighWater(rs)
  {
    if |rs| > 1 {
      var n := |rs| - 1;
      HighWaterIsMax(rs[..n]);
      var i :| 0 <= i < n && rs[..n][i].value == HighWater(rs[..n]);
      assert rs[i].value == HighWater(rs[..n]);
      assert forall j :: 0 <= j < n ==> rs[j] == rs[..n][j];
    } else {
      assert rs[0].value == HighWater(rs);
    }
  }

  // ------------------------------------------------------------------ one post

  lemma EvenSpread(v: real, n: int)
    requires n > 0
    ensures (n as real) * (v / n as real) == v
  {}

  lemma OneMoreShare(n: int, share: real)
    ensures ((n + 1) as real) * share == (n as real) * share + share
  {}

  /** Days up to `b` that a spread first reading has reached. */
  ghost function Reached(r: Snapshot, b: Day): int
    requires r.published.Some?
  {
    if b < r.published.value then 0 else (if b < r.day then b else r.day) - r.published.value + 1
  }

  lemma {:induction false} SpreadSum(r: Snapshot, start: Day, b: Day, share: real)
    requires r.published.Some? && start <= r.published.value <= r.day
    requires share == r.value / (r.day - r.published.value + 1) as real
    ensures PostSum([r], start, start, b) == (Reached(r, b) as real) * share
    decreases b - start
  {
    if b >= start {
      SpreadSum(r, start, b - 1, share);
      assert PostCredit([r], start, b) == if r.published.value <= b <= r.day then share else 0.0;
      if r.published.value <= b <= r.day {
        OneMoreShare(Reached(r, b - 1), share);
        assert Reached(r, b) == Reached(r, b - 1) + 1;
      } else {
        assert Reached(r, b) == Reached(r, b - 1);
      }
    }
  }

  lemma {:induction false} PointSum(r: Snapshot, start: Day, b: Day)
    requires start <= r.day
    requires r.published.None? || r.published.value > r.day || r.published.value < start
    ensures PostSum([r], start, start, b) == if Anchors(r, start) || b < r.day then 0.0 else r.value
    decreases b - start
  {
    if b >= start { PointSum(r, start, b - 1); }
  }

  /** By its own day the first reading's credits add up to the reading, or to nothing when it
      only anchors. */
  lemma FirstSum(r: Snapshot, start: Day, b: Day)
    requires start <= r.day <= b
    ensures PostSum([r], start, start, b) == if Anchors(r, start) then 0.0 else r.value
  {
    if r.published.Some? && start <= r.published.value <= r.day {
      var n := r.day - r.published.value + 1;
      SpreadSum(r, start, b, r.value / n as real);
      EvenSpread(r.value, n);
    } else {
      PointSum(r, start, b);
    }
  }

  /** What a post's first reading credits to a day: an even share of it from publication to the
      reading, if it was published in the window; all of it to its own day, if it was not published
      by then; nothing, if the post is older than the window. */
  lemma FirstReadingCredit(r: Snapshot, start: Day, d: Day)
    requires start <= r.day
    ensures PostCredit([r], start, d)
      == match r.published
         case None => if d == r.day then r.value else 0.0
         case Some(pub) =>
           if pub > r.day then (if d == r.day then r.value else 0.0)
           else if start <= pub <= d <= r.day then r.value / (r.day - pub + 1) as real
           else 0.0
  {}

  /** What a post credits to a day after its first reading: on the day of a reading its rise above
      the highest before, if there is one; nothing in between. */
  lemma {:induction false} LaterCredit(rs: seq<Snapshot>, start: Day, d: Day)
    requires rs != [] && Chain(rs, start) && d > rs[0].day
    ensures forall i :: 0 < i < |rs| && rs[i].day == d ==>
      PostCredit(rs, start, d) == Max(0.0, rs[i].value - HighWater(rs[..i]))
    ensures (forall i :: 0 < i < |rs| ==> rs[i].day != d) ==> PostCredit(rs, start, d) == 0.0
  {
    if |rs| > 1 {
      var n := |rs| - 1;
      LaterCredit(rs[..n], start, d);
      assert forall i :: 0 < i < n ==> rs[..n][i] == rs[i] && rs[..n][..i] == rs[..i];
    }
  }

  lemma {:induction false} SumGrows(rs: seq<Snapshot>, start: Day, b: Day)
    requires |rs| > 1 && Chain(rs, start)
    ensures var n := |rs| - 1;
      var rise := rs[n].value - HighWater(rs[..n]);
      PostSum(rs, start, start, b)
      == PostSum(rs[..n], start, start, b) + if b >= rs[n].day && rise > 0.0 then rise else 0.0
    decreases b - start
  {
    if b >= start { SumGrows(rs, start, b - 1); }
  }

  lemma {:induction false} SumIgnoresLater(rs: seq<Snapshot>, start: Day, n: nat, b: Day)
    requires 0 < n <= |rs| && Chain(rs, start) && (n < |rs| ==> b < rs[n].day)
    ensures PostSum(rs, start, start, b) == PostSum(rs[..n], start, start, b)
    decreases |rs|
  {
    if n < |rs| {
      var m := |rs| - 1;
      SumGrows(rs, start, b);
      assert b < rs[m].day;
      if n < m { SumIgnoresLater(rs[..m], start, n, b); }
      assert rs[..m][..n] == rs[..n];
    } else {
      assert rs[..n] == rs;
    }
  }

  /** Every unit of a post's mark is credited once: by its last reading the credits add up to
      the mark, less an anchoring first reading. */
  lemma {:induction false} PostIsConserved(rs: seq<Snapshot>, start: Day, b: Day)
    requires rs != [] && Chain(rs, start) && b >= rs[|rs| - 1].day
    ensures PostSum(rs, start, start, b) == Credited(rs, start)
  {
    var n := |rs| - 1;
    if n == 0 {
      assert rs == [rs[0]];
      FirstSum(rs[0], start, b);
    } else {
      SumGrows(rs, start, b);
      PostIsConserved(rs[..n], start, b);
    }
  }

  /** Up to any of its reading days, a post's credits sum to its running maximum. */
  lemma ConservedUpToReading(rs: seq<Snapshot>, start: Day, i: nat)
    requires i < |rs| && Chain(rs, start)
    ensures PostSum(rs, start, start, rs[i].day) == Credited(rs[..i + 1], start)
  {
    SumIgnoresLater(rs, start, i + 1, rs[i].day);
    PostIsConserved(rs[..i + 1], start, rs[i].day);
  }

  // ------------------------------------------------------------------ all posts

  lemma {:induction false} PostRowsExact(rows: seq<Snapshot>, p: int, start: Day, end: Day)
    requires Ordered(rows, start, end)
    ensures Chain(PostRows(rows, p), start)
    ensures forall r :: r in PostRows(rows, p) <==> r in rows && r.post == p
  {
    if rows != [] {
      var n := |rows| - 1;
      PostRowsExact(rows[..n], p, start, end);
      var rs := PostRows(rows[..n], p);
      assert rows == rows[..n] + [rows[n]];
      forall i | 0 <= i < |rs| && rows[n].post == p ensures rs[i].day < rows[n].day {
        assert rs[i] in rows[..n];
        var j :| 0 <= j < n && rows[j] == rs[i];
        assert Precedes(rows[j], rows[n]);
      }
    }
  }

  ghost function SeriesSum(m: map<Day, real>, a: Day, b: Day): real
    decreases b - a
  {
    if b < a then 0.0 else SeriesSum(m, a, b - 1) + Get(m, b)
  }

  /** Sum over posts of what each may credit. */
  ghost function CreditedAll(rows: seq<Snapshot>, ids: seq<int>, start: Day): real {
    if ids == [] then 0.0
    else
      var n := |ids| - 1;
      var rs := PostRows(rows, ids[n]);
      CreditedAll(rows, ids[..n], start) + if rs == [] then 0.0 else Credited(rs, start)
  }

  ghost function CreditsSum(rows: seq<Snapshot>, ids: seq<int>, start: Day, b: Day): real
    decreases b - start
  {
    if b < start then 0.0 else CreditsSum(rows, ids, start, b - 1) + Credits(rows, ids, start, b)
  }

  lemma {:induction false} SumOneMorePost(rows: seq<Snapshot>, ids: seq<int>, start: Day, b: Day)
    requires ids != []
    ensures var n := |ids| - 1;
      CreditsSum(rows, ids, start, b)
      == CreditsSum(rows, ids[..n], start, b) + PostSum(PostRows(rows, ids[n]), start, start, b)
    decreases b - start
  {
    if b >= start { SumOneMorePost(rows, ids, start, b - 1); }
  }

  lemma {:induction false} NoPostsNoSum(rows: seq<Snapshot>, start: Day, b: Day)
    ensures CreditsSum(rows, [], start, b) == 0.0
    decreases b - start
  {
    if b >= start { NoPostsNoSum(rows, start, b - 1); }
  }

  lemma {:induction false} NoRowsNoSum(start: Day, b: Day)
    ensures PostSum([], start, start, b) == 0.0
    decreases b - start
  {
    if b >= start { NoRowsNoSum(start, b - 1); }
  }

  lemma {:induction false} SumsExchange(rows: seq<Snapshot>, ids: seq<int>, start: Day, end: Day)
    requires Ordered(rows, start, end)
    ensures CreditsSum(rows, ids, start, end) == CreditedAll(rows, ids, start)
  {
    if ids == [] {
      NoPostsNoSum(rows, start, end);
    } else {
      var n := |ids| - 1;
      var rs := PostRows(rows, ids[n]);
      SumOneMorePost(rows, ids, start, end);
      SumsExchange(rows, ids[..n], start, end);
      PostRowsExact(rows, ids[n], start, end);
      if rs == [] {
        NoRowsNoSum(start, end);
      } else {
        assert rs[|rs| - 1] in rs;
        PostIsConserved(rs, start, end);
      }
    }
  }

  lemma {:induction false} CreditOutsideDays(rows: seq<Snapshot>, ids: seq<int>, start: Day, d: Day)
    requires d !in Days(rows, ids, start)
    ensures Credits(rows, ids, start, d) == 0.0
  {
    if ids != [] {
      var n := |ids| - 1;
      CreditOutsideDays(rows, ids[..n], start, d);
      PostCreditOutsideDays(PostRows(rows, ids[n]), start, d);
    }
  }

  lemma {:induction false} PostCreditOutsideDays(rs: seq<Snapshot>, start: Day, d: Day)
    requires d !in PostDays(rs, start)
    ensures PostCredit(rs, start, d) == 0.0
  {
    if |rs| > 1 { PostCreditOutsideDays(rs[..|rs| - 1], start, d); }
  }

  lemma {:induction false} SeriesSumIsCreditsSum(rows: seq<Snapshot>, start: Day, b: Day)
    ensures SeriesSum(Series(rows, start), start, b) == CreditsSum(rows, PostIds(rows), start, b)
    decreases b - start
  {
    if b >= start {
      SeriesSumIsCreditsSum(rows, start, b - 1);
      if b !in Series(rows, start) { CreditOutsideDays(rows, PostIds(rows), start, b); }
    }
  }

  /** Conservation for the account: the window's series sums to the posts' marks, less the
      first readings of posts older than the window. */
  lemma SeriesIsConserved(rows: seq<Snapshot>, start: Day, end: Day)
    requires Ordered(rows, start, end)
    ensures SeriesSum(Series(rows, start), start, end) == CreditedAll(rows, PostIds(rows), start)
  {
    SeriesSumIsCreditsSum(rows, start, end);
    SumsExchange(rows, PostIds(rows), start, end);
  }

  // ------------------------------------------------------------------ sign and window

  lemma {:induction false} PostCreditBounds(rs: seq<Snapshot>, start: Day, end: Day, d: Day)
    requires forall r :: r in rs ==> start <= r.day <= end && r.value >= 0.0
    ensures PostCredit(rs, start, d) >= 0.0
    ensures d in PostDays(rs, start) ==> start <= d <= end
  {
    if |rs| == 1 {
      assert rs[0] in rs;
      var r := rs[0];
      if r.published.Some? && start <= r.published.value <= r.day {
        var n := (r.day - r.published.value + 1) as real;
        assert r.value / n >= 0.0;
      }
    } else if |rs| > 1 {
      assert rs[|rs| - 1] in rs;
      PostCreditBounds(rs[..|rs| - 1], start, end, d);
    }
  }

  lemma {:induction false} CreditsBounds(rows: seq<Snapshot>, ids: seq<int>, start: Day, end: Day, d: Day)
    requires Ordered(rows, start, end) && forall r :: r in rows ==> r.value >= 0.0
    ensures Credits(rows, ids, start, d) >= 0.0
    ensures d in Days(rows, ids, start) ==> start <= d <= end
  {
    if ids != [] {
      var n := |ids| - 1;
      CreditsBounds(rows, ids[..n], start, end, d);
      PostRowsExact(rows, ids[n], start, end);
      PostCreditBounds(PostRows(rows, ids[n]), start, end, d);
    }
  }

  /** With non-negative readings every daily credit is non-negative and inside the window. */
  lemma SeriesIsNonNegative(rows: seq<Snapshot>, start: Day, end: Day, d: Day)
    requires Ordered(rows, start, end) && forall r :: r in rows ==> r.value >= 0.0
    requires d in Series(rows, start)
    ensures start <= d <= end && Series(rows, start)[d] >= 0.0
  {
    CreditsBounds(rows, PostIds(rows), start, end, d);
  }

  lemma {:induction false} MaxCapturedIsMax(rows: seq<Snapshot>, i: nat)
    requires i < |rows| && rows[i].capturedAt.Some?
    ensures MaxCaptured(rows).Some? && rows[i].capturedAt.value <= MaxCaptured(rows).value
    ensures exists j :: 0 <= j < |rows| && rows[j].capturedAt == MaxCaptured(rows)
  {
    var n := |rows| - 1;
    if i < n {
      MaxCapturedIsMax(rows[..n], i);
      var j :| 0 <= j < n && rows[..n][j].capturedAt == MaxCaptured(rows[..n]);
      assert rows[j].capturedAt == MaxCaptured(rows[..n]);
      assert rows[n].capturedAt == rows[n].capturedAt;
    } else {
      MaxCapturedAttained(rows);
    }
  }

  lemma {:induction false} MaxCapturedAttained(rows: seq<Snapshot>)
    requires MaxCaptured(rows).Some?
    ensures exists j :: 0 <= j < |rows| && rows[j].capturedAt == MaxCaptured(rows)
  {
    var n := |rows| - 1;
    if MaxCaptured(rows[..n]) == MaxCaptured(rows) {
      MaxCapturedAttained(rows[..n]);
      var j :| 0 <= j < n && rows[..n][j].capturedAt == MaxCaptured(rows);
      assert rows[j].capturedAt == MaxCaptured(rows);
    } else {
      assert rows[n].capturedAt == MaxCaptured(rows);
    }
  }
}
