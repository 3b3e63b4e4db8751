/**
 Engagement rate over a window: interactions summed over metrics and days, as a
 percentage of a reach-like denominator, with a daily sparkline. Values are unrounded.
 */
module Engagement {
  import opened Common

  const ENGAGEMENT_PARTS: seq<string> :=
    ["likes", "reactions", "comments", "replies", "shares", "reposts", "saves", "clicks", "outbound"]

  const ENGAGEMENT_DENOMINATORS: seq<string> := ["views", "reach", "impressions", "plays"]

  /** The fetched series, keyed by metric, in the order they were stored. */
  type SeriesMap = seq<(string, seq<real>)>

  datatype Derived = Derived(value: real, delta: real, series: seq<real>)

  function Sum(s: seq<real>): real {
    if s == [] then 0.0 else Sum(s[..|s| - 1]) + s[|s| - 1]
  }

  /** The last `n` values; all of them when `n` is zero, as a slice from -0 is. */
  function Tail(s: seq<real>, n: nat): seq<real> {
    if n == 0 || |s| <= n then s else s[|s| - n..]
  }

  /** The `n` values before the last `n`. */
  function Previous(s: seq<real>, n: nat): seq<real> {
    if |s| <= n || n == 0 then [] else s[if |s| <= 2 * n then 0 else |s| - 2 * n..|s| - n]
  }

  function Values(series: SeriesMap, key: string): seq<real> {
    if series == [] then []
    else if series[0].0 == key then series[0].1
    else Values(series[1..], key)
  }

  predicate Has(series: SeriesMap, key: string) {
    exists i :: 0 <= i < |series| && series[i].0 == key
  }

  // ------------------------------------------------------------------ period deltas

  datatype Kind = Total | Average

  function Mean(s: seq<real>): real { if s == [] then 0.0 else Sum(s) / |s| as real }

  /** Percentage change from one period to the next; none from zero. */
  function Change(prev: real, cur: real): real { if prev != 0.0 then (cur - prev) / prev * 100.0 else 0.0 }

  /** Reduces a daily series to its current value, the change from the previous period, and
      the current sparkline. */
  function Derive(values: seq<real>, days: nat, kind: Kind): Derived {
    var cur, prev := Tail(values, days), Previous(values, days);
    var curVal := if kind == Average then Mean(cur) else Sum(cur);
    var prevVal := if kind == Average then Mean(prev) else Sum(prev);
    Derived(curVal, Change(prevVal, curVal), cur)
  }

  // ------------------------------------------------------------------ engagement rate

  function PartSeries(series: SeriesMap, days: nat): seq<seq<real>> {
    if series == [] then []
    else
      (if series[0].0 in ENGAGEMENT_PARTS then [Tail(series[0].1, 2 * days)] else [])
      + PartSeries(series[1..], days)
  }

  function MaxLength(parts: seq<seq<real>>): nat {
    if parts == [] then 0
    else
      var n := MaxLength(parts[1..]);
      if |parts[0]| > n then |parts[0]| else n
  }

  /** Sum over the parts at one index; a shorter series is padded with zeros at its end. */
  function SumAt(parts: seq<seq<real>>, i: nat): real {
    if parts == [] then 0.0 else (if i < |parts[0]| then parts[0][i] else 0.0) + SumAt(parts[1..], i)
  }

  function PartsPerDay(series: SeriesMap, days: nat): (r: seq<real>)
    ensures |r| == MaxLength(PartSeries(series, days))
    ensures forall i :: 0 <= i < |r| ==> r[i] == SumAt(PartSeries(series, days), i)
  {
    seq(MaxLength(PartSeries(series, days)), i requires 0 <= i => SumAt(PartSeries(series, days), i))
  }

  /** The first denominator, in priority order, with a positive current total. */
  function DenominatorKey(series: SeriesMap, days: nat, candidates: seq<string>): Option<string> {
    if candidates == [] then None
    else if Has(series, candidates[0]) && Sum(Tail(Values(series, candidates[0]), days)) > 0.0 then Some(candidates[0])
    else DenominatorKey(series, days, candidates[1..])
  }

  function CurrentWindow(series: SeriesMap, days: nat, key: string): seq<real> {
    Tail(Tail(Values(series, key), 2 * days), days)
  }

  /** The day's denominator: the first candidate positive on that very day. */
  function DailyDenominator(series: SeriesMap, days: nat, candidates: seq<string>, i: nat): real {
    if candidates == [] then 0.0
    else
      var w := CurrentWindow(series, days, candidates[0]);
      if i < |w| && w[i] > 0.0 then w[i] else DailyDenominator(series, days, candidates[1..], i)
  }

  function DailyRate(part: real, denominator: real): real {
    if denominator > 0.0 then part / denominator * 100.0 else 0.0
  }

  predicate AnyDenominator(series: SeriesMap, days: nat) {
    exists d :: d in ENGAGEMENT_DENOMINATORS && CurrentWindow(series, days, d) != []
  }

  function Sparkline(series: SeriesMap, days: nat): seq<real> {
    var cur := Tail(PartsPerDay(series, days), days);
    if AnyDenominator(series, days) then
      seq(|cur|, i requires 0 <= i < |cur| =>
        DailyRate(cur[i], DailyDenominator(series, days, ENGAGEMENT_DENOMINATORS, i)))
    else cur
  }

  function Rate(parts: seq<real>, denominator: real): real {
    if denominator > 0.0 then Sum(parts) / denominator * 100.0 else 0.0
  }

  function EngagementRate(series: SeriesMap, days: nat, followers: nat): Derived {
    var key := DenominatorKey(series, days, ENGAGEMENT_DENOMINATORS);
    var perDay := PartsPerDay(series, days);
    var denom := if key.Some? then Tail(Values(series, key.value), 2 * days) else [];
    var cur := Rate(Tail(perDay, days), if key.Some? then Sum(Tail(denom, days)) else followers as real);
    var prev := Rate(Previous(perDay, days), if key.Some? then Sum(Previous(denom, days)) else followers as real);
    Derived(cur, Change(prev, cur), Sparkline(series, days))
  }

  // ------------------------------------------------------------------ sums

  lemma {:induction false} SumSplits(a: seq<real>, b: seq<real>)
    ensures Sum(a + b) == Sum(a) + Sum(b)
  {
    if b == [] {
      assert a + b == a;
    } else {
      var n := |b| - 1;
      assert (a + b)[..|a + b| - 1] == a + b[..n];
      SumSplits(a, b[..n]);
    }
  }

  /** The values of the days [from, until); none when the series does not reach that far. */
  function Slice(s: seq<real>, from: nat, until: nat): seq<real> {
    if from <= until <= |s| then s[from..until] else []
  }

  /** Total of the parts over [from, until), metric by metric. */
  function PartsTotal(parts: seq<seq<real>>, from: nat, until: nat): real {
    if parts == [] then 0.0 else Sum(Slice(parts[0], from, until)) + PartsTotal(parts[1..], from, until)
  }

  ghost predicate AllOfLength(parts: seq<seq<real>>, n: nat) {
    forall k :: 0 <= k < |parts| ==> |parts[k]| == n
  }

  function Column(parts: seq<seq<real>>, from: nat, until: nat): (r: seq<real>)
    requires from <= until
    ensures |r| == until - from && forall i :: 0 <= i < |r| ==> r[i] == SumAt(parts, from + i)
  {
    seq(until - from, i requires 0 <= i => SumAt(parts, from + i))
  }

  /** Summing day by day or metric by metric gives the same total. */
  lemma {:induction false} SumsExchange(parts: seq<seq<real>>, from: nat, until: nat, n: nat)
    requires from <= until <= n && AllOfLength(parts, n)
    ensures Sum(Column(parts, from, until)) == PartsTotal(parts, from, until)
  {
    if parts == [] {
      ZerosSum(Column(parts, from, until));
    } else {
      assert AllOfLength(parts[1..], n) by {
        assert forall k :: 0 <= k < |parts[1..]| ==> parts[1..][k] == parts[k + 1];
      }
      SumsExchange(parts[1..], from, until, n);
      SumAdds(Slice(parts[0], from, until), Column(parts[1..], from, until), Column(parts, from, until));
    }
  }

  lemma {:induction false} ZerosSum(s: seq<real>)
    requires forall i :: 0 <= i < |s| ==> s[i] == 0.0
    ensures Sum(s) == 0.0
  {
    if s != [] { ZerosSum(s[..|s| - 1]); }
  }

  lemma {:induction false} SumAdds(a: seq<real>, b: seq<real>, c: seq<real>)
    requires |a| == |b| == |c| && forall i :: 0 <= i < |c| ==> c[i] == a[i] + b[i]
    ensures Sum(c) == Sum(a) + Sum(b)
  {
    if c != [] {
      var n := |c| - 1;
      SumAdds(a[..n], b[..n], c[..n]);
    }
  }

  lemma {:induction false} NonNegativeSum(s: seq<real>)
    requires forall i :: 0 <= i < |s| ==> s[i] >= 0.0
    ensures Sum(s) >= 0.0
    ensures Sum(s) == 0.0 ==> forall i :: 0 <= i < |s| ==> s[i] == 0.0
  {
    if s != [] { NonNegativeSum(s[..|s| - 1]); }
  }

  // ------------------------------------------------------------------ interactions, from the stored series

  ghost predicate DistinctKeys(series: SeriesMap) {
    forall i, j :: 0 <= i < j < |series| ==> series[i].0 != series[j].0
  }

  /** A stored key reads its own series; any other reads none. */
  lemma {:induction false} ValuesAreStored(series: SeriesMap, key: string)
    requires DistinctKeys(series)
    ensures forall i :: 0 <= i < |series| && series[i].0 == key ==> Values(series, key) == series[i].1
    ensures !Has(series, key) ==> Values(series, key) == []
  {
    if series != [] {
      var rest := series[1..];
      assert forall i :: 0 <= i < |rest| ==> rest[i] == series[i + 1];
      ValuesAreStored(rest, key);
      forall i | 0 <= i < |series| && series[i].0 == key ensures Values(series, key) == series[i].1 {
        if i > 0 { assert rest[i - 1].0 == key; }
      }
    }
  }

  /** What the listed metrics' own series add up to over the days [from, until). */
  ghost function Interactions(series: SeriesMap, keys: seq<string>, from: nat, until: nat): real {
    if keys == [] then 0.0
    else
      var n := |keys| - 1;
      Interactions(series, keys[..n], from, until) + Sum(Slice(Values(series, keys[n]), from, until))
  }

  lemma {:induction false} NothingStored(keys: seq<string>, from: nat, until: nat)
    ensures Interactions([], keys, from, until) == 0.0
  {
    if keys != [] { NothingStored(keys[..|keys| - 1], from, until); }
  }

  /** One stored series more adds its total when its metric is listed. */
  lemma {:induction false} OneSeriesMore(series: SeriesMap, keys: seq<string>, from: nat, until: nat)
    requires series != [] && DistinctKeys(series) && Distinct(keys)
    ensures Interactions(series, keys, from, until)
      == Interactions(series[1..], keys, from, until)
         + if series[0].0 in keys then Sum(Slice(series[0].1, from, until)) else 0.0
  {
    if keys != [] {
      var n := |keys| - 1;
      OneSeriesMore(series, keys[..n], from, until);
      assert keys == keys[..n] + [keys[n]];
      if keys[n] == series[0].0 {
        assert keys[n] !in keys[..n];
        assert !Has(series[1..], keys[n]) by {
          assert forall i :: 0 <= i < |series[1..]| ==> series[1..][i] == series[i + 1];
        }
        ValuesAreStored(series[1..], keys[n]);
        assert Sum(Slice(Values(series[1..], keys[n]), from, until)) == 0.0;
      }
    }
  }

  lemma PartsAreDistinct()
    ensures Distinct(ENGAGEMENT_PARTS)
  {
    // names of one length differ in a letter
    assert "likes"[0] != "saves"[0] && "comments"[0] != "outbound"[0];
    assert "replies"[3] != "reposts"[3] && "shares"[0] != "clicks"[0];
  }

  /** The parts collected are the listed metrics' own series, whatever the order they were stored in. */
  lemma {:induction false} PartsAreInteractions(series: SeriesMap, days: nat, from: nat, until: nat)
    requires Complete(series, days) && DistinctKeys(series)
    ensures PartsTotal(PartSeries(series, days), from, until) == Interactions(series, ENGAGEMENT_PARTS, from, until)
  {
    if series == [] {
      NothingStored(ENGAGEMENT_PARTS, from, until);
    } else {
      var rest, own := PartSeries(series[1..], days), Tail(series[0].1, 2 * days);
      assert forall i :: 0 <= i < |series[1..]| ==> series[1..][i] == series[i + 1];
      PartsAreInteractions(series[1..], days, from, until);
      PartsAreDistinct();
      OneSeriesMore(series, ENGAGEMENT_PARTS, from, until);
      assert own == series[0].1;
      assert [] + rest == rest && ([own] + rest)[1..] == rest;
    }
  }

  // ------------------------------------------------------------------ a weighted mean

  /** Complete, non-negative data over both periods. */
  ghost predicate Complete(series: SeriesMap, days: nat) {
    days > 0 && forall i :: 0 <= i < |series| ==>
      |series[i].1| == 2 * days && forall j :: 0 <= j < 2 * days ==> series[i].1[j] >= 0.0
  }

  ghost predicate HasParts(series: SeriesMap) {
    exists i :: 0 <= i < |series| && series[i].0 in ENGAGEMENT_PARTS
  }

  lemma HasPartsUnfolds(series: SeriesMap)
    requires series != []
    ensures HasParts(series) <==> series[0].0 in ENGAGEMENT_PARTS || HasParts(series[1..])
  {
    if HasParts(series) {
      var i :| 0 <= i < |series| && series[i].0 in ENGAGEMENT_PARTS;
      if i > 0 { assert series[1..][i - 1].0 in ENGAGEMENT_PARTS; }
    }
    if HasParts(series[1..]) {
      var i :| 0 <= i < |series[1..]| && series[1..][i].0 in ENGAGEMENT_PARTS;
      assert series[i + 1].0 in ENGAGEMENT_PARTS;
    }
  }

  lemma {:induction false} PartSeriesComplete(series: SeriesMap, days: nat)
    requires Complete(series, days)
    ensures AllOfLength(PartSeries(series, days), 2 * days)
    ensures PartSeries(series, days) == [] <==> !HasParts(series)
    ensures MaxLength(PartSeries(series, days)) == if HasParts(series) then 2 * days else 0
  {
    if series != [] {
      var rest := PartSeries(series[1..], days);
      PartSeriesComplete(series[1..], days);
      HasPartsUnfolds(series);
      assert [] + rest == rest && ([Tail(series[0].1, 2 * days)] + rest)[1..] == rest;
    }
  }

  lemma {:induction false} ValuesComplete(series: SeriesMap, days: nat, key: string)
    requires Complete(series, days)
    ensures var v := Values(series, key);
      && (Has(series, key) ==> |v| == 2 * days) && (!Has(series, key) ==> v == [])
      && forall j :: 0 <= j < |v| ==> v[j] >= 0.0
  {
    if series != [] {
      ValuesComplete(series[1..], days, key);
      if Has(series[1..], key) {
        var i :| 0 <= i < |series[1..]| && series[1..][i].0 == key;
        assert series[i + 1].0 == key;
      }
    }
  }

  /** A positive day belongs to the denominator chosen for the whole window. */
  lemma {:induction false} DailyIsChosen(series: SeriesMap, days: nat, candidates: seq<string>, i: nat)
    requires Complete(series, days) && i < days
    requires DenominatorKey(series, days, candidates).Some?
    requires var v := Values(series, DenominatorKey(series, days, candidates).value);
      |v| == 2 * days && v[days + i] > 0.0
    ensures DailyDenominator(series, days, candidates, i)
         == Values(series, DenominatorKey(series, days, candidates).value)[days + i]
  {
    var d := candidates[0];
    ValuesComplete(series, days, d);
    var w := CurrentWindow(series, days, d);
    if DenominatorKey(series, days, candidates) == Some(d) && Has(series, d)
       && Sum(Tail(Values(series, d), days)) > 0.0 {
      assert w == Values(series, d)[days..];
    } else {
      if Has(series, d) {
        NonNegativeSum(Tail(Values(series, d), days));
        assert w == Tail(Values(series, d), days);
      }
      DailyIsChosen(series, days, candidates[1..], i);
    }
  }

  /** The part totals of the current window, day by day. */
  ghost function CurrentParts(series: SeriesMap, days: nat): seq<real> { Tail(PartsPerDay(series, days), days) }

  ghost function Denominator(series: SeriesMap, days: nat): seq<real>
    requires DenominatorKey(series, days, ENGAGEMENT_DENOMINATORS).Some?
  {
    Tail(Values(series, DenominatorKey(series, days, ENGAGEMENT_DENOMINATORS).value), days)
  }

  lemma {:induction false} ChosenHasPositiveTotal(series: SeriesMap, days: nat, candidates: seq<string>)
    requires DenominatorKey(series, days, candidates).Some?
    ensures var key := DenominatorKey(series, days, candidates).value;
      Has(series, key) && key in candidates && Sum(Tail(Values(series, key), days)) > 0.0
  {
    if !(Has(series, candidates[0]) && Sum(Tail(Values(series, candidates[0]), days)) > 0.0) {
      ChosenHasPositiveTotal(series, days, candidates[1..]);
    }
  }

  /** The metric is stored and its current days add up to something positive. */
  ghost predicate PositiveTotal(series: SeriesMap, days: nat, key: string) {
    Has(series, key) && Sum(Slice(Values(series, key), days, 2 * days)) > 0.0
  }

  /** The denominator chosen is the first in the listed order with a positive current total. */
  lemma {:induction false} ChosenIsFirst(series: SeriesMap, days: nat, candidates: seq<string>, key: string)
    requires Complete(series, days)
    ensures DenominatorKey(series, days, candidates) == Some(key)
      <==> exists j :: 0 <= j < |candidates| && candidates[j] == key && PositiveTotal(series, days, key)
                       && forall i :: 0 <= i < j ==> !PositiveTotal(series, days, candidates[i])
  {
    if candidates != [] {
      var rest := candidates[1..];
      ValuesComplete(series, days, candidates[0]);
      assert Has(series, candidates[0]) ==>
        Tail(Values(series, candidates[0]), days) == Slice(Values(series, candidates[0]), days, 2 * days);
      ChosenIsFirst(series, days, rest, key);
      if !PositiveTotal(series, days, candidates[0]) {
        if j :| 0 <= j < |rest| && rest[j] == key && PositiveTotal(series, days, key)
                && forall i :: 0 <= i < j ==> !PositiveTotal(series, days, rest[i]) {
          assert candidates[j + 1] == key;
          assert forall i :: 0 < i < j + 1 ==> candidates[i] == rest[i - 1];
        }
        if j :| 0 <= j < |candidates| && candidates[j] == key && PositiveTotal(series, days, key)
                && forall i :: 0 <= i < j ==> !PositiveTotal(series, days, candidates[i]) {
          assert rest[j - 1] == key;
          assert forall i :: 0 <= i < j - 1 ==> rest[i] == candidates[i + 1];
        }
      }
    }
  }

  /** Over complete data the rate is the current parts over the chosen denominator. */
  lemma RateOfCurrentWindow(series: SeriesMap, days: nat, followers: nat)
    requires Complete(series, days) && DenominatorKey(series, days, ENGAGEMENT_DENOMINATORS).Some?
    ensures EngagementRate(series, days, followers).value
         == Rate(CurrentParts(series, days), Sum(Denominator(series, days)))
    ensures |Denominator(series, days)| == days && Sum(Denominator(series, days)) > 0.0
  {
    var key := DenominatorKey(series, days, ENGAGEMENT_DENOMINATORS).value;
    ChosenHasPositiveTotal(series, days, ENGAGEMENT_DENOMINATORS);
    ValuesComplete(series, days, key);
    assert Tail(Values(series, key), 2 * days) == Values(series, key);
  }

  lemma CurrentPartsTotal(series: SeriesMap, days: nat)
    requires Complete(series, days)
    ensures Sum(CurrentParts(series, days)) == PartsTotal(PartSeries(series, days), days, 2 * days)
    ensures HasParts(series) ==> |CurrentParts(series, days)| == days
  {
    var parts := PartSeries(series, days);
    PartSeriesComplete(series, days);
    if HasParts(series) {
      assert CurrentParts(series, days) == Column(parts, days, 2 * days);
      SumsExchange(parts, days, 2 * days, 2 * days);
    } else {
      assert CurrentParts(series, days) == [];
    }
  }

  lemma PreviousPartsTotal(series: SeriesMap, days: nat)
    requires Complete(series, days)
    ensures Sum(Previous(PartsPerDay(series, days), days)) == PartsTotal(PartSeries(series, days), 0, days)
  {
    var parts := PartSeries(series, days);
    PartSeriesComplete(series, days);
    if HasParts(series) {
      assert Previous(PartsPerDay(series, days), days) == Column(parts, 0, days);
      SumsExchange(parts, 0, days, 2 * days);
    } else {
      assert Previous(PartsPerDay(series, days), days) == [];
    }
  }

  /** A hundred times the interactions of a period over a total; zero over none. */
  ghost function PeriodRate(series: SeriesMap, from: nat, until: nat, total: real): real {
    if total > 0.0 then Interactions(series, ENGAGEMENT_PARTS, from, until) / total * 100.0 else 0.0
  }

  lemma CurrentRate(series: SeriesMap, days: nat, total: real)
    requires Complete(series, days) && DistinctKeys(series)
    ensures Rate(CurrentParts(series, days), total) == PeriodRate(series, days, 2 * days, total)
  {
    CurrentPartsTotal(series, days);
    PartsAreInteractions(series, days, days, 2 * days);
  }

  lemma PreviousRate(series: SeriesMap, days: nat, total: real)
    requires Complete(series, days) && DistinctKeys(series)
    ensures Rate(Previous(PartsPerDay(series, days), days), total) == PeriodRate(series, 0, days, total)
  {
    PreviousPartsTotal(series, days);
    PartsAreInteractions(series, days, 0, days);
  }

  /** The two periods of the chosen denominator. */
  lemma DenominatorPeriods(series: SeriesMap, days: nat, key: string)
    requires Complete(series, days)
    requires DenominatorKey(series, days, ENGAGEMENT_DENOMINATORS) == Some(key)
    ensures var own := Values(series, key);
      && Tail(own, 2 * days) == own && Tail(own, days) == Slice(own, days, 2 * days)
      && Previous(own, days) == Slice(own, 0, days) && Sum(Slice(own, days, 2 * days)) > 0.0
  {
    var own := Values(series, key);
    ChosenHasPositiveTotal(series, days, ENGAGEMENT_DENOMINATORS);
    ValuesComplete(series, days, key);
    assert Tail(own, 2 * days) == own && Tail(own, days) == Slice(own, days, 2 * days);
  }

  /** The rate is a hundred times what the interaction metrics' own series add up to over the
      current days, over the positive total of the chosen denominator's. The change is measured
      against the same for the previous period. */
  lemma RateIsInteractionsOverDenominator(series: SeriesMap, days: nat, followers: nat, key: string)
    requires Complete(series, days) && DistinctKeys(series)
    requires DenominatorKey(series, days, ENGAGEMENT_DENOMINATORS) == Some(key)
    ensures var r, own := EngagementRate(series, days, followers), Values(series, key);
      && Sum(Slice(own, days, 2 * days)) > 0.0
      && r.value == PeriodRate(series, days, 2 * days, Sum(Slice(own, days, 2 * days)))
      && r.delta == Change(PeriodRate(series, 0, days, Sum(Slice(own, 0, days))), r.value)
  {
    DenominatorPeriods(series, days, key);
    CurrentRate(series, days, Sum(Slice(Values(series, key), days, 2 * days)));
    PreviousRate(series, days, Sum(Slice(Values(series, key), 0, days)));
  }

  /** Without a positive denominator both periods are set against the followers. */
  lemma RateFallsBackToFollowers(series: SeriesMap, days: nat, followers: nat)
    requires Complete(series, days) && DistinctKeys(series)
    requires DenominatorKey(series, days, ENGAGEMENT_DENOMINATORS).None?
    ensures var r := EngagementRate(series, days, followers);
      && r.value == PeriodRate(series, days, 2 * days, followers as real)
      && r.delta == Change(PeriodRate(series, 0, days, followers as real), r.value)
    ensures forall d :: d in ENGAGEMENT_DENOMINATORS ==> !PositiveTotal(series, days, d)
  {
    CurrentRate(series, days, followers as real);
    PreviousRate(series, days, followers as real);
    NoneIsPositive(series, days, ENGAGEMENT_DENOMINATORS);
  }

  lemma {:induction false} NoneIsPositive(series: SeriesMap, days: nat, candidates: seq<string>)
    requires Complete(series, days) && DenominatorKey(series, days, candidates).None?
    ensures forall d :: d in candidates ==> !PositiveTotal(series, days, d)
  {
    if candidates != [] {
      NoneIsPositive(series, days, candidates[1..]);
      ValuesComplete(series, days, candidates[0]);
      assert Has(series, candidates[0]) ==>
        Tail(Values(series, candidates[0]), days) == Slice(Values(series, candidates[0]), days, 2 * days);
      assert forall d :: d in candidates ==> d == candidates[0] || d in candidates[1..];
    }
  }

  // ------------------------------------------------------------------ the sparkline

  /** The metric is stored and positive on that day. */
  ghost predicate PositiveOn(series: SeriesMap, key: string, day: nat) {
    day < |Values(series, key)| && Values(series, key)[day] > 0.0
  }

  /** The first candidate in the listed order that is positive on the day. */
  ghost predicate FirstPositive(series: SeriesMap, candidates: seq<string>, day: nat, j: int) {
    0 <= j < |candidates| && PositiveOn(series, candidates[j], day)
    && forall i :: 0 <= i < j ==> !PositiveOn(series, candidates[i], day)
  }

  /** The day's denominator is that candidate's value, or zero when there is none. */
  lemma {:induction false} DailyIsFirst(series: SeriesMap, days: nat, candidates: seq<string>, i: nat)
    requires Complete(series, days) && i < days
    ensures forall j :: FirstPositive(series, candidates, days + i, j) ==>
      DailyDenominator(series, days, candidates, i) == Values(series, candidates[j])[days + i]
    ensures (forall j :: 0 <= j < |candidates| ==> !PositiveOn(series, candidates[j], days + i)) ==>
      DailyDenominator(series, days, candidates, i) == 0.0
  {
    if candidates != [] {
      var rest, own := candidates[1..], Values(series, candidates[0]);
      ValuesComplete(series, days, candidates[0]);
      assert |own| == 2 * days ==> CurrentWindow(series, days, candidates[0]) == own[days..];
      DailyIsFirst(series, days, rest, i);
      assert forall j :: 0 <= j < |rest| ==> rest[j] == candidates[j + 1];
      forall j | FirstPositive(series, candidates, days + i, j)
        ensures DailyDenominator(series, days, candidates, i) == Values(series, candidates[j])[days + i]
      {
        if j > 0 {
          assert !PositiveOn(series, candidates[0], days + i);
          assert FirstPositive(series, rest, days + i, j - 1);
        }
      }
    }
  }

  /** The sparkline has one value per current day: what the interaction metrics add up to that
      day, as a percentage of the first denominator positive on it, zero when there is none; or
      the bare sum when no denominator is stored at all. */
  lemma SparklineIsDailyRate(series: SeriesMap, days: nat, i: nat)
    requires Complete(series, days) && DistinctKeys(series) && HasParts(series) && i < days
    ensures |Sparkline(series, days)| == days
    ensures var line, all := Sparkline(series, days), ENGAGEMENT_DENOMINATORS;
      var x := Interactions(series, ENGAGEMENT_PARTS, days + i, days + i + 1);
      && (forall j :: FirstPositive(series, all, days + i, j) ==>
            line[i] == x / Values(series, all[j])[days + i] * 100.0)
      && ((forall j :: 0 <= j < |all| ==> !PositiveOn(series, all[j], days + i)) ==>
            line[i] == if exists d :: d in all && Has(series, d) then 0.0 else x)
  {
    var line, all := Sparkline(series, days), ENGAGEMENT_DENOMINATORS;
    var x := Interactions(series, ENGAGEMENT_PARTS, days + i, days + i + 1);
    SparklineAt(series, days, i);
    DailyIsFirst(series, days, all, i);
    forall j | FirstPositive(series, all, days + i, j)
      ensures line[i] == x / Values(series, all[j])[days + i] * 100.0
    {
      ValuesComplete(series, days, all[j]);
      assert all[j] in all;
      RateOnPositiveDay(x, Values(series, all[j])[days + i]);
    }
  }

  lemma RateOnPositiveDay(x: real, d: real)
    requires d > 0.0
    ensures DailyRate(x, d) == x / d * 100.0
  {}

  lemma SparklineAt(series: SeriesMap, days: nat, i: nat)
    requires Complete(series, days) && DistinctKeys(series) && HasParts(series) && i < days
    ensures |Sparkline(series, days)| == days
    ensures Sparkline(series, days)[i]
      == (var x := Interactions(series, ENGAGEMENT_PARTS, days + i, days + i + 1);
          if exists d :: d in ENGAGEMENT_DENOMINATORS && Has(series, d)
          then DailyRate(x, DailyDenominator(series, days, ENGAGEMENT_DENOMINATORS, i)) else x)
  {
    CurrentPartAt(series, days, i);
    forall d | d in ENGAGEMENT_DENOMINATORS ensures CurrentWindow(series, days, d) != [] <==> Has(series, d) {
      ValuesComplete(series, days, d);
    }
  }

  lemma CurrentPartAt(series: SeriesMap, days: nat, i: nat)
    requires Complete(series, days) && DistinctKeys(series) && HasParts(series) && i < days
    ensures |CurrentParts(series, days)| == days
    ensures CurrentParts(series, days)[i] == Interactions(series, ENGAGEMENT_PARTS, days + i, days + i + 1)
  {
    var parts := PartSeries(series, days);
    CurrentPartsTotal(series, days);
    PartSeriesComplete(series, days);
    PartsAreInteractions(series, days, days + i, days + i + 1);
    SumsExchange(parts, days + i, days + i + 1, 2 * days);
    var day := Column(parts, days + i, days + i + 1);
    assert day == [CurrentParts(series, days)[i]] && Sum(day) == Sum(day[..0]) + day[0];
  }

  // ------------------------------------------------------------------ longer and uneven series

  /** Every series cut down to its last `2 * days` values. */
  ghost function Recent(series: SeriesMap, days: nat): (r: SeriesMap)
    ensures |r| == |series|
    ensures forall i :: 0 <= i < |r| ==> r[i] == (series[i].0, Tail(series[i].1, 2 * days))
  {
    seq(|series|, i requires 0 <= i < |series| => (series[i].0, Tail(series[i].1, 2 * days)))
  }

  lemma RecentUnfolds(series: SeriesMap, days: nat)
    requires series != []
    ensures Recent(series, days)[1..] == Recent(series[1..], days)
  {}

  lemma TailOfTail(s: seq<real>, days: nat)
    ensures Tail(Tail(s, 2 * days), 2 * days) == Tail(s, 2 * days)
    ensures Tail(Tail(s, 2 * days), days) == Tail(s, days)
    ensures Previous(Tail(s, 2 * days), days) == Previous(s, days)
  {}

  lemma {:induction false} RecentParts(series: SeriesMap, days: nat)
    ensures PartSeries(Recent(series, days), days) == PartSeries(series, days)
  {
    if series != [] {
      RecentUnfolds(series, days);
      RecentParts(series[1..], days);
      TailOfTail(series[0].1, days);
    }
  }

  lemma {:induction false} RecentValues(series: SeriesMap, days: nat, key: string)
    ensures Values(Recent(series, days), key) == Tail(Values(series, key), 2 * days)
    ensures Has(Recent(series, days), key) <==> Has(series, key)
  {
    if series != [] {
      RecentUnfolds(series, days);
      RecentValues(series[1..], days, key);
    }
    if Has(series, key) {
      var i :| 0 <= i < |series| && series[i].0 == key;
      assert Recent(series, days)[i].0 == key;
    }
  }

  lemma {:induction false} RecentDenominator(series: SeriesMap, days: nat, candidates: seq<string>)
    ensures DenominatorKey(Recent(series, days), days, candidates) == DenominatorKey(series, days, candidates)
  {
    if candidates != [] {
      RecentValues(series, days, candidates[0]);
      TailOfTail(Values(series, candidates[0]), days);
      RecentDenominator(series, days, candidates[1..]);
    }
  }

  lemma RecentWindow(series: SeriesMap, days: nat, key: string)
    ensures CurrentWindow(Recent(series, days), days, key) == CurrentWindow(series, days, key)
  {
    RecentValues(series, days, key);
    TailOfTail(Values(series, key), days);
  }

  lemma {:induction false} RecentDaily(series: SeriesMap, days: nat, candidates: seq<string>, i: nat)
    ensures DailyDenominator(Recent(series, days), days, candidates, i) == DailyDenominator(series, days, candidates, i)
  {
    if candidates != [] {
      RecentWindow(series, days, candidates[0]);
      RecentDaily(series, days, candidates[1..], i);
    }
  }

  lemma RecentSparkline(series: SeriesMap, days: nat)
    ensures Sparkline(Recent(series, days), days) == Sparkline(series, days)
  {
    RecentParts(series, days);
    assert PartsPerDay(Recent(series, days), days) == PartsPerDay(series, days);
    forall d | d in ENGAGEMENT_DENOMINATORS
      ensures CurrentWindow(Recent(series, days), days, d) == CurrentWindow(series, days, d)
    {
      RecentWindow(series, days, d);
    }
    var cur := Tail(PartsPerDay(series, days), days);
    forall i | 0 <= i < |cur|
      ensures DailyDenominator(Recent(series, days), days, ENGAGEMENT_DENOMINATORS, i)
        == DailyDenominator(series, days, ENGAGEMENT_DENOMINATORS, i)
    {
      RecentDaily(series, days, ENGAGEMENT_DENOMINATORS, i);
    }
  }

  /** Days before the two periods play no part, however far back the series go. */
  lemma RateIgnoresOlderDays(series: SeriesMap, days: nat, followers: nat)
    ensures EngagementRate(Recent(series, days), days, followers) == EngagementRate(series, days, followers)
  {
    RecentParts(series, days);
    assert PartsPerDay(Recent(series, days), days) == PartsPerDay(series, days);
    RecentDenominator(series, days, ENGAGEMENT_DENOMINATORS);
    var key := DenominatorKey(series, days, ENGAGEMENT_DENOMINATORS);
    if key.Some? {
      RecentValues(series, days, key.value);
      TailOfTail(Values(series, key.value), days);
    }
    RecentSparkline(series, days);
  }

  /** With series of different lengths there is a value for every day of the longest. */
  lemma {:induction false} MaxLengthIsMax(parts: seq<seq<real>>)
    ensures forall k :: 0 <= k < |parts| ==> |parts[k]| <= MaxLength(parts)
    ensures parts != [] ==> exists k :: 0 <= k < |parts| && |parts[k]| == MaxLength(parts)
  {
    if parts != [] {
      MaxLengthIsMax(parts[1..]);
      assert forall k :: 0 < k < |parts| ==> parts[k] == parts[1..][k - 1];
      if |parts[0]| < MaxLength(parts) {
        var k :| 0 <= k < |parts[1..]| && |parts[1..][k]| == MaxLength(parts[1..]);
        assert |parts[k + 1]| == MaxLength(parts);
      } else {
        assert |parts[0]| == MaxLength(parts);
      }
    }
  }

  /** A change applied to the value it was measured against gives the current one back. */
  lemma ChangeRestores(prev: real, cur: real)
    requires prev != 0.0
    ensures prev * (1.0 + Change(prev, cur) / 100.0) == cur
  {
    var x := (cur - prev) / prev;
    assert x * prev == cur - prev;
  }

  // ------------------------------------------------------------------ mediant

  ghost predicate IsRatio(ratio: real, p: real, d: real) { d > 0.0 && ratio == p / d * 100.0 }

  ghost predicate AllRatios(p: seq<real>, d: seq<real>, ratios: seq<real>) {
    |p| == |d| == |ratios| && forall i :: 0 <= i < |d| ==> IsRatio(ratios[i], p[i], d[i])
  }

  ghost predicate AllAtLeast(ratios: seq<real>, m: real) {
    forall i :: 0 <= i < |ratios| ==> m * 100.0 <= ratios[i]
  }

  ghost predicate AllAtMost(ratios: seq<real>, m: real) {
    forall i :: 0 <= i < |ratios| ==> ratios[i] <= m * 100.0
  }

  lemma {:induction false} SumAtLeast(p: seq<real>, d: seq<real>, ratios: seq<real>, m: real)
    requires AllRatios(p, d, ratios) && AllAtLeast(ratios, m)
    ensures Sum(p) >= m * Sum(d)
  {
    if p != [] {
      var n := |p| - 1;
      SumAtLeast(p[..n], d[..n], ratios[..n], m);
      PartAtLeast(p[n], d[n], ratios[n], m);
      AddScaled(m, Sum(d[..n]), d[n]);
    }
  }

  lemma {:induction false} SumAtMost(p: seq<real>, d: seq<real>, ratios: seq<real>, m: real)
    requires AllRatios(p, d, ratios) && AllAtMost(ratios, m)
    ensures Sum(p) <= m * Sum(d)
  {
    if p != [] {
      var n := |p| - 1;
      SumAtMost(p[..n], d[..n], ratios[..n], m);
      PartAtMost(p[n], d[n], ratios[n], m);
      AddScaled(m, Sum(d[..n]), d[n]);
    }
  }

  lemma AddScaled(m: real, a: real, b: real)
    ensures m * (a + b) == m * a + m * b
  {}

  lemma {:induction false} Extremes(s: seq<real>) returns (lo: nat, hi: nat)
    requires s != []
    ensures lo < |s| && hi < |s| && forall i :: 0 <= i < |s| ==> s[lo] <= s[i] <= s[hi]
  {
    var n := |s| - 1;
    if n == 0 {
      lo, hi := 0, 0;
    } else {
      lo, hi := Extremes(s[..n]);
      assert forall i :: 0 <= i < n ==> s[..n][i] == s[i];
      if s[n] < s[lo] { lo := n; }
      if s[n] > s[hi] { hi := n; }
    }
  }

  /** The ratio of sums lies between the least and the greatest of the ratios. */
  lemma Mediant(p: seq<real>, d: seq<real>, ratios: seq<real>) returns (lo: nat, hi: nat)
    requires p != [] && Sum(d) > 0.0 && AllRatios(p, d, ratios)
    ensures lo < |p| && hi < |p| && ratios[lo] <= Sum(p) / Sum(d) * 100.0 <= ratios[hi]
  {
    lo, hi := Extremes(ratios);
    LeastBounds(p, d, ratios, ratios[lo] / 100.0);
    MostBounds(p, d, ratios, ratios[hi] / 100.0);
  }

  lemma LeastBounds(p: seq<real>, d: seq<real>, ratios: seq<real>, m: real)
    requires Sum(d) > 0.0 && AllRatios(p, d, ratios)
    requires AllAtLeast(ratios, m)
    ensures m * 100.0 <= Sum(p) / Sum(d) * 100.0
  {
    SumAtLeast(p, d, ratios, m);
    RatioAtLeast(Sum(p), Sum(d), m);
  }

  lemma MostBounds(p: seq<real>, d: seq<real>, ratios: seq<real>, m: real)
    requires Sum(d) > 0.0 && AllRatios(p, d, ratios)
    requires AllAtMost(ratios, m)
    ensures Sum(p) / Sum(d) * 100.0 <= m * 100.0
  {
    SumAtMost(p, d, ratios, m);
    RatioAtMost(Sum(p), Sum(d), m);
  }

  lemma PartAtLeast(p: real, d: real, ratio: real, m: real)
    requires IsRatio(ratio, p, d) && m * 100.0 <= ratio
    ensures p >= m * d
  {
    assert p / d * d == p;
    ScaleOrder(m, p / d, d);
  }

  lemma PartAtMost(p: real, d: real, ratio: real, m: real)
    requires IsRatio(ratio, p, d) && ratio <= m * 100.0
    ensures p <= m * d
  {
    assert p / d * d == p;
    ScaleOrder(p / d, m, d);
  }

  lemma RatioAtLeast(p: real, d: real, m: real)
    requires d > 0.0 && p >= m * d
    ensures m * 100.0 <= p / d * 100.0
  {
    var x := p / d;
    assert x * d == p;
    if x < m { StrictScaleOrder(x, m, d); }
  }

  lemma RatioAtMost(p: real, d: real, m: real)
    requires d > 0.0 && p <= m * d
    ensures p / d * 100.0 <= m * 100.0
  {
    var x := p / d;
    assert x * d == p;
    if m < x { StrictScaleOrder(m, x, d); }
  }

  lemma ScaleOrder(a: real, b: real, d: real)
    requires a <= b && d > 0.0
    ensures a * d <= b * d
  {}

  lemma StrictScaleOrder(a: real, b: real, d: real)
    requires a < b && d > 0.0
    ensures a * d < b * d
  {}

  /** When the chosen denominator is positive every current day, the rate lies between the
      least and the greatest value of the sparkline: it is their weighted mean. */
  lemma RateIsWeightedMean(series: SeriesMap, days: nat, followers: nat) returns (lo: nat, hi: nat)
    requires Complete(series, days) && HasParts(series)
    requires DenominatorKey(series, days, ENGAGEMENT_DENOMINATORS).Some?
    requires forall i :: 0 <= i < |Denominator(series, days)| ==> Denominator(series, days)[i] > 0.0
    ensures var r := EngagementRate(series, days, followers);
      lo < |r.series| && hi < |r.series| && r.series[lo] <= r.value <= r.series[hi]
  {
    var p, d, line := CurrentParts(series, days), Denominator(series, days), Sparkline(series, days);
    RateOfCurrentWindow(series, days, followers);
    CurrentPartsTotal(series, days);
    SparklineIsRatios(series, days);
    lo, hi := Mediant(p, d, line);
    RateOfPositive(p, Sum(d));
  }

  lemma RateOfPositive(p: seq<real>, d: real)
    requires d > 0.0
    ensures Rate(p, d) == Sum(p) / d * 100.0
  {}

  lemma SparklineIsRatios(series: SeriesMap, days: nat)
    requires Complete(series, days) && HasParts(series)
    requires DenominatorKey(series, days, ENGAGEMENT_DENOMINATORS).Some?
    requires forall i :: 0 <= i < |Denominator(series, days)| ==> Denominator(series, days)[i] > 0.0
    ensures var p, d, line := CurrentParts(series, days), Denominator(series, days), Sparkline(series, days);
      |p| == |d| == |line| == days && forall i :: 0 <= i < days ==> line[i] == p[i] / d[i] * 100.0
  {
    var key := DenominatorKey(series, days, ENGAGEMENT_DENOMINATORS).value;
    ChosenHasPositiveTotal(series, days, ENGAGEMENT_DENOMINATORS);
    ValuesComplete(series, days, key);
    CurrentPartsTotal(series, days);
    var p, d, line := CurrentParts(series, days), Denominator(series, days), Sparkline(series, days);
    assert Tail(Values(series, key), 2 * days) == Values(series, key);
    assert CurrentWindow(series, days, key) == d && d != [];
    forall i | 0 <= i < days ensures line[i] == p[i] / d[i] * 100.0 {
      assert d[i] > 0.0;
      DailyIsChosen(series, days, ENGAGEMENT_DENOMINATORS, i);
    }
  }

  // ------------------------------------------------------------------ deltas

  /** Over complete data the two periods split the series exactly. */
  lemma PeriodsPartition(values: seq<real>, days: nat)
    requires days > 0 && |values| == 2 * days
    ensures Previous(values, days) + Tail(values, days) == values
    ensures Sum(Previous(values, days)) + Sum(Tail(values, days)) == Sum(values)
  {
    assert Previous(values, days) + Tail(values, days) == values;
    SumSplits(Previous(values, days), Tail(values, days));
  }

  /** Scaling both periods alike leaves the change alone. */
  lemma ChangeIgnoresScale(prev: real, cur: real, n: real)
    requires n > 0.0
    ensures Change(prev / n, cur / n) == Change(prev, cur)
  {
    if prev != 0.0 {
      var x, p, q := (cur - prev) / prev, prev / n, cur / n;
      assert x * prev == cur - prev && p * n == prev && q * n == cur;
      assert (x * p) * n == (q - p) * n;
      assert x * p == q - p;
      assert p != 0.0;
      assert (q - p) / p == x;
    } else {
      assert prev / n == 0.0;
    }
  }

  /** Over complete data a derived metric accounts for the whole series: the total and the
      previous total it was compared with add up to it, the change applied to the one gives the
      other, and averaging instead changes the value by the number of days and the change not
      at all. */
  lemma DeriveAccountsForSeries(values: seq<real>, days: nat)
    requires days > 0 && |values| == 2 * days
    ensures var total, mean := Derive(values, days, Total), Derive(values, days, Average);
      var prev := Sum(Previous(values, days));
      && total.value + prev == Sum(values) && total.series == values[days..]
      && total.delta == Change(prev, total.value) && mean.delta == total.delta
      && mean.value == total.value / days as real
      && (prev != 0.0 ==> prev * (1.0 + total.delta / 100.0) == total.value)
  {
    var prev, cur := Sum(Previous(values, days)), Sum(Tail(values, days));
    PeriodsPartition(values, days);
    assert |Previous(values, days)| == days && |Tail(values, days)| == days;
    ChangeIgnoresScale(prev, cur, days as real);
    assert (prev / days as real != 0.0) <==> prev != 0.0;
    if prev != 0.0 { ChangeRestores(prev, cur); }
  }
}
