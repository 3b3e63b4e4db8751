/**
 Recurring posting slots of a channel and the lookahead walk over them.

 A slot is a weekday and a wall-clock time in the workspace zone; walking at most
 60 local days from an instant resolves slots to instants one day at a time.
 */
module Slots {
  import opened Common

  /** Proleptic Gregorian ordinal of a local calendar day (day 1 is a Monday). */
  type Day = int

  datatype Slot = Slot(weekday: int, time: nat)

  /** A workspace zone: wall clock to instant, and the local day of an instant. */
  datatype Zone = Zone(resolve: (Day, nat) -> Instant, dayOf: Instant -> Day)

  /** The active slots of one channel, as the query orders them, and their zone. */
  datatype Config = Config(slots: seq<Slot>, zone: Zone)

  const HORIZON_DAYS: nat := 60

  function Weekday(d: Day): int { (d + 6) % 7 }

  /** `slot` falls on local day `d`. */
  predicate OnDay(slot: Slot, d: Day) { slot.weekday == Weekday(d) }

  /** Day 1 is a Monday, and the days of the week follow each other: so a slot falls on exactly one
      day of any seven, and on two days exactly when they are whole weeks apart. */
  lemma WeekdaysFollow(slot: Slot, d: Day, e: Day)
    ensures Weekday(1) == 0 && 0 <= Weekday(d) < 7 && Weekday(d + 1) == (Weekday(d) + 1) % 7
    ensures OnDay(slot, d) ==> (OnDay(slot, e) <==> (e - d) % 7 == 0)
    ensures 0 <= slot.weekday < 7 ==> OnDay(slot, d + (slot.weekday - Weekday(d)) % 7)
  {
    assert (d + (slot.weekday - Weekday(d)) % 7 + 6) % 7 == (Weekday(d) + (slot.weekday - Weekday(d)) % 7) % 7;
  }

  ghost predicate Ordered(slots: seq<Slot>) {
    forall i, j :: 0 <= i < j < |slots| ==>
      slots[i].weekday < slots[j].weekday
      || (slots[i].weekday == slots[j].weekday && slots[i].time < slots[j].time)
  }

  /** Later wall-clock slots resolve to later instants: no slot sits in a DST gap. */
  ghost predicate Monotone(c: Config) {
    forall s, t, d: Day, e: Day :: s in c.slots && t in c.slots && OnDay(s, d) && OnDay(t, e)
      && (d < e || (d == e && s.time < t.time))
      ==> c.zone.resolve(d, s.time) < c.zone.resolve(e, t.time)
  }

  ghost predicate ValidConfig(c: Config) { Ordered(c.slots) && Monotone(c) }

  /** Instants after `after` that the given slots yield on one day. */
  function DayInstants(zone: Zone, slots: seq<Slot>, after: Instant, d: Day): seq<Instant> {
    if slots == [] then []
    else
      var n := |slots| - 1;
      DayInstants(zone, slots[..n], after, d)
      + if OnDay(slots[n], d) && zone.resolve(d, slots[n].time) > after
        then [zone.resolve(d, slots[n].time)] else []
  }

  /** The walk over the days in [from, until). */
  function Walk(c: Config, after: Instant, from: Day, until: Day): seq<Instant>
    decreases until - from
  {
    if until <= from then []
    else Walk(c, after, from, until - 1) + DayInstants(c.zone, c.slots, after, until - 1)
  }

  /** Every slot instant of the 60-day lookahead. */
  function Horizon(c: Config, after: Instant): seq<Instant> {
    Walk(c, after, c.zone.dayOf(after), c.zone.dayOf(after) + HORIZON_DAYS)
  }

  function Prefix<T>(s: seq<T>, n: nat): seq<T> {
    if n < |s| then s[..n] else s
  }

  /** Walks the days and slots until `count` instants are found or the horizon ends. */
  method NextSlotDatetimes(c: Config, after: Instant, count: int) returns (results: seq<Instant>)
    ensures results == Prefix(Horizon(c, after), if count < 1 then 1 else count)
  {
    if |c.slots| == 0 {
      WalkWithoutSlots(c, after, c.zone.dayOf(after), c.zone.dayOf(after) + HORIZON_DAYS);
      return [];
    }
    var from := c.zone.dayOf(after);
    var end := from + HORIZON_DAYS;
    ghost var bound := if count < 1 then 1 else count;
    results := [];
    var d := from;
    while d < end
      invariant from <= d <= end
      invariant results == Walk(c, after, from, d) && |results| < bound
    {
      ghost var before := results;
      var i := 0;
      while i < |c.slots|
        invariant 0 <= i <= |c.slots|
        invariant results == before + DayInstants(c.zone, c.slots[..i], after, d)
        invariant |results| < bound
      {
        var slot := c.slots[i];
        var slotAt := c.zone.resolve(d, slot.time);
        DayGrows(c.zone, c.slots, after, d, i);
        if OnDay(slot, d) && slotAt > after {
          results := results + [slotAt];
          if |results| >= count {
            StoppedEarly(c, after, d, i + 1, results);
            return;
          }
        }
        i := i + 1;
      }
      assert c.slots[..i] == c.slots;
      d := d + 1;
    }
  }

  /** One more slot adds its instant exactly when it falls on the day, after `after`. */
  lemma DayGrows(zone: Zone, slots: seq<Slot>, after: Instant, d: Day, i: nat)
    requires i < |slots|
    ensures DayInstants(zone, slots[..i + 1], after, d)
         == DayInstants(zone, slots[..i], after, d)
            + if OnDay(slots[i], d) && zone.resolve(d, slots[i].time) > after
              then [zone.resolve(d, slots[i].time)] else []
  {
    assert slots[..i + 1][..i] == slots[..i];
  }

  /** Whatever was collected when the walk stops early is a prefix of the whole walk. */
  lemma StoppedEarly(c: Config, after: Instant, d: Day, i: nat, results: seq<Instant>)
    requires c.zone.dayOf(after) <= d < c.zone.dayOf(after) + HORIZON_DAYS && i <= |c.slots|
    requires results == Walk(c, after, c.zone.dayOf(after), d) + DayInstants(c.zone, c.slots[..i], after, d)
    ensures results == Prefix(Horizon(c, after), |results|)
  {
    DayPrefix(c.zone, c.slots, after, d, i);
    WalkPrefix(c, after, c.zone.dayOf(after), d + 1, c.zone.dayOf(after) + HORIZON_DAYS);
    assert results <= Walk(c, after, c.zone.dayOf(after), d + 1);
  }

  lemma {:induction false} WalkWithoutSlots(c: Config, after: Instant, from: Day, until: Day)
    requires c.slots == []
    ensures Walk(c, after, from, until) == []
    decreases until - from
  {
    if from < until { WalkWithoutSlots(c, after, from, until - 1); }
  }

  lemma {:induction false} WalkPrefix(c: Config, after: Instant, from: Day, mid: Day, until: Day)
    requires from <= mid <= until
    ensures Walk(c, after, from, mid) <= Walk(c, after, from, until)
    decreases until - mid
  {
    if mid < until { WalkPrefix(c, after, from, mid, until - 1); }
  }

  lemma {:induction false} DayPrefix(zone: Zone, slots: seq<Slot>, after: Instant, d: Day, i: nat)
    requires i <= |slots|
    ensures DayInstants(zone, slots[..i], after, d) <= DayInstants(zone, slots, after, d)
  {
    if i == |slots| {
      assert slots[..i] == slots;
    } else {
      var n := |slots| - 1;
      DayPrefix(zone, slots[..n], after, d, i);
      assert slots[..n][..i] == slots[..i];
    }
  }

  // ------------------------------------------------------------------ exactness

  /** `x` is the instant of an active slot on day `d`, and lies after `after`. */
  ghost predicate SlotInstant(zone: Zone, slots: seq<Slot>, after: Instant, d: Day, x: Instant) {
    x > after && exists s :: s in slots && OnDay(s, d) && x == zone.resolve(d, s.time)
  }

  lemma {:induction false} DayExact(zone: Zone, slots: seq<Slot>, after: Instant, d: Day, x: Instant)
    ensures x in DayInstants(zone, slots, after, d) <==> SlotInstant(zone, slots, after, d, x)
  {
    if slots != [] {
      var n := |slots| - 1;
      DayExact(zone, slots[..n], after, d, x);
      assert slots == slots[..n] + [slots[n]];
    }
  }

  lemma {:induction false} WalkExact(c: Config, after: Instant, from: Day, until: Day, x: Instant)
    ensures x in Walk(c, after, from, until)
      <==> (exists d :: from <= d < until && SlotInstant(c.zone, c.slots, after, d, x))
    decreases until - from
  {
    if from < until {
      WalkExact(c, after, from, until - 1, x);
      DayExact(c.zone, c.slots, after, until - 1, x);
    }
  }

  /** The horizon is exactly the active-slot instants after `after` within 60 local days. */
  lemma HorizonExact(c: Config, after: Instant, x: Instant)
    ensures x in Horizon(c, after)
      <==> (exists d :: c.zone.dayOf(after) <= d < c.zone.dayOf(after) + HORIZON_DAYS
                        && SlotInstant(c.zone, c.slots, after, d, x))
  {
    WalkExact(c, after, c.zone.dayOf(after), c.zone.dayOf(after) + HORIZON_DAYS, x);
  }

  /** Wall clocks never run ahead: a slot of an earlier local day is not after `x`. */
  ghost predicate DaysFollowInstants(c: Config) {
    forall s, d: Day, x: Instant :: s in c.slots && OnDay(s, d) && c.zone.resolve(d, s.time) > x
      ==> c.zone.dayOf(x) <= d
  }

  /** Starting at the local day of `after` misses nothing: no slot instant after
      `after`, on any day whatever, precedes one the walk returns. */
  lemma HorizonMissesNothing(c: Config, after: Instant, d: Day, x: Instant)
    requires ValidConfig(c) && DaysFollowInstants(c)
    requires SlotInstant(c.zone, c.slots, after, d, x)
    ensures x in Horizon(c, after) || forall y :: y in Horizon(c, after) ==> y < x
  {
    var from := c.zone.dayOf(after);
    assert from <= d;
    if d < from + HORIZON_DAYS {
      HorizonExact(c, after, x);
    } else {
      forall y | y in Horizon(c, after)
        ensures y < x
      {
        HorizonExact(c, after, y);
      }
    }
  }

  // ------------------------------------------------------------------ order

  lemma EarlierSlotsComeFirst(c: Config, n: nat, after: Instant, d: Day, x: Instant)
    requires ValidConfig(c) && n < |c.slots| && OnDay(c.slots[n], d)
    requires SlotInstant(c.zone, c.slots[..n], after, d, x)
    ensures x < c.zone.resolve(d, c.slots[n].time)
  {
    var s :| s in c.slots[..n] && OnDay(s, d) && x == c.zone.resolve(d, s.time);
    var i :| 0 <= i < n && c.slots[i] == s;
    assert c.slots[i].time < c.slots[n].time;
  }

  lemma {:induction false} DayIncreasing(c: Config, n: nat, after: Instant, d: Day)
    requires ValidConfig(c) && n <= |c.slots|
    ensures Increasing(DayInstants(c.zone, c.slots[..n], after, d))
  {
    if n > 0 {
      DayIncreasing(c, n - 1, after, d);
      DayGrows(c.zone, c.slots, after, d, n - 1);
      var earlier := DayInstants(c.zone, c.slots[..n - 1], after, d);
      if OnDay(c.slots[n - 1], d) {
        forall k | 0 <= k < |earlier| ensures earlier[k] < c.zone.resolve(d, c.slots[n - 1].time) {
          DayExact(c.zone, c.slots[..n - 1], after, d, earlier[k]);
          EarlierSlotsComeFirst(c, n - 1, after, d, earlier[k]);
        }
      }
    }
  }

  lemma {:induction false} WalkIncreasing(c: Config, after: Instant, from: Day, until: Day)
    requires ValidConfig(c)
    ensures Increasing(Walk(c, after, from, until))
    decreases until - from
  {
    if from < until {
      var earlier, last := Walk(c, after, from, until - 1), DayInstants(c.zone, c.slots, after, until - 1);
      WalkIncreasing(c, after, from, until - 1);
      DayIncreasing(c, |c.slots|, after, until - 1);
      assert c.slots[..|c.slots|] == c.slots;
      forall i, j | 0 <= i < |earlier| && 0 <= j < |last|
        ensures earlier[i] < last[j]
      {
        WalkExact(c, after, from, until - 1, earlier[i]);
        DayExact(c.zone, c.slots, after, until - 1, last[j]);
      }
    }
  }

  lemma HorizonIncreasing(c: Config, after: Instant)
    requires ValidConfig(c)
    ensures Increasing(Horizon(c, after))
    ensures forall i :: 0 <= i < |Horizon(c, after)| ==> Horizon(c, after)[i] > after
  {
    WalkIncreasing(c, after, c.zone.dayOf(after), c.zone.dayOf(after) + HORIZON_DAYS);
    forall i | 0 <= i < |Horizon(c, after)|
      ensures Horizon(c, after)[i] > after
    {
      HorizonExact(c, after, Horizon(c, after)[i]);
    }
  }

  // ------------------------------------------------------------------ bounded lookahead

  /** The first instant of `h` that is not in `occupied`. */
  function FirstFree(h: seq<Instant>, occupied: set<Instant>): Option<Instant> {
    if h == [] then None
    else if h[0] !in occupied then Some(h[0])
    else FirstFree(h[1..], occupied)
  }

  lemma {:induction false} FirstFreeMeaning(h: seq<Instant>, occupied: set<Instant>)
    ensures FirstFree(h, occupied).None? <==> forall x :: x in h ==> x in occupied
    ensures FirstFree(h, occupied).Some? ==>
      exists i :: 0 <= i < |h| && h[i] == FirstFree(h, occupied).value && h[i] !in occupied
                  && forall k :: 0 <= k < i ==> h[k] in occupied
  {
    if h != [] {
      assert h == [h[0]] + h[1..];
      FirstFreeMeaning(h[1..], occupied);
      if h[0] !in occupied {
        assert h[0] == FirstFree(h, occupied).value;
      } else if FirstFree(h, occupied).Some? {
        var i :| 0 <= i < |h[1..]| && h[1..][i] == FirstFree(h[1..], occupied).value && h[1..][i] !in occupied
                 && forall k :: 0 <= k < i ==> h[1..][k] in occupied;
        assert h[i + 1] == FirstFree(h, occupied).value && h[i + 1] !in occupied;
        forall k | 0 <= k < i + 1 ensures h[k] in occupied {
          if k > 0 { assert h[k] == h[1..][k - 1]; }
        }
      }
    }
  }

  /** Pigeonhole: among |occupied| + 1 distinct instants one is free. */
  lemma Pigeonhole(h: seq<Instant>, occupied: set<Instant>)
    requires Increasing(h) && |h| > |occupied|
    ensures exists x :: x in h && x !in occupied
  {
    if forall x :: x in h ==> x in occupied {
      DistinctCardinality(h);
      assert Elements(h) <= occupied;
      SubsetCardinality(Elements(h), occupied);
    }
  }

  lemma {:induction false} FirstFreeOfPrefix(h: seq<Instant>, n: nat, occupied: set<Instant>)
    requires n <= |h| && FirstFree(h[..n], occupied).Some?
    ensures FirstFree(h[..n], occupied) == FirstFree(h, occupied)
  {
    if h[0] in occupied {
      assert h[..n][1..] == h[1..][..n - 1];
      FirstFreeOfPrefix(h[1..], n - 1, occupied);
    }
  }

  /** Looking at |occupied| + 1 slots finds the same slot as scanning the whole horizon. */
  lemma BoundedLookaheadIsExact(c: Config, after: Instant, occupied: set<Instant>)
    requires ValidConfig(c)
    ensures FirstFree(Prefix(Horizon(c, after), |occupied| + 1), occupied)
         == FirstFree(Horizon(c, after), occupied)
  {
    var h, n := Horizon(c, after), |occupied| + 1;
    if n < |h| {
      HorizonIncreasing(c, after);
      Pigeonhole(h[..n], occupied);
      FirstFreeMeaning(h[..n], occupied);
      FirstFreeOfPrefix(h, n, occupied);
    }
  }
}
