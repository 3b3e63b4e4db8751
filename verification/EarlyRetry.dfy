/**
 What the retry query's indifference to the schedule leads to: runs in which a child waiting
 for a retry is given a later slot, is started before it, and meanwhile loses the slot.
 */
module EarlyRetry {
  import opened Common
  import opened Slots
  import opened Store
  import opened QueueOps
  import opened QueueLaws
  import opened Runs
  import opened RunLaws
  import opened Repair

  /** A job is publishing `k` ahead of its instant `x`, which another child has since claimed. */
  ghost predicate AheadOfTime(s: System, k: Key, other: Key, j: JobId, x: Instant) {
    && j in s.jobs && s.jobs[j].key == k && InStatus(s.tables, k, Publishing)
    && s.jobs[j].row.child.scheduledAt == Some(x) && At(s.tables.children, k) == Some(x)
    && x > s.tables.now && other != k && other.1 == k.1
    && Claims(s.tables, other) && At(s.tables.children, other) == Some(x)
  }

  /** A job under way whose failure will be retried, a queue of its channel, and a second,
      unscheduled child there; by the time of the retry the channel has a free slot. */
  ghost predicate Setting(s: System, j: JobId, q: QueueId, p: PostId)
    requires j in s.jobs
  {
    var st, k, row := s.tables, s.jobs[j].key, s.jobs[j].row;
    && Inv(st) && JobIsTimely(s, s.jobs[j]) && Attempts(row) < MAX_RETRIES
    && q in st.queues && st.queues[q].channel == k.1 && k.1 in st.channels
    && p != k.0 && (p, k.1) in st.children && !IsProtected(st, (p, k.1)) && At(st.children, (p, k.1)).None?
    && var later := st.(now := RetryTime(s, j));
       exists x :: x in HorizonOf(later, k.1) && x !in Occupied(later, k.1, k.0)
  }

  function RetryTime(s: System, j: JobId): Instant
    requires j in s.jobs
  {
    s.tables.now + Backoff(Attempts(s.jobs[j].row))
  }

  /** The job fails and is to be retried; the clock reaches the time of the retry. */
  lemma FailAndWait(s: System, j: JobId, q: QueueId, p: PostId) returns (states: seq<System>, actions: seq<Action>)
    requires j in s.jobs && Setting(s, j, q, p)
    ensures IsRun(states, actions) && |actions| == 2 && states[0] == s
    ensures actions[0] == End(j, Transient) && actions[1].Tick?
    ensures var k, r := s.jobs[j].key, states[2];
      var row := Saved(s.tables, k, s.jobs[j].row.child.(status := Scheduled));
      && r.tables == row.(now := RetryTime(s, j)) && j !in r.jobs
      && IsRetryDue(r, k) && Valid(r.tables)
  {
    StepKeepsValid(s, End(j, Transient));
    var s1 := Next(s, End(j, Transient));
    var tick := Tick(RetryTime(s, j));
    assert Steps(s, End(j, Transient), s1) && Steps(s1, tick, Next(s1, tick));
    states, actions := [s, s1, Next(s1, tick)], [End(j, Transient), tick];
  }

  /** Only child `k` differs from `st`, and it has this row. */
  ghost predicate Replaced(st: State, r: State, k: Key, row: PlatformPost) {
    && r.now == st.now && r.channels == st.channels && k in st.children
    && r.children == st.children[k := row]
  }

  /** The child waiting for its retry is reslotted to a later slot. */
  lemma Reslot(s: System, k: Key, q: QueueId) returns (x: Instant)
    requires Valid(s.tables) && q in s.tables.queues && s.tables.queues[q].channel == k.1 && k.1 in s.tables.channels
    requires k in s.tables.children && !IsProtected(s.tables, k)
    requires exists x :: x in HorizonOf(s.tables, k.1) && x !in Occupied(s.tables, k.1, k.0)
    ensures var st, r := s.tables, Next(s, AddNext(k.0, q));
      && IsFirstFree(HorizonOf(st, k.1), Occupied(st, k.1, k.0), x)
      && Valid(r.tables) && Replaced(st, r.tables, k, st.children[k].(scheduledAt := Some(x)))
      && q in r.tables.queues && r.tables.queues[q].channel == k.1
      && r == s.(tables := r.tables)
  {
    var st := s.tables;
    AddTakesFirstFree(st, k.0, q);
    assert k == (k.0, k.1);
    var r := Next(s, AddNext(k.0, q)).tables;
    x :| IsFirstFree(HorizonOf(st, k.1), Occupied(st, k.1, k.0), x) && OnlyMoved(st, r, k, x);
    MovedIsReplaced(st, r, k, x);
    AddKeepsQueue(st, k.0, q);
  }

  lemma MovedIsReplaced(st: State, r: State, k: Key, x: Instant)
    requires OnlyMoved(st, r, k, x) && k in st.children
    ensures Replaced(st, r, k, st.children[k].(scheduledAt := Some(x)))
  {
    forall c | c in st.children && c != k ensures r.children[c] == st.children[c] {
      assert At(r.children, c) == At(st.children, c);
    }
  }

  lemma AddKeepsQueue(st: State, p: PostId, q: QueueId)
    requires Valid(st) && q in st.queues
    ensures var r := AddNextAvailable(st, p, q).0; q in r.queues && r.queues[q].channel == st.queues[q].channel
  {}

  /** Its retry starts all the same. */
  lemma StartAnyway(s: System, k: Key, j: JobId) returns (states: seq<System>, actions: seq<Action>)
    requires Valid(s.tables) && IsRetryDue(s, k) && j !in s.jobs
    ensures IsRun(states, actions) && |actions| == 2 && states[0] == s
    ensures actions[0].PollRetries? && actions[1].StartRetry? && actions[1].k == k
    ensures var row, r := s.tables.children[k], states[2];
      && r.tables == Saved(s.tables, k, row.(status := Publishing))
      && j in r.jobs && r.jobs[j].key == k && r.jobs[j].row.child == row
  {
    var s1 := Next(s, PollRetries);
    var row := RowRead(s.tables.children[k], RetryOf(s, k));
    assert (k, row) in s1.picked;
    var start := StartRetry(k, row, j);
    assert Steps(s, PollRetries, s1) && Steps(s1, start, Next(s1, start));
    states, actions := [s, s1, Next(s1, start)], [PollRetries, start];
  }

  /** Child `k` is being published ahead of `x`, the first free slot it was given at `st`; `p` has
      no slot yet. */
  ghost predicate StartedAhead(s: System, st: State, k: Key, q: QueueId, p: PostId, j: JobId, x: Instant) {
    && Valid(s.tables) && q in s.tables.queues && s.tables.queues[q].channel == k.1 && k.1 in s.tables.channels
    && k in st.children && Replaced(st, s.tables, k, st.children[k].(status := Publishing, scheduledAt := Some(x)))
    && j in s.jobs && s.jobs[j].key == k && s.jobs[j].row.child.scheduledAt == Some(x)
    && p != k.0 && (p, k.1) in st.children && !IsProtected(st, (p, k.1)) && At(st.children, (p, k.1)).None?
    && IsFirstFree(HorizonOf(st, k.1), Occupied(st, k.1, k.0), x)
  }

  /** Adding an unprotected post when there is a free slot. */
  lemma AddMoves(st: State, p: PostId, q: QueueId) returns (y: Instant)
    requires Valid(st) && QueueOf(st, q) && !IsProtected(st, (p, st.queues[q].channel))
    requires exists x :: x in HorizonOf(st, st.queues[q].channel) && x !in Occupied(st, st.queues[q].channel, p)
    ensures var r, ch := AddNextAvailable(st, p, q).0, st.queues[q].channel;
      Valid(r) && IsFirstFree(HorizonOf(st, ch), Occupied(st, ch, p), y) && OnlyMoved(st, r, (p, ch), y)
  {
    var r, ch := AddNextAvailable(st, p, q).0, st.queues[q].channel;
    AddTakesFirstFree(st, p, q);
    y :| IsFirstFree(HorizonOf(st, ch), Occupied(st, ch, p), y) && OnlyMoved(st, r, (p, ch), y);
  }

  /** The slot of a child being published looks free, so the next post to be added gets it. */
  lemma SlotIsTaken(s: System, st: State, k: Key, q: QueueId, p: PostId, j: JobId, x: Instant)
    requires StartedAhead(s, st, k, q, p, j, x)
    ensures Valid(Next(s, AddNext(p, q)).tables) && AheadOfTime(Next(s, AddNext(p, q)), k, (p, k.1), j, x)
  {
    SameOccupiedBut(s.tables, st, k, p);
    HorizonIncreasing(st.channels[k.1], st.now);
    assert x in HorizonOf(s.tables, k.1) && x !in Occupied(s.tables, k.1, p);
    var y := AddMoves(s.tables, p, q);
    var r := Next(s, AddNext(p, q)).tables;
    FirstFreeIsUnique(HorizonOf(st, k.1), Occupied(st, k.1, k.0), x);
    FirstFreeIsUnique(HorizonOf(st, k.1), Occupied(st, k.1, k.0), y);
    assert At(r.children, k) == At(s.tables.children, k);
  }

  lemma SameOccupiedBut(r: State, st: State, k: Key, p: PostId)
    requires k in st.children && r.now == st.now && r.children.Keys == st.children.Keys && IsProtected(r, k)
    requires forall c :: c in st.children && c != k ==> r.children[c] == st.children[c]
    requires p != k.0 && At(st.children, (p, k.1)).None?
    ensures Occupied(r, k.1, p) == Occupied(st, k.1, k.0)
  {
    forall c: Key | c.1 == k.1
      ensures c.0 != p && Claims(r, c) <==> c.0 != k.0 && Claims(st, c)
      ensures c.0 != k.0 && c in st.children ==> r.children[c] == st.children[c]
    {
      assert c == (c.0, c.1) && k == (k.0, k.1);
    }
  }

  /** Fail, wait, reslot, query, start early, and let another post take the slot. */
  ghost predicate EarlyActions(actions: seq<Action>, k: Key, j: JobId, q: QueueId, p: PostId) {
    && |actions| >= 6
    && actions[0] == End(j, Transient) && actions[1].Tick? && actions[2] == AddNext(k.0, q)
    && actions[3].PollRetries? && actions[4].StartRetry? && actions[4].k == k && actions[5] == AddNext(p, q)
  }

  /** The job was retried ahead of the slot `x` its child had just been given. */
  lemma RetryAhead(s: System, j: JobId, q: QueueId, p: PostId)
      returns (states: seq<System>, actions: seq<Action>, mid: State, x: Instant)
    requires j in s.jobs && Setting(s, j, q, p)
    ensures IsRun(states, actions) && |actions| == 5 && states[0] == s
    ensures actions[0] == End(j, Transient) && actions[1].Tick? && actions[2] == AddNext(s.jobs[j].key.0, q)
    ensures actions[3].PollRetries? && actions[4].StartRetry? && actions[4].k == s.jobs[j].key
    ensures StartedAhead(states[5], mid, s.jobs[j].key, q, p, j, x)
  {
    states, actions, mid, x := WaitAndReslot(s, j, q, p);
    var more, last := StartAnyway(states[3], s.jobs[j].key, j);
    WaitingThenStarted(states[3], more[2], mid, s.jobs[j].key, q, p, j, x);
    RunsJoin(states, actions, more, last);
    states, actions := states + more[1..], actions + last;
  }

  /** As `StartedAhead`, with the retry still to start. */
  ghost predicate WaitingAhead(s: System, st: State, k: Key, q: QueueId, p: PostId, j: JobId, x: Instant) {
    && Valid(s.tables) && q in s.tables.queues && s.tables.queues[q].channel == k.1 && k.1 in s.tables.channels
    && IsRetryDue(s, k) && j !in s.jobs
    && k in st.children && Replaced(st, s.tables, k, st.children[k].(scheduledAt := Some(x)))
    && p != k.0 && (p, k.1) in st.children && !IsProtected(st, (p, k.1)) && At(st.children, (p, k.1)).None?
    && k.1 in st.channels && IsFirstFree(HorizonOf(st, k.1), Occupied(st, k.1, k.0), x)
  }

  lemma WaitingThenStarted(s: System, r: System, st: State, k: Key, q: QueueId, p: PostId, j: JobId, x: Instant)
    requires WaitingAhead(s, st, k, q, p, j, x)
    requires r.tables == Saved(s.tables, k, s.tables.children[k].(status := Publishing))
    requires j in r.jobs && r.jobs[j].key == k && r.jobs[j].row.child == s.tables.children[k]
    ensures StartedAhead(r, st, k, q, p, j, x)
  {
    assert r.tables.children == st.children[k := st.children[k].(status := Publishing, scheduledAt := Some(x))];
  }

  lemma WaitAndReslot(s: System, j: JobId, q: QueueId, p: PostId)
      returns (states: seq<System>, actions: seq<Action>, mid: State, x: Instant)
    requires j in s.jobs && Setting(s, j, q, p)
    ensures IsRun(states, actions) && |actions| == 3 && states[0] == s
    ensures actions[0] == End(j, Transient) && actions[1].Tick? && actions[2] == AddNext(s.jobs[j].key.0, q)
    ensures WaitingAhead(states[3], mid, s.jobs[j].key, q, p, j, x)
  {
    var k := s.jobs[j].key;
    states, actions := FailAndWait(s, j, q, p);
    mid := states[2].tables;
    SameOccupancy(s, states[2], j);
    x := Reslot(states[2], k, q);
    RunExtends(states, actions, AddNext(k.0, q));
    states, actions := states + [Next(states[2], AddNext(k.0, q))], actions + [AddNext(k.0, q)];
  }

  /** In any such setting: fail, wait, reslot, start early, and let another post take the slot. */
  lemma EarlyStart(s: System, j: JobId, q: QueueId, p: PostId)
      returns (states: seq<System>, actions: seq<Action>, x: Instant)
    requires j in s.jobs && Setting(s, j, q, p)
    ensures IsRun(states, actions) && |actions| == 6 && states[0] == s
    ensures EarlyActions(actions, s.jobs[j].key, j, q, p)
    ensures Valid(states[6].tables) && AheadOfTime(states[6], s.jobs[j].key, (p, s.jobs[j].key.1), j, x)
  {
    var mid;
    states, actions, mid, x := RetryAhead(s, j, q, p);
    SlotIsTaken(states[5], mid, s.jobs[j].key, q, p, j, x);
    RunExtends(states, actions, AddNext(p, q));
    states, actions := states + [Next(states[5], AddNext(p, q))], actions + [AddNext(p, q)];
  }

  lemma SameOccupancy(s: System, mid: System, j: JobId)
    requires j in s.jobs && s.jobs[j].key in s.tables.children
    requires var row := s.jobs[j].row.child.(status := Scheduled);
      mid.tables == Saved(s.tables, s.jobs[j].key, row).(now := RetryTime(s, j))
    ensures var k, later := s.jobs[j].key, s.tables.(now := RetryTime(s, j));
      Occupied(mid.tables, k.1, k.0) == Occupied(later, k.1, k.0)
  {
    var k, later := s.jobs[j].key, s.tables.(now := RetryTime(s, j));
    assert forall c :: c != k ==> (Claims(mid.tables, c) <==> Claims(later, c));
  }

  lemma RunsJoin(a: seq<System>, x: seq<Action>, b: seq<System>, y: seq<Action>)
    requires IsRun(a, x) && IsRun(b, y) && a[|x|] == b[0]
    ensures IsRun(a + b[1..], x + y)
  {
    var states, actions := a + b[1..], x + y;
    forall i | 0 <= i < |actions|
      ensures Steps(states[i], actions[i], states[i + 1])
    {
      if i >= |x| { assert Steps(b[i - |x|], y[i - |x|], b[i - |x| + 1]); } else { assert Steps(a[i], x[i], a[i + 1]); }
    }
  }

  lemma JobMayEnd(s: System, k: Key, other: Key, j: JobId, x: Instant, how: Ending)
    requires AheadOfTime(s, k, other, j, x)
    ensures Enabled(s, End(j, how))
  {
    assert k in s.tables.children && k.0 == s.jobs[j].key.0;
  }

  lemma SuccessCorrupts(s: System, k: Key, other: Key, j: JobId, x: Instant)
    requires Valid(s.tables) && AheadOfTime(s, k, other, j, x) && Enabled(s, End(j, Success))
    ensures Corrupt(Next(s, End(j, Success)).tables, k)
  {}

  lemma FailureDoubleBooks(s: System, k: Key, other: Key, j: JobId, x: Instant)
    requires Valid(s.tables) && AheadOfTime(s, k, other, j, x) && Enabled(s, End(j, Permanent))
    ensures !NoDoubleBooking(Next(s, End(j, Permanent)).tables)
  {
    var r := Next(s, End(j, Permanent)).tables;
    assert Claims(r, k) && Claims(r, other) && At(r.children, k) == At(r.children, other);
  }

  /** The same run with the end of the early attempt. */
  lemma EarlyEnd(s: System, j: JobId, q: QueueId, p: PostId, how: Ending)
      returns (states: seq<System>, actions: seq<Action>, x: Instant)
    requires j in s.jobs && Setting(s, j, q, p)
    ensures IsRun(states, actions) && |actions| == 7 && states[0] == s
    ensures EarlyActions(actions, s.jobs[j].key, j, q, p) && actions[6] == End(j, how)
    ensures Valid(states[6].tables) && AheadOfTime(states[6], s.jobs[j].key, (p, s.jobs[j].key.1), j, x)
    ensures Enabled(states[6], End(j, how)) && states[7] == Next(states[6], End(j, how))
  {
    states, actions, x := EarlyStart(s, j, q, p);
    JobMayEnd(states[6], s.jobs[j].key, (p, s.jobs[j].key.1), j, x, how);
    RunExtends(states, actions, End(j, how));
    states, actions := states + [Next(states[6], End(j, how))], actions + [End(j, how)];
  }

  /** If the early attempt fails for good the channel is double-booked. */
  lemma EarlyFailureDoubleBooks(s: System, j: JobId, q: QueueId, p: PostId)
      returns (states: seq<System>, actions: seq<Action>)
    requires j in s.jobs && Setting(s, j, q, p)
    ensures IsRun(states, actions) && |actions| == 7 && states[0] == s && Inv(states[0].tables)
    ensures EarlyActions(actions, s.jobs[j].key, j, q, p) && actions[6] == End(j, Permanent)
    ensures !NoDoubleBooking(states[7].tables)
  {
    var x;
    states, actions, x := EarlyEnd(s, j, q, p, Permanent);
    FailureDoubleBooks(states[6], s.jobs[j].key, (p, s.jobs[j].key.1), j, x);
  }

  /** If it succeeds the table holds a published row scheduled after its publication. */
  lemma EarlySuccessNeedsRepair(s: System, j: JobId, q: QueueId, p: PostId)
      returns (states: seq<System>, actions: seq<Action>)
    requires j in s.jobs && Setting(s, j, q, p)
    ensures IsRun(states, actions) && |actions| == 7 && states[0] == s && Inv(states[0].tables)
    ensures EarlyActions(actions, s.jobs[j].key, j, q, p) && actions[6] == End(j, Success)
    ensures Corrupt(states[7].tables, s.jobs[j].key)
  {
    var x;
    states, actions, x := EarlyEnd(s, j, q, p, Success);
    SuccessCorrupts(states[6], s.jobs[j].key, (p, s.jobs[j].key.1), j, x);
  }

  // ------------------------------------------------------------------ a concrete setting

  const DAY: int := 86_400 * SECOND

  /** One channel with a weekly slot, one post being published, one draft. */
  function OnePostUnderWay(): System {
    var zone := Zone((d: Day, t: nat) => d * DAY + t, x => x / DAY);
    var child := PlatformPost(Publishing, Some(0), None);
    System(
      State(0, map[0 := Config([Slot(0, 0)], zone)], map[(1, 0) := child, (2, 0) := PlatformPost(Draft, None, None)],
            map[1 := Some(0)], map[0 := Queue(0, [])]),
      map[], {}, {}, map[0 := Job((1, 0), RowRead(child, None))])
  }

  lemma ConcreteTables()
    ensures Inv(OnePostUnderWay().tables)
  {
    var st := OnePostUnderWay().tables;
    forall p ensures Parent(st, p) == MinSchedule(st.children, p) {
      if p == 1 {
        assert st.children[(1, 0)].scheduledAt == Some(0);
        assert Times(st.children, 1) == {0};
      } else {
        assert Times(st.children, p) == {};
      }
    }
  }

  /** A weekly slot comes round within the horizon. */
  lemma ConcreteSlot(c: Config, now: Instant)
    requires 0 <= now < DAY && c.slots == [Slot(0, 0)]
    requires c.zone.dayOf(now) == 0 && c.zone.resolve(1, 0) == DAY
    ensures DAY in Horizon(c, now)
  {
    assert Slot(0, 0) in c.slots && OnDay(Slot(0, 0), 1);
    assert SlotInstant(c.zone, c.slots, now, 1, DAY);
    HorizonExact(c, now, DAY);
  }

  lemma ConcreteFreeSlot()
    ensures var s := OnePostUnderWay();
      var later := s.tables.(now := RetryTime(s, 0));
      0 in later.channels && DAY in HorizonOf(later, 0) && DAY !in Occupied(later, 0, 1)
  {
    var s := OnePostUnderWay();
    var later := s.tables.(now := RetryTime(s, 0));
    assert later.now == 60 * SECOND;
    ConcreteSlot(later.channels[0], later.now);
    assert forall c :: c in later.children ==> !Claims(later, c);
  }

  lemma ConcreteJob()
    ensures JobsAreTimely(OnePostUnderWay())
  {}

  /** Such a setting exists, so both runs do. */
  lemma ConcreteSetting()
    ensures Setting(OnePostUnderWay(), 0, 0, 2) && JobsAreTimely(OnePostUnderWay())
  {
    ConcreteTables();
    ConcreteFreeSlot();
    ConcreteJob();
  }

  /** A concrete run from sound tables ends double-booked. */
  lemma DoubleBookedRun() returns (states: seq<System>, actions: seq<Action>)
    ensures IsRun(states, actions) && |actions| == 7 && states[0] == OnePostUnderWay() && Inv(states[0].tables)
    ensures EarlyActions(actions, (1, 0), 0, 0, 2) && actions[6] == End(0, Permanent)
    ensures !NoDoubleBooking(states[7].tables)
  {
    ConcreteSetting();
    states, actions := EarlyFailureDoubleBooks(OnePostUnderWay(), 0, 0, 2);
  }

  /** A concrete run from sound tables ends with a row to repair. */
  lemma CorruptedRun() returns (states: seq<System>, actions: seq<Action>)
    ensures IsRun(states, actions) && |actions| == 7 && states[0] == OnePostUnderWay() && Inv(states[0].tables)
    ensures EarlyActions(actions, (1, 0), 0, 0, 2) && actions[6] == End(0, Success)
    ensures Corrupt(states[7].tables, (1, 0))
  {
    ConcreteSetting();
    states, actions := EarlySuccessNeedsRepair(OnePostUnderWay(), 0, 0, 2);
  }
}
