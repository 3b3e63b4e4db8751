/**
 What each step of the scheduler changes, and where what a state of a run shows came from:
 rows, publications, queue entries, jobs, due children and retries.
 */
module Provenance {
  import opened Common
  import opened Slots
  import opened Store
  import opened QueueOps
  import opened QueueLaws
  import opened EditLaws
  import opened Runs
  import opened RunLaws

  // ------------------------------------------------------------------ which rows a step changes

  /** The step may write the child's row. */
  ghost predicate Concerns(s: System, a: Action, k: Key)
    requires Enabled(s, a)
  {
    match a
    case AddNext(p, q) => k == (p, s.tables.queues[q].channel)
    case ToFront(_, q) => k.1 == s.tables.queues[q].channel
    case Drop(p, q) => k == (p, s.tables.queues[q].channel)
    case Drag(q, _) => k.1 == s.tables.queues[q].channel
    case Reschedule(c, _) => k == c
    case Create(c, _, _) => k == c
    case Transition(c, _) => k == c
    case Withdraw(c) => k == c
    case DeleteChild(c) => k == c
    case DeletePost(p) => k.0 == p
    case StartDue(c, _) => k == c
    case StartRetry(c, _, _) => k == c
    case End(j, _) => k == s.jobs[j].key
    case _ => false
  }

  ghost predicate SameRow(st: State, r: State, k: Key) {
    (k in st.children <==> k in r.children) && (k in st.children ==> r.children[k] == st.children[k])
  }

  lemma QueueStepConcernsOnly(s: System, a: Action, k: Key)
    requires Valid(s.tables) && Enabled(s, a) && !Concerns(s, a, k)
    requires a.AddNext? || a.ToFront? || a.Drop? || a.Drag?
    ensures SameRow(s.tables, NextTables(s, a), k)
  {
    var st := s.tables;
    if a.AddNext? {
      AddTakesFirstFree(st, a.p, a.q);
      assert k in st.children ==> At(NextTables(s, a).children, k) == At(st.children, k);
    }
    if a.ToFront? {
      PrioritizeFailsIff(st, a.p, a.q);
      if !Full(st, a.p, a.q) { PrioritizeGivesSlot(st, a.p, a.q); }
    }
    if a.Drop? { RemoveLeavesGap(st, a.p, a.q); }
    if a.Drag? { ReorderEffect(st, a.q, a.ids); }
  }

  /** No step touches a child it does not name; a queue operation may move the schedules of its
      channel. */
  lemma StepConcernsOnly(s: System, a: Action, k: Key)
    requires Valid(s.tables) && Enabled(s, a) && !Concerns(s, a, k)
    ensures SameRow(s.tables, Next(s, a).tables, k)
  {
    if a.AddNext? || a.ToFront? || a.Drop? || a.Drag? { QueueStepConcernsOnly(s, a, k); }
  }

  /** A calendar drag gives the child its instant, and every row of the child on its channel shows
      it; no other row, in whatever queue, and no other channel's queue changes. */
  lemma RescheduleShows(s: System, k: Key, t: Instant, q: QueueId)
    requires Valid(s.tables) && Enabled(s, Reschedule(k, t)) && q in s.tables.queues
    ensures var r := Next(s, Reschedule(k, t)).tables;
      && At(r.children, k) == Some(t) && q in r.queues && r.queues.Keys == s.tables.queues.Keys
      && var before, after := s.tables.queues[q].entries, r.queues[q].entries;
         if s.tables.queues[q].channel != k.1 then r.queues[q] == s.tables.queues[q]
         else SamePosts(before, after) && Shows(after, k.0, t)
              && forall i :: 0 <= i < |before| && before[i].post != k.0 ==> StillShows(before, after, i)
  {}

  // ------------------------------------------------------------------ the workflow

  /** The status a job's end gives its row: published, to be retried, or failed. */
  ghost function StatusAtEnd(row: RowRead, how: Ending): Status {
    if how == Success then Published
    else if how == Transient && (row.retry.Some? ==> row.retry.value.count < 3) then Scheduled
    else Failed
  }

  /** The status a step gives a child. */
  ghost function StatusAfter(s: System, a: Action, k: Key): Status
    requires Enabled(s, a) && k in s.tables.children
  {
    var status := s.tables.children[k].status;
    match a
    case Drop(p, q) => if k == (p, s.tables.queues[q].channel) && CanMove(status, Draft) then Draft else status
    case Reschedule(c, _) => if k == c && status == Draft then Scheduled else status
    case Transition(c, to) => if k == c then to else status
    case Withdraw(c) => if k == c then Draft else status
    case StartDue(c, _) => if k == c then Publishing else status
    case StartRetry(c, _, _) => if k == c then Publishing else status
    case End(j, how) => if k == s.jobs[j].key then StatusAtEnd(s.jobs[j].row, how) else status
    case _ => status
  }

  lemma QueueStepKeepsStatus(s: System, a: Action, k: Key)
    requires Valid(s.tables) && Enabled(s, a) && k in s.tables.children
    requires a.AddNext? || a.ToFront? || a.Drag?
    ensures var r := NextTables(s, a);
      k in r.children && r.children[k].status == s.tables.children[k].status
      && r.children[k].publishedAt == s.tables.children[k].publishedAt
  {
    var st := s.tables;
    if a.AddNext? {
      AddTakesFirstFree(st, a.p, a.q);
    } else if a.ToFront? {
      PrioritizeFailsIff(st, a.p, a.q);
      if !Full(st, a.p, a.q) { PrioritizeGivesSlot(st, a.p, a.q); }
    } else {
      ReorderEffect(st, a.q, a.ids);
    }
  }

  lemma OwnStepMovesStatus(s: System, a: Action, k: Key)
    requires Valid(s.tables) && Enabled(s, a) && k in s.tables.children && k in NextTables(s, a).children
    requires !a.AddNext? && !a.ToFront? && !a.Drag? && !a.Drop? && Concerns(s, a, k)
    ensures NextTables(s, a).children[k].status == StatusAfter(s, a, k)
  {}

  /** Every step gives every child exactly that status; queue operations but the removal move
      schedules only. */
  lemma StatusMoves(s: System, a: Action, k: Key)
    requires Valid(s.tables) && Enabled(s, a) && k in s.tables.children && k in Next(s, a).tables.children
    ensures Next(s, a).tables.children[k].status == StatusAfter(s, a, k)
  {
    assert Next(s, a).tables == NextTables(s, a);
    if !Concerns(s, a, k) {
      StepConcernsOnly(s, a, k);
    } else if a.AddNext? || a.ToFront? || a.Drag? {
      QueueStepKeepsStatus(s, a, k);
    } else if a.Drop? {
      RemoveLeavesGap(s.tables, a.p, a.q);
    } else {
      OwnStepMovesStatus(s, a, k);
    }
  }

  /** A step moves a status along the workflow only, unless it is the publisher's and its row has
      changed under it. */
  lemma MovesAreLegal(s: System, a: Action, k: Key)
    requires Valid(s.tables) && Enabled(s, a) && k in s.tables.children && k in Next(s, a).tables.children
    requires a.StartRetry? && a.k == k ==> InStatus(s.tables, k, Scheduled)
    requires a.End? && s.jobs[a.j].key == k ==> InStatus(s.tables, k, Publishing)
    ensures var before, after := s.tables.children[k].status, Next(s, a).tables.children[k].status;
      after == before || CanMove(before, after)
  {
    StatusMoves(s, a, k);
  }

  /** The step publishes the child: a job succeeds on it, or it is moved by hand. */
  ghost predicate Publishes(s: System, a: Action, k: Key)
    requires Enabled(s, a)
  {
    (a.End? && a.how == Success && s.jobs[a.j].key == k) || a == Transition(k, Published)
  }

  /** The schedule and the stamp of publication a step gives the child it concerns: a job's end puts
      back both as it read them, and only a publication stamps. */
  lemma OwnStepMovesTimes(s: System, a: Action, k: Key)
    requires Valid(s.tables) && Enabled(s, a) && Concerns(s, a, k)
    requires k in s.tables.children && k in NextTables(s, a).children
    requires !a.AddNext? && !a.ToFront? && !a.Drag? && !a.Drop?
    ensures var before, after := s.tables.children[k], NextTables(s, a).children[k];
      && after.publishedAt == (if Publishes(s, a, k) then Some(s.tables.now)
                               else if a.End? then s.jobs[a.j].row.child.publishedAt else before.publishedAt)
      && after.scheduledAt == (if a.Reschedule? then Some(a.t) else if a.Withdraw? then None
                               else if a.End? then s.jobs[a.j].row.child.scheduledAt else before.scheduledAt)
  {}

  /** The steps that come from outside change what they say: the order of a queue's rows, a
      channel's slots, the clock. */
  lemma OutsideSteps(s: System, a: Action)
    requires Valid(s.tables) && Enabled(s, a) && (a.Relist? || a.EditSlots? || a.Tick?)
    ensures var st, r := s.tables, Next(s, a).tables;
      && r.children == st.children && r.parents == st.parents
      && r.now == (if a.Tick? then a.t else st.now)
      && r.channels == (if a.EditSlots? then st.channels + map[a.ch := a.config] else st.channels)
      && (if a.Relist? then r.queues == st.queues[a.q := Queue(st.queues[a.q].channel, a.entries)]
          else r.queues == st.queues)
  {}

  // ------------------------------------------------------------------ who is in a queue

  /** The step puts the post into the queue. */
  ghost predicate Joins(s: System, a: Action, o: QueueId, x: PostId)
    requires Valid(s.tables) && Enabled(s, a)
  {
    var st := s.tables;
    match a
    case AddNext(p, q) =>
      o == q && x == p && !IsProtected(st, (p, st.queues[q].channel))
      && exists t :: t in HorizonOf(st, st.queues[q].channel) && t !in Occupied(st, st.queues[q].channel, p)
    case ToFront(p, q) => o == q && x == p && !Full(st, p, q)
    case _ => false
  }

  /** The step takes the post out of it: it is removed, goes back to draft, is published or deleted. */
  ghost predicate Leaves(s: System, a: Action, o: QueueId, x: PostId)
    requires Enabled(s, a) && o in s.tables.queues
  {
    var st, ch := s.tables, s.tables.queues[o].channel;
    match a
    case Drop(p, q) => x == p && (o == q || (Drafts(st, (p, ch)) && ch == st.queues[q].channel))
    case Withdraw(k) => k == (x, ch)
    case End(j, how) => how == Success && s.jobs[j].key == (x, ch)
    case DeleteChild(k) => x == k.0 && !HasChildren(st.children - {k}, x)
    case DeletePost(p) => x == p
    case _ => false
  }

  lemma HasEntryAfterDrop(entries: seq<Entry>, p: PostId, x: PostId)
    ensures HasEntry(DropEntry(entries, p), x) <==> HasEntry(entries, x) && x != p
  {
    DropEntryExact(entries, p);
    var after := DropEntry(entries, p);
    if HasEntry(entries, x) && x != p {
      var i :| 0 <= i < |entries| && entries[i].post == x;
      assert entries[i] in after;
      var j :| 0 <= j < |after| && after[j] == entries[i];
    }
    if HasEntry(after, x) {
      var j :| 0 <= j < |after| && after[j].post == x;
      assert after[j] in entries;
      var i :| 0 <= i < |entries| && entries[i] == after[j];
    }
  }

  lemma JoinedHas(before: seq<Entry>, after: seq<Entry>, p: PostId, x: PostId)
    requires Joined(before, after, p)
    ensures HasEntry(after, x) <==> HasEntry(before, x) || x == p
  {
    var n := |before|;
    forall i | 0 <= i < n ensures after[i].post == before[i].post { assert after[..n][i] == after[i]; }
    if HasEntry(before, x) {
      var i :| 0 <= i < n && before[i].post == x;
      assert after[i].post == x;
    }
  }

  lemma AddMembership(s: System, p: PostId, q: QueueId, o: QueueId, x: PostId)
    requires Valid(s.tables) && q in s.tables.queues && o in s.tables.queues
    ensures var r := AddNextAvailable(s.tables, p, q).0;
      o in r.queues
      && (HasEntry(r.queues[o].entries, x)
          <==> HasEntry(s.tables.queues[o].entries, x) || Joins(s, AddNext(p, q), o, x))
  {
    var st, ch := s.tables, s.tables.queues[q].channel;
    AddTakesFirstFree(st, p, q);
    var (r, outcome) := AddNextAvailable(st, p, q);
    if !IsProtected(st, (p, ch)) && outcome == Done {
      var t :| IsFirstFree(HorizonOf(st, ch), Occupied(st, ch, p), t) && Queued(st, r, p, q, t);
      JoinedHas(st.queues[q].entries, r.queues[q].entries, p, x);
    }
  }

  lemma ToFrontMembership(s: System, p: PostId, q: QueueId, o: QueueId, x: PostId)
    requires Valid(s.tables) && q in s.tables.queues && o in s.tables.queues
    ensures var r := Prioritize(s.tables, p, q).0;
      o in r.queues
      && (HasEntry(r.queues[o].entries, x)
          <==> HasEntry(s.tables.queues[o].entries, x) || Joins(s, ToFront(p, q), o, x))
  {
    var st, ch := s.tables, s.tables.queues[q].channel;
    var r := Prioritize(st, p, q).0;
    PrioritizeFailsIff(st, p, q);
    if !Full(st, p, q) {
      if FrontHeld(st, p, q) {
        LadderShows(st, p, q);
      } else {
        PrioritizeWithoutLadder(st, p, q);
        var t :| IsFirstFree(HorizonOf(st, ch), Occupied(st, ch, p), t) && Queued(st, r, p, q, t);
      }
      JoinedHas(st.queues[q].entries, r.queues[q].entries, p, x);
    }
  }

  lemma SameRowsHave(a: seq<Entry>, b: seq<Entry>, x: PostId)
    requires |a| == |b| && forall i :: 0 <= i < |a| ==> a[i].post == b[i].post
    ensures HasEntry(a, x) <==> HasEntry(b, x)
  {
    if HasEntry(a, x) {
      var i :| 0 <= i < |a| && a[i].post == x;
      assert b[i].post == x;
    }
    if HasEntry(b, x) {
      var i :| 0 <= i < |b| && b[i].post == x;
      assert a[i].post == x;
    }
  }

  lemma RelistMembership(a: seq<Entry>, b: seq<Entry>, x: PostId)
    requires multiset(a) == multiset(b)
    ensures HasEntry(a, x) <==> HasEntry(b, x)
  {
    PermutationKeeps(a, b);
    if HasEntry(a, x) {
      var i :| 0 <= i < |a| && a[i].post == x;
      assert a[i] in b;
      var j :| 0 <= j < |b| && b[j] == a[i];
    }
    if HasEntry(b, x) {
      var i :| 0 <= i < |b| && b[i].post == x;
      assert b[i] in a;
      var j :| 0 <= j < |a| && a[j] == b[i];
    }
  }

  lemma EditMembership(s: System, a: Action, o: QueueId, x: PostId)
    requires Valid(s.tables) && Enabled(s, a) && o in s.tables.queues
    requires a.Drop? || a.Drag? || a.Relist? || a.Reschedule?
    ensures var r := NextTables(s, a);
      o in r.queues
      && (HasEntry(r.queues[o].entries, x) <==> HasEntry(s.tables.queues[o].entries, x) && !Leaves(s, a, o, x))
  {
    var st := s.tables;
    if a.Drop? {
      RemoveIsDrop(st, a.p, a.q, o);
      HasEntryAfterDrop(st.queues[o].entries, a.p, x);
    } else if a.Drag? {
      ReorderEffect(st, a.q, a.ids);
      SameRowsHave(st.queues[o].entries, NextTables(s, a).queues[o].entries, x);
    } else if a.Relist? {
      RelistMembership(a.entries, st.queues[a.q].entries, x);
    } else {
      SameRowsHave(st.queues[o].entries, NextTables(s, a).queues[o].entries, x);
    }
  }

  /** The removal filters the queues it touches. */
  lemma RemoveIsDrop(st: State, p: PostId, q: QueueId, o: QueueId)
    requires Valid(st) && q in st.queues && o in st.queues
    ensures var r, ch := Remove(st, p, q), st.queues[q].channel;
      o in r.queues
      && r.queues[o].entries == if o == q || (Drafts(st, (p, ch)) && st.queues[o].channel == ch)
                                then DropEntry(st.queues[o].entries, p) else st.queues[o].entries
  {
    DropEntryExact(st.queues[q].entries, p);
    DropNothing(DropEntry(st.queues[q].entries, p), p);
  }

  /** A queue gains a post only by adding or prioritising it there with a slot to be had, and loses
      it only when it is removed, drafted, published or deleted: exactly then. */
  lemma MembershipLaw(s: System, a: Action, o: QueueId, x: PostId)
    requires Valid(s.tables) && Enabled(s, a) && o in s.tables.queues
    ensures var r := Next(s, a).tables;
      o in r.queues
      && (HasEntry(r.queues[o].entries, x)
          <==> (HasEntry(s.tables.queues[o].entries, x) && !Leaves(s, a, o, x)) || Joins(s, a, o, x))
  {
    var entries := s.tables.queues[o].entries;
    assert Next(s, a).tables == NextTables(s, a);
    if a.AddNext? {
      AddMembership(s, a.p, a.q, o, x);
    } else if a.ToFront? {
      ToFrontMembership(s, a.p, a.q, o, x);
    } else if a.Drop? || a.Drag? || a.Relist? || a.Reschedule? {
      EditMembership(s, a, o, x);
    } else {
      if a.Withdraw? { HasEntryAfterDrop(entries, a.k.0, x); }
      if a.End? { HasEntryAfterDrop(entries, s.jobs[a.j].key.0, x); }
      if a.DeleteChild? { HasEntryAfterDrop(entries, a.k.0, x); }
      if a.DeletePost? { HasEntryAfterDrop(entries, a.p, x); }
    }
  }

  // ------------------------------------------------------------------ publications

  lemma OwnStepPublishes(s: System, a: Action, k: Key)
    requires Valid(s.tables) && Enabled(s, a) && Concerns(s, a, k) && InStatus(NextTables(s, a), k, Published)
    requires !a.AddNext? && !a.ToFront? && !a.Drag? && !a.Drop?
    ensures Publishes(s, a, k) && NextTables(s, a).children[k].publishedAt == Some(s.tables.now)
  {}

  /** A child is published by such a step, or it was published before; either way its row carries
      the moment it was. */
  lemma StepPublishes(s: System, a: Action, k: Key)
    requires Valid(s.tables) && Enabled(s, a) && InStatus(Next(s, a).tables, k, Published)
    ensures var at := Next(s, a).tables.children[k].publishedAt;
      || (Publishes(s, a, k) && at == Some(s.tables.now))
      || (InStatus(s.tables, k, Published) && s.tables.children[k].publishedAt == at)
  {
    assert Next(s, a).tables == NextTables(s, a);
    if !Concerns(s, a, k) {
      StepConcernsOnly(s, a, k);
    } else if a.AddNext? || a.ToFront? || a.Drag? {
      QueueStepKeepsKeys(s, a);
      QueueStepKeepsStatus(s, a, k);
    } else if a.Drop? {
      RemoveLeavesGap(s.tables, a.p, a.q);
    } else {
      OwnStepPublishes(s, a, k);
    }
  }

  lemma QueueStepKeepsKeys(s: System, a: Action)
    requires Valid(s.tables) && Enabled(s, a) && (a.AddNext? || a.ToFront? || a.Drag?)
    ensures NextTables(s, a).children.Keys == s.tables.children.Keys
  {
    var st := s.tables;
    if a.AddNext? {
      AddTakesFirstFree(st, a.p, a.q);
    } else if a.ToFront? {
      PrioritizeFailsIff(st, a.p, a.q);
      if !Full(st, a.p, a.q) { PrioritizeGivesSlot(st, a.p, a.q); }
    } else {
      ReorderEffect(st, a.q, a.ids);
    }
  }

  /** In any run, whatever is published was published by some step of it, at the moment its row
      says, unless it was published from the start. */
  lemma {:induction false} PublicationsHappened(states: seq<System>, actions: seq<Action>, n: nat, k: Key)
    requires IsRun(states, actions) && n < |states|
    requires InStatus(states[n].tables, k, Published) && !InStatus(states[0].tables, k, Published)
    ensures exists i :: 0 <= i < n && Steps(states[i], actions[i], states[i + 1]) && Publishes(states[i], actions[i], k)
                        && states[n].tables.children[k].publishedAt == Some(states[i].tables.now)
  {
    assert Steps(states[n - 1], actions[n - 1], states[n - 1 + 1]);
    StepPublishes(states[n - 1], actions[n - 1], k);
    if !(Publishes(states[n - 1], actions[n - 1], k)
         && states[n].tables.children[k].publishedAt == Some(states[n - 1].tables.now)) {
      PublicationsHappened(states, actions, n - 1, k);
    }
  }

  // ------------------------------------------------------------------ history is final

  lemma CarefulKeepsPublished(s: System, a: Action, k: Key)
    requires Valid(s.tables) && JobsAreTimely(s) && Enabled(s, a) && Careful(s, a)
    requires InStatus(s.tables, k, Published) && !(a.DeletePost? && a.p == k.0)
    ensures SameRow(s.tables, Next(s, a).tables, k)
  {
    if a.AddNext? || a.ToFront? || a.Drop? || a.Drag? {
      QueueStepKeepsHistory(s, a);
    } else {
      if a.End? { assert JobIsTimely(s, s.jobs[a.j]); }
      StepConcernsOnly(s, a, k);
    }
  }

  lemma StepOfCarefulRun(states: seq<System>, actions: seq<Action>, i: nat, k: Key)
    requires IsRun(states, actions) && Inv(states[0].tables) && JobsAreTimely(states[0]) && i < |actions|
    requires CarefulUpTo(states, actions, i + 1) && actions[i] != DeletePost(k.0)
    ensures InStatus(states[i].tables, k, Published) ==> SameRow(states[i].tables, states[i + 1].tables, k)
  {
    CarefulRunsAreSafe(states, actions, i);
    assert Steps(states[i], actions[i], states[i + 1]) && Careful(states[i], actions[i]);
    if InStatus(states[i].tables, k, Published) { CarefulKeepsPublished(states[i], actions[i], k); }
  }

  ghost predicate KeepsPublished(st: State, r: State, k: Key) { InStatus(st, k, Published) ==> SameRow(st, r, k) }

  lemma {:induction false} PublishedStays(states: seq<System>, m: nat, n: nat, k: Key)
    requires m <= n < |states| && InStatus(states[m].tables, k, Published)
    requires forall i :: m <= i < n ==> KeepsPublished(states[i].tables, states[i + 1].tables, k)
    ensures SameRow(states[m].tables, states[n].tables, k)
  {
    if m < n {
      var p := n - 1;
      PublishedStays(states, m, p, k);
      assert KeepsPublished(states[p].tables, states[p + 1].tables, k);
    }
  }

  /** In careful runs a published row is never written again, until its post is deleted. */
  lemma HistoryIsFinal(states: seq<System>, actions: seq<Action>, m: nat, n: nat, k: Key)
    requires IsRun(states, actions) && Inv(states[0].tables) && JobsAreTimely(states[0]) && m <= n < |states|
    requires CarefulUpTo(states, actions, n) && InStatus(states[m].tables, k, Published)
    requires forall i :: m <= i < n ==> actions[i] != DeletePost(k.0)
    ensures SameRow(states[m].tables, states[n].tables, k)
  {
    forall i | m <= i < n ensures KeepsPublished(states[i].tables, states[i + 1].tables, k) {
      StepOfCarefulRun(states, actions, i, k);
    }
    PublishedStays(states, m, n, k);
  }

  // ------------------------------------------------------------------ jobs

  ghost predicate Starts(a: Action, k: Key, j: JobId) {
    (a.StartDue? || a.StartRetry?) && a.k == k && a.j == j
  }

  ghost predicate Closes(a: Action, j: JobId) { (a.End? || a.Abort?) && a.j == j }

  /** Step `i` started job `j` on `k`, and nothing has ended it since. */
  ghost predicate RunningSince(actions: seq<Action>, i: int, n: nat, k: Key, j: JobId)
    requires n <= |actions|
  {
    0 <= i < n && Starts(actions[i], k, j) && forall m :: i < m < n ==> !Closes(actions[m], j)
  }

  lemma StepJobs(s: System, a: Action, j: JobId)
    requires Valid(s.tables) && Enabled(s, a)
    ensures var t := Next(s, a);
      && (j in t.jobs <==> (exists k :: Starts(a, k, j)) || (j in s.jobs && !Closes(a, j)))
      && (forall k :: Starts(a, k, j) ==> j !in s.jobs && j in t.jobs && t.jobs[j].key == k)
      && (j in s.jobs && j in t.jobs ==> t.jobs[j] == s.jobs[j])
  {
    if a.StartDue? || a.StartRetry? { assert Starts(a, a.k, a.j); }
  }

  /** A job exists exactly from its start until its end, on the child it was started for. */
  lemma {:induction false} JobsRunFromStartToEnd(states: seq<System>, actions: seq<Action>, n: nat, k: Key, j: JobId)
    requires IsRun(states, actions) && n < |states| && j !in states[0].jobs
    ensures j in states[n].jobs && states[n].jobs[j].key == k <==> exists i :: RunningSince(actions, i, n, k, j)
  {
    if n > 0 {
      var p, a := n - 1, actions[n - 1];
      JobsRunFromStartToEnd(states, actions, p, k, j);
      assert Steps(states[p], a, states[p + 1]);
      StepJobs(states[p], a, j);
      if Starts(a, k, j) { assert RunningSince(actions, p, n, k, j); }
      if i :| RunningSince(actions, i, p, k, j) && !Closes(a, j) { assert RunningSince(actions, i, n, k, j); }
      if i :| RunningSince(actions, i, n, k, j) && i < p { assert RunningSince(actions, i, p, k, j); }
    }
  }

  // ------------------------------------------------------------------ what the two queries found

  /** The child waits to be published, and its time has come: its own, or if it has none its post's. */
  ghost predicate WaitsWhenDue(st: State, k: Key) {
    && InStatus(st, k, Scheduled)
    && match st.children[k].scheduledAt
       case Some(t) => t <= st.now
       case None => Parent(st, k.0).Some? && Parent(st, k.0).value <= st.now
  }

  /** The child waits with this row for a retry of at most three, and the time for it has come. */
  ghost predicate WaitsForRetry(s: System, k: Key, row: RowRead) {
    && InStatus(s.tables, k, Scheduled) && row.child == s.tables.children[k]
    && row.retry.Some? && k in s.retries && row.retry.value == s.retries[k]
    && 1 <= row.retry.value.count <= 3 && row.retry.value.nextAt <= s.tables.now
  }

  lemma QueriesFind(s: System, a: Action, k: Key, row: RowRead)
    requires Valid(s.tables) && Enabled(s, a)
    ensures k in Next(s, a).due <==> k in s.due || (a.PollDue? && WaitsWhenDue(s.tables, k))
    ensures (k, row) in Next(s, a).picked <==> (k, row) in s.picked || (a.PollRetries? && WaitsForRetry(s, k, row))
  {}

  /** What the due query has returned are exactly the children that were waiting when they were due
      at some poll; a job started from it is for one of those. */
  lemma {:induction false} DueWereWaiting(states: seq<System>, actions: seq<Action>, n: nat, k: Key)
    requires IsRun(states, actions) && n < |states| && k !in states[0].due
    ensures k in states[n].due
      <==> exists i :: 0 <= i < n && actions[i].PollDue? && WaitsWhenDue(states[i].tables, k)
  {
    if n > 0 {
      DueWereWaiting(states, actions, n - 1, k);
      assert Steps(states[n - 1], actions[n - 1], states[n - 1 + 1]);
      QueriesFind(states[n - 1], actions[n - 1], k, RowRead(PlatformPost(Draft, None, None), None));
    }
  }

  /** Likewise the retry query, which asks nothing of the schedule and hands on the row it read. */
  lemma {:induction false} PickedWereWaiting(states: seq<System>, actions: seq<Action>, n: nat, k: Key, row: RowRead)
    requires IsRun(states, actions) && n < |states| && (k, row) !in states[0].picked
    ensures (k, row) in states[n].picked
      <==> exists i :: 0 <= i < n && actions[i].PollRetries? && WaitsForRetry(states[i], k, row)
  {
    if n > 0 {
      PickedWereWaiting(states, actions, n - 1, k, row);
      assert Steps(states[n - 1], actions[n - 1], states[n - 1 + 1]);
      QueriesFind(states[n - 1], actions[n - 1], k, row);
    }
  }

  // ------------------------------------------------------------------ retries

  /** Seconds to the first, second and third retry. */
  ghost function Wait(count: nat): int { if count == 1 then 60 else if count == 2 then 300 else 1800 }

  /** A job on the child failed for the time being at step `i`, and this is the retry it was given. */
  ghost predicate GivenAt(states: seq<System>, actions: seq<Action>, i: nat, k: Key, r: Retry)
    requires i < |actions| && i < |states|
  {
    && actions[i].End? && actions[i].how == Transient && actions[i].j in states[i].jobs
    && states[i].jobs[actions[i].j].key == k
    && 1 <= r.count <= 3 && r.nextAt == states[i].tables.now + Wait(r.count) * SECOND
  }

  ghost predicate Given(states: seq<System>, actions: seq<Action>, n: nat, k: Key, r: Retry)
    requires n <= |actions| && n < |states|
  {
    exists i :: 0 <= i < n && GivenAt(states, actions, i, k, r)
  }

  lemma GivenStays(states: seq<System>, actions: seq<Action>, n: nat, k: Key, r: Retry)
    requires n < |actions| && n + 1 < |states| && Given(states, actions, n, k, r)
    ensures Given(states, actions, n + 1, k, r)
  {
    var i :| 0 <= i < n && GivenAt(states, actions, i, k, r);
  }

  /** A retry comes from somewhere it was before, or the step is the failure that gives it. */
  lemma StepGives(s: System, a: Action, k: Key, r: Retry)
    requires Valid(s.tables) && Enabled(s, a)
    ensures RetryOf(Next(s, a), k) == Some(r) ==>
      || RetryOf(s, k) == Some(r)
      || (a.End? && s.jobs[a.j].key == k && s.jobs[a.j].row.retry == Some(r))
      || (a.End? && s.jobs[a.j].key == k && a.how == Transient
          && r.count == Attempts(s.jobs[a.j].row) + 1 && r.count <= 3
          && r.nextAt == s.tables.now + Wait(r.count) * SECOND)
  {}

  /** The retries of tables, rows picked and rows being published. */
  ghost predicate HasRetry(s: System, k: Key, r: Retry) {
    || RetryOf(s, k) == Some(r)
    || (exists row :: (k, row) in s.picked && row.retry == Some(r))
    || (exists j :: j in s.jobs && s.jobs[j].key == k && s.jobs[j].row.retry == Some(r))
  }

  lemma StepHasRetry(s: System, a: Action, k: Key, r: Retry)
    requires Valid(s.tables) && Enabled(s, a) && HasRetry(Next(s, a), k, r) && !HasRetry(s, k, r)
    ensures a.End? && s.jobs[a.j].key == k && a.how == Transient
    ensures 1 <= r.count <= 3 && r.nextAt == s.tables.now + Wait(r.count) * SECOND
  {
    StepGives(s, a, k, r);
  }

  /** Whatever retry a child has, wherever it is read, some failure in the run gave it: at most the
      third, a minute, five minutes or half an hour after that failure. */
  lemma {:induction false} RetriesWereGiven(states: seq<System>, actions: seq<Action>, n: nat, k: Key, r: Retry)
    requires IsRun(states, actions) && n < |states| && HasRetry(states[n], k, r) && !HasRetry(states[0], k, r)
    ensures Given(states, actions, n, k, r)
  {
    var p := n - 1;
    assert Steps(states[p], actions[p], states[p + 1]);
    if HasRetry(states[p], k, r) {
      RetriesWereGiven(states, actions, p, k, r);
      GivenStays(states, actions, p, k, r);
    } else {
      StepHasRetry(states[p], actions[p], k, r);
      assert GivenAt(states, actions, p, k, r);
    }
  }
}
