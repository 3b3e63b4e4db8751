/** Each step keeps the tables sound exactly when it is safe; so do whole runs. */
module RunLaws {
  import opened Common
  import opened Slots
  import opened Store
  import opened QueueOps
  import opened QueueLaws
  import opened EditLaws
  import opened Booking
  import opened Runs

  // ------------------------------------------------------------------ saving a row

  lemma SameChannelKeys(a: Key, b: Key, k: Key)
    requires a.1 == b.1
    ensures a == k && b != k ==> b.0 != k.0
    ensures b == k && a != k ==> a.0 != k.0
  {
    var (x, c) := a;
    var (y, d) := b;
    var (z, e) := k;
  }

  /** Saving any row whatever, new or old, keeps the channel free of double bookings exactly
      when the row is protected or its instant past or unclaimed. */
  lemma SaveKeepsBookingIff(st: State, k: Key, row: PlatformPost)
    requires NoDoubleBooking(st)
    ensures NoDoubleBooking(Saved(st, k, row)) <==> Protected(row) || Open(st, k, row.scheduledAt)
  {
    var r := Saved(st, k, row);
    assert forall c :: c != k ==> (Claims(r, c) <==> Claims(st, c));
    if !Protected(row) && !Open(st, k, row.scheduledAt) {
      var c :| c in st.children && c.1 == k.1 && c.0 != k.0 && Claims(st, c)
               && st.children[c].scheduledAt == row.scheduledAt;
      assert Claims(r, c) && Claims(r, k) && At(r.children, c) == At(r.children, k);
    } else {
      forall a, b | Claims(r, a) && Claims(r, b) && a.1 == b.1 && At(r.children, a) == At(r.children, b)
        ensures a == b
      {
        SameChannelKeys(a, b, k);
      }
    }
  }

  lemma TimesSplit(children: map<Key, PlatformPost>, k: Key)
    requires k in children
    ensures Times(children, k.0)
         == Times(children - {k}, k.0) + if children[k].scheduledAt.Some? then {children[k].scheduledAt.value} else {}
  {
    forall x ensures x in Times(children, k.0)
      <==> x in Times(children - {k}, k.0) || children[k].scheduledAt == Some(x)
    {
      if x in Times(children, k.0) {
        var c :| c in children && c.0 == k.0 && children[c].scheduledAt == Some(x);
        assert c != k ==> c in children - {k};
      }
      if x in Times(children - {k}, k.0) {
        var c :| c in children - {k} && c.0 == k.0 && (children - {k})[c].scheduledAt == Some(x);
        assert c in children && children[c].scheduledAt == Some(x);
      }
    }
  }

  /** A post's earliest schedule is the earlier of one child's and its siblings' earliest. */
  lemma MinSplits(children: map<Key, PlatformPost>, k: Key)
    ensures MinSchedule(children, k.0) == Earlier(MinSchedule(children - {k}, k.0), At(children, k))
  {
    if k in children {
      TimesSplit(children, k);
    } else {
      assert children - {k} == children;
    }
  }

  /** The parent keeps to the minimum exactly when the child's new schedule fits. */
  lemma FitsParentIff(st: State, k: Key, children: map<Key, PlatformPost>)
    requires InSync(st) && children - {k} == st.children - {k}
    ensures FitsParent(st, k, At(children, k)) <==> MinSchedule(children, k.0) == Parent(st, k.0)
  {
    MinSplits(children, k);
    MinSplits(st.children, k);
    assert Parent(st, k.0) == MinSchedule(st.children, k.0);
  }

  lemma SiblingPostsKeepMin(st: State, r: State, k: Key, p: PostId)
    requires InSync(st) && r.children - {k} == st.children - {k} && p != k.0
    ensures MinSchedule(r.children, p) == Parent(st, p)
  {
    assert Parent(st, p) == MinSchedule(st.children, p);
    forall c ensures At(st.children, (p, c)) == At(r.children, (p, c)) {
      assert (p, c) != k;
      assert At(st.children - {k}, (p, c)) == At(st.children, (p, c));
      assert At(r.children - {k}, (p, c)) == At(r.children, (p, c));
    }
    MinScheduleFrame(st.children, r.children, p);
  }

  lemma SaveKeepsParentsIff(st: State, k: Key, row: PlatformPost)
    requires InSync(st)
    ensures InSync(Saved(st, k, row)) <==> FitsParent(st, k, row.scheduledAt)
  {
    var r := Saved(st, k, row);
    assert r.children - {k} == st.children - {k};
    FitsParentIff(st, k, r.children);
    assert InSync(r) ==> Parent(r, k.0) == MinSchedule(r.children, k.0);
    forall p | p != k.0 ensures Parent(r, p) == MinSchedule(r.children, p) { SiblingPostsKeepMin(st, r, k, p); }
  }

  lemma SaveKeepsHistoryIff(st: State, k: Key, row: PlatformPost)
    requires HistoryIsPast(st)
    ensures HistoryIsPast(Saved(st, k, row)) <==> RowIsPast(row, st.now)
  {
    var r := Saved(st, k, row);
    assert k in r.children && r.children[k] == row;
    forall c | c in r.children && c != k ensures RowIsPast(r.children[c], r.now) {
      assert RowIsPast(st.children[c], st.now);
    }
  }

  /** Saving a row without syncing its parent. */
  lemma SaveKeepsInvIff(st: State, k: Key, row: PlatformPost)
    requires Inv(st)
    ensures Inv(Saved(st, k, row))
      <==> ((Protected(row) || Open(st, k, row.scheduledAt)) && FitsParent(st, k, row.scheduledAt)
            && RowIsPast(row, st.now))
  {
    SaveKeepsBookingIff(st, k, row);
    SaveKeepsParentsIff(st, k, row);
    SaveKeepsHistoryIff(st, k, row);
  }

  /** An unprotected child holds its own instant. */
  lemma OwnScheduleIsOpen(st: State, k: Key)
    requires NoDoubleBooking(st) && k in st.children && !IsProtected(st, k)
    ensures Open(st, k, st.children[k].scheduledAt)
  {
    var at := st.children[k].scheduledAt;
    assert at.Some? && at.value > st.now ==> Claims(st, k);
    forall c | c in st.children && c.1 == k.1 && c.0 != k.0 && Claims(st, c)
      ensures at.Some? && at.value > st.now ==> st.children[c].scheduledAt != at
    {
      assert At(st.children, c) == st.children[c].scheduledAt && At(st.children, k) == at;
    }
  }

  /** Saving a row and syncing its parent; the queue rows may change as well. */
  lemma SyncedSaveKeepsInvIff(st: State, st1: State, k: Key, row: PlatformPost)
    requires Inv(st) && Valid(st1) && st1 == st.(queues := st1.queues)
    ensures Inv(SavedInSync(st1, k, row))
      <==> (Protected(row) || Open(st, k, row.scheduledAt)) && RowIsPast(row, st.now)
  {
    SaveKeepsBookingIff(st, k, row);
    SaveKeepsHistoryIff(st, k, row);
    var r := SavedInSync(st1, k, row);
    SyncRestores(st, Saved(st1, k, row), k.0);
    assert InSync(r) && Valid(r);
    BookingReadsChildren(Saved(st, k, row), r);
    assert HistoryIsPast(r) <==> HistoryIsPast(Saved(st, k, row));
  }

  lemma BookingReadsChildren(a: State, b: State)
    requires a.children == b.children && a.now == b.now
    ensures NoDoubleBooking(a) <==> NoDoubleBooking(b)
  {
    assert forall k :: Claims(a, k) <==> Claims(b, k);
  }

  lemma MirrorKeepsValid(st: State, k: Key, t: Instant)
    requires Valid(st)
    ensures Valid(Mirrored(st, k, t))
  {}

  // ------------------------------------------------------------------ queue operations

  /** A queue operation leaves statuses, and the rows of protected children, as they were. */
  ghost predicate KeepsHistory(st: State, r: State) {
    && r.now == st.now && r.children.Keys == st.children.Keys
    && forall k :: k in st.children ==>
      && (Protected(r.children[k]) <==> Protected(st.children[k]))
      && (Protected(st.children[k]) ==> r.children[k] == st.children[k])
  }

  lemma AddKeepsHistory(st: State, p: PostId, q: QueueId)
    requires Valid(st) && q in st.queues
    ensures KeepsHistory(st, AddNextAvailable(st, p, q).0)
  {
    AddTakesFirstFree(st, p, q);
    var (r, o) := AddNextAvailable(st, p, q);
    var ch := st.queues[q].channel;
    if !IsProtected(st, (p, ch)) && o == Done {
      var t :| OnlyMoved(st, r, (p, ch), t);
      OnlyMovedKeepsHistory(st, r, (p, ch), t);
    }
  }

  lemma OnlyMovedKeepsHistory(st: State, r: State, key: Key, t: Instant)
    requires OnlyMoved(st, r, key, t) && !IsProtected(st, key)
    ensures KeepsHistory(st, r)
  {
    forall k | k in st.children ensures r.children[k].status == st.children[k].status {}
    forall k | IsProtected(st, k) ensures r.children[k] == st.children[k] {
      assert At(r.children, k) == At(st.children, k);
    }
  }

  /** Prioritising an unprotected post, or into a full queue. */
  lemma PrioritizeKeepsHistory(st: State, p: PostId, q: QueueId)
    requires Valid(st) && q in st.queues
    requires IsProtected(st, (p, st.queues[q].channel)) ==> Full(st, p, q)
    ensures KeepsHistory(st, Prioritize(st, p, q).0)
  {
    PrioritizeFailsIff(st, p, q);
    if !Full(st, p, q) {
      PrioritizeGivesSlot(st, p, q);
      var r := Prioritize(st, p, q).0;
      forall k | IsProtected(st, k) ensures r.children[k] == st.children[k] {
        assert At(r.children, k) == At(st.children, k);
      }
    }
  }

  lemma PrioritizeKeepsTables(st: State, p: PostId, q: QueueId)
    requires Valid(st) && q in st.queues
    ensures var r := Prioritize(st, p, q).0; Valid(r) && (InSync(st) ==> InSync(r))
  {
    PrioritizeFailsIff(st, p, q);
    if FrontHeld(st, p, q) && Prioritize(st, p, q).1 == Done {
      LadderKeeps(st, p, q);
    } else if !FrontHeld(st, p, q) {
      PrioritizeWithoutLadder(st, p, q);
    }
  }

  lemma ReorderKeepsHistory(st: State, q: QueueId, ids: seq<PostId>)
    requires Valid(st) && q in st.queues
    ensures KeepsHistory(st, Reorder(st, q, ids))
  {
    ReorderEffect(st, q, ids);
    var r, ch := Reorder(st, q, ids), st.queues[q].channel;
    forall k | IsProtected(st, k) ensures r.children[k] == st.children[k] {
      assert k == (k.0, k.1);
      assert k.1 == ch && k.0 in Permuted(st, q, ids) ==> Named(st, q, k.0);
      assert At(r.children, k) == At(st.children, k);
    }
  }

  lemma RemoveKeepsHistory(st: State, p: PostId, q: QueueId)
    requires Valid(st) && q in st.queues
    ensures KeepsHistory(st, Remove(st, p, q))
  {
    RemoveLeavesGap(st, p, q);
  }

  lemma KeptHistoryIsPast(st: State, r: State)
    requires HistoryIsPast(st) && KeepsHistory(st, r)
    ensures HistoryIsPast(r)
  {
    forall k | k in r.children ensures RowIsPast(r.children[k], r.now) {
      assert RowIsPast(st.children[k], st.now);
    }
  }

  lemma RemoveKeepsInv(st: State, p: PostId, q: QueueId)
    requires Inv(st) && q in st.queues
    ensures Inv(Remove(st, p, q))
  {
    RemoveLeavesGap(st, p, q);
    RemoveKeepsHistory(st, p, q);
    var r := Remove(st, p, q);
    assert forall k :: Claims(r, k) ==> Claims(st, k) && At(r.children, k) == At(st.children, k);
    KeptHistoryIsPast(st, r);
  }

  lemma AddKeepsInv(st: State, p: PostId, q: QueueId)
    requires Inv(st) && q in st.queues
    ensures Inv(AddNextAvailable(st, p, q).0)
  {
    AddTakesFirstFree(st, p, q);
    AddKeepsBooking(st, p, q);
    AddKeepsHistory(st, p, q);
    KeptHistoryIsPast(st, AddNextAvailable(st, p, q).0);
  }

  lemma DragKeepsInvIff(st: State, q: QueueId, ids: seq<PostId>)
    requires Inv(st) && q in st.queues
    ensures Inv(Reorder(st, q, ids)) <==> forall x, y :: !Clash(st, q, ids, x, y)
  {
    ReorderEffect(st, q, ids);
    ReorderKeepsBookingIff(st, q, ids);
    ReorderKeepsHistory(st, q, ids);
    KeptHistoryIsPast(st, Reorder(st, q, ids));
  }

  /** Prioritising breaks the past exactly when the post is published and the queue not full. */
  lemma ToFrontKeepsInvIff(st: State, p: PostId, q: QueueId)
    requires Inv(st) && q in st.queues
    ensures Inv(Prioritize(st, p, q).0) <==> (InStatus(st, (p, st.queues[q].channel), Published) ==> Full(st, p, q))
  {
    var r, key := Prioritize(st, p, q).0, (p, st.queues[q].channel);
    PrioritizeKeepsTables(st, p, q);
    PrioritizeKeepsBooking(st, p, q);
    PrioritizeFailsIff(st, p, q);
    if !Full(st, p, q) {
      PrioritizeGivesSlot(st, p, q);
      if InStatus(st, key, Published) {
        assert RowIsPast(st.children[key], st.now);
        assert !RowIsPast(r.children[key], r.now);
      } else {
        forall k | k in r.children ensures RowIsPast(r.children[k], r.now) {
          assert RowIsPast(st.children[k], st.now);
          assert IsProtected(st, k) && k != key ==> At(r.children, k) == At(st.children, k);
        }
      }
    }
  }

  // ------------------------------------------------------------------ the other steps

  lemma RelistKeepsValid(st: State, q: QueueId, entries: seq<Entry>)
    requires Valid(st) && q in st.queues && multiset(entries) == multiset(st.queues[q].entries)
    ensures Valid(WithEntries(st, q, entries))
  {
    var before := st.queues[q].entries;
    PermutationKeeps(before, entries);
    assert Distinct(before);
    forall i, j | 0 <= i < j < |entries| ensures entries[i].post != entries[j].post {
      assert entries[i] in before && entries[j] in before && entries[i] != entries[j];
    }
  }

  lemma RelistKeepsInv(st: State, q: QueueId, entries: seq<Entry>)
    requires Inv(st) && q in st.queues && multiset(entries) == multiset(st.queues[q].entries)
    ensures Inv(WithEntries(st, q, entries))
  {
    RelistKeepsValid(st, q, entries);
    BookingReadsChildren(st, WithEntries(st, q, entries));
    SameParents(st, WithEntries(st, q, entries));
  }

  lemma SameParents(st: State, r: State)
    requires InSync(st) && r.children == st.children && r.parents == st.parents
    ensures InSync(r)
  {
    forall p ensures Parent(r, p) == MinSchedule(r.children, p) {
      assert Parent(st, p) == MinSchedule(st.children, p);
    }
  }

  lemma ClockAndSlotsKeepInv(s: System, a: Action)
    requires Inv(s.tables) && Enabled(s, a) && (a.Tick? || a.EditSlots?)
    ensures Inv(NextTables(s, a))
  {
    var st, r := s.tables, NextTables(s, a);
    assert forall k :: Claims(r, k) ==> Claims(st, k);
    SameParents(st, r);
    forall k | k in r.children ensures RowIsPast(r.children[k], r.now) { assert RowIsPast(st.children[k], st.now); }
  }

  lemma RescheduleKeepsInvIff(st: State, k: Key, t: Instant)
    requires Inv(st) && k in st.children && !IsProtected(st, k)
    ensures Inv(SavedInSync(Mirrored(st, k, t), k, Rescheduled(st.children[k], t))) <==> Open(st, k, Some(t))
  {
    MirrorKeepsValid(st, k, t);
    SyncedSaveKeepsInvIff(st, Mirrored(st, k, t), k, Rescheduled(st.children[k], t));
  }

  lemma WithdrawKeepsInv(st: State, k: Key)
    requires Inv(st) && Drafts(st, k)
    ensures Inv(ToDraft(st, k))
  {
    var row := st.children[k].(status := Draft, scheduledAt := None);
    var st1 := DropFromChannel(st, k.0, k.1);
    DropFromChannelKeeps(st, k.0, k.1);
    SyncedSaveKeepsInvIff(st, st1, k, row);
    assert ToDraft(st, k) == SavedInSync(st1, k, row);
  }

  /** A move of the status alone: into a publication its time must have come, out of publishing
      its instant must be past or unclaimed. */
  lemma TransitionKeepsInvIff(st: State, k: Key, status: Status)
    requires Inv(st) && k in st.children && st.children[k].status != Published
    ensures Inv(Saved(st, k, Transitioned(st.children[k], status, st.now)))
      <==> if status == Published then Timely(st, At(st.children, k))
           else IsProtected(st, k) && status != Publishing ==> Open(st, k, At(st.children, k))
  {
    var row := Transitioned(st.children[k], status, st.now);
    if !IsProtected(st, k) { OwnScheduleIsOpen(st, k); }
    SaveKeepsInvIff(st, k, row);
  }

  /** Starting a job only takes the row's claim away, whatever its status was. */
  lemma StartKeepsInv(st: State, k: Key)
    requires Inv(st) && k in st.children
    ensures Inv(Saved(st, k, st.children[k].(status := Publishing)))
  {
    SaveKeepsInvIff(st, k, st.children[k].(status := Publishing));
  }

  lemma FewerChildrenKeepBooking(st: State, r: State)
    requires NoDoubleBooking(st) && HistoryIsPast(st) && r.now == st.now
    requires forall k :: k in r.children ==> k in st.children && r.children[k] == st.children[k]
    ensures NoDoubleBooking(r) && HistoryIsPast(r)
  {
    assert forall k :: Claims(r, k) ==> Claims(st, k) && At(r.children, k) == At(st.children, k);
    forall k | k in r.children ensures RowIsPast(r.children[k], r.now) { assert RowIsPast(st.children[k], st.now); }
  }

  lemma WithoutPostIsValid(st: State, p: PostId)
    requires Valid(st)
    ensures Valid(WithoutPost(st, p))
  {
    forall q | q in st.queues ensures UniqueEntries(DropEntry(st.queues[q].entries, p)) {
      DropEntryExact(st.queues[q].entries, p);
    }
  }

  /** Deleting a child, its parent not synced, is sound exactly when it was the post's last or did
      not alone decide the parent's schedule. */
  lemma DeleteChildKeepsInvIff(st: State, k: Key)
    requires Inv(st) && k in st.children
    ensures Inv(WithoutChild(st, k)) <==> (HasChildren(st.children - {k}, k.0) ==> FitsParent(st, k, None))
  {
    var r := WithoutChild(st, k);
    WithoutPostIsValid(st.(children := st.children - {k}), k.0);
    FewerChildrenKeepBooking(st, r);
    assert r.children == st.children - {k} && r.children - {k} == st.children - {k};
    FitsParentIff(st, k, r.children);
    assert InSync(r) ==> Parent(r, k.0) == MinSchedule(r.children, k.0);
    forall p | p != k.0 ensures Parent(r, p) == MinSchedule(r.children, p) { SiblingPostsKeepMin(st, r, k, p); }
    if !HasChildren(r.children, k.0) {
      assert Times(r.children, k.0) == {};
    }
  }

  lemma DeletePostKeepsInv(st: State, p: PostId)
    requires Inv(st)
    ensures Inv(WithoutPost(st.(children := st.children - ChildrenOf(st, p)), p))
  {
    var r := WithoutPost(st.(children := st.children - ChildrenOf(st, p)), p);
    WithoutPostIsValid(st.(children := st.children - ChildrenOf(st, p)), p);
    FewerChildrenKeepBooking(st, r);
    forall x ensures Parent(r, x) == MinSchedule(r.children, x) {
      assert Parent(st, x) == MinSchedule(st.children, x);
      if x == p {
        assert Times(r.children, p) == {};
      } else {
        forall c ensures At(st.children, (x, c)) == At(r.children, (x, c)) {
          assert (x, c) !in ChildrenOf(st, p);
        }
        MinScheduleFrame(st.children, r.children, x);
      }
    }
  }

  lemma DropKeepsInvIff(st: State, p: PostId, ch: ChannelId)
    requires Valid(st)
    ensures Inv(DropFromChannel(st, p, ch)) <==> Inv(st)
  {
    var r := DropFromChannel(st, p, ch);
    DropFromChannelKeeps(st, p, ch);
    BookingReadsChildren(st, r);
    if InSync(st) { SameParents(st, r); }
    if InSync(r) { SameParents(r, st); }
  }

  /** A success needs its time to have come, a failure an instant nobody else claims: the row
      becomes live again. Either way the schedule as read must fit the parent. */
  lemma EndKeepsInvIff(st: State, k: Key, row: RowRead, how: Ending)
    requires Inv(st)
    ensures Inv(Ended(st, k, row, how))
      <==> (if how == Success then Timely(st, row.child.scheduledAt) else Open(st, k, row.child.scheduledAt))
           && FitsParent(st, k, row.child.scheduledAt)
  {
    var saved := EndRow(row, how, st.now);
    SaveKeepsInvIff(st, k, saved);
    DropKeepsInvIff(Saved(st, k, saved), k.0, k.1);
  }

  /** Each step keeps the invariant exactly when it is safe. */
  lemma StepKeepsInvIff(s: System, a: Action)
    requires Inv(s.tables) && Enabled(s, a)
    ensures Inv(Next(s, a).tables) <==> Safe(s, a)
  {
    var st := s.tables;
    assert Next(s, a).tables == NextTables(s, a);
    match a
    case AddNext(p, q) => AddKeepsInv(st, p, q);
    case ToFront(p, q) => ToFrontKeepsInvIff(st, p, q);
    case Drop(p, q) => RemoveKeepsInv(st, p, q);
    case Drag(q, ids) => DragKeepsInvIff(st, q, ids);
    case Relist(q, entries) => RelistKeepsInv(st, q, entries);
    case Tick(_) => ClockAndSlotsKeepInv(s, a);
    case EditSlots(_, _) => ClockAndSlotsKeepInv(s, a);
    case Reschedule(k, t) => RescheduleKeepsInvIff(st, k, t);
    case Create(k, status, at) => SyncedSaveKeepsInvIff(st, st, k, PlatformPost(status, at, None));
    case Transition(k, status) => TransitionKeepsInvIff(st, k, status);
    case Withdraw(k) => WithdrawKeepsInv(st, k);
    case DeleteChild(k) => DeleteChildKeepsInvIff(st, k);
    case DeletePost(p) => DeletePostKeepsInv(st, p);
    case StartDue(k, _) => StartKeepsInv(st, k);
    case StartRetry(k, _, _) => StartKeepsInv(st, k);
    case End(j, how) => EndKeepsInvIff(st, s.jobs[j].key, s.jobs[j].row, how);
    case Abort(_) =>
    case PollDue =>
    case PollRetries =>
  }

  lemma QueueStepKeepsValid(s: System, a: Action)
    requires Valid(s.tables) && Enabled(s, a)
    requires a.AddNext? || a.ToFront? || a.Drop? || a.Drag? || a.Relist?
    ensures Valid(NextTables(s, a))
  {
    var st := s.tables;
    if a.AddNext? { AddTakesFirstFree(st, a.p, a.q); }
    if a.ToFront? { PrioritizeKeepsTables(st, a.p, a.q); }
    if a.Drop? { RemoveLeavesGap(st, a.p, a.q); }
    if a.Drag? { ReorderEffect(st, a.q, a.ids); }
    if a.Relist? { RelistKeepsValid(st, a.q, a.entries); }
  }

  /** Safe or not, a step leaves the tables valid. */
  lemma StepKeepsValid(s: System, a: Action)
    requires Valid(s.tables) && Enabled(s, a)
    ensures Valid(Next(s, a).tables)
  {
    var st := s.tables;
    if a.AddNext? || a.ToFront? || a.Drop? || a.Drag? || a.Relist? {
      QueueStepKeepsValid(s, a);
    } else if a.Reschedule? {
      MirrorKeepsValid(st, a.k, a.t);
    } else if a.Withdraw? {
      DropFromChannelKeeps(st, a.k.0, a.k.1);
    } else if a.DeleteChild? {
      WithoutPostIsValid(st.(children := st.children - {a.k}), a.k.0);
    } else if a.DeletePost? {
      WithoutPostIsValid(st.(children := st.children - ChildrenOf(st, a.p)), a.p);
    } else if a.End? {
      DropFromChannelKeeps(st, s.jobs[a.j].key.0, s.jobs[a.j].key.1);
    }
  }

  // ------------------------------------------------------------------ whole runs

  ghost predicate Steps(s: System, a: Action, r: System) {
    Valid(s.tables) && Enabled(s, a) && r == Next(s, a)
  }

  /** `states` is the run of `actions`: each step enabled where it happens. */
  ghost predicate IsRun(states: seq<System>, actions: seq<Action>) {
    |states| == |actions| + 1
    && forall i :: 0 <= i < |actions| ==> Steps(states[i], actions[i], states[i + 1])
  }

  lemma RunExtends(states: seq<System>, actions: seq<Action>, a: Action)
    requires IsRun(states, actions)
    requires Valid(states[|actions|].tables) && Enabled(states[|actions|], a)
    ensures IsRun(states + [Next(states[|actions|], a)], actions + [a])
  {
    var r := Next(states[|actions|], a);
    assert Steps(states[|actions|], a, r);
  }

  ghost predicate SafeUpTo(states: seq<System>, actions: seq<Action>, n: nat)
    requires IsRun(states, actions) && n < |states|
  {
    forall i :: 0 <= i < n ==> Steps(states[i], actions[i], states[i + 1]) && Safe(states[i], actions[i])
  }

  ghost predicate InvUpTo(states: seq<System>, n: nat)
    requires n < |states|
  {
    forall i :: 0 <= i <= n ==> Inv(states[i].tables)
  }

  /** A run keeps the invariant all along exactly when each of its steps is safe where it
      happens. */
  lemma {:induction false} RunKeepsInvIff(states: seq<System>, actions: seq<Action>, n: nat)
    requires IsRun(states, actions) && Inv(states[0].tables) && n < |states|
    ensures InvUpTo(states, n) <==> SafeUpTo(states, actions, n)
  {
    if n > 0 {
      RunKeepsInvIff(states, actions, n - 1);
      assert Steps(states[n - 1], actions[n - 1], states[n]);
      if Inv(states[n - 1].tables) { StepKeepsInvIff(states[n - 1], actions[n - 1]); }
      assert InvUpTo(states, n) <==> InvUpTo(states, n - 1) && Inv(states[n].tables);
      assert SafeUpTo(states, actions, n) <==> SafeUpTo(states, actions, n - 1) && Safe(states[n - 1], actions[n - 1]);
    }
  }

  /** No double booking over whole runs of safe steps: no two live posts of a channel share a
      future instant, every parent is the minimum of its children, and no published post is
      scheduled after it was published. */
  lemma NeverDoubleBooked(states: seq<System>, actions: seq<Action>, n: nat, a: Key, b: Key)
    requires IsRun(states, actions) && Inv(states[0].tables) && n < |states|
    requires SafeUpTo(states, actions, n)
    ensures var st := states[n].tables;
      && InSync(st)
      && (Claims(st, a) && Claims(st, b) && a != b && a.1 == b.1 ==> At(st.children, a) != At(st.children, b))
      && (InStatus(st, a, Published) && At(st.children, a).Some? ==>
            st.children[a].publishedAt.Some? && At(st.children, a).value <= st.children[a].publishedAt.value)
  {
    RunKeepsInvIff(states, actions, n);
    var st := states[n].tables;
    assert a in st.children ==> RowIsPast(st.children[a], st.now);
  }

  // ------------------------------------------------------------------ careful runs

  /** A caller's discipline that makes every step safe: protected posts are not prioritised,
      drags name distinct ids, blind writes look first, nothing is started before its schedule or
      from an outdated row, what is being published is left to its job, and a child is deleted
      alone only when it does not decide its parent's schedule. */
  ghost predicate Careful(s: System, a: Action)
    requires Enabled(s, a)
  {
    var st := s.tables;
    match a
    case ToFront(p, q) => !IsProtected(st, (p, st.queues[q].channel))
    case Drag(_, ids) => Distinct(ids)
    case Reschedule(k, t) => Open(st, k, Some(t))
    case Create(k, _, at) => Open(st, k, at)
    case Transition(k, _) => !IsProtected(st, k)
    case DeleteChild(k) => !IsProtected(st, k) && (HasChildren(st.children - {k}, k.0) ==> FitsParent(st, k, None))
    case DeletePost(p) => forall k :: k in st.children && k.0 == p ==> st.children[k].status != Publishing
    case StartDue(k, _) => Timely(st, At(st.children, k))
    case StartRetry(k, row, _) =>
      InStatus(st, k, Scheduled) && row.child.scheduledAt == At(st.children, k) && Timely(st, At(st.children, k))
    case _ => true
  }

  /** Each job's row is publishing, as the job read it, and its time has come; no two jobs
      share a row. */
  ghost predicate JobsAreTimely(s: System) {
    && (forall j :: j in s.jobs ==> JobIsTimely(s, s.jobs[j]))
    && forall i, j :: i in s.jobs && j in s.jobs && i != j ==> s.jobs[i].key != s.jobs[j].key
  }

  ghost predicate JobIsTimely(s: System, job: Job) {
    InStatus(s.tables, job.key, Publishing)
    && job.row.child.scheduledAt == At(s.tables.children, job.key) && Timely(s.tables, job.row.child.scheduledAt)
  }

  lemma CarefulIsSafe(s: System, a: Action)
    requires Inv(s.tables) && JobsAreTimely(s) && Enabled(s, a) && Careful(s, a)
    ensures Safe(s, a)
  {
    if a.Drag? {
      ReorderKeepsBooking(s.tables, a.q, a.ids);
      ReorderKeepsBookingIff(s.tables, a.q, a.ids);
    } else if a.End? {
      assert JobIsTimely(s, s.jobs[a.j]);
    }
  }

  /** A row that stays publishing with its schedule. */
  lemma JobStaysTimely(s: System, r: System, job: Job)
    requires JobIsTimely(s, job) && s.tables.now <= r.tables.now
    requires job.key in r.tables.children && r.tables.children[job.key] == s.tables.children[job.key]
    ensures JobIsTimely(r, job)
  {}

  lemma QueueStepKeepsHistory(s: System, a: Action)
    requires Valid(s.tables) && Enabled(s, a) && Careful(s, a)
    requires a.AddNext? || a.ToFront? || a.Drop? || a.Drag?
    ensures KeepsHistory(s.tables, NextTables(s, a))
  {
    if a.AddNext? { AddKeepsHistory(s.tables, a.p, a.q); }
    if a.ToFront? { PrioritizeKeepsHistory(s.tables, a.p, a.q); }
    if a.Drop? { RemoveKeepsHistory(s.tables, a.p, a.q); }
    if a.Drag? { ReorderKeepsHistory(s.tables, a.q, a.ids); }
  }

  /** Careful steps leave alone the rows of jobs they do not end. */
  lemma CarefulLeavesJobs(s: System, a: Action, j: JobId)
    requires Valid(s.tables) && JobsAreTimely(s) && Enabled(s, a) && Careful(s, a)
    requires j in s.jobs && (a.End? ==> j != a.j)
    ensures var k, r := s.jobs[j].key, NextTables(s, a);
      k in r.children && r.children[k] == s.tables.children[k] && s.tables.now <= r.now
  {
    assert JobIsTimely(s, s.jobs[j]);
    if a.AddNext? || a.ToFront? || a.Drop? || a.Drag? {
      QueueStepKeepsHistory(s, a);
    } else if a.End? {
      assert s.jobs[a.j].key != s.jobs[j].key;
    }
  }

  lemma CarefulKeepsJobsTimely(s: System, a: Action)
    requires Valid(s.tables) && JobsAreTimely(s) && Enabled(s, a) && Careful(s, a)
    ensures JobsAreTimely(Next(s, a))
  {
    var r := Next(s, a);
    forall j | j in r.jobs ensures JobIsTimely(r, r.jobs[j]) {
      if j in s.jobs && r.jobs[j] == s.jobs[j] {
        CarefulLeavesJobs(s, a, j);
        JobStaysTimely(s, r, s.jobs[j]);
      }
    }
    forall i, j | i in r.jobs && j in r.jobs && i != j ensures r.jobs[i].key != r.jobs[j].key {
      assert i in s.jobs ==> JobIsTimely(s, s.jobs[i]);
      assert j in s.jobs ==> JobIsTimely(s, s.jobs[j]);
    }
  }

  ghost predicate CarefulUpTo(states: seq<System>, actions: seq<Action>, n: nat)
    requires IsRun(states, actions) && n < |states|
  {
    forall i :: 0 <= i < n ==> Steps(states[i], actions[i], states[i + 1]) && Careful(states[i], actions[i])
  }

  /** Careful runs are safe throughout, so they never double-book. */
  lemma {:induction false} CarefulRunsAreSafe(states: seq<System>, actions: seq<Action>, n: nat)
    requires IsRun(states, actions) && Inv(states[0].tables) && JobsAreTimely(states[0]) && n < |states|
    requires CarefulUpTo(states, actions, n)
    ensures SafeUpTo(states, actions, n) && Inv(states[n].tables) && JobsAreTimely(states[n])
  {
    if n > 0 {
      CarefulRunsAreSafe(states, actions, n - 1);
      assert Steps(states[n - 1], actions[n - 1], states[n]) && Careful(states[n - 1], actions[n - 1]);
      CarefulIsSafe(states[n - 1], actions[n - 1]);
      StepKeepsInvIff(states[n - 1], actions[n - 1]);
      CarefulKeepsJobsTimely(states[n - 1], actions[n - 1]);
    }
  }
}
