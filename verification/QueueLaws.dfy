/** Laws of the queue operations: closed forms, exact failures, and no double booking. */
module QueueLaws {
  import opened Common
  import opened Slots
  import opened Ladder
  import opened Store
  import opened QueueOps

  // ------------------------------------------------------------------ who may move

  /** An entry is the last one or among the others. */
  lemma HasEntryUnfolds(entries: seq<Entry>, x: PostId)
    requires entries != []
    ensures var n := |entries| - 1;
      HasEntry(entries, x) <==> HasEntry(entries[..n], x) || entries[n].post == x
  {
    var n := |entries| - 1;
    if HasEntry(entries[..n], x) {
      var i :| 0 <= i < n && entries[..n][i].post == x;
      assert entries[i].post == x;
    }
    if HasEntry(entries, x) && entries[n].post != x {
      var i :| 0 <= i < |entries| && entries[i].post == x;
      assert entries[..n][i].post == x;
    }
  }

  lemma {:induction false} MovableExact(st: State, ch: ChannelId, entries: seq<Entry>, except: PostId, x: PostId)
    ensures x in Movable(st, ch, entries, except)
      <==> HasEntry(entries, x) && x != except && Claims(st, (x, ch))
  {
    if entries != [] {
      MovableExact(st, ch, entries[..|entries| - 1], except, x);
      HasEntryUnfolds(entries, x);
    }
  }

  lemma {:induction false} MovableDistinct(st: State, ch: ChannelId, entries: seq<Entry>, except: PostId)
    requires UniqueEntries(entries)
    ensures Distinct(Movable(st, ch, entries, except))
  {
    if entries != [] {
      var n := |entries| - 1;
      MovableDistinct(st, ch, entries[..n], except);
      MovableExact(st, ch, entries[..n], except, entries[n].post);
    }
  }

  /** A mover's slot is the window index it is filed under. */
  ghost predicate Files(st: State, ch: ChannelId, window: seq<Instant>, m: Mover) {
    m.index < |window| && Claims(st, (m.post, ch)) && At(st.children, (m.post, ch)) == Some(window[m.index])
  }

  lemma {:induction false} MoversExact(st: State, ch: ChannelId, movable: seq<PostId>, window: seq<Instant>, m: Mover)
    requires Increasing(window)
    ensures m in Movers(st, ch, movable, window) <==> m.post in movable && Files(st, ch, window, m)
  {
    if movable != [] {
      var n := |movable| - 1;
      MoversExact(st, ch, movable[..n], window, m);
      assert movable == movable[..n] + [movable[n]];
    }
  }

  ghost predicate DistinctPosts(movers: seq<Mover>) {
    forall i, j :: 0 <= i < j < |movers| ==> movers[i].post != movers[j].post
  }

  lemma {:induction false} MoversDistinct(st: State, ch: ChannelId, movable: seq<PostId>, window: seq<Instant>)
    requires Increasing(window) && Distinct(movable)
    ensures DistinctPosts(Movers(st, ch, movable, window))
  {
    if movable != [] {
      var n := |movable| - 1;
      var earlier := Movers(st, ch, movable[..n], window);
      MoversDistinct(st, ch, movable[..n], window);
      forall i | 0 <= i < |earlier| ensures earlier[i].post != movable[n] {
        MoversExact(st, ch, movable[..n], window, earlier[i]);
      }
    }
  }

  /** A permutation has the same members and repeats none. */
  lemma PermutationKeeps<T>(a: seq<T>, b: seq<T>)
    requires multiset(a) == multiset(b)
    ensures |a| == |b|
    ensures forall x :: x in a <==> x in b
    ensures Distinct(a) ==> Distinct(b)
  {
    assert |multiset(a)| == |multiset(b)|;
    forall x ensures x in a <==> x in b {
      assert x in a <==> x in multiset(a);
      assert x in b <==> x in multiset(b);
    }
    if Distinct(a) && !Distinct(b) {
      var i, j :| 0 <= i < j < |b| && b[i] == b[j];
      RepeatCounts(b, i, j);
      DistinctCounts(a, b[i]);
    }
  }

  lemma RepeatCounts<T>(s: seq<T>, i: nat, j: nat)
    requires i < j < |s| && s[i] == s[j]
    ensures multiset(s)[s[i]] >= 2
  {
    assert s == s[..j] + s[j..];
    assert multiset(s) == multiset(s[..j]) + multiset(s[j..]);
    assert s[..j][i] == s[i] && s[j..][0] == s[j];
  }

  lemma {:induction false} DistinctCounts<T>(s: seq<T>, x: T)
    requires Distinct(s)
    ensures multiset(s)[x] <= 1
  {
    if s != [] {
      var n := |s| - 1;
      DistinctCounts(s[..n], x);
      assert s == s[..n] + [s[n]];
      if x == s[n] { assert x !in s[..n]; }
    }
  }

  /** `m` is an entry the ladder of `p` in `q` moves. */
  ghost predicate IsMover(st: State, p: PostId, q: QueueId, m: Mover)
    requires QueueOf(st, q)
  {
    var ch := st.queues[q].channel;
    && m.post != p && HasEntry(st.queues[q].entries, m.post)
    && m.index < |Movable(st, ch, st.queues[q].entries, p)| + 2
    && Files(st, ch, HorizonOf(st, ch), m)
  }

  /** The movers as they are filed, before sorting. */
  ghost function Filed(st: State, p: PostId, q: QueueId): seq<Mover>
    requires QueueOf(st, q)
  {
    var ch := st.queues[q].channel;
    var movable := Movable(st, ch, st.queues[q].entries, p);
    Movers(st, ch, movable, Prefix(HorizonOf(st, ch), |movable| + 2))
  }

  lemma FiledExact(st: State, p: PostId, q: QueueId)
    requires Valid(st) && QueueOf(st, q)
    ensures forall m :: m in Filed(st, p, q) <==> IsMover(st, p, q, m)
    ensures DistinctPosts(Filed(st, p, q))
  {
    var ch := st.queues[q].channel;
    var movable := Movable(st, ch, st.queues[q].entries, p);
    var window := Prefix(HorizonOf(st, ch), |movable| + 2);
    HorizonIncreasing(st.channels[ch], st.now);
    forall m ensures m in Filed(st, p, q) <==> IsMover(st, p, q, m) {
      MoversExact(st, ch, movable, window, m);
      MovableExact(st, ch, st.queues[q].entries, p, m.post);
    }
    MovableDistinct(st, ch, st.queues[q].entries, p);
    MoversDistinct(st, ch, movable, window);
  }

  lemma PermutationKeepsPosts(a: seq<Mover>, b: seq<Mover>)
    requires multiset(a) == multiset(b) && DistinctPosts(a)
    ensures forall m :: m in a <==> m in b
    ensures DistinctPosts(b) && Distinct(Posts(b))
  {
    assert Distinct(a);
    PermutationKeeps(a, b);
    forall i, j | 0 <= i < j < |b| ensures b[i].post != b[j].post {
      assert b[i] in a && b[j] in a && b[i] != b[j];
    }
  }

  lemma LadderMoversExact(st: State, p: PostId, q: QueueId)
    requires Valid(st) && QueueOf(st, q)
    ensures forall m :: m in LadderMovers(st, p, q) <==> IsMover(st, p, q, m)
    ensures DistinctPosts(LadderMovers(st, p, q)) && Distinct(Posts(LadderMovers(st, p, q)))
    ensures Descending(Indices(LadderMovers(st, p, q)))
  {
    FiledExact(st, p, q);
    SortDescendingSorts(Filed(st, p, q));
    PermutationKeepsPosts(Filed(st, p, q), LadderMovers(st, p, q));
  }

  // ------------------------------------------------------------------ fixed posts

  /** Instants of the channel claimed by posts that are neither `p` nor movers. */
  ghost function FixedInstants(st: State, p: PostId, q: QueueId): set<Instant>
    requires QueueOf(st, q)
  {
    var ch := st.queues[q].channel;
    set k | k in st.children && k.1 == ch && k.0 != p && Claims(st, k)
            && !(exists m :: m in LadderMovers(st, p, q) && m.post == k.0) :: st.children[k].scheduledAt.value
  }

  /** With no double booking, what the ladder avoids is exactly what fixed posts hold. */
  lemma AvoidedIsFixed(st: State, p: PostId, q: QueueId)
    requires Valid(st) && NoDoubleBooking(st) && QueueOf(st, q)
    ensures Avoided(st, p, q) == FixedInstants(st, p, q)
  {
    var ch := st.queues[q].channel;
    var movers := LadderMovers(st, p, q);
    var posts := Posts(movers);
    assert forall y :: y in posts <==> exists m :: m in movers && m.post == y by {
      forall m | m in movers ensures m.post in posts {
        var i :| 0 <= i < |movers| && movers[i] == m;
        assert posts[i] == m.post;
      }
      forall y | y in posts ensures exists m :: m in movers && m.post == y {
        var i :| 0 <= i < |posts| && posts[i] == y;
        assert movers[i] in movers;
      }
    }
    forall x | x in Avoided(st, p, q) ensures x in FixedInstants(st, p, q) {
      var k :| k in st.children && k.1 == ch && k.0 != p && Claims(st, k) && st.children[k].scheduledAt.value == x;
      assert k == (k.0, ch);
      assert k.0 !in posts;
    }
    forall x | x in FixedInstants(st, p, q) ensures x in Avoided(st, p, q) {
      var f :| f in st.children && f.1 == ch && f.0 != p && Claims(st, f)
               && !(exists m :: m in movers && m.post == f.0) && st.children[f].scheduledAt.value == x;
      forall y | y in posts && Claims(st, (y, ch)) ensures st.children[(y, ch)].scheduledAt.value != x {
        assert f != (y, ch);
        assert At(st.children, f) == At(st.children, (y, ch)) ==> f == (y, ch);
      }
    }
  }

  // ------------------------------------------------------------------ add · next available

  ghost predicate IsProtected(st: State, k: Key) { k in st.children && Protected(st.children[k]) }

  /** `x` is the first instant of `h` outside `occupied`. */
  ghost predicate IsFirstFree(h: seq<Instant>, occupied: set<Instant>, x: Instant) {
    exists i :: 0 <= i < |h| && h[i] == x && x !in occupied && forall j :: 0 <= j < i ==> h[j] in occupied
  }

  /** Only child `k` differs, and it is now scheduled at `t`. */
  ghost predicate OnlyMoved(st: State, r: State, k: Key, t: Instant) {
    && SameButSchedules(st, r, k.1)
    && (k in st.children ==> At(r.children, k) == Some(t))
    && (forall c: Key :: c != k ==> At(r.children, c) == At(st.children, c))
    && forall x :: x != k.0 ==> Parent(r, x) == Parent(st, x)
  }

  /** The rows are the old ones in their places, and behind them one of `p` if it had none. */
  ghost predicate Joined(before: seq<Entry>, after: seq<Entry>, p: PostId) {
    && |after| == |before| + (if HasEntry(before, p) then 0 else 1)
    && SamePosts(before, after[..|before|])
    && (!HasEntry(before, p) ==>
          && after[|before|].post == p
          && forall i :: 0 <= i < |before| ==> before[i].position < after[|before|].position)
  }

  /** The post is in the queue and its row alone shows the slot; every other row of every queue
      is as it was. */
  ghost predicate Queued(st: State, r: State, p: PostId, q: QueueId, t: Instant) {
    && OnlyRowsOf(st, r, q) && HasEntry(r.queues[q].entries, p)
    && Joined(st.queues[q].entries, r.queues[q].entries, p) && Shows(r.queues[q].entries, p, t)
    && forall i :: 0 <= i < |st.queues[q].entries| && st.queues[q].entries[i].post != p ==>
      StillShows(st.queues[q].entries, r.queues[q].entries, i)
  }

  lemma SamePostsKeepEntry(a: seq<Entry>, b: seq<Entry>, p: PostId)
    requires SamePosts(a, b) && HasEntry(a, p)
    ensures HasEntry(b, p)
  {
    var i :| 0 <= i < |a| && a[i].post == p;
    assert b[i].post == p;
  }

  lemma OneSlotWritten(st: State, p: PostId, q: QueueId, t: Instant)
    requires Valid(st) && QueueOf(st, q)
    ensures var r: State := WriteSlot(EnsureEntry(st, q, p), q, p, t);
      OnlyMoved(st, r, (p, st.queues[q].channel), t) && Queued(st, r, p, q, t)
      && Valid(r) && (InSync(st) ==> InSync(r))
  {
    EnsureEntryAppends(st, q, p);
    var st1 := EnsureEntry(st, q, p);
    assert st1 == st.(queues := st1.queues);
    WriteSlotFrame(st1, q, p, t);
    var r := WriteSlot(st1, q, p, t);
    var before, mid, after := st.queues[q].entries, st1.queues[q].entries, r.queues[q].entries;
    SamePostsKeepEntry(mid, after, p);
    forall i | 0 <= i < |before| && before[i].post != p ensures StillShows(before, after, i) {
      assert mid[i] == before[i] && StillShows(mid, after, i);
    }
  }

  /** A protected post is left alone; otherwise the post takes the first slot of the whole
      horizon that nobody else holds, and the queue is full exactly when there is none. */
  lemma AddTakesFirstFree(st: State, p: PostId, q: QueueId)
    requires Valid(st) && QueueOf(st, q)
    ensures var (r, o) := AddNextAvailable(st, p, q);
      var ch := st.queues[q].channel;
      var h, occupied := HorizonOf(st, ch), Occupied(st, ch, p);
      if IsProtected(st, (p, ch)) then r == st && o == Done
      else if forall x :: x in h ==> x in occupied then r == st && o == QueueFull
      else o == Done
           && exists t :: IsFirstFree(h, occupied, t) && OnlyMoved(st, r, (p, ch), t) && Queued(st, r, p, q, t)
    ensures var r := AddNextAvailable(st, p, q).0; Valid(r) && (InSync(st) ==> InSync(r))
  {
    var ch := st.queues[q].channel;
    var h, occupied := HorizonOf(st, ch), Occupied(st, ch, p);
    FirstFreeMeaning(h, occupied);
    var free := FirstFree(h, occupied);
    if free.Some? {
      OneSlotWritten(st, p, q, free.value);
      assert IsFirstFree(h, occupied, free.value);
    }
  }

  // ------------------------------------------------------------------ prioritize

  /** Slot 0 of the horizon is held by another entry of the queue that may move. */
  ghost predicate FrontHeld(st: State, p: PostId, q: QueueId)
    requires QueueOf(st, q)
  {
    var ch := st.queues[q].channel;
    var h := HorizonOf(st, ch);
    h != [] && exists x :: x != p && HasEntry(st.queues[q].entries, x) && Claims(st, (x, ch))
                           && At(st.children, (x, ch)) == Some(h[0])
  }

  lemma FrontHeldMeaning(st: State, p: PostId, q: QueueId)
    requires QueueOf(st, q) && HorizonOf(st, st.queues[q].channel) != []
    ensures var ch := st.queues[q].channel;
      FrontHeld(st, p, q) <==> HorizonOf(st, ch)[0] in Held(st, ch, Movable(st, ch, st.queues[q].entries, p))
  {
    var ch := st.queues[q].channel;
    forall x ensures x in Movable(st, ch, st.queues[q].entries, p)
      <==> HasEntry(st.queues[q].entries, x) && x != p && Claims(st, (x, ch))
    {
      MovableExact(st, ch, st.queues[q].entries, p, x);
    }
  }

  /** When the front slot is not held by a queue entry nothing moves: the post takes slot 0,
      or, if a foreign post sits there, the first free slot. */
  lemma PrioritizeWithoutLadder(st: State, p: PostId, q: QueueId)
    requires Valid(st) && QueueOf(st, q) && !FrontHeld(st, p, q)
    ensures var (r, o) := Prioritize(st, p, q);
      var ch := st.queues[q].channel;
      var h, occupied := HorizonOf(st, ch), Occupied(st, ch, p);
      if forall x :: x in h ==> x in occupied then r == st && o == QueueFull
      else o == Done
           && exists t :: IsFirstFree(h, occupied, t) && OnlyMoved(st, r, (p, ch), t) && Queued(st, r, p, q, t)
    ensures var r := Prioritize(st, p, q).0; Valid(r) && (InSync(st) ==> InSync(r))
  {
    var ch := st.queues[q].channel;
    var h, occupied := HorizonOf(st, ch), Occupied(st, ch, p);
    if h != [] {
      FrontHeldMeaning(st, p, q);
      FirstFreeMeaning(h, occupied);
      var t := if h[0] !in occupied then Some(h[0]) else FirstFree(h, occupied);
      if t.Some? {
        OneSlotWritten(st, p, q, t.value);
        if h[0] !in occupied { assert h[0] in h; }
        assert IsFirstFree(h, occupied, t.value);
      }
    }
  }

  /** A successful ladder is the movers' writes followed by the prioritised post's. */
  lemma LadderIsWrites(st: State, p: PostId, q: QueueId)
    requires Valid(st) && QueueOf(st, q) && FrontHeld(st, p, q)
    requires Prioritize(st, p, q).1 == Done
    ensures var ch := st.queues[q].channel;
      var h, movers := HorizonOf(st, ch), LadderMovers(st, p, q);
      var dest := Climb(h, Avoided(st, p, q), {0}, Indices(movers));
      && dest.Some? && |dest.value| == |movers| && InRange(h, dest.value)
      && Prioritize(st, p, q).0
         == WriteSlot(WriteSlots(EnsureEntry(st, q, p), q, Posts(movers), Instants(h, dest.value)), q, p, h[0])
  {
    var h, movers := HorizonOf(st, st.queues[q].channel), LadderMovers(st, p, q);
    FrontHeldMeaning(st, p, q);
    ClimbIsSafe(h, Avoided(st, p, q), {0}, Indices(movers));
  }

  lemma LadderKeeps(st: State, p: PostId, q: QueueId)
    requires Valid(st) && QueueOf(st, q) && FrontHeld(st, p, q)
    requires Prioritize(st, p, q).1 == Done
    ensures var r := Prioritize(st, p, q).0;
      Valid(r) && (InSync(st) ==> InSync(r)) && HasEntry(r.queues[q].entries, p)
  {
    LadderIsWrites(st, p, q);
    var h, movers := HorizonOf(st, st.queues[q].channel), LadderMovers(st, p, q);
    var dest := Climb(h, Avoided(st, p, q), {0}, Indices(movers)).value;
    EnsureEntryAppends(st, q, p);
    var st1 := EnsureEntry(st, q, p);
    WriteSlotsKeep(st1, q, Posts(movers), Instants(h, dest));
    WriteSlotsShow(st1, q, Posts(movers), Instants(h, dest));
    var mid := WriteSlots(st1, q, Posts(movers), Instants(h, dest));
    WriteSlotFrame(mid, q, p, h[0]);
    var i :| 0 <= i < |st1.queues[q].entries| && st1.queues[q].entries[i].post == p;
    assert WriteSlot(mid, q, p, h[0]).queues[q].entries[i].post == p;
  }

  /** The schedule every child has after a successful ladder, for any starting state. */
  lemma LadderEffect(st: State, p: PostId, q: QueueId)
    requires Valid(st) && QueueOf(st, q) && FrontHeld(st, p, q)
    requires Prioritize(st, p, q).1 == Done
    ensures var r: State := Prioritize(st, p, q).0;
      var ch := st.queues[q].channel;
      var h, movers := HorizonOf(st, ch), LadderMovers(st, p, q);
      var dest := Climb(h, Avoided(st, p, q), {0}, Indices(movers));
      && SameButSchedules(st, r, ch)
      && dest.Some? && |dest.value| == |movers| && InRange(h, dest.value)
      && ((p, ch) in st.children ==> At(r.children, (p, ch)) == Some(h[0]))
      && (forall i :: 0 <= i < |movers| ==> At(r.children, (movers[i].post, ch)) == Some(h[dest.value[i]]))
      && (forall k: Key :: k != (p, ch) && (k.1 != ch || k.0 !in Posts(movers)) ==>
            At(r.children, k) == At(st.children, k))
  {
    var ch := st.queues[q].channel;
    var h, movers := HorizonOf(st, ch), LadderMovers(st, p, q);
    LadderIsWrites(st, p, q);
    LadderMoversExact(st, p, q);
    var dest := Climb(h, Avoided(st, p, q), {0}, Indices(movers)).value;
    var posts, times := Posts(movers), Instants(h, dest);
    EnsureEntryAppends(st, q, p);
    var st1 := EnsureEntry(st, q, p);
    WriteSlotsFrame(st1, q, posts, times);
    var mid := WriteSlots(st1, q, posts, times);
    WriteSlotFrame(mid, q, p, h[0]);
    var r := WriteSlot(mid, q, p, h[0]);
    forall i | 0 <= i < |movers| ensures At(r.children, (movers[i].post, ch)) == Some(h[dest[i]]) {
      assert movers[i] in movers && IsMover(st, p, q, movers[i]);
      LastIndexOfDistinct(posts, i);
      assert posts[i] in posts;
    }
  }

  /** The rows after a ladder: the new entry first, then the movers' slots, then the post's own. */
  ghost predicate RowsWritten(before: seq<Entry>, first: seq<Entry>, mid: seq<Entry>, after: seq<Entry>, p: PostId,
                              posts: seq<PostId>, times: seq<Instant>, t: Instant)
    requires |posts| == |times|
  {
    && (if HasEntry(before, p) then first == before else AppendedLast(before, first, p))
    && SamePosts(first, mid) && (forall x :: x in posts ==> Shows(mid, x, times[LastIndex(posts, x)]))
    && (forall i :: 0 <= i < |first| && first[i].post !in posts ==> StillShows(first, mid, i))
    && SamePosts(mid, after) && Shows(after, p, t)
    && forall i :: 0 <= i < |mid| && mid[i].post != p ==> StillShows(mid, after, i)
  }

  lemma RowsStay(before: seq<Entry>, first: seq<Entry>, mid: seq<Entry>, after: seq<Entry>, p: PostId,
                 posts: seq<PostId>, times: seq<Instant>, t: Instant)
    requires |posts| == |times| && RowsWritten(before, first, mid, after, p, posts, times, t)
    ensures Joined(before, after, p)
    ensures forall i :: 0 <= i < |before| && before[i].post != p && before[i].post !in posts ==>
      StillShows(before, after, i)
  {
    assert |before| <= |first| && forall i :: 0 <= i < |before| ==> first[i] == before[i] by {
      if !HasEntry(before, p) { assert first[..|before|] == before; }
    }
    forall i | 0 <= i < |before| && before[i].post != p && before[i].post !in posts
      ensures StillShows(before, after, i)
    {
      assert StillShows(first, mid, i) && StillShows(mid, after, i);
    }
  }

  lemma MoverStillShows(mid: seq<Entry>, after: seq<Entry>, p: PostId, x: PostId, t: Instant)
    requires SamePosts(mid, after) && Shows(mid, x, t) && x != p
    requires forall i :: 0 <= i < |mid| && mid[i].post != p ==> StillShows(mid, after, i)
    ensures Shows(after, x, t)
  {
    forall i | 0 <= i < |after| && after[i].post == x ensures after[i].slotAt == Some(t) {
      assert StillShows(mid, after, i);
    }
  }

  lemma RowsAreWritten(st: State, p: PostId, q: QueueId, posts: seq<PostId>, times: seq<Instant>, t: Instant)
    requires q in st.queues && |posts| == |times|
    ensures var st1: State := EnsureEntry(st, q, p);
      var mid: State := WriteSlots(st1, q, posts, times);
      var r: State := WriteSlot(mid, q, p, t);
      && OnlyRowsOf(st, r, q)
      && RowsWritten(st.queues[q].entries, st1.queues[q].entries, mid.queues[q].entries, r.queues[q].entries, p, posts,
                     times, t)
  {
    EnsureEntryAppends(st, q, p);
    WriteSlotsShow(EnsureEntry(st, q, p), q, posts, times);
    WriteSlotFrame(WriteSlots(EnsureEntry(st, q, p), q, posts, times), q, p, t);
  }

  /** What the rows show after writes to distinct posts and then to another one. */
  lemma WritesShow(st: State, p: PostId, q: QueueId, posts: seq<PostId>, times: seq<Instant>, t: Instant)
    requires q in st.queues && |posts| == |times| && Distinct(posts) && p !in posts
    ensures var r: State := WriteSlot(WriteSlots(EnsureEntry(st, q, p), q, posts, times), q, p, t);
      var before, after := st.queues[q].entries, r.queues[q].entries;
      && OnlyRowsOf(st, r, q) && Joined(before, after, p) && Shows(after, p, t)
      && (forall i :: 0 <= i < |posts| ==> Shows(after, posts[i], times[i]))
      && forall i :: 0 <= i < |before| && before[i].post != p && before[i].post !in posts ==>
        StillShows(before, after, i)
  {
    var st1 := EnsureEntry(st, q, p);
    var mid := WriteSlots(st1, q, posts, times);
    var after := WriteSlot(mid, q, p, t).queues[q].entries;
    RowsAreWritten(st, p, q, posts, times, t);
    RowsStay(st.queues[q].entries, st1.queues[q].entries, mid.queues[q].entries, after, p, posts, times, t);
    forall i | 0 <= i < |posts| ensures Shows(after, posts[i], times[i]) {
      LastIndexOfDistinct(posts, i);
      assert posts[i] in posts;
      MoverStillShows(mid.queues[q].entries, after, p, posts[i], times[i]);
    }
  }

  /** What the rows of the queues show after a successful ladder, for any starting state. */
  lemma LadderShows(st: State, p: PostId, q: QueueId)
    requires Valid(st) && QueueOf(st, q) && FrontHeld(st, p, q)
    requires Prioritize(st, p, q).1 == Done
    ensures var r: State := Prioritize(st, p, q).0;
      var h, movers := HorizonOf(st, st.queues[q].channel), LadderMovers(st, p, q);
      var dest := Climb(h, Avoided(st, p, q), {0}, Indices(movers));
      var before, after := st.queues[q].entries, r.queues[q].entries;
      && h != [] && dest.Some? && |dest.value| == |movers| && InRange(h, dest.value)
      && OnlyRowsOf(st, r, q) && Joined(before, after, p) && Shows(after, p, h[0])
      && (forall i :: 0 <= i < |movers| ==> Shows(after, movers[i].post, h[dest.value[i]]))
      && forall i :: 0 <= i < |before| && before[i].post != p && before[i].post !in Posts(movers) ==>
        StillShows(before, after, i)
  {
    var h, movers := HorizonOf(st, st.queues[q].channel), LadderMovers(st, p, q);
    LadderIsWrites(st, p, q);
    LadderMoversExact(st, p, q);
    var dest := Climb(h, Avoided(st, p, q), {0}, Indices(movers)).value;
    forall i | 0 <= i < |movers| ensures movers[i].post != p {
      assert movers[i] in movers && IsMover(st, p, q, movers[i]);
    }
    WritesShow(st, p, q, Posts(movers), Instants(h, dest), h[0]);
  }

  /** A mover's slot is free once it has left: no fixed post holds it. */
  lemma MoverSlotNotFixed(st: State, p: PostId, q: QueueId, m: Mover)
    requires Valid(st) && NoDoubleBooking(st) && QueueOf(st, q) && IsMover(st, p, q, m)
    ensures HorizonOf(st, st.queues[q].channel)[m.index] !in FixedInstants(st, p, q)
  {
    var ch := st.queues[q].channel;
    var x := HorizonOf(st, ch)[m.index];
    LadderMoversExact(st, p, q);
    assert m in LadderMovers(st, p, q);
    forall k | k in st.children && k.1 == ch && Claims(st, k) && k.0 != m.post
      ensures st.children[k].scheduledAt.value != x
    {
      assert At(st.children, k) == At(st.children, (m.post, ch)) ==> k == (m.post, ch);
    }
  }

  lemma MoversShareNoSlot(st: State, p: PostId, q: QueueId, a: Mover, b: Mover)
    requires NoDoubleBooking(st) && QueueOf(st, q)
    requires IsMover(st, p, q, a) && IsMover(st, p, q, b) && a.index == b.index
    ensures a == b
  {
    var ch := st.queues[q].channel;
    assert At(st.children, (a.post, ch)) == At(st.children, (b.post, ch));
    assert (a.post, ch) == (b.post, ch);
  }

  /** With no double booking, movers sit in distinct slots, none of them fixed. */
  lemma MoversAreSpread(st: State, p: PostId, q: QueueId)
    requires Valid(st) && NoDoubleBooking(st) && QueueOf(st, q)
    ensures var h := HorizonOf(st, st.queues[q].channel);
      var idxs := Indices(LadderMovers(st, p, q));
      && StrictlyDescending(idxs)
      && forall i :: 0 <= i < |idxs| ==> idxs[i] < |h| && h[idxs[i]] !in FixedInstants(st, p, q)
  {
    var movers := LadderMovers(st, p, q);
    var idxs := Indices(movers);
    LadderMoversExact(st, p, q);
    forall i | 0 <= i < |idxs|
      ensures idxs[i] < |HorizonOf(st, st.queues[q].channel)|
      ensures HorizonOf(st, st.queues[q].channel)[idxs[i]] !in FixedInstants(st, p, q)
    {
      assert movers[i] in movers;
      MoverSlotNotFixed(st, p, q, movers[i]);
    }
    forall i, j | 0 <= i < j < |idxs| ensures idxs[i] > idxs[j] {
      assert movers[i] in movers && movers[j] in movers;
      if idxs[i] == idxs[j] { MoversShareNoSlot(st, p, q, movers[i], movers[j]); }
    }
  }

  /** The slot a mover climbs to, past whatever fixed posts hold. */
  ghost function Landing(st: State, p: PostId, q: QueueId, m: Mover): Option<nat>
    requires QueueOf(st, q)
  {
    Destination(HorizonOf(st, st.queues[q].channel), FixedInstants(st, p, q), m.index)
  }

  /** Everyone is where the ladder puts them, `p` in slot 0 and each mover on its landing, and
      the rows of the queue show it. */
  ghost predicate Laddered(st: State, r: State, p: PostId, q: QueueId)
    requires QueueOf(st, q)
  {
    var ch := st.queues[q].channel;
    var h := HorizonOf(st, ch);
    && SameButSchedules(st, r, ch) && OnlyRowsOf(st, r, q)
    && HasEntry(r.queues[q].entries, p) && Joined(st.queues[q].entries, r.queues[q].entries, p)
    && h != [] && Shows(r.queues[q].entries, p, h[0])
    && ((p, ch) in st.children ==> At(r.children, (p, ch)) == Some(h[0]))
    && (forall m :: IsMover(st, p, q, m) ==> LandsOn(r, q, h, (m.post, ch), Landing(st, p, q, m)))
    && (forall k: Key :: k != (p, ch) && !MovesKey(st, p, q, k) ==> At(r.children, k) == At(st.children, k))
    && forall i :: 0 <= i < |st.queues[q].entries| && StaysPut(st, p, q, st.queues[q].entries[i].post) ==>
      StillShows(st.queues[q].entries, r.queues[q].entries, i)
  }

  /** The child is scheduled at the landing, and its row shows it. */
  ghost predicate LandsOn(r: State, q: QueueId, h: seq<Instant>, k: Key, j: Option<nat>) {
    j.Some? && j.value < |h| && At(r.children, k) == Some(h[j.value])
    && q in r.queues && Shows(r.queues[q].entries, k.0, h[j.value])
  }

  ghost predicate StaysPut(st: State, p: PostId, q: QueueId, x: PostId)
    requires QueueOf(st, q)
  {
    x != p && !MovesKey(st, p, q, (x, st.queues[q].channel))
  }

  ghost predicate MovesKey(st: State, p: PostId, q: QueueId, k: Key)
    requires QueueOf(st, q)
  {
    k.1 == st.queues[q].channel && exists m :: IsMover(st, p, q, m) && m.post == k.0
  }

  /** Whoever holds the front slot is a mover. */
  lemma FrontHolderMoves(st: State, p: PostId, q: QueueId)
    requires Valid(st) && QueueOf(st, q) && FrontHeld(st, p, q)
    ensures LadderMovers(st, p, q) != []
  {
    var ch := st.queues[q].channel;
    FrontHeldMeaning(st, p, q);
    LadderMoversExact(st, p, q);
    var x :| x != p && HasEntry(st.queues[q].entries, x) && Claims(st, (x, ch))
             && At(st.children, (x, ch)) == Some(HorizonOf(st, ch)[0]);
    assert IsMover(st, p, q, Mover(0, x));
  }

  lemma LadderOutcome(st: State, p: PostId, q: QueueId)
    requires Valid(st) && NoDoubleBooking(st) && QueueOf(st, q) && FrontHeld(st, p, q)
    ensures var h, fixed := HorizonOf(st, st.queues[q].channel), FixedInstants(st, p, q);
      var movers := LadderMovers(st, p, q);
      var dest := Climb(h, Avoided(st, p, q), {0}, Indices(movers));
      && (Prioritize(st, p, q).1 == QueueFull <==> dest.None?)
      && movers != [] && (dest.None? <==> Landing(st, p, q, movers[0]).None?)
      && (dest.Some? ==> |dest.value| == |movers|)
      && (dest.Some? ==> forall i :: 0 <= i < |movers| ==> Landing(st, p, q, movers[i]) == Some(dest.value[i]))
  {
    FrontHeldMeaning(st, p, q);
    AvoidedIsFixed(st, p, q);
    FrontHolderMoves(st, p, q);
    MoversAreSpread(st, p, q);
    var h, idxs := HorizonOf(st, st.queues[q].channel), Indices(LadderMovers(st, p, q));
    LadderOfDistinctMovers(h, FixedInstants(st, p, q), idxs);
  }

  /** Children that are neither prioritised nor movers keep their schedule. */
  lemma LadderLeavesOthers(st: State, p: PostId, q: QueueId)
    requires Valid(st) && QueueOf(st, q) && FrontHeld(st, p, q)
    requires Prioritize(st, p, q).1 == Done
    ensures var r := Prioritize(st, p, q).0;
      forall k: Key :: k != (p, st.queues[q].channel) && !MovesKey(st, p, q, k)
        ==> At(r.children, k) == At(st.children, k)
  {
    LadderEffect(st, p, q);
    PostsAreMovers(st, p, q);
  }

  lemma LadderPlacesPost(st: State, p: PostId, q: QueueId)
    requires Valid(st) && QueueOf(st, q) && FrontHeld(st, p, q)
    requires Prioritize(st, p, q).1 == Done
    ensures var r, ch := Prioritize(st, p, q).0, st.queues[q].channel;
      SameButSchedules(st, r, ch)
      && ((p, ch) in st.children ==> At(r.children, (p, ch)) == Some(HorizonOf(st, ch)[0]))
  {
    LadderEffect(st, p, q);
  }

  lemma LadderSucceeds(st: State, p: PostId, q: QueueId)
    requires Valid(st) && NoDoubleBooking(st) && QueueOf(st, q) && FrontHeld(st, p, q)
    requires Prioritize(st, p, q).1 == Done
    ensures Laddered(st, Prioritize(st, p, q).0, p, q)
    ensures forall m :: IsMover(st, p, q, m) ==> Landing(st, p, q, m).Some?
  {
    LadderPlacesPost(st, p, q);
    LadderKeeps(st, p, q);
    LadderLeavesOthers(st, p, q);
    LadderShows(st, p, q);
    PostsAreMovers(st, p, q);
    forall m | IsMover(st, p, q, m)
      ensures LandsOn(Prioritize(st, p, q).0, q, HorizonOf(st, st.queues[q].channel),
          (m.post, st.queues[q].channel), Landing(st, p, q, m))
    {
      MoverLands(st, p, q, m);
    }
  }

  lemma LadderFails(st: State, p: PostId, q: QueueId)
    requires Valid(st) && NoDoubleBooking(st) && QueueOf(st, q) && FrontHeld(st, p, q)
    requires Prioritize(st, p, q).1 == QueueFull
    ensures exists m :: IsMover(st, p, q, m) && Landing(st, p, q, m).None?
  {
    var movers := LadderMovers(st, p, q);
    LadderOutcome(st, p, q);
    PostsAreMovers(st, p, q);
    assert movers[0] in movers;
  }

  /** The ladder in closed form. The prioritised post takes slot 0; every mover lands on the
      least later slot no fixed post holds; everybody else stays; and the queue is full exactly
      when a mover has no such slot, in which case nothing changes at all. */
  lemma PrioritizeLadders(st: State, p: PostId, q: QueueId)
    requires Valid(st) && NoDoubleBooking(st) && QueueOf(st, q) && FrontHeld(st, p, q)
    ensures var (r, o) := Prioritize(st, p, q);
      && (o == QueueFull <==> exists m :: IsMover(st, p, q, m) && Landing(st, p, q, m).None?)
      && (o == QueueFull ==> r == st)
      && (o == Done ==> Laddered(st, r, p, q))
  {
    if Prioritize(st, p, q).1 == Done {
      LadderSucceeds(st, p, q);
    } else {
      LadderFails(st, p, q);
      PrioritizeFailsIff(st, p, q);
    }
  }

  lemma PostsAreMovers(st: State, p: PostId, q: QueueId)
    requires Valid(st) && QueueOf(st, q)
    ensures forall m :: m in LadderMovers(st, p, q) <==> IsMover(st, p, q, m)
    ensures forall y :: y in Posts(LadderMovers(st, p, q)) ==> MovesKey(st, p, q, (y, st.queues[q].channel))
  {
    var movers := LadderMovers(st, p, q);
    LadderMoversExact(st, p, q);
    forall y | y in Posts(movers) ensures MovesKey(st, p, q, (y, st.queues[q].channel)) {
      var i :| 0 <= i < |movers| && movers[i].post == y;
      assert movers[i] in movers;
    }
  }

  lemma MoverLands(st: State, p: PostId, q: QueueId, m: Mover)
    requires Valid(st) && NoDoubleBooking(st) && QueueOf(st, q) && FrontHeld(st, p, q)
    requires Prioritize(st, p, q).1 == Done && IsMover(st, p, q, m)
    ensures var ch := st.queues[q].channel;
      LandsOn(Prioritize(st, p, q).0, q, HorizonOf(st, ch), (m.post, ch), Landing(st, p, q, m))
  {
    var movers := LadderMovers(st, p, q);
    LadderMoversExact(st, p, q);
    LadderOutcome(st, p, q);
    LadderEffect(st, p, q);
    LadderShows(st, p, q);
    assert m in movers;
    var i :| 0 <= i < |movers| && movers[i] == m;
  }

  /** Only the highest mover can run out of slots; and a mover never passes a higher one:
      it lands no later than the slot the higher one is leaving. */
  lemma LadderKeepsOrder(st: State, p: PostId, q: QueueId, low: Mover, high: Mover)
    requires Valid(st) && NoDoubleBooking(st) && QueueOf(st, q)
    requires IsMover(st, p, q, low) && IsMover(st, p, q, high) && low.index < high.index
    ensures Landing(st, p, q, low).Some? && low.index < Landing(st, p, q, low).value <= high.index
    ensures Landing(st, p, q, high).Some? ==> Landing(st, p, q, low).value < Landing(st, p, q, high).value
  {
    MoverSlotNotFixed(st, p, q, high);
    DestinationBelowMover(HorizonOf(st, st.queues[q].channel), FixedInstants(st, p, q), low.index, high.index);
  }

  /** With no fixed post in the next slot a mover shifts by exactly one. */
  lemma LadderShiftsByOne(st: State, p: PostId, q: QueueId, m: Mover)
    requires Valid(st) && QueueOf(st, q) && IsMover(st, p, q, m)
    requires m.index + 1 < |HorizonOf(st, st.queues[q].channel)|
    ensures Landing(st, p, q, m) == Some(m.index + 1)
      <==> HorizonOf(st, st.queues[q].channel)[m.index + 1] !in FixedInstants(st, p, q)
  {
    DestinationIsLeast(HorizonOf(st, st.queues[q].channel), FixedInstants(st, p, q), m.index, m.index + 1);
  }

  /** No slot can be had in front: a mover has too few open slots above it for itself and the
      movers that climb before it; or, without a ladder, every slot is held (there may be none). */
  ghost predicate Full(st: State, p: PostId, q: QueueId)
    requires QueueOf(st, q)
  {
    var ch := st.queues[q].channel;
    var h := HorizonOf(st, ch);
    if FrontHeld(st, p, q) then
      exists i :: 0 <= i < |LadderMovers(st, p, q)|
        && |OpenAbove(h, Avoided(st, p, q), LadderMovers(st, p, q)[i].index)| <= i
    else forall x :: x in h ==> x in Occupied(st, ch, p)
  }

  /** When `prioritize` reports a full queue, for any starting state, double-booked or not.
      The state is then unchanged. */
  lemma PrioritizeFailsIff(st: State, p: PostId, q: QueueId)
    requires Valid(st) && QueueOf(st, q)
    ensures Prioritize(st, p, q).1 == QueueFull <==> Full(st, p, q)
    ensures Prioritize(st, p, q).1 == QueueFull ==> Prioritize(st, p, q).0 == st
  {
    var ch := st.queues[q].channel;
    var h, movers := HorizonOf(st, ch), LadderMovers(st, p, q);
    if FrontHeld(st, p, q) {
      FrontHeldMeaning(st, p, q);
      LadderMoversExact(st, p, q);
      ClimbFailsIff(h, Avoided(st, p, q), Indices(movers));
      assert forall i :: 0 <= i < |movers| ==> Indices(movers)[i] == movers[i].index;
    } else {
      PrioritizeWithoutLadder(st, p, q);
    }
  }

  // ------------------------------------------------------------------ prioritising history

  /** The slot the front of the queue offers the post: slot 0 when a ladder clears it, else the
      first one nobody else holds. */
  ghost function SlotOffered(st: State, p: PostId, q: QueueId): Option<Instant>
    requires QueueOf(st, q)
  {
    var ch := st.queues[q].channel;
    var h := HorizonOf(st, ch);
    if FrontHeld(st, p, q) then Some(h[0]) else FirstFree(h, Occupied(st, ch, p))
  }

  lemma FirstFreeIsUnique(h: seq<Instant>, occupied: set<Instant>, x: Instant)
    requires IsFirstFree(h, occupied, x)
    ensures FirstFree(h, occupied) == Some(x)
  {
    FirstFreeMeaning(h, occupied);
    var i :| 0 <= i < |h| && h[i] == x && x !in occupied && forall j :: 0 <= j < i ==> h[j] in occupied;
    assert h[i] in h;
    var f := FirstFree(h, occupied).value;
    var j :| 0 <= j < |h| && h[j] == f && h[j] !in occupied && forall k :: 0 <= k < j ==> h[k] in occupied;
    assert i == j;
  }

  /** Unless the queue is full the post gets the slot on offer, a future one; no other
      protected child moves. */
  lemma PrioritizeGivesSlot(st: State, p: PostId, q: QueueId)
    requires Valid(st) && QueueOf(st, q) && !Full(st, p, q)
    ensures var r: State, key, slot := Prioritize(st, p, q).0, (p, st.queues[q].channel), SlotOffered(st, p, q);
      && SameButSchedules(st, r, st.queues[q].channel)
      && slot.Some? && slot.value > st.now
      && (key in st.children ==> At(r.children, key) == slot)
      && (forall k :: k != key && IsProtected(st, k) ==> At(r.children, k) == At(st.children, k))
  {
    PrioritizeFailsIff(st, p, q);
    HorizonIncreasing(st.channels[st.queues[q].channel], st.now);
    if FrontHeld(st, p, q) {
      LadderEffect(st, p, q);
      MoversAreNotProtected(st, p, q);
      var r, key := Prioritize(st, p, q).0, (p, st.queues[q].channel);
      forall k | k != key && IsProtected(st, k) ensures At(r.children, k) == At(st.children, k) {
        assert k == (k.0, k.1);
      }
    } else {
      PrioritizeWithoutLadder(st, p, q);
      var ch := st.queues[q].channel;
      var t :| IsFirstFree(HorizonOf(st, ch), Occupied(st, ch, p), t)
               && OnlyMoved(st, Prioritize(st, p, q).0, (p, ch), t);
      FirstFreeIsUnique(HorizonOf(st, ch), Occupied(st, ch, p), t);
    }
  }

  lemma MoversAreNotProtected(st: State, p: PostId, q: QueueId)
    requires Valid(st) && QueueOf(st, q)
    ensures forall y :: y in Posts(LadderMovers(st, p, q)) ==> !IsProtected(st, (y, st.queues[q].channel))
  {
    var movers := LadderMovers(st, p, q);
    LadderMoversExact(st, p, q);
    forall y | y in Posts(movers) ensures !IsProtected(st, (y, st.queues[q].channel)) {
      var i :| 0 <= i < |movers| && movers[i].post == y;
      assert movers[i] in movers && IsMover(st, p, q, movers[i]);
    }
  }

  /** `prioritize` leaves every protected child's schedule alone exactly when the prioritised
      post is not protected, or the queue is full, or the slot on offer is the one it holds. */
  lemma PrioritizeKeepsHistoryIff(st: State, p: PostId, q: QueueId)
    requires Valid(st) && QueueOf(st, q)
    ensures var key := (p, st.queues[q].channel);
      (forall k :: IsProtected(st, k) ==> At(Prioritize(st, p, q).0.children, k) == At(st.children, k))
      <==> !IsProtected(st, key) || Full(st, p, q) || At(st.children, key) == SlotOffered(st, p, q)
  {
    PrioritizeFailsIff(st, p, q);
    if !Full(st, p, q) { PrioritizeGivesSlot(st, p, q); }
  }

  /** A published or publishing post whose schedule has passed is moved to a future slot
      whenever the queue is not full: nothing guards it. */
  lemma PrioritizeRewritesHistory(st: State, p: PostId, q: QueueId)
    requires Valid(st) && QueueOf(st, q) && !Full(st, p, q)
    requires IsProtected(st, (p, st.queues[q].channel))
    requires At(st.children, (p, st.queues[q].channel)).Some?
      ==> At(st.children, (p, st.queues[q].channel)).value <= st.now
    ensures var r, key := Prioritize(st, p, q).0, (p, st.queues[q].channel);
      && At(r.children, key).Some? && At(r.children, key).value > st.now
      && r.children[key].status == st.children[key].status
      && At(r.children, key) != At(st.children, key)
  {
    PrioritizeGivesSlot(st, p, q);
  }
}
