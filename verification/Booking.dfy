/**
 No double booking, operation by operation: adding and prioritising never let two children
 of a channel claim one future instant, and a reorder does so for exactly known id lists.
 */
module Booking {
  import opened Common
  import opened Slots
  import opened Ladder
  import opened Store
  import opened QueueOps
  import opened QueueLaws
  import opened EditLaws

  // ------------------------------------------------------------------ moving children keeps booking

  /** Moved children get instants distinct from each other and from what stays put. */
  lemma MovesKeepBooking(st: State, r: State, ch: ChannelId, moved: set<PostId>)
    requires NoDoubleBooking(st) && SameButSchedules(st, r, ch)
    requires forall k: Key :: k.1 != ch || k.0 !in moved ==> At(r.children, k) == At(st.children, k)
    requires forall x, y :: x in moved && y in moved && x != y && Claims(r, (x, ch)) && Claims(r, (y, ch)) ==>
      At(r.children, (x, ch)) != At(r.children, (y, ch))
    requires forall x, y :: x in moved && y !in moved && Claims(r, (x, ch)) && Claims(st, (y, ch)) ==>
      At(r.children, (x, ch)) != At(st.children, (y, ch))
    ensures NoDoubleBooking(r)
  {
    forall a, b | Claims(r, a) && Claims(r, b) && a.1 == b.1 && At(r.children, a) == At(r.children, b)
      ensures a == b
    {
      var (x, c) := a;
      var (y, d) := b;
      var xMoved, yMoved := c == ch && x in moved, c == ch && y in moved;
      assert !xMoved ==> Claims(st, (x, c));
      assert !yMoved ==> Claims(st, (y, c));
    }
  }

  lemma OneMoveKeepsBooking(st: State, r: State, p: PostId, ch: ChannelId, t: Instant)
    requires NoDoubleBooking(st) && OnlyMoved(st, r, (p, ch), t) && t !in Occupied(st, ch, p)
    ensures NoDoubleBooking(r)
  {
    forall y | y != p && Claims(r, (p, ch)) && Claims(st, (y, ch))
      ensures At(r.children, (p, ch)) != At(st.children, (y, ch))
    {
      assert st.children[(y, ch)].scheduledAt.value in Occupied(st, ch, p);
    }
    MovesKeepBooking(st, r, ch, {p});
  }

  lemma AddKeepsBooking(st: State, p: PostId, q: QueueId)
    requires Valid(st) && NoDoubleBooking(st) && q in st.queues
    ensures NoDoubleBooking(AddNextAvailable(st, p, q).0)
  {
    var ch := st.queues[q].channel;
    AddTakesFirstFree(st, p, q);
    var (r, o) := AddNextAvailable(st, p, q);
    if !IsProtected(st, (p, ch)) && o == Done {
      var t :| IsFirstFree(HorizonOf(st, ch), Occupied(st, ch, p), t) && OnlyMoved(st, r, (p, ch), t);
      OneMoveKeepsBooking(st, r, p, ch, t);
    }
  }

  lemma PrioritizeKeepsBooking(st: State, p: PostId, q: QueueId)
    requires Valid(st) && NoDoubleBooking(st) && q in st.queues
    ensures NoDoubleBooking(Prioritize(st, p, q).0)
  {
    var ch := st.queues[q].channel;
    var (r, o) := Prioritize(st, p, q);
    if !FrontHeld(st, p, q) {
      PrioritizeWithoutLadder(st, p, q);
      if o == Done {
        var t :| IsFirstFree(HorizonOf(st, ch), Occupied(st, ch, p), t) && OnlyMoved(st, r, (p, ch), t);
        OneMoveKeepsBooking(st, r, p, ch, t);
      }
    } else {
      PrioritizeFailsIff(st, p, q);
      if o == Done { LadderKeepsBooking(st, p, q); }
    }
  }

  /** The horizon index a post moved by the ladder ends on. */
  ghost function SlotAfter(st: State, p: PostId, q: QueueId, x: PostId): nat
    requires Valid(st) && QueueOf(st, q) && FrontHeld(st, p, q) && !Full(st, p, q)
    requires x == p || x in Posts(LadderMovers(st, p, q))
  {
    PrioritizeFailsIff(st, p, q);
    LadderIsWrites(st, p, q);
    var movers := LadderMovers(st, p, q);
    var dest := Climb(HorizonOf(st, st.queues[q].channel), Avoided(st, p, q), {0}, Indices(movers)).value;
    if x == p then 0 else dest[LastIndex(Posts(movers), x)]
  }

  /** Everyone the ladder moves ends on an index of its own, clear of every fixed post. */
  lemma LadderSpreads(st: State, p: PostId, q: QueueId, x: PostId, y: PostId)
    requires Valid(st) && NoDoubleBooking(st) && QueueOf(st, q) && FrontHeld(st, p, q)
    requires !Full(st, p, q)
    requires x == p || x in Posts(LadderMovers(st, p, q))
    requires y == p || y in Posts(LadderMovers(st, p, q))
    ensures var h := HorizonOf(st, st.queues[q].channel);
      SlotAfter(st, p, q, x) < |h| && h[SlotAfter(st, p, q, x)] !in FixedInstants(st, p, q)
    ensures x != y ==> SlotAfter(st, p, q, x) != SlotAfter(st, p, q, y)
  {
    var ch := st.queues[q].channel;
    var h, movers := HorizonOf(st, ch), LadderMovers(st, p, q);
    PrioritizeFailsIff(st, p, q);
    LadderIsWrites(st, p, q);
    LadderMoversExact(st, p, q);
    ClimbIsSafe(h, Avoided(st, p, q), {0}, Indices(movers));
    AvoidedIsFixed(st, p, q);
    var front :| front != p && HasEntry(st.queues[q].entries, front) && Claims(st, (front, ch))
      && At(st.children, (front, ch)) == Some(h[0]);
    MoverSlotNotFixed(st, p, q, Mover(0, front));
  }

  lemma LadderWritesSlotAfter(st: State, p: PostId, q: QueueId, x: PostId)
    requires Valid(st) && QueueOf(st, q) && FrontHeld(st, p, q)
    requires !Full(st, p, q)
    requires x == p || x in Posts(LadderMovers(st, p, q))
    requires (x, st.queues[q].channel) in st.children
    ensures var h := HorizonOf(st, st.queues[q].channel);
      SlotAfter(st, p, q, x) < |h|
      && At(Prioritize(st, p, q).0.children, (x, st.queues[q].channel)) == Some(h[SlotAfter(st, p, q, x)])
  {
    PrioritizeFailsIff(st, p, q);
    LadderEffect(st, p, q);
    LadderMoversExact(st, p, q);
    var movers := LadderMovers(st, p, q);
    if x != p {
      var i := LastIndex(Posts(movers), x);
      assert movers[i] in movers && movers[i].post == x;
    }
  }

  lemma LadderedDiffer(st: State, p: PostId, q: QueueId, x: PostId, y: PostId)
    requires Valid(st) && NoDoubleBooking(st) && QueueOf(st, q) && FrontHeld(st, p, q)
    requires !Full(st, p, q)
    requires x == p || x in Posts(LadderMovers(st, p, q))
    requires y == p || y in Posts(LadderMovers(st, p, q))
    requires x != y && (x, st.queues[q].channel) in st.children && (y, st.queues[q].channel) in st.children
    ensures var r, ch := Prioritize(st, p, q).0, st.queues[q].channel;
      At(r.children, (x, ch)) != At(r.children, (y, ch))
  {
    HorizonIncreasing(st.channels[st.queues[q].channel], st.now);
    LadderSpreads(st, p, q, x, y);
    LadderWritesSlotAfter(st, p, q, x);
    LadderWritesSlotAfter(st, p, q, y);
  }

  lemma LadderedAvoidStayers(st: State, p: PostId, q: QueueId, x: PostId, y: PostId)
    requires Valid(st) && NoDoubleBooking(st) && QueueOf(st, q) && FrontHeld(st, p, q)
    requires !Full(st, p, q)
    requires x == p || x in Posts(LadderMovers(st, p, q))
    requires (x, st.queues[q].channel) in st.children
    requires y != p && y !in Posts(LadderMovers(st, p, q)) && Claims(st, (y, st.queues[q].channel))
    ensures var r, ch := Prioritize(st, p, q).0, st.queues[q].channel;
      At(r.children, (x, ch)) != At(st.children, (y, ch))
  {
    LadderSpreads(st, p, q, x, p);
    LadderWritesSlotAfter(st, p, q, x);
    StayersAreFixed(st, p, q, y);
  }

  lemma LadderMovesOnly(st: State, p: PostId, q: QueueId)
    requires Valid(st) && QueueOf(st, q) && FrontHeld(st, p, q) && !Full(st, p, q)
    ensures var r, ch := Prioritize(st, p, q).0, st.queues[q].channel;
      && SameButSchedules(st, r, ch)
      && forall k: Key :: k.1 != ch || k.0 !in Elements(Posts(LadderMovers(st, p, q))) + {p} ==>
        At(r.children, k) == At(st.children, k)
  {
    PrioritizeFailsIff(st, p, q);
    LadderEffect(st, p, q);
  }

  lemma LadderKeepsBooking(st: State, p: PostId, q: QueueId)
    requires Valid(st) && NoDoubleBooking(st) && QueueOf(st, q) && FrontHeld(st, p, q)
    requires !Full(st, p, q)
    ensures NoDoubleBooking(Prioritize(st, p, q).0)
  {
    var ch := st.queues[q].channel;
    var r, posts := Prioritize(st, p, q).0, Posts(LadderMovers(st, p, q));
    var moved := Elements(posts) + {p};
    LadderMovesOnly(st, p, q);
    forall x, y | x in moved && y in moved && x != y && Claims(r, (x, ch)) && Claims(r, (y, ch))
      ensures At(r.children, (x, ch)) != At(r.children, (y, ch))
    {
      LadderedDiffer(st, p, q, x, y);
    }
    forall x, y | x in moved && y !in moved && Claims(r, (x, ch)) && Claims(st, (y, ch))
      ensures At(r.children, (x, ch)) != At(st.children, (y, ch))
    {
      LadderedAvoidStayers(st, p, q, x, y);
    }
    MovesKeepBooking(st, r, ch, moved);
  }

  lemma StayersAreFixed(st: State, p: PostId, q: QueueId, y: PostId)
    requires QueueOf(st, q) && y != p && y !in Posts(LadderMovers(st, p, q))
    requires Claims(st, (y, st.queues[q].channel))
    ensures st.children[(y, st.queues[q].channel)].scheduledAt.value in FixedInstants(st, p, q)
  {
    var movers := LadderMovers(st, p, q);
    forall m | m in movers ensures m.post != y {
      var i :| 0 <= i < |movers| && movers[i] == m;
      assert Posts(movers)[i] == m.post;
    }
  }

  // ------------------------------------------------------------------ reorder

  /** The instant an entry ends with, for any id list. */
  ghost function Dealt(st: State, q: QueueId, ids: seq<PostId>, x: PostId): Instant
    requires q in st.queues && x in Permuted(st, q, ids)
  {
    Pool(st, q, ids)[LastIndex(Permuted(st, q, ids), x)]
  }

  /** An instant of the pool belonged to one of the entries reordered. */
  lemma DealtWasHeld(st: State, q: QueueId, ids: seq<PostId>, i: nat) returns (w: PostId)
    requires Valid(st) && q in st.queues && i < |Pool(st, q, ids)|
    ensures w in Permuted(st, q, ids) && At(st.children, (w, st.queues[q].channel)) == Some(Pool(st, q, ids)[i])
  {
    var ch := st.queues[q].channel;
    var posts := Permuted(st, q, ids);
    var times := Schedules(st, ch, posts);
    SortInstantsSorts(times);
    PermutationKeeps(times, SortInstants(times));
    assert Pool(st, q, ids)[i] in times;
    var j :| 0 <= j < |times| && times[j] == Pool(st, q, ids)[i];
    w := posts[j];
    ReorderEffect(st, q, ids);
    assert w in posts;
  }

  ghost predicate DealtAlike(st: State, q: QueueId, ids: seq<PostId>, x: PostId, y: PostId)
    requires q in st.queues
  {
    x in Permuted(st, q, ids) && y in Permuted(st, q, ids) && x != y
    && Dealt(st, q, ids, x) == Dealt(st, q, ids, y) && Dealt(st, q, ids, x) > st.now
  }

  /** How many instants lie before `t`. */
  function CountBefore(times: seq<Instant>, t: Instant): nat {
    if times == [] then 0 else (if times[0] < t then 1 else 0) + CountBefore(times[1..], t)
  }

  /** Counting each entry as often as it is named: the last mention of `x` comes after as many
      mentions as there are instants before the one `w` holds now, and before as many as there
      are up to it. */
  ghost predicate FallsOn(st: State, q: QueueId, ids: seq<PostId>, x: PostId, w: PostId)
    requires q in st.queues && x in Permuted(st, q, ids)
  {
    var ch, posts := st.queues[q].channel, Permuted(st, q, ids);
    var times, at := Schedules(st, ch, posts), At(st.children, (w, ch));
    at.Some? && CountBefore(times, at.value) <= LastIndex(posts, x) < CountBefore(times, at.value + 1)
  }

  /** Two named entries fall on the future instant that one of them all holds now: a test of the
      ids and of the present schedules. */
  ghost predicate Clash(st: State, q: QueueId, ids: seq<PostId>, x: PostId, y: PostId)
    requires q in st.queues
  {
    x in Permuted(st, q, ids) && y in Permuted(st, q, ids) && x != y
    && exists w :: w in Permuted(st, q, ids) && Claims(st, (w, st.queues[q].channel))
                   && FallsOn(st, q, ids, x, w) && FallsOn(st, q, ids, y, w)
  }

  lemma {:induction false} InsertCounts(x: Instant, sorted: seq<Instant>, t: Instant)
    ensures CountBefore(Insert(Earliest, x, sorted), t) == CountBefore(sorted, t) + if x < t then 1 else 0
  {
    if !(sorted == [] || Earliest(x) <= Earliest(sorted[0])) {
      InsertCounts(x, sorted[1..], t);
      var r := Insert(Earliest, x, sorted);
      assert r[0] == sorted[0] && r[1..] == Insert(Earliest, x, sorted[1..]);
    } else {
      assert ([x] + sorted)[1..] == sorted;
    }
  }

  lemma {:induction false} SortCounts(times: seq<Instant>, t: Instant)
    ensures CountBefore(Sort(Earliest, times), t) == CountBefore(times, t)
  {
    if times != [] {
      SortCounts(times[1..], t);
      InsertCounts(times[0], Sort(Earliest, times[1..]), t);
    }
  }

  lemma {:induction false} AscendingCounts(sorted: seq<Instant>, t: Instant, i: nat)
    requires Ascending(sorted) && i < |sorted|
    ensures sorted[i] < t <==> i < CountBefore(sorted, t)
  {
    if i > 0 { AscendingCounts(sorted[1..], t, i - 1); }
    if |sorted| > 1 { AscendingCounts(sorted[1..], t, 0); }
  }

  /** The i-th instant in order is `t` exactly when fewer than i + 1 lie before it, and more than i
      up to it. */
  lemma SortedAtIff(times: seq<Instant>, i: nat, t: Instant)
    requires i < |times|
    ensures SortInstants(times)[i] == t <==> CountBefore(times, t) <= i < CountBefore(times, t + 1)
  {
    SortInstantsSorts(times);
    SortCounts(times, t);
    SortCounts(times, t + 1);
    AscendingCounts(SortInstants(times), t, i);
    AscendingCounts(SortInstants(times), t + 1, i);
  }

  lemma FallsOnIffDealt(st: State, q: QueueId, ids: seq<PostId>, x: PostId, w: PostId)
    requires q in st.queues && x in Permuted(st, q, ids)
    ensures FallsOn(st, q, ids, x, w) <==> At(st.children, (w, st.queues[q].channel)) == Some(Dealt(st, q, ids, x))
  {
    var ch, posts := st.queues[q].channel, Permuted(st, q, ids);
    var at := At(st.children, (w, ch));
    if at.Some? { SortedAtIff(Schedules(st, ch, posts), LastIndex(posts, x), at.value); }
  }

  lemma ClashIffDealtAlike(st: State, q: QueueId, ids: seq<PostId>, x: PostId, y: PostId)
    requires Valid(st) && q in st.queues
    ensures Clash(st, q, ids, x, y) <==> DealtAlike(st, q, ids, x, y)
  {
    var ch, posts := st.queues[q].channel, Permuted(st, q, ids);
    if x in posts && y in posts && x != y {
      forall w ensures FallsOn(st, q, ids, x, w) <==> At(st.children, (w, ch)) == Some(Dealt(st, q, ids, x)) {
        FallsOnIffDealt(st, q, ids, x, w);
      }
      forall w ensures FallsOn(st, q, ids, y, w) <==> At(st.children, (w, ch)) == Some(Dealt(st, q, ids, y)) {
        FallsOnIffDealt(st, q, ids, y, w);
      }
      if DealtAlike(st, q, ids, x, y) {
        var w := DealtWasHeld(st, q, ids, LastIndex(posts, x));
        ReorderEffect(st, q, ids);
        assert Claims(st, (w, ch)) && FallsOn(st, q, ids, x, w) && FallsOn(st, q, ids, y, w);
      }
    }
  }

  /** Reordering keeps the channel free of double bookings exactly when no two of the named
      entries fall on the same future instant; with repeated ids they may. */
  lemma ReorderKeepsBookingIff(st: State, q: QueueId, ids: seq<PostId>)
    requires Valid(st) && NoDoubleBooking(st) && q in st.queues
    ensures NoDoubleBooking(Reorder(st, q, ids)) <==> forall x, y :: !Clash(st, q, ids, x, y)
  {
    if forall x, y :: !Clash(st, q, ids, x, y) {
      forall x, y ensures !DealtAlike(st, q, ids, x, y) { ClashIffDealtAlike(st, q, ids, x, y); }
      NoClashKeepsBooking(st, q, ids);
    } else {
      var x, y :| Clash(st, q, ids, x, y);
      ClashIffDealtAlike(st, q, ids, x, y);
      var ch, r := st.queues[q].channel, Reorder(st, q, ids);
      ReorderEffect(st, q, ids);
      assert Claims(r, (x, ch)) && Claims(r, (y, ch)) && At(r.children, (x, ch)) == At(r.children, (y, ch));
      assert (x, ch) != (y, ch);
    }
  }

  lemma NoClashKeepsBooking(st: State, q: QueueId, ids: seq<PostId>)
    requires Valid(st) && NoDoubleBooking(st) && q in st.queues
    requires forall x, y :: !DealtAlike(st, q, ids, x, y)
    ensures NoDoubleBooking(Reorder(st, q, ids))
  {
    var ch := st.queues[q].channel;
    var r, posts := Reorder(st, q, ids), Permuted(st, q, ids);
    ReorderEffect(st, q, ids);
    forall x, y | x in Elements(posts) && y in Elements(posts) && x != y && Claims(r, (x, ch)) && Claims(r, (y, ch))
      ensures At(r.children, (x, ch)) != At(r.children, (y, ch))
    {
      assert !DealtAlike(st, q, ids, x, y);
    }
    forall x, y | x in Elements(posts) && y !in Elements(posts) && Claims(r, (x, ch)) && Claims(st, (y, ch))
      ensures At(r.children, (x, ch)) != At(st.children, (y, ch))
    {
      DealtIsNotForeign(st, q, ids, x, y);
    }
    MovesKeepBooking(st, r, ch, Elements(posts));
  }

  lemma DealtIsNotForeign(st: State, q: QueueId, ids: seq<PostId>, x: PostId, y: PostId)
    requires Valid(st) && NoDoubleBooking(st) && q in st.queues
    requires x in Permuted(st, q, ids) && y !in Permuted(st, q, ids) && Claims(st, (y, st.queues[q].channel))
    ensures Some(Dealt(st, q, ids, x)) != At(st.children, (y, st.queues[q].channel))
  {
    var ch := st.queues[q].channel;
    var w := DealtWasHeld(st, q, ids, LastIndex(Permuted(st, q, ids), x));
    ReorderEffect(st, q, ids);
    assert (w, ch) != (y, ch);
    assert At(st.children, (w, ch)) == At(st.children, (y, ch)) ==> Claims(st, (w, ch));
  }

  lemma ReorderKeepsBooking(st: State, q: QueueId, ids: seq<PostId>)
    requires Valid(st) && NoDoubleBooking(st) && q in st.queues && Distinct(ids)
    ensures NoDoubleBooking(Reorder(st, q, ids))
  {
    forall x, y ensures !DealtAlike(st, q, ids, x, y) {
      if DealtAlike(st, q, ids, x, y) { DistinctIdsDoNotClash(st, q, ids, x, y); }
    }
    NoClashKeepsBooking(st, q, ids);
  }

  lemma DistinctIdsDoNotClash(st: State, q: QueueId, ids: seq<PostId>, x: PostId, y: PostId)
    requires Valid(st) && NoDoubleBooking(st) && q in st.queues && Distinct(ids)
    requires x in Permuted(st, q, ids) && y in Permuted(st, q, ids) && x != y && Dealt(st, q, ids, x) > st.now
    ensures Dealt(st, q, ids, x) != Dealt(st, q, ids, y)
  {
    var ch := st.queues[q].channel;
    var posts, pool := Permuted(st, q, ids), Pool(st, q, ids);
    SchedulesAfterReorder(st, q, ids);
    ReorderEffect(st, q, ids);
    SortInstantsSorts(Schedules(st, ch, posts));
    var i, j := LastIndex(posts, x), LastIndex(posts, y);
    FutureTimesDiffer(st, ch, posts, pool[i]);
    if pool[i] == pool[j] {
      RepeatCounts(pool, if i < j then i else j, if i < j then j else i);
    }
  }

  /** Distinct posts of a channel hold a future instant at most once between them. */
  lemma {:induction false} FutureTimesDiffer(st: State, ch: ChannelId, posts: seq<PostId>, t: Instant)
    requires NoDoubleBooking(st) && Distinct(posts) && t > st.now
    requires forall x :: x in posts ==> At(st.children, (x, ch)).Some? && !IsProtected(st, (x, ch))
    ensures multiset(Schedules(st, ch, posts))[t] <= 1
  {
    var times := Schedules(st, ch, posts);
    if posts != [] {
      var n := |posts| - 1;
      FutureTimesDiffer(st, ch, posts[..n], t);
      assert times == Schedules(st, ch, posts[..n]) + [times[n]];
      if times[n] == t {
        forall i | 0 <= i < n ensures times[i] != t {
          assert posts[i] in posts && posts[n] in posts;
          assert Claims(st, (posts[n], ch)) && (posts[i], ch) != (posts[n], ch);
          assert At(st.children, (posts[i], ch)) == Some(t) ==> Claims(st, (posts[i], ch));
        }
      }
    }
  }

  lemma PermutedTwice(st: State, q: QueueId, a: PostId, b: PostId)
    requires q in st.queues && Named(st, q, a) && Named(st, q, b)
    requires At(st.children, (a, st.queues[q].channel)).Some? && At(st.children, (b, st.queues[q].channel)).Some?
    ensures Permuted(st, q, [b, b, a]) == [b, b, a]
  {
    var ch := st.queues[q].channel;
    assert [b, b, a][..2] == [b, b] && [b, b][..1] == [b] && [b][..0] == [];
    assert Reorderable(st, q, []) == [] && Slotted(st, ch, []) == [];
    assert Reorderable(st, q, [b]) == [b] && Slotted(st, ch, [b]) == [b];
    assert [b] + [b] == [b, b] && [b, b] + [a] == [b, b, a];
    assert Reorderable(st, q, [b, b]) == [b] + [b] && Slotted(st, ch, [b, b]) == [b] + [b];
    assert Reorderable(st, q, [b, b, a]) == [b, b] + [a] && Slotted(st, ch, [b, b, a]) == [b, b] + [a];
  }

  /** Distinct ids are needed: whenever a queue holds two future posts, naming the later one
      twice, ahead of the earlier one, puts both on the same instant. */
  lemma RepeatedIdDoubleBooks(st: State, q: QueueId, a: PostId, b: PostId)
    requires Valid(st) && NoDoubleBooking(st) && q in st.queues
    requires HasEntry(st.queues[q].entries, a) && HasEntry(st.queues[q].entries, b)
    requires Claims(st, (a, st.queues[q].channel)) && Claims(st, (b, st.queues[q].channel))
    requires At(st.children, (a, st.queues[q].channel)).value < At(st.children, (b, st.queues[q].channel)).value
    ensures !NoDoubleBooking(Reorder(st, q, [b, b, a]))
  {
    var ch := st.queues[q].channel;
    var ids := [b, b, a];
    var ta, tb := At(st.children, (a, ch)).value, At(st.children, (b, ch)).value;
    PermutedTwice(st, q, a, b);
    var times, pool := Schedules(st, ch, ids), Pool(st, q, ids);
    assert times == [tb, tb, ta];
    SortInstantsSorts(times);
    assert pool == [pool[0], pool[1], pool[2]];
    assert multiset(pool)[tb] == 2 && multiset(pool)[ta] == 1;
    assert pool[0] in multiset(pool) && pool[1] in multiset(pool) && pool[2] in multiset(pool);
    assert pool[1] == tb && pool[2] == tb;
    assert ids[..2] == [b, b];
    assert LastIndex(ids, a) == 2 && LastIndex(ids[..2], b) == 1 && LastIndex(ids, b) == 1;
    assert DealtAlike(st, q, ids, a, b);
    ClashIffDealtAlike(st, q, ids, a, b);
    ReorderKeepsBookingIff(st, q, ids);
  }
}
