/** Laws of `reorder_queue` and `remove_from_queue`. */
module EditLaws {
  import opened Common
  import opened Store
  import opened QueueOps
  import opened QueueLaws

  // ------------------------------------------------------------------ sorting the instants

  lemma SortInstantsSorts(s: seq<Instant>)
    ensures Ascending(SortInstants(s)) && multiset(SortInstants(s)) == multiset(s)
  {
    SortSorts(Earliest, s);
    var r := SortInstants(s);
    forall i, j | 0 <= i < j < |r| ensures r[i] <= r[j] {
      assert Earliest(r[i]) <= Earliest(r[j]);
    }
  }

  // ------------------------------------------------------------------ who takes part

  ghost predicate Named(st: State, q: QueueId, x: PostId)
    requires q in st.queues
  {
    HasEntry(st.queues[q].entries, x) && !IsProtected(st, (x, st.queues[q].channel))
  }

  lemma {:induction false} ReorderableExact(st: State, q: QueueId, ids: seq<PostId>)
    requires q in st.queues
    ensures forall x :: x in Reorderable(st, q, ids) <==> x in ids && Named(st, q, x)
    ensures Distinct(ids) ==> Distinct(Reorderable(st, q, ids))
  {
    if ids != [] {
      var n := |ids| - 1;
      ReorderableExact(st, q, ids[..n]);
      assert ids == ids[..n] + [ids[n]];
      if Distinct(ids) { assert ids[n] !in ids[..n]; }
    }
  }

  lemma {:induction false} SlottedExact(st: State, ch: ChannelId, posts: seq<PostId>)
    ensures forall x :: x in Slotted(st, ch, posts) <==> x in posts && At(st.children, (x, ch)).Some?
    ensures Distinct(posts) ==> Distinct(Slotted(st, ch, posts))
  {
    if posts != [] {
      var n := |posts| - 1;
      SlottedExact(st, ch, posts[..n]);
      assert posts == posts[..n] + [posts[n]];
      if Distinct(posts) { assert posts[n] !in posts[..n]; }
    }
  }

  /** `a` is read before `b`. */
  ghost predicate Before<T>(s: seq<T>, a: T, b: T) {
    exists i, j :: 0 <= i < j < |s| && s[i] == a && s[j] == b
  }

  lemma BeforeAtEnd<T>(s: seq<T>, a: T, b: T)
    requires a in s
    ensures Before(s + [b], a, b)
  {
    var i :| 0 <= i < |s| && s[i] == a;
    assert (s + [b])[i] == a && (s + [b])[|s|] == b;
  }

  lemma BeforeGrows<T>(s: seq<T>, t: seq<T>, a: T, b: T)
    requires Before(s, a, b)
    ensures Before(s + t, a, b)
  {
    var i, j :| 0 <= i < j < |s| && s[i] == a && s[j] == b;
    assert (s + t)[i] == a && (s + t)[j] == b;
  }

  lemma {:induction false} ReorderableKeepsOrder(st: State, q: QueueId, ids: seq<PostId>, a: PostId, b: PostId)
    requires q in st.queues && Before(ids, a, b) && Named(st, q, a) && Named(st, q, b)
    ensures Before(Reorderable(st, q, ids), a, b)
  {
    var n := |ids| - 1;
    var earlier := Reorderable(st, q, ids[..n]);
    var i, j :| 0 <= i < j < |ids| && ids[i] == a && ids[j] == b;
    if j == n {
      ReorderableExact(st, q, ids[..n]);
      assert ids[..n][i] == a;
      BeforeAtEnd(earlier, a, b);
    } else {
      assert ids[..n][i] == a && ids[..n][j] == b;
      ReorderableKeepsOrder(st, q, ids[..n], a, b);
      BeforeGrows(earlier, Reorderable(st, q, ids)[|earlier|..], a, b);
      assert Reorderable(st, q, ids) == earlier + Reorderable(st, q, ids)[|earlier|..];
    }
  }

  lemma {:induction false} SlottedKeepsOrder(st: State, ch: ChannelId, posts: seq<PostId>, a: PostId, b: PostId)
    requires Before(posts, a, b) && At(st.children, (a, ch)).Some? && At(st.children, (b, ch)).Some?
    ensures Before(Slotted(st, ch, posts), a, b)
  {
    var n := |posts| - 1;
    var earlier := Slotted(st, ch, posts[..n]);
    var i, j :| 0 <= i < j < |posts| && posts[i] == a && posts[j] == b;
    if j == n {
      SlottedExact(st, ch, posts[..n]);
      assert posts[..n][i] == a;
      BeforeAtEnd(earlier, a, b);
    } else {
      assert posts[..n][i] == a && posts[..n][j] == b;
      SlottedKeepsOrder(st, ch, posts[..n], a, b);
      BeforeGrows(earlier, Slotted(st, ch, posts)[|earlier|..], a, b);
      assert Slotted(st, ch, posts) == earlier + Slotted(st, ch, posts)[|earlier|..];
    }
  }

  // ------------------------------------------------------------------ the effect of a reorder

  /** The entries a reorder permutes, in the order given. */
  ghost function Permuted(st: State, q: QueueId, ids: seq<PostId>): seq<PostId>
    requires q in st.queues
  {
    Slotted(st, st.queues[q].channel, Reorderable(st, q, ids))
  }

  /** Their instants, ascending. */
  ghost function Pool(st: State, q: QueueId, ids: seq<PostId>): (r: seq<Instant>)
    requires q in st.queues
    ensures |r| == |Permuted(st, q, ids)|
  {
    SortInstants(Schedules(st, st.queues[q].channel, Permuted(st, q, ids)))
  }

  /** Every row dealt an instant shows it; the others, and those of other queues, show what they did. */
  ghost predicate ReorderShows(st: State, r: State, q: QueueId, posts: seq<PostId>, pool: seq<Instant>)
    requires |posts| == |pool|
  {
    && OnlyRowsOf(st, r, q) && |r.queues[q].entries| == |st.queues[q].entries|
    && (forall i :: 0 <= i < |st.queues[q].entries| ==> r.queues[q].entries[i].post == st.queues[q].entries[i].post)
    && (forall x :: x in posts ==> Shows(r.queues[q].entries, x, pool[LastIndex(posts, x)]))
    && forall i :: 0 <= i < |st.queues[q].entries| && st.queues[q].entries[i].post !in posts ==>
      StillShows(st.queues[q].entries, r.queues[q].entries, i)
  }

  /** Renumbering leaves the slots shown alone. */
  lemma {:induction false} PositionsKeepSlots(entries: seq<Entry>, read: seq<Entry>, posts: seq<PostId>)
    requires |entries| == |read|
    ensures forall i :: 0 <= i < |entries| ==> StillShows(entries, SetPositions(entries, read, posts), i)
  {
    if posts != [] {
      var n := |posts| - 1;
      PositionsKeepSlots(entries, read, posts[..n]);
      forall i | 0 <= i < |entries| ensures StillShows(entries, SetPositions(entries, read, posts), i) {
        assert StillShows(entries, SetPositions(entries, read, posts[..n]), i);
      }
    }
  }

  lemma RenumberedShows(st: State, q: QueueId, posts: seq<PostId>, pool: seq<Instant>, ordered: seq<PostId>)
    requires q in st.queues && |posts| == |pool|
    ensures var mid := WriteSlots(st, q, posts, pool);
      |mid.queues[q].entries| == |st.queues[q].entries|
      && ReorderShows(st, WithEntries(mid, q, SetPositions(mid.queues[q].entries, st.queues[q].entries, ordered)), q,
                      posts, pool)
  {
    WriteSlotsShow(st, q, posts, pool);
    var before, mid := st.queues[q].entries, WriteSlots(st, q, posts, pool).queues[q].entries;
    var after := SetPositions(mid, before, ordered);
    PositionsKeepSlots(mid, before, ordered);
    forall x | x in posts ensures Shows(after, x, pool[LastIndex(posts, x)]) {
      forall i | 0 <= i < |after| && after[i].post == x ensures after[i].slotAt == Some(pool[LastIndex(posts, x)]) {
        assert StillShows(mid, after, i) && Shows(mid, x, pool[LastIndex(posts, x)]);
      }
    }
    forall i | 0 <= i < |before| && before[i].post !in posts ensures StillShows(before, after, i) {
      assert StillShows(before, mid, i) && StillShows(mid, after, i);
    }
  }

  /** For any id list, repeats included: an entry ends with the pool instant at its last
      occurrence, and its row shows it; protected, unslotted and unnamed posts keep their schedule. */
  lemma ReorderEffect(st: State, q: QueueId, ids: seq<PostId>)
    requires Valid(st) && q in st.queues
    ensures var r: State := Reorder(st, q, ids);
      var ch := st.queues[q].channel;
      var posts, pool := Permuted(st, q, ids), Pool(st, q, ids);
      && SameButSchedules(st, r, ch)
      && (forall x :: x in posts <==> x in ids && Named(st, q, x) && At(st.children, (x, ch)).Some?)
      && (forall x :: x in posts ==> At(r.children, (x, ch)) == Some(pool[LastIndex(posts, x)]))
      && (forall k: Key :: k.1 != ch || k.0 !in posts ==> At(r.children, k) == At(st.children, k))
    ensures ReorderShows(st, Reorder(st, q, ids), q, Permuted(st, q, ids), Pool(st, q, ids))
    ensures Valid(Reorder(st, q, ids)) && (InSync(st) ==> InSync(Reorder(st, q, ids)))
  {
    var ch := st.queues[q].channel;
    var ordered := Reorderable(st, q, ids);
    var posts, pool := Permuted(st, q, ids), Pool(st, q, ids);
    ReorderableExact(st, q, ids);
    SlottedExact(st, ch, ordered);
    WriteSlotsFrame(st, q, posts, pool);
    WriteSlotsKeep(st, q, posts, pool);
    RenumberedShows(st, q, posts, pool, ordered);
    var mid := WriteSlots(st, q, posts, pool);
    var r := Reorder(st, q, ids);
    assert r.parents == mid.parents && r.children == mid.children;
    if InSync(mid) {
      forall x ensures Parent(r, x) == MinSchedule(r.children, x) {
        assert Parent(mid, x) == MinSchedule(mid.children, x);
      }
    }
  }

  lemma SchedulesAfterReorder(st: State, q: QueueId, ids: seq<PostId>)
    requires Valid(st) && q in st.queues && Distinct(ids)
    ensures var ch := st.queues[q].channel;
      Distinct(Permuted(st, q, ids))
      && Schedules(Reorder(st, q, ids), ch, Permuted(st, q, ids)) == Pool(st, q, ids)
  {
    var ch := st.queues[q].channel;
    var posts := Permuted(st, q, ids);
    ReorderEffect(st, q, ids);
    ReorderableExact(st, q, ids);
    SlottedExact(st, ch, Reorderable(st, q, ids));
    forall i | 0 <= i < |posts|
      ensures Schedules(Reorder(st, q, ids), ch, posts)[i] == Pool(st, q, ids)[i]
    {
      LastIndexOfDistinct(posts, i);
      assert posts[i] in posts;
    }
  }

  /** A reorder with distinct ids permutes the instants its entries hold: the multiset is
      the same, and entries named earlier come no later. */
  lemma ReorderIsSortedPermutation(st: State, q: QueueId, ids: seq<PostId>)
    requires Valid(st) && q in st.queues && Distinct(ids)
    ensures var ch := st.queues[q].channel;
      var posts := Permuted(st, q, ids);
      multiset(Schedules(Reorder(st, q, ids), ch, posts)) == multiset(Schedules(st, ch, posts))
    ensures var ch := st.queues[q].channel;
      forall a, b :: Before(ids, a, b) && a in Permuted(st, q, ids) && b in Permuted(st, q, ids) ==>
        At(Reorder(st, q, ids).children, (a, ch)).Some? && At(Reorder(st, q, ids).children, (b, ch)).Some?
        && At(Reorder(st, q, ids).children, (a, ch)).value <= At(Reorder(st, q, ids).children, (b, ch)).value
  {
    var ch := st.queues[q].channel;
    var r := Reorder(st, q, ids);
    var posts, pool := Permuted(st, q, ids), Pool(st, q, ids);
    SchedulesAfterReorder(st, q, ids);
    SortInstantsSorts(Schedules(st, ch, posts));
    ReorderEffect(st, q, ids);
    forall a, b | Before(ids, a, b) && a in posts && b in posts
      ensures At(r.children, (a, ch)).Some? && At(r.children, (b, ch)).Some?
              && At(r.children, (a, ch)).value <= At(r.children, (b, ch)).value
    {
      ReorderableKeepsOrder(st, q, ids, a, b);
      SlottedKeepsOrder(st, ch, Reorderable(st, q, ids), a, b);
      var i, j :| 0 <= i < j < |posts| && posts[i] == a && posts[j] == b;
      LastIndexOfDistinct(posts, i);
      LastIndexOfDistinct(posts, j);
    }
  }

  // ------------------------------------------------------------------ positions

  lemma {:induction false} PositionsFollowOrder(entries: seq<Entry>, posts: seq<PostId>)
    requires UniqueEntries(entries) && Distinct(posts)
    ensures var r := SetPositions(entries, entries, posts);
      forall j :: 0 <= j < |r| ==>
        r[j] == if entries[j].post in posts then entries[j].(position := LastIndex(posts, entries[j].post))
                else entries[j]
  {
    if posts != [] {
      var n := |posts| - 1;
      PositionsFollowOrder(entries, posts[..n]);
      assert posts == posts[..n] + [posts[n]];
      assert posts[n] !in posts[..n];
    }
  }

  /** After a reorder with distinct ids the i-th named entry has position i, and entries
      that are not named keep theirs. */
  lemma ReorderSetsPositions(st: State, q: QueueId, ids: seq<PostId>)
    requires Valid(st) && q in st.queues && Distinct(ids)
    ensures var before, after := st.queues[q].entries, Reorder(st, q, ids).queues[q].entries;
      var ordered := Reorderable(st, q, ids);
      |after| == |before|
      && forall j :: 0 <= j < |after| ==>
        && after[j].post == before[j].post
        && (after[j].post in ordered ==> after[j].position < |ordered| && ordered[after[j].position] == after[j].post)
        && (after[j].post !in ordered ==> after[j].position == before[j].position)
  {
    var ordered := Reorderable(st, q, ids);
    var posts, pool := Permuted(st, q, ids), Pool(st, q, ids);
    ReorderableExact(st, q, ids);
    WriteSlotsShow(st, q, posts, pool);
    var mid := WriteSlots(st, q, posts, pool).queues[q].entries;
    PositionsIgnoreSlots(mid, st.queues[q].entries, ordered);
    PositionsFollowOrder(st.queues[q].entries, ordered);
  }

  lemma {:induction false} PositionsIgnoreSlots(a: seq<Entry>, b: seq<Entry>, posts: seq<PostId>)
    requires SamePosts(a, b)
    ensures SamePosts(SetPositions(a, b, posts), SetPositions(b, b, posts))
  {
    if posts != [] { PositionsIgnoreSlots(a, b, posts[..|posts| - 1]); }
  }

  // ------------------------------------------------------------------ remove

  lemma {:induction false} DropEntryExact(entries: seq<Entry>, p: PostId)
    ensures forall e :: e in DropEntry(entries, p) <==> e in entries && e.post != p
    ensures UniqueEntries(entries) ==> UniqueEntries(DropEntry(entries, p))
    ensures !HasEntry(DropEntry(entries, p), p)
  {
    if entries != [] {
      var n := |entries| - 1;
      DropEntryExact(entries[..n], p);
      assert entries == entries[..n] + [entries[n]];
      if UniqueEntries(entries) {
        forall e | e in DropEntry(entries[..n], p) ensures e.post != entries[n].post {}
      }
    }
  }

  /** `after` are the entries of `before` that are not the post's, each as it was and in the old
      order. */
  ghost predicate LeavesOnly(before: seq<Entry>, after: seq<Entry>, p: PostId) {
    && (forall e :: e in after <==> e in before && e.post != p)
    && (forall a, b :: Before(after, a, b) <==> Before(before, a, b) && a.post != p && b.post != p)
  }

  lemma BeforeUnfolds<T>(s: seq<T>, a: T, b: T)
    requires s != []
    ensures var n := |s| - 1; Before(s, a, b) <==> Before(s[..n], a, b) || (a in s[..n] && s[n] == b)
  {
    var n := |s| - 1;
    assert s == s[..n] + [s[n]];
    if Before(s[..n], a, b) { BeforeGrows(s[..n], [s[n]], a, b); }
    if a in s[..n] && s[n] == b { BeforeAtEnd(s[..n], a, b); }
    if Before(s, a, b) {
      var i, j :| 0 <= i < j < |s| && s[i] == a && s[j] == b;
      assert s[..n][i] == a;
      if j < n { assert s[..n][j] == b; }
    }
  }

  lemma {:induction false} DropKeepsOrder(entries: seq<Entry>, p: PostId, a: Entry, b: Entry)
    ensures Before(DropEntry(entries, p), a, b) <==> Before(entries, a, b) && a.post != p && b.post != p
  {
    if entries != [] {
      var n := |entries| - 1;
      var earlier := DropEntry(entries[..n], p);
      DropKeepsOrder(entries[..n], p, a, b);
      DropEntryExact(entries[..n], p);
      BeforeUnfolds(entries, a, b);
      if entries[n].post == p {
        assert earlier + [] == earlier;
      } else {
        BeforeUnfolds(earlier + [entries[n]], a, b);
        assert (earlier + [entries[n]])[..|earlier|] == earlier;
      }
    }
  }

  lemma DropLeavesOnly(entries: seq<Entry>, p: PostId)
    ensures LeavesOnly(entries, DropEntry(entries, p), p)
  {
    DropEntryExact(entries, p);
    forall a, b
      ensures Before(DropEntry(entries, p), a, b) <==> Before(entries, a, b) && a.post != p && b.post != p
    {
      DropKeepsOrder(entries, p, a, b);
    }
  }

  lemma {:induction false} DropNothing(entries: seq<Entry>, p: PostId)
    requires !HasEntry(entries, p)
    ensures DropEntry(entries, p) == entries
  {
    if entries != [] {
      var n := |entries| - 1;
      HasEntryUnfolds(entries, p);
      DropNothing(entries[..n], p);
      assert entries == entries[..n] + [entries[n]];
    }
  }

  /** A queue of `r` is as in `st` but for the post's entries. */
  ghost predicate QueueLeaves(st: State, r: State, o: QueueId, p: PostId) {
    o in st.queues && o in r.queues && r.queues[o].channel == st.queues[o].channel
    && LeavesOnly(st.queues[o].entries, r.queues[o].entries, p)
  }

  /** The child leaves the schedule with its entry. */
  ghost predicate Drafts(st: State, k: Key) {
    k in st.children && !Protected(st.children[k]) && CanMove(st.children[k].status, Draft)
  }

  /** The post's entries leave every queue of the channel; all other entries stay, in their old
      order, and other channels' queues are untouched. */
  lemma DropFromChannelKeeps(st: State, p: PostId, ch: ChannelId)
    requires Valid(st)
    ensures Valid(DropFromChannel(st, p, ch))
    ensures var r := DropFromChannel(st, p, ch);
      && r == st.(queues := r.queues) && r.queues.Keys == st.queues.Keys
      && forall q :: q in st.queues ==>
        if st.queues[q].channel == ch then QueueLeaves(st, r, q, p) && !HasEntry(r.queues[q].entries, p)
        else r.queues[q] == st.queues[q]
  {
    forall q | q in st.queues
      ensures LeavesOnly(st.queues[q].entries, DropEntry(st.queues[q].entries, p), p)
      ensures UniqueEntries(DropEntry(st.queues[q].entries, p)) && !HasEntry(DropEntry(st.queues[q].entries, p), p)
    {
      DropEntryExact(st.queues[q].entries, p);
      DropLeavesOnly(st.queues[q].entries, p);
    }
  }

  /** The entry goes from its queue, and with a drafted child its entries on the channel; nothing
      else in any queue does. */
  lemma RemoveDropsOnly(st: State, p: PostId, q: QueueId)
    requires Valid(st) && q in st.queues
    ensures var r, ch := Remove(st, p, q), st.queues[q].channel;
      forall o :: o in st.queues ==>
        if o == q || (Drafts(st, (p, ch)) && st.queues[o].channel == ch)
        then QueueLeaves(st, r, o, p) && !HasEntry(r.queues[o].entries, p)
        else o in r.queues && r.queues[o] == st.queues[o]
  {
    var r, ch := Remove(st, p, q), st.queues[q].channel;
    DropFromChannelKeeps(st, p, ch);
    DropEntryExact(st.queues[q].entries, p);
    DropLeavesOnly(st.queues[q].entries, p);
    if Drafts(st, (p, ch)) {
      DropNothing(DropEntry(st.queues[q].entries, p), p);
      assert r.queues == DropFromChannel(st, p, ch).queues;
    }
  }

  /** The entry goes; a child that may return to draft loses its schedule and every entry it
      has on the channel, so its slot is a gap; any other child and any other entry, in whatever
      queue, is untouched and keeps its place; parents stay in step. A draft that was queued has
      no edge back to draft, so it keeps its slot. */
  lemma RemoveLeavesGap(st: State, p: PostId, q: QueueId)
    requires Valid(st) && q in st.queues
    ensures var r, ch := Remove(st, p, q), st.queues[q].channel;
      && r.now == st.now && r.children.Keys == st.children.Keys && r.queues.Keys == st.queues.Keys
      && (forall k :: k in st.children && k != (p, ch) ==> r.children[k] == st.children[k])
      && (Drafts(st, (p, ch)) ==>
            r.children[(p, ch)] == st.children[(p, ch)].(status := Draft, scheduledAt := None))
      && (forall o :: o in st.queues ==>
            if o == q || (Drafts(st, (p, ch)) && st.queues[o].channel == ch)
            then QueueLeaves(st, r, o, p) && !HasEntry(r.queues[o].entries, p)
            else r.queues[o] == st.queues[o])
      && (!Drafts(st, (p, ch)) ==> r.children == st.children)
      && (At(r.children, (p, ch)).None? <==> At(st.children, (p, ch)).None? || Drafts(st, (p, ch)))
    ensures Valid(Remove(st, p, q)) && (InSync(st) ==> InSync(Remove(st, p, q)))
  {
    var ch := st.queues[q].channel;
    var st1 := if Drafts(st, (p, ch)) then ToDraft(st, (p, ch)) else st;
    var r := Remove(st, p, q);
    DropFromChannelKeeps(st, p, ch);
    DropEntryExact(st1.queues[q].entries, p);
    RemoveDropsOnly(st, p, q);
    if InSync(st) {
      SyncRestores(st, r.(parents := st.parents), p);
      assert r.parents == SyncPost(r.(parents := st.parents), p).parents;
      assert InSync(SyncPost(r.(parents := st.parents), p));
      assert r == SyncPost(r.(parents := st.parents), p);
    }
  }
}
