/**
 The queue scheduling service over its mutable tables. Each public method runs under the
 channel lock in one transaction: it takes the tables from one state to the next, or
 puts back what it found and reports a full queue.
 */
module QueueService {
  import opened Common
  import opened Slots
  import opened Ladder
  import opened Store
  import opened QueueOps
  import opened QueueLaws

  class Calendar {
    var now: Instant
    var channels: map<ChannelId, Config>
    var children: map<Key, PlatformPost>
    var parents: map<PostId, Option<Instant>>
    var queues: map<QueueId, Queue>

    /** The tables as one value. */
    function View(): State
      reads this
    {
      State(now, channels, children, parents, queues)
    }

    constructor (st: State)
      ensures View() == st
    {
      now, channels, children, parents, queues := st.now, st.channels, st.children, st.parents, st.queues;
    }

    // ---------------------------------------------------------------- reads

    method OccupiedDatetimes(ch: ChannelId, except: PostId) returns (occupied: set<Instant>)
      ensures occupied == Occupied(View(), ch, except)
    {
      var st := View();
      occupied := set k | k in children && k.1 == ch && k.0 != except && Claims(st, k) :: children[k].scheduledAt.value;
    }

    /** First upcoming slot not already occupied: looks at |occupied| + 1 candidates only. */
    method NextAvailableSlot(ch: ChannelId, except: PostId) returns (slot: Option<Instant>)
      requires ch in channels && ValidConfig(channels[ch])
      ensures slot == FirstFree(HorizonOf(View(), ch), Occupied(View(), ch, except))
    {
      var occupied := OccupiedDatetimes(ch, except);
      var candidates := NextSlotDatetimes(channels[ch], now, |occupied| + 1);
      BoundedLookaheadIsExact(channels[ch], now, occupied);
      var i := 0;
      while i < |candidates|
        invariant 0 <= i <= |candidates|
        invariant FirstFree(candidates, occupied) == FirstFree(candidates[i..], occupied)
      {
        if candidates[i] !in occupied {
          return Some(candidates[i]);
        }
        i := i + 1;
      }
      return None;
    }

    /** The queue's entries the ladder may move, other than the post's own. */
    method MovableEntries(ch: ChannelId, q: QueueId, p: PostId) returns (movable: seq<PostId>)
      requires q in queues
      ensures movable == Movable(View(), ch, queues[q].entries, p)
    {
      var entries := queues[q].entries;
      movable := [];
      var i := 0;
      while i < |entries|
        invariant 0 <= i <= |entries|
        invariant movable == Movable(View(), ch, entries[..i], p)
      {
        assert entries[..i + 1][..i] == entries[..i];
        if entries[i].post != p && Claims(View(), (entries[i].post, ch)) {
          movable := movable + [entries[i].post];
        }
        i := i + 1;
      }
      assert entries[..i] == entries;
    }

    /** Files each movable post under the index of its slot in the candidate window. */
    method MoversInWindow(ch: ChannelId, movable: seq<PostId>, candidates: seq<Instant>) returns (movers: seq<Mover>)
      ensures movers == Movers(View(), ch, movable, candidates)
    {
      movers := [];
      var i := 0;
      while i < |movable|
        invariant 0 <= i <= |movable|
        invariant movers == Movers(View(), ch, movable[..i], candidates)
      {
        var k := (movable[i], ch);
        assert movable[..i + 1][..i] == movable[..i];
        if Claims(View(), k) && children[k].scheduledAt.value in candidates {
          movers := movers + [Mover(IndexOf(candidates, children[k].scheduledAt.value), movable[i])];
        }
        i := i + 1;
      }
      assert movable[..i] == movable;
    }

    /** Searches upward for an open candidate, fetching more candidates as it runs out;
        `found` is false when the horizon ends first. */
    method NextOpenCandidate(ch: ChannelId, fetched: seq<Instant>, avoid: set<Instant>, taken: set<nat>, start: nat)
      returns (candidates: seq<Instant>, j: nat, found: bool)
      requires ch in channels && fetched <= HorizonOf(View(), ch)
      ensures candidates <= HorizonOf(View(), ch)
      ensures found ==> j < |candidates| && NextOpen(HorizonOf(View(), ch), avoid, taken, start) == Some(j)
      ensures !found ==> NextOpen(HorizonOf(View(), ch), avoid, taken, start) == None
    {
      ghost var h := HorizonOf(View(), ch);
      candidates := fetched;
      j := start;
      found := false;
      while true
        invariant candidates <= h && !found
        invariant NextOpen(h, avoid, taken, j) == NextOpen(h, avoid, taken, start)
        decreases |h| - j
      {
        if j >= |candidates| {
          candidates := NextSlotDatetimes(channels[ch], now, j + 2);
          if j >= |candidates| {
            return;
          }
        }
        if j !in taken && candidates[j] !in avoid {
          found := true;
          return;
        }
        j := j + 1;
      }
    }

    // ---------------------------------------------------------------- elementary writes

    method SyncPostScheduledAt(p: PostId)
      modifies this`parents
      ensures View() == SyncPost(old(View()), p)
    {
      parents := parents[p := MinSchedule(children, p)];
    }

    method EnsureQueueEntry(p: PostId, q: QueueId)
      requires q in queues
      modifies this`queues
      ensures View() == EnsureEntry(old(View()), q, p)
    {
      var entries := queues[q].entries;
      if !HasEntry(entries, p) {
        var position := MaxPosition(entries) + 1;
        queues := queues[q := queues[q].(entries := entries + [Entry(p, position, None)])];
      }
    }

    method AssignSlot(p: PostId, q: QueueId, slot: Instant)
      requires q in queues
      modifies this`queues, this`children, this`parents
      ensures View() == WriteSlot(old(View()), q, p, slot)
    {
      var k := (p, queues[q].channel);
      queues := queues[q := queues[q].(entries := SetAssigned(queues[q].entries, p, slot))];
      if k in children {
        children := children[k := children[k].(scheduledAt := Some(slot))];
        SyncPostScheduledAt(p);
      }
    }

    // ---------------------------------------------------------------- operations

    method AddPostNextAvailable(p: PostId, q: QueueId) returns (outcome: Outcome)
      requires Valid(View()) && q in queues
      modifies this`queues, this`children, this`parents
      ensures (View(), outcome) == AddNextAvailable(old(View()), p, q)
    {
      var ch := queues[q].channel;
      if (p, ch) in children && Protected(children[(p, ch)]) {
        return Done;
      }
      var slot := NextAvailableSlot(ch, p);
      if slot.None? {
        return QueueFull;
      }
      EnsureQueueEntry(p, q);
      AssignSlot(p, q, slot.value);
      return Done;
    }

    /** Climbs the movers, highest first, writing each to its new slot. On failure the
        tables hold a partial climb, for the caller to roll back. */
    method ClimbLadder(p: PostId, q: QueueId, window: seq<Instant>, movers: seq<Mover>, avoid: set<Instant>)
      returns (climbed: bool)
      requires q in queues && queues[q].channel in channels
      requires window <= HorizonOf(View(), queues[q].channel)
      modifies this`queues, this`children, this`parents
      ensures var h, st := old(HorizonOf(View(), queues[q].channel)), old(View());
        var dest := Climb(h, avoid, {0}, Indices(movers));
        climbed == dest.Some?
        && (climbed ==> |dest.value| == |movers| && InRange(h, dest.value)
                        && View() == WriteSlots(st, q, Posts(movers), Instants(h, dest.value)))
    {
      ghost var st := View();
      var ch := queues[q].channel;
      ghost var h := HorizonOf(st, ch);
      var candidates := window;
      var taken: set<nat> := {0};
      ghost var dest: seq<nat> := [];
      var m := 0;
      ClimbStarts(h, avoid, Indices(movers));
      while m < |movers|
        invariant 0 <= m <= |movers| && candidates <= h
        invariant now == st.now && channels == st.channels
        invariant Climbing(st, View(), q, h, avoid, movers, m, taken, dest)
      {
        var j, found;
        candidates, j, found := NextOpenCandidate(ch, candidates, avoid, taken, movers[m].index + 1);
        if !found {
          ClimbStep(h, avoid, Indices(movers), m, taken, dest);
          return false;
        }
        ClimbOneMore(st, View(), q, h, avoid, movers, m, taken, dest, j);
        AssignSlot(movers[m].post, q, candidates[j]);
        taken := taken + {j};
        dest := dest + [j];
        m := m + 1;
      }
      assert Posts(movers)[..m] == Posts(movers);
      ClimbEnds(h, avoid, Indices(movers), taken, dest);
      return true;
    }

    /** The branch with a ladder: once every mover has climbed, the post takes the front slot.
        Returns false, the tables holding a partial climb, when some mover finds no slot. */
    method LadderThenFront(p: PostId, q: QueueId, window: seq<Instant>, movers: seq<Mover>, avoid: set<Instant>)
      returns (placed: bool)
      requires q in queues && queues[q].channel in channels
      requires window != [] && window <= HorizonOf(View(), queues[q].channel)
      modifies this`queues, this`children, this`parents
      ensures var h, st := old(HorizonOf(View(), queues[q].channel)), old(View());
        var dest := Climb(h, avoid, {0}, Indices(movers));
        placed == dest.Some?
        && (placed ==> |dest.value| == |movers| && InRange(h, dest.value)
                       && View() == WriteSlot(WriteSlots(st, q, Posts(movers), Instants(h, dest.value)), q, p, h[0]))
    {
      placed := ClimbLadder(p, q, window, movers, avoid);
      if placed {
        AssignSlot(p, q, window[0]);
      }
    }

    /** The branch without a ladder: the front slot, or the first gap when a foreign post
        holds it. Returns false, having written nothing, when there is no gap. */
    method TakeFrontOrGap(p: PostId, q: QueueId, target: Instant, occupied: set<Instant>) returns (placed: bool)
      requires Valid(View()) && q in queues && occupied == Occupied(View(), queues[q].channel, p)
      modifies this`queues, this`children, this`parents
      ensures var h := old(HorizonOf(View(), queues[q].channel));
        var slot := if target !in occupied then Some(target) else FirstFree(h, occupied);
        placed == slot.Some?
        && View() == if placed then WriteSlot(old(View()), q, p, slot.value) else old(View())
    {
      var slot := Some(target);
      if target in occupied {
        slot := NextAvailableSlot(queues[q].channel, p);
        if slot.None? {
          return false;
        }
      }
      AssignSlot(p, q, slot.value);
      return true;
    }

    /** Reads what the ladder needs: who may move, the candidate window, and the movers in it,
        highest first. */
    method SurveyQueue(p: PostId, q: QueueId)
        returns (movable: seq<PostId>, candidates: seq<Instant>, movers: seq<Mover>)
      requires Valid(View()) && q in queues
      ensures movable == Movable(View(), queues[q].channel, queues[q].entries, p)
      ensures candidates == Prefix(HorizonOf(View(), queues[q].channel), |movable| + 2)
      ensures movers == LadderMovers(View(), p, q)
    {
      movable := MovableEntries(queues[q].channel, q, p);
      candidates := NextSlotDatetimes(channels[queues[q].channel], now, |movable| + 2);
      movers := MoversInWindow(queues[q].channel, movable, candidates);
      movers := SortDescending(movers);
    }

    /** Adds the entry and takes one of the two branches. Returns false when no slot was
        found; the tables are then for the caller to roll back. */
    method PlaceInFront(p: PostId, q: QueueId, movable: seq<PostId>, candidates: seq<Instant>, movers: seq<Mover>)
      returns (placed: bool)
      requires Valid(View()) && q in queues && candidates != []
      requires movable == Movable(View(), queues[q].channel, queues[q].entries, p)
      requires candidates == Prefix(HorizonOf(View(), queues[q].channel), |movable| + 2)
      requires movers == LadderMovers(View(), p, q)
      modifies this`queues, this`children, this`parents
      ensures placed == (Prioritize(old(View()), p, q).1 == Done)
      ensures placed ==> View() == Prioritize(old(View()), p, q).0
    {
      var ch := queues[q].channel;
      var occupied := OccupiedDatetimes(ch, p);
      var held, avoid := Held(View(), ch, movable), occupied - Held(View(), ch, Posts(movers));
      EntryChangesNoClaim(View(), p, q);
      EnsureQueueEntry(p, q);
      if candidates[0] !in held {
        placed := TakeFrontOrGap(p, q, candidates[0], occupied);
      } else {
        placed := LadderThenFront(p, q, candidates, movers, avoid);
      }
    }

    method PrioritizePost(p: PostId, q: QueueId) returns (outcome: Outcome)
      requires Valid(View()) && q in queues
      modifies this`queues, this`children, this`parents
      ensures (View(), outcome) == Prioritize(old(View()), p, q)
    {
      var queuesBefore, childrenBefore, parentsBefore := queues, children, parents;
      var movable, candidates, movers := SurveyQueue(p, q);
      if |candidates| == 0 {
        return QueueFull;
      }
      ghost var st := View();
      var placed := PlaceInFront(p, q, movable, candidates, movers);
      if !placed {
        queues, children, parents := queuesBefore, childrenBefore, parentsBefore;
        FullChangesNothing(st, p, q);
        return QueueFull;
      }
      return Done;
    }

    method RemoveFromQueue(p: PostId, q: QueueId)
      requires q in queues
      modifies this`queues, this`children, this`parents
      ensures View() == Remove(old(View()), p, q)
    {
      var k := (p, queues[q].channel);
      if k in children && !Protected(children[k]) && CanMove(children[k].status, Draft) {
        children := children[k := children[k].(status := Draft, scheduledAt := None)];
        queues := DropFromChannel(View(), p, k.1).queues;
        SyncPostScheduledAt(p);
      }
      queues := queues[q := queues[q].(entries := DropEntry(queues[q].entries, p))];
      SyncPostScheduledAt(p);
    }

    /** The named entries that exist and are not protected, in the order given. */
    method CollectReorderable(q: QueueId, ids: seq<PostId>) returns (ordered: seq<PostId>)
      requires q in queues
      ensures ordered == Reorderable(View(), q, ids)
    {
      var ch := queues[q].channel;
      ordered := [];
      var i := 0;
      while i < |ids|
        invariant 0 <= i <= |ids|
        invariant ordered == Reorderable(View(), q, ids[..i])
      {
        assert ids[..i + 1][..i] == ids[..i];
        if HasEntry(queues[q].entries, ids[i]) && !((ids[i], ch) in children && Protected(children[(ids[i], ch)])) {
          ordered := ordered + [ids[i]];
        }
        i := i + 1;
      }
      assert ids[..i] == ids;
    }

    /** Those that hold an instant. */
    method CollectSlotted(ch: ChannelId, ordered: seq<PostId>) returns (slotted: seq<PostId>)
      ensures slotted == Slotted(View(), ch, ordered)
    {
      slotted := [];
      var i := 0;
      while i < |ordered|
        invariant 0 <= i <= |ordered|
        invariant slotted == Slotted(View(), ch, ordered[..i])
      {
        assert ordered[..i + 1][..i] == ordered[..i];
        if At(children, (ordered[i], ch)).Some? {
          slotted := slotted + [ordered[i]];
        }
        i := i + 1;
      }
      assert ordered[..i] == ordered;
    }

    method AssignSlots(q: QueueId, posts: seq<PostId>, slots: seq<Instant>)
      requires q in queues && |posts| == |slots|
      modifies this`queues, this`children, this`parents
      ensures View() == WriteSlots(old(View()), q, posts, slots)
    {
      ghost var st := View();
      var i := 0;
      while i < |posts|
        invariant 0 <= i <= |posts| && q in queues
        invariant View() == WriteSlots(st, q, posts[..i], slots[..i])
      {
        AssignSlot(posts[i], q, slots[i]);
        assert posts[..i + 1][..i] == posts[..i] && slots[..i + 1][..i] == slots[..i];
        i := i + 1;
      }
      assert posts[..i] == posts && slots[..i] == slots;
    }

    /** Numbers the entries in the given order, where their position as read differs. */
    method Renumber(q: QueueId, read: seq<Entry>, ordered: seq<PostId>)
      requires q in queues && |queues[q].entries| == |read|
      modifies this`queues
      ensures View() == WithEntries(old(View()), q, SetPositions(old(queues[q].entries), read, ordered))
    {
      var entries := queues[q].entries;
      var numbered := entries;
      var i := 0;
      while i < |ordered|
        invariant 0 <= i <= |ordered| && |numbered| == |read|
        invariant numbered == SetPositions(entries, read, ordered[..i])
      {
        assert ordered[..i + 1][..i] == ordered[..i];
        numbered := SetPosition(numbered, read, ordered[i], i);
        i := i + 1;
      }
      assert ordered[..i] == ordered;
      queues := queues[q := queues[q].(entries := numbered)];
    }

    /** Hands the named entries' own instants, ascending, to them in the given order. */
    method ReorderQueue(q: QueueId, ids: seq<PostId>)
      requires q in queues
      modifies this`queues, this`children, this`parents
      ensures View() == Reorder(old(View()), q, ids)
    {
      var read := queues[q].entries;
      var ordered := CollectReorderable(q, ids);
      var slotted := CollectSlotted(queues[q].channel, ordered);
      var slots := SortInstants(Schedules(View(), queues[q].channel, slotted));
      WriteSlotsShow(View(), q, slotted, slots);
      AssignSlots(q, slotted, slots);
      Renumber(q, read, ordered);
    }
  }

  // ------------------------------------------------------------------ proof glue

  lemma EntryChangesNoClaim(st: State, p: PostId, q: QueueId)
    requires Valid(st) && q in st.queues
    ensures var r: State := EnsureEntry(st, q, p);
      Valid(r) && Occupied(r, r.queues[q].channel, p) == Occupied(st, st.queues[q].channel, p)
  {
    EnsureEntryAppends(st, q, p);
    assert forall k :: Claims(st, k) <==> Claims(EnsureEntry(st, q, p), k);
  }

  lemma FullChangesNothing(st: State, p: PostId, q: QueueId)
    requires Valid(st) && QueueOf(st, q) && Prioritize(st, p, q).1 == QueueFull
    ensures Prioritize(st, p, q) == (st, QueueFull)
  {
    PrioritizeFailsIff(st, p, q);
  }

  lemma WriteOneMore(st: State, q: QueueId, h: seq<Instant>, posts: seq<PostId>, dest: seq<nat>, j: nat)
    requires q in st.queues && |dest| < |posts| && InRange(h, dest) && j < |h|
    ensures InRange(h, dest + [j])
    ensures WriteSlots(st, q, posts[..|dest| + 1], Instants(h, dest + [j]))
         == WriteSlot(WriteSlots(st, q, posts[..|dest|], Instants(h, dest)), q, posts[|dest|], h[j])
  {
    var m := |dest|;
    assert posts[..m + 1][..m] == posts[..m];
    assert Instants(h, dest + [j])[..m] == Instants(h, dest);
  }

  /** After `m` movers the rest of the climb, resumed, gives the whole climb. */
  ghost predicate ClimbResumes(h: seq<Instant>, avoid: set<Instant>, idxs: seq<nat>, m: nat, taken: set<nat>,
                               dest: seq<nat>)
    requires m <= |idxs|
  {
    var rest := Climb(h, avoid, taken, idxs[m..]);
    Climb(h, avoid, {0}, idxs) == if rest.None? then None else Some(dest + rest.value)
  }

  /** The tables `cur` hold the first `m` movers on their new slots `dest`. */
  ghost predicate Climbing(st: State, cur: State, q: QueueId, h: seq<Instant>, avoid: set<Instant>,
                           movers: seq<Mover>, m: nat, taken: set<nat>, dest: seq<nat>)
  {
    && q in st.queues && q in cur.queues && m <= |movers| && |dest| == m && InRange(h, dest)
    && ClimbResumes(h, avoid, Indices(movers), m, taken, dest)
    && cur == WriteSlots(st, q, Posts(movers)[..m], Instants(h, dest))
  }

  lemma ClimbOneMore(st: State, cur: State, q: QueueId, h: seq<Instant>, avoid: set<Instant>,
                     movers: seq<Mover>, m: nat, taken: set<nat>, dest: seq<nat>, j: nat)
    requires m < |movers| && Climbing(st, cur, q, h, avoid, movers, m, taken, dest)
    requires j < |h| && NextOpen(h, avoid, taken, movers[m].index + 1) == Some(j)
    ensures Climbing(st, WriteSlot(cur, q, movers[m].post, h[j]), q, h, avoid, movers, m + 1, taken + {j}, dest + [j])
  {
    ClimbStep(h, avoid, Indices(movers), m, taken, dest);
    WriteOneMore(st, q, h, Posts(movers), dest, j);
  }

  lemma ClimbStarts(h: seq<Instant>, avoid: set<Instant>, idxs: seq<nat>)
    ensures ClimbResumes(h, avoid, idxs, 0, {0}, [])
  {
    assert idxs[0..] == idxs;
    var rest := Climb(h, avoid, {0}, idxs);
    if rest.Some? { assert [] + rest.value == rest.value; }
  }

  lemma ClimbEnds(h: seq<Instant>, avoid: set<Instant>, idxs: seq<nat>, taken: set<nat>, dest: seq<nat>)
    requires ClimbResumes(h, avoid, idxs, |idxs|, taken, dest)
    ensures Climb(h, avoid, {0}, idxs) == Some(dest)
  {
    assert idxs[|idxs|..] == [];
    assert dest + [] == dest;
  }

  lemma ClimbStep(h: seq<Instant>, avoid: set<Instant>, idxs: seq<nat>, m: nat, taken: set<nat>, dest: seq<nat>)
    requires m < |idxs| && ClimbResumes(h, avoid, idxs, m, taken, dest)
    ensures var next := NextOpen(h, avoid, taken, idxs[m] + 1);
      if next.None? then Climb(h, avoid, {0}, idxs).None?
      else ClimbResumes(h, avoid, idxs, m + 1, taken + {next.value}, dest + [next.value])
  {
    var next := NextOpen(h, avoid, taken, idxs[m] + 1);
    assert idxs[m..][1..] == idxs[m + 1..];
    if next.Some? {
      var rest := Climb(h, avoid, taken + {next.value}, idxs[m + 1..]);
      if rest.Some? { assert dest + ([next.value] + rest.value) == (dest + [next.value]) + rest.value; }
    }
  }
}
