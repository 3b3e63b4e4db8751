/**
 What each queue operation does to the tables, as a function of the state, and what
 those functions mean: which slot is found, who moves where, when the queue is full.
 */
module QueueOps {
  import opened Common
  import opened Slots
  import opened Ladder
  import opened Store

  datatype Outcome = Done | QueueFull

  ghost predicate QueueOf(st: State, q: QueueId) { q in st.queues && st.queues[q].channel in st.channels }

  /** The whole lookahead of a channel from the present clock. */
  function HorizonOf(st: State, ch: ChannelId): seq<Instant>
    requires ch in st.channels
  {
    Horizon(st.channels[ch], st.now)
  }

  // ------------------------------------------------------------------ add · next available

  function AddNextAvailable(st: State, p: PostId, q: QueueId): (State, Outcome)
    requires QueueOf(st, q)
  {
    var ch := st.queues[q].channel;
    if (p, ch) in st.children && Protected(st.children[(p, ch)]) then (st, Done)
    else
      var free := FirstFree(HorizonOf(st, ch), Occupied(st, ch, p));
      if free.None? then (st, QueueFull)
      else (WriteSlot(EnsureEntry(st, q, p), q, p, free.value), Done)
  }

  // ------------------------------------------------------------------ prioritize

  /** Posts of the entries the ladder may move, in table order. */
  function Movable(st: State, ch: ChannelId, entries: seq<Entry>, except: PostId): seq<PostId> {
    if entries == [] then []
    else
      var n := |entries| - 1;
      Movable(st, ch, entries[..n], except)
      + if entries[n].post != except && Claims(st, (entries[n].post, ch)) then [entries[n].post] else []
  }

  /** The instants the given posts hold. */
  function Held(st: State, ch: ChannelId, posts: seq<PostId>): set<Instant> {
    set p | p in posts && Claims(st, (p, ch)) :: st.children[(p, ch)].scheduledAt.value
  }

  function IndexOf(s: seq<Instant>, x: Instant): (i: nat)
    requires x in s
    ensures i < |s| && s[i] == x
  {
    if s[0] == x then 0 else IndexOf(s[1..], x) + 1
  }

  /** The movable posts whose slot lies inside the candidate window. */
  function Movers(st: State, ch: ChannelId, movable: seq<PostId>, window: seq<Instant>): seq<Mover> {
    if movable == [] then []
    else
      var n := |movable| - 1;
      var k := (movable[n], ch);
      Movers(st, ch, movable[..n], window)
      + if Claims(st, k) && st.children[k].scheduledAt.value in window
        then [Mover(IndexOf(window, st.children[k].scheduledAt.value), movable[n])] else []
  }

  function Posts(movers: seq<Mover>): (r: seq<PostId>)
    ensures |r| == |movers| && forall i :: 0 <= i < |r| ==> r[i] == movers[i].post
  {
    seq(|movers|, i requires 0 <= i < |movers| => movers[i].post)
  }

  ghost predicate InRange(h: seq<Instant>, dest: seq<nat>) {
    forall i :: 0 <= i < |dest| ==> dest[i] < |h|
  }

  function Instants(h: seq<Instant>, dest: seq<nat>): (r: seq<Instant>)
    requires InRange(h, dest)
    ensures |r| == |dest| && forall i :: 0 <= i < |r| ==> r[i] == h[dest[i]]
  {
    seq(|dest|, i requires 0 <= i < |dest| => h[dest[i]])
  }

  /** The in-window movers, highest slot first. */
  function LadderMovers(st: State, p: PostId, q: QueueId): seq<Mover>
    requires QueueOf(st, q)
  {
    var ch := st.queues[q].channel;
    var movable := Movable(st, ch, st.queues[q].entries, p);
    SortDescending(Movers(st, ch, movable, Prefix(HorizonOf(st, ch), |movable| + 2)))
  }

  /** Instants the ladder must leave alone: claimed on the channel, and not by a mover. */
  function Avoided(st: State, p: PostId, q: QueueId): set<Instant>
    requires QueueOf(st, q)
  {
    var ch := st.queues[q].channel;
    Occupied(st, ch, p) - Held(st, ch, Posts(LadderMovers(st, p, q)))
  }

  function Prioritize(st: State, p: PostId, q: QueueId): (State, Outcome)
    requires QueueOf(st, q)
  {
    var ch := st.queues[q].channel;
    var h := HorizonOf(st, ch);
    if h == [] then (st, QueueFull)
    else
      var st1 := EnsureEntry(st, q, p);
      if h[0] !in Held(st, ch, Movable(st, ch, st.queues[q].entries, p)) then
        if h[0] !in Occupied(st, ch, p) then (WriteSlot(st1, q, p, h[0]), Done)
        else
          var free := FirstFree(h, Occupied(st, ch, p));
          if free.None? then (st, QueueFull) else (WriteSlot(st1, q, p, free.value), Done)
      else
        var movers := LadderMovers(st, p, q);
        var dest := Climb(h, Avoided(st, p, q), {0}, Indices(movers));
        if dest.None? then (st, QueueFull)
        else
          ClimbIsSafe(h, Avoided(st, p, q), {0}, Indices(movers));
          (WriteSlot(WriteSlots(st1, q, Posts(movers), Instants(h, dest.value)), q, p, h[0]), Done)
  }

  // ------------------------------------------------------------------ remove

  function DropEntry(entries: seq<Entry>, p: PostId): seq<Entry> {
    if entries == [] then []
    else
      var n := |entries| - 1;
      DropEntry(entries[..n], p) + if entries[n].post == p then [] else [entries[n]]
  }

  /** Drops the post's entries from every queue of one channel. */
  function DropFromChannel(st: State, p: PostId, ch: ChannelId): State {
    st.(queues := map q | q in st.queues ::
          if st.queues[q].channel == ch then st.queues[q].(entries := DropEntry(st.queues[q].entries, p))
          else st.queues[q])
  }

  /** Back to draft: no schedule, no queue entry on the channel, parent re-synchronised. */
  function ToDraft(st: State, k: Key): State
    requires k in st.children
  {
    var pp := st.children[k];
    var st1 := st.(children := st.children[k := pp.(status := Draft, scheduledAt := None)]);
    SyncPost(DropFromChannel(st1, k.0, k.1), k.0)
  }

  function Remove(st: State, p: PostId, q: QueueId): State
    requires q in st.queues
  {
    var k := (p, st.queues[q].channel);
    var st1 :=
      if k in st.children && !Protected(st.children[k]) && CanMove(st.children[k].status, Draft) then ToDraft(st, k)
      else st;
    SyncPost(WithEntries(st1, q, DropEntry(st1.queues[q].entries, p)), p)
  }

  // ------------------------------------------------------------------ reorder

  /** The named entries that exist and are not protected, in the order given. */
  function Reorderable(st: State, q: QueueId, ids: seq<PostId>): seq<PostId>
    requires q in st.queues
  {
    if ids == [] then []
    else
      var n := |ids| - 1;
      var k := (ids[n], st.queues[q].channel);
      Reorderable(st, q, ids[..n])
      + if HasEntry(st.queues[q].entries, ids[n]) && !(k in st.children && Protected(st.children[k]))
        then [ids[n]] else []
  }

  /** Those among them that hold an instant. */
  function Slotted(st: State, ch: ChannelId, posts: seq<PostId>): seq<PostId> {
    if posts == [] then []
    else
      var n := |posts| - 1;
      Slotted(st, ch, posts[..n]) + if At(st.children, (posts[n], ch)).Some? then [posts[n]] else []
  }

  function ScheduleOr(st: State, k: Key, d: Instant): Instant {
    if At(st.children, k).Some? then At(st.children, k).value else d
  }

  function Schedules(st: State, ch: ChannelId, posts: seq<PostId>): (r: seq<Instant>)
    ensures |r| == |posts| && forall i :: 0 <= i < |r| ==> r[i] == ScheduleOr(st, (posts[i], ch), st.now)
  {
    seq(|posts|, i requires 0 <= i < |posts| => ScheduleOr(st, (posts[i], ch), st.now))
  }

  function Earliest(t: Instant): int { t }

  function SortInstants(s: seq<Instant>): (r: seq<Instant>)
    ensures |r| == |s|
  {
    SortSorts(Earliest, s);
    Sort(Earliest, s)
  }

  /** An entry takes position `i` unless it already had it when the entries were read. */
  function SetPosition(entries: seq<Entry>, read: seq<Entry>, p: PostId, i: nat): (r: seq<Entry>)
    requires |entries| == |read|
    ensures |r| == |entries|
    ensures forall j :: 0 <= j < |r| ==> r[j].post == entries[j].post
  {
    seq(|entries|, j requires 0 <= j < |entries| =>
      if entries[j].post == p && read[j].position != i then entries[j].(position := i) else entries[j])
  }

  function SetPositions(entries: seq<Entry>, read: seq<Entry>, posts: seq<PostId>): (r: seq<Entry>)
    requires |entries| == |read|
    ensures |r| == |entries|
    ensures forall j :: 0 <= j < |r| ==> r[j].post == entries[j].post
  {
    if posts == [] then entries
    else
      var n := |posts| - 1;
      SetPosition(SetPositions(entries, read, posts[..n]), read, posts[n], n)
  }

  function Reorder(st: State, q: QueueId, ids: seq<PostId>): State
    requires q in st.queues
  {
    var ch := st.queues[q].channel;
    var ordered := Reorderable(st, q, ids);
    var slotted := Slotted(st, ch, ordered);
    var r := WriteSlots(st, q, slotted, SortInstants(Schedules(st, ch, slotted)));
    WriteSlotsShow(st, q, slotted, SortInstants(Schedules(st, ch, slotted)));
    WithEntries(r, q, SetPositions(r.queues[q].entries, st.queues[q].entries, ordered))
  }
}
