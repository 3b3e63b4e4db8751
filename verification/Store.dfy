/**
 The scheduling tables: posts' per-channel children, parent schedules, queues and
 their entries, and the elementary writes every queue operation is made of.
 */
module Store {
  import opened Common
  import opened Slots

  type PostId = int
  type ChannelId = int
  type QueueId = int

  datatype Status =
    | Draft | PendingReview | PendingClient | Approved | ChangesRequested | Rejected
    | Scheduled | Publishing | Published | Failed | OnHold

  /** One post's variant on one channel. */
  datatype PlatformPost = PlatformPost(status: Status, scheduledAt: Option<Instant>, publishedAt: Option<Instant>)

  /** A post's row in a queue; a queue holds a post at most once. */
  datatype Entry = Entry(post: PostId, position: nat, slotAt: Option<Instant>)

  /** A queue of one channel; `entries` are in the order the table returns them. */
  datatype Queue = Queue(channel: ChannelId, entries: seq<Entry>)

  /** A post has at most one child per channel, so the pair is the child's key. */
  type Key = (PostId, ChannelId)

  datatype State = State(
    now: Instant,
    channels: map<ChannelId, Config>,
    children: map<Key, PlatformPost>,
    parents: map<PostId, Option<Instant>>,
    queues: map<QueueId, Queue>)

  /** The workflow: the legal moves of a child. */
  predicate CanMove(a: Status, b: Status) {
    match a
    case Draft => b == PendingReview || b == Scheduled || b == Publishing
    case PendingReview => b == Approved || b == ChangesRequested || b == Rejected
    case Approved =>
      b == PendingClient || b == Scheduled || b == Publishing || b == Draft || b == OnHold || b == PendingReview
    case PendingClient => b == Approved || b == ChangesRequested || b == Rejected
    case ChangesRequested => b == PendingReview || b == Draft
    case Rejected => b == Draft || b == PendingReview
    case Scheduled => b == Publishing || b == Draft
    case Publishing => b == Published || b == Failed || b == Scheduled
    case Failed => b == Publishing || b == Draft || b == Scheduled
    case OnHold => b == Approved || b == Draft || b == ChangesRequested
    case Published => false
  }

  /** Where the workflow lets a child go back to draft: anywhere but in review, at the publisher or
      when it is a draft already. A protected child never may. */
  lemma MayReturnToDraft(s: Status)
    ensures CanMove(s, Draft)
      <==> s in {Approved, ChangesRequested, Rejected, Scheduled, Failed, OnHold}
  {}

  predicate Protected(pp: PlatformPost) { pp.status == Published || pp.status == Publishing }

  /** The schedule of a child; None when it has none or does not exist. */
  function At(children: map<Key, PlatformPost>, k: Key): Option<Instant> {
    if k in children then children[k].scheduledAt else None
  }

  predicate HasEntry(entries: seq<Entry>, p: PostId) {
    exists i :: 0 <= i < |entries| && entries[i].post == p
  }

  ghost predicate UniqueEntries(entries: seq<Entry>) {
    forall i, j :: 0 <= i < j < |entries| ==> entries[i].post != entries[j].post
  }

  /** What the schema and the zone data guarantee. */
  ghost predicate Valid(st: State) {
    && (forall q :: q in st.queues ==> UniqueEntries(st.queues[q].entries) && st.queues[q].channel in st.channels)
    && (forall ch :: ch in st.channels ==> ValidConfig(st.channels[ch]))
  }

  // ------------------------------------------------------------------ occupancy

  /** The child claims a future instant of its channel. */
  predicate Claims(st: State, k: Key) {
    k in st.children && !Protected(st.children[k])
    && st.children[k].scheduledAt.Some? && st.children[k].scheduledAt.value > st.now
  }

  /** Future instants already claimed on a channel, leaving one post's own child out. */
  function Occupied(st: State, ch: ChannelId, except: PostId): set<Instant> {
    set k | k in st.children && k.1 == ch && k.0 != except && Claims(st, k) :: st.children[k].scheduledAt.value
  }

  /** No two children of a channel claim the same future instant. */
  ghost predicate NoDoubleBooking(st: State) {
    forall a, b :: Claims(st, a) && Claims(st, b) && a.1 == b.1 && At(st.children, a) == At(st.children, b) ==> a == b
  }

  // ------------------------------------------------------------------ parent schedule

  function Times(children: map<Key, PlatformPost>, p: PostId): set<Instant> {
    set k | k in children && k.0 == p && children[k].scheduledAt.Some? :: children[k].scheduledAt.value
  }

  /** The earliest schedule among a post's children, over all channels. */
  function MinSchedule(children: map<Key, PlatformPost>, p: PostId): Option<Instant> {
    if Times(children, p) == {} then None else Some(Least(Times(children, p)))
  }

  function Parent(st: State, p: PostId): Option<Instant> {
    if p in st.parents then st.parents[p] else None
  }

  /** Every parent schedule is the minimum of its children's. */
  ghost predicate InSync(st: State) {
    forall p :: Parent(st, p) == MinSchedule(st.children, p)
  }

  function SyncPost(st: State, p: PostId): State {
    st.(parents := st.parents[p := MinSchedule(st.children, p)])
  }

  // ------------------------------------------------------------------ elementary writes

  function SetAssigned(entries: seq<Entry>, p: PostId, t: Instant): (r: seq<Entry>)
    ensures |r| == |entries|
    ensures forall i :: 0 <= i < |r| ==> r[i].post == entries[i].post && r[i].position == entries[i].position
  {
    seq(|entries|, i requires 0 <= i < |entries| =>
      if entries[i].post == p then entries[i].(slotAt := Some(t)) else entries[i])
  }

  function WithEntries(st: State, q: QueueId, entries: seq<Entry>): State
    requires q in st.queues
  {
    st.(queues := st.queues[q := st.queues[q].(entries := entries)])
  }

  /** Assigns one slot to a queue entry and to its child, if the post has one here. */
  function WriteSlot(st: State, q: QueueId, p: PostId, t: Instant): (r: State)
    requires q in st.queues
    ensures q in r.queues && r.queues[q].channel == st.queues[q].channel
  {
    var k := (p, st.queues[q].channel);
    var st1 := WithEntries(st, q, SetAssigned(st.queues[q].entries, p, t));
    if k in st1.children then
      SyncPost(st1.(children := st1.children[k := st1.children[k].(scheduledAt := Some(t))]), p)
    else st1
  }

  function MaxPosition(entries: seq<Entry>): nat {
    if entries == [] then 0
    else
      var n := |entries| - 1;
      var m := MaxPosition(entries[..n]);
      if m < entries[n].position then entries[n].position else m
  }

  /** The queue with the post's entry, appended after every other when it is new. */
  function EnsureEntry(st: State, q: QueueId, p: PostId): (r: State)
    requires q in st.queues
    ensures q in r.queues && r.queues[q].channel == st.queues[q].channel
  {
    var entries := st.queues[q].entries;
    if HasEntry(entries, p) then st
    else WithEntries(st, q, entries + [Entry(p, MaxPosition(entries) + 1, None)])
  }

  /** Successive slot assignments, in order. */
  function WriteSlots(st: State, q: QueueId, posts: seq<PostId>, times: seq<Instant>): (r: State)
    requires q in st.queues && |posts| == |times|
    ensures q in r.queues && r.queues[q].channel == st.queues[q].channel
  {
    if posts == [] then st
    else
      var n := |posts| - 1;
      WriteSlot(WriteSlots(st, q, posts[..n], times[..n]), q, posts[n], times[n])
  }

  // ------------------------------------------------------------------ what the writes keep

  /** The new state differs from the old one in schedules of channel `ch` only. */
  ghost predicate SameButSchedules(st: State, r: State, ch: ChannelId) {
    && r.now == st.now && r.channels == st.channels
    && r.children.Keys == st.children.Keys
    && (forall k :: k in st.children ==> r.children[k] == st.children[k].(scheduledAt := r.children[k].scheduledAt))
    && (forall k :: k in st.children && k.1 != ch ==> r.children[k] == st.children[k])
  }

  lemma MinScheduleFrame(a: map<Key, PlatformPost>, b: map<Key, PlatformPost>, p: PostId)
    requires forall c :: At(a, (p, c)) == At(b, (p, c))
    ensures MinSchedule(a, p) == MinSchedule(b, p)
  {
    TimesFrame(a, b, p);
    TimesFrame(b, a, p);
    assert Times(a, p) == Times(b, p);
  }

  lemma TimesFrame(a: map<Key, PlatformPost>, b: map<Key, PlatformPost>, p: PostId)
    requires forall c :: At(a, (p, c)) == At(b, (p, c))
    ensures Times(a, p) <= Times(b, p)
  {
    forall x | x in Times(a, p) ensures x in Times(b, p) {
      var k :| k in a && k.0 == p && a[k].scheduledAt == Some(x);
      var (_, c) := k;
      assert At(a, (p, c)) == Some(x);
      assert (p, c) in b && b[(p, c)].scheduledAt == Some(x);
    }
  }

  /** Re-synchronising the one post whose children changed restores every parent. */
  lemma SyncRestores(st: State, r: State, p: PostId)
    requires InSync(st) && r.parents == st.parents
    requires forall k: Key :: k.0 != p ==> At(r.children, k) == At(st.children, k)
    ensures InSync(SyncPost(r, p))
  {
    var s := SyncPost(r, p);
    forall x ensures Parent(s, x) == MinSchedule(s.children, x) {
      if x != p {
        assert Parent(st, x) == MinSchedule(st.children, x);
        MinScheduleFrame(st.children, s.children, x);
      }
    }
  }

  /** Row by row the same posts in the same positions. */
  ghost predicate SamePosts(a: seq<Entry>, b: seq<Entry>) {
    |a| == |b| && forall i :: 0 <= i < |a| ==> a[i].post == b[i].post && a[i].position == b[i].position
  }

  /** The post's row, if there is one, shows `t`. */
  ghost predicate Shows(entries: seq<Entry>, p: PostId, t: Instant) {
    forall i :: 0 <= i < |entries| && entries[i].post == p ==> entries[i].slotAt == Some(t)
  }

  /** A row of `before` shows what it showed. */
  ghost predicate StillShows(before: seq<Entry>, after: seq<Entry>, i: nat) {
    i < |before| <= |after| && after[i].slotAt == before[i].slotAt
  }

  /** No queue changes but `q`, and of that only its rows. */
  ghost predicate OnlyRowsOf(st: State, r: State, q: QueueId) {
    && q in st.queues && r.queues.Keys == st.queues.Keys && r.queues[q].channel == st.queues[q].channel
    && forall o :: o in st.queues && o != q ==> r.queues[o] == st.queues[o]
  }

  /** The child and its row get the slot; no other child, row, queue or parent changes. */
  lemma WriteSlotFrame(st: State, q: QueueId, p: PostId, t: Instant)
    requires q in st.queues
    ensures var r: State := WriteSlot(st, q, p, t);
      var ch := st.queues[q].channel;
      SameButSchedules(st, r, ch)
      && ((p, ch) in st.children ==> At(r.children, (p, ch)) == Some(t))
      && (forall k: Key :: k != (p, ch) ==> At(r.children, k) == At(st.children, k))
      && (forall x :: x != p ==> Parent(r, x) == Parent(st, x))
      && (InSync(st) ==> InSync(r))
      && (Valid(st) ==> Valid(r))
    ensures var before, after := st.queues[q].entries, WriteSlot(st, q, p, t).queues[q].entries;
      && OnlyRowsOf(st, WriteSlot(st, q, p, t), q) && SamePosts(before, after) && Shows(after, p, t)
      && forall i :: 0 <= i < |before| && before[i].post != p ==> StillShows(before, after, i)
  {
    var r := WriteSlot(st, q, p, t);
    var k := (p, st.queues[q].channel);
    if InSync(st) {
      if k in st.children {
        SyncRestores(st, r.(parents := st.parents), p);
      } else {
        forall x ensures Parent(r, x) == MinSchedule(r.children, x) {
          assert Parent(st, x) == MinSchedule(st.children, x);
        }
      }
    }
  }

  lemma {:induction false} MaxPositionBounds(entries: seq<Entry>)
    ensures forall i :: 0 <= i < |entries| ==> entries[i].position <= MaxPosition(entries)
    ensures entries != [] ==> exists i :: 0 <= i < |entries| && entries[i].position == MaxPosition(entries)
  {
    if entries != [] {
      var n := |entries| - 1;
      MaxPositionBounds(entries[..n]);
      assert forall i :: 0 <= i < n ==> entries[i] == entries[..n][i];
      if n > 0 && MaxPosition(entries[..n]) >= entries[n].position {
        var i :| 0 <= i < n && entries[..n][i].position == MaxPosition(entries[..n]);
        assert entries[i].position == MaxPosition(entries);
      } else {
        assert entries[n].position == MaxPosition(entries);
      }
    }
  }

  ghost predicate AppendedLast(before: seq<Entry>, after: seq<Entry>, p: PostId) {
    |after| == |before| + 1 && after[..|before|] == before && after[|before|].post == p
    && after[|before|].slotAt == None
    && forall i :: 0 <= i < |before| ==> before[i].position < after[|before|].position
  }

  /** The new entry goes last, behind every position in use; nothing else changes. */
  lemma EnsureEntryAppends(st: State, q: QueueId, p: PostId)
    requires q in st.queues
    ensures var r: State := EnsureEntry(st, q, p);
      var before := st.queues[q].entries;
      r == st.(queues := r.queues) && OnlyRowsOf(st, r, q)
      && HasEntry(r.queues[q].entries, p)
      && before <= r.queues[q].entries
      && (Valid(st) ==> Valid(r))
      && (InSync(st) ==> InSync(r))
      && (if HasEntry(before, p) then r == st else AppendedLast(before, r.queues[q].entries, p))
  {
    var r, before := EnsureEntry(st, q, p), st.queues[q].entries;
    MaxPositionBounds(before);
    if !HasEntry(before, p) {
      assert r.queues[q].entries[|before|].post == p;
    }
    forall x ensures Parent(r, x) == Parent(st, x) && MinSchedule(r.children, x) == MinSchedule(st.children, x) {}
  }

  // ------------------------------------------------------------------ several writes

  /** Index of the last occurrence of `p`. */
  function LastIndex(posts: seq<PostId>, p: PostId): (i: nat)
    requires p in posts
    ensures i < |posts| && posts[i] == p && p !in posts[i + 1..]
  {
    var n := |posts| - 1;
    if posts[n] == p then n else LastIndex(posts[..n], p)
  }

  /** The last assignment to a child decides; children not named keep their schedule. */
  lemma {:induction false} WriteSlotsFrame(st: State, q: QueueId, posts: seq<PostId>, times: seq<Instant>)
    requires q in st.queues && |posts| == |times|
    ensures var r: State := WriteSlots(st, q, posts, times);
      var ch := st.queues[q].channel;
      SameButSchedules(st, r, ch)
      && (forall p :: p in posts && (p, ch) in st.children ==>
            At(r.children, (p, ch)) == Some(times[LastIndex(posts, p)]))
      && (forall k: Key :: k.1 != ch || k.0 !in posts ==> At(r.children, k) == At(st.children, k))
  {
    if posts != [] {
      var n := |posts| - 1;
      var mid := WriteSlots(st, q, posts[..n], times[..n]);
      WriteSlotsFrame(st, q, posts[..n], times[..n]);
      WriteSlotFrame(mid, q, posts[n], times[n]);
      assert posts == posts[..n] + [posts[n]];
    }
  }

  lemma {:induction false} WriteSlotsKeep(st: State, q: QueueId, posts: seq<PostId>, times: seq<Instant>)
    requires q in st.queues && |posts| == |times|
    ensures InSync(st) ==> InSync(WriteSlots(st, q, posts, times))
    ensures Valid(st) ==> Valid(WriteSlots(st, q, posts, times))
  {
    if posts != [] {
      var n := |posts| - 1;
      WriteSlotsKeep(st, q, posts[..n], times[..n]);
      WriteSlotFrame(WriteSlots(st, q, posts[..n], times[..n]), q, posts[n], times[n]);
    }
  }

  /** Of the rows those of named posts show their last assignment, and the others what they did. */
  lemma {:induction false} WriteSlotsShow(st: State, q: QueueId, posts: seq<PostId>, times: seq<Instant>)
    requires q in st.queues && |posts| == |times|
    ensures OnlyRowsOf(st, WriteSlots(st, q, posts, times), q)
    ensures var before, after := st.queues[q].entries, WriteSlots(st, q, posts, times).queues[q].entries;
      && SamePosts(before, after)
      && (forall x :: x in posts ==> Shows(after, x, times[LastIndex(posts, x)]))
      && forall i :: 0 <= i < |before| && before[i].post !in posts ==> StillShows(before, after, i)
  {
    if posts != [] {
      var n := |posts| - 1;
      WriteSlotsShow(st, q, posts[..n], times[..n]);
      WriteSlotFrame(WriteSlots(st, q, posts[..n], times[..n]), q, posts[n], times[n]);
      assert posts == posts[..n] + [posts[n]];
    }
  }

  lemma LastIndexOfDistinct(posts: seq<PostId>, i: nat)
    requires Distinct(posts) && i < |posts|
    ensures LastIndex(posts, posts[i]) == i
  {}
}
