/**
 Repair of published rows dragged into the future: each is snapped back to the instant it
 was published, pending siblings are pinned first, and parents are re-synchronised.
 */
module Repair {
  import opened Common
  import opened Store
  import opened QueueLaws
  import opened QueueService
  import opened Runs
  import opened RunLaws

  /** The workspaces the posts belong to, and the one to repair (None: all). */
  datatype Scope = Scope(workspaceOf: PostId -> int, only: Option<int>)

  predicate InScope(s: Scope, p: PostId) { s.only.None? || s.workspaceOf(p) == s.only.value }

  /** Published, yet scheduled after its publication. */
  predicate Corrupt(st: State, k: Key) {
    k in st.children && st.children[k].status == Published && st.children[k].publishedAt.Some?
    && st.children[k].scheduledAt.Some? && st.children[k].scheduledAt.value > st.children[k].publishedAt.value
  }

  function Affected(st: State, s: Scope): set<Key> {
    set k | k in st.children && Corrupt(st, k) && InScope(s, k.0)
  }

  function PostsOf(keys: set<Key>): set<PostId> { set k | k in keys :: k.0 }

  /** A pending child of a touched post that lives on its parent's schedule is given it. */
  function Pinned(st: State, touched: set<PostId>, k: Key): PlatformPost
    requires k in st.children
  {
    var pp := st.children[k];
    if k.0 in touched && Parent(st, k.0).Some? && pp.status == Scheduled && pp.scheduledAt.None?
    then pp.(scheduledAt := Parent(st, k.0)) else pp
  }

  function RepairedChild(st: State, keys: set<Key>, k: Key): PlatformPost
    requires k in st.children
  {
    if k in keys then st.children[k].(scheduledAt := st.children[k].publishedAt)
    else Pinned(st, PostsOf(keys), k)
  }

  /** The entry carries a slot later than the publication of its corrupt child. */
  predicate Stale(st: State, keys: set<Key>, ch: ChannelId, e: Entry) {
    var k := (e.post, ch);
    k in keys && k in st.children && st.children[k].publishedAt.Some?
    && e.slotAt.Some? && e.slotAt.value > st.children[k].publishedAt.value
  }

  function SnapEntry(st: State, keys: set<Key>, ch: ChannelId, e: Entry): Entry {
    if Stale(st, keys, ch, e) then e.(slotAt := st.children[(e.post, ch)].publishedAt) else e
  }

  function SnapEntries(st: State, keys: set<Key>, qu: Queue): (r: seq<Entry>)
    ensures |r| == |qu.entries|
    ensures forall i :: 0 <= i < |r| ==> r[i] == SnapEntry(st, keys, qu.channel, qu.entries[i])
  {
    seq(|qu.entries|, i requires 0 <= i < |qu.entries| => SnapEntry(st, keys, qu.channel, qu.entries[i]))
  }

  function SnapQueues(st: State, keys: set<Key>): map<QueueId, Queue> {
    map q | q in st.queues :: st.queues[q].(entries := SnapEntries(st, keys, st.queues[q]))
  }

  /** Every row of every queue that would be reset. */
  ghost function StaleRows(st: State, keys: set<Key>): set<(QueueId, nat)> {
    set q: QueueId, i: nat | q in st.queues && i < |st.queues[q].entries|
                             && Stale(st, keys, st.queues[q].channel, st.queues[q].entries[i]) :: (q, i)
  }

  ghost function Synced(parents: map<PostId, Option<Instant>>, children: map<Key, PlatformPost>, posts: set<PostId>)
    : map<PostId, Option<Instant>>
  {
    map p | p in parents.Keys + posts :: if p in posts then MinSchedule(children, p) else parents[p]
  }

  /** The repaired tables. */
  ghost function Repaired(st: State, s: Scope): State {
    var keys := Affected(st, s);
    var children := map k | k in st.children :: RepairedChild(st, keys, k);
    st.(children := children, queues := SnapQueues(st, keys), parents := Synced(st.parents, children, PostsOf(keys)))
  }

  // ------------------------------------------------------------------ the procedure

  datatype Row = Row(key: Key, oldScheduledAt: Instant, newScheduledAt: Instant)

  datatype Summary = Summary(rows: seq<Row>, platformPostCount: nat, postCount: nat, queueEntryCount: nat,
                             applied: bool)

  /** The report speaks of exactly the corrupt rows of `st`, once each, and counts the
      posts and queue rows they reach. */
  ghost predicate Reports(st: State, s: Scope, r: Summary) {
    var keys := Affected(st, s);
    && r.platformPostCount == |r.rows| == |keys| && r.postCount == |PostsOf(keys)|
    && r.queueEntryCount == |StaleRows(st, keys)|
    && (forall i, j :: 0 <= i < j < |r.rows| ==> r.rows[i].key != r.rows[j].key)
    && forall i :: 0 <= i < |r.rows| ==>
      r.rows[i].key in keys && Describes(st, r.rows[i])
  }

  ghost predicate Describes(st: State, row: Row) {
    row.key in st.children && st.children[row.key].scheduledAt == Some(row.oldScheduledAt)
    && st.children[row.key].publishedAt == Some(row.newScheduledAt)
  }

  /** Resets the stale queue rows of one corrupt child and says how many there were. */
  method SnapTarget(cal: Calendar, k: Key, publishedAt: Instant, apply: bool) returns (count: nat)
    modifies cal`queues
    ensures cal.queues == if apply then SnapOne(old(cal.queues), k, publishedAt) else old(cal.queues)
    ensures count == |StaleOne(old(cal.queues), k, publishedAt)|
  {
    count := |StaleOne(cal.queues, k, publishedAt)|;
    if apply {
      cal.queues := SnapOne(cal.queues, k, publishedAt);
    }
  }

  predicate StaleAt(qu: Queue, i: nat, k: Key, t: Instant)
    requires i < |qu.entries|
  {
    qu.channel == k.1 && qu.entries[i].post == k.0 && qu.entries[i].slotAt.Some? && qu.entries[i].slotAt.value > t
  }

  function StaleOne(queues: map<QueueId, Queue>, k: Key, t: Instant): set<(QueueId, nat)> {
    set q: QueueId, i: nat | q in queues && i < |queues[q].entries| && StaleAt(queues[q], i, k, t) :: (q, i)
  }

  function SnapOne(queues: map<QueueId, Queue>, k: Key, t: Instant): map<QueueId, Queue> {
    map q | q in queues ::
      queues[q].(entries := seq(|queues[q].entries|, i requires 0 <= i < |queues[q].entries| =>
        if StaleAt(queues[q], i, k, t) then queues[q].entries[i].(slotAt := Some(t)) else queues[q].entries[i]))
  }

  /** One target more: its rows are disjoint from those already reset, so a count taken
      while resetting equals the count of a dry run. */
  lemma SnapOneMore(st: State, keys: set<Key>, k: Key)
    requires k !in keys && k in st.children && st.children[k].publishedAt.Some?
    ensures var t := st.children[k].publishedAt.value;
      && SnapOne(SnapQueues(st, keys), k, t) == SnapQueues(st, keys + {k})
      && StaleOne(SnapQueues(st, keys), k, t) == StaleOne(st.queues, k, t)
      && |StaleRows(st, keys + {k})| == |StaleRows(st, keys)| + |StaleOne(st.queues, k, t)|
  {
    var t := st.children[k].publishedAt.value;
    var now, next := SnapQueues(st, keys), SnapQueues(st, keys + {k});
    forall q | q in st.queues ensures SnapOne(now, k, t)[q] == next[q] {
      var ch := st.queues[q].channel;
      forall i | 0 <= i < |st.queues[q].entries|
        ensures SnapOne(now, k, t)[q].entries[i] == next[q].entries[i]
        ensures StaleAt(now[q], i, k, t) == StaleAt(st.queues[q], i, k, t)
      {
        SnapEntryOneMore(st, keys, k, ch, st.queues[q].entries[i]);
      }
      assert SnapOne(now, k, t)[q].entries == next[q].entries;
    }
    assert StaleOne(now, k, t) == StaleOne(st.queues, k, t);
    StaleRowsOneMore(st, keys, k);
  }

  lemma SnapEntryOneMore(st: State, keys: set<Key>, k: Key, ch: ChannelId, e: Entry)
    requires k !in keys && k in st.children && st.children[k].publishedAt.Some?
    ensures (e.post, ch) == k ==> SnapEntry(st, keys, ch, e) == e
    ensures (e.post, ch) != k ==> SnapEntry(st, keys + {k}, ch, e) == SnapEntry(st, keys, ch, e)
  {}

  lemma StaleRowsOneMore(st: State, keys: set<Key>, k: Key)
    requires k !in keys && k in st.children && st.children[k].publishedAt.Some?
    ensures |StaleRows(st, keys + {k})|
         == |StaleRows(st, keys)| + |StaleOne(st.queues, k, st.children[k].publishedAt.value)|
  {
    var t := st.children[k].publishedAt.value;
    var before, added := StaleRows(st, keys), StaleOne(st.queues, k, t);
    forall q: QueueId, i: nat | q in st.queues && i < |st.queues[q].entries|
      ensures Stale(st, keys + {k}, st.queues[q].channel, st.queues[q].entries[i])
        <==> Stale(st, keys, st.queues[q].channel, st.queues[q].entries[i]) || StaleAt(st.queues[q], i, k, t)
      ensures !(Stale(st, keys, st.queues[q].channel, st.queues[q].entries[i]) && StaleAt(st.queues[q], i, k, t))
    {
      var (p, c) := k;
    }
    assert StaleRows(st, keys + {k}) == before + added;
    assert before !! added;
  }

  /** One report row per corrupt child. */
  method ListRows(cal: Calendar, keys: seq<Key>) returns (rows: seq<Row>)
    requires forall j :: 0 <= j < |keys| ==> keys[j] in cal.children && Corrupt(cal.View(), keys[j])
    ensures |rows| == |keys|
    ensures forall j :: 0 <= j < |keys| ==> rows[j].key == keys[j] && Describes(cal.View(), rows[j])
  {
    rows := [];
    var i := 0;
    while i < |keys|
      invariant 0 <= i <= |keys| && |rows| == i
      invariant forall j :: 0 <= j < i ==> rows[j].key == keys[j] && Describes(cal.View(), rows[j])
    {
      var pp := cal.children[keys[i]];
      rows := rows + [Row(keys[i], pp.scheduledAt.value, pp.publishedAt.value)];
      i := i + 1;
    }
  }

  method RepairFuturePublishedScheduledAt(cal: Calendar, s: Scope, apply: bool) returns (summary: Summary)
    modifies cal`children, cal`queues, cal`parents
    ensures Reports(old(cal.View()), s, summary)
    ensures summary.applied == (apply && Affected(old(cal.View()), s) != {})
    ensures cal.View() == if apply then Repaired(old(cal.View()), s) else old(cal.View())
  {
    ghost var st := cal.View();
    var affected := Affected(cal.View(), s);
    var keys := Enumerate(affected);
    CorruptKeys(st, s, keys);
    var rows := ListRows(cal, keys);
    var live := apply && |rows| > 0;
    var count;
    if live {
      count := ApplyRepair(cal, s, keys, rows);
    } else {
      count := SnapTargets(cal, st, keys, rows, false);
      NothingToRepairUnless(st, s, keys, apply);
    }
    summary := Summary(rows, |rows|, |PostsOf(affected)|, count, live);
    ReportIsRight(st, s, keys, summary);
  }

  lemma CorruptKeys(st: State, s: Scope, keys: seq<Key>)
    requires Distinct(keys) && Elements(keys) == Affected(st, s)
    ensures |keys| == |Affected(st, s)|
    ensures forall j :: 0 <= j < |keys| ==> keys[j] in st.children && Corrupt(st, keys[j])
  {
    DistinctCardinality(keys);
    assert forall j :: 0 <= j < |keys| ==> keys[j] in Elements(keys);
  }

  /** The transaction: pin, snap the children and the queue rows, re-synchronise. */
  method ApplyRepair(cal: Calendar, s: Scope, keys: seq<Key>, rows: seq<Row>) returns (count: nat)
    requires Distinct(keys) && Elements(keys) == Affected(cal.View(), s) && |rows| == |keys|
    requires forall j :: 0 <= j < |keys| ==> rows[j].key == keys[j] && Describes(cal.View(), rows[j])
    modifies cal`children, cal`queues, cal`parents
    ensures cal.View() == Repaired(old(cal.View()), s)
    ensures count == |StaleRows(old(cal.View()), Elements(keys))|
  {
    ghost var st := cal.View();
    var affected := Affected(cal.View(), s);
    PinSiblings(cal, PostsOf(affected));
    SnapChildren(cal, affected, st);
    count := SnapTargets(cal, st, keys, rows, true);
    SyncPosts(cal, PostsOf(affected));
  }

  lemma ReportIsRight(st: State, s: Scope, keys: seq<Key>, r: Summary)
    requires Distinct(keys) && Elements(keys) == Affected(st, s) && |r.rows| == |keys| == |Affected(st, s)|
    requires forall j :: 0 <= j < |keys| ==> r.rows[j].key == keys[j] && Describes(st, r.rows[j])
    requires r.platformPostCount == |r.rows| && r.postCount == |PostsOf(Affected(st, s))|
    requires r.queueEntryCount == |StaleRows(st, Elements(keys))|
    ensures Reports(st, s, r)
  {
    assert forall j :: 0 <= j < |keys| ==> keys[j] in Elements(keys);
  }

  /** The bulk update of the corrupt rows, after their siblings were pinned. */
  method SnapChildren(cal: Calendar, affected: set<Key>, ghost st: State)
    requires forall k :: k in affected ==> k in st.children && st.children[k].status == Published
    requires cal.children == map k | k in st.children :: Pinned(st, PostsOf(affected), k)
    modifies cal`children
    ensures cal.children == map k | k in st.children :: RepairedChild(st, affected, k)
  {
    cal.children := map k | k in cal.children ::
      if k in affected then cal.children[k].(scheduledAt := cal.children[k].publishedAt) else cal.children[k];
  }

  lemma NothingToRepairUnless(st: State, s: Scope, keys: seq<Key>, apply: bool)
    requires Elements(keys) == Affected(st, s) && !(apply && |keys| > 0)
    ensures apply ==> Repaired(st, s) == st
  {
    if apply {
      assert Affected(st, s) == {};
      NothingToRepair(st, s);
    }
  }

  /** Gives every pending child of the posts that has no schedule its parent's. */
  method PinSiblings(cal: Calendar, posts: set<PostId>)
    modifies cal`children
    ensures cal.children == map k | k in old(cal.children) :: Pinned(old(cal.View()), posts, k)
  {
    ghost var st := cal.View();
    var todo := Enumerate(posts);
    var i := 0;
    assert Elements(todo[..0]) == {};
    while i < |todo|
      invariant 0 <= i <= |todo| && cal.parents == st.parents
      invariant cal.children == map k | k in st.children :: Pinned(st, Elements(todo[..i]), k)
    {
      var p := todo[i];
      var parent := if p in cal.parents then cal.parents[p] else None;
      assert Elements(todo[..i + 1]) == Elements(todo[..i]) + {p} by {
        assert todo[..i + 1] == todo[..i] + [p];
      }
      PinOneMore(st, cal.children, Elements(todo[..i]), p);
      if parent.Some? {
        cal.children := PinPost(cal.children, p, parent);
      }
      i := i + 1;
    }
    assert todo[..i] == todo;
  }

  /** The update of one post's children: those pending without a schedule get `parent`. */
  function PinPost(children: map<Key, PlatformPost>, p: PostId, parent: Option<Instant>): map<Key, PlatformPost> {
    map k | k in children ::
      if k.0 == p && children[k].status == Scheduled && children[k].scheduledAt.None?
      then children[k].(scheduledAt := parent) else children[k]
  }

  lemma PinOneMore(st: State, children: map<Key, PlatformPost>, posts: set<PostId>, p: PostId)
    requires children == map k | k in st.children :: Pinned(st, posts, k)
    ensures (map k | k in st.children :: Pinned(st, posts + {p}, k))
         == if Parent(st, p).Some? then PinPost(children, p, Parent(st, p)) else children
  {}

  /** Visits the targets in turn, resetting their queue rows when `apply` holds. */
  method SnapTargets(cal: Calendar, ghost st: State, keys: seq<Key>, rows: seq<Row>, apply: bool) returns (count: nat)
    requires |rows| == |keys| && Distinct(keys) && cal.queues == st.queues
    requires forall j :: 0 <= j < |keys| ==>
      keys[j] in st.children && st.children[keys[j]].publishedAt == Some(rows[j].newScheduledAt)
    modifies cal`queues
    ensures cal.queues == if apply then SnapQueues(st, Elements(keys)) else st.queues
    ensures count == |StaleRows(st, Elements(keys))|
  {
    count := 0;
    var i := 0;
    SnapNothing(st);
    assert Elements(keys[..0]) == {};
    while i < |keys|
      invariant 0 <= i <= |keys|
      invariant cal.queues == if apply then SnapQueues(st, Elements(keys[..i])) else st.queues
      invariant count == |StaleRows(st, Elements(keys[..i]))|
    {
      assert keys[..i + 1] == keys[..i] + [keys[i]];
      assert Elements(keys[..i + 1]) == Elements(keys[..i]) + {keys[i]};
      SnapOneMore(st, Elements(keys[..i]), keys[i]);
      var n := SnapTarget(cal, keys[i], rows[i].newScheduledAt, apply);
      count := count + n;
      i := i + 1;
    }
    assert keys[..i] == keys;
  }

  lemma SnapNothing(st: State)
    ensures SnapQueues(st, {}) == st.queues && StaleRows(st, {}) == {}
  {
    forall q | q in st.queues ensures SnapQueues(st, {})[q] == st.queues[q] {
      assert SnapEntries(st, {}, st.queues[q]) == st.queues[q].entries;
    }
  }

  method SyncPosts(cal: Calendar, posts: set<PostId>)
    modifies cal`parents
    ensures cal.parents == Synced(old(cal.parents), cal.children, posts)
  {
    ghost var before := cal.parents;
    var todo := Enumerate(posts);
    var i := 0;
    assert Elements(todo[..0]) == {};
    while i < |todo|
      invariant 0 <= i <= |todo|
      invariant cal.parents == Synced(before, cal.children, Elements(todo[..i]))
    {
      SyncOneMore(before, cal.children, todo, i);
      cal.SyncPostScheduledAt(todo[i]);
      i := i + 1;
    }
    assert todo[..i] == todo;
  }

  lemma SyncOneMore(parents: map<PostId, Option<Instant>>, children: map<Key, PlatformPost>, todo: seq<PostId>, i: nat)
    requires i < |todo|
    ensures Synced(parents, children, Elements(todo[..i + 1]))
         == Synced(parents, children, Elements(todo[..i]))[todo[i] := MinSchedule(children, todo[i])]
  {
    assert todo[..i + 1] == todo[..i] + [todo[i]];
    assert Elements(todo[..i + 1]) == Elements(todo[..i]) + {todo[i]};
  }

  // ------------------------------------------------------------------ laws

  lemma NothingToRepair(st: State, s: Scope)
    requires Affected(st, s) == {}
    ensures Repaired(st, s) == st
  {
    SnapNothing(st);
    var r := Repaired(st, s);
    assert r.children == st.children;
    assert r.parents == st.parents;
  }

  /** No row in scope stays scheduled after its publication, and a second repair finds
      nothing to do. */
  lemma RepairIsIdempotent(st: State, s: Scope)
    ensures Affected(Repaired(st, s), s) == {}
    ensures Repaired(Repaired(st, s), s) == Repaired(st, s)
  {
    forall k | k in Repaired(st, s).children && InScope(s, k.0) ensures !Corrupt(Repaired(st, s), k) {
      assert k in Affected(st, s) <==> Corrupt(st, k);
    }
    NothingToRepair(Repaired(st, s), s);
  }

  /** Repairing one workspace leaves none of its own rows published before their schedule, and
      nothing of any other workspace changes: no child, no queue row, no parent. */
  lemma RepairStaysInWorkspace(st: State, s: Scope, w: int)
    requires s.only == Some(w)
    ensures var r: State := Repaired(st, s);
      && (forall k :: k in st.children && s.workspaceOf(k.0) == w ==> !Corrupt(r, k))
      && (forall k :: k in st.children && s.workspaceOf(k.0) != w ==>
            k in r.children && r.children[k] == st.children[k])
      && (forall p :: s.workspaceOf(p) != w ==> Parent(r, p) == Parent(st, p))
      && (forall q :: q in st.queues ==> q in r.queues && |r.queues[q].entries| == |st.queues[q].entries|)
      && (forall q, i :: q in st.queues && 0 <= i < |st.queues[q].entries|
                         && s.workspaceOf(st.queues[q].entries[i].post) != w ==>
            r.queues[q].entries[i] == st.queues[q].entries[i])
  {
    forall k | k in st.children && s.workspaceOf(k.0) == w ensures !Corrupt(Repaired(st, s), k) {
      assert k in Affected(st, s) <==> Corrupt(st, k);
    }
    assert forall p :: p in PostsOf(Affected(st, s)) ==> s.workspaceOf(p) == w;
  }

  /** With no workspace given, none is left anywhere. */
  lemma RepairOfAllLeavesNone(st: State, s: Scope, k: Key)
    requires s.only == None && k in st.children
    ensures !Corrupt(Repaired(st, s), k)
  {
    assert k in Affected(st, s) <==> Corrupt(st, k);
  }

  /** A pending child without a schedule, beside a corrupt row, that lives on its parent's. */
  ghost predicate LivesBesideCorrupt(st: State, s: Scope, k: Key) {
    && InStatus(st, k, Scheduled) && At(st.children, k).None? && Parent(st, k.0).Some?
    && exists c :: c in Affected(st, s) && c.0 == k.0
  }

  /** Exactly the corrupt rows and the pinned siblings change, and of those only the schedule:
      to the publication, and to the parent's schedule as it was. */
  lemma RepairTouchesLittle(st: State, s: Scope, k: Key)
    requires k in st.children
    ensures var c, r := st.children[k], Repaired(st, s).children[k];
      && r == c.(scheduledAt := r.scheduledAt)
      && (r != c <==> k in Affected(st, s) || LivesBesideCorrupt(st, s, k))
      && (k in Affected(st, s) ==> r.scheduledAt == c.publishedAt)
      && (LivesBesideCorrupt(st, s, k) ==> r.scheduledAt == Parent(st, k.0))
  {
    assert k.0 in PostsOf(Affected(st, s)) <==> exists c :: c in Affected(st, s) && c.0 == k.0;
  }

  /** Of the queue rows exactly those change that show a corrupt child later than its publication,
      and only in the slot they show. */
  lemma RepairTouchesFewQueueRows(st: State, s: Scope, q: QueueId, i: nat)
    requires q in st.queues && i < |st.queues[q].entries|
    ensures var r: State := Repaired(st, s);
      && q in r.queues && r.queues[q].channel == st.queues[q].channel && |r.queues[q].entries| == |st.queues[q].entries|
      && var e, f := st.queues[q].entries[i], r.queues[q].entries[i];
         var k := (e.post, st.queues[q].channel);
         && f == e.(slotAt := f.slotAt)
         && (f != e <==> k in Affected(st, s) && e.slotAt.Some? && e.slotAt.value > st.children[k].publishedAt.value)
         && (k in Affected(st, s) && f.slotAt.Some? ==> f.slotAt.value <= st.children[k].publishedAt.value)
  {
    var e := st.queues[q].entries[i];
    assert Repaired(st, s).queues[q].entries[i] == SnapEntry(st, Affected(st, s), st.queues[q].channel, e);
  }

  lemma AffectedParentBecomesSome(st: State, s: Scope, p: PostId)
    requires p in PostsOf(Affected(st, s))
    ensures Parent(Repaired(st, s), p).Some?
  {
    var k :| k in Affected(st, s) && k.0 == p;
    var r := Repaired(st, s);
    assert r.children[k].scheduledAt.value in Times(r.children, p);
  }

  /** The repair keeps the effective due time of every pending child exactly when no touched
      post without a schedule of its own has a pending child living on it. */
  lemma RepairKeepsDueTimesIff(st: State, s: Scope)
    ensures (forall k :: InStatus(st, k, Scheduled) ==> DueAt(Repaired(st, s), k) == DueAt(st, k))
      <==> (forall k :: InStatus(st, k, Scheduled) && k.0 in PostsOf(Affected(st, s)) && At(st.children, k).None?
              ==> Parent(st, k.0).Some?)
  {
    var r, touched := Repaired(st, s), PostsOf(Affected(st, s));
    forall k | InStatus(st, k, Scheduled)
      ensures DueAt(r, k) == DueAt(st, k)
        <==> !(k.0 in touched && At(st.children, k).None? && Parent(st, k.0).None?)
    {
      assert k !in Affected(st, s);
      if k.0 in touched {
        AffectedParentBecomesSome(st, s, k.0);
      } else {
        assert Parent(r, k.0) == Parent(st, k.0);
      }
    }
  }

  /** From tables whose parents are in step, the repair keeps every pending due time and
      leaves the parents in step. */
  lemma RepairIsSafe(st: State, s: Scope)
    requires InSync(st)
    ensures forall k :: InStatus(st, k, Scheduled) ==> DueAt(Repaired(st, s), k) == DueAt(st, k)
    ensures InSync(Repaired(st, s))
  {
    var r, touched := Repaired(st, s), PostsOf(Affected(st, s));
    forall p | p in touched ensures Parent(st, p).Some? {
      var c :| c in Affected(st, s) && c.0 == p;
      assert st.children[c].scheduledAt.value in Times(st.children, p);
      assert Parent(st, p) == MinSchedule(st.children, p);
    }
    RepairKeepsDueTimesIff(st, s);
    forall p ensures Parent(r, p) == MinSchedule(r.children, p) {
      if p !in touched {
        assert Parent(st, p) == MinSchedule(st.children, p);
        forall c ensures At(st.children, (p, c)) == At(r.children, (p, c)) {
          assert (p, c) in Affected(st, s) ==> (p, c).0 in touched;
        }
        MinScheduleFrame(st.children, r.children, p);
      }
    }
  }

  /** Nothing needs repair while the tables keep their invariant. */
  lemma SoundTablesNeedNoRepair(st: State, s: Scope)
    requires Inv(st)
    ensures Affected(st, s) == {} && Repaired(st, s) == st
  {
    forall k | k in st.children ensures !Corrupt(st, k) {
      assert RowIsPast(st.children[k], st.now);
    }
    NothingToRepair(st, s);
  }

  /** No state reached by safe steps has a row to repair. */
  lemma SafeRunsNeedNoRepair(states: seq<System>, actions: seq<Action>, n: nat, s: Scope)
    requires IsRun(states, actions) && Inv(states[0].tables) && n < |states| && SafeUpTo(states, actions, n)
    ensures Affected(states[n].tables, s) == {}
  {
    RunKeepsInvIff(states, actions, n);
    SoundTablesNeedNoRepair(states[n].tables, s);
  }

  /** A publication creates a row to repair exactly when it comes before its own schedule. */
  lemma SuccessNeedsRepairIff(s: System, j: JobId)
    requires Inv(s.tables) && Enabled(s, End(j, Success))
    ensures var k := s.jobs[j].key;
      Corrupt(Next(s, End(j, Success)).tables, k) <==> !Timely(s.tables, s.jobs[j].row.child.scheduledAt)
  {}
}
