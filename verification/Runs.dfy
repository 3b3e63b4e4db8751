/**
 Runs of the scheduler: sequences of atomic steps, each a queue operation under its channel
 lock, a write of the calendar or of the API, a clock tick, a slot edit, or a move of the
 publisher, whose two queries are steps of their own, taken before the rows are started.
 */
module Runs {
  import opened Common
  import opened Slots
  import opened Store
  import opened QueueOps
  import opened QueueLaws
  import opened EditLaws
  import opened Booking

  const SECOND: int := 1_000_000 // microseconds
  const MAX_RETRIES: nat := 3
  const RETRY_BACKOFF: seq<int> := [60, 300, 1800] // seconds

  /** Failed attempts of a child so far, and when the next one may start. */
  datatype Retry = Retry(count: nat, nextAt: Instant)

  /** A child's row as a publisher job read it; saving the row writes all of it back. */
  datatype RowRead = RowRead(child: PlatformPost, retry: Option<Retry>)

  type JobId = int

  datatype Job = Job(key: Key, row: RowRead)

  /** `due` and `picked` are what the publisher's two queries have returned so far; `jobs` are
      the rows being published. */
  datatype System = System(
    tables: State,
    retries: map<Key, Retry>,
    due: set<Key>,
    picked: set<(Key, RowRead)>,
    jobs: map<JobId, Job>)

  datatype Action =
    | AddNext(p: PostId, q: QueueId)          // also the reslot of an entry
    | ToFront(p: PostId, q: QueueId)
    | Drop(p: PostId, q: QueueId)
    | Drag(q: QueueId, ids: seq<PostId>)
    | Relist(q: QueueId, entries: seq<Entry>) // the table returns equal positions in another order
    | EditSlots(ch: ChannelId, config: Config)
    | Tick(t: Instant)
    | Reschedule(k: Key, t: Instant)          // calendar drag of a child, API re-timing
    | Create(k: Key, status: Status, at: Option<Instant>) // recurrence clone, API post
    | Transition(k: Key, status: Status)      // the composer's chip: status alone, any legal move
    | Withdraw(k: Key)                        // back to draft, schedule and entries dropped
    | DeleteChild(k: Key)                     // one account's child; the post goes with its last
    | DeletePost(p: PostId)
    | PollDue
    | PollRetries
    | StartDue(k: Key, j: JobId)
    | StartRetry(k: Key, row: RowRead, j: JobId)
    | End(j: JobId, how: Ending)
    | Abort(j: JobId)                         // the job dies before it saves

  /** How a publishing job ends: the provider took the post, or failed in a way worth retrying,
      or for good. */
  datatype Ending = Success | Transient | Permanent

  // ------------------------------------------------------------------ steps on the tables

  ghost predicate InStatus(st: State, k: Key, s: Status) { k in st.children && st.children[k].status == s }

  /** The publisher's due time: the child's own schedule, else its parent's. */
  function DueAt(st: State, k: Key): Option<Instant> {
    if At(st.children, k).Some? then At(st.children, k) else Parent(st, k.0)
  }

  function Saved(st: State, k: Key, row: PlatformPost): State { st.(children := st.children[k := row]) }

  /** A row saved together with its parent's schedule. */
  function SavedInSync(st: State, k: Key, row: PlatformPost): State { SyncPost(Saved(st, k, row), k.0) }

  /** The queue entries of the channel show the child's instant. */
  function Mirrored(st: State, k: Key, t: Instant): State {
    st.(queues := map q | q in st.queues ::
          if st.queues[q].channel == k.1 then st.queues[q].(entries := SetAssigned(st.queues[q].entries, k.0, t))
          else st.queues[q])
  }

  /** A calendar drag schedules a draft as well as moving it. */
  function Rescheduled(row: PlatformPost, t: Instant): PlatformPost {
    row.(scheduledAt := Some(t), status := if row.status == Draft then Scheduled else row.status)
  }

  /** The move stamps a publication, and touches neither schedule, queue nor parent. */
  function Transitioned(row: PlatformPost, status: Status, now: Instant): PlatformPost {
    row.(status := status, publishedAt := if status == Published then Some(now) else row.publishedAt)
  }

  ghost predicate HasChildren(children: map<Key, PlatformPost>, p: PostId) { exists k :: k in children && k.0 == p }

  /** The post with its entries; its children are gone. */
  function WithoutPost(st: State, p: PostId): State {
    st.(parents := st.parents - {p},
        queues := map q | q in st.queues :: st.queues[q].(entries := DropEntry(st.queues[q].entries, p)))
  }

  function ChildrenOf(st: State, p: PostId): set<Key> { set k | k in st.children && k.0 == p }

  /** The parent's schedule is not synced; a post left without children is deleted as well. */
  ghost function WithoutChild(st: State, k: Key): State {
    var st1 := st.(children := st.children - {k});
    if HasChildren(st1.children, k.0) then st1 else WithoutPost(st1, k.0)
  }

  // ------------------------------------------------------------------ the publisher

  function RetryOf(s: System, k: Key): Option<Retry> { if k in s.retries then Some(s.retries[k]) else None }

  function WithRetry(retries: map<Key, Retry>, k: Key, r: Option<Retry>): map<Key, Retry> {
    if r.Some? then retries[k := r.value] else retries - {k}
  }

  predicate IsDue(st: State, k: Key) {
    k in st.children && st.children[k].status == Scheduled && DueAt(st, k).Some? && DueAt(st, k).value <= st.now
  }

  /** What the retry query asks; the schedule plays no part in it. */
  predicate IsRetryDue(s: System, k: Key) {
    k in s.tables.children && s.tables.children[k].status == Scheduled
    && k in s.retries && 0 < s.retries[k].count <= MAX_RETRIES && s.retries[k].nextAt <= s.tables.now
  }

  function Attempts(row: RowRead): nat { if row.retry.Some? then row.retry.value.count else 0 }

  function Backoff(count: nat): int {
    RETRY_BACKOFF[if count < |RETRY_BACKOFF| then count else |RETRY_BACKOFF| - 1] * SECOND
  }

  /** The row a job saves at its end: all columns as read, with the new status. A transient
      failure out of retries is permanent. */
  function EndRow(row: RowRead, how: Ending, now: Instant): PlatformPost {
    match how
    case Success => row.child.(status := Published, publishedAt := Some(now))
    case Transient => row.child.(status := if Attempts(row) >= MAX_RETRIES then Failed else Scheduled)
    case Permanent => row.child.(status := Failed)
  }

  function EndRetry(row: RowRead, how: Ending, now: Instant): Option<Retry> {
    if how == Transient && Attempts(row) < MAX_RETRIES
    then Some(Retry(Attempts(row) + 1, now + Backoff(Attempts(row))))
    else row.retry
  }

  /** The row saved; a published child also leaves every queue of its channel. */
  function Ended(st: State, k: Key, row: RowRead, how: Ending): State {
    var st1 := Saved(st, k, EndRow(row, how, st.now));
    if how == Success then DropFromChannel(st1, k.0, k.1) else st1
  }

  // ------------------------------------------------------------------ the step relation

  /** Saving a row whose child was deleted creates it again, as long as its post is there. */
  ghost predicate PostLives(st: State, p: PostId) { p in st.parents || HasChildren(st.children, p) }

  ghost predicate Enabled(s: System, a: Action) {
    var st := s.tables;
    match a
    case AddNext(_, q) => q in st.queues
    case ToFront(_, q) => q in st.queues
    case Drop(_, q) => q in st.queues
    case Drag(q, _) => q in st.queues
    case Relist(q, entries) => q in st.queues && multiset(entries) == multiset(st.queues[q].entries)
    case EditSlots(_, config) => ValidConfig(config)
    case Tick(t) => st.now <= t
    case Reschedule(k, _) => InStatus(st, k, Draft) || InStatus(st, k, Approved) || InStatus(st, k, Scheduled)
    case Create(k, status, _) => k !in st.children && (status == Draft || status == Scheduled)
    case Transition(k, status) => k in st.children && CanMove(st.children[k].status, status)
    case Withdraw(k) => Drafts(st, k)
    case DeleteChild(k) => k in st.children
    case DeletePost(_) => true
    case PollDue => true
    case PollRetries => true
    case StartDue(k, j) => k in s.due && InStatus(st, k, Scheduled) && j !in s.jobs
    case StartRetry(k, row, j) => (k, row) in s.picked && k in st.children && j !in s.jobs
    case End(j, _) => j in s.jobs && PostLives(st, s.jobs[j].key.0)
    case Abort(j) => j in s.jobs
  }

  ghost function NextTables(s: System, a: Action): State
    requires Valid(s.tables) && Enabled(s, a)
  {
    var st := s.tables;
    match a
    case AddNext(p, q) => AddNextAvailable(st, p, q).0
    case ToFront(p, q) => Prioritize(st, p, q).0
    case Drop(p, q) => Remove(st, p, q)
    case Drag(q, ids) => Reorder(st, q, ids)
    case Relist(q, entries) => WithEntries(st, q, entries)
    case EditSlots(ch, config) => st.(channels := st.channels[ch := config])
    case Tick(t) => st.(now := t)
    case Reschedule(k, t) => SavedInSync(Mirrored(st, k, t), k, Rescheduled(st.children[k], t))
    case Create(k, status, at) => SavedInSync(st, k, PlatformPost(status, at, None))
    case Transition(k, status) => Saved(st, k, Transitioned(st.children[k], status, st.now))
    case Withdraw(k) => ToDraft(st, k)
    case DeleteChild(k) => WithoutChild(st, k)
    case DeletePost(p) => WithoutPost(st.(children := st.children - ChildrenOf(st, p)), p)
    case PollDue => st
    case PollRetries => st
    case StartDue(k, _) => Saved(st, k, st.children[k].(status := Publishing))
    case StartRetry(k, _, _) => Saved(st, k, st.children[k].(status := Publishing))
    case End(j, how) => Ended(st, s.jobs[j].key, s.jobs[j].row, how)
    case Abort(_) => st
  }

  ghost function Next(s: System, a: Action): System
    requires Valid(s.tables) && Enabled(s, a)
  {
    var s1 := s.(tables := NextTables(s, a));
    if a.PollDue? then s1.(due := s.due + set k | k in s.tables.children && IsDue(s.tables, k))
    else if a.PollRetries? then
      s1.(picked := s.picked
            + set k | k in s.tables.children && IsRetryDue(s, k) :: (k, RowRead(s.tables.children[k], RetryOf(s, k))))
    else if a.StartDue? then
      s1.(jobs := s.jobs[a.j := Job(a.k, RowRead(s1.tables.children[a.k], RetryOf(s, a.k)))])
    else if a.StartRetry? then s1.(jobs := s.jobs[a.j := Job(a.k, a.row)])
    else if a.End? then
      var job := s.jobs[a.j];
      s1.(jobs := s.jobs - {a.j}, retries := WithRetry(s.retries, job.key, EndRetry(job.row, a.how, s.tables.now)))
    else if a.Abort? then s1.(jobs := s.jobs - {a.j})
    else s1
  }

  // ------------------------------------------------------------------ the invariant

  /** A published row was scheduled no later than it was published: the repair looks for others. */
  predicate RowIsPast(row: PlatformPost, now: Instant) {
    row.status == Published ==>
      && (row.publishedAt.Some? ==> row.publishedAt.value <= now)
      && (row.scheduledAt.Some? ==> row.publishedAt.Some? && row.scheduledAt.value <= row.publishedAt.value)
  }

  ghost predicate HistoryIsPast(st: State) {
    forall k :: k in st.children ==> RowIsPast(st.children[k], st.now)
  }

  ghost predicate Inv(st: State) { Valid(st) && InSync(st) && NoDoubleBooking(st) && HistoryIsPast(st) }

  // ------------------------------------------------------------------ when a step keeps it

  ghost predicate Timely(st: State, at: Option<Instant>) { at.Some? ==> at.value <= st.now }

  /** The instant is past, or nobody else on the channel claims it. */
  ghost predicate Open(st: State, k: Key, at: Option<Instant>) {
    at.Some? && at.value > st.now ==> at.value !in Occupied(st, k.1, k.0)
  }

  /** The earliest schedule among the post's other children. */
  function SiblingsEarliest(st: State, k: Key): Option<Instant> { MinSchedule(st.children - {k}, k.0) }

  predicate NotBefore(at: Option<Instant>, t: Instant) { at.Some? ==> t <= at.value }

  /** Giving the child this schedule, or none by deleting it, does not move the parent's: it is the
      schedule it has, or a sibling is at least as early as both. */
  predicate FitsParent(st: State, k: Key, at: Option<Instant>) {
    var sibling := SiblingsEarliest(st, k);
    at == At(st.children, k)
    || (sibling.Some? && NotBefore(at, sibling.value) && NotBefore(At(st.children, k), sibling.value))
  }

  /** What each step needs, in terms of the state before it. */
  ghost predicate Safe(s: System, a: Action)
    requires Enabled(s, a) && Valid(s.tables)
  {
    var st := s.tables;
    match a
    case ToFront(p, q) => InStatus(st, (p, st.queues[q].channel), Published) ==> Full(st, p, q)
    case Drag(q, ids) => forall x, y :: !Clash(st, q, ids, x, y)
    case Reschedule(k, t) => Open(st, k, Some(t))
    case Create(k, _, at) => Open(st, k, at)
    case Transition(k, status) =>
      var at := At(st.children, k);
      if status == Published then Timely(st, at) else IsProtected(st, k) && status != Publishing ==> Open(st, k, at)
    case DeleteChild(k) => HasChildren(st.children - {k}, k.0) ==> FitsParent(st, k, None)
    case End(j, how) =>
      var k, at := s.jobs[j].key, s.jobs[j].row.child.scheduledAt;
      && (if how == Success then Timely(st, at) else Open(st, k, at))
      && FitsParent(st, k, at)
    case _ => true
  }
}
