/**
 The idempotency table: an atomic claim, then finalize or release, and an hourly sweep.
 First the table operations, then any number of workers interleaving them.
 */
module Idempotency {
  import opened Common

  /** A slot is an API key and the client's idempotency key. */
  type Slot = (int, string)

  /** Status 0 marks a claim still in flight; HTTP never uses it. */
  const PENDING: nat := 0
  const TTL: int := 24 * 3_600_000_000

  datatype Record = Record(fingerprint: string, status: nat, body: string, createdAt: Instant)

  type Table = map<Slot, Record>

  datatype Disposition =
    | Passthrough
    | Claimed
    | InFlight
    | Mismatch            // reused for a different request
    | Replay(status: nat, body: string)
    | Vanished            // the row was gone again when re-read

  // ------------------------------------------------------------------ table operations

  function Inserted(t: Table, k: Slot, fingerprint: string, now: Instant): Table {
    t[k := Record(fingerprint, PENDING, "{}", now)]
  }

  /** What a request that lost the insert makes of the row it re-reads. */
  function Decide(t: Table, k: Slot, fingerprint: string): Disposition {
    if k !in t then Vanished
    else if t[k].fingerprint != fingerprint then Mismatch
    else if t[k].status == PENDING then InFlight
    else Replay(t[k].status, t[k].body)
  }

  function Finalized(t: Table, k: Slot, status: nat, body: string): Table {
    if k in t then t[k := t[k].(status := status, body := body)] else t
  }

  function Released(t: Table, k: Slot): Table {
    if k in t && t[k].status == PENDING then t - {k} else t
  }

  /** Rows the sweep deletes, finished or not. */
  predicate Expired(r: Record, now: Instant) { r.createdAt < now - TTL }

  function Swept(t: Table, now: Instant): Table {
    map k | k in t && !Expired(t[k], now) :: t[k]
  }

  lemma SweepCounts(t: Table, now: Instant, stale: set<Slot>)
    requires stale == set k | k in t && t[k].createdAt < now - TTL
    ensures t - stale == Swept(t, now) && |t - stale| + |stale| == |t|
  {
    assert t.Keys == (t - stale).Keys + stale;
  }

  /** The shared table and the helpers the routes call. */
  class IdempotencyStore {
    var records: Table

    constructor ()
      ensures records == map[]
    {
      records := map[];
    }

    /** Insert, or on a conflict re-read; the two are one call here but two steps below. */
    method ClaimIdempotencySlot(apiKey: int, key: Option<string>, fingerprint: string, now: Instant)
        returns (d: Disposition)
      modifies this
      ensures key.None? || key.value == "" ==> d == Passthrough && records == old(records)
      ensures key.Some? && key.value != "" ==>
        var k := (apiKey, key.value);
        if k in old(records) then d == Decide(old(records), k, fingerprint) && records == old(records)
        else d == Claimed && records == Inserted(old(records), k, fingerprint, now)
    {
      if key.None? || key.value == "" {
        return Passthrough;
      }
      var k := (apiKey, key.value);
      if k !in records {
        records := records[k := Record(fingerprint, PENDING, "{}", now)];
        return Claimed;
      }
      var existing := records[k];
      if existing.fingerprint != fingerprint {
        return Mismatch;
      }
      if existing.status == PENDING {
        return InFlight;
      }
      return Replay(existing.status, existing.body);
    }

    method FinalizeIdempotentResponse(apiKey: int, key: Option<string>, status: nat, body: string)
      modifies this
      ensures records == if key.None? || key.value == "" then old(records)
                         else Finalized(old(records), (apiKey, key.value), status, body)
      ensures records.Keys == old(records).Keys
      ensures forall k :: k in records ==>
        records[k] == if key == Some(k.1) && k.1 != "" && k.0 == apiKey
                      then Record(old(records)[k].fingerprint, status, body, old(records)[k].createdAt)
                      else old(records)[k]
    {
      if key.None? || key.value == "" {
        return;
      }
      var k := (apiKey, key.value);
      if k in records {
        records := records[k := records[k].(status := status, body := body)];
      }
    }

    method ReleaseIdempotentClaim(apiKey: int, key: Option<string>)
      modifies this
      ensures records == if key.None? || key.value == "" then old(records)
                         else Released(old(records), (apiKey, key.value))
      ensures forall k :: k in records <==>
        k in old(records) && !(key == Some(k.1) && k.1 != "" && k.0 == apiKey && old(records)[k].status == PENDING)
      ensures forall k :: k in records ==> records[k] == old(records)[k]
    {
      if key.None? || key.value == "" {
        return;
      }
      var k := (apiKey, key.value);
      if k in records && records[k].status == PENDING {
        records := records - {k};
      }
    }

    method SweepStaleIdempotencyRecords(now: Instant) returns (deleted: nat)
      modifies this
      ensures records == Swept(old(records), now)
      ensures forall k :: k in records <==> k in old(records) && old(records)[k].createdAt >= now - TTL
      ensures forall k :: k in records ==> records[k] == old(records)[k]
      ensures deleted == |old(records)| - |records|
    {
      var cutoff := now - TTL;
      var stale := set k | k in records && records[k].createdAt < cutoff;
      deleted := |stale|;
      SweepCounts(records, now, stale);
      records := records - stale;
    }
  }

  // ------------------------------------------------------------------ the protocol

  type WorkerId = int

  /** Where a request is: not started, conflict seen, owner of its slot, or answered. */
  datatype Worker =
    | Idle
    | Contending(slot: Slot, fingerprint: string)
    | Owning(slot: Slot, fingerprint: string, since: Instant, done: bool)
    | Answered(slot: Slot, fingerprint: string, answer: Disposition)

  /** A response as an owner finalized it. */
  datatype Final = Final(slot: Slot, fingerprint: string, status: nat, body: string)

  /** The shared table, the workers, and what has happened to each slot since its row was
      last swept: how often the work succeeded, and how often a claim was released after
      its work had already succeeded. `worked` are the slots whose work has succeeded under
      the row they last had. */
  datatype System = System(
    table: Table,
    now: Instant,
    workers: map<WorkerId, Worker>,
    effects: map<Slot, nat>,
    lateReleases: map<Slot, nat>,
    worked: set<Slot>,
    finals: set<Final>)

  datatype Action =
    | Insert(w: WorkerId, slot: Slot, fingerprint: string)
    | Reread(w: WorkerId)
    | Work(w: WorkerId)
    | Finalize(w: WorkerId, status: nat, body: string)
    | Release(w: WorkerId)
    | Crash(w: WorkerId)
    | Sweep
    | Advance(t: Instant)

  function WorkerOf(s: System, w: WorkerId): Worker { if w in s.workers then s.workers[w] else Idle }

  function Count(m: map<Slot, nat>, k: Slot): nat { if k in m then m[k] else 0 }

  /** A worker follows claim, then work, then finalize or release, and may die anywhere; the
      clock does not run a live claim past its time to live. */
  ghost predicate Enabled(s: System, a: Action) {
    match a
    case Insert(w, _, _) => WorkerOf(s, w).Idle?
    case Reread(w) => WorkerOf(s, w).Contending?
    case Work(w) => WorkerOf(s, w).Owning? && !WorkerOf(s, w).done
    case Finalize(w, status, _) => WorkerOf(s, w).Owning? && WorkerOf(s, w).done && status != PENDING
    case Release(w) => WorkerOf(s, w).Owning?
    case Crash(_) => true
    case Sweep => true
    case Advance(t) => s.now <= t && forall w :: WorkerOf(s, w).Owning? ==> t <= WorkerOf(s, w).since + TTL
  }

  ghost function Next(s: System, a: Action): System
    requires Enabled(s, a)
  {
    match a
    case Insert(w, k, f) =>
      if k in s.table then s.(workers := s.workers[w := Contending(k, f)])
      else
        s.(table := Inserted(s.table, k, f, s.now), workers := s.workers[w := Owning(k, f, s.now, false)],
           worked := s.worked - {k})
    case Reread(w) =>
      var c := WorkerOf(s, w);
      s.(workers := s.workers[w := Answered(c.slot, c.fingerprint, Decide(s.table, c.slot, c.fingerprint))])
    case Work(w) =>
      var o := WorkerOf(s, w);
      s.(workers := s.workers[w := o.(done := true)], effects := s.effects[o.slot := Count(s.effects, o.slot) + 1],
         worked := s.worked + {o.slot})
    case Finalize(w, status, body) =>
      var o := WorkerOf(s, w);
      s.(table := Finalized(s.table, o.slot, status, body), workers := s.workers[w := Idle],
         finals := s.finals + {Final(o.slot, o.fingerprint, status, body)})
    case Release(w) =>
      var o := WorkerOf(s, w);
      s.(table := Released(s.table, o.slot), workers := s.workers[w := Idle],
         lateReleases := s.lateReleases[o.slot := Count(s.lateReleases, o.slot) + if o.done then 1 else 0])
    case Crash(w) => s.(workers := s.workers[w := Idle])
    case Sweep =>
      var gone := set k | k in s.table && Expired(s.table[k], s.now);
      s.(table := Swept(s.table, s.now), effects := s.effects - gone, lateReleases := s.lateReleases - gone)
    case Advance(t) => s.(now := t)
  }

  /** The steps of a claim, taken without a pause, are the one call: the insert wins a free slot, and
      a request that lost it is answered by the row it reads again. */
  lemma StepsComposeToClaim(s: System, w: WorkerId, k: Slot, f: string)
    requires WorkerOf(s, w).Idle?
    ensures var t := Next(s, Insert(w, k, f));
      if k in s.table then
        Enabled(t, Reread(w)) && t.table == s.table
        && WorkerOf(Next(t, Reread(w)), w) == Answered(k, f, Decide(s.table, k, f))
      else t.table == Inserted(s.table, k, f, s.now) && WorkerOf(t, w) == Owning(k, f, s.now, false)
  {}

  // ------------------------------------------------------------------ the invariant

  /** A live owner's row is still its own pending claim. */
  ghost predicate OwnsRow(s: System, w: WorkerId) {
    var o := WorkerOf(s, w);
    o.Owning? ==>
      && o.slot in s.table && s.table[o.slot].fingerprint == o.fingerprint
      && s.table[o.slot].status == PENDING && s.table[o.slot].createdAt == o.since
      && o.since <= s.now <= o.since + TTL
  }

  ghost predicate SoleOwner(s: System, v: WorkerId, w: WorkerId) {
    WorkerOf(s, v).Owning? && WorkerOf(s, w).Owning? && WorkerOf(s, v).slot == WorkerOf(s, w).slot ==> v == w
  }

  /** The slot has a row under which the work has succeeded. */
  predicate DoneUnderRow(s: System, k: Slot) { k in s.table && k in s.worked }

  /** The work has succeeded once for every claim released late, and once more if it has
      succeeded under the present row. */
  ghost predicate WorkCounted(s: System, k: Slot) {
    Count(s.effects, k) == Count(s.lateReleases, k) + if DoneUnderRow(s, k) then 1 else 0
  }

  ghost predicate PendingWork(s: System, w: WorkerId) {
    var o := WorkerOf(s, w);
    o.Owning? ==> (o.done <==> o.slot in s.worked)
  }

  /** A finished row holds a response finalized for its slot and fingerprint. */
  ghost predicate RowIsFinal(s: System, k: Slot) {
    k in s.table && s.table[k].status != PENDING ==>
      Final(k, s.table[k].fingerprint, s.table[k].status, s.table[k].body) in s.finals
  }

  ghost predicate ReplayIsFinal(s: System, w: WorkerId) {
    var a := WorkerOf(s, w);
    a.Answered? && a.answer.Replay? ==> Final(a.slot, a.fingerprint, a.answer.status, a.answer.body) in s.finals
  }

  ghost predicate Inv(s: System) {
    && (forall w :: OwnsRow(s, w) && PendingWork(s, w) && ReplayIsFinal(s, w))
    && (forall v, w :: SoleOwner(s, v, w))
    && (forall k :: WorkCounted(s, k) && RowIsFinal(s, k))
  }

  ghost predicate Initial(s: System) {
    s.table == map[] && s.workers == map[] && s.effects == map[] && s.lateReleases == map[]
    && s.worked == {} && s.finals == {}
  }

  lemma StepKeepsInv(s: System, a: Action)
    requires Inv(s) && Enabled(s, a)
    ensures Inv(Next(s, a))
  {
    var r := Next(s, a);
    forall w ensures OwnsRow(r, w) && PendingWork(r, w) && ReplayIsFinal(r, w) {
      assert OwnsRow(s, w) && PendingWork(s, w) && ReplayIsFinal(s, w);
      WorkerStep(s, a, w);
    }
    forall v, w ensures SoleOwner(r, v, w) {
      assert SoleOwner(s, v, w) && OwnsRow(s, v) && OwnsRow(s, w);
    }
    forall k ensures WorkCounted(r, k) && RowIsFinal(r, k) {
      SlotStep(s, a, k);
    }
  }

  lemma WorkerStep(s: System, a: Action, w: WorkerId)
    requires Inv(s) && Enabled(s, a)
    ensures var r := Next(s, a); OwnsRow(r, w) && PendingWork(r, w) && ReplayIsFinal(r, w)
  {
    assert OwnsRow(s, w) && PendingWork(s, w) && ReplayIsFinal(s, w);
    if a.Insert? {
      assert WorkCounted(s, a.slot);
    } else if a.Reread? {
      assert RowIsFinal(s, WorkerOf(s, a.w).slot);
    } else if a.Work? || a.Finalize? || a.Release? {
      assert SoleOwner(s, w, a.w);
    }
  }

  lemma SlotStep(s: System, a: Action, k: Slot)
    requires Inv(s) && Enabled(s, a)
    ensures var r := Next(s, a); WorkCounted(r, k) && RowIsFinal(r, k)
  {
    assert WorkCounted(s, k) && RowIsFinal(s, k);
    if a.Work? || a.Finalize? || a.Release? {
      assert OwnsRow(s, a.w) && PendingWork(s, a.w);
    }
  }

  // ------------------------------------------------------------------ whole runs

  ghost predicate IsRun(states: seq<System>, actions: seq<Action>) {
    |states| == |actions| + 1
    && forall i :: 0 <= i < |actions| ==> Enabled(states[i], actions[i]) && states[i + 1] == Next(states[i], actions[i])
  }

  lemma {:induction false} RunKeepsInv(states: seq<System>, actions: seq<Action>, n: nat)
    requires IsRun(states, actions) && Initial(states[0]) && n < |states|
    ensures Inv(states[n])
  {
    if n > 0 {
      RunKeepsInv(states, actions, n - 1);
      StepKeepsInv(states[n - 1], actions[n - 1]);
    }
  }

  /** In every state of every run a slot has at most one live owner. Since the last sweep of its
      row its work has succeeded exactly once per claim released late, and once more if it has
      succeeded under the present row. */
  lemma OwnersAndEffects(states: seq<System>, actions: seq<Action>, n: nat, v: WorkerId, w: WorkerId, k: Slot)
    requires IsRun(states, actions) && Initial(states[0]) && n < |states|
    ensures SoleOwner(states[n], v, w)
    ensures Count(states[n].effects, k)
      == Count(states[n].lateReleases, k) + if DoneUnderRow(states[n], k) then 1 else 0
  {
    RunKeepsInv(states, actions, n);
    assert WorkCounted(states[n], k);
  }

  /** So the work of a slot has succeeded at most once exactly when no claim was released late,
      or one was and the work has not been done again. */
  lemma AtMostOneEffectIff(states: seq<System>, actions: seq<Action>, n: nat, k: Slot)
    requires IsRun(states, actions) && Initial(states[0]) && n < |states|
    ensures var s := states[n];
      Count(s.effects, k) <= 1
      <==> Count(s.lateReleases, k) == 0 || (Count(s.lateReleases, k) == 1 && !DoneUnderRow(s, k))
  {
    OwnersAndEffects(states, actions, n, 0, 0, k);
  }

  /** A replay in any run is a response that was finalized, for that slot and that very
      fingerprint; a request with another fingerprint is never replayed to. */
  lemma ReplaysAreFinalized(states: seq<System>, actions: seq<Action>, n: nat, w: WorkerId)
    requires IsRun(states, actions) && Initial(states[0]) && n < |actions| && actions[n] == Reread(w)
    requires WorkerOf(states[n + 1], w).Answered? && WorkerOf(states[n + 1], w).answer.Replay?
    ensures var c, a := WorkerOf(states[n], w), WorkerOf(states[n + 1], w).answer;
      Final(c.slot, c.fingerprint, a.status, a.body) in states[n].finals
      && states[n].table[c.slot].fingerprint == c.fingerprint
  {
    RunKeepsInv(states, actions, n);
    assert RowIsFinal(states[n], WorkerOf(states[n], w).slot);
  }

  /** What was finalized came from an owner of the slot with that fingerprint, whose work
      had succeeded. */
  lemma {:induction false} FinalsComeFromOwners(states: seq<System>, actions: seq<Action>, n: nat, f: Final)
    requires IsRun(states, actions) && n < |states| && f in states[n].finals && f !in states[0].finals
    ensures exists i :: 0 <= i < n && actions[i].Finalize? && Finalizes(states[i], actions[i], f)
  {
    if f in states[n - 1].finals {
      FinalsComeFromOwners(states, actions, n - 1, f);
    } else {
      assert Finalizes(states[n - 1], actions[n - 1], f);
    }
  }

  ghost predicate Finalizes(s: System, a: Action, f: Final) {
    a.Finalize? && WorkerOf(s, a.w).Owning? && WorkerOf(s, a.w).done
    && f == Final(WorkerOf(s, a.w).slot, WorkerOf(s, a.w).fingerprint, a.status, a.body)
  }

  // ------------------------------------------------------------------ what an answer means

  lemma StepOfRun(states: seq<System>, actions: seq<Action>, i: nat)
    requires IsRun(states, actions) && i < |actions|
    ensures Enabled(states[i], actions[i]) && states[i + 1] == Next(states[i], actions[i])
  {}

  lemma TimePasses(s: System, a: Action)
    requires Enabled(s, a)
    ensures s.now <= Next(s, a).now
  {}

  lemma StepKeepsFinished(s: System, a: Action, k: Slot)
    requires Inv(s) && Enabled(s, a) && k in s.table && s.table[k].status != PENDING
    requires Next(s, a).now <= s.table[k].createdAt + TTL
    ensures k in Next(s, a).table && Next(s, a).table[k] == s.table[k]
  {
    if a.Finalize? || a.Release? { assert OwnsRow(s, a.w); }
  }

  /** A finished row is never touched again until it is older than the time to live. */
  lemma {:induction false} FinishedRowStays(states: seq<System>, actions: seq<Action>, m: nat, n: nat, k: Slot)
    requires IsRun(states, actions) && Initial(states[0]) && m <= n < |states|
    requires k in states[m].table && states[m].table[k].status != PENDING
    requires states[n].now <= states[m].table[k].createdAt + TTL
    ensures k in states[n].table && states[n].table[k] == states[m].table[k]
  {
    if m < n {
      TimePasses(states[n - 1], actions[n - 1]);
      FinishedRowStays(states, actions, m, n - 1, k);
      RunKeepsInv(states, actions, n - 1);
      StepKeepsFinished(states[n - 1], actions[n - 1], k);
    }
  }

  /** The replay contract: for as long as the time to live lasts, the same request is answered with
      the status and body its row was finished with. */
  lemma ReplayLasts(states: seq<System>, actions: seq<Action>, m: nat, n: nat, w: WorkerId, k: Slot, f: string)
    requires IsRun(states, actions) && Initial(states[0]) && m <= n < |actions|
    requires k in states[m].table && states[m].table[k].status != PENDING && states[m].table[k].fingerprint == f
    requires actions[n] == Reread(w) && WorkerOf(states[n], w) == Contending(k, f)
    requires states[n].now <= states[m].table[k].createdAt + TTL
    ensures WorkerOf(states[n + 1], w)
      == Answered(k, f, Replay(states[m].table[k].status, states[m].table[k].body))
  {
    FinishedRowStays(states, actions, m, n, k);
    assert Enabled(states[n], actions[n]) && states[n + 1] == Next(states[n], actions[n]);
  }

  /** Step `i` claimed the slot for fingerprint `f`, and that row is still there at state `n`. */
  ghost predicate ClaimedAt(states: seq<System>, actions: seq<Action>, i: nat, n: nat, k: Slot, f: string)
    requires IsRun(states, actions) && n < |states|
  {
    && i < n && actions[i].Insert? && actions[i].slot == k && actions[i].fingerprint == f && k !in states[i].table
    && forall j :: i < j <= n ==> k in states[j].table
  }

  /** A worker that owns the slot finalizes it at step `j`. */
  ghost predicate FinalizesSlot(s: System, a: Action, k: Slot) {
    a.Finalize? && WorkerOf(s, a.w).Owning? && WorkerOf(s, a.w).slot == k
  }

  ghost predicate FinalizedSince(states: seq<System>, actions: seq<Action>, i: nat, n: nat, k: Slot)
    requires IsRun(states, actions) && n < |states|
  {
    exists j :: i < j < n && FinalizesSlot(states[j], actions[j], k)
  }

  /** A row keeps its fingerprint, and is pending until it is finalized. */
  lemma StepKeepsRow(s: System, a: Action, k: Slot)
    requires Enabled(s, a) && k in s.table && k in Next(s, a).table
    ensures var before, after := s.table[k], Next(s, a).table[k];
      && after.fingerprint == before.fingerprint
      && (after.status == PENDING <==> before.status == PENDING && !FinalizesSlot(s, a, k))
  {}

  /** Every row was claimed by some insert of this run and holds its fingerprint; it is pending
      exactly as long as nobody has finalized it since. */
  lemma {:induction false} RowWasClaimed(states: seq<System>, actions: seq<Action>, n: nat, k: Slot)
      returns (i: nat)
    requires IsRun(states, actions) && Initial(states[0]) && n < |states| && k in states[n].table
    ensures ClaimedAt(states, actions, i, n, k, states[n].table[k].fingerprint)
    ensures states[n].table[k].status == PENDING <==> !FinalizedSince(states, actions, i, n, k)
  {
    var s, a := states[n - 1], actions[n - 1];
    assert Enabled(s, a) && states[n] == Next(s, a);
    if k in s.table {
      i := RowWasClaimed(states, actions, n - 1, k);
      StepKeepsRow(s, a, k);
      if FinalizesSlot(s, a, k) { assert FinalizedSince(states, actions, i, n, k); }
      if FinalizedSince(states, actions, i, n - 1, k) {
        var j :| i < j < n - 1 && FinalizesSlot(states[j], actions[j], k);
        assert FinalizedSince(states, actions, i, n, k);
      }
    } else {
      i := n - 1;
    }
  }

  /** A row has one claim. */
  lemma ClaimIsUnique(states: seq<System>, actions: seq<Action>, i: nat, j: nat, n: nat, k: Slot, f: string, g: string)
    requires IsRun(states, actions) && n < |states|
    requires ClaimedAt(states, actions, i, n, k, f) && ClaimedAt(states, actions, j, n, k, g)
    ensures i == j && f == g
  {}

  /** What a request that lost the insert is told, read off the run: the row is gone exactly when
      nobody's claim stands; it is a mismatch exactly when the claim that stands is for another
      fingerprint; and with its own fingerprint the answer is in flight or a replay exactly as
      that claim has not or has been finalized. */
  lemma AnswersMean(states: seq<System>, actions: seq<Action>, n: nat, w: WorkerId)
    requires IsRun(states, actions) && Initial(states[0]) && n < |actions| && actions[n] == Reread(w)
    ensures WorkerOf(states[n], w).Contending? && WorkerOf(states[n + 1], w).Answered?
    ensures var c, a := WorkerOf(states[n], w), WorkerOf(states[n + 1], w).answer;
      && (a == Vanished <==> forall i: nat, f :: !ClaimedAt(states, actions, i, n, c.slot, f))
      && (a == Mismatch <==>
            exists i: nat, f :: ClaimedAt(states, actions, i, n, c.slot, f) && f != c.fingerprint)
      && (a == InFlight <==>
            exists i: nat :: ClaimedAt(states, actions, i, n, c.slot, c.fingerprint)
                             && !FinalizedSince(states, actions, i, n, c.slot))
      && (a.Replay? <==>
            exists i: nat :: ClaimedAt(states, actions, i, n, c.slot, c.fingerprint)
                             && FinalizedSince(states, actions, i, n, c.slot))
  {
    var c := WorkerOf(states[n], w);
    assert Enabled(states[n], actions[n]) && states[n + 1] == Next(states[n], actions[n]);
    if c.slot in states[n].table {
      var i := RowWasClaimed(states, actions, n, c.slot);
      forall j: nat, f | ClaimedAt(states, actions, j, n, c.slot, f)
        ensures j == i && f == states[n].table[c.slot].fingerprint
      {
        ClaimIsUnique(states, actions, i, j, n, c.slot, states[n].table[c.slot].fingerprint, f);
      }
    }
  }

  // ------------------------------------------------------------------ abandoned claims

  /** The slot's claim is pending and no worker owns it any more. */
  ghost predicate Orphaned(s: System, k: Slot, f: string, since: Instant) {
    && k in s.table && s.table[k].status == PENDING && s.table[k].fingerprint == f && s.table[k].createdAt == since
    && forall w :: WorkerOf(s, w).Owning? ==> WorkerOf(s, w).slot != k
  }

  /** A worker that dies leaves its claim behind. */
  lemma CrashOrphans(s: System, w: WorkerId)
    requires Inv(s) && WorkerOf(s, w).Owning?
    ensures var o := WorkerOf(s, w); Orphaned(Next(s, Crash(w)), o.slot, o.fingerprint, o.since)
  {
    var o := WorkerOf(s, w);
    assert OwnsRow(s, w);
    forall v | WorkerOf(Next(s, Crash(w)), v).Owning? ensures WorkerOf(Next(s, Crash(w)), v).slot != o.slot {
      assert SoleOwner(s, v, w);
    }
  }

  lemma StepKeepsOrphan(s: System, a: Action, k: Slot, f: string, since: Instant)
    requires Enabled(s, a) && Orphaned(s, k, f, since) && Next(s, a).now <= since + TTL
    ensures Orphaned(Next(s, a), k, f, since)
  {
    forall w | WorkerOf(Next(s, a), w).Owning? ensures WorkerOf(Next(s, a), w).slot != k {
      if !(a.Insert? && a.w == w) {
        assert WorkerOf(s, w).Owning? && WorkerOf(s, w).slot == WorkerOf(Next(s, a), w).slot;
      }
    }
  }

  ghost predicate KeepsOrphan(s: System, t: System, k: Slot, f: string, since: Instant) {
    t.now <= since + TTL ==> s.now <= since + TTL && (Orphaned(s, k, f, since) ==> Orphaned(t, k, f, since))
  }

  lemma StepOfRunKeepsOrphan(states: seq<System>, actions: seq<Action>, i: nat, k: Slot, f: string, since: Instant)
    requires IsRun(states, actions) && i < |actions|
    ensures KeepsOrphan(states[i], states[i + 1], k, f, since)
  {
    StepOfRun(states, actions, i);
    TimePasses(states[i], actions[i]);
    if states[i + 1].now <= since + TTL && Orphaned(states[i], k, f, since) {
      StepKeepsOrphan(states[i], actions[i], k, f, since);
    }
  }

  lemma {:induction false} OrphanStays(states: seq<System>, m: nat, n: nat, k: Slot, f: string, since: Instant)
    requires m <= n < |states| && forall i :: m <= i < n ==> KeepsOrphan(states[i], states[i + 1], k, f, since)
    requires Orphaned(states[m], k, f, since) && states[n].now <= since + TTL
    ensures Orphaned(states[n], k, f, since)
  {
    if m < n {
      assert KeepsOrphan(states[n - 1], states[n - 1 + 1], k, f, since);
      OrphanStays(states, m, n - 1, k, f, since);
    }
  }

  /** For as long as the time to live lasts nobody can have the slot of a dead worker: the same
      request is told that it is in flight, whatever else happens. */
  lemma CrashBlocks(states: seq<System>, actions: seq<Action>, m: nat, n: nat, v: WorkerId, w: WorkerId)
    requires IsRun(states, actions) && Initial(states[0]) && m < n < |actions|
    requires actions[m] == Crash(v) && WorkerOf(states[m], v).Owning?
    requires var o := WorkerOf(states[m], v);
      actions[n] == Reread(w) && WorkerOf(states[n], w) == Contending(o.slot, o.fingerprint)
      && states[n].now <= o.since + TTL
    ensures var o := WorkerOf(states[m], v); WorkerOf(states[n + 1], w) == Answered(o.slot, o.fingerprint, InFlight)
  {
    var o := WorkerOf(states[m], v);
    RunKeepsInv(states, actions, m);
    StepOfRun(states, actions, m);
    StepOfRun(states, actions, n);
    CrashOrphans(states[m], v);
    forall i | m < i < n ensures KeepsOrphan(states[i], states[i + 1], o.slot, o.fingerprint, o.since) {
      StepOfRunKeepsOrphan(states, actions, i, o.slot, o.fingerprint, o.since);
    }
    OrphanStays(states, m + 1, n, o.slot, o.fingerprint, o.since);
  }

  /** Then the sweep frees it, and a retry owns it. */
  lemma SweepFreesOrphan(s: System, k: Slot, f: string, since: Instant, t: Instant, w: WorkerId)
    requires Orphaned(s, k, f, since) && Enabled(s, Advance(t)) && WorkerOf(s, w).Idle?
    ensures var swept := Next(Next(s, Advance(t)), Sweep);
      && (k in swept.table <==> t <= since + TTL)
      && (k !in swept.table ==> WorkerOf(Next(swept, Insert(w, k, f)), w) == Owning(k, f, t, false))
  {}

  // ------------------------------------------------------------------ both conditions are needed

  /** Late releases happen: a claim released after its work succeeded lets it succeed again. */
  lemma LateReleaseRepeatsWork(s: System, v: WorkerId, w: WorkerId, k: Slot, f: string)
    requires Inv(s) && v != w && WorkerOf(s, v).Idle? && WorkerOf(s, w).Idle? && k !in s.table
    ensures var actions := [Insert(v, k, f), Work(v), Release(v), Insert(w, k, f), Work(w)];
      exists states: seq<System> :: IsRun(states, actions) && states[0] == s
        && Count(states[5].effects, k) == Count(s.effects, k) + 2
        && Count(states[5].lateReleases, k) == Count(s.lateReleases, k) + 1
  {
    var a := [Insert(v, k, f), Work(v), Release(v), Insert(w, k, f), Work(w)];
    var s1 := Next(s, a[0]);
    var s2 := Next(s1, a[1]);
    var s3 := Next(s2, a[2]);
    var s4 := Next(s3, a[3]);
    var s5 := Next(s4, a[4]);
    var states := [s, s1, s2, s3, s4, s5];
    assert IsRun(states, a);
  }

  /** A claim that outlives the time to live loses its row to the sweep, and the slot can
      have two live owners. */
  lemma OverdueClaimLosesSlot(s: System, v: WorkerId, w: WorkerId)
    requires WorkerOf(s, v).Owning? && WorkerOf(s, w).Idle?
    requires WorkerOf(s, v).slot in s.table && s.table[WorkerOf(s, v).slot].createdAt == WorkerOf(s, v).since
    requires s.now > WorkerOf(s, v).since + TTL
    ensures var o := WorkerOf(s, v);
      !SoleOwner(Next(Next(s, Sweep), Insert(w, o.slot, o.fingerprint)), v, w)
  {}
}
