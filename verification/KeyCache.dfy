/**
 Bearer-key verification over per-worker row caches: how long a revocation or a scope
 change can go unnoticed.
 */
module KeyCache {
  import opened Common
  import opened Token

  type UserId = int
  type WorkspaceId = int
  type AccountId = int
  type CacheId = int
  type RequestId = int

  const REVOCATION_CACHE_TTL: int := 30_000_000 // microseconds

  const PERMISSION_KEYS: set<string> := {
    "create_posts", "edit_others_posts", "approve_posts", "publish_directly", "manage_social_accounts",
    "view_analytics", "use_inbox", "reply_from_inbox", "manage_workspace_settings", "upload_media",
    "edit_media", "delete_media", "manage_media"}

  datatype ApiKey = ApiKey(
    workspace: WorkspaceId, issuedBy: Option<UserId>, tokenHash: string, permissions: set<string>,
    accounts: set<AccountId>,
    expiresAt: Option<Instant>, revokedAt: Option<Instant>)

  /** Neither revoked nor past its expiry. */
  predicate IsActive(k: ApiKey, now: Instant) {
    k.revokedAt.None? && !(k.expiresAt.Some? && k.expiresAt.value <= now)
  }

  /** Current workspace memberships with their effective permissions. */
  type Members = map<(UserId, WorkspaceId), set<string>>

  predicate IssuerAuthorized(k: ApiKey, members: Members) {
    k.issuedBy.Some? && (k.issuedBy.value, k.workspace) in members
  }

  /** The final checks on a row, cached or fresh, against the presented secret's hash. */
  predicate Accepts(k: ApiKey, hash: string, now: Instant, members: Members) {
    IsActive(k, now) && k.tokenHash == hash && IssuerAuthorized(k, members)
  }

  /** Key permissions shrunk to what the issuer holds now. */
  function Effective(k: ApiKey, members: Members): set<string> {
    if k.issuedBy.Some? && (k.issuedBy.value, k.workspace) in members
    then k.permissions * members[(k.issuedBy.value, k.workspace)] else {}
  }

  // ------------------------------------------------------------------ one worker's verification

  datatype Cached = Cached(key: ApiKey, readAt: Instant, expires: Instant)

  type Cache = map<string, Cached>

  predicate Hit(c: Cache, lookup: string, now: Instant) { lookup in c && now < c[lookup].expires }

  function Stored(c: Cache, lookup: string, key: ApiKey, readAt: Instant, now: Instant): Cache {
    if IsActive(key, now) then c[lookup := Cached(key, readAt, now + REVOCATION_CACHE_TTL)] else c
  }

  /** What a verification that saw `key` leaves in the cache: an inactive or orphaned key goes. */
  function AfterCheck(c: Cache, lookup: string, key: ApiKey, hash: string, now: Instant, members: Members): Cache {
    if !IsActive(key, now) || (key.tokenHash == hash && !IssuerAuthorized(key, members)) then c - {lookup} else c
  }

  /** One whole verification: the row it works on, its verdict, and the cache it leaves. */
  function Verification(c: Cache, rows: map<string, ApiKey>, lookup: string, hash: string, now: Instant,
                        members: Members)
    : (Option<ApiKey>, Cache)
  {
    if !Hit(c, lookup, now) && lookup !in rows then (None, c)
    else
      var key := if Hit(c, lookup, now) then c[lookup].key else rows[lookup];
      var c1 := if Hit(c, lookup, now) then c else Stored(c, lookup, key, now, now);
      (if Accepts(key, hash, now, members) then Some(key) else None, AfterCheck(c1, lookup, key, hash, now, members))
  }

  /** The row a verification works on: the cached one while its entry lasts, else the stored one. */
  ghost predicate RowSeen(c: Cache, rows: map<string, ApiKey>, lookup: string, now: Instant, key: ApiKey) {
    || (lookup in c && now < c[lookup].expires && c[lookup].key == key)
    || (!(lookup in c && now < c[lookup].expires) && lookup in rows && rows[lookup] == key)
  }

  /** A verification succeeds, and with the row it saw, exactly when that row is not revoked, not
      past an expiry, carries the hash of the secret presented, and its issuer is a member. */
  lemma VerifiesIff(c: Cache, rows: map<string, ApiKey>, lookup: string, hash: string, now: Instant,
                    members: Members, key: ApiKey)
    ensures Verification(c, rows, lookup, hash, now, members).0 == Some(key)
      <==> && RowSeen(c, rows, lookup, now, key)
           && key.revokedAt.None? && (key.expiresAt.Some? ==> now < key.expiresAt.value) && key.tokenHash == hash
           && key.issuedBy.Some? && (key.issuedBy.value, key.workspace) in members
  {}

  /** The key tables as one worker sees them: the shared rows and its own cache. */
  class KeyService {
    var rows: map<string, ApiKey>
    var members: Members
    var managers: set<(UserId, WorkspaceId)>      // who may manage keys in the workspace's organization
    var accountsOf: map<AccountId, WorkspaceId>   // connected accounts
    var cache: Cache
    const lookup: Digest
    const hmac: string -> string

    constructor (lookup: Digest, hmac: string -> string)
      ensures rows == map[] && members == map[] && cache == map[] && managers == {} && accountsOf == map[]
      ensures this.lookup == lookup && this.hmac == hmac
    {
      this.lookup, this.hmac := lookup, hmac;
      rows, members, cache, managers, accountsOf := map[], map[], map[], {}, map[];
    }

    method VerifyToken(raw: string, now: Instant) returns (result: Option<ApiKey>)
      modifies this`cache
      ensures var parsed := ParseToken(raw, lookup);
        (result, cache) ==
          if parsed.None? then (None, old(cache))
          else Verification(old(cache), rows, parsed.value.lookupPrefix, hmac(parsed.value.randomPart), now, members)
    {
      var parsed := ParseToken(raw, lookup);
      if parsed.None? {
        return None;
      }
      var prefix := parsed.value.lookupPrefix;
      var key;
      if Hit(cache, prefix, now) {
        key := cache[prefix].key;
      } else {
        if prefix !in rows {
          return None;
        }
        key := rows[prefix];
        cache := Stored(cache, prefix, key, now, now);
      }
      if !IsActive(key, now) {
        cache := cache - {prefix};
        return None;
      }
      if hmac(parsed.value.randomPart) != key.tokenHash {
        return None;
      }
      if !IssuerAuthorized(key, members) {
        cache := cache - {prefix};
        return None;
      }
      return Some(key);
    }

    method InvalidateApiKeyCache(prefix: string)
      modifies this`cache
      ensures cache == old(cache) - {prefix}
    {
      cache := cache - {prefix};
    }

    /** Marks the key revoked, once, and busts this worker's cache. */
    method RevokeApiKey(prefix: string, now: Instant)
      requires prefix in rows
      modifies this`rows, this`cache
      ensures rows == old(rows)[prefix := old(rows)[prefix].(revokedAt :=
        if old(rows)[prefix].revokedAt.None? then Some(now) else old(rows)[prefix].revokedAt)]
      ensures cache == old(cache) - {prefix}
    {
      if rows[prefix].revokedAt.None? {
        rows := rows[prefix := rows[prefix].(revokedAt := Some(now))];
      }
      InvalidateApiKeyCache(prefix);
    }

    /** Edits a key in place, if the editor manages keys here, is a member of the workspace, and
        names at least one account, all of the workspace. Otherwise nothing changes. */
    method UpdateApiKey(prefix: string, editor: UserId, requested: set<string>, accounts: set<AccountId>,
                        expiresAt: Option<Instant>)
      returns (updated: bool)
      requires prefix in rows
      modifies this`rows, this`cache
      ensures var w := old(rows)[prefix].workspace;
        updated <==> (editor, w) in managers && (editor, w) in members && accounts != {}
                     && forall a :: a in accounts ==> a in accountsOf && accountsOf[a] == w
      ensures !updated ==> rows == old(rows) && cache == old(cache)
      ensures updated ==>
        var key := old(rows)[prefix];
        var grantable := members[(editor, key.workspace)] * PERMISSION_KEYS;
        && prefix in rows
        && rows == old(rows)[prefix := key.(
             permissions := rows[prefix].permissions, accounts := accounts, expiresAt := expiresAt)]
        && (forall p :: p in rows[prefix].permissions <==> p in (if p in grantable then requested else key.permissions))
        && cache == old(cache) - {prefix}
    {
      var key := rows[prefix];
      if (editor, key.workspace) !in managers || (editor, key.workspace) !in members {
        return false;
      }
      if accounts == {} || exists a :: a in accounts && !(a in accountsOf && accountsOf[a] == key.workspace) {
        return false;
      }
      var grantable := members[(editor, key.workspace)] * PERMISSION_KEYS;
      var permissions := (requested * grantable) + (key.permissions - grantable);
      rows := rows[prefix := key.(permissions := permissions, accounts := accounts, expiresAt := expiresAt)];
      InvalidateApiKeyCache(prefix);
      return true;
    }
  }

  // ------------------------------------------------------------------ many workers

  /** A key row as written at an instant; the last version is the stored row. */
  datatype Version = Version(at: Instant, key: ApiKey)

  datatype Request =
    | Idle
    | Missed(cache: CacheId, lookup: string, hash: string, startedAt: Instant)
    | Fetched(cache: CacheId, lookup: string, hash: string, startedAt: Instant, key: ApiKey, readAt: Instant,
              version: nat)
    | Holding(cache: CacheId, lookup: string, hash: string, startedAt: Instant, key: ApiKey, readAt: Instant,
              version: nat)
    | Verified(lookup: string, startedAt: Instant, key: ApiKey, readAt: Instant)
    | Rejected(lookup: string, startedAt: Instant)

  /** `gap` bounds the time between a verification's database read and its cache write;
      `stored` records for each cache entry how many versions of the row had been written when
      it was read. */
  datatype System = System(
    gap: nat,
    now: Instant,
    history: map<string, seq<Version>>,
    caches: map<CacheId, Cache>,
    stored: map<(CacheId, string), nat>,
    members: Members,
    requests: map<RequestId, Request>)

  datatype Action =
    | Start(r: RequestId, cache: CacheId, lookup: string, hash: string)
    | Fetch(r: RequestId)
    | Store(r: RequestId)
    | Check(r: RequestId)
    | Write(lookup: string, key: ApiKey)   // issue, update or revoke
    | Bust(cache: CacheId, lookup: string) // the writer's own cache, some time after
    | SetMember(user: UserId, workspace: WorkspaceId, permissions: Option<set<string>>)
    | Advance(t: Instant)

  function Versions(s: System, lookup: string): seq<Version> { if lookup in s.history then s.history[lookup] else [] }

  function CacheOf(s: System, c: CacheId): Cache { if c in s.caches then s.caches[c] else map[] }

  function StoredVersion(s: System, c: CacheId, l: string): nat { if (c, l) in s.stored then s.stored[(c, l)] else 0 }

  function RequestOf(s: System, r: RequestId): Request { if r in s.requests then s.requests[r] else Idle }

  /** Nothing un-revokes a key; reads are stored within the gap. */
  ghost predicate Enabled(s: System, a: Action) {
    match a
    case Start(r, _, _, _) => RequestOf(s, r).Idle?
    case Fetch(r) => RequestOf(s, r).Missed?
    case Store(r) => RequestOf(s, r).Fetched?
    case Check(r) => RequestOf(s, r).Holding?
    case Write(l, key) =>
      var vs := Versions(s, l);
      vs != [] && vs[|vs| - 1].key.revokedAt.Some? ==> key.revokedAt == vs[|vs| - 1].key.revokedAt
    case Bust(_, _) => true
    case SetMember(_, _, _) => true
    case Advance(t) => s.now <= t && forall r :: RequestOf(s, r).Fetched? ==> t <= RequestOf(s, r).readAt + s.gap
  }

  ghost function Next(s: System, a: Action): System
    requires Enabled(s, a)
  {
    match a
    case Start(r, c, l, h) =>
      var cache := CacheOf(s, c);
      s.(requests := s.requests[r :=
        if Hit(cache, l, s.now) then Holding(c, l, h, s.now, cache[l].key, cache[l].readAt, StoredVersion(s, c, l))
        else Missed(c, l, h, s.now)])
    case Fetch(r) =>
      var q := RequestOf(s, r);
      var vs := Versions(s, q.lookup);
      s.(requests := s.requests[r :=
        if vs == [] then Rejected(q.lookup, q.startedAt)
        else Fetched(q.cache, q.lookup, q.hash, q.startedAt, vs[|vs| - 1].key, s.now, |vs|)])
    case Store(r) =>
      var q := RequestOf(s, r);
      s.(caches := s.caches[q.cache := Stored(CacheOf(s, q.cache), q.lookup, q.key, q.readAt, s.now)],
         stored := if IsActive(q.key, s.now) then s.stored[(q.cache, q.lookup) := q.version] else s.stored,
         requests := s.requests[r := Holding(q.cache, q.lookup, q.hash, q.startedAt, q.key, q.readAt, q.version)])
    case Check(r) =>
      var q := RequestOf(s, r);
      s.(caches := s.caches[q.cache := AfterCheck(CacheOf(s, q.cache), q.lookup, q.key, q.hash, s.now, s.members)],
         requests := s.requests[r :=
           if Accepts(q.key, q.hash, s.now, s.members) then Verified(q.lookup, q.startedAt, q.key, q.readAt)
           else Rejected(q.lookup, q.startedAt)])
    case Write(l, key) => s.(history := s.history[l := Versions(s, l) + [Version(s.now, key)]])
    case Bust(c, l) => s.(caches := s.caches[c := CacheOf(s, c) - {l}])
    case SetMember(u, w, p) =>
      s.(members := if p.Some? then s.members[(u, w) := p.value] else s.members - {(u, w)})
    case Advance(t) => s.(now := t)
  }

  /** The four steps of a verification, taken without a pause, are the one-worker verification. */
  lemma StepsComposeToVerification(s: System, r: RequestId, c: CacheId, l: string, h: string)
    requires RequestOf(s, r).Idle? && Versions(s, l) != []
    ensures var row := Versions(s, l)[|Versions(s, l)| - 1].key;
      var (result, cache) := Verification(CacheOf(s, c), map[l := row], l, h, s.now, s.members);
      var s1 := Next(s, Start(r, c, l, h));
      var s2 := if RequestOf(s1, r).Missed? then Next(Next(s1, Fetch(r)), Store(r)) else s1;
      var done := Next(s2, Check(r));
      CacheOf(done, c) == cache
      && (if result.Some? then RequestOf(done, r).Verified? && RequestOf(done, r).key == result.value
          else RequestOf(done, r).Rejected?)
  {}

  // ------------------------------------------------------------------ the invariant

  /** `key` was the stored row at instant `t`. */
  ghost predicate StoredAt(vs: seq<Version>, key: ApiKey, t: Instant) {
    exists i :: 0 <= i < |vs| && Spans(vs, i, key, t)
  }

  ghost predicate Spans(vs: seq<Version>, i: nat, key: ApiKey, t: Instant)
    requires i < |vs|
  {
    vs[i].key == key && vs[i].at <= t && (i + 1 < |vs| ==> t <= vs[i + 1].at)
  }

  /** Versions are in time order, and a revoked key stays revoked. */
  ghost predicate Sound(vs: seq<Version>, now: Instant) {
    && (forall i :: 0 <= i < |vs| ==> vs[i].at <= now)
    && forall i, j :: 0 <= i < j < |vs| ==>
      vs[i].at <= vs[j].at && (vs[i].key.revokedAt.Some? ==> vs[j].key.revokedAt.Some?)
  }

  /** A cached row was the stored one when read, and lives no longer than read + gap + 30 s. */
  ghost predicate EntryOk(s: System, c: CacheId, l: string) {
    l in CacheOf(s, c) ==>
      var e := CacheOf(s, c)[l];
      && StoredAt(Versions(s, l), e.key, e.readAt) && e.readAt <= s.now
      && e.expires <= e.readAt + s.gap + REVOCATION_CACHE_TTL
  }

  /** A request works on a row that was stored at an instant inside its staleness window. */
  ghost predicate RequestOk(s: System, r: RequestId) {
    var q := RequestOf(s, r);
    && (q.Missed? ==> q.startedAt <= s.now)
    && (q.Fetched? ==>
          q.startedAt <= q.readAt <= s.now <= q.readAt + s.gap
          && StoredAt(Versions(s, q.lookup), q.key, q.readAt))
    && (q.Holding? || q.Verified? ==>
          q.startedAt < q.readAt + s.gap + REVOCATION_CACHE_TTL && q.readAt <= s.now
          && StoredAt(Versions(s, q.lookup), q.key, q.readAt))
    && (q.Verified? ==> q.key.revokedAt.None?)
  }

  ghost predicate Inv(s: System) {
    && (forall l :: Sound(Versions(s, l), s.now))
    && (forall c, l :: EntryOk(s, c, l))
    && forall r :: RequestOk(s, r)
  }

  ghost predicate Initial(s: System) {
    s.history == map[] && s.caches == map[] && s.stored == map[] && s.requests == map[]
  }

  lemma AppendKeepsStored(vs: seq<Version>, v: Version, key: ApiKey, t: Instant)
    requires StoredAt(vs, key, t) && t <= v.at
    ensures StoredAt(vs + [v], key, t)
  {
    var i :| 0 <= i < |vs| && Spans(vs, i, key, t);
    assert Spans(vs + [v], i, key, t);
  }

  lemma LastIsStored(vs: seq<Version>, now: Instant)
    requires vs != [] && Sound(vs, now)
    ensures StoredAt(vs, vs[|vs| - 1].key, now)
  {
    assert Spans(vs, |vs| - 1, vs[|vs| - 1].key, now);
  }

  lemma WriteKeepsStored(s: System, a: Action, l: string, key: ApiKey, t: Instant)
    requires Inv(s) && Enabled(s, a) && StoredAt(Versions(s, l), key, t) && t <= s.now
    ensures StoredAt(Versions(Next(s, a), l), key, t)
  {
    if a.Write? && a.lookup == l { AppendKeepsStored(Versions(s, l), Version(s.now, a.key), key, t); }
  }

  lemma StepKeepsEntry(s: System, a: Action, c: CacheId, l: string)
    requires Inv(s) && Enabled(s, a)
    ensures EntryOk(Next(s, a), c, l)
  {
    assert EntryOk(s, c, l);
    if a.Store? { assert RequestOk(s, a.r); }
    if l in CacheOf(s, c) { WriteKeepsStored(s, a, l, CacheOf(s, c)[l].key, CacheOf(s, c)[l].readAt); }
  }

  /** A step taken by other requests, or by none, leaves a request as it was. */
  lemma OtherStepKeepsRequest(s: System, a: Action, r: RequestId)
    requires Inv(s) && Enabled(s, a) && RequestOf(Next(s, a), r) == RequestOf(s, r)
    ensures RequestOk(Next(s, a), r)
  {
    assert RequestOk(s, r);
    var q := RequestOf(s, r);
    if q.Fetched? || q.Holding? || q.Verified? { WriteKeepsStored(s, a, q.lookup, q.key, q.readAt); }
  }

  lemma OwnStepKeepsRequest(s: System, a: Action, r: RequestId)
    requires Inv(s) && Enabled(s, a)
    requires (a.Start? || a.Fetch? || a.Store? || a.Check?) && a.r == r
    ensures RequestOk(Next(s, a), r)
  {
    assert RequestOk(s, r);
    if a.Start? { assert EntryOk(s, a.cache, a.lookup); }
    if a.Fetch? && Versions(s, RequestOf(s, r).lookup) != [] {
      assert Sound(Versions(s, RequestOf(s, r).lookup), s.now);
      LastIsStored(Versions(s, RequestOf(s, r).lookup), s.now);
    }
  }

  lemma StepKeepsRequest(s: System, a: Action, r: RequestId)
    requires Inv(s) && Enabled(s, a)
    ensures RequestOk(Next(s, a), r)
  {
    if (a.Start? || a.Fetch? || a.Store? || a.Check?) && a.r == r {
      OwnStepKeepsRequest(s, a, r);
    } else {
      OtherStepKeepsRequest(s, a, r);
    }
  }

  lemma StepKeepsInv(s: System, a: Action)
    requires Inv(s) && Enabled(s, a)
    ensures Inv(Next(s, a))
  {
    var t := Next(s, a);
    forall l ensures Sound(Versions(t, l), t.now) {
      assert Sound(Versions(s, l), s.now);
    }
    forall c, l ensures EntryOk(t, c, l) { StepKeepsEntry(s, a, c, l); }
    forall r ensures RequestOk(t, r) { StepKeepsRequest(s, a, r); }
  }

  ghost predicate IsRun(states: seq<System>, actions: seq<Action>) {
    |states| == |actions| + 1
    && forall i :: 0 <= i < |actions| ==> Enabled(states[i], actions[i]) && states[i + 1] == Next(states[i], actions[i])
  }

  lemma {:induction false} RunKeepsInv(states: seq<System>, actions: seq<Action>, n: nat)
    requires IsRun(states, actions) && Initial(states[0]) && n < |states|
    ensures Inv(states[n])
  {
    if n > 0 {
      RunKeepsInv(states, actions, n - 1);
      StepKeepsInv(states[n - 1], actions[n - 1]);
    }
  }

  // ------------------------------------------------------------------ bounded staleness

  /** In every run, a verification that starts 30 seconds (plus the read-to-store gap) or more
      after a revoking write does not succeed, on whichever worker's cache it runs. */
  lemma RevocationIsBounded(states: seq<System>, actions: seq<Action>, n: nat, r: RequestId, i: nat)
    requires IsRun(states, actions) && Initial(states[0]) && n < |states|
    requires RequestOf(states[n], r).Verified?
    requires var vs := Versions(states[n], RequestOf(states[n], r).lookup); i < |vs| && vs[i].key.revokedAt.Some?
    ensures var q := RequestOf(states[n], r);
      q.startedAt < Versions(states[n], q.lookup)[i].at + states[n].gap + REVOCATION_CACHE_TTL
  {
    RunKeepsInv(states, actions, n);
    var s := states[n];
    var q := RequestOf(s, r);
    var vs := Versions(s, q.lookup);
    assert RequestOk(s, r) && Sound(vs, s.now);
    var j :| 0 <= j < |vs| && Spans(vs, j, q.key, q.readAt);
    assert j < i;
    if j + 1 < i { assert vs[j + 1].at <= vs[i].at; }
  }

  lemma RunExtends(states: seq<System>, actions: seq<Action>, a: Action)
    requires IsRun(states, actions) && Enabled(states[|actions|], a)
    ensures IsRun(states + [Next(states[|actions|], a)], actions + [a])
  {}

  /** Two steps more. */
  lemma RunExtendsTwice(states: seq<System>, actions: seq<Action>, a: Action, b: Action) returns (more: seq<System>)
    requires IsRun(states, actions) && Enabled(states[|actions|], a) && Enabled(Next(states[|actions|], a), b)
    ensures IsRun(more, actions + [a, b]) && more[0] == states[0]
    ensures more[|actions| + 1] == Next(states[|actions|], a)
    ensures more[|actions| + 2] == Next(Next(states[|actions|], a), b)
  {
    RunExtends(states, actions, a);
    var mid := states + [Next(states[|actions|], a)];
    RunExtends(mid, actions + [a], b);
    assert actions + [a] + [b] == actions + [a, b];
    more := mid + [Next(mid[|actions| + 1], b)];
  }

  /** The key is issued, and a request of cache 0 finds nothing cached. */
  lemma IssueAndMiss(s: System, key: ApiKey, l: string) returns (states: seq<System>)
    requires Initial(s) && s.now == 0
    ensures IsRun(states, [Write(l, key), Start(1, 0, l, key.tokenHash)]) && states[0] == s
    ensures states[2] == s.(history := map[l := [Version(0, key)]],
                            requests := map[1 := Missed(0, l, key.tokenHash, 0)])
  {
    assert IsRun([s], []);
    var written := Next(s, Write(l, key));
    assert Versions(s, l) + [Version(0, key)] == [Version(0, key)];
    assert written.history == map[l := [Version(0, key)]] && CacheOf(written, 0) == map[];
    states := RunExtendsTwice([s], [], Write(l, key), Start(1, 0, l, key.tokenHash));
    assert [] + [Write(l, key), Start(1, 0, l, key.tokenHash)] == [Write(l, key), Start(1, 0, l, key.tokenHash)];
  }

  /** A read taken just before a revocation and stored at the end of the gap is still served a
      microsecond before its thirty seconds are over. */
  function LateVerification(key: ApiKey, l: string, gap: nat): seq<Action> {
    UntilCached(key, l, gap) + [Advance(gap + REVOCATION_CACHE_TTL - 1), Start(2, 0, l, key.tokenHash)] + [Check(2)]
  }

  function UntilCached(key: ApiKey, l: string, gap: nat): seq<Action> {
    [Write(l, key), Start(1, 0, l, key.tokenHash)] + [Fetch(1), Write(l, key.(revokedAt := Some(0)))]
    + [Advance(gap), Store(1)]
  }

  /** The staleness bound is exact: for every gap, some run verifies a request that started a
      microsecond short of it after the revoking write. */
  lemma RevocationBoundIsReached(s: System, key: ApiKey, l: string) returns (states: seq<System>)
    requires Initial(s) && s.now == 0 && key.revokedAt.None? && key.expiresAt.None? && IssuerAuthorized(key, s.members)
    ensures IsRun(states, LateVerification(key, l, s.gap)) && states[0] == s
    ensures var last, q := states[9], RequestOf(states[9], 2);
      && q.Verified? && q.lookup == l && |Versions(last, l)| == 2 && Versions(last, l)[1].key.revokedAt.Some?
      && q.startedAt == Versions(last, l)[1].at + last.gap + REVOCATION_CACHE_TTL - 1
  {
    states := CacheLate(s, key, l);
    var actions := UntilCached(key, l, s.gap);
    var late, start := Advance(s.gap + REVOCATION_CACHE_TTL - 1), Start(2, 0, l, key.tokenHash);
    ServeLate(s, key, l);
    states := RunExtendsTwice(states, actions, late, start);
    RunExtends(states, actions + [late, start], Check(2));
    states := states + [Next(states[8], Check(2))];
  }

  lemma CacheLate(s: System, key: ApiKey, l: string) returns (states: seq<System>)
    requires Initial(s) && s.now == 0 && key.revokedAt.None? && key.expiresAt.None?
    ensures IsRun(states, UntilCached(key, l, s.gap)) && states[0] == s && states[6] == CachedLateState(s, key, l)
  {
    var revoked := key.(revokedAt := Some(0));
    var actions := [Write(l, key), Start(1, 0, l, key.tokenHash)];
    states := IssueAndMiss(s, key, l);
    ReadThenRevoke(s, key, l);
    states := RunExtendsTwice(states, actions, Fetch(1), Write(l, revoked));
    StoreAtGap(s, key, l);
    states := RunExtendsTwice(states, actions + [Fetch(1), Write(l, revoked)], Advance(s.gap), Store(1));
  }

  /** The row read by request 1, and revoked since; nothing is cached. */
  function InFlightState(s: System, key: ApiKey, l: string): System {
    s.(history := map[l := [Version(0, key), Version(0, key.(revokedAt := Some(0)))]],
       requests := map[1 := Fetched(0, l, key.tokenHash, 0, key, 0, 1)])
  }

  /** The old row cached at the end of the gap. */
  function CachedLateState(s: System, key: ApiKey, l: string): System {
    InFlightState(s, key, l).(now := s.gap,
      caches := map[0 := map[l := Cached(key, 0, s.gap + REVOCATION_CACHE_TTL)]], stored := map[(0, l) := 1],
      requests := map[1 := Holding(0, l, key.tokenHash, 0, key, 0, 1)])
  }

  lemma ReadThenRevoke(s: System, key: ApiKey, l: string)
    requires Initial(s) && s.now == 0 && key.revokedAt.None?
    ensures var missed := s.(history := map[l := [Version(0, key)]],
                             requests := map[1 := Missed(0, l, key.tokenHash, 0)]);
      Next(Next(missed, Fetch(1)), Write(l, key.(revokedAt := Some(0)))) == InFlightState(s, key, l)
  {
    var missed := s.(history := map[l := [Version(0, key)]], requests := map[1 := Missed(0, l, key.tokenHash, 0)]);
    assert [Version(0, key)] + [Version(0, key.(revokedAt := Some(0)))]
      == [Version(0, key), Version(0, key.(revokedAt := Some(0)))];
    assert Next(missed, Fetch(1)).requests == map[1 := Fetched(0, l, key.tokenHash, 0, key, 0, 1)];
  }

  lemma StoreAtGap(s: System, key: ApiKey, l: string)
    requires Initial(s) && s.now == 0 && key.revokedAt.None? && key.expiresAt.None?
    ensures var f := InFlightState(s, key, l);
      Enabled(f, Advance(s.gap)) && Next(Next(f, Advance(s.gap)), Store(1)) == CachedLateState(s, key, l)
  {
    var f := InFlightState(s, key, l);
    assert CacheOf(f, 0) == map[];
  }

  lemma ServeLate(s: System, key: ApiKey, l: string)
    requires Initial(s) && s.now == 0 && key.revokedAt.None? && key.expiresAt.None? && IssuerAuthorized(key, s.members)
    ensures var c, late := CachedLateState(s, key, l), Advance(s.gap + REVOCATION_CACHE_TTL - 1);
      && Enabled(c, late)
      && var t := Next(Next(c, late), Start(2, 0, l, key.tokenHash));
         && RequestOf(t, 2) == Holding(0, l, key.tokenHash, s.gap + REVOCATION_CACHE_TTL - 1, key, 0, 1)
         && Accepts(key, key.tokenHash, t.now, t.members)
         && Versions(t, l) == [Version(0, key), Version(0, key.(revokedAt := Some(0)))] && t.gap == s.gap
  {
    var c := CachedLateState(s, key, l);
    assert CacheOf(c, 0)[l] == Cached(key, 0, s.gap + REVOCATION_CACHE_TTL);
    assert StoredVersion(c, 0, l) == 1;
  }

  /** The permissions a verified request gets are those its row grants that its issuer holds now,
      none for an issuer who is no member; and the key held them all at some instant of the
      request's staleness window. */
  lemma EffectivePermissionsAreBounded(states: seq<System>, actions: seq<Action>, n: nat, r: RequestId)
    requires IsRun(states, actions) && Initial(states[0]) && n < |states| && RequestOf(states[n], r).Verified?
    ensures var s, q := states[n], RequestOf(states[n], r);
      var effective := Effective(q.key, s.members);
      && (forall p :: p in effective
            <==> p in q.key.permissions && q.key.issuedBy.Some?
                 && (q.key.issuedBy.value, q.key.workspace) in s.members
                 && p in s.members[(q.key.issuedBy.value, q.key.workspace)])
      && exists key, t :: StoredAt(Versions(s, q.lookup), key, t) && effective <= key.permissions
           && t <= s.now && q.startedAt - s.gap - REVOCATION_CACHE_TTL < t
  {
    RunKeepsInv(states, actions, n);
    assert RequestOk(states[n], r);
    var q := RequestOf(states[n], r);
    assert StoredAt(Versions(states[n], q.lookup), q.key, q.readAt);
  }

  /** The moment of the check: the presented secret hashes to the row's hash, the row is
      neither revoked nor expired, and its issuer is still a member. */
  ghost predicate Genuine(s: System, a: Action, r: RequestId, key: ApiKey) {
    && a == Check(r) && RequestOf(s, r).Holding? && RequestOf(s, r).key == key
    && RequestOf(s, r).hash == key.tokenHash
    && key.revokedAt.None? && (key.expiresAt.Some? ==> s.now < key.expiresAt.value)
    && key.issuedBy.Some? && (key.issuedBy.value, key.workspace) in s.members
  }

  /** A check succeeds exactly then. */
  lemma CheckSucceedsIff(s: System, r: RequestId)
    requires Enabled(s, Check(r))
    ensures RequestOf(Next(s, Check(r)), r).Verified? <==> Genuine(s, Check(r), r, RequestOf(s, r).key)
    ensures RequestOf(Next(s, Check(r)), r).Verified? ==> RequestOf(Next(s, Check(r)), r).key == RequestOf(s, r).key
  {}

  /** No request becomes verified in any other way. */
  lemma {:induction false} VerifiedIsGenuine(states: seq<System>, actions: seq<Action>, n: nat, r: RequestId)
    requires IsRun(states, actions) && Initial(states[0]) && n < |states| && RequestOf(states[n], r).Verified?
    ensures exists i :: 0 <= i < n && Genuine(states[i], actions[i], r, RequestOf(states[n], r).key)
  {
    assert n > 0;
    assert Enabled(states[n - 1], actions[n - 1]) && states[n] == Next(states[n - 1], actions[n - 1]);
    if RequestOf(states[n - 1], r).Verified? {
      VerifiedIsGenuine(states, actions, n - 1, r);
    } else {
      assert Genuine(states[n - 1], actions[n - 1], r, RequestOf(states[n], r).key);
    }
  }

  /** A step verifies nobody on a key whose issuer is not a member when it is taken. */
  lemma StepRejectsRemoved(s: System, a: Action, r: RequestId, u: UserId, w: WorkspaceId)
    requires Enabled(s, a) && (u, w) !in s.members
    requires var q := RequestOf(s, r); q.Verified? ==> q.key.issuedBy != Some(u) || q.key.workspace != w
    ensures var q := RequestOf(Next(s, a), r); q.Verified? ==> q.key.issuedBy != Some(u) || q.key.workspace != w
  {
    if a.Check? && a.r == r {
      assert !IssuerAuthorized(RequestOf(s, r).key, s.members) || RequestOf(s, r).key.issuedBy != Some(u)
             || RequestOf(s, r).key.workspace != w;
    } else {
      assert RequestOf(Next(s, a), r).Verified? ==> RequestOf(Next(s, a), r) == RequestOf(s, r);
    }
  }

  /** A removed issuer is rejected at once: while the membership is gone no request, cached
      row or not, becomes verified on a key that issuer holds in that workspace. */
  lemma {:induction false} RemovedIssuerIsRejected(states: seq<System>, actions: seq<Action>, from: nat, n: nat,
                                                   r: RequestId, u: UserId, w: WorkspaceId)
    requires IsRun(states, actions) && from <= n < |states|
    requires forall i :: from <= i <= n ==> (u, w) !in states[i].members
    requires !RequestOf(states[from], r).Verified?
    ensures var q := RequestOf(states[n], r);
      q.Verified? ==> q.key.issuedBy != Some(u) || q.key.workspace != w
  {
    if n > from {
      RemovedIssuerIsRejected(states, actions, from, n - 1, r, u, w);
      StepRejectsRemoved(states[n - 1], actions[n - 1], r, u, w);
    }
  }

  /** Only a membership change alters a membership. */
  lemma {:induction false} RemovedStaysRemoved(states: seq<System>, actions: seq<Action>, m: nat, n: nat, u: UserId,
                                               w: WorkspaceId)
    requires IsRun(states, actions) && m < n < |states| && actions[m] == SetMember(u, w, None)
    requires forall i :: m < i < n && actions[i].SetMember? && actions[i].user == u && actions[i].workspace == w ==>
      actions[i].permissions.None?
    ensures (u, w) !in states[n].members
  {
    assert Enabled(states[n - 1], actions[n - 1]) && states[n] == Next(states[n - 1], actions[n - 1]);
    if m < n - 1 { RemovedStaysRemoved(states, actions, m, n - 1, u, w); }
  }

  /** So from the removal of an issuer until a membership is given back nobody becomes verified on
      that issuer's key. */
  lemma RemovalIsImmediate(states: seq<System>, actions: seq<Action>, m: nat, n: nat, r: RequestId, u: UserId,
                           w: WorkspaceId)
    requires IsRun(states, actions) && m < n < |states| && actions[m] == SetMember(u, w, None)
    requires forall i :: m < i < n && actions[i].SetMember? && actions[i].user == u && actions[i].workspace == w ==>
      actions[i].permissions.None?
    requires !RequestOf(states[m + 1], r).Verified?
    ensures var q := RequestOf(states[n], r);
      q.Verified? ==> q.key.issuedBy != Some(u) || q.key.workspace != w
  {
    forall i | m + 1 <= i <= n ensures (u, w) !in states[i].members {
      RemovedStaysRemoved(states, actions, m, i, u, w);
    }
    RemovedIssuerIsRejected(states, actions, m + 1, n, r, u, w);
  }

  /** A change of role shrinks or widens every key of that issuer there at once, within its grant,
      and touches no other's. */
  lemma RoleChangeIsImmediate(s: System, u: UserId, w: WorkspaceId, permissions: set<string>, key: ApiKey)
    requires key.issuedBy.Some?
    ensures Effective(key, Next(s, SetMember(u, w, Some(permissions))).members)
      == if key.issuedBy == Some(u) && key.workspace == w then key.permissions * permissions
         else Effective(key, s.members)
  {}

  // ------------------------------------------------------------------ when a change is immediate

  /** The entry of `l` in cache `c` holds a row read before version `v + 1` was written. */
  ghost predicate IsOld(s: System, c: CacheId, l: string, v: nat) {
    l in CacheOf(s, c) && StoredVersion(s, c, l) <= v
  }

  ghost predicate On(q: Request, c: CacheId, l: string) {
    (q.Fetched? || q.Holding?) && q.cache == c && q.lookup == l
  }

  /** The step writes or removes that entry. */
  ghost predicate Touches(s: System, a: Action, c: CacheId, l: string) {
    || (a.Bust? && a.cache == c && a.lookup == l)
    || (a.Store? && On(RequestOf(s, a.r), c, l) && IsActive(RequestOf(s, a.r).key, s.now))
    || (a.Check? && On(RequestOf(s, a.r), c, l) && Evicts(s, a.r))
  }

  /** A check that finds the row inactive, or its issuer gone, drops the entry. */
  ghost predicate Evicts(s: System, r: RequestId)
    requires RequestOf(s, r).Fetched? || RequestOf(s, r).Holding?
  {
    var q := RequestOf(s, r);
    !IsActive(q.key, s.now) || (q.key.tokenHash == q.hash && !IssuerAuthorized(q.key, s.members))
  }

  /** The step stores a row that was read before version `v + 1` was written. */
  ghost predicate StoresOld(s: System, a: Action, c: CacheId, l: string, v: nat) {
    a.Store? && Touches(s, a, c, l) && RequestOf(s, a.r).version <= v
  }

  lemma UntouchedStays(s: System, a: Action, c: CacheId, l: string)
    requires Enabled(s, a) && !Touches(s, a, c, l)
    ensures var t := Next(s, a);
      && (l in CacheOf(t, c) <==> l in CacheOf(s, c))
      && (l in CacheOf(s, c) ==> CacheOf(t, c)[l] == CacheOf(s, c)[l])
      && StoredVersion(t, c, l) == StoredVersion(s, c, l)
  {}

  lemma TouchedIsOldIff(s: System, a: Action, c: CacheId, l: string, v: nat)
    requires Enabled(s, a) && Touches(s, a, c, l)
    ensures IsOld(Next(s, a), c, l, v) <==> StoresOld(s, a, c, l, v)
    ensures StoresOld(s, a, c, l, v) ==> CacheOf(Next(s, a), c)[l].expires == s.now + REVOCATION_CACHE_TTL
  {}

  /** Step `i` stored an old row and nothing has touched the entry since. */
  ghost predicate LeftOld(states: seq<System>, actions: seq<Action>, i: nat, k: nat, c: CacheId, l: string, v: nat)
    requires IsRun(states, actions) && i < k <= |actions|
  {
    StoresOld(states[i], actions[i], c, l, v) && forall j :: i < j < k ==> !Touches(states[j], actions[j], c, l)
  }

  /** After a bust the entry is an old row exactly when one was stored since, and left there. */
  lemma {:induction false} OldIffLeft(states: seq<System>, actions: seq<Action>, m: nat, k: nat, c: CacheId, l: string,
                                      v: nat)
    requires IsRun(states, actions) && m <= k <= |actions| && l !in CacheOf(states[m], c)
    ensures IsOld(states[k], c, l, v) <==> exists i :: m <= i < k && LeftOld(states, actions, i, k, c, l, v)
    ensures forall i :: m <= i < k && LeftOld(states, actions, i, k, c, l, v) ==>
      l in CacheOf(states[k], c) && CacheOf(states[k], c)[l].expires == states[i].now + REVOCATION_CACHE_TTL
  {
    if m < k {
      var p := k - 1;
      OldIffLeft(states, actions, m, p, c, l, v);
      assert Enabled(states[p], actions[p]) && states[k] == Next(states[p], actions[p]);
      if Touches(states[p], actions[p], c, l) {
        TouchedIsOldIff(states[p], actions[p], c, l, v);
        assert LeftOld(states, actions, p, k, c, l, v) <==> StoresOld(states[p], actions[p], c, l, v);
        assert forall i :: m <= i < p ==> !LeftOld(states, actions, i, k, c, l, v);
      } else {
        UntouchedStays(states[p], actions[p], c, l);
        assert forall i :: m <= i < p ==> (LeftOld(states, actions, i, k, c, l, v)
          <==> LeftOld(states, actions, i, p, c, l, v));
        assert !LeftOld(states, actions, p, k, c, l, v);
      }
    }
  }

  lemma {:induction false} VersionsGrow(states: seq<System>, actions: seq<Action>, i: nat, j: nat, l: string)
    requires IsRun(states, actions) && i <= j <= |actions|
    ensures |Versions(states[i], l)| <= |Versions(states[j], l)|
  {
    if i < j {
      VersionsGrow(states, actions, i, j - 1, l);
      assert Enabled(states[j - 1], actions[j - 1]) && states[j] == Next(states[j - 1], actions[j - 1]);
    }
  }

  /** A read that misses a write was under way when the write was made. */
  lemma {:induction false} OldReadWasInFlight(states: seq<System>, actions: seq<Action>, n: nat, i: nat, r: RequestId)
    requires IsRun(states, actions) && n < i <= |actions| && actions[n].Write?
    requires RequestOf(states[i], r).Fetched? && RequestOf(states[i], r).lookup == actions[n].lookup
    requires RequestOf(states[i], r).version <= |Versions(states[n], actions[n].lookup)|
    ensures RequestOf(states[n], r) == RequestOf(states[i], r)
  {
    var p := i - 1;
    assert Enabled(states[p], actions[p]) && states[i] == Next(states[p], actions[p]);
    assert Enabled(states[n], actions[n]) && states[n + 1] == Next(states[n], actions[n]);
    if p > n {
      VersionsGrow(states, actions, n + 1, p, actions[n].lookup);
      OldReadWasInFlight(states, actions, n, p, r);
    }
  }

  /** Request `w` had read the row, but not stored it, when the write was made; it stored it at
      step `i`, still active, and the entry was left alone until step `k` and has not expired. */
  ghost predicate LateStore(states: seq<System>, actions: seq<Action>, n: nat, i: nat, k: nat, c: CacheId, l: string,
                            w: RequestId)
    requires IsRun(states, actions) && n < i < k < |actions|
  {
    var q := RequestOf(states[n], w);
    && q.Fetched? && q.version <= |Versions(states[n], l)| && On(q, c, l)
    && actions[i] == Store(w) && RequestOf(states[i], w) == q && IsActive(q.key, states[i].now)
    && (forall j :: i < j < k ==> !Touches(states[j], actions[j], c, l))
    && states[k].now < states[i].now + REVOCATION_CACHE_TTL
  }

  /** Whether a change bites at once. The writer busts its own cache at some point, before or
      after the write becomes visible; a later call there is served a row from before the write
      exactly when such a row was stored since the bust, has been left there and is still fresh. */
  lemma ChangeIsImmediateIff(states: seq<System>, actions: seq<Action>, n: nat, m: nat, k: nat, c: CacheId, l: string,
                             r: RequestId)
    requires IsRun(states, actions) && n < k && m < k < |actions|
    requires actions[n].Write? && actions[n].lookup == l && actions[m] == Bust(c, l)
    requires actions[k].Start? && actions[k].r == r && actions[k].cache == c && actions[k].lookup == l
    ensures var q, v := RequestOf(states[k + 1], r), |Versions(states[n], l)|;
      q.Holding? && q.version <= v
      <==> exists i :: m < i < k && LeftOld(states, actions, i, k, c, l, v)
                       && states[k].now < states[i].now + REVOCATION_CACHE_TTL
  {
    assert Enabled(states[m], actions[m]) && states[m + 1] == Next(states[m], actions[m]);
    assert Enabled(states[k], actions[k]) && states[k + 1] == Next(states[k], actions[k]);
    OldIffLeft(states, actions, m + 1, k, c, l, |Versions(states[n], l)|);
  }

  /** A revocation is visible before its bust. Then only a read under way at the write can put
      the old row back: the next call is served it exactly when some such read was stored after
      the bust, and is still there. */
  lemma RevocationIsImmediateIff(states: seq<System>, actions: seq<Action>, n: nat, m: nat, k: nat, c: CacheId,
                                 l: string, r: RequestId)
    requires IsRun(states, actions) && n < m < k < |actions|
    requires actions[n].Write? && actions[n].lookup == l && actions[m] == Bust(c, l)
    requires actions[k].Start? && actions[k].r == r && actions[k].cache == c && actions[k].lookup == l
    ensures var q := RequestOf(states[k + 1], r);
      q.Holding? && q.version <= |Versions(states[n], l)|
      <==> exists i, w :: m < i < k && LateStore(states, actions, n, i, k, c, l, w)
  {
    var v := |Versions(states[n], l)|;
    assert Enabled(states[m], actions[m]) && states[m + 1] == Next(states[m], actions[m]);
    assert Enabled(states[k], actions[k]) && states[k + 1] == Next(states[k], actions[k]);
    OldIffLeft(states, actions, m + 1, k, c, l, v);
    if IsOld(states[k], c, l, v) && Hit(CacheOf(states[k], c), l, states[k].now) {
      var i :| m + 1 <= i < k && LeftOld(states, actions, i, k, c, l, v);
      OldReadWasInFlight(states, actions, n, i, actions[i].r);
      assert LateStore(states, actions, n, i, k, c, l, actions[i].r);
    }
    if i, w :| m < i < k && LateStore(states, actions, n, i, k, c, l, w) {
      assert LeftOld(states, actions, i, k, c, l, v);
    }
  }

  /** An edit busts the cache inside its transaction, before the write is visible. */
  function BustThenWrite(c: CacheId, l: string, h: string, first: RequestId, second: RequestId,
                         changed: ApiKey): seq<Action> {
    [Bust(c, l), Start(first, c, l, h)] + [Fetch(first), Store(first)] + [Check(first), Write(l, changed)]
    + [Start(second, c, l, h)]
  }

  /** So the promise of the very next request fails without any read under way at the write: a
      request between bust and commit caches the old row, and the call after the commit, on
      whatever key is live, is served it. */
  lemma EditedRowIsServedOld(s: System, c: CacheId, l: string, h: string, first: RequestId, second: RequestId,
                             changed: ApiKey)
      returns (states: seq<System>)
    requires Versions(s, l) != [] && first != second && RequestOf(s, first).Idle? && RequestOf(s, second).Idle?
    requires var key := Versions(s, l)[|Versions(s, l)| - 1].key; Accepts(key, h, s.now, s.members)
    ensures IsRun(states, BustThenWrite(c, l, h, first, second, changed)) && states[0] == s
    ensures forall r :: RequestOf(states[5], r).Fetched? ==> RequestOf(s, r).Fetched?
    ensures var q := RequestOf(states[7], second);
      && q.Holding? && q.key == Versions(s, l)[|Versions(s, l)| - 1].key && q.version == |Versions(s, l)|
      && |Versions(states[7], l)| == q.version + 1
  {
    states := ReadBetween(s, c, l, h, first);
    var actions := [Bust(c, l), Start(first, c, l, h)] + [Fetch(first), Store(first)];
    states := RunExtendsTwice(states, actions, Check(first), Write(l, changed));
    actions := actions + [Check(first), Write(l, changed)];
    RunExtends(states, actions, Start(second, c, l, h));
    states := states + [Next(states[6], Start(second, c, l, h))];
    assert actions + [Start(second, c, l, h)] == BustThenWrite(c, l, h, first, second, changed);
  }

  /** Between bust and commit a request reads the old row and caches it. */
  lemma ReadBetween(s: System, c: CacheId, l: string, h: string, first: RequestId) returns (states: seq<System>)
    requires Versions(s, l) != [] && RequestOf(s, first).Idle?
    requires IsActive(Versions(s, l)[|Versions(s, l)| - 1].key, s.now)
    ensures IsRun(states, [Bust(c, l), Start(first, c, l, h)] + [Fetch(first), Store(first)]) && states[0] == s
    ensures var key, t := Versions(s, l)[|Versions(s, l)| - 1].key, states[4];
      && t.now == s.now && t.members == s.members && Versions(t, l) == Versions(s, l)
      && RequestOf(t, first) == Holding(c, l, h, s.now, key, s.now, |Versions(s, l)|)
      && (forall r :: r != first ==> RequestOf(t, r) == RequestOf(s, r))
      && l in CacheOf(t, c) && CacheOf(t, c)[l] == Cached(key, s.now, s.now + REVOCATION_CACHE_TTL)
      && StoredVersion(t, c, l) == |Versions(s, l)|
  {
    states := BustThenMiss(s, c, l, h, first);
    FetchThenStore(states[2], c, l, h, first);
    states := RunExtendsTwice(states, [Bust(c, l), Start(first, c, l, h)], Fetch(first), Store(first));
  }

  lemma BustThenMiss(s: System, c: CacheId, l: string, h: string, r: RequestId) returns (states: seq<System>)
    requires RequestOf(s, r).Idle?
    ensures IsRun(states, [Bust(c, l), Start(r, c, l, h)]) && states[0] == s
    ensures var t := states[2];
      && t.now == s.now && t.members == s.members && t.history == s.history
      && t.requests == s.requests[r := Missed(c, l, h, s.now)]
  {
    assert l !in CacheOf(Next(s, Bust(c, l)), c);
    assert IsRun([s], []);
    states := RunExtendsTwice([s], [], Bust(c, l), Start(r, c, l, h));
    assert [] + [Bust(c, l), Start(r, c, l, h)] == [Bust(c, l), Start(r, c, l, h)];
  }

  lemma FetchThenStore(s: System, c: CacheId, l: string, h: string, r: RequestId)
    requires RequestOf(s, r) == Missed(c, l, h, s.now) && Versions(s, l) != []
    requires IsActive(Versions(s, l)[|Versions(s, l)| - 1].key, s.now)
    ensures Enabled(s, Fetch(r)) && Enabled(Next(s, Fetch(r)), Store(r))
    ensures var key, t := Versions(s, l)[|Versions(s, l)| - 1].key, Next(Next(s, Fetch(r)), Store(r));
      && t.now == s.now && t.members == s.members && t.history == s.history
      && t.requests == s.requests[r := Holding(c, l, h, s.now, key, s.now, |Versions(s, l)|)]
      && l in CacheOf(t, c) && CacheOf(t, c)[l] == Cached(key, s.now, s.now + REVOCATION_CACHE_TTL)
      && StoredVersion(t, c, l) == |Versions(s, l)|
  {
    var key := Versions(s, l)[|Versions(s, l)| - 1].key;
    assert RequestOf(Next(s, Fetch(r)), r) == Fetched(c, l, h, s.now, key, s.now, |Versions(s, l)|);
  }
}
