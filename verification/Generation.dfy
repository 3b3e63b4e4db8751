/** The daily job that clones a recurring post onto the dates of its rule. */
module Generation {
  import opened Common
  import opened Recurrence
  import opened WallClock

  // ------------------------------------------------------------------ data model

  datatype Status = Draft | Scheduled | Published | OtherStatus

  datatype Child = Child(channel: int, status: Status, scheduledAt: Option<Instant>)

  datatype Post = Post(workspace: int, caption: string, scheduledAt: Option<Instant>, children: seq<Child>)

  /** One rule of the post with index `source`. */
  datatype Rule = Rule(source: nat, frequency: Frequency, interval: nat, endDate: Option<Date>)

  /** A workspace's zone: wall clock to instant and back. `fold` picks the second reading of a
      wall clock that the clocks show twice. */
  datatype Zone = Zone(resolve: (Wall, bool) -> Instant, wallOf: Instant -> Wall, foldOf: Instant -> bool)

  function Resolve(zone: Zone, w: Wall, fold: bool): Instant { zone.resolve(w, fold) }

  function WallOf(zone: Zone, at: Instant): Wall { zone.wallOf(at) }

  function FoldOf(zone: Zone, at: Instant): bool { zone.foldOf(at) }

  function DateOf(zone: Zone, at: Instant): Date { WallDate(WallOf(zone, at)) }

  function TimeOf(zone: Zone, at: Instant): int { WallTime(WallOf(zone, at)) }

  type Zones = int -> Zone

  function EarliestChild(children: seq<Child>): Option<Instant> {
    if children == [] then None
    else Earlier(EarliestChild(children[..|children| - 1]), children[|children| - 1].scheduledAt)
  }

  /** The post's own schedule is that of its earliest child; a childless post keeps its own. */
  predicate InSync(p: Post) { p.children == [] || p.scheduledAt == EarliestChild(p.children) }

  // ------------------------------------------------------------------ generation

  function End(rule: Rule, today: Date): Date {
    var cutoff := AddDays(today, LOOKAHEAD_DAYS);
    if rule.endDate.None? || Before(cutoff, rule.endDate.value) then cutoff else rule.endDate.value
  }

  function RuleDates(zone: Zone, source: Post, rule: Rule, now: Instant): seq<Date>
    requires source.scheduledAt.Some?
  {
    RecurrenceDates(rule.frequency, rule.interval, DateOf(zone, source.scheduledAt.value),
                    End(rule, DateOf(zone, now)), MAX_RECURRENCES)
  }

  /** Post `i` counts as already generated for `d`: another post of the workspace with the
      source's caption, on that date. */
  predicate Occupies(zone: Zone, posts: seq<Post>, source: nat, i: nat, d: Date)
    requires source < |posts|
  {
    i < |posts| && i != source
    && posts[i].workspace == posts[source].workspace && posts[i].caption == posts[source].caption
    && posts[i].scheduledAt.Some? && DateOf(zone, posts[i].scheduledAt.value) == d
  }

  ghost predicate Taken(zone: Zone, posts: seq<Post>, source: nat, d: Date)
    requires source < |posts|
  {
    exists i: nat :: Occupies(zone, posts, source, i, d)
  }

  function Existing(zone: Zone, posts: seq<Post>, source: nat, dates: seq<Date>): set<Date>
    requires source < |posts|
  {
    set d, i | d in dates && 0 <= i < |posts| && Occupies(zone, posts, source, i, d) :: d
  }

  function Pending(dates: seq<Date>, existing: set<Date>, today: Date): seq<Date> {
    if dates == [] then []
    else
      var d := dates[|dates| - 1];
      Pending(dates[..|dates| - 1], existing, today) + if d in existing || AtMost(d, today) then [] else [d]
  }

  /** The wall clock of a clone: the source's local time on the date asked for. */
  function CloneWall(zone: Zone, source: Post, d: Date): Wall
    requires source.scheduledAt.Some?
  {
    Combine(d, TimeOf(zone, source.scheduledAt.value))
  }

  /** The child's distance from its post is measured on the instant line, but added on the wall
      clock; the sum is read the first time the clocks show it. */
  function CloneChild(zone: Zone, c: Child, origin: Instant, w: Wall): Child {
    Child(c.channel, Scheduled,
          if c.scheduledAt.None? then None else Some(Resolve(zone, w + (c.scheduledAt.value - origin), false)))
  }

  function CloneChildren(zone: Zone, children: seq<Child>, origin: Instant, w: Wall): (r: seq<Child>)
    ensures |r| == |children| && forall i :: 0 <= i < |r| ==> r[i] == CloneChild(zone, children[i], origin, w)
  {
    if children == [] then []
    else
      var n := |children| - 1;
      CloneChildren(zone, children[..n], origin, w) + [CloneChild(zone, children[n], origin, w)]
  }

  function Clone(zone: Zone, source: Post, d: Date): Post
    requires source.scheduledAt.Some?
  {
    var origin, w := source.scheduledAt.value, CloneWall(zone, source, d);
    var children := CloneChildren(zone, source.children, origin, w);
    var at := if children == [] then Some(Resolve(zone, w, FoldOf(zone, origin))) else EarliestChild(children);
    Post(source.workspace, source.caption, at, children)
  }

  function Clones(zone: Zone, source: Post, dates: seq<Date>): (r: seq<Post>)
    requires source.scheduledAt.Some?
    ensures |r| == |dates| && forall i :: 0 <= i < |r| ==> r[i] == Clone(zone, source, dates[i])
  {
    if dates == [] then []
    else Clones(zone, source, dates[..|dates| - 1]) + [Clone(zone, source, dates[|dates| - 1])]
  }

  function RulePending(zone: Zone, posts: seq<Post>, rule: Rule, now: Instant): seq<Date>
    requires rule.source < |posts|
  {
    var source := posts[rule.source];
    if source.scheduledAt.None? then []
    else
      var dates := RuleDates(zone, source, rule, now);
      Pending(dates, Existing(zone, posts, rule.source, dates), DateOf(zone, now))
  }

  function GenerateRule(zones: Zones, posts: seq<Post>, rule: Rule, now: Instant): seq<Post>
    requires rule.source < |posts|
  {
    var source := posts[rule.source];
    var zone := zones(source.workspace);
    if source.scheduledAt.None? then posts
    else posts + Clones(zone, source, RulePending(zone, posts, rule, now))
  }

  ghost predicate ValidRules(posts: seq<Post>, rules: seq<Rule>) {
    forall k :: 0 <= k < |rules| ==> rules[k].source < |posts|
  }

  function GenerateAll(zones: Zones, posts: seq<Post>, rules: seq<Rule>, now: Instant): (r: seq<Post>)
    requires ValidRules(posts, rules)
    ensures |posts| <= |r| && r[..|posts|] == posts
  {
    if rules == [] then posts
    else
      var earlier := GenerateAll(zones, posts, rules[..|rules| - 1], now);
      GenerateRule(zones, earlier, rules[|rules| - 1], now)
  }

  lemma ChildOneMore(zone: Zone, children: seq<Child>, k: nat, origin: Instant, w: Wall)
    requires k < |children|
    ensures var before := CloneChildren(zone, children[..k], origin, w);
      var after := CloneChildren(zone, children[..k + 1], origin, w);
      var child := CloneChild(zone, children[k], origin, w);
      after == before + [child] && EarliestChild(after) == Earlier(EarliestChild(before), child.scheduledAt)
  {
    var before := CloneChildren(zone, children[..k], origin, w);
    assert children[..k + 1][..k] == children[..k];
    assert (before + [CloneChild(zone, children[k], origin, w)])[..k] == before;
  }

  lemma PendingOneMore(dates: seq<Date>, k: nat, existing: set<Date>, today: Date)
    requires k < |dates|
    ensures Pending(dates[..k + 1], existing, today)
      == Pending(dates[..k], existing, today)
         + if dates[k] in existing || AtMost(dates[k], today) then [] else [dates[k]]
  {
    assert dates[..k + 1][..k] == dates[..k];
  }

  /** `posts` is `was` with the clones for the dates `done`. */
  ghost predicate ClonedSoFar(was: seq<Post>, posts: seq<Post>, zone: Zone, source: Post, done: seq<Date>, count: nat) {
    source.scheduledAt.Some? && count == |done| && posts == was + Clones(zone, source, done)
  }

  lemma ClonedOneMore(was: seq<Post>, posts: seq<Post>, zone: Zone, source: Post, done: seq<Date>, count: nat, d: Date)
    requires ClonedSoFar(was, posts, zone, source, done, count)
    ensures ClonedSoFar(was, posts + [Clone(zone, source, d)], zone, source, done + [d], count + 1)
  {
    assert (done + [d])[..|done|] == done;
  }

  /** The rules whose source has a schedule are stamped with the time of the run. */
  function Stamped(stamps: map<nat, Instant>, posts: seq<Post>, rules: seq<Rule>, now: Instant): map<nat, Instant>
    requires ValidRules(posts, rules)
  {
    if rules == [] then stamps
    else
      var n := |rules| - 1;
      var earlier := Stamped(stamps, posts, rules[..n], now);
      if posts[rules[n].source].scheduledAt.Some? then earlier[rules[n].source := now] else earlier
  }

  /** Of the stamps exactly those of the rules with a scheduled source change, to the run's moment. */
  lemma {:induction false} StampsExact(stamps: map<nat, Instant>, posts: seq<Post>, rules: seq<Rule>, now: Instant,
                                       i: nat)
    requires ValidRules(posts, rules)
    ensures var r := Stamped(stamps, posts, rules, now);
      if exists k :: 0 <= k < |rules| && rules[k].source == i && posts[i].scheduledAt.Some? then i in r && r[i] == now
      else (i in r <==> i in stamps) && (i in r ==> r[i] == stamps[i])
  {
    if rules != [] {
      var n := |rules| - 1;
      StampsExact(stamps, posts, rules[..n], now, i);
      assert forall k :: 0 <= k < n ==> rules[..n][k] == rules[k];
      if rules[n].source != i {
        assert (exists k :: 0 <= k < |rules| && rules[k].source == i && posts[i].scheduledAt.Some?)
          <==> (exists k :: 0 <= k < n && rules[..n][k].source == i && posts[i].scheduledAt.Some?);
      }
    }
  }

  // ------------------------------------------------------------------ the job

  class RecurrenceJob {
    var posts: seq<Post>
    var lastGenerated: map<nat, Instant> // per rule, by its source post
    const zones: Zones

    constructor (zones: Zones, posts: seq<Post>)
      ensures this.zones == zones && this.posts == posts && lastGenerated == map[]
    {
      this.zones := zones;
      this.posts := posts;
      lastGenerated := map[];
    }

    /** Clones the source onto one date, then syncs the clone with its children. */
    method CloneOnto(source: Post, d: Date)
      requires source.scheduledAt.Some?
      modifies this`posts
      ensures posts == old(posts) + [Clone(zones(source.workspace), source, d)]
    {
      var zone := zones(source.workspace);
      var origin := source.scheduledAt.value;
      var w := Combine(d, TimeOf(zone, origin));
      var at := Some(Resolve(zone, w, FoldOf(zone, origin)));
      var children: seq<Child> := [];
      var earliest := None;
      var k := 0;
      while k < |source.children|
        invariant 0 <= k <= |source.children|
        invariant children == CloneChildren(zone, source.children[..k], origin, w)
        invariant earliest == EarliestChild(children)
        invariant posts == old(posts)
      {
        ChildOneMore(zone, source.children, k, origin, w);
        var child := CloneChild(zone, source.children[k], origin, w);
        children := children + [child];
        earliest := Earlier(earliest, child.scheduledAt);
        k := k + 1;
      }
      assert source.children[..k] == source.children;
      if children != [] {
        at := earliest;
      }
      posts := posts + [Post(source.workspace, source.caption, at, children)];
    }

    /** Clones the source onto every date that is after today and not generated yet. */
    method CloneOntoDates(source: Post, dates: seq<Date>, existing: set<Date>, today: Date) returns (generated: nat)
      requires source.scheduledAt.Some?
      modifies this`posts
      ensures var pending := Pending(dates, existing, today);
        generated == |pending| && posts == old(posts) + Clones(zones(source.workspace), source, pending)
    {
      ghost var was, zone, done := posts, zones(source.workspace), Pending([], existing, today);
      generated := 0;
      var k := 0;
      while k < |dates|
        invariant 0 <= k <= |dates| && done == Pending(dates[..k], existing, today)
        invariant ClonedSoFar(was, posts, zone, source, done, generated)
      {
        PendingOneMore(dates, k, existing, today);
        if !(dates[k] in existing || AtMost(dates[k], today)) {
          ClonedOneMore(was, posts, zone, source, done, generated, dates[k]);
          CloneOnto(source, dates[k]);
          generated, done := generated + 1, done + [dates[k]];
        }
        k := k + 1;
      }
      assert dates[..k] == dates;
    }

    method ApplyRule(rule: Rule, now: Instant) returns (generated: nat)
      requires rule.source < |posts|
      modifies this
      ensures posts == GenerateRule(zones, old(posts), rule, now)
      ensures lastGenerated == Stamped(old(lastGenerated), old(posts), [rule], now)
      ensures generated == |posts| - |old(posts)|
    {
      generated := 0;
      var source := posts[rule.source];
      if source.scheduledAt.None? { return; }
      var zone := zones(source.workspace);
      var today := DateOf(zone, now);
      var cutoff := AddDays(today, LOOKAHEAD_DAYS);
      var end := if rule.endDate.Some? then rule.endDate.value else cutoff;
      if Before(cutoff, end) { end := cutoff; }
      var base := DateOf(zone, source.scheduledAt.value);
      var dates := ComputeRecurrenceDates(base, rule.frequency, rule.interval, end, MAX_RECURRENCES);
      var existing := Existing(zone, posts, rule.source, dates);
      generated := CloneOntoDates(source, dates, existing, today);
      lastGenerated := lastGenerated[rule.source := now];
    }

    method GenerateRecurringPosts(rules: seq<Rule>, now: Instant) returns (total: nat)
      requires ValidRules(posts, rules)
      modifies this
      ensures posts == GenerateAll(zones, old(posts), rules, now)
      ensures lastGenerated == Stamped(old(lastGenerated), old(posts), rules, now)
      ensures total == |posts| - |old(posts)|
    {
      total := 0;
      var k := 0;
      while k < |rules|
        invariant 0 <= k <= |rules|
        invariant ValidRules(old(posts), rules[..k])
        invariant posts == GenerateAll(zones, old(posts), rules[..k], now)
        invariant lastGenerated == Stamped(old(lastGenerated), old(posts), rules[..k], now)
        invariant total == |posts| - |old(posts)|
      {
        assert rules[..k + 1][..k] == rules[..k];
        var generated := ApplyRule(rules[k], now);
        total := total + generated;
        k := k + 1;
      }
      assert rules[..k] == rules;
    }
  }

  // ------------------------------------------------------------------ a clone and its source

  lemma {:induction false} EarliestIsLeast(children: seq<Child>)
    ensures var e := EarliestChild(children);
      && (e.Some? ==> exists i :: 0 <= i < |children| && children[i].scheduledAt == e)
      && (forall i :: 0 <= i < |children| && children[i].scheduledAt.Some?
            ==> e.Some? && e.value <= children[i].scheduledAt.value)
  {
    if children != [] { EarliestIsLeast(children[..|children| - 1]); }
  }

  /** The copy is on the same channel, scheduled if the child is, and as far from its post. */
  predicate ChildKept(source: Post, clone: Post, a: Child, b: Child)
    requires source.scheduledAt.Some?
  {
    && b.channel == a.channel && b.status == Scheduled
    && (b.scheduledAt.Some? <==> a.scheduledAt.Some?)
    && (a.scheduledAt.Some? ==> clone.scheduledAt.Some?)
    && (a.scheduledAt.Some? ==>
          b.scheduledAt.value - clone.scheduledAt.value == a.scheduledAt.value - source.scheduledAt.value)
  }

  /** Every child is as far from its own post as the source's child is from the source. */
  ghost predicate OffsetsKept(source: Post, clone: Post)
    requires source.scheduledAt.Some?
  {
    && |clone.children| == |source.children|
    && forall i :: 0 <= i < |source.children| ==> ChildKept(source, clone, source.children[i], clone.children[i])
  }

  /** On this date the clocks run evenly from the post's wall clock to the child's: adding the
      child's distance there moves the instant by as much. */
  predicate ClocksRunEvenly(zone: Zone, w: Wall, distance: int) {
    Resolve(zone, w + distance, false) - Resolve(zone, w, false) == distance
  }

  ghost predicate EvenUpToChildren(zone: Zone, source: Post, d: Date)
    requires source.scheduledAt.Some?
  {
    forall i :: 0 <= i < |source.children| && source.children[i].scheduledAt.Some? ==>
      ClocksRunEvenly(zone, CloneWall(zone, source, d), source.children[i].scheduledAt.value - source.scheduledAt.value)
  }

  /** Clones are in sync themselves. They keep every offset exactly when no child is scheduled,
      or the source is in sync and on the clone's date the clocks run evenly up to every child. */
  lemma CloneKeepsOffsetsIff(zone: Zone, source: Post, d: Date)
    requires source.scheduledAt.Some?
    ensures InSync(Clone(zone, source, d))
    ensures OffsetsKept(source, Clone(zone, source, d))
      <==> EarliestChild(source.children).None? || (InSync(source) && EvenUpToChildren(zone, source, d))
  {
    if EarliestChild(source.children).None? {
      EarliestIsLeast(source.children);
      ClonedChildren(zone, source, d);
    } else if OffsetsKept(source, Clone(zone, source, d)) {
      OffsetsPinSource(zone, source, d);
    } else if InSync(source) && EvenUpToChildren(zone, source, d) {
      EvenClocksKeepOffsets(zone, source, d);
    }
  }

  lemma ClonedChildren(zone: Zone, source: Post, d: Date)
    requires source.scheduledAt.Some?
    ensures var clone, w := Clone(zone, source, d), CloneWall(zone, source, d);
      && |clone.children| == |source.children|
      && (forall i :: 0 <= i < |source.children| ==>
            clone.children[i] == CloneChild(zone, source.children[i], source.scheduledAt.value, w))
      && (source.children != [] ==> clone.scheduledAt == EarliestChild(clone.children))
      && (EarliestChild(source.children).None? <==> EarliestChild(clone.children).None?)
  {
    EarliestIsLeast(source.children);
    EarliestIsLeast(Clone(zone, source, d).children);
  }

  /** When the offsets are kept, the clone's earliest child is the copy of one that stands where
      the source does. */
  lemma OffsetsPinClone(zone: Zone, source: Post, d: Date)
    requires source.scheduledAt.Some? && EarliestChild(source.children).Some?
    requires OffsetsKept(source, Clone(zone, source, d))
    ensures exists j :: 0 <= j < |source.children| && source.children[j].scheduledAt == source.scheduledAt
    ensures Clone(zone, source, d).scheduledAt == Some(Resolve(zone, CloneWall(zone, source, d), false))
  {
    var clone := Clone(zone, source, d);
    ClonedChildren(zone, source, d);
    assert source.children != [];
    EarliestIsLeast(clone.children);
    var j :| 0 <= j < |clone.children| && clone.children[j].scheduledAt == clone.scheduledAt;
    assert ChildKept(source, clone, source.children[j], clone.children[j]);
    assert clone.children[j]
      == CloneChild(zone, source.children[j], source.scheduledAt.value, CloneWall(zone, source, d));
    assert source.children[j].scheduledAt == source.scheduledAt;
  }

  lemma KeptChildIsEven(zone: Zone, source: Post, d: Date, i: nat)
    requires source.scheduledAt.Some? && OffsetsKept(source, Clone(zone, source, d))
    requires Clone(zone, source, d).scheduledAt == Some(Resolve(zone, CloneWall(zone, source, d), false))
    requires i < |source.children| && source.children[i].scheduledAt.Some?
    ensures ClocksRunEvenly(zone, CloneWall(zone, source, d),
        source.children[i].scheduledAt.value - source.scheduledAt.value)
    ensures source.children[i].scheduledAt.value >= source.scheduledAt.value
  {
    var clone, a := Clone(zone, source, d), source.children[i];
    ClonedChildren(zone, source, d);
    assert clone.children[i] == CloneChild(zone, a, source.scheduledAt.value, CloneWall(zone, source, d));
    assert ChildKept(source, clone, a, clone.children[i]);
    EarliestIsLeast(clone.children);
  }

  lemma OffsetsPinSource(zone: Zone, source: Post, d: Date)
    requires source.scheduledAt.Some? && EarliestChild(source.children).Some?
    requires OffsetsKept(source, Clone(zone, source, d))
    ensures InSync(source) && EvenUpToChildren(zone, source, d)
  {
    OffsetsPinClone(zone, source, d);
    forall i | 0 <= i < |source.children| && source.children[i].scheduledAt.Some?
      ensures ClocksRunEvenly(zone, CloneWall(zone, source, d),
          source.children[i].scheduledAt.value - source.scheduledAt.value)
      ensures source.children[i].scheduledAt.value >= source.scheduledAt.value
    {
      KeptChildIsEven(zone, source, d, i);
    }
    EarliestIsLeast(source.children);
  }

  lemma EvenClocksFollow(zone: Zone, source: Post, d: Date)
    requires source.scheduledAt.Some? && InSync(source) && EvenUpToChildren(zone, source, d)
    ensures ChildrenFollow(zone, source, d)
  {
    var w, origin := CloneWall(zone, source, d), source.scheduledAt.value;
    EarliestIsLeast(source.children);
    forall i | 0 <= i < |source.children| && source.children[i].scheduledAt.Some?
      ensures Resolve(zone, w, false) <= Resolve(zone, w + (source.children[i].scheduledAt.value - origin), false)
    {
      assert ClocksRunEvenly(zone, w, source.children[i].scheduledAt.value - origin);
    }
  }

  lemma EvenClocksKeepOffsets(zone: Zone, source: Post, d: Date)
    requires source.scheduledAt.Some? && InSync(source) && EarliestChild(source.children).Some?
    requires EvenUpToChildren(zone, source, d)
    ensures OffsetsKept(source, Clone(zone, source, d))
  {
    var clone, w, origin := Clone(zone, source, d), CloneWall(zone, source, d), source.scheduledAt.value;
    SyncedClone(zone, source, d);
    ClonedChildren(zone, source, d);
    forall i | 0 <= i < |source.children| ensures ChildKept(source, clone, source.children[i], clone.children[i]) {
      assert clone.children[i] == CloneChild(zone, source.children[i], origin, w);
      if source.children[i].scheduledAt.Some? {
        assert ClocksRunEvenly(zone, w, source.children[i].scheduledAt.value - origin);
      }
    }
  }

  lemma SyncedClone(zone: Zone, source: Post, d: Date)
    requires source.scheduledAt.Some? && InSync(source) && EarliestChild(source.children).Some?
    requires EvenUpToChildren(zone, source, d)
    ensures Clone(zone, source, d).scheduledAt == Some(Resolve(zone, CloneWall(zone, source, d), false))
  {
    EvenClocksFollow(zone, source, d);
    ClonedChildren(zone, source, d);
    EarliestIsLeast(source.children);
    var j :| 0 <= j < |source.children| && source.children[j].scheduledAt == source.scheduledAt;
    EarliestOfSynced(zone, source, d, j);
  }

  /** None of the children's wall clocks is resolved to an instant before the post's. */
  ghost predicate ChildrenFollow(zone: Zone, source: Post, d: Date)
    requires source.scheduledAt.Some?
  {
    var w := CloneWall(zone, source, d);
    forall i :: 0 <= i < |source.children| && source.children[i].scheduledAt.Some? ==>
      var distance := source.children[i].scheduledAt.value - source.scheduledAt.value;
      Resolve(zone, w, false) <= Resolve(zone, w + distance, false)
  }

  /** On this date the zone resolves the source's local time to that date, and none of its
      children's wall clocks to an earlier instant: the local time is not in a gap of the clocks
      that a child jumps over. */
  ghost predicate SteadyOn(zone: Zone, source: Post, d: Date)
    requires source.scheduledAt.Some?
  {
    var origin, w := source.scheduledAt.value, CloneWall(zone, source, d);
    if source.children == [] then DateOf(zone, Resolve(zone, w, FoldOf(zone, origin))) == d
    else
      DateOf(zone, Resolve(zone, w, false)) == d && ChildrenFollow(zone, source, d)
  }

  ghost predicate Steady(zone: Zone, source: Post)
    requires source.scheduledAt.Some?
  {
    forall d :: ValidDate(d) ==> SteadyOn(zone, source, d)
  }

  /** The clone of a source in sync stands at the source's local time on the date asked for. */
  lemma CloneOfSynced(zone: Zone, source: Post, d: Date)
    requires source.scheduledAt.Some? && InSync(source) && SteadyOn(zone, source, d)
    ensures var fold := source.children == [] && FoldOf(zone, source.scheduledAt.value);
      Clone(zone, source, d).scheduledAt == Some(Resolve(zone, CloneWall(zone, source, d), fold))
    ensures DateOf(zone, Clone(zone, source, d).scheduledAt.value) == d
  {
    if source.children != [] {
      EarliestIsLeast(source.children);
      ClonedChildren(zone, source, d);
      var j :| 0 <= j < |source.children| && source.children[j].scheduledAt == source.scheduledAt;
      EarliestOfSynced(zone, source, d, j);
    }
  }

  lemma EarliestOfSynced(zone: Zone, source: Post, d: Date, j: nat)
    requires source.scheduledAt.Some? && ChildrenFollow(zone, source, d)
    requires j < |source.children| && source.children[j].scheduledAt == source.scheduledAt
    ensures EarliestChild(Clone(zone, source, d).children) == Some(Resolve(zone, CloneWall(zone, source, d), false))
  {
    var copies, w := Clone(zone, source, d).children, CloneWall(zone, source, d);
    EarliestIsLeast(copies);
    ClonedChildren(zone, source, d);
    assert copies[j] == CloneChild(zone, source.children[j], source.scheduledAt.value, w);
    assert copies[j].scheduledAt == Some(Resolve(zone, w, false));
    var e := EarliestChild(copies);
    var i :| 0 <= i < |copies| && copies[i].scheduledAt == e;
    assert copies[i] == CloneChild(zone, source.children[i], source.scheduledAt.value, w);
  }

  // ------------------------------------------------------------------ a change of the clocks

  /** A zone whose clocks, two hours ahead, go back by one when they show `s`. */
  function FallBackZone(s: Wall): Zone {
    Zone((w: Wall, fold: bool) => if w < s - HOUR || (w < s && !fold) then w - 2 * HOUR else w - HOUR,
         (x: Instant) => if x < s - 2 * HOUR then x + 2 * HOUR else x + HOUR,
         (x: Instant) => s - 2 * HOUR <= x < s - HOUR)
  }

  /** Across such a change a child that lies behind it is cloned an hour too late, although the
      source is in sync and nothing else is out of the ordinary. */
  lemma ClockChangeBreaksOffsets(s: Wall, source: Post, d: Date, i: nat)
    requires source.scheduledAt.Some? && InSync(source) && ValidDate(d)
    requires i < |source.children| && source.children[i].scheduledAt.Some?
    requires var w := CloneWall(FallBackZone(s), source, d);
      w < s <= w + (source.children[i].scheduledAt.value - source.scheduledAt.value)
    ensures SteadyOn(FallBackZone(s), source, d) && !OffsetsKept(source, Clone(FallBackZone(s), source, d))
    ensures var clone := Clone(FallBackZone(s), source, d);
      && clone.scheduledAt.Some? && clone.children[i].scheduledAt.Some?
      && clone.children[i].scheduledAt.value - clone.scheduledAt.value
         == source.children[i].scheduledAt.value - source.scheduledAt.value + HOUR
  {
    var zone := FallBackZone(s);
    var w := CloneWall(zone, source, d);
    EarliestIsLeast(source.children);
    CombineSplits(d, TimeOf(zone, source.scheduledAt.value));
    assert WallOf(zone, Resolve(zone, w, false)) == w;
    CloneOfSynced(zone, source, d);
    ClonedChildren(zone, source, d);
  }

  /** As in Berlin: a post of 1 August at 20:00 with a second child twelve hours later, cloned onto
      25 October of a year whose clocks go back on the 26th. Its second child comes thirteen hours
      later. */
  lemma OctoberClone(year: int, workspace: int, caption: string, a: int, b: int)
    ensures var s := Combine(Date(year * 12 + 9, 26), 3 * HOUR);
      var at := Combine(Date(year * 12 + 7, 1), 20 * HOUR) - 2 * HOUR;
      var source := TwoChildren(workspace, caption, a, b, at);
      var clone := Clone(FallBackZone(s), source, Date(year * 12 + 9, 25));
      && InSync(source) && clone.scheduledAt.Some? && |clone.children| == 2
      && clone.children[1].scheduledAt == Some(clone.scheduledAt.value + 13 * HOUR)
  {
    var s, start := Combine(Date(year * 12 + 9, 26), 3 * HOUR), Combine(Date(year * 12 + 7, 1), 20 * HOUR);
    var source := TwoChildren(workspace, caption, a, b, start - 2 * HOUR);
    TwoChildrenInSync(workspace, caption, a, b, start - 2 * HOUR);
    OctoberClocks(year);
    ClockChangeBreaksOffsets(s, source, Date(year * 12 + 9, 25), 1);
  }

  lemma OctoberClocks(year: int)
    ensures var s, start := Combine(Date(year * 12 + 9, 26), 3 * HOUR), Combine(Date(year * 12 + 7, 1), 20 * HOUR);
      var w := Combine(Date(year * 12 + 9, 25), 20 * HOUR);
      TimeOf(FallBackZone(s), start - 2 * HOUR) == 20 * HOUR && w < s <= w + 12 * HOUR
      && ValidDate(Date(year * 12 + 9, 25))
  {
    var august, october := year * 12 + 7, year * 12 + 9;
    var s, start := Combine(Date(october, 26), 3 * HOUR), Combine(Date(august, 1), 20 * HOUR);
    MonthStartGrows(august, october);
    CombineGrows(Date(august, 1), Date(october, 26), 20 * HOUR);
    CombineGrows(Date(october, 25), Date(october, 26), 20 * HOUR);
    SameDay(Date(october, 26), 3 * HOUR, 20 * HOUR);
    assert WallOf(FallBackZone(s), start - 2 * HOUR) == start;
    LongMonths(year);
    CombineSplits(Date(august, 1), 20 * HOUR);
  }

  lemma SameDay(d: Date, a: int, b: int)
    ensures Combine(d, b) - Combine(d, a) == b - a
  {}

  lemma LongMonths(year: int)
    ensures MonthLength(year * 12 + 7) == 31 && MonthLength(year * 12 + 9) == 31
  {
    MonthHasLength(year, 7);
    MonthHasLength(year, 9);
  }

  /** A post at `at` with one child there and one twelve hours later. */
  function TwoChildren(workspace: int, caption: string, a: int, b: int, at: Instant): Post {
    Post(workspace, caption, Some(at), [Child(a, Scheduled, Some(at)), Child(b, Scheduled, Some(at + 12 * HOUR))])
  }

  lemma TwoChildrenInSync(workspace: int, caption: string, a: int, b: int, at: Instant)
    ensures InSync(TwoChildren(workspace, caption, a, b, at))
  {
    var children := TwoChildren(workspace, caption, a, b, at).children;
    assert children[..1] == [children[0]] && [children[0]][..0] == [];
    assert EarliestChild([children[0]]) == Some(at);
  }

  // ------------------------------------------------------------------ one rule

  lemma {:induction false} PendingMembers(dates: seq<Date>, existing: set<Date>, today: Date)
    ensures forall d :: d in Pending(dates, existing, today) <==> d in dates && d !in existing && !AtMost(d, today)
  {
    if dates != [] {
      var n := |dates| - 1;
      PendingMembers(dates[..n], existing, today);
      assert dates == dates[..n] + [dates[n]];
    }
  }

  lemma {:induction false} PendingIncreases(dates: seq<Date>, existing: set<Date>, today: Date)
    requires StrictlyIncreasing(dates)
    ensures StrictlyIncreasing(Pending(dates, existing, today))
  {
    if dates != [] {
      var n := |dates| - 1;
      PendingIncreases(dates[..n], existing, today);
      PendingMembers(dates[..n], existing, today);
      var before := Pending(dates[..n], existing, today);
      forall i | 0 <= i < |before| ensures Before(before[i], dates[n]) {
        assert before[i] in dates[..n];
      }
    }
  }

  /** What a rule still has to generate: its dates after today that no other post stands on. */
  lemma RulePendingMembers(zone: Zone, posts: seq<Post>, rule: Rule, now: Instant, d: Date)
    requires rule.source < |posts| && posts[rule.source].scheduledAt.Some?
    ensures d in RulePending(zone, posts, rule, now) <==>
      && d in RuleDates(zone, posts[rule.source], rule, now) && !AtMost(d, DateOf(zone, now))
      && !Taken(zone, posts, rule.source, d)
    ensures Taken(zone, posts, rule.source, d) <==>
      exists i ::
        && 0 <= i < |posts| && i != rule.source
        && posts[i].workspace == posts[rule.source].workspace && posts[i].caption == posts[rule.source].caption
        && posts[i].scheduledAt.Some? && WallDate(zone.wallOf(posts[i].scheduledAt.value)) == d
  {
    if i :|
      && 0 <= i < |posts| && i != rule.source
      && posts[i].workspace == posts[rule.source].workspace && posts[i].caption == posts[rule.source].caption
      && posts[i].scheduledAt.Some? && WallDate(zone.wallOf(posts[i].scheduledAt.value)) == d
    {
      assert Occupies(zone, posts, rule.source, i, d);
    }
    var dates := RuleDates(zone, posts[rule.source], rule, now);
    PendingMembers(dates, Existing(zone, posts, rule.source, dates), DateOf(zone, now));
  }

  ghost predicate Due(zone: Zone, source: Post, rule: Rule, now: Instant, d: Date)
    requires source.scheduledAt.Some?
  {
    d in RuleDates(zone, source, rule, now) && !AtMost(d, DateOf(zone, now))
  }

  /** What one rule should generate, in the rule's own terms: its k-th occurrence, if after
      today, at most ninety days ahead and not past its end date, with no other such post on it. */
  ghost predicate Wanted(zone: Zone, posts: seq<Post>, rule: Rule, now: Instant, k: nat)
    requires rule.source < |posts| && posts[rule.source].scheduledAt.Some?
  {
    var d := OccurrenceOf(zone, posts[rule.source], rule, k);
    && k >= 1 && Before(DateOf(zone, now), d) && AtMost(d, AddDays(DateOf(zone, now), LOOKAHEAD_DAYS))
    && (rule.endDate.Some? ==> AtMost(d, rule.endDate.value))
    && !Taken(zone, posts, rule.source, d)
  }

  function OccurrenceOf(zone: Zone, source: Post, rule: Rule, k: nat): Date
    requires source.scheduledAt.Some?
  {
    Occurrence(rule.frequency, rule.interval, DateOf(zone, source.scheduledAt.value), k)
  }

  /** An occurrence is generated exactly when it is wanted and within the safety limit. */
  lemma OccurrenceGeneratedIff(zone: Zone, posts: seq<Post>, rule: Rule, now: Instant, k: nat)
    requires rule.source < |posts| && posts[rule.source].scheduledAt.Some?
    requires rule.interval > 0 && rule.frequency != Other && k >= 1
    ensures OccurrenceOf(zone, posts[rule.source], rule, k) in RulePending(zone, posts, rule, now)
      <==> Wanted(zone, posts, rule, now, k) && k <= MAX_RECURRENCES
  {
    var base, today := DateOf(zone, posts[rule.source].scheduledAt.value), DateOf(zone, now);
    var d := OccurrenceOf(zone, posts[rule.source], rule, k);
    RulePendingMembers(zone, posts, rule, now, d);
    EndIsEarlier(rule, today, d);
    OccurrenceListedIff(rule.frequency, rule.interval, base, End(rule, today), k);
  }

  /** Nothing but occurrences is ever generated, and no date twice. */
  lemma RuleGeneratesOccurrences(zone: Zone, posts: seq<Post>, rule: Rule, now: Instant)
    requires rule.source < |posts| && posts[rule.source].scheduledAt.Some?
    requires rule.interval > 0 && rule.frequency != Other
    ensures forall d :: d in RulePending(zone, posts, rule, now) ==>
      exists k: nat :: k >= 1 && d == OccurrenceOf(zone, posts[rule.source], rule, k)
    ensures StrictlyIncreasing(RulePending(zone, posts, rule, now))
  {
    var base, today := DateOf(zone, posts[rule.source].scheduledAt.value), DateOf(zone, now);
    var dates := RuleDates(zone, posts[rule.source], rule, now);
    DatesOfRule(rule, base, End(rule, today));
    PendingIncreases(dates, Existing(zone, posts, rule.source, dates), today);
    forall d | d in RulePending(zone, posts, rule, now)
      ensures exists k: nat :: k >= 1 && d == OccurrenceOf(zone, posts[rule.source], rule, k)
    {
      RulePendingMembers(zone, posts, rule, now, d);
      ListedIsOccurrence(rule.frequency, rule.interval, base, |dates|, d);
      var k: nat :| k >= 1 && d == Occurrence(rule.frequency, rule.interval, base, k);
      assert d == OccurrenceOf(zone, posts[rule.source], rule, k);
    }
  }

  /** Everything wanted is generated exactly when nothing wanted lies beyond the safety limit. */
  lemma RuleGeneratesAllWantedIff(zone: Zone, posts: seq<Post>, rule: Rule, now: Instant)
    requires rule.source < |posts| && posts[rule.source].scheduledAt.Some?
    requires rule.interval > 0 && rule.frequency != Other
    ensures (forall k: nat :: Wanted(zone, posts, rule, now, k) ==>
               OccurrenceOf(zone, posts[rule.source], rule, k) in RulePending(zone, posts, rule, now))
      <==> (forall k: nat :: k > MAX_RECURRENCES ==> !Wanted(zone, posts, rule, now, k))
  {
    forall k: nat | Wanted(zone, posts, rule, now, k)
      ensures OccurrenceOf(zone, posts[rule.source], rule, k) in RulePending(zone, posts, rule, now)
        <==> k <= MAX_RECURRENCES
    {
      OccurrenceGeneratedIff(zone, posts, rule, now, k);
    }
  }

  /** A rule runs dry: once its last listed occurrence is not after today it generates nothing,
      on that day or any later one. A daily rule stops for good after 180 days. */
  lemma RuleRunsDry(zone: Zone, posts: seq<Post>, rule: Rule, now: Instant)
    requires rule.source < |posts| && posts[rule.source].scheduledAt.Some?
    requires rule.interval > 0 && rule.frequency != Other
    requires AtMost(OccurrenceOf(zone, posts[rule.source], rule, MAX_RECURRENCES), DateOf(zone, now))
    ensures RulePending(zone, posts, rule, now) == []
  {
    var pending, base := RulePending(zone, posts, rule, now), DateOf(zone, posts[rule.source].scheduledAt.value);
    if pending != [] {
      RuleGeneratesOccurrences(zone, posts, rule, now);
      assert pending[0] in pending;
      var k: nat :| k >= 1 && pending[0] == OccurrenceOf(zone, posts[rule.source], rule, k);
      OccurrenceGeneratedIff(zone, posts, rule, now, k);
      if k < MAX_RECURRENCES { OccurrencesIncrease(rule.frequency, rule.interval, base, k, MAX_RECURRENCES); }
      assert false;
    }
  }

  lemma ListedIsOccurrence(f: Frequency, interval: nat, base: Date, n: nat, d: Date)
    requires d in Occurrences(f, interval, base, n)
    ensures exists k: nat :: k >= 1 && d == Occurrence(f, interval, base, k)
  {
    var i :| 0 <= i < n && Occurrences(f, interval, base, n)[i] == d;
    assert d == Occurrence(f, interval, base, i + 1);
  }

  /** The end of the rule is the earlier of its end date and the ninety-day horizon. */
  lemma EndIsEarlier(rule: Rule, today: Date, d: Date)
    ensures AtMost(d, End(rule, today))
      <==> AtMost(d, AddDays(today, LOOKAHEAD_DAYS)) && (rule.endDate.Some? ==> AtMost(d, rule.endDate.value))
  {
    var cutoff := AddDays(today, LOOKAHEAD_DAYS);
    if rule.endDate.Some? { assert Before(cutoff, rule.endDate.value) || AtMost(rule.endDate.value, cutoff); }
  }

  lemma DatesOfRule(rule: Rule, base: Date, end: Date)
    requires rule.interval > 0 && rule.frequency != Other
    ensures var dates := RecurrenceDates(rule.frequency, rule.interval, base, end, MAX_RECURRENCES);
      StrictlyIncreasing(dates) && forall d :: d in dates ==> AtMost(d, end)
  {
    var n := Listed(rule.frequency, rule.interval, base, end, 0, MAX_RECURRENCES);
    ListedIsPrefix(rule.frequency, rule.interval, base, end, 0, MAX_RECURRENCES);
    IncreasingWhenPositive(rule.frequency, rule.interval, base, n);
  }

  /** Nothing is left for the rule to generate. */
  ghost predicate Covered(zones: Zones, posts: seq<Post>, rule: Rule, now: Instant)
    requires rule.source < |posts|
  {
    var zone := zones(posts[rule.source].workspace);
    posts[rule.source].scheduledAt.Some? ==>
      forall d :: Due(zone, posts[rule.source], rule, now, d) ==> Taken(zone, posts, rule.source, d)
  }

  lemma CoveredIffIdle(zones: Zones, posts: seq<Post>, rule: Rule, now: Instant)
    requires rule.source < |posts|
    ensures Covered(zones, posts, rule, now) <==> GenerateRule(zones, posts, rule, now) == posts
  {
    var source := posts[rule.source];
    var zone := zones(source.workspace);
    if source.scheduledAt.Some? {
      var pending := RulePending(zone, posts, rule, now);
      forall d ensures d in pending <==>
        && d in RuleDates(zone, source, rule, now) && !AtMost(d, DateOf(zone, now))
        && !Taken(zone, posts, rule.source, d)
      {
        RulePendingMembers(zone, posts, rule, now, d);
      }
      assert pending != [] ==> pending[0] in pending;
      assert |GenerateRule(zones, posts, rule, now)| == |posts| + |pending|;
      if pending == [] { assert GenerateRule(zones, posts, rule, now) == posts; }
    }
  }

  /** Further posts never uncover a rule. */
  lemma CoveredStays(zones: Zones, posts: seq<Post>, more: seq<Post>, rule: Rule, now: Instant)
    requires rule.source < |posts| && Covered(zones, posts, rule, now)
    ensures Covered(zones, posts + more, rule, now)
  {
    var zone := zones(posts[rule.source].workspace);
    forall i: nat, d | Occupies(zone, posts, rule.source, i, d)
      ensures Occupies(zone, posts + more, rule.source, i, d)
    {}
  }

  lemma CoveredStaysAfterRule(zones: Zones, posts: seq<Post>, other: Rule, rule: Rule, now: Instant)
    requires other.source < |posts| && rule.source < |posts| && Covered(zones, posts, rule, now)
    ensures Covered(zones, GenerateRule(zones, posts, other, now), rule, now)
  {
    var after := GenerateRule(zones, posts, other, now);
    assert after == posts + after[|posts|..];
    CoveredStays(zones, posts, after[|posts|..], rule, now);
  }

  /** The clone made for one pending date stands on another. */
  ghost predicate LandsOn(zone: Zone, source: Post, made: Date, d: Date)
    requires source.scheduledAt.Some?
  {
    Clone(zone, source, made).scheduledAt.Some? && DateOf(zone, Clone(zone, source, made).scheduledAt.value) == d
  }

  ghost predicate Met(zone: Zone, source: Post, made: seq<Date>, d: Date)
    requires source.scheduledAt.Some?
  {
    exists m :: m in made && LandsOn(zone, source, m, d)
  }

  lemma TakenAfterIff(zones: Zones, posts: seq<Post>, rule: Rule, now: Instant, d: Date)
    requires rule.source < |posts| && posts[rule.source].scheduledAt.Some?
    requires Due(zones(posts[rule.source].workspace), posts[rule.source], rule, now, d)
    ensures var zone, source := zones(posts[rule.source].workspace), posts[rule.source];
      var pending := RulePending(zone, posts, rule, now);
      Taken(zone, GenerateRule(zones, posts, rule, now), rule.source, d)
      <==> (d in pending ==> Met(zone, source, pending, d))
  {
    OccupiedAfter(zones, posts, rule, now, d);
    RulePendingMembers(zones(posts[rule.source].workspace), posts, rule, now, d);
  }

  /** Running a rule twice at the same moment: idle the second time exactly when every pending
      date has some clone standing on it. */
  lemma SecondRunIsIdleIff(zones: Zones, posts: seq<Post>, rule: Rule, now: Instant)
    requires rule.source < |posts| && posts[rule.source].scheduledAt.Some?
    ensures var zone, source := zones(posts[rule.source].workspace), posts[rule.source];
      var pending := RulePending(zone, posts, rule, now);
      var once := GenerateRule(zones, posts, rule, now);
      GenerateRule(zones, once, rule, now) == once <==> (forall d :: d in pending ==> Met(zone, source, pending, d))
  {
    var zone, source := zones(posts[rule.source].workspace), posts[rule.source];
    var pending := RulePending(zone, posts, rule, now);
    var once := GenerateRule(zones, posts, rule, now);
    CoveredIffIdle(zones, once, rule, now);
    assert once[rule.source] == source;
    if forall d :: d in pending ==> Met(zone, source, pending, d) {
      forall d | Due(zone, source, rule, now, d) ensures Taken(zone, once, rule.source, d) {
        TakenAfterIff(zones, posts, rule, now, d);
      }
    } else {
      var d :| d in pending && !Met(zone, source, pending, d);
      RulePendingMembers(zone, posts, rule, now, d);
      TakenAfterIff(zones, posts, rule, now, d);
      assert Due(zone, source, rule, now, d) && !Taken(zone, once, rule.source, d);
    }
  }

  lemma OccupiedAfter(zones: Zones, posts: seq<Post>, rule: Rule, now: Instant, d: Date)
    requires rule.source < |posts| && posts[rule.source].scheduledAt.Some?
    ensures var zone, source := zones(posts[rule.source].workspace), posts[rule.source];
      var pending := RulePending(zone, posts, rule, now);
      var once := GenerateRule(zones, posts, rule, now);
      Taken(zone, once, rule.source, d)
      <==> Taken(zone, posts, rule.source, d) || Met(zone, source, pending, d)
  {
    var zone, source := zones(posts[rule.source].workspace), posts[rule.source];
    var pending := RulePending(zone, posts, rule, now);
    var once := GenerateRule(zones, posts, rule, now);
    if i: nat :| Occupies(zone, once, rule.source, i, d) {
      if i < |posts| {
        assert Occupies(zone, posts, rule.source, i, d);
      } else {
        var made := pending[i - |posts|];
        assert once[i] == Clone(zone, source, made);
        assert LandsOn(zone, source, made, d);
      }
    }
    if i: nat :| Occupies(zone, posts, rule.source, i, d) {
      assert Occupies(zone, once, rule.source, i, d);
    }
    if made :| made in pending && LandsOn(zone, source, made, d) {
      var k :| 0 <= k < |pending| && pending[k] == made;
      assert once[|posts| + k] == Clone(zone, source, made);
      assert Occupies(zone, once, rule.source, |posts| + k, d);
    }
  }

  /** A source whose children are all unscheduled is cloned onto the same dates again each time. */
  lemma UnscheduledChildrenAreClonedAgain(zones: Zones, posts: seq<Post>, rule: Rule, now: Instant)
    requires rule.source < |posts| && posts[rule.source].scheduledAt.Some?
    requires posts[rule.source].children != [] && EarliestChild(posts[rule.source].children).None?
    ensures var zone, source := zones(posts[rule.source].workspace), posts[rule.source];
      var clones := Clones(zone, source, RulePending(zone, posts, rule, now));
      GenerateRule(zones, GenerateRule(zones, posts, rule, now), rule, now) == posts + clones + clones
  {
    var zone, source := zones(posts[rule.source].workspace), posts[rule.source];
    var once := GenerateRule(zones, posts, rule, now);
    var dates := RuleDates(zone, source, rule, now);
    forall d | d in dates
      ensures Taken(zone, once, rule.source, d)
        <==> Taken(zone, posts, rule.source, d)
    {
      OccupiedAfter(zones, posts, rule, now, d);
      forall made ensures !LandsOn(zone, source, made, d) { ClonedChildren(zone, source, made); }
    }
    assert Existing(zone, once, rule.source, dates) == Existing(zone, posts, rule.source, dates);
  }

  /** The source is in sync, and its zone's clocks do not confuse it. */
  ghost predicate Sound(zones: Zones, source: Post) {
    InSync(source) && (source.scheduledAt.Some? ==> Steady(zones(source.workspace), source))
  }

  lemma PendingIsValid(zone: Zone, posts: seq<Post>, rule: Rule, now: Instant, d: Date)
    requires rule.source < |posts| && posts[rule.source].scheduledAt.Some? && d in RulePending(zone, posts, rule, now)
    ensures ValidDate(d)
  {
    RulePendingMembers(zone, posts, rule, now, d);
    var base := DateOf(zone, posts[rule.source].scheduledAt.value);
    WallDateIsValid(WallOf(zone, posts[rule.source].scheduledAt.value));
    if rule.frequency != Other {
      ListedIsOccurrence(rule.frequency, rule.interval, base, |RuleDates(zone, posts[rule.source], rule, now)|, d);
      var k: nat :| k >= 1 && d == Occurrence(rule.frequency, rule.interval, base, k);
      OccurrenceIsValid(rule.frequency, rule.interval, base, k);
    }
  }

  lemma SyncedRuleIsCovered(zones: Zones, posts: seq<Post>, rule: Rule, now: Instant)
    requires rule.source < |posts| && Sound(zones, posts[rule.source])
    ensures Covered(zones, GenerateRule(zones, posts, rule, now), rule, now)
  {
    var zone, source := zones(posts[rule.source].workspace), posts[rule.source];
    var once := GenerateRule(zones, posts, rule, now);
    if source.scheduledAt.Some? {
      forall d | d in RulePending(zone, posts, rule, now) ensures LandsOn(zone, source, d, d) {
        PendingIsValid(zone, posts, rule, now, d);
        CloneOfSynced(zone, source, d);
      }
      SecondRunIsIdleIff(zones, posts, rule, now);
      CoveredIffIdle(zones, once, rule, now);
    }
  }

  // ------------------------------------------------------------------ whole runs of the job

  ghost predicate Synced(zones: Zones, posts: seq<Post>, rules: seq<Rule>)
    requires ValidRules(posts, rules)
  {
    forall k :: 0 <= k < |rules| ==> Sound(zones, posts[rules[k].source])
  }

  ghost predicate AllCovered(zones: Zones, posts: seq<Post>, rules: seq<Rule>, now: Instant)
    requires ValidRules(posts, rules)
  {
    forall k :: 0 <= k < |rules| ==> Covered(zones, posts, rules[k], now)
  }

  lemma CoverOneMore(zones: Zones, posts: seq<Post>, rules: seq<Rule>, n: nat, now: Instant)
    requires n < |rules| && ValidRules(posts, rules) && Sound(zones, posts[rules[n].source])
    requires forall k :: 0 <= k < n ==> Covered(zones, posts, rules[k], now)
    ensures forall k :: 0 <= k <= n ==> Covered(zones, GenerateRule(zones, posts, rules[n], now), rules[k], now)
  {
    SyncedRuleIsCovered(zones, posts, rules[n], now);
    forall k | 0 <= k < n ensures Covered(zones, GenerateRule(zones, posts, rules[n], now), rules[k], now) {
      CoveredStaysAfterRule(zones, posts, rules[n], rules[k], now);
    }
  }

  lemma {:induction false} RunCoversRules(zones: Zones, posts: seq<Post>, rules: seq<Rule>, now: Instant)
    requires ValidRules(posts, rules) && Synced(zones, posts, rules)
    ensures AllCovered(zones, GenerateAll(zones, posts, rules, now), rules, now)
  {
    if rules != [] {
      var n := |rules| - 1;
      RunCoversRules(zones, posts, rules[..n], now);
      var earlier := GenerateAll(zones, posts, rules[..n], now);
      forall k | 0 <= k < n ensures Covered(zones, earlier, rules[k], now) {
        assert rules[..n][k] == rules[k];
      }
      assert earlier[rules[n].source] == posts[rules[n].source];
      CoverOneMore(zones, earlier, rules, n, now);
    }
  }

  lemma {:induction false} CoveredRunIsIdle(zones: Zones, posts: seq<Post>, rules: seq<Rule>, now: Instant)
    requires ValidRules(posts, rules) && AllCovered(zones, posts, rules, now)
    ensures GenerateAll(zones, posts, rules, now) == posts
  {
    if rules != [] {
      var n := |rules| - 1;
      CoveredRunIsIdle(zones, posts, rules[..n], now);
      CoveredIffIdle(zones, posts, rules[n], now);
    }
  }

  /** When every source is in sync, running the job again at the same moment creates nothing. */
  lemma SecondRunCreatesNothing(zones: Zones, posts: seq<Post>, rules: seq<Rule>, now: Instant)
    requires ValidRules(posts, rules) && Synced(zones, posts, rules)
    ensures var once := GenerateAll(zones, posts, rules, now);
      ValidRules(once, rules) && GenerateAll(zones, once, rules, now) == once
  {
    RunCoversRules(zones, posts, rules, now);
    CoveredRunIsIdle(zones, GenerateAll(zones, posts, rules, now), rules, now);
  }

  /** Two posts of one workspace with one caption on one local date. */
  ghost predicate Clash(zones: Zones, posts: seq<Post>, i: nat, j: nat)
    requires i < |posts| && j < |posts|
  {
    var p, q := posts[i], posts[j];
    && p.workspace == q.workspace && p.caption == q.caption && p.scheduledAt.Some? && q.scheduledAt.Some?
    && DateOf(zones(p.workspace), p.scheduledAt.value) == DateOf(zones(p.workspace), q.scheduledAt.value)
  }

  /** No post with an index from `first` on stands on the date of an earlier one. */
  ghost predicate NoClash(zones: Zones, posts: seq<Post>, first: nat) {
    forall i, j :: 0 <= i < j < |posts| && first <= j ==> !Clash(zones, posts, i, j)
  }

  lemma RuleKeepsNoClash(zones: Zones, posts: seq<Post>, rule: Rule, now: Instant, first: nat)
    requires rule.source < |posts| && Sound(zones, posts[rule.source])
    requires rule.interval > 0 && first <= |posts| && NoClash(zones, posts, first)
    ensures NoClash(zones, GenerateRule(zones, posts, rule, now), first)
  {
    var zone, source := zones(posts[rule.source].workspace), posts[rule.source];
    if source.scheduledAt.Some? {
      var after := GenerateRule(zones, posts, rule, now);
      var pending := RulePending(zone, posts, rule, now);
      var dates := RuleDates(zone, source, rule, now);
      RuleDatesFollowBase(zone, source, rule, now);
      PendingIncreases(dates, Existing(zone, posts, rule.source, dates), DateOf(zone, now));
      forall k | 0 <= k < |pending| ensures ValidDate(pending[k]) {
        PendingIsValid(zone, posts, rule, now, pending[k]);
      }
      forall i, j | 0 <= i < j < |after| && first <= j ensures !Clash(zones, after, i, j) {
        if j >= |posts| {
          var d := pending[j - |posts|];
          assert after[j] == Clone(zone, source, d);
          CloneOfSynced(zone, source, d);
          RulePendingMembers(zone, posts, rule, now, d);
          if i >= |posts| {
            CloneOfSynced(zone, source, pending[i - |posts|]);
            assert Before(pending[i - |posts|], d);
          } else if i != rule.source {
            assert !Occupies(zone, posts, rule.source, i, d);
          }
        } else {
          assert !Clash(zones, posts, i, j);
        }
      }
    }
  }

  lemma RuleDatesFollowBase(zone: Zone, source: Post, rule: Rule, now: Instant)
    requires source.scheduledAt.Some? && rule.interval > 0
    ensures var dates := RuleDates(zone, source, rule, now);
      StrictlyIncreasing(dates) && forall d :: d in dates ==> Before(DateOf(zone, source.scheduledAt.value), d)
  {
    var dates := RuleDates(zone, source, rule, now);
    var base := DateOf(zone, source.scheduledAt.value);
    if rule.frequency != Other {
      forall i | 0 <= i < |dates| ensures Before(base, dates[i]) {
        OccurrencesIncrease(rule.frequency, rule.interval, base, 0, i + 1);
      }
      IncreasingWhenPositive(rule.frequency, rule.interval, base, |dates|);
    }
  }

  lemma {:induction false} JobKeepsNoClash(zones: Zones, posts: seq<Post>, rules: seq<Rule>, now: Instant, first: nat)
    requires ValidRules(posts, rules) && Synced(zones, posts, rules)
    requires forall k :: 0 <= k < |rules| ==> rules[k].interval > 0
    requires first <= |posts| && NoClash(zones, posts, first)
    ensures NoClash(zones, GenerateAll(zones, posts, rules, now), first)
  {
    if rules != [] {
      var n := |rules| - 1;
      JobKeepsNoClash(zones, posts, rules[..n], now, first);
      var earlier := GenerateAll(zones, posts, rules[..n], now);
      assert earlier[rules[n].source] == posts[rules[n].source];
      RuleKeepsNoClash(zones, earlier, rules[n], now, first);
    }
  }

  /** The job run at each of the given moments in turn, over the posts of one database. */
  ghost predicate Runs(zones: Zones, states: seq<seq<Post>>, rules: seq<Rule>, moments: seq<Instant>) {
    && |states| == |moments| + 1 && (forall i :: 0 <= i < |states| ==> ValidRules(states[i], rules))
    && forall i :: 0 <= i < |moments| ==> states[i + 1] == GenerateAll(zones, states[i], rules, moments[i])
  }

  lemma RunKeepsSources(zones: Zones, was: seq<Post>, posts: seq<Post>, rules: seq<Rule>, now: Instant)
    requires ValidRules(was, rules) && was <= posts
    ensures ValidRules(posts, rules) && was <= GenerateAll(zones, posts, rules, now)
    ensures Synced(zones, was, rules) ==> Synced(zones, posts, rules)
  {
    forall k | 0 <= k < |rules| ensures posts[rules[k].source] == was[rules[k].source] {}
  }

  /** However often and whenever the job runs, no generated post ever shares its workspace,
      caption and local date with another post, whichever rule made it. */
  lemma {:induction false} NoDateIsGeneratedTwice(zones: Zones, states: seq<seq<Post>>, rules: seq<Rule>,
                                                  moments: seq<Instant>, n: nat)
    requires Runs(zones, states, rules, moments) && Synced(zones, states[0], rules) && n <= |moments|
    requires forall k :: 0 <= k < |rules| ==> rules[k].interval > 0
    ensures states[0] <= states[n] && NoClash(zones, states[n], |states[0]|)
  {
    if n > 0 {
      NoDateIsGeneratedTwice(zones, states, rules, moments, n - 1);
      RunKeepsSources(zones, states[0], states[n - 1], rules, moments[n - 1]);
      JobKeepsNoClash(zones, states[n - 1], rules, moments[n - 1], |states[0]|);
    }
  }

  /** Interval zero breaks it: a source that lies ahead, within the horizon and alone on its date,
      is cloned onto that very date up to the safety limit; any other is not cloned at all. */
  lemma ZeroIntervalClashes(zones: Zones, posts: seq<Post>, rule: Rule, now: Instant)
    requires rule.source < |posts| && posts[rule.source].scheduledAt.Some?
    requires rule.interval == 0 && rule.frequency != Other
    ensures var zone, source := zones(posts[rule.source].workspace), posts[rule.source];
      var base, today := DateOf(zone, source.scheduledAt.value), DateOf(zone, now);
      GenerateRule(zones, posts, rule, now) ==
        if Before(today, base) && AtMost(base, End(rule, today)) && !Taken(zone, posts, rule.source, base)
        then posts + seq(MAX_RECURRENCES, _ => Clone(zone, source, base)) else posts
  {
    var zone, source := zones(posts[rule.source].workspace), posts[rule.source];
    var base := DateOf(zone, source.scheduledAt.value);
    ZeroIntervalPending(zone, posts, rule, now);
    ClonesOfOneDate(zone, source, base, MAX_RECURRENCES);
  }

  lemma ClonesOfOneDate(zone: Zone, source: Post, d: Date, n: nat)
    requires source.scheduledAt.Some?
    ensures Clones(zone, source, seq(n, _ => d)) == seq(n, _ => Clone(zone, source, d))
  {}

  lemma ZeroIntervalPending(zone: Zone, posts: seq<Post>, rule: Rule, now: Instant)
    requires rule.source < |posts| && posts[rule.source].scheduledAt.Some?
    requires rule.interval == 0 && rule.frequency != Other
    ensures var base, today := DateOf(zone, posts[rule.source].scheduledAt.value), DateOf(zone, now);
      RulePending(zone, posts, rule, now) ==
        if Before(today, base) && AtMost(base, End(rule, today)) && !Taken(zone, posts, rule.source, base)
        then seq(MAX_RECURRENCES, _ => base) else []
  {
    var source := posts[rule.source];
    var base, today := DateOf(zone, source.scheduledAt.value), DateOf(zone, now);
    var dates := RuleDates(zone, source, rule, now);
    var existing := Existing(zone, posts, rule.source, dates);
    WallDateIsValid(WallOf(zone, source.scheduledAt.value));
    ZeroIntervalDates(rule.frequency, base, End(rule, today));
    PendingOfOneDate(dates, existing, today, base);
    if AtMost(base, End(rule, today)) {
      assert dates[0] == base;
      assert base in existing <==> Taken(zone, posts, rule.source, base);
    }
  }

  lemma {:induction false} PendingOfOneDate(dates: seq<Date>, existing: set<Date>, today: Date, base: Date)
    requires forall i :: 0 <= i < |dates| ==> dates[i] == base
    ensures Pending(dates, existing, today) == if base !in existing && Before(today, base) then dates else []
  {
    if dates != [] {
      var n := |dates| - 1;
      PendingOfOneDate(dates[..n], existing, today, base);
      assert dates == dates[..n] + [dates[n]];
    }
  }
}
