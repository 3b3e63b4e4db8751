/** Small vocabulary shared by every component. */
module Common {

  /** A point on the UTC time line, in microseconds. */
  type Instant = int

  datatype Option<+T> = None | Some(value: T)

  /** The earlier of two optional instants; None means "no schedule". */
  function Earlier(a: Option<Instant>, b: Option<Instant>): Option<Instant> {
    if a.None? then b
    else if b.None? then a
    else if a.value <= b.value then a
    else b
  }

  ghost predicate Increasing(s: seq<int>) {
    forall i, j :: 0 <= i < j < |s| ==> s[i] < s[j]
  }

  ghost predicate Ascending(s: seq<int>) {
    forall i, j :: 0 <= i < j < |s| ==> s[i] <= s[j]
  }

  ghost predicate Distinct<T>(s: seq<T>) {
    forall i, j :: 0 <= i < j < |s| ==> s[i] != s[j]
  }

  ghost function Elements<T>(s: seq<T>): set<T> {
    set x | x in s
  }

  lemma {:induction false} DistinctCardinality<T>(s: seq<T>)
    requires Distinct(s)
    ensures |Elements(s)| == |s|
  {
    if s == [] {
      assert Elements(s) == {};
    } else {
      var n := |s| - 1;
      DistinctCardinality(s[..n]);
      assert Elements(s) == Elements(s[..n]) + {s[n]};
    }
  }

  lemma SubsetCardinality<T>(a: set<T>, b: set<T>)
    requires a <= b
    ensures |a| <= |b|
    ensures |a| == |b| ==> a == b
  {
    assert b == a + (b - a);
  }

  lemma Pick<T>(s: set<T>) returns (x: T)
    requires s != {}
    ensures x in s
  {
    x :| x in s;
  }

  ghost predicate IsLeast(m: Instant, s: set<Instant>) {
    m in s && forall x :: x in s ==> m <= x
  }

  lemma {:induction false} LeastExists(s: set<Instant>)
    requires s != {}
    ensures exists m :: IsLeast(m, s)
  {
    var y := Pick(s);
    var rest := s - {y};
    assert s == rest + {y};
    if rest == {} {
      assert IsLeast(y, s);
    } else {
      LeastExists(rest);
      var m :| IsLeast(m, rest);
      assert IsLeast(if m <= y then m else y, s);
    }
  }

  function Least(s: set<Instant>): (m: Instant)
    requires s != {}
    ensures IsLeast(m, s)
  {
    assert exists m :: m in s && forall x :: x in s ==> m <= x by {
      LeastExists(s);
      var m :| IsLeast(m, s);
      assert m in s;
    }
    var m :| m in s && forall x :: x in s ==> m <= x;
    m
  }

  function Greatest(s: set<Instant>): (m: Instant)
    requires s != {}
    ensures m in s && forall x :: x in s ==> x <= m
  {
    var negated := set x | x in s :: -x;
    assert negated != {} by {
      var x := Pick(s);
      assert -x in negated;
    }
    var m := -Least(negated);
    assert forall x :: x in s ==> -x in negated;
    m
  }

  // ------------------------------------------------------------------ stable sort

  function Insert<T>(rank: T -> int, x: T, sorted: seq<T>): seq<T> {
    if sorted == [] || rank(x) <= rank(sorted[0]) then [x] + sorted
    else [sorted[0]] + Insert(rank, x, sorted[1..])
  }

  /** Sorts by ascending rank; equal ranks keep their order. */
  function Sort<T>(rank: T -> int, s: seq<T>): seq<T> {
    if s == [] then [] else Insert(rank, s[0], Sort(rank, s[1..]))
  }

  ghost predicate Ranked<T>(rank: T -> int, s: seq<T>) {
    forall i, j :: 0 <= i < j < |s| ==> rank(s[i]) <= rank(s[j])
  }

  lemma {:induction false} InsertPermutes<T>(rank: T -> int, x: T, sorted: seq<T>)
    ensures multiset(Insert(rank, x, sorted)) == multiset(sorted) + multiset{x}
    ensures |Insert(rank, x, sorted)| == |sorted| + 1
  {
    if !(sorted == [] || rank(x) <= rank(sorted[0])) {
      assert sorted == [sorted[0]] + sorted[1..];
      InsertPermutes(rank, x, sorted[1..]);
    }
  }

  lemma {:induction false} InsertRanks<T>(rank: T -> int, x: T, sorted: seq<T>)
    requires Ranked(rank, sorted)
    ensures Ranked(rank, Insert(rank, x, sorted))
  {
    if !(sorted == [] || rank(x) <= rank(sorted[0])) {
      var rest := Insert(rank, x, sorted[1..]);
      InsertRanks(rank, x, sorted[1..]);
      InsertPermutes(rank, x, sorted[1..]);
      forall j | 0 <= j < |rest| ensures rank(sorted[0]) <= rank(rest[j]) {
        assert rest[j] in multiset(sorted[1..]) + multiset{x};
      }
    }
  }

  lemma {:induction false} SortSorts<T>(rank: T -> int, s: seq<T>)
    ensures multiset(Sort(rank, s)) == multiset(s) && |Sort(rank, s)| == |s|
    ensures Ranked(rank, Sort(rank, s))
  {
    if s != [] {
      assert s == [s[0]] + s[1..];
      SortSorts(rank, s[1..]);
      InsertPermutes(rank, s[0], Sort(rank, s[1..]));
      InsertRanks(rank, s[0], Sort(rank, s[1..]));
    }
  }

  /** Lists a finite set in some order. */
  method Enumerate<T(==)>(s: set<T>) returns (items: seq<T>)
    ensures Distinct(items) && Elements(items) == s
  {
    items := [];
    var rest := s;
    while rest != {}
      invariant Distinct(items)
      invariant rest !! Elements(items) && rest + Elements(items) == s
      decreases rest
    {
      var x :| x in rest;
      assert x !in Elements(items);
      assert Elements(items + [x]) == Elements(items) + {x};
      items := items + [x];
      rest := rest - {x};
    }
  }
}
