/**
 The ladder at the heart of `prioritize`: movers, taken from the highest slot down,
 each climb to the first later slot that is neither avoided nor already claimed.
 */
module Ladder {
  import opened Common

  /** A queued post that moves, and the index of its present slot in the horizon. */
  datatype Mover = Mover(index: nat, post: int)

  function Indices(movers: seq<Mover>): (r: seq<nat>)
    ensures |r| == |movers| && forall i :: 0 <= i < |r| ==> r[i] == movers[i].index
  {
    seq(|movers|, i requires 0 <= i < |movers| => movers[i].index)
  }

  ghost predicate Descending(idxs: seq<nat>) {
    forall i, j :: 0 <= i < j < |idxs| ==> idxs[i] >= idxs[j]
  }

  ghost predicate StrictlyDescending(idxs: seq<nat>) {
    forall i, j :: 0 <= i < j < |idxs| ==> idxs[i] > idxs[j]
  }

  function HighestFirst(m: Mover): int { -(m.index as int) }

  function SortDescending(movers: seq<Mover>): seq<Mover> { Sort(HighestFirst, movers) }

  lemma SortDescendingSorts(movers: seq<Mover>)
    ensures multiset(SortDescending(movers)) == multiset(movers)
    ensures Descending(Indices(SortDescending(movers)))
  {
    SortSorts(HighestFirst, movers);
    var s := SortDescending(movers);
    forall i, j | 0 <= i < j < |s| ensures s[i].index >= s[j].index {
      assert HighestFirst(s[i]) <= HighestFirst(s[j]);
    }
  }

  // ------------------------------------------------------------------ the greedy climb

  /** First index from `j` on that is neither claimed nor avoided. */
  function NextOpen(h: seq<Instant>, avoid: set<Instant>, taken: set<nat>, j: nat): Option<nat>
    decreases |h| - j
  {
    if j >= |h| then None
    else if j !in taken && h[j] !in avoid then Some(j)
    else NextOpen(h, avoid, taken, j + 1)
  }

  /** Where each mover lands, in the order given; None when one of them runs off the horizon. */
  function Climb(h: seq<Instant>, avoid: set<Instant>, taken: set<nat>, idxs: seq<nat>): Option<seq<nat>>
    decreases |idxs|
  {
    if idxs == [] then Some([])
    else
      var first := NextOpen(h, avoid, taken, idxs[0] + 1);
      if first.None? then None
      else
        var rest := Climb(h, avoid, taken + {first.value}, idxs[1..]);
        if rest.None? then None else Some([first.value] + rest.value)
  }

  lemma {:induction false} NextOpenIsLeast(h: seq<Instant>, avoid: set<Instant>, taken: set<nat>, j: nat)
    ensures NextOpen(h, avoid, taken, j).Some? ==>
      var r := NextOpen(h, avoid, taken, j).value;
      j <= r < |h| && r !in taken && h[r] !in avoid
      && forall k :: j <= k < r ==> k in taken || h[k] in avoid
    ensures NextOpen(h, avoid, taken, j).None? ==> forall k :: j <= k < |h| ==> k in taken || h[k] in avoid
    decreases |h| - j
  {
    if j < |h| && !(j !in taken && h[j] !in avoid) { NextOpenIsLeast(h, avoid, taken, j + 1); }
  }

  /** Every landing is later than the mover's slot, inside the horizon, not avoided,
      and no slot is claimed twice, whatever the starting schedule. */
  lemma {:induction false} ClimbIsSafe(h: seq<Instant>, avoid: set<Instant>, taken: set<nat>, idxs: seq<nat>)
    requires Climb(h, avoid, taken, idxs).Some?
    ensures var dest := Climb(h, avoid, taken, idxs).value;
      |dest| == |idxs| && Distinct(dest)
      && forall i :: 0 <= i < |dest| ==>
        idxs[i] < dest[i] < |h| && dest[i] !in taken && h[dest[i]] !in avoid
    decreases |idxs|
  {
    if idxs != [] {
      NextOpenIsLeast(h, avoid, taken, idxs[0] + 1);
      var j := NextOpen(h, avoid, taken, idxs[0] + 1).value;
      ClimbIsSafe(h, avoid, taken + {j}, idxs[1..]);
      var rest := Climb(h, avoid, taken + {j}, idxs[1..]).value;
      assert forall i {:trigger idxs[i]} :: 1 <= i < |idxs| ==> idxs[i] == idxs[1..][i - 1];
    }
  }

  // ------------------------------------------------------------------ exact failure

  /** Slots above `k` that a mover may use. */
  ghost function OpenAbove(h: seq<Instant>, avoid: set<Instant>, k: nat): set<nat> {
    set j: nat | k < j < |h| && h[j] !in avoid
  }

  lemma {:induction false} ClimbFailureCounts(h: seq<Instant>, avoid: set<Instant>, taken: set<nat>, idxs: seq<nat>)
    requires Climb(h, avoid, taken, idxs).None?
    ensures exists i :: 0 <= i < |idxs| && |OpenAbove(h, avoid, idxs[i]) - taken| <= i
    decreases |idxs|
  {
    NextOpenIsLeast(h, avoid, taken, idxs[0] + 1);
    var first := NextOpen(h, avoid, taken, idxs[0] + 1);
    if first.None? {
      assert OpenAbove(h, avoid, idxs[0]) - taken == {};
      assert |OpenAbove(h, avoid, idxs[0]) - taken| <= 0;
    } else {
      ClimbFailureCounts(h, avoid, taken + {first.value}, idxs[1..]);
      var i :| 0 <= i < |idxs[1..]| && |OpenAbove(h, avoid, idxs[1..][i]) - (taken + {first.value})| <= i;
      var open := OpenAbove(h, avoid, idxs[i + 1]);
      SubsetCardinality(open - taken, (open - (taken + {first.value})) + {first.value});
      assert |open - taken| <= i + 1;
    }
  }

  /** The climb fails exactly when some mover has no more open slots above it than
      there are movers climbing before it: a count the caller can make beforehand. */
  lemma ClimbFailsIff(h: seq<Instant>, avoid: set<Instant>, idxs: seq<nat>)
    requires Descending(idxs)
    ensures Climb(h, avoid, {0}, idxs).None?
      <==> exists i :: 0 <= i < |idxs| && |OpenAbove(h, avoid, idxs[i])| <= i
  {
    if Climb(h, avoid, {0}, idxs).None? {
      ClimbFailureCounts(h, avoid, {0}, idxs);
      var i :| 0 <= i < |idxs| && |OpenAbove(h, avoid, idxs[i]) - {0}| <= i;
      assert OpenAbove(h, avoid, idxs[i]) - {0} == OpenAbove(h, avoid, idxs[i]);
    } else {
      forall i | 0 <= i < |idxs|
        ensures |OpenAbove(h, avoid, idxs[i])| > i
      {
        LandingsFillOpenSlots(h, avoid, idxs, i);
      }
    }
  }

  lemma LandingsFillOpenSlots(h: seq<Instant>, avoid: set<Instant>, idxs: seq<nat>, i: nat)
    requires Descending(idxs) && i < |idxs| && Climb(h, avoid, {0}, idxs).Some?
    ensures |OpenAbove(h, avoid, idxs[i])| > i
  {
    ClimbIsSafe(h, avoid, {0}, idxs);
    var dest := Climb(h, avoid, {0}, idxs).value;
    var landed := dest[..i + 1];
    forall k | 0 <= k <= i ensures landed[k] in OpenAbove(h, avoid, idxs[i]) {
      assert landed[k] == dest[k] && idxs[k] >= idxs[i];
    }
    DistinctCardinality(landed);
    SubsetCardinality(Elements(landed), OpenAbove(h, avoid, idxs[i]));
  }

  // ------------------------------------------------------------------ closed form for distinct movers

  /** Least slot after `k` that no fixed post holds: the mover's destination, stated
      without any reference to the other movers. */
  function Destination(h: seq<Instant>, fixed: set<Instant>, k: nat): Option<nat> {
    NextOpen(h, fixed, {}, k + 1)
  }

  /** Claims made so far: index 0, or above `b`, a slot a higher mover has vacated (-1: none yet). */
  ghost predicate ClaimsAbove(h: seq<Instant>, fixed: set<Instant>, taken: set<nat>, b: int) {
    if b < 0 then taken == {0}
    else b < |h| && h[b] !in fixed && forall t :: t in taken ==> t == 0 || t > b
  }

  lemma NextOpenIgnoresClaims(h: seq<Instant>, fixed: set<Instant>, taken: set<nat>, b: int, k: nat)
    requires ClaimsAbove(h, fixed, taken, b) && (b >= 0 ==> k < b)
    ensures NextOpen(h, fixed, taken, k + 1) == Destination(h, fixed, k)
    ensures b >= 0 ==> Destination(h, fixed, k).Some? && Destination(h, fixed, k).value <= b
  {
    NextOpenIsLeast(h, fixed, taken, k + 1);
    NextOpenIsLeast(h, fixed, {}, k + 1);
  }

  lemma {:induction false} ClimbClosedForm(h: seq<Instant>, fixed: set<Instant>, taken: set<nat>, b: int,
                                           idxs: seq<nat>)
    requires StrictlyDescending(idxs)
    requires forall i :: 0 <= i < |idxs| ==> idxs[i] < |h| && h[idxs[i]] !in fixed
    requires ClaimsAbove(h, fixed, taken, b) && (b >= 0 && idxs != [] ==> idxs[0] < b)
    ensures Climb(h, fixed, taken, idxs).None? <==> idxs != [] && Destination(h, fixed, idxs[0]).None?
    ensures Climb(h, fixed, taken, idxs).Some? ==>
      |Climb(h, fixed, taken, idxs).value| == |idxs|
      && forall i :: 0 <= i < |idxs| ==>
        Destination(h, fixed, idxs[i]) == Some(Climb(h, fixed, taken, idxs).value[i])
    decreases |idxs|
  {
    if idxs != [] {
      NextOpenIgnoresClaims(h, fixed, taken, b, idxs[0]);
      NextOpenIsLeast(h, fixed, taken, idxs[0] + 1);
      var first := NextOpen(h, fixed, taken, idxs[0] + 1);
      if first.Some? {
        var rest := idxs[1..];
        assert forall i :: 0 <= i < |rest| ==> rest[i] == idxs[i + 1];
        ClimbClosedForm(h, fixed, taken + {first.value}, idxs[0], rest);
        if rest != [] {
          NextOpenIgnoresClaims(h, fixed, taken + {first.value}, idxs[0], rest[0]);
        }
        assert forall i {:trigger idxs[i]} :: 1 <= i < |idxs| ==> idxs[i] == rest[i - 1];
      }
    }
  }

  /** The ladder for movers in distinct slots: it fails only if the highest mover has no
      later free slot; otherwise each mover lands on its own destination, and no mover
      passes the old slot of the next one. */
  lemma LadderOfDistinctMovers(h: seq<Instant>, fixed: set<Instant>, idxs: seq<nat>)
    requires StrictlyDescending(idxs) && idxs != []
    requires forall i :: 0 <= i < |idxs| ==> idxs[i] < |h| && h[idxs[i]] !in fixed
    ensures Climb(h, fixed, {0}, idxs).None? <==> Destination(h, fixed, idxs[0]).None?
    ensures Climb(h, fixed, {0}, idxs).Some? ==>
      var dest := Climb(h, fixed, {0}, idxs).value;
      |dest| == |idxs|
      && (forall i :: 0 <= i < |idxs| ==> Destination(h, fixed, idxs[i]) == Some(dest[i]))
      && (forall i, j :: 0 <= i < |idxs| && j == i + 1 && j < |idxs| ==>
           idxs[j] < dest[j] <= idxs[i] < dest[i])
  {
    ClimbClosedForm(h, fixed, {0}, -1, idxs);
    if Climb(h, fixed, {0}, idxs).Some? {
      ClimbIsSafe(h, fixed, {0}, idxs);
      forall i, j | 0 <= i < |idxs| && j == i + 1 && j < |idxs|
        ensures Destination(h, fixed, idxs[j]).Some? && Destination(h, fixed, idxs[j]).value <= idxs[i]
      {
        NextOpenIsLeast(h, fixed, {}, idxs[j] + 1);
      }
    }
  }

  /** A mover lands no later than a slot above it that a higher mover leaves. */
  lemma DestinationBelowMover(h: seq<Instant>, fixed: set<Instant>, low: nat, high: nat)
    requires low < high < |h| && h[high] !in fixed
    ensures Destination(h, fixed, low).Some? && low < Destination(h, fixed, low).value <= high
    ensures Destination(h, fixed, high).Some? ==> Destination(h, fixed, low).value < Destination(h, fixed, high).value
  {
    NextOpenIsLeast(h, fixed, {}, low + 1);
    NextOpenIsLeast(h, fixed, {}, high + 1);
  }

  /** What `Destination` means: the least later index whose instant is not held. */
  lemma DestinationIsLeast(h: seq<Instant>, fixed: set<Instant>, k: nat, j: nat)
    ensures Destination(h, fixed, k) == Some(j)
      <==> k < j < |h| && h[j] !in fixed && forall i :: k < i < j ==> h[i] in fixed
  {
    NextOpenIsLeast(h, fixed, {}, k + 1);
  }
}
