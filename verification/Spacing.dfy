/** Instants that keep a minimum distance, and how many of them fit into a window. */
module Spacing {

  ghost predicate Spaced(times: seq<int>, gap: nat) {
    forall i, j | 0 <= i < j < |times| && j == i + 1 :: times[j] - times[i] >= gap
  }

  /** Positions of the instants in the closed window [start, start + width]. */
  ghost function InWindow(times: seq<int>, start: int, width: nat): set<nat> {
    set k: nat | k < |times| && start <= times[k] <= start + width
  }

  lemma {:induction false} SpacedDistance(times: seq<int>, gap: nat, i: nat, j: nat)
    requires Spaced(times, gap) && i <= j < |times|
    ensures times[j] - times[i] >= (j - i) * gap
    decreases j - i
  {
    if i < j {
      SpacedDistance(times, gap, i, j - 1);
      assert (j - i) * gap == (j - 1 - i) * gap + gap;
    }
  }

  ghost function Range(low: nat, high: nat): (r: set<nat>)
    requires low <= high
    ensures |r| == high - low
    ensures forall k :: k in r <==> low <= k < high
    decreases high - low
  {
    if low == high then {} else Range(low, high - 1) + {high - 1}
  }

  lemma SubsetSize<T>(small: set<T>, big: set<T>)
    requires small <= big
    ensures |small| <= |big|
  {
    assert small + (big - small) == big;
  }

  lemma FirstElement(elements: set<nat>) returns (first: nat)
    requires elements != {}
    ensures first in elements && forall k | k in elements :: first <= k
  {
    var any :| any in elements;
    var rest := elements - {any};
    if rest == {} {
      first := any;
      assert elements == {any};
    } else {
      var other := FirstElement(rest);
      first := if other < any then other else any;
      assert forall k | k in elements :: k == any || k in rest;
    }
  }

  lemma InsideDistance(times: seq<int>, gap: nat, start: int, width: nat, first: nat, k: nat)
    requires gap > 0 && Spaced(times, gap) && first <= k
    requires first in InWindow(times, start, width) && k in InWindow(times, start, width)
    ensures k - first <= width / gap
  {
    SpacedDistance(times, gap, first, k);
    DivisionBound(k - first, gap, width);
  }

  /** A window holds at most width / gap + 1 instants that are `gap` apart. */
  lemma WindowBound(times: seq<int>, gap: nat, start: int, width: nat)
    requires gap > 0 && Spaced(times, gap)
    ensures |InWindow(times, start, width)| <= width / gap + 1
  {
    var inside := InWindow(times, start, width);
    if inside != {} {
      var first := FirstElement(inside);
      var range := Range(first, first + width / gap + 1);
      forall k | k in inside ensures k in range {
        InsideDistance(times, gap, start, width, first, k);
      }
      SubsetSize(inside, range);
    }
  }

  lemma MulMonotone(a: nat, b: nat, gap: nat)
    requires a <= b
    ensures a * gap <= b * gap
  {
    assert b * gap == a * gap + (b - a) * gap;
  }

  lemma DivisionBound(n: nat, gap: nat, width: nat)
    requires gap > 0 && n * gap <= width
    ensures n <= width / gap
  {
    var q := width / gap;
    assert width < (q + 1) * gap by {
      assert width == gap * q + width % gap;
    }
    if q < n {
      MulMonotone(q + 1, n, gap);
      assert false;
    }
  }
}
