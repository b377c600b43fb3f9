// The stretch two fingerprints share at one alignment: the longest run of matching points
// with no gap wider than a limit. Places are counted in points.

module Contiguous {
  import opened Wrappers

  datatype Range = Range(start: nat, end: nat) {
    function Length(): int {
      end - start
    }

    function Later(offset: nat): Range {
      Range(start + offset, end + offset)
    }
  }

  predicate Ascending(times: seq<nat>) {
    forall i, j :: 0 <= i < j < |times| ==> times[i] <= times[j]
  }

  predicate Close(times: seq<nat>, gap: nat, k: nat) {
    0 < k < |times| && times[k] - times[k - 1] <= gap
  }

  /** The times from i to j follow each other closely. */
  predicate IsRun(times: seq<nat>, gap: nat, i: nat, j: nat) {
    i <= j < |times| && forall k :: i < k <= j ==> Close(times, gap, k)
  }

  /** Where the run that holds time k begins. */
  function RunStart(times: seq<nat>, gap: nat, k: nat): (i: nat)
    requires k < |times|
    ensures IsRun(times, gap, i, k)
    ensures !Close(times, gap, i)
  {
    if !Close(times, gap, k) then k else RunStart(times, gap, k - 1)
  }

  function RunTo(times: seq<nat>, gap: nat, k: nat): Range
    requires k < |times|
  {
    Range(times[RunStart(times, gap, k)], times[k])
  }

  /** The earlier of two equally long runs wins. */
  function Better(best: Option<Range>, current: Range): Range {
    if best.Some? && best.value.Length() >= current.Length() then best.value else current
  }

  /** The best of the runs that are over before time k. */
  function BestBefore(times: seq<nat>, gap: nat, k: nat): Option<Range>
    requires k < |times|
  {
    if k == 0 then None
    else if Close(times, gap, k) then BestBefore(times, gap, k - 1)
    else Some(Better(BestBefore(times, gap, k - 1), RunTo(times, gap, k - 1)))
  }

  function Best(times: seq<nat>, gap: nat): Option<Range> {
    if times == [] then None
    else Some(Better(BestBefore(times, gap, |times| - 1), RunTo(times, gap, |times| - 1)))
  }

  method FindContiguous(times: seq<nat>, gap: nat) returns (best: Option<Range>)
    requires Ascending(times)
    ensures best == Best(times, gap)
  {
    if times == [] {
      return None;
    }
    var current := Range(times[0], times[0]);
    best := None;
    for k := 1 to |times|
      invariant best == BestBefore(times, gap, k - 1) && current == RunTo(times, gap, k - 1)
    {
      if times[k] - times[k - 1] <= gap {
        current := current.(end := times[k]);
        continue;
      }
      best := Some(Better(best, current));
      current := Range(times[k], times[k]);
    }
    return Some(Better(best, current));
  }

  lemma {:induction false} RunWithin(times: seq<nat>, gap: nat, i: nat, j: nat)
    requires IsRun(times, gap, i, j)
    ensures RunStart(times, gap, j) <= i
    decreases j
  {
    if i < j {
      RunWithin(times, gap, i, j - 1);
    }
  }

  lemma {:induction false} EarlierStarts(times: seq<nat>, gap: nat, k: nat)
    requires Ascending(times) && k < |times|
    ensures BestBefore(times, gap, k).Some? ==> BestBefore(times, gap, k).value.start <= times[RunStart(times, gap, k)]
  {
    if k > 0 {
      EarlierStarts(times, gap, k - 1);
    }
  }

  /** Every run that ends before time k is no longer than the best before it or the one
      that k - 1 is in, and if as long begins no earlier. */
  lemma {:induction false} NoneLonger(times: seq<nat>, gap: nat, k: nat, i: nat, j: nat)
    requires Ascending(times) && IsRun(times, gap, i, j) && j <= k < |times|
    ensures var best := Better(BestBefore(times, gap, k), RunTo(times, gap, k));
            times[j] - times[i] <= best.Length() && (times[j] - times[i] == best.Length() ==> best.start <= times[i])
    decreases k
  {
    EarlierStarts(times, gap, k);
    if j == k {
      RunWithin(times, gap, i, j);
    } else {
      NoneLonger(times, gap, k - 1, i, j);
    }
  }

  ghost predicate Bounds(times: seq<nat>, gap: nat, r: Range) {
    exists i: nat, j: nat :: IsRun(times, gap, i, j) && r == Range(times[i], times[j])
  }

  lemma {:induction false} BestIsRun(times: seq<nat>, gap: nat, k: nat)
    requires k < |times|
    ensures BestBefore(times, gap, k).Some? ==> Bounds(times, gap, BestBefore(times, gap, k).value)
    ensures Bounds(times, gap, RunTo(times, gap, k))
  {
    assert IsRun(times, gap, RunStart(times, gap, k), k);
    if k > 0 {
      BestIsRun(times, gap, k - 1);
    }
  }

  /** What is found is a run, none is longer, and of the longest it is the first. */
  lemma FoundIsLongest(times: seq<nat>, gap: nat)
    requires Ascending(times) && times != []
    ensures Best(times, gap).Some? && Bounds(times, gap, Best(times, gap).value)
    ensures forall i: nat, j: nat :: IsRun(times, gap, i, j) ==> times[j] - times[i] <= Best(times, gap).value.Length()
    ensures forall i: nat, j: nat :: IsRun(times, gap, i, j) && times[j] - times[i] == Best(times, gap).value.Length() ==>
              Best(times, gap).value.start <= times[i]
  {
    BestIsRun(times, gap, |times| - 1);
    forall i: nat, j: nat | IsRun(times, gap, i, j)
      ensures times[j] - times[i] <= Best(times, gap).value.Length()
      ensures times[j] - times[i] == Best(times, gap).value.Length() ==> Best(times, gap).value.start <= times[i]
    {
      NoneLonger(times, gap, |times| - 1, i, j);
    }
  }

  // ------------------------------------------------------------------- one alignment

  function Offset(times: seq<nat>, offset: nat): (r: seq<nat>)
    ensures |r| == |times| && forall k :: 0 <= k < |times| ==> r[k] == times[k] + offset
  {
    seq(|times|, k requires 0 <= k < |times| => times[k] + offset)
  }

  lemma OffsetGrows(times: seq<nat>, x: nat, offset: nat)
    ensures Offset(times + [x], offset) == Offset(times, offset) + [x + offset]
  {
  }

  function LaterOr(r: Option<Range>, offset: nat): Option<Range> {
    match r case None => None case Some(range) => Some(range.Later(offset))
  }

  lemma {:induction false} RunsMove(times: seq<nat>, gap: nat, offset: nat, k: nat)
    requires k < |times|
    ensures RunStart(Offset(times, offset), gap, k) == RunStart(times, gap, k)
    ensures BestBefore(Offset(times, offset), gap, k) == LaterOr(BestBefore(times, gap, k), offset)
  {
    if k > 0 {
      RunsMove(times, gap, offset, k - 1);
    }
  }

  lemma BestMoves(times: seq<nat>, gap: nat, offset: nat)
    ensures Best(Offset(times, offset), gap) == LaterOr(Best(times, gap), offset)
  {
    if times != [] {
      RunsMove(times, gap, offset, |times| - 1);
    }
  }

  /** The steps at which two fingerprints agree, given how far into each one step 0 is. */
  function Agreeing<P(!new)>(lhs: seq<P>, rhs: seq<P>, left: nat, right: nat, alike: (P, P) -> bool, n: nat): (r: seq<nat>)
    requires left + n <= |lhs| && right + n <= |rhs|
    ensures Ascending(r) && forall k :: 0 <= k < |r| ==> r[k] < n && alike(lhs[r[k] + left], rhs[r[k] + right])
  {
    if n == 0 then []
    else
      var before := Agreeing(lhs, rhs, left, right, alike, n - 1);
      if alike(lhs[n - 1 + left], rhs[n - 1 + right]) then before + [n - 1] else before
  }

  datatype Pair = Pair(left: Range, right: Range)

  method Matching<P(!new)>(lhs: seq<P>, rhs: seq<P>, left: nat, right: nat, alike: (P, P) -> bool, n: nat)
    returns (leftTimes: seq<nat>, rightTimes: seq<nat>)
    requires left + n <= |lhs| && right + n <= |rhs|
    ensures leftTimes == Offset(Agreeing(lhs, rhs, left, right, alike, n), left)
    ensures rightTimes == Offset(Agreeing(lhs, rhs, left, right, alike, n), right)
  {
    leftTimes, rightTimes := [], [];
    ghost var steps: seq<nat> := [];
    for i := 0 to n
      invariant steps == Agreeing(lhs, rhs, left, right, alike, i)
      invariant leftTimes == Offset(steps, left) && rightTimes == Offset(steps, right)
    {
      if alike(lhs[i + left], rhs[i + right]) {
        OffsetGrows(steps, i, left);
        OffsetGrows(steps, i, right);
        steps := steps + [i];
        leftTimes, rightTimes := leftTimes + [i + left], rightTimes + [i + right];
      }
    }
  }

  lemma BothSides(steps: seq<nat>, gap: nat, left: nat, right: nat, n: nat)
    requires Ascending(steps) && forall k :: 0 <= k < |steps| ==> steps[k] < n
    ensures var l, r := Best(Offset(steps, left), gap), Best(Offset(steps, right), gap);
            && (l.Some? <==> r.Some?)
            && (l.Some? ==> && l.value.Length() == r.value.Length() && r.value.start - l.value.start == right - left
                            && l.value.end < left + n && r.value.end < right + n)
  {
    BestMoves(steps, gap, left);
    BestMoves(steps, gap, right);
    if steps != [] {
      FoundIsLongest(steps, gap);
    }
  }

  /** Compare at one alignment; a positive shift starts further into the right side. What
      is found is equally long on both sides and the shift apart. */
  method ContiguousAtShift<P(!new)>(lhs: seq<P>, rhs: seq<P>, shift: int, alike: (P, P) -> bool, gap: nat, minimum: nat)
    returns (found: Option<Pair>)
    ensures found.Some? ==>
      && found.value.left.Length() == found.value.right.Length() >= minimum
      && found.value.left.end < |lhs| && found.value.right.end < |rhs|
      && found.value.right.start - found.value.left.start == shift
  {
    var left: nat, right: nat := if shift < 0 then -shift else 0, if shift < 0 then 0 else shift;
    var upper := (if |lhs| < |rhs| then |lhs| else |rhs|) - (left + right);
    if upper <= 0 {
      return None;
    }
    var leftTimes, rightTimes := Matching(lhs, rhs, left, right, alike, upper);
    var l := FindContiguous(leftTimes, gap);
    if l.None? || l.value.Length() < minimum {
      return None;
    }
    var r := FindContiguous(rightTimes, gap);
    BothSides(Agreeing(lhs, rhs, left, right, alike, upper), gap, left, right, upper);
    return Some(Pair(l.value, r.value));
  }
}
