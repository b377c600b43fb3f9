// What the fingerprint detector can report of an opening or of the credits, and how the
// hub's check of its answers compares. Times are whole milliseconds; what two episodes
// share, where silence falls and where keyframes are may be anything.

module Detector {
  import opened Wrappers
  import opened Titles
  import opened Segments
  import opened Contiguous

  /** Which end of the files is compared. */
  datatype Mode = Opening | Closing

  // ------------------------------------------------------------------ the comparison

  /** The first of the longest: the head of a stable sort by falling length. */
  function Longest(ranges: seq<Range>): (r: Range)
    requires ranges != []
    ensures r in ranges && forall other :: other in ranges ==> other.Length() <= r.Length()
  {
    if |ranges| == 1 then ranges[0]
    else
      var best := Longest(ranges[..|ranges| - 1]);
      var last := ranges[|ranges| - 1];
      assert ranges == ranges[..|ranges| - 1] + [last];
      if last.Length() > best.Length() then last else best
  }

  function Lefts(matches: seq<Pair>): seq<Range> {
    seq(|matches|, i requires 0 <= i < |matches| => matches[i].left)
  }

  function Rights(matches: seq<Pair>): seq<Range> {
    seq(|matches|, i requires 0 <= i < |matches| => matches[i].right)
  }

  function Snap(r: Range): Range {
    if r.start <= START_SNAP then r.(start := 0) else r
  }

  /** The two sides are chosen apart, and each is snapped in its own window. */
  function Compared(matches: seq<Pair>): Pair
    requires matches != []
  {
    Pair(Snap(Longest(Lefts(matches))), Snap(Longest(Rights(matches))))
  }

  /** A stretch shared at one alignment is equally long on both sides. */
  predicate Shared(m: Pair, leftWindow: nat, rightWindow: nat) {
    && m.left.Length() == m.right.Length() >= SHARED_REGION_MIN
    && m.left.end <= leftWindow && m.right.end <= rightWindow
  }

  predicate AllShared(matches: seq<Pair>, leftWindow: nat, rightWindow: nat) {
    forall i :: 0 <= i < |matches| ==> Shared(matches[i], leftWindow, rightWindow)
  }

  /** Chosen apart, the sides still come from one alignment. */
  lemma {:induction false} SidesComeTogether(matches: seq<Pair>, leftWindow: nat, rightWindow: nat) returns (i: nat)
    requires matches != [] && AllShared(matches, leftWindow, rightWindow)
    ensures i < |matches| && Longest(Lefts(matches)) == matches[i].left && Longest(Rights(matches)) == matches[i].right
  {
    var n := |matches| - 1;
    if n == 0 {
      return 0;
    }
    var rest := matches[..n];
    assert Lefts(matches)[..n] == Lefts(rest) && Rights(matches)[..n] == Rights(rest);
    i := SidesComeTogether(rest, leftWindow, rightWindow);
    assert Shared(matches[i], leftWindow, rightWindow) && Shared(matches[n], leftWindow, rightWindow);
    if matches[n].left.Length() > matches[i].left.Length() {
      i := n;
    }
  }

  // ------------------------------------------------------------------------ the pair

  function Window(mode: Mode, duration: nat): Range {
    match mode
    case Opening => Range(0, HeadEnd(duration))
    case Closing => Range(duration - Min(duration, CREDITS_WINDOW), duration)
  }

  function Searched(mode: Mode, duration: nat): nat {
    Window(mode, duration).Length()
  }

  function Maximum(mode: Mode, duration: nat): int {
    match mode
    case Opening => INTRO_MAX
    case Closing => duration - Window(Closing, duration).start - 1000
  }

  /** What a pair of files yields: nothing when the right side is too long, whatever the
      left one is. The fingerprints' clock starts at the window. */
  function Yield(mode: Mode, matches: seq<Pair>, left: nat, right: nat): Option<Pair>
    requires matches != []
  {
    var m := Compared(matches);
    if m.right.Length() > Maximum(mode, right) then None
    else Some(Pair(m.left.Later(Window(mode, left).start), m.right.Later(Window(mode, right).start)))
  }

  /** Credits lie in the back half. */
  predicate Kept(mode: Mode, r: Range, duration: nat) {
    mode.Closing? ==> 2 * r.start >= duration
  }

  const END_SNAP: nat := 2_000
  const EPSILON: nat := 1

  /** The end of the file, or wherever silence and keyframes put it in the window. */
  predicate EndMoved(end: nat, duration: nat, moved: nat) {
    if end + END_SNAP + EPSILON >= duration then moved == duration
    else end <= moved + REFINE_INWARD && moved <= Min(end + REFINE_OUTWARD, duration)
  }

  function StartMoved(start: nat): nat {
    if start <= END_SNAP + EPSILON then 0 else start
  }

  /** An adjustment that inverts the segment is discarded whole. */
  predicate Adjusted(r: Range, duration: nat, moved: nat, out: Range) {
    EndMoved(r.end, duration, moved) && out == if StartMoved(r.start) >= moved then r else Range(StartMoved(r.start), moved)
  }

  /** The file stands left of another in a pair that yields this, or right of it. */
  predicate OnTheLeft(mode: Mode, duration: nat, other: nat, matches: seq<Pair>, r: Range) {
    && matches != [] && AllShared(matches, Searched(mode, duration), Searched(mode, other))
    && Yield(mode, matches, duration, other).Some? && Yield(mode, matches, duration, other).value.left == r
  }

  predicate OnTheRight(mode: Mode, duration: nat, other: nat, matches: seq<Pair>, r: Range) {
    && matches != [] && AllShared(matches, Searched(mode, other), Searched(mode, duration))
    && Yield(mode, matches, other, duration).Some? && Yield(mode, matches, other, duration).value.right == r
  }

  ghost predicate Side(mode: Mode, duration: nat, r: Range) {
    exists other: nat, matches: seq<Pair> ::
      OnTheLeft(mode, duration, other, matches, r) || OnTheRight(mode, duration, other, matches, r)
  }

  ghost predicate Reportable(mode: Mode, duration: nat, out: Range) {
    exists r: Range, moved: nat :: Side(mode, duration, r) && Kept(mode, r, duration) && Adjusted(r, duration, moved, out)
  }

  // ----------------------------------------------------------- which stretches it finds

  /** The longest stretch a pair lets through. */
  function Limit(mode: Mode): nat {
    match mode
    case Opening => INTRO_MAX
    case Closing => CREDITS_WINDOW - 1000
  }

  /** Shared from `raw` on for `length`, counted in the window. */
  predicate Stretch(mode: Mode, duration: nat, raw: nat, length: nat, r: Range) {
    && SHARED_REGION_MIN <= length <= Limit(mode) && raw + length <= Searched(mode, duration)
    && r == Snap(Range(raw, raw + length)).Later(Window(mode, duration).start)
  }

  lemma OnePair(m: Pair)
    ensures Compared([m]) == Pair(Snap(m.left), Snap(m.right))
  {
    assert Lefts([m]) == [m.left] && Rights([m]) == [m.right];
  }

  lemma SnapLengthens(r: Range)
    requires r.start <= r.end
    ensures Snap(r).Length() >= r.Length() && Snap(r).end == r.end
  {
  }

  /** The cap on the right side caps the stretch itself. */
  lemma YieldIsStretch(mode: Mode, m: Pair, left: nat, right: nat)
    requires Shared(m, Searched(mode, left), Searched(mode, right))
    requires m.left.start <= m.left.end && m.right.start <= m.right.end
    requires Snap(m.right).Length() <= Maximum(mode, right)
    ensures m.left.Length() <= Limit(mode)
  {
    SnapLengthens(m.right);
  }

  lemma LeftIsStretch(mode: Mode, duration: nat, other: nat, matches: seq<Pair>, r: Range) returns (raw: nat, length: nat)
    requires OnTheLeft(mode, duration, other, matches, r)
    ensures Stretch(mode, duration, raw, length, r)
  {
    var i := SidesComeTogether(matches, Searched(mode, duration), Searched(mode, other));
    var m := matches[i];
    assert Shared(m, Searched(mode, duration), Searched(mode, other));
    YieldIsStretch(mode, m, duration, other);
    raw, length := m.left.start, m.left.Length();
  }

  lemma RightIsStretch(mode: Mode, duration: nat, other: nat, matches: seq<Pair>, r: Range) returns (raw: nat, length: nat)
    requires OnTheRight(mode, duration, other, matches, r)
    ensures Stretch(mode, duration, raw, length, r)
  {
    var i := SidesComeTogether(matches, Searched(mode, other), Searched(mode, duration));
    var m := matches[i];
    assert Shared(m, Searched(mode, other), Searched(mode, duration));
    YieldIsStretch(mode, m, other, duration);
    raw, length := m.right.start, m.right.Length();
  }

  lemma SideIsStretch(mode: Mode, duration: nat, r: Range) returns (raw: nat, length: nat)
    requires Side(mode, duration, r)
    ensures Stretch(mode, duration, raw, length, r)
  {
    var other: nat, matches: seq<Pair> :|
      OnTheLeft(mode, duration, other, matches, r) || OnTheRight(mode, duration, other, matches, r);
    if OnTheLeft(mode, duration, other, matches, r) {
      raw, length := LeftIsStretch(mode, duration, other, matches, r);
    } else {
      raw, length := RightIsStretch(mode, duration, other, matches, r);
    }
  }

  /** Every such stretch comes of some pair, with the file on the left. */
  lemma StretchIsSide(mode: Mode, duration: nat, raw: nat, length: nat, r: Range)
    requires Stretch(mode, duration, raw, length, r)
    ensures Side(mode, duration, r)
  {
    var other := 2_400_000;
    var start := if mode.Opening? then START_SNAP + 1 else 0;
    var m := Pair(Range(raw, raw + length), Range(start, start + length));
    OnePair(m);
    assert Shared(m, Searched(mode, duration), Searched(mode, other));
    assert OnTheLeft(mode, duration, other, [m], r);
  }

  // ------------------------------------------------------------- what it can report

  /** Some end between these two is moved here. */
  predicate EndReachable(first: nat, last: nat, duration: nat, end: nat) {
    if end == duration then last + END_SNAP + EPSILON >= duration
    else
      && first + END_SNAP + EPSILON < duration && end < duration
      && first <= end + REFINE_INWARD
      && end <= last + REFINE_OUTWARD && end + 1 < duration
  }

  lemma EndIsReachable(first: nat, last: nat, duration: nat, raw: nat, end: nat)
    requires first <= raw <= last <= duration && EndMoved(raw, duration, end)
    ensures EndReachable(first, last, duration, end)
  {
  }

  lemma ReachableEnd(first: nat, last: nat, duration: nat, end: nat) returns (raw: nat)
    requires first <= last <= duration && EndReachable(first, last, duration, end)
    ensures first <= raw <= last && EndMoved(raw, duration, end)
  {
    if end == duration {
      raw := last;
    } else {
      raw := Max(first, SaturatingSub(end, REFINE_OUTWARD));
    }
  }

  predicate OpeningPossible(start: nat, end: nat, duration: nat) {
    && (start == 0 || start > START_SNAP) && start + SHARED_REGION_MIN <= HeadEnd(duration)
    && EndReachable(start + SHARED_REGION_MIN,
                    Min((if start == 0 then START_SNAP else start) + INTRO_MAX, HeadEnd(duration)), duration, end)
  }

  lemma OpeningReportable(start: nat, end: nat, duration: nat)
    ensures Reportable(Opening, duration, Range(start, end)) <==> OpeningPossible(start, end, duration)
  {
    if Reportable(Opening, duration, Range(start, end)) {
      var r: Range, moved: nat :| Side(Opening, duration, r) && Kept(Opening, r, duration)
                                  && Adjusted(r, duration, moved, Range(start, end));
      var raw, length := SideIsStretch(Opening, duration, r);
      OpeningFits(raw, length, r, moved, start, end, duration);
    }
    if OpeningPossible(start, end, duration) {
      OpeningArises(start, end, duration);
    }
  }

  lemma OpeningFits(raw: nat, length: nat, r: Range, moved: nat, start: nat, end: nat, duration: nat)
    requires Stretch(Opening, duration, raw, length, r) && Adjusted(r, duration, moved, Range(start, end))
    ensures OpeningPossible(start, end, duration)
  {
    var last := Min((if r.start == 0 then START_SNAP else r.start) + INTRO_MAX, HeadEnd(duration));
    EndIsReachable(r.start + SHARED_REGION_MIN, last, duration, r.end, moved);
  }

  lemma OpeningArises(start: nat, end: nat, duration: nat)
    requires OpeningPossible(start, end, duration)
    ensures Reportable(Opening, duration, Range(start, end))
  {
    var last := Min((if start == 0 then START_SNAP else start) + INTRO_MAX, HeadEnd(duration));
    var rawEnd := ReachableEnd(start + SHARED_REGION_MIN, last, duration, end);
    var raw := if start == 0 then SaturatingSub(rawEnd, INTRO_MAX) else start;
    var r := Range(start, rawEnd);
    StretchIsSide(Opening, duration, raw, rawEnd - raw, r);
    assert Adjusted(r, duration, end, Range(start, end));
  }

  function CreditsFrom(duration: nat): nat {
    SaturatingSub(duration, CREDITS_WINDOW)
  }

  predicate CreditsPossible(start: nat, end: nat, duration: nat) {
    && (start == CreditsFrom(duration) || start > CreditsFrom(duration) + START_SNAP)
    && 2 * start >= duration && start + SHARED_REGION_MIN <= duration
    && EndReachable(start + SHARED_REGION_MIN, duration, duration, end)
  }

  lemma CreditsReportable(start: nat, end: nat, duration: nat)
    ensures Reportable(Closing, duration, Range(start, end)) <==> CreditsPossible(start, end, duration)
  {
    if Reportable(Closing, duration, Range(start, end)) {
      var r: Range, moved: nat :| Side(Closing, duration, r) && Kept(Closing, r, duration)
                                  && Adjusted(r, duration, moved, Range(start, end));
      var raw, length := SideIsStretch(Closing, duration, r);
      CreditsFit(raw, length, r, moved, start, end, duration);
    }
    if CreditsPossible(start, end, duration) {
      CreditsArise(start, end, duration);
    }
  }

  lemma CreditsFit(raw: nat, length: nat, r: Range, moved: nat, start: nat, end: nat, duration: nat)
    requires Stretch(Closing, duration, raw, length, r) && Kept(Closing, r, duration)
    requires Adjusted(r, duration, moved, Range(start, end))
    ensures CreditsPossible(start, end, duration)
  {
    EndIsReachable(r.start + SHARED_REGION_MIN, duration, duration, r.end, moved);
  }

  lemma CreditsArise(start: nat, end: nat, duration: nat)
    requires CreditsPossible(start, end, duration)
    ensures Reportable(Closing, duration, Range(start, end))
  {
    var from := CreditsFrom(duration);
    var rawEnd := ReachableEnd(start + SHARED_REGION_MIN, duration, duration, end);
    var raw := if start == from then SaturatingSub(rawEnd - from, CREDITS_WINDOW - 1000) else start - from;
    var r := Range(start, rawEnd);
    StretchIsSide(Closing, duration, raw, rawEnd - from - raw, r);
    assert Adjusted(r, duration, end, Range(start, end));
  }

  // ---------------------------------------------------------------------- the check

  /** Short of its last millisecond, yet nearer the file's end than the detector leaves
      any end. */
  predicate NearTheEnd(start: nat, end: nat, duration: nat) {
    end < duration && (end + 1 == duration || start + SHARED_REGION_MIN + END_SNAP + EPSILON >= duration)
  }

  /** The check of an opening. What it refuses of the detector's answers is exactly what
      is too long; what it accepts beyond them is exactly a start at the snapping distance
      or an end that would have been moved to the end of the file. */
  lemma OpeningCheckAgainstDetector(start: U64, end: U64, duration: U64)
    ensures Reportable(Opening, duration, Range(start, end)) ==>
              (WithinBounds(Intro, Chromaprint, start, end, duration) <==> end - start <= INTRO_MAX + REFINE_OUTWARD)
    ensures WithinBounds(Intro, Chromaprint, start, end, duration) ==>
              (Reportable(Opening, duration, Range(start, end)) <==>
                 start != START_SNAP && !NearTheEnd(start, end, duration))
  {
    OpeningReportable(start, end, duration);
  }

  /** The check of fingerprinted credits refuses nothing the detector can report. What it
      accepts beyond that is exactly: a start within the snapping distance of the window's,
      a start before the middle of the file, an end that would have been moved, and fewer
      than fifteen seconds, which only a saturated addition lets through. */
  lemma CreditsCheckAgainstDetector(start: U64, end: U64, duration: U64)
    ensures Reportable(Closing, duration, Range(start, end)) ==>
              WithinBounds(Credits, Chromaprint, start, end, duration)
    ensures WithinBounds(Credits, Chromaprint, start, end, duration) ==>
              (Reportable(Closing, duration, Range(start, end)) <==>
                 && !(CreditsFrom(duration) < start <= CreditsFrom(duration) + START_SNAP)
                 && 2 * start >= duration && !NearTheEnd(start, end, duration)
                 && start + SHARED_REGION_MIN <= duration)
  {
    CreditsReportable(start, end, duration);
  }

  // ------------------------------------------------------------------ failing inputs

  /** An opening that begins five seconds in and lasts 119.9 is pulled back to the start of
      the file when the other file's begins later, and is then too long for the check. */
  lemma LongOpeningRefused(start: U64, end: U64, duration: U64)
    requires start == 0 && end == 124_900 && duration == 2_400_000
    ensures OnTheLeft(Opening, duration, duration, [Pair(Range(5_000, 124_900), Range(10_000, 129_900))], Range(start, end))
    ensures Reportable(Opening, duration, Range(start, end)) && !WithinBounds(Intro, Chromaprint, start, end, duration)
  {
    var m := Pair(Range(5_000, 124_900), Range(10_000, 129_900));
    OnePair(m);
    assert AllShared([m], Searched(Opening, duration), Searched(Opening, duration));
    OpeningReportable(start, end, duration);
  }

  /** An opening at exactly the snapping distance is accepted and never reported, and so is
      one that stops a millisecond short of a short file's end. */
  lemma UnreportedOpeningsAccepted(start: U64, end: U64, duration: U64)
    requires || (start == 5_000 && end == 60_000 && duration == 2_400_000)
             || (start == 10_000 && end == 99_999 && duration == 100_000)
    ensures WithinBounds(Intro, Chromaprint, start, end, duration) && !Reportable(Opening, duration, Range(start, end))
  {
    OpeningReportable(start, end, duration);
  }

  /** So are credits two seconds into their window, credits from just before the middle of
      a short file, and ten seconds before the largest u64 in a file that ends there. */
  lemma UnreportedCreditsAccepted(start: U64, end: U64, duration: U64)
    requires || (start == 1_552_000 && end == 1_600_000 && duration == 2_000_000)
             || (start == 50_000 && end == 80_000 && duration == 100_001)
             || (start == U64_MAX - 10_000 && end == U64_MAX && duration == U64_MAX)
    ensures WithinBounds(Credits, Chromaprint, start, end, duration) && !Reportable(Closing, duration, Range(start, end))
  {
    CreditsReportable(start, end, duration);
  }
}
