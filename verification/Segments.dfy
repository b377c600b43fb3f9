// Which chapters of a file bound its recap, its opening and its credits, and which
// boundaries a detector could have inferred.

module Segments {
  import opened Wrappers
  import opened Titles

  const U64_MAX: nat := 0xFFFF_FFFF_FFFF_FFFF

  const INTRO_MAX: nat := 120_000
  const RECAP_MAX: nat := 120_000
  const CREDITS_WINDOW: nat := 450_000
  const INTRO_WINDOW_LIMIT: nat := 600_000
  const INTRO_PERCENT_MIN_DURATION: nat := 300_000
  const REFINE_OUTWARD: nat := 2_000
  const REFINE_INWARD: nat := 5_000
  const SHARED_REGION_MIN: nat := 15_000
  const RECAP_MIN: nat := 15_000
  const BLACK_CREDITS_MIN: nat := 15_000
  const START_SNAP: nat := 5_000

  /** Times are u64 milliseconds. */
  datatype Chapter = Chapter(start: nat, end: Option<nat>, title: Option<string>)

  datatype Boundary = Boundary(kind: Kind, start: nat, end: nat)

  // ------------------------------------------------------------ what a chapter bounds

  /** A chapter with its title read. */
  datatype Mark = Mark(start: nat, end: Option<nat>, kind: Option<Kind>)

  function MarkOf(c: Chapter): Mark {
    Mark(c.start, c.end, match c.title case None => None case Some(title) => KindOf(title))
  }

  function Marks(chapters: seq<Chapter>): (r: seq<Mark>)
    ensures |r| == |chapters|
  {
    seq(|chapters|, i requires 0 <= i < |chapters| => MarkOf(chapters[i]))
  }

  function KindAt(marks: seq<Mark>, i: int): Option<Kind> {
    if 0 <= i < |marks| then marks[i].kind else None
  }

  /** The neighbour in the direction the kind is searched from names the same kind. */
  predicate Ambiguous(marks: seq<Mark>, i: nat) {
    if KindAt(marks, i) == Some(Credits) then KindAt(marks, i - 1) == Some(Credits)
    else KindAt(marks, i + 1) == KindAt(marks, i)
  }

  /** The stated end, or the next start, or the end of the file; never past the end of a
      file whose length is known. */
  function EndAt(marks: seq<Mark>, duration: nat, i: nat): nat
    requires i < |marks|
  {
    var stated := match marks[i].end
                  case Some(end) => end
                  case None => if i + 1 < |marks| then marks[i + 1].start else duration;
    Min(stated, if duration > 0 then Max(duration, marks[i].start) else U64_MAX)
  }

  function Longest(kind: Kind): nat {
    if kind == Credits then CREDITS_WINDOW else INTRO_MAX
  }

  /** The chapter is a boundary of the kind that could be kept. */
  predicate Qualifies(marks: seq<Mark>, duration: nat, i: int, kind: Kind) {
    && 0 <= i < |marks| && KindAt(marks, i) == Some(kind) && !Ambiguous(marks, i)
    && SHARED_REGION_MIN <= EndAt(marks, duration, i) - marks[i].start <= Longest(kind)
  }

  function BoundaryAt(marks: seq<Mark>, duration: nat, i: nat): Boundary
    requires i < |marks| && KindAt(marks, i).Some?
  {
    Boundary(KindAt(marks, i).value, marks[i].start, EndAt(marks, duration, i))
  }

  /** The chapter the kind keeps: the first that qualifies, and for credits the last. */
  ghost predicate Keeps(marks: seq<Mark>, duration: nat, kind: Kind, i: nat) {
    && Qualifies(marks, duration, i, kind)
    && (kind == Credits ==> forall j :: i < j < |marks| ==> !Qualifies(marks, duration, j, kind))
    && (kind != Credits ==> forall j :: 0 <= j < i ==> !Qualifies(marks, duration, j, kind))
  }

  // --------------------------------------------------------- in the words of the chapters

  predicate Names(chapters: seq<Chapter>, i: int, kind: Kind) {
    0 <= i < |chapters| && chapters[i].title.Some? && KindOf(chapters[i].title.value) == Some(kind)
  }

  /** Chapter i runs to here: to its stated end, or else to the next chapter's start, or
      else to the end of the file, and no further than a known length. */
  predicate RunsTo(chapters: seq<Chapter>, duration: nat, i: nat, end: nat)
    requires i < |chapters|
  {
    var cut := if duration > 0 then duration else 0xFFFF_FFFF_FFFF_FFFF;
    if chapters[i].end.Some? then end == Min(chapters[i].end.value, cut)
    else if i == |chapters| - 1 then end == Min(duration, cut)
    else end == Min(chapters[i + 1].start, cut)
  }

  /** Chapter i tells this boundary: its title names the kind, the chapter on the side the
      kind is searched from does not, and it lasts 15 seconds to two minutes, or to seven
      and a half for credits. */
  predicate Tells(chapters: seq<Chapter>, duration: nat, b: Boundary, i: int) {
    && Names(chapters, i, b.kind)
    && !Names(chapters, if b.kind == Credits then i - 1 else i + 1, b.kind)
    && b.start == chapters[i].start && RunsTo(chapters, duration, i, b.end)
    && b.start + 15_000 <= b.end <= b.start + (if b.kind == Credits then 450_000 else 120_000)
  }

  /** Chapter i tells the boundary, first of its kind, or for credits last. */
  ghost predicate Foremost(chapters: seq<Chapter>, duration: nat, b: Boundary, i: int) {
    && Tells(chapters, duration, b, i)
    && (forall c: Boundary, j: int :: c.kind == b.kind && Tells(chapters, duration, c, j) ==>
          if b.kind == Credits then j <= i else i <= j)
  }

  ghost predicate Chosen(chapters: seq<Chapter>, duration: nat, b: Boundary) {
    exists i :: Foremost(chapters, duration, b, i)
  }

  ghost predicate Told(chapters: seq<Chapter>, duration: nat, kind: Kind) {
    exists b: Boundary, i: int :: b.kind == kind && Tells(chapters, duration, b, i)
  }

  lemma TellsIff(chapters: seq<Chapter>, duration: nat, b: Boundary, i: int)
    ensures Tells(chapters, duration, b, i) <==>
            Qualifies(Marks(chapters), duration, i, b.kind) && b == BoundaryAt(Marks(chapters), duration, i)
  {
    var marks := Marks(chapters);
    assert forall j :: Names(chapters, j, b.kind) <==> KindAt(marks, j) == Some(b.kind);
  }

  lemma ToldIff(chapters: seq<Chapter>, duration: nat, kind: Kind)
    ensures Told(chapters, duration, kind) <==> SomeQualifies(Marks(chapters), duration, kind)
  {
    var marks := Marks(chapters);
    if b: Boundary, i: int :| b.kind == kind && Tells(chapters, duration, b, i) {
      TellsIff(chapters, duration, b, i);
    }
    if i :| 0 <= i < |marks| && Qualifies(marks, duration, i, kind) {
      TellsIff(chapters, duration, BoundaryAt(marks, duration, i), i);
    }
  }

  lemma KeptIsChosen(chapters: seq<Chapter>, duration: nat, b: Boundary)
    requires IsKept(Marks(chapters), duration, b)
    ensures Chosen(chapters, duration, b)
  {
    var marks := Marks(chapters);
    var i :| 0 <= i < |marks| && Keeps(marks, duration, b.kind, i) && b == BoundaryAt(marks, duration, i);
    TellsIff(chapters, duration, b, i);
    forall c: Boundary, j: int | c.kind == b.kind && Tells(chapters, duration, c, j)
      ensures if b.kind == Credits then j <= i else i <= j
    {
      TellsIff(chapters, duration, c, j);
    }
    assert Foremost(chapters, duration, b, i);
  }

  // ---------------------------------------------------------------- the two passes

  /** The first pass: every qualifying chapter, in the order of the marks. */
  function Candidates(marks: seq<Mark>, duration: nat, n: nat): seq<Boundary>
    requires n <= |marks|
  {
    if n == 0 then []
    else if KindAt(marks, n - 1).Some? && Qualifies(marks, duration, n - 1, KindAt(marks, n - 1).value) then
      Candidates(marks, duration, n - 1) + [BoundaryAt(marks, duration, n - 1)]
    else Candidates(marks, duration, n - 1)
  }

  function OfKind(found: seq<Boundary>, kind: Kind): seq<Boundary> {
    if found == [] then []
    else OfKind(found[..|found| - 1], kind) + (if found[|found| - 1].kind == kind then [found[|found| - 1]] else [])
  }

  /** The chapters behind the candidates: `from[k]` is the chapter that told `found[k]`. */
  ghost predicate ToldBy(chapters: seq<Chapter>, duration: nat, found: seq<Boundary>, from: seq<int>, n: nat) {
    && |from| == |found|
    && (forall k, m :: 0 <= k < m < |from| ==> from[k] < from[m])
    && (forall k :: 0 <= k < |from| ==> from[k] < n && Tells(chapters, duration, found[k], from[k]))
    && (forall b, i :: i < n && Tells(chapters, duration, b, i) ==> i in from)
  }

  lemma ToldStep(chapters: seq<Chapter>, duration: nat, found: seq<Boundary>, from: seq<int>, i: nat)
    requires i < |chapters| && ToldBy(chapters, duration, found, from, i)
    ensures var marks := Marks(chapters);
            if KindAt(marks, i).Some? && Qualifies(marks, duration, i, KindAt(marks, i).value)
            then ToldBy(chapters, duration, found + [BoundaryAt(marks, duration, i)], from + [i], i + 1)
            else ToldBy(chapters, duration, found, from, i + 1)
  {
    var marks := Marks(chapters);
    forall b | Tells(chapters, duration, b, i)
      ensures KindAt(marks, i) == Some(b.kind) && Qualifies(marks, duration, i, b.kind)
    {
      TellsIff(chapters, duration, b, i);
    }
    if KindAt(marks, i).Some? && Qualifies(marks, duration, i, KindAt(marks, i).value) {
      var b := BoundaryAt(marks, duration, i);
      TellsIff(chapters, duration, b, i);
      ToldGrows(chapters, duration, found, from, i, b);
    }
  }

  lemma ToldGrows(chapters: seq<Chapter>, duration: nat, found: seq<Boundary>, from: seq<int>, i: nat, b: Boundary)
    requires ToldBy(chapters, duration, found, from, i) && Tells(chapters, duration, b, i)
    ensures ToldBy(chapters, duration, found + [b], from + [i], i + 1)
  {
    assert i in from + [i];
  }

  method FindCandidates(chapters: seq<Chapter>, duration: nat) returns (found: seq<Boundary>, ghost from: seq<int>)
    ensures found == Candidates(Marks(chapters), duration, |chapters|)
    ensures ToldBy(chapters, duration, found, from, |chapters|)
  {
    var marks := Marks(chapters);
    found, from := [], [];
    for i := 0 to |marks|
      invariant found == Candidates(marks, duration, i)
      invariant ToldBy(chapters, duration, found, from, i)
    {
      ToldStep(chapters, duration, found, from, i);
      var kind := KindAt(marks, i);
      if kind.None? || Ambiguous(marks, i) {
        continue;
      }
      var end := EndAt(marks, duration, i);
      if end <= marks[i].start {
        continue;
      }
      var length := end - marks[i].start;
      if length < SHARED_REGION_MIN || length > Longest(kind.value) {
        continue;
      }
      found, from := found + [Boundary(kind.value, marks[i].start, end)], from + [i];
    }
  }

  method Filter(found: seq<Boundary>, kind: Kind) returns (kept: seq<Boundary>)
    ensures kept == OfKind(found, kind)
  {
    kept := [];
    for i := 0 to |found|
      invariant kept == OfKind(found[..i], kind)
    {
      assert found[..i + 1][..i] == found[..i];
      if found[i].kind == kind {
        kept := kept + [found[i]];
      }
    }
    assert found[..|found|] == found;
  }

  predicate Sorted(out: seq<Boundary>) {
    forall i, j :: 0 <= i < j < |out| ==> out[i].start <= out[j].start
  }

  predicate Splits(out: seq<Boundary>, b: Boundary, i: nat) {
    && i <= |out|
    && (forall j :: 0 <= j < i ==> out[j].start <= b.start)
    && (forall j :: i <= j < |out| ==> out[j].start > b.start)
  }

  function InsertedAt(out: seq<Boundary>, b: Boundary, i: nat): seq<Boundary>
    requires i <= |out|
  {
    out[..i] + [b] + out[i..]
  }

  lemma InsertedSorted(out: seq<Boundary>, b: Boundary, i: nat)
    requires Sorted(out) && Splits(out, b, i)
    ensures Sorted(InsertedAt(out, b, i))
  {
  }

  /** A stable sort's step: a boundary goes after those that start no later. */
  method Insert(out: seq<Boundary>, b: Boundary) returns (grown: seq<Boundary>, ghost at: nat)
    requires Sorted(out)
    ensures Sorted(grown) && at <= |out| && grown == InsertedAt(out, b, at)
  {
    var i := |out|;
    while i > 0 && out[i - 1].start > b.start
      invariant 0 <= i <= |out|
      invariant forall j :: i <= j < |out| ==> out[j].start > b.start
    {
      i := i - 1;
    }
    assert Splits(out, b, i);
    InsertedSorted(out, b, i);
    grown, at := out[..i] + [b] + out[i..], i;
  }

  // --------------------------------------------------------------------- the answer

  /** What `named` promises of its answer. */
  ghost predicate Answers(chapters: seq<Chapter>, duration: nat, out: seq<Boundary>) {
    && Sorted(out)
    && DistinctKinds(out)
    && (forall b :: b in out ==> Chosen(chapters, duration, b))
    && (forall kind :: Named(out, kind) <==> Told(chapters, duration, kind))
  }

  ghost predicate IsKept(marks: seq<Mark>, duration: nat, b: Boundary) {
    exists i :: 0 <= i < |marks| && Keeps(marks, duration, b.kind, i) && b == BoundaryAt(marks, duration, i)
  }

  predicate Named(out: seq<Boundary>, kind: Kind) {
    exists b :: b in out && b.kind == kind
  }

  predicate SomeQualifies(marks: seq<Mark>, duration: nat, kind: Kind) {
    exists i :: 0 <= i < |marks| && Qualifies(marks, duration, i, kind)
  }

  ghost predicate First(marks: seq<Mark>, duration: nat, kind: Kind, i: nat) {
    Qualifies(marks, duration, i, kind) && forall j :: 0 <= j < i ==> !Qualifies(marks, duration, j, kind)
  }

  ghost predicate Last(marks: seq<Mark>, duration: nat, kind: Kind, i: nat, n: nat) {
    Qualifies(marks, duration, i, kind) && forall j :: i < j < n ==> !Qualifies(marks, duration, j, kind)
  }

  ghost function FirstOf(marks: seq<Mark>, duration: nat, kind: Kind, n: nat): (r: Option<nat>)
    ensures r.Some? ==> r.value < n && First(marks, duration, kind, r.value)
    ensures r.None? ==> forall i :: 0 <= i < n ==> !Qualifies(marks, duration, i, kind)
  {
    if n == 0 then None
    else
      match FirstOf(marks, duration, kind, n - 1)
      case Some(i) => Some(i)
      case None => if Qualifies(marks, duration, n - 1, kind) then Some(n - 1) else None
  }

  ghost function LastOf(marks: seq<Mark>, duration: nat, kind: Kind, n: nat): (r: Option<nat>)
    ensures r.Some? ==> r.value < n && Last(marks, duration, kind, r.value, n)
    ensures r.None? ==> forall i :: 0 <= i < n ==> !Qualifies(marks, duration, i, kind)
  {
    if n == 0 then None
    else if Qualifies(marks, duration, n - 1, kind) then Some(n - 1)
    else LastOf(marks, duration, kind, n - 1)
  }

  function Mine(marks: seq<Mark>, duration: nat, kind: Kind, n: nat): seq<Boundary>
    requires n <= |marks|
  {
    OfKind(Candidates(marks, duration, n), kind)
  }

  lemma MineStep(marks: seq<Mark>, duration: nat, kind: Kind, n: nat)
    requires 0 < n <= |marks|
    ensures Mine(marks, duration, kind, n) ==
            Mine(marks, duration, kind, n - 1)
            + (if Qualifies(marks, duration, n - 1, kind) then [BoundaryAt(marks, duration, n - 1)] else [])
  {
    var before, all := Candidates(marks, duration, n - 1), Candidates(marks, duration, n);
    if all != before {
      assert all[..|all| - 1] == before;
      assert all[|all| - 1] == BoundaryAt(marks, duration, n - 1);
    }
  }

  /** The candidates of a kind begin with its first qualifying chapter and end with its
      last, and there are none only when no chapter qualifies. */
  lemma {:induction false} MineEnds(marks: seq<Mark>, duration: nat, kind: Kind, n: nat)
    requires n <= |marks|
    ensures var mine, first, last := Mine(marks, duration, kind, n), FirstOf(marks, duration, kind, n),
                                     LastOf(marks, duration, kind, n);
            && (mine == [] <==> first.None?) && (mine == [] <==> last.None?)
            && (mine != [] ==> mine[0] == BoundaryAt(marks, duration, first.value))
            && (mine != [] ==> mine[|mine| - 1] == BoundaryAt(marks, duration, last.value))
  {
    if n > 0 {
      MineEnds(marks, duration, kind, n - 1);
      MineStep(marks, duration, kind, n);
    }
  }

  /** The pick of a kind: `next` for recap and intro, `next_back` for credits. */
  function Pick(mine: seq<Boundary>, kind: Kind): Option<Boundary> {
    if mine == [] then None
    else if kind == Credits then Some(mine[|mine| - 1])
    else Some(mine[0])
  }

  lemma PickIsKept(marks: seq<Mark>, duration: nat, kind: Kind)
    ensures var pick := Pick(Mine(marks, duration, kind, |marks|), kind);
            && (pick.Some? <==> SomeQualifies(marks, duration, kind))
            && (pick.Some? ==> pick.value.kind == kind && IsKept(marks, duration, pick.value))
  {
    var n := |marks|;
    MineEnds(marks, duration, kind, n);
    if Mine(marks, duration, kind, n) != [] {
      var first, last := FirstOf(marks, duration, kind, n).value, LastOf(marks, duration, kind, n).value;
      assert kind == Credits ==> Keeps(marks, duration, kind, last);
      assert kind != Credits ==> Keeps(marks, duration, kind, first);
    }
  }

  predicate DistinctKinds(out: seq<Boundary>) {
    forall i, j :: 0 <= i < j < |out| ==> out[i].kind != out[j].kind
  }

  lemma GrownBy(out: seq<Boundary>, b: Boundary, at: nat, grown: seq<Boundary>)
    requires at <= |out| && grown == InsertedAt(out, b, at) && DistinctKinds(out) && !Named(out, b.kind)
    ensures DistinctKinds(grown)
    ensures forall c :: c in grown <==> c in out || c == b
  {
    forall i, j | 0 <= i < j < |grown|
      ensures grown[i].kind != grown[j].kind
    {
      var p, q := if i < at then i else i - 1, if j < at then j else j - 1;
      assert i != at ==> grown[i] == out[p] && grown[i] in out;
      assert j != at ==> grown[j] == out[q] && grown[j] in out;
    }
    assert out == out[..at] + out[at..];
  }

  lemma NamedGrown(out: seq<Boundary>, b: Boundary, grown: seq<Boundary>)
    requires forall c :: c in grown <==> c in out || c == b
    ensures forall kind :: Named(grown, kind) <==> Named(out, kind) || kind == b.kind
  {
    assert b in grown;
  }

  const ALL_KINDS := [Recap, Intro, Credits]

  /** The kinds the second pass has been through. */
  predicate Done(kind: Kind, i: nat) {
    match kind
    case Recap => i > 0
    case Intro => i > 1
    case Credits => i > 2
  }

  lemma DoneStep(i: nat)
    requires i < 3
    ensures forall kind :: Done(kind, i + 1) <==> Done(kind, i) || kind == ALL_KINDS[i]
    ensures !Done(ALL_KINDS[i], i)
  {
    forall kind: Kind
      ensures Done(kind, i + 1) <==> Done(kind, i) || kind == ALL_KINDS[i]
    {
      match kind
      case Recap =>
      case Intro =>
      case Credits =>
    }
  }

  /** The boundaries a file's chapters name. */
  method FindNamed(chapters: seq<Chapter>, duration: nat) returns (out: seq<Boundary>)
    ensures Answers(chapters, duration, out)
  {
    var marks := Marks(chapters);
    var found, _ := FindCandidates(chapters, duration);
    out := [];
    for i := 0 to 3
      invariant Sorted(out) && DistinctKinds(out)
      invariant forall b :: b in out ==> IsKept(marks, duration, b)
      invariant forall kind :: Named(out, kind) <==> Done(kind, i) && SomeQualifies(marks, duration, kind)
    {
      var kind := ALL_KINDS[i];
      DoneStep(i);
      var mine := Filter(found, kind);
      PickIsKept(marks, duration, kind);
      if mine != [] {
        var pick := Pick(mine, kind).value;
        var grown, at := Insert(out, pick);
        GrownBy(out, pick, at, grown);
        NamedGrown(out, pick, grown);
        out := grown;
      }
    }
    KeptAreChosen(chapters, duration, out);
  }

  lemma KeptAreChosen(chapters: seq<Chapter>, duration: nat, out: seq<Boundary>)
    requires forall b :: b in out ==> IsKept(Marks(chapters), duration, b)
    ensures forall b :: b in out ==> Chosen(chapters, duration, b)
    ensures forall kind :: Told(chapters, duration, kind) <==> SomeQualifies(Marks(chapters), duration, kind)
  {
    forall b | b in out
      ensures Chosen(chapters, duration, b)
    {
      KeptIsChosen(chapters, duration, b);
    }
    forall kind: Kind
      ensures Told(chapters, duration, kind) <==> SomeQualifies(Marks(chapters), duration, kind)
    {
      ToldIff(chapters, duration, kind);
    }
  }

  /** A boundary told is a real span of the file, of a length its kind may have. */
  lemma KeptSpan(chapters: seq<Chapter>, duration: nat, b: Boundary)
    requires Chosen(chapters, duration, b)
    ensures b.start < b.end && SHARED_REGION_MIN <= b.end - b.start <= Longest(b.kind)
    ensures duration > 0 ==> b.end <= duration
  {
    var i :| Foremost(chapters, duration, b, i);
    assert Tells(chapters, duration, b, i);
  }

  /** The answer is determined: two answers for the same chapters hold the same boundaries. */
  lemma AnswersAgree(chapters: seq<Chapter>, duration: nat, a: seq<Boundary>, b: seq<Boundary>, x: Boundary)
    requires Answers(chapters, duration, a) && Answers(chapters, duration, b) && x in a
    ensures x in b
  {
    assert Named(a, x.kind);
    assert Named(b, x.kind);
    var y :| y in b && y.kind == x.kind;
    ChosenOnce(chapters, duration, x, y);
  }

  lemma ChosenOnce(chapters: seq<Chapter>, duration: nat, x: Boundary, y: Boundary)
    requires Chosen(chapters, duration, x) && Chosen(chapters, duration, y) && x.kind == y.kind
    ensures x == y
  {
    var i :| Foremost(chapters, duration, x, i);
    var j :| Foremost(chapters, duration, y, j);
    assert Tells(chapters, duration, x, i) && Tells(chapters, duration, y, j);
    assert i == j;
    assert x.start == y.start && x.end == y.end;
  }

  // ------------------------------------------------------------------------ the mask

  function Bit(kind: Kind): bv8 {
    match kind
    case Recap => 1
    case Intro => 2
    case Credits => 4
  }

  /** A bit is set exactly for the kinds that some chapter qualifies for. */
  method NamedKindMask(chapters: seq<Chapter>, duration: nat) returns (mask: bv8)
    ensures mask & 1 != 0 <==> Told(chapters, duration, Recap)
    ensures mask & 2 != 0 <==> Told(chapters, duration, Intro)
    ensures mask & 4 != 0 <==> Told(chapters, duration, Credits)
    ensures mask < 8
  {
    var found := FindNamed(chapters, duration);
    mask := 0;
    for i := 0 to |found|
      invariant mask < 8
      invariant forall kind :: mask & Bit(kind) != 0 <==> Named(found[..i], kind)
    {
      MaskStep(mask, found[i].kind);
      NamedPrefix(found, i);
      mask := mask | Bit(found[i].kind);
    }
    assert found[..|found|] == found;
    assert mask & Bit(Recap) != 0 <==> Told(chapters, duration, Recap);
    assert mask & Bit(Intro) != 0 <==> Told(chapters, duration, Intro);
    assert mask & Bit(Credits) != 0 <==> Told(chapters, duration, Credits);
  }

  lemma MaskStep(mask: bv8, kind: Kind)
    requires mask < 8
    ensures mask | Bit(kind) < 8
    ensures forall other :: (mask | Bit(kind)) & Bit(other) != 0 <==> mask & Bit(other) != 0 || other == kind
  {
    forall other: Kind
      ensures (mask | Bit(kind)) & Bit(other) != 0 <==> mask & Bit(other) != 0 || other == kind
    {
      match other
      case Recap =>
      case Intro =>
      case Credits =>
    }
  }

  lemma NamedPrefix(found: seq<Boundary>, i: nat)
    requires i < |found|
    ensures forall kind :: Named(found[..i + 1], kind) <==> Named(found[..i], kind) || kind == found[i].kind
  {
    assert found[..i + 1] == found[..i] + [found[i]];
    assert found[i] in found[..i + 1];
    forall kind | Named(found[..i], kind)
      ensures Named(found[..i + 1], kind)
    {
      var b :| b in found[..i] && b.kind == kind;
      assert b in found[..i + 1];
    }
  }

  // -------------------------------------------------------------- inferred boundaries

  datatype Analyzer = BlackFrame | Chromaprint

  type U64 = n: nat | n <= U64_MAX

  function SaturatingAdd(a: nat, b: nat): nat {
    Min(a + b, U64_MAX)
  }

  function SaturatingSub(a: nat, b: nat): nat {
    if a >= b then a - b else 0
  }

  /** The end of the stretch searched for an opening. */
  function HeadEnd(duration: nat): nat {
    if duration >= INTRO_PERCENT_MIN_DURATION then Min(duration / 4, INTRO_WINDOW_LIMIT) else duration
  }

  predicate WithinBounds(kind: Kind, analyzer: Analyzer, start: U64, end: U64, duration: U64) {
    start < end <= duration &&
    var length := end - start;
    match (kind, analyzer)
    case (Recap, BlackFrame) => start == 0 && RECAP_MIN <= length <= RECAP_MAX
    case (Intro, Chromaprint) =>
      && SaturatingAdd(start, SHARED_REGION_MIN) <= HeadEnd(duration)
      && (start == 0 || start >= START_SNAP)
      && length >= SHARED_REGION_MIN - REFINE_INWARD && length <= INTRO_MAX + REFINE_OUTWARD
      && start <= HeadEnd(duration)
      && end <= Min(HeadEnd(duration) + REFINE_OUTWARD, duration)
    case (Credits, BlackFrame) =>
      end == duration && length >= BLACK_CREDITS_MIN && start >= SaturatingSub(duration, CREDITS_WINDOW)
    case (Credits, Chromaprint) =>
      && SaturatingAdd(start, SHARED_REGION_MIN) <= duration
      && length >= SHARED_REGION_MIN - REFINE_INWARD
      && start >= duration / 2 && start >= SaturatingSub(duration, CREDITS_WINDOW)
    case _ => false
  }
}
