// The chapters of a source's parts, folded onto the item's one timeline.

module Chapters {
  import opened Wrappers
  import opened Segments

  /** What a probe recorded of one part. */
  datatype Info = Info(duration: Option<nat>, chapters: Option<seq<Chapter>>) {
    function List(): seq<Chapter> {
      match chapters case None => [] case Some(list) => list
    }

    /** A length of zero counts as unknown. */
    function Length(): Option<nat> {
      if duration == Some(0) then None else duration
    }
  }

  function CheckedAdd(a: nat, b: nat): Option<nat> {
    if a + b <= U64_MAX then Some(a + b) else None
  }

  // ------------------------------------------------------------------------ one part

  function EndOnTimeline(end: Option<nat>, offset: nat, length: Option<nat>, last: bool): Option<nat> {
    match end
    case None => None
    case Some(e) =>
      match CheckedAdd(e, offset)
      case None => None
      case Some(moved) =>
        if last || length.None? || CheckedAdd(offset, length.value).None? then Some(moved)
        else Some(Min(moved, offset + length.value))
  }

  /** None for a chapter past its own part's end, or past the last timestamp. */
  function OnTimeline(c: Chapter, offset: nat, length: Option<nat>, last: bool): Option<Chapter> {
    if !last && length.Some? && c.start >= length.value then None
    else
      match CheckedAdd(c.start, offset)
      case None => None
      case Some(start) => Some(Chapter(start, EndOnTimeline(c.end, offset, length, last), c.title))
  }

  function PartOnTimeline(list: seq<Chapter>, offset: nat, length: Option<nat>, last: bool): seq<Chapter> {
    if list == [] then []
    else
      var rest := PartOnTimeline(list[..|list| - 1], offset, length, last);
      match OnTimeline(list[|list| - 1], offset, length, last)
      case None => rest
      case Some(c) => rest + [c]
  }

  /** Where a chapter of a part of known beginning ends up: at its own start after the
      part's beginning, under its own title; its end moves along and is cut at the part's
      end when another part follows. A chapter that starts past its part's end, or past
      the last timestamp, ends up nowhere. */
  ghost predicate Placed(from: Chapter, offset: nat, length: Option<nat>, last: bool, c: Chapter) {
    && (last || length.None? || from.start < length.value)
    && c.start == offset + from.start <= 0xFFFF_FFFF_FFFF_FFFF
    && c.title == from.title
    && (from.end.None? || offset + from.end.value > 0xFFFF_FFFF_FFFF_FFFF ==> c.end == None)
    && (from.end.Some? && offset + from.end.value <= 0xFFFF_FFFF_FFFF_FFFF ==>
          var cut := !last && length.Some? && offset + length.value <= 0xFFFF_FFFF_FFFF_FFFF && from.end.value > length.value;
          c.end == Some(offset + if cut then length.value else from.end.value))
  }

  lemma PlacedIff(from: Chapter, offset: nat, length: Option<nat>, last: bool, c: Chapter)
    ensures Placed(from, offset, length, last, c) <==> OnTimeline(from, offset, length, last) == Some(c)
  {
  }

  function NextOffset(info: Info, offset: nat): Option<nat> {
    match info.Length() case None => None case Some(ms) => CheckedAdd(offset, ms)
  }

  // ------------------------------------------------------------------- all the parts

  /** Where part k starts, when the fold gets that far. */
  function Offset(parts: seq<Option<Info>>, k: nat): Option<nat>
    requires k <= |parts|
  {
    if k == 0 then Some(0)
    else if Offset(parts, k - 1).None? || parts[k - 1].None? then None
    else NextOffset(parts[k - 1].value, Offset(parts, k - 1).value)
  }

  predicate Reached(parts: seq<Option<Info>>, k: nat) {
    k < |parts| && Offset(parts, k).Some? && parts[k].Some?
  }

  /** What part k contributes. */
  function Part(parts: seq<Option<Info>>, k: nat): seq<Chapter> {
    if Reached(parts, k) then
      PartOnTimeline(parts[k].value.List(), Offset(parts, k).value, parts[k].value.Length(), k + 1 == |parts|)
    else []
  }

  function Contributions(parts: seq<Option<Info>>): (r: seq<seq<Chapter>>)
    ensures |r| == |parts|
    ensures forall k :: 0 <= k < |parts| ==> r[k] == Part(parts, k)
  {
    seq(|parts|, k requires 0 <= k < |parts| => Part(parts, k))
  }

  function Concat(lists: seq<seq<Chapter>>, n: nat): seq<Chapter>
    requires n <= |lists|
  {
    if n == 0 then [] else Concat(lists, n - 1) + lists[n - 1]
  }

  function Folded(parts: seq<Option<Info>>, k: nat): seq<Chapter>
    requires k <= |parts|
  {
    Concat(Contributions(parts), k)
  }

  // ----------------------------------------------------------- sorting and deduplication

  /** The first of a list at a timestamp. */
  function FirstAt(list: seq<Chapter>, start: nat): Option<Chapter> {
    if list == [] then None
    else if FirstAt(list[..|list| - 1], start).Some? then FirstAt(list[..|list| - 1], start)
    else if list[|list| - 1].start == start then Some(list[|list| - 1])
    else None
  }

  lemma {:induction false} FirstAtIs(list: seq<Chapter>, start: nat)
    ensures var r := FirstAt(list, start);
            && (r.Some? ==> r.value in list && r.value.start == start)
            && (r.None? ==> forall c :: c in list ==> c.start != start)
  {
    if list != [] {
      var short, last := list[..|list| - 1], list[|list| - 1];
      FirstAtIs(short, start);
      assert list == short + [last];
    }
  }

  predicate Ordered(list: seq<Chapter>) {
    forall i, j :: 0 <= i < j < |list| ==> list[i].start <= list[j].start
  }

  predicate StrictlyOrdered(list: seq<Chapter>) {
    forall i, j :: 0 <= i < j < |list| ==> list[i].start < list[j].start
  }

  /** A stable sort puts an element after its equals. */
  function Insert(list: seq<Chapter>, c: Chapter): (r: seq<Chapter>)
    ensures |r| == |list| + 1
  {
    if list == [] || list[|list| - 1].start <= c.start then list + [c]
    else Insert(list[..|list| - 1], c) + [list[|list| - 1]]
  }

  function Sorted(list: seq<Chapter>): seq<Chapter> {
    if list == [] then [] else Insert(Sorted(list[..|list| - 1]), list[|list| - 1])
  }

  /** `dedup_by_key`: an element goes when the one kept before it has its key. */
  function Dedup(list: seq<Chapter>): seq<Chapter> {
    if list == [] then []
    else
      var kept := Dedup(list[..|list| - 1]);
      if kept != [] && kept[|kept| - 1].start == list[|list| - 1].start then kept else kept + [list[|list| - 1]]
  }

  lemma FirstAtAppend(list: seq<Chapter>, c: Chapter, start: nat)
    ensures FirstAt(list + [c], start) ==
            if FirstAt(list, start).Some? then FirstAt(list, start) else if c.start == start then Some(c) else None
  {
    assert (list + [c])[..|list|] == list;
  }

  lemma {:induction false} InsertKeepsOrder(list: seq<Chapter>, c: Chapter)
    requires Ordered(list)
    ensures Ordered(Insert(list, c))
    ensures Insert(list, c) != [] && forall x :: x in Insert(list, c) ==> x in list || x == c
  {
    if list != [] && list[|list| - 1].start > c.start {
      var short := list[..|list| - 1];
      InsertKeepsOrder(short, c);
      forall x | x in Insert(short, c)
        ensures x.start <= list[|list| - 1].start
      {
        if x in short {
          assert x in list;
        }
      }
    }
  }

  lemma {:induction false} InsertIsStable(list: seq<Chapter>, c: Chapter, start: nat)
    requires Ordered(list)
    ensures FirstAt(Insert(list, c), start) == FirstAt(list + [c], start)
  {
    FirstAtAppend(list, c, start);
    if list != [] && list[|list| - 1].start > c.start {
      var short, last := list[..|list| - 1], list[|list| - 1];
      InsertIsStable(short, c, start);
      assert list == short + [last] && Insert(list, c) == Insert(short, c) + [last];
      Commute(short, Insert(short, c), c, last, start);
    }
  }

  /** Elements of different timestamps may trade places. */
  lemma Commute(short: seq<Chapter>, inserted: seq<Chapter>, c: Chapter, last: Chapter, start: nat)
    requires FirstAt(inserted, start) == FirstAt(short + [c], start) && c.start != last.start
    ensures FirstAt(inserted + [last], start) == FirstAt((short + [last]) + [c], start)
  {
    FirstAtAppend(short, c, start);
    FirstAtAppend(inserted, last, start);
    FirstAtAppend(short, last, start);
    FirstAtAppend(short + [last], c, start);
  }

  lemma {:induction false} SortedInOrder(list: seq<Chapter>)
    ensures Ordered(Sorted(list))
  {
    if list != [] {
      SortedInOrder(list[..|list| - 1]);
      InsertKeepsOrder(Sorted(list[..|list| - 1]), list[|list| - 1]);
    }
  }

  lemma InsertLast(sorted: seq<Chapter>, short: seq<Chapter>, last: Chapter, start: nat)
    requires Ordered(sorted) && FirstAt(sorted, start) == FirstAt(short, start)
    ensures FirstAt(Insert(sorted, last), start) == FirstAt(short + [last], start)
  {
    InsertIsStable(sorted, last, start);
    FirstAtAppend(sorted, last, start);
    FirstAtAppend(short, last, start);
  }

  /** Sorting keeps, of every timestamp, the first first. */
  lemma {:induction false} SortedIsStable(list: seq<Chapter>, start: nat)
    ensures FirstAt(Sorted(list), start) == FirstAt(list, start)
  {
    if list != [] {
      var short, last := list[..|list| - 1], list[|list| - 1];
      SortedIsStable(short, start);
      SortedInOrder(short);
      InsertLast(Sorted(short), short, last, start);
      assert short + [last] == list;
    }
  }

  lemma {:induction false} DedupInOrder(list: seq<Chapter>)
    requires Ordered(list)
    ensures StrictlyOrdered(Dedup(list))
    ensures Dedup(list) != [] <==> list != []
    ensures list != [] ==> Dedup(list)[|Dedup(list)| - 1].start == list[|list| - 1].start
  {
    if list != [] {
      DedupInOrder(list[..|list| - 1]);
    }
  }

  lemma {:induction false} DedupKeepsFirst(list: seq<Chapter>, start: nat)
    ensures FirstAt(Dedup(list), start) == FirstAt(list, start)
  {
    if list != [] {
      var short, last := list[..|list| - 1], list[|list| - 1];
      var kept := Dedup(short);
      DedupKeepsFirst(short, start);
      FirstAtAppend(short, last, start);
      assert short + [last] == list;
      FirstAtAppend(kept, last, start);
      if kept != [] && kept[|kept| - 1].start == start {
        LastIsThere(kept, start);
      }
    }
  }

  lemma LastIsThere(list: seq<Chapter>, start: nat)
    requires list != [] && list[|list| - 1].start == start
    ensures FirstAt(list, start).Some?
  {
    assert list[|list| - 1] in list;
  }

  // ------------------------------------------------------------------------ the fold

  lemma FoldedStep(parts: seq<Option<Info>>, n: nat)
    requires 0 < n <= |parts|
    ensures Folded(parts, n) == Folded(parts, n - 1) + Part(parts, n - 1)
  {
  }

  lemma EmptyStep(parts: seq<Option<Info>>, k: nat)
    requires k < |parts| && (Offset(parts, k).None? || parts[k].None?)
    ensures Offset(parts, k + 1).None? && Folded(parts, k + 1) == Folded(parts, k)
  {
    assert Part(parts, k) == [];
    FoldedStep(parts, k + 1);
  }

  /** Once a part has no offset or no probe, the fold has all it will have. */
  lemma {:induction false} NothingAfter(parts: seq<Option<Info>>, k: nat, n: nat)
    requires k < n <= |parts| && (Offset(parts, k).None? || parts[k].None?)
    ensures Offset(parts, n).None? && Folded(parts, n) == Folded(parts, k)
  {
    if k < n - 1 {
      NothingAfter(parts, k, n - 1);
    }
    EmptyStep(parts, n - 1);
  }

  lemma FoldContinues(parts: seq<Option<Info>>, k: nat, offset: nat, info: Info)
    requires k < |parts| && parts[k] == Some(info) && Offset(parts, k) == Some(offset)
    ensures Folded(parts, k + 1) ==
            Folded(parts, k) + PartOnTimeline(info.List(), offset, info.Length(), k + 1 == |parts|)
    ensures Offset(parts, k + 1) == NextOffset(info, offset)
  {
    FoldedStep(parts, k + 1);
  }

  /** The chapters behind the placed ones: `from[m]` is the one that became `placed[m]`. */
  ghost predicate PlacedFrom(list: seq<Chapter>, offset: nat, length: Option<nat>, last: bool,
                             placed: seq<Chapter>, from: seq<nat>, n: nat) {
    && n <= |list| && |from| == |placed|
    && (forall m, o :: 0 <= m < o < |from| ==> from[m] < from[o])
    && (forall m :: 0 <= m < |from| ==> from[m] < n && Placed(list[from[m]], offset, length, last, placed[m]))
    && (forall i, c :: 0 <= i < n && Placed(list[i], offset, length, last, c) ==> i in from)
  }

  lemma PlacedNothing(list: seq<Chapter>, offset: nat, length: Option<nat>, last: bool,
                      placed: seq<Chapter>, from: seq<nat>, n: nat)
    requires n < |list| && PlacedFrom(list, offset, length, last, placed, from, n)
    requires OnTimeline(list[n], offset, length, last).None?
    ensures PlacedFrom(list, offset, length, last, placed, from, n + 1)
  {
    forall c: Chapter
      ensures !Placed(list[n], offset, length, last, c)
    {
      PlacedIff(list[n], offset, length, last, c);
    }
  }

  lemma PlacedOneMore(list: seq<Chapter>, offset: nat, length: Option<nat>, last: bool,
                      placed: seq<Chapter>, from: seq<nat>, n: nat, image: Chapter)
    requires n < |list| && PlacedFrom(list, offset, length, last, placed, from, n)
    requires OnTimeline(list[n], offset, length, last) == Some(image)
    ensures PlacedFrom(list, offset, length, last, placed + [image], from + [n], n + 1)
  {
    PlacedIff(list[n], offset, length, last, image);
    assert n in from + [n];
  }

  method PlacePart(list: seq<Chapter>, offset: nat, length: Option<nat>, last: bool)
    returns (placed: seq<Chapter>, ghost from: seq<nat>)
    ensures placed == PartOnTimeline(list, offset, length, last)
    ensures PlacedFrom(list, offset, length, last, placed, from, |list|)
  {
    placed, from := [], [];
    for i := 0 to |list|
      invariant placed == PartOnTimeline(list[..i], offset, length, last)
      invariant PlacedFrom(list, offset, length, last, placed, from, i)
    {
      assert list[..i + 1][..i] == list[..i];
      var c := list[i];
      if !last && length.Some? && c.start >= length.value {
        PlacedNothing(list, offset, length, last, placed, from, i);
        continue;
      }
      var start := CheckedAdd(c.start, offset);
      if start.None? {
        PlacedNothing(list, offset, length, last, placed, from, i);
        continue;
      }
      var image := Chapter(start.value, EndOnTimeline(c.end, offset, length, last), c.title);
      PlacedOneMore(list, offset, length, last, placed, from, i, image);
      placed, from := placed + [image], from + [i];
    }
    assert list[..|list|] == list;
  }

  method GroupChapters(parts: seq<Option<Info>>) returns (out: seq<Chapter>)
    ensures out == Dedup(Sorted(Folded(parts, |parts|)))
    ensures FromTheParts(parts, out)
  {
    out := [];
    var offset: nat := 0;
    var k := 0;
    while k < |parts|
      invariant 0 <= k <= |parts|
      invariant Offset(parts, k) == Some(offset) && out == Folded(parts, k)
      decreases |parts| - k
    {
      if parts[k].None? {
        break;
      }
      var info := parts[k].value;
      var length := info.Length();
      var placed, _ := PlacePart(info.List(), offset, length, k + 1 == |parts|);
      FoldContinues(parts, k, offset, info);
      out := out + placed;
      k := k + 1;
      if length.None? || CheckedAdd(offset, length.value).None? {
        break;
      }
      offset := offset + length.value;
    }
    if k < |parts| {
      NothingAfter(parts, k, |parts|);
    }
    out := Dedup(Sorted(out));
    GroupedFromParts(parts);
  }

  // --------------------------------------------------------------------- the promises

  /** A part starts at the sum of the lengths before it, every one of them known. */
  function Total(parts: seq<Option<Info>>, k: nat): Option<nat>
    requires k <= |parts|
  {
    if k == 0 then Some(0)
    else
      match (Total(parts, k - 1), parts[k - 1])
      case (Some(total), Some(Info(Some(ms), _))) => if ms > 0 then Some(total + ms) else None
      case _ => None
  }

  /** Chapter i of part k, the first of the part at its start, ends up as c: every earlier
      part has a known length, and the part starts at the sum of them. */
  ghost predicate LeadsAt(parts: seq<Option<Info>>, k: nat, i: nat, c: Chapter) {
    && k < |parts| && parts[k].Some? && parts[k].value.chapters.Some?
    && Total(parts, k).Some? && Total(parts, k).value <= 0xFFFF_FFFF_FFFF_FFFF
    && var list := parts[k].value.chapters.value;
       && FirstOfItsStart(list, i)
       && Placed(list[i], Total(parts, k).value, parts[k].value.Length(), k == |parts| - 1, c)
  }

  ghost predicate Leads(parts: seq<Option<Info>>, c: Chapter) {
    exists k, i :: LeadsAt(parts, k, i, c)
  }

  lemma {:induction false} OffsetIsTotal(parts: seq<Option<Info>>, k: nat)
    requires k <= |parts|
    ensures Offset(parts, k).Some? <==> Total(parts, k).Some? && Total(parts, k).value <= U64_MAX
    ensures Offset(parts, k).Some? ==> Offset(parts, k) == Total(parts, k)
  {
    if k > 0 {
      OffsetIsTotal(parts, k - 1);
    }
  }

  lemma {:induction false} OffsetsAscend(parts: seq<Option<Info>>, j: nat, k: nat)
    requires j <= k <= |parts| && Offset(parts, k).Some?
    ensures Offset(parts, j).Some? && Offset(parts, j).value <= Offset(parts, k).value
    ensures j < k ==> Reached(parts, j)
  {
    if j < k {
      OffsetsAscend(parts, j, k - 1);
    }
  }

  /** A placed chapter is the image of one of its part's. */
  lemma {:induction false} PartMembers(list: seq<Chapter>, offset: nat, length: Option<nat>, last: bool, c: Chapter)
    ensures c in PartOnTimeline(list, offset, length, last) <==>
            exists i :: 0 <= i < |list| && Placed(list[i], offset, length, last, c)
  {
    if list != [] {
      var short := list[..|list| - 1];
      PartMembers(short, offset, length, last, c);
      if i :| 0 <= i < |short| && Placed(short[i], offset, length, last, c) {
        assert list[i] == short[i];
      }
      if i :| 0 <= i < |list| && Placed(list[i], offset, length, last, c) {
        assert i < |short| ==> short[i] == list[i];
      }
    }
  }

  lemma {:induction false} ConcatMembers(lists: seq<seq<Chapter>>, n: nat, c: Chapter)
    requires n <= |lists|
    ensures c in Concat(lists, n) <==> exists k :: 0 <= k < n && c in lists[k]
  {
    if n > 0 {
      ConcatMembers(lists, n - 1, c);
    }
  }

  lemma FoldedMembers(parts: seq<Option<Info>>, n: nat, c: Chapter)
    requires n <= |parts|
    ensures c in Folded(parts, n) <==> exists k :: 0 <= k < n && c in Part(parts, k)
  {
    var lists := Contributions(parts);
    ConcatMembers(lists, n, c);
    forall k | 0 <= k < n
      ensures c in Part(parts, k) <==> c in lists[k]
    {
    }
  }

  /** A chapter of a part that is not the last, and whose length lets another be placed
      after it, stays inside its part's own stretch. */
  lemma StaysInside(parts: seq<Option<Info>>, k: nat, c: Chapter)
    requires c in Part(parts, k) && k + 1 < |parts| && Offset(parts, k + 1).Some?
    ensures Offset(parts, k).value <= c.start < Offset(parts, k + 1).value
    ensures c.end.Some? ==> c.end.value <= Offset(parts, k + 1).value
  {
    var info, offset := parts[k].value, Offset(parts, k).value;
    PartMembers(info.List(), offset, info.Length(), false, c);
    var i :| 0 <= i < |info.List()| && Placed(info.List()[i], offset, info.Length(), false, c);
  }

  lemma StartsAfterOffset(parts: seq<Option<Info>>, k: nat, c: Chapter)
    requires c in Part(parts, k)
    ensures Reached(parts, k) && Offset(parts, k).value <= c.start
  {
    var info, offset, last := parts[k].value, Offset(parts, k).value, k + 1 == |parts|;
    PartMembers(info.List(), offset, info.Length(), last, c);
    var i :| 0 <= i < |info.List()| && Placed(info.List()[i], offset, info.Length(), last, c);
  }

  /** Chapters of different parts never share a timestamp. */
  lemma PartsApart(parts: seq<Option<Info>>, j: nat, c: Chapter, k: nat, d: Chapter)
    requires j < k && c in Part(parts, j) && d in Part(parts, k)
    ensures c.start < d.start
  {
    StartsAfterOffset(parts, k, d);
    OffsetsAscend(parts, j + 1, k);
    StaysInside(parts, j, c);
  }

  lemma {:induction false} FirstAtConcat(a: seq<Chapter>, b: seq<Chapter>, start: nat)
    ensures FirstAt(a + b, start) == if FirstAt(a, start).Some? then FirstAt(a, start) else FirstAt(b, start)
  {
    if b == [] {
      assert a + b == a;
    } else {
      var short := b[..|b| - 1];
      FirstAtConcat(a, short, start);
      assert a + b == (a + short) + [b[|b| - 1]];
      FirstAtAppend(a + short, b[|b| - 1], start);
    }
  }

  lemma {:induction false} ConcatGrows(lists: seq<seq<Chapter>>, k: nat, n: nat)
    requires k <= n <= |lists|
    ensures Concat(lists, k) <= Concat(lists, n)
    decreases n
  {
    if k < n {
      ConcatGrows(lists, k, n - 1);
    }
  }

  lemma FirstOfPrefix(a: seq<Chapter>, b: seq<Chapter>, start: nat)
    requires a <= b && FirstAt(a, start).Some?
    ensures FirstAt(b, start) == FirstAt(a, start)
  {
    assert b == a + b[|a|..];
    FirstAtConcat(a, b[|a|..], start);
  }

  lemma FirstHere(parts: seq<Option<Info>>, n: nat, start: nat)
    requires n < |parts| && FirstAt(Folded(parts, n), start).None?
    ensures FirstAt(Folded(parts, n + 1), start) == FirstAt(Part(parts, n), start)
  {
    FoldedStep(parts, n + 1);
    FirstAtConcat(Folded(parts, n), Part(parts, n), start);
  }

  /** At a timestamp of part k the fold's first chapter is part k's first. */
  lemma FirstOfItsPart(parts: seq<Option<Info>>, k: nat, start: nat)
    requires k < |parts| && FirstAt(Part(parts, k), start).Some?
    ensures FirstAt(Folded(parts, |parts|), start) == FirstAt(Part(parts, k), start)
  {
    NothingEarlier(parts, k, start);
    FirstHere(parts, k, start);
    ConcatGrows(Contributions(parts), k + 1, |parts|);
    FirstOfPrefix(Folded(parts, k + 1), Folded(parts, |parts|), start);
  }

  lemma NothingEarlier(parts: seq<Option<Info>>, k: nat, start: nat)
    requires k < |parts| && FirstAt(Part(parts, k), start).Some?
    ensures FirstAt(Folded(parts, k), start).None?
  {
    FirstAtIs(Folded(parts, k), start);
    FirstAtIs(Part(parts, k), start);
    if FirstAt(Folded(parts, k), start).Some? {
      var other := FirstAt(Folded(parts, k), start).value;
      FoldedMembers(parts, k, other);
      var j :| 0 <= j < k && other in Part(parts, j);
      PartsApart(parts, j, other, k, FirstAt(Part(parts, k), start).value);
    }
  }

  /** What the reader gets: starts strictly increase, and at every timestamp stands the
      first chapter that its part placed there, or none if no part placed one. */
  lemma GroupedExactly(parts: seq<Option<Info>>, start: nat)
    ensures var out := Dedup(Sorted(Folded(parts, |parts|)));
            && StrictlyOrdered(out)
            && (FirstAt(out, start).None? <==>
                  forall k :: 0 <= k < |parts| ==> FirstAt(Part(parts, k), start).None?)
            && (forall k :: 0 <= k < |parts| && FirstAt(Part(parts, k), start).Some? ==>
                  FirstAt(out, start) == FirstAt(Part(parts, k), start))
  {
    var all := Folded(parts, |parts|);
    SortedInOrder(all);
    DedupInOrder(Sorted(all));
    SortedIsStable(all, start);
    DedupKeepsFirst(Sorted(all), start);
    forall k | 0 <= k < |parts| && FirstAt(Part(parts, k), start).Some?
      ensures FirstAt(all, start) == FirstAt(Part(parts, k), start)
    {
      FirstOfItsPart(parts, k, start);
    }
    FromSomePart(parts, start);
  }

  lemma FromSomePart(parts: seq<Option<Info>>, start: nat)
    ensures FirstAt(Folded(parts, |parts|), start).Some? ==>
              exists k :: 0 <= k < |parts| && FirstAt(Part(parts, k), start).Some?
  {
    FirstAtIs(Folded(parts, |parts|), start);
    if FirstAt(Folded(parts, |parts|), start).Some? {
      var c := FirstAt(Folded(parts, |parts|), start).value;
      FoldedMembers(parts, |parts|, c);
      var k :| 0 <= k < |parts| && c in Part(parts, k);
      FirstAtIs(Part(parts, k), start);
      assert FirstAt(Part(parts, k), start).Some?;
    }
  }

  lemma PartStep(list: seq<Chapter>, offset: nat, length: Option<nat>, last: bool)
    requires list != []
    ensures var rest, here := PartOnTimeline(list[..|list| - 1], offset, length, last), OnTimeline(list[|list| - 1], offset, length, last);
            PartOnTimeline(list, offset, length, last) == if here.Some? then rest + [here.value] else rest
  {
  }

  lemma NothingYet(short: seq<Chapter>, x: Chapter, offset: nat, length: Option<nat>, last: bool, c: Chapter)
    requires (forall j :: 0 <= j < |short| ==> short[j].start != x.start) && Placed(x, offset, length, last, c)
    ensures FirstAt(PartOnTimeline(short, offset, length, last), c.start).None?
  {
    var rest := PartOnTimeline(short, offset, length, last);
    FirstAtIs(rest, c.start);
    if FirstAt(rest, c.start).Some? {
      PartMembers(short, offset, length, last, FirstAt(rest, c.start).value);
    }
  }

  /** The first chapter of a part at a timestamp is the part's first chapter with that start. */
  lemma {:induction false} FirstPlaced(list: seq<Chapter>, offset: nat, length: Option<nat>, last: bool, i: nat, c: Chapter)
    requires FirstOfItsStart(list, i) && Placed(list[i], offset, length, last, c)
    ensures FirstAt(PartOnTimeline(list, offset, length, last), c.start) == Some(c)
  {
    var short, here := list[..|list| - 1], OnTimeline(list[|list| - 1], offset, length, last);
    var rest := PartOnTimeline(short, offset, length, last);
    PartStep(list, offset, length, last);
    if i < |list| - 1 {
      FirstPlaced(short, offset, length, last, i, c);
    } else {
      NothingYet(short, list[i], offset, length, last, c);
      PlacedIff(list[i], offset, length, last, c);
    }
    if here.Some? {
      FirstAtAppend(rest, here.value, c.start);
    }
  }

  predicate FirstOfItsStart(list: seq<Chapter>, i: nat) {
    i < |list| && forall j :: 0 <= j < i ==> list[j].start != list[i].start
  }

  lemma {:induction false} SomeFirst(list: seq<Chapter>, i: nat) returns (r: nat)
    requires i < |list|
    ensures FirstOfItsStart(list, r) && list[r].start == list[i].start
    decreases i
  {
    if j :| 0 <= j < i && list[j].start == list[i].start {
      r := SomeFirst(list, j);
    } else {
      r := i;
    }
  }

  lemma LeadsPart(parts: seq<Option<Info>>, k: nat, i: nat, c: Chapter)
    requires LeadsAt(parts, k, i, c)
    ensures FirstAt(Part(parts, k), c.start) == Some(c)
  {
    OffsetIsTotal(parts, k);
    var info := parts[k].value;
    FirstPlaced(info.List(), Total(parts, k).value, info.Length(), k + 1 == |parts|, i, c);
  }

  lemma FirstComesFrom(list: seq<Chapter>, offset: nat, length: Option<nat>, last: bool, c: Chapter) returns (r: nat)
    requires FirstAt(PartOnTimeline(list, offset, length, last), c.start) == Some(c)
    ensures FirstOfItsStart(list, r) && Placed(list[r], offset, length, last, c)
  {
    var i := SomePlaced(list, offset, length, last, c);
    r := SomeFirst(list, i);
    var d := PlacedAlike(list[i], list[r], offset, length, last, c);
    FirstPlaced(list, offset, length, last, r, d);
  }

  lemma SomePlaced(list: seq<Chapter>, offset: nat, length: Option<nat>, last: bool, c: Chapter) returns (i: nat)
    requires FirstAt(PartOnTimeline(list, offset, length, last), c.start) == Some(c)
    ensures i < |list| && Placed(list[i], offset, length, last, c)
  {
    FirstAtIs(PartOnTimeline(list, offset, length, last), c.start);
    PartMembers(list, offset, length, last, c);
    i :| 0 <= i < |list| && Placed(list[i], offset, length, last, c);
  }

  lemma PlacedAlike(a: Chapter, b: Chapter, offset: nat, length: Option<nat>, last: bool, c: Chapter) returns (d: Chapter)
    requires Placed(a, offset, length, last, c) && a.start == b.start
    ensures Placed(b, offset, length, last, d) && d.start == c.start
  {
    d := OnTimeline(b, offset, length, last).value;
    PlacedIff(b, offset, length, last, d);
  }

  lemma PartLeads(parts: seq<Option<Info>>, k: nat, c: Chapter)
    requires k < |parts| && FirstAt(Part(parts, k), c.start) == Some(c)
    ensures Leads(parts, c)
  {
    OffsetIsTotal(parts, k);
    var info := parts[k].value;
    var r := FirstComesFrom(info.List(), Total(parts, k).value, info.Length(), k + 1 == |parts|, c);
    assert LeadsAt(parts, k, r, c);
  }

  lemma OnlyOneAt(list: seq<Chapter>, c: Chapter)
    requires StrictlyOrdered(list)
    ensures c in list <==> FirstAt(list, c.start) == Some(c)
  {
    FirstAtIs(list, c.start);
  }

  lemma GroupedFrom(parts: seq<Option<Info>>, c: Chapter)
    ensures c in Dedup(Sorted(Folded(parts, |parts|))) <==> Leads(parts, c)
  {
    GroupedExactly(parts, c.start);
    OnlyOneAt(Dedup(Sorted(Folded(parts, |parts|))), c);
    if k, i :| LeadsAt(parts, k, i, c) {
      LeadsPart(parts, k, i, c);
    }
    if k :| 0 <= k < |parts| && FirstAt(Part(parts, k), c.start) == Some(c) {
      PartLeads(parts, k, c);
    }
  }

  /** Starts strictly increase, and the timeline holds, of every part, exactly the first
      chapter at each start. */
  ghost predicate FromTheParts(parts: seq<Option<Info>>, out: seq<Chapter>) {
    StrictlyOrdered(out) && forall c :: c in out <==> Leads(parts, c)
  }

  lemma GroupedFromParts(parts: seq<Option<Info>>)
    ensures FromTheParts(parts, Dedup(Sorted(Folded(parts, |parts|))))
  {
    forall c: Chapter
      ensures c in Dedup(Sorted(Folded(parts, |parts|))) <==> Leads(parts, c)
    {
      GroupedFrom(parts, c);
    }
    GroupedExactly(parts, 0);
  }
}
