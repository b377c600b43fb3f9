// What a series name is read as, from the words of its stem once glued markers are freed
// and without the two later passes: the first pair or marker, else a welded one.

module SeriesNames {
  import opened Wrappers
  import opened Markers
  import opened EpisodeNumbers
  import opened Repairs

  /** The first words that are a marker or the two halves of one. */
  function Reading(ws: seq<string>): Option<Marker> {
    if ws == [] then None
    else if Pair(ws, 0) then Some(Spelt(ws[0], ws[1]))
    else if Accepts(ws[0]).Some? then Accepts(ws[0])
    else Reading(ws[1..])
  }

  function WordsOf(stem: string): seq<string> {
    Words(SplitGlued(Cleaned(stem)))
  }

  predicate Nothing(ws: seq<string>, n: nat) {
    forall k :: 0 <= k < n <= |ws| ==> !Pair(ws, k) && Accepts(ws[k]).None?
  }

  lemma {:induction false} ReadingSkips(ws: seq<string>, n: nat)
    requires n <= |ws| && Nothing(ws, n)
    ensures Reading(ws) == Reading(ws[n..])
  {
    if n > 0 {
      forall k | 0 <= k < n - 1
        ensures !Pair(ws[1..], k) && Accepts(ws[1..][k]).None?
      {
        assert !Pair(ws, k + 1);
      }
      assert !Pair(ws, 0);
      ReadingSkips(ws[1..], n - 1);
      assert ws[1..][n - 1..] == ws[n..];
    } else {
      assert ws[0..] == ws;
    }
  }

  lemma {:induction false} NothingRead(ws: seq<string>)
    requires Reading(ws) == None
    ensures Nothing(ws, |ws|)
  {
    if ws != [] {
      NothingRead(ws[1..]);
      forall k | 0 <= k < |ws|
        ensures !Pair(ws, k) && Accepts(ws[k]).None?
      {
        assert k > 0 ==> Pair(ws, k) == Pair(ws[1..], k - 1) && ws[k] == ws[1..][k - 1];
      }
    }
  }

  // ------------------------------------------------------------------ the join pass

  lemma SeasonIsNoMarker(t: string)
    requires IsSeasonToken(t)
    ensures Accepts(t).None?
  {
    if Accepts(t).Some? {
      var a, c, z := Anchor(t);
    }
  }

  /** Joining lets the parser read the first pair, and hides no marker. */
  lemma {:induction false} JoinedReads(ws: seq<string>)
    ensures FirstMarker(Joined(ws)) == Reading(ws)
    decreases |ws|
  {
    if ws != [] {
      var all := Joined(ws);
      if Pair(ws, 0) {
        JoinedParses(ws[0], ws[1]);
      } else {
        JoinedReads(ws[1..]);
        assert all[1..] == Joined(ws[1..]);
      }
    }
  }

  // ------------------------------------------------------------------ the last pass

  predicate Welded(s: string) {
    |s| >= 7 && MarkerAtEnd(s) && IsAlphanumeric(s[|s| - 7])
  }

  /** The words with a marker welded to the last one cut off. */
  function Parted(ts: seq<string>): seq<string> {
    if ts == [] || !Welded(ts[|ts| - 1]) then ts
    else
      var last := ts[|ts| - 1];
      ts[..|ts| - 1] + [last[..|last| - 6], last[|last| - 6..]]
  }

  lemma WeldedBehind(x: string, y: string)
    ensures Welded(x + " " + y) <==> Welded(y)
  {
    var t := x + " " + y;
    if |y| < 7 && |t| >= 7 {
      assert t[|t| - |y| - 1] == ' ';
      assert Welded(t) ==> |y| == 6;
    } else if |y| >= 7 {
      assert t[|t| - 7] == y[|y| - 7] && t[|t| - 6..] == y[|y| - 6..];
    }
  }

  lemma SplitBehind(x: string, y: string)
    ensures SplitTrailing(x + " " + y) == x + " " + SplitTrailing(y)
  {
    WeldedBehind(x, y);
    var t := x + " " + y;
    if Welded(y) {
      assert t[..|t| - 6] == x + " " + y[..|y| - 6] && t[|t| - 6..] == y[|y| - 6..];
    }
  }

  lemma PartedIs(ts: seq<string>, front: seq<string>, w: string)
    requires ts == front + [w]
    ensures Parted(ts) == front + if Welded(w) then [w[..|w| - 6], w[|w| - 6..]] else [w]
  {
  }

  lemma LastOf(ts: seq<string>)
    requires ts != []
    ensures ts == ts[..|ts| - 1] + [ts[|ts| - 1]]
  {
  }

  lemma PartedStep(t: string, rest: seq<string>)
    requires rest != []
    ensures Parted([t] + rest) == [t] + Parted(rest)
  {
    var front, w := rest[..|rest| - 1], rest[|rest| - 1];
    LastOf(rest);
    PartedIs(rest, front, w);
    PartedIs([t] + rest, [t] + front, w);
  }

  lemma SpacedStep(t: string, rest: seq<string>)
    requires rest != []
    ensures Spaced([t] + rest) == t + " " + Spaced(rest)
  {
    assert ([t] + rest)[1..] == rest;
  }

  lemma SplitsOne(t: string)
    ensures SplitTrailing(t) == Spaced(Parted([t]))
  {
    if Welded(t) {
      SpacedStep(t[..|t| - 6], [t[|t| - 6..]]);
      PartedIs([t], [], t);
    }
  }

  lemma {:induction false} SplitsTheLast(ts: seq<string>)
    ensures SplitTrailing(Spaced(ts)) == Spaced(Parted(ts))
  {
    if |ts| == 1 {
      SplitsOne(ts[0]);
      assert ts == [ts[0]];
    } else if |ts| > 1 {
      var rest := ts[1..];
      assert ts == [ts[0]] + rest;
      SplitsTheLast(rest);
      SpacedStep(ts[0], rest);
      SplitBehind(ts[0], Spaced(rest));
      PartedStep(ts[0], rest);
      SpacedStep(ts[0], Parted(rest));
    }
  }

  lemma PartedAreWords(ts: seq<string>)
    requires AllWords(ts)
    ensures AllWords(Parted(ts))
  {
    if ts != [] && Welded(ts[|ts| - 1]) {
      var last := ts[|ts| - 1];
      assert IsWord(last);
    }
  }

  lemma TokensAre(stem: string)
    ensures Tokens(stem) == Parted(Joined(WordsOf(stem)))
  {
    var ws := WordsOf(stem);
    WordsAreWords(SplitGlued(Cleaned(stem)));
    JoinedAreWords(ws);
    SplitsTheLast(Joined(ws));
    PartedAreWords(Joined(ws));
    WordsOfSpaced(Parted(Joined(ws)));
  }

  lemma {:induction false} FirstMarkerOver(xs: seq<string>, ys: seq<string>)
    ensures FirstMarker(xs + ys) == if FirstMarker(xs).Some? then FirstMarker(xs) else FirstMarker(ys)
  {
    if xs == [] {
      assert xs + ys == ys;
    } else {
      assert (xs + ys)[1..] == xs[1..] + ys;
      FirstMarkerOver(xs[1..], ys);
    }
  }

  lemma CharAt(a: string, c: string, z: string, k: nat)
    requires k < |a + c + z|
    ensures (a + c + z)[k] == if k < |a| then a[k] else if k < |a| + |c| then c[k - |a|] else z[k - |a| - |c|]
  {
  }

  /** The marker's S is no part of what says an accepted word's numbers. */
  lemma WeldIsOutside(w: string, a: string, c: string, z: string)
    requires Welded(w) && w == a + c + z && Junk(a) && Steady(c)
    ensures |z| >= 6 && z[|z| - 6..] == w[|w| - 6..] && w[..|w| - 6] == a + c + z[..|z| - 6]
    ensures IsS(z[|z| - 6..][0])
  {
    var m := |w| - 6;
    assert w[m..][0] == w[m];
    CharAt(a, c, z, m - 1);
    CharAt(a, c, z, m);
    assert m >= |a| + |c|;
  }

  lemma WeldKeepsMarker(w: string)
    requires Welded(w) && Accepts(w).Some?
    ensures Accepts(w[..|w| - 6]) == Accepts(w)
  {
    var a, c, z := Anchor(w);
    WeldIsOutside(w, a, c, z);
    CutInTwo(z, |z| - 6);
    AnchorKeeps(w, a, c, z, z[..|z| - 6], z[|z| - 6..]);
  }

  lemma AnchorKeeps(w: string, a: string, c: string, z: string, x: string, y: string)
    requires Anchored(w, a, c, z) && z == x + y && y != [] && IsS(y[0])
    ensures Accepts(a + c + x) == Accepts(w)
  {
    AnchorReads(w, a, c, z, a, x, y);
  }

  /** What a word with a marker welded to it reads as: what stands before the marker, if
      that alone is one, else the marker's own digits. */
  function WeldedReading(w: string): Option<Marker>
    requires Welded(w)
  {
    var before := w[..|w| - 6];
    var season, episode := w[|w| - 5..|w| - 3], w[|w| - 2..];
    assert season == w[|w| - 6..][1..3] && episode == w[|w| - 6..][4..6];
    if Accepts(before).Some? then Accepts(before) else Some(Marker(Value(season), Value(episode), None))
  }

  lemma WeldedPair(w: string)
    requires Welded(w)
    ensures FirstMarker([w[..|w| - 6], w[|w| - 6..]]) ==
            if Accepts(w).Some? then Accepts(w) else WeldedReading(w)
  {
    TwoMarkers(w[..|w| - 6], w[|w| - 6..]);
    TrailingParses(w);
    if Accepts(w).Some? {
      WeldKeepsMarker(w);
    }
  }

  lemma PartedReads(ts: seq<string>)
    ensures FirstMarker(Parted(ts)) ==
            if FirstMarker(ts).Some? then FirstMarker(ts)
            else if ts != [] && Welded(ts[|ts| - 1]) then WeldedReading(ts[|ts| - 1])
            else None
  {
    if ts != [] && Welded(ts[|ts| - 1]) {
      LastOf(ts);
      PartedReadsAt(ts, ts[..|ts| - 1], ts[|ts| - 1]);
    }
  }

  lemma PartedReadsAt(ts: seq<string>, front: seq<string>, w: string)
    requires ts == front + [w] && Welded(w)
    ensures FirstMarker(Parted(ts)) == if FirstMarker(ts).Some? then FirstMarker(ts) else WeldedReading(w)
  {
    var pair := [w[..|w| - 6], w[|w| - 6..]];
    PartedIs(ts, front, w);
    WeldedPair(w);
    LastReplaced(front, w, pair, WeldedReading(w));
  }

  lemma LastReplaced(front: seq<string>, w: string, pair: seq<string>, r: Option<Marker>)
    requires FirstMarker(pair) == if Accepts(w).Some? then Accepts(w) else r
    ensures FirstMarker(front + pair) ==
            if FirstMarker(front + [w]).Some? then FirstMarker(front + [w]) else r
  {
    FirstMarkerOver(front, [w]);
    FirstMarkerOver(front, pair);
    OneMarker(w);
  }

  lemma OneMarker(a: string)
    ensures FirstMarker([a]) == Accepts(a)
  {
  }

  lemma TwoMarkers(a: string, b: string)
    ensures FirstMarker([a, b]) == if Accepts(a).Some? then Accepts(a) else Accepts(b)
  {
    assert [a, b][1..] == [b];
    OneMarker(b);
  }

  // ------------------------------------------------------------- what a name is read as

  function Guessed(m: Marker): Option<Guess> {
    Some(Guess(Some(m.season), m.episode, m.end))
  }

  /** What the parser makes of any stem, said of its words alone: the first pair or marker,
      else a marker welded to the last word, else compact scene numbering. */
  lemma SeriesNumbersExactly(stem: string)
    ensures var ws := WordsOf(stem);
            SeriesNumbers(stem) ==
            if Reading(ws).Some? then Guessed(Reading(ws).value)
            else if ws != [] && Welded(ws[|ws| - 1]) then Guessed(WeldedReading(ws[|ws| - 1]).value)
            else if SceneName(stem) && SceneCompact(ws, 1).Some? then Guessed(SceneCompact(ws, 1).value)
            else None
  {
    var ws := WordsOf(stem);
    TokensAre(stem);
    JoinedReads(ws);
    PartedReads(Joined(ws));
    if Reading(ws).None? {
      NothingRead(ws);
      JoinedUnchanged(ws);
    }
  }

  lemma ReadingAt(ws: seq<string>, i: nat)
    requires i < |ws| && Nothing(ws, i)
    ensures Pair(ws, i) ==> Reading(ws) == Some(Spelt(ws[i], ws[i + 1]))
    ensures Accepts(ws[i]).Some? ==> Reading(ws) == Accepts(ws[i])
  {
    ReadingSkips(ws, i);
    assert ws[i..][0] == ws[i];
    if Pair(ws, i) {
      SeasonIsNoMarker(ws[i]);
      assert ws[i..][1] == ws[i + 1];
    } else {
      assert !Pair(ws[i..], 0);
    }
  }

  /** A season and an episode as two words are what the parser reads, whatever follows,
      when nothing before them reads as numbers. */
  lemma JoinedPairIsRead(stem: string, i: nat)
    requires Pair(WordsOf(stem), i) && Nothing(WordsOf(stem), i)
    ensures var ws := WordsOf(stem);
            SeriesNumbers(stem) == Guessed(Spelt(ws[i], ws[i + 1]))
  {
    ReadingAt(WordsOf(stem), i);
    SeriesNumbersExactly(stem);
  }

  lemma GluedReading(s: string, i: nat, before: seq<string>)
    requires Glues(s, i) && before == Words(SplitGlued(s)[..i]) && Nothing(before, |before|)
    ensures Reading(Words(SplitGlued(s))) == Some(Kept(Accepts(UntilSpace(s[i + 1..])).value, GluesOn(s, i)))
  {
    var n := GluedMarkerIsFreed(s, i);
    FirstAfter(before, Words(SplitGlued(s)[i + 1..]), n);
  }

  lemma FirstAfter(before: seq<string>, after: seq<string>, n: nat)
    requires Nothing(before, |before|) && n < |after| && Accepts(after[n]).Some?
    requires forall k :: 0 <= k < n ==> Junk(after[k])
    ensures Reading(before + after) == Accepts(after[n])
  {
    var ws := before + after;
    var i := |before| + n;
    NothingAround(before, after, n, ws, i);
    ReadingMarker(ws, i, after[n]);
  }

  lemma ReadingMarker(ws: seq<string>, i: nat, w: string)
    requires i < |ws| && Nothing(ws, i) && ws[i] == w && Accepts(w).Some?
    ensures Reading(ws) == Accepts(w)
  {
    ReadingAt(ws, i);
  }

  /** A marker glued to a name by a dash is what the parser reads, when nothing before the
      dash reads as numbers: all its numbers, but for an end whose own dash glues too. */
  lemma GluedMarkerIsRead(stem: string, i: nat, before: seq<string>)
    requires Glues(Cleaned(stem), i)
    requires before == Words(SplitGlued(Cleaned(stem))[..i]) && Nothing(before, |before|)
    ensures var m := Accepts(UntilSpace(Cleaned(stem)[i + 1..])).value;
            SeriesNumbers(stem) == Guessed(Kept(m, GluesOn(Cleaned(stem), i)))
  {
    GluedReading(Cleaned(stem), i, before);
    SeriesNumbersExactly(stem);
  }

  lemma NothingAround(before: seq<string>, after: seq<string>, n: nat, ws: seq<string>, i: nat)
    requires ws == before + after && i == |before| + n
    requires Nothing(before, |before|) && n < |after| && Accepts(after[n]).Some?
    requires forall k :: 0 <= k < n ==> Junk(after[k])
    ensures Nothing(ws, i) && ws[i] == after[n]
  {
    MarkerIsNoEpisode(after[n]);
    forall k | 0 <= k < i
      ensures !Pair(ws, k) && Accepts(ws[k]).None?
    {
      if k < |before| {
        assert ws[k] == before[k];
        if k + 1 < |before| {
          assert ws[k + 1] == before[k + 1] && !Pair(before, k);
        } else {
          assert ws[k + 1] == after[0];
          if n > 0 {
            JunkIsNothing(after[0]);
          }
        }
      } else {
        assert ws[k] == after[k - |before|];
        JunkIsNothing(ws[k]);
      }
    }
  }

  lemma MarkerIsNoEpisode(t: string)
    requires Accepts(t).Some?
    ensures !IsEpisodeToken(t)
  {
    var a, c, z := Anchor(t);
    CharAt(a, c, z, 0);
  }

  lemma NothingIsRead(ws: seq<string>)
    requires Nothing(ws, |ws|)
    ensures Reading(ws) == None
  {
    ReadingSkips(ws, |ws|);
  }

  lemma WeldedReadingIs(w: string)
    requires Welded(w) && Accepts(w[..|w| - 6]).None?
    ensures AllDigits(w[|w| - 5..|w| - 3]) && AllDigits(w[|w| - 2..])
    ensures WeldedReading(w) == Some(Marker(Value(w[|w| - 5..|w| - 3]), Value(w[|w| - 2..]), None))
  {
    TrailingParses(w);
  }

  /** A marker welded to the end of a name is what the parser reads, when nothing else in
      the name reads as numbers, not even the rest of its own word. */
  lemma WeldedMarkerIsRead(stem: string, ws: seq<string>, w: string)
    requires ws == WordsOf(stem) && ws != [] && w == ws[|ws| - 1]
    requires Nothing(ws, |ws|) && Welded(w) && Accepts(w[..|w| - 6]).None?
    ensures AllDigits(w[|w| - 5..|w| - 3]) && AllDigits(w[|w| - 2..])
    ensures SeriesNumbers(stem) == Guessed(Marker(Value(w[|w| - 5..|w| - 3]), Value(w[|w| - 2..]), None))
  {
    NothingIsRead(ws);
    WeldedReadingIs(w);
    SeriesNumbersExactly(stem);
  }

  // -------------------------------------------------------- separators, scene numbering

  lemma TokensOf(stem: string, cleaned: string)
    requires Cleaned(stem) == cleaned
    ensures Tokens(stem) == Words(SplitTrailing(Spaced(Joined(Words(SplitGlued(cleaned))))))
  {
  }

  lemma CleanedAlike(a: string, separator: char, b: string)
    requires separator == '.' || separator == '_' || separator == ' '
    ensures Cleaned(a + [separator] + b) == Cleaned(a) + [' '] + Cleaned(b)
  {
  }

  /** A dot or an underscore in a name counts as a space. */
  lemma SeparatorsAreSpaces(a: string, separator: char, b: string)
    requires separator == '.' || separator == '_'
    ensures Tokens(a + [separator] + b) == Tokens(a + [' '] + b)
  {
    var cleaned := Cleaned(a) + [' '] + Cleaned(b);
    CleanedAlike(a, separator, b);
    CleanedAlike(a, ' ', b);
    TokensOf(a + [separator] + b, cleaned);
    TokensOf(a + [' '] + b, cleaned);
  }

  predicate Compact(t: string) {
    |t| == 3 && '1' <= t[0] <= '9' && IsDigit(t[1]) && IsDigit(t[2])
  }

  lemma {:induction false} CompactFirst(ws: seq<string>, k: nat, i: nat)
    requires k <= i && i + 1 < |ws| && Compact(ws[i]) && forall j :: k <= j < i ==> !Compact(ws[j])
    ensures AllDigits(ws[i]) && SceneCompact(ws, k) == Some(Marker(Value(ws[i][..1]), Value(ws[i][1..]), None))
    decreases i - k
  {
    if k < i {
      assert |ws[k]| == 3 && AllDigits(ws[k]) ==> IsDigit(ws[k][0]) && IsDigit(ws[k][1]) && IsDigit(ws[k][2]);
      CompactFirst(ws, k + 1, i);
    }
  }

  lemma {:induction false} SegmentAfterDot(a: string, b: string)
    requires '.' !in b
    ensures LastSegment(a + ['.'] + b) == b
  {
    var t := a + ['.'] + b;
    if b != [] {
      SegmentAfterDot(a, b[..|b| - 1]);
      assert t[..|t| - 1] == a + ['.'] + b[..|b| - 1];
    }
  }

  predicate Unspaced(stem: string) {
    forall k :: 0 <= k < |stem| ==> !IsSpace(stem[k]) && stem[k] !in "[]()"
  }

  lemma SceneNamed(a: string, b: string)
    requires Unspaced(a + ['.'] + b) && '.' !in b && '-' in b
    ensures SceneName(a + ['.'] + b)
  {
    SegmentAfterDot(a, b);
    assert (a + ['.'] + b)[|a|] == '.';
  }

  lemma SceneOnly(stem: string, ws: seq<string>)
    requires ws == WordsOf(stem) && Nothing(ws, |ws|) && ws != [] && !Welded(ws[|ws| - 1]) && SceneName(stem)
    ensures SeriesNumbers(stem) == if SceneCompact(ws, 1).Some? then Guessed(SceneCompact(ws, 1).value) else None
  {
    SeriesNumbersExactly(stem);
    NothingIsRead(ws);
  }

  function SpeltCompact(t: string): Guess
    requires Compact(t)
  {
    Guess(Some(t[0] as int - '0' as int), 10 * (t[1] as int - '0' as int) + (t[2] as int - '0' as int), None)
  }

  lemma CompactGuess(t: string)
    requires Compact(t)
    ensures AllDigits(t) && Guessed(Marker(Value(t[..1]), Value(t[1..]), None)) == Some(SpeltCompact(t))
  {
    ThreeDigits(t);
  }

  /** Compact scene numbering: in a dotted name without spaces or brackets whose last part
      holds a dash, when nothing else reads as numbers, the first three digits inside it that
      do not begin with zero are a season of one and an episode of two. */
  lemma SceneIsRead(stem: string, a: string, b: string, ws: seq<string>, i: nat)
    requires stem == a + ['.'] + b && Unspaced(stem) && '.' !in b && '-' in b
    requires ws == WordsOf(stem) && Nothing(ws, |ws|) && 1 <= i && i + 1 < |ws| && !Welded(ws[|ws| - 1])
    requires Compact(ws[i]) && forall j :: 1 <= j < i ==> !Compact(ws[j])
    ensures SeriesNumbers(stem) == Some(SpeltCompact(ws[i]))
  {
    SceneNamed(a, b);
    SceneOnly(stem, ws);
    CompactFirst(ws, 1, i);
    CompactGuess(ws[i]);
  }

  lemma ThreeDigits(t: string)
    requires Compact(t)
    ensures AllDigits(t[..1]) && Value(t[..1]) == t[0] as int - '0' as int
    ensures AllDigits(t[1..]) && Value(t[1..]) == 10 * (t[1] as int - '0' as int) + (t[2] as int - '0' as int)
  {
    ValueJoins([t[1]], [t[2]]);
    assert t[..1] == [t[0]] && t[1..] == [t[1]] + [t[2]];
    assert PowerOfTen(1) == 10;
  }
}
