// Season and episode markers in file names: the passes that repair a marker the
// tokenizer would miss, and the parser they repair it for. Names are ASCII here.

module Markers {
  import opened Wrappers

  const U32_MAX: nat := 0xFFFF_FFFF

  // ------------------------------------------------------------------ characters

  predicate IsSpace(c: char) {
    '\t' <= c <= '\r' || c == ' '
  }

  predicate IsDigit(c: char) {
    '0' <= c <= '9'
  }

  predicate IsAlphanumeric(c: char) {
    IsDigit(c) || 'a' <= c <= 'z' || 'A' <= c <= 'Z'
  }

  predicate IsS(c: char) {
    c == 's' || c == 'S'
  }

  predicate IsE(c: char) {
    c == 'e' || c == 'E'
  }

  predicate AllDigits(s: string) {
    forall k :: 0 <= k < |s| ==> IsDigit(s[k])
  }

  function Value(s: string): nat
    requires AllDigits(s)
  {
    if s == [] then 0 else 10 * Value(s[..|s| - 1]) + (s[|s| - 1] as int - '0' as int)
  }

  /** `parse::<u32>()` of a run of digits. */
  function ParseDigits(s: string): Option<nat>
    requires AllDigits(s)
  {
    if s == [] || Value(s) > U32_MAX then None else Some(Value(s))
  }

  function DigitCount(s: string): (r: nat)
    ensures r <= |s| && (r < |s| ==> !IsDigit(s[r]))
    ensures forall k :: 0 <= k < r ==> IsDigit(s[k])
  {
    if s == [] || !IsDigit(s[0]) then 0
    else
      assert forall k :: 0 < k < |s| ==> s[k] == s[1..][k - 1];
      1 + DigitCount(s[1..])
  }

  function TakeDigits(s: string): (r: string)
    ensures |r| <= |s| && AllDigits(r)
  {
    s[..DigitCount(s)]
  }

  function PowerOfTen(n: nat): nat {
    if n == 0 then 1 else 10 * PowerOfTen(n - 1)
  }

  lemma {:induction false} ValueBounded(s: string)
    requires AllDigits(s)
    ensures Value(s) < PowerOfTen(|s|)
  {
    if s != [] {
      ValueBounded(s[..|s| - 1]);
    }
  }

  /** A numeral means what it says: each digit ten times the next. */
  lemma {:induction false} ValueJoins(a: string, b: string)
    requires AllDigits(a) && AllDigits(b)
    ensures AllDigits(a + b) && Value(a + b) == Value(a) * PowerOfTen(|b|) + Value(b)
    ensures forall c: char :: IsDigit(c) ==> AllDigits([c]) && Value([c]) == c as int - '0' as int
  {
    if b == [] {
      assert a + b == a;
    } else {
      var short := b[..|b| - 1];
      ValueJoins(a, short);
      assert (a + b)[..|a + b| - 1] == a + short;
      Tenfold(Value(a), PowerOfTen(|short|));
    }
  }

  lemma Tenfold(v: nat, p: nat)
    ensures 10 * (v * p) == v * (10 * p)
  {
  }

  lemma ShortValue(s: string)
    requires AllDigits(s) && |s| <= 3
    ensures Value(s) < 1000
  {
    ValueBounded(s);
    assert PowerOfTen(0) == 1 && PowerOfTen(1) == 10 && PowerOfTen(2) == 100 && PowerOfTen(3) == 1000;
  }

  lemma {:induction false} DigitsCounted(d: string, rest: string)
    requires AllDigits(d) && (rest == [] || !IsDigit(rest[0]))
    ensures DigitCount(d + rest) == |d|
  {
    if d == [] {
      assert d + rest == rest;
    } else {
      assert (d + rest)[1..] == d[1..] + rest;
      DigitsCounted(d[1..], rest);
    }
  }

  lemma DigitsTaken(d: string, rest: string)
    requires AllDigits(d) && (rest == [] || !IsDigit(rest[0]))
    ensures TakeDigits(d + rest) == d
  {
    DigitsCounted(d, rest);
    assert (d + rest)[..|d|] == d;
  }

  // ------------------------------------------------------------------- the parser

  /** What a marker says: `end` when the file spans a range of episodes. */
  datatype Marker = Marker(season: nat, episode: nat, end: Option<nat>)

  function TrimLeft(s: string): string {
    if s != [] && !IsAlphanumeric(s[0]) then TrimLeft(s[1..]) else s
  }

  function TrimRight(s: string): string {
    if s != [] && !IsAlphanumeric(s[|s| - 1]) then TrimRight(s[..|s| - 1]) else s
  }

  function FindE(s: string): (r: nat)
    ensures r <= |s|
    ensures r < |s| ==> IsE(s[r])
  {
    if s == [] || IsE(s[0]) then 0 else 1 + FindE(s[1..])
  }

  function StripDash(s: string): string {
    if s != [] && s[0] == '-' then s[1..] else s
  }

  function StripE(s: string): string {
    if s != [] && IsE(s[0]) then s[1..] else s
  }

  /** The end of a range; a tail that does not increase is no range. */
  function RangeEnd(tail: string, first: nat): (r: Option<nat>)
    ensures r.Some? ==> first < r.value <= U32_MAX
  {
    var end := ParseDigits(TakeDigits(StripE(StripDash(tail))));
    if end.Some? && end.value > first then end else None
  }

  /** What stands before and after the marker's E. */
  function ParseParts(s: string, e: string): (r: Option<Marker>)
    ensures r.Some? && r.value.end.Some? ==> r.value.episode < r.value.end.value
  {
    var digits := TakeDigits(e);
    if s == [] || digits == [] || !AllDigits(s) || ParseDigits(digits).None? || ParseDigits(s).None? then None
    else
      var first := ParseDigits(digits).value;
      Some(Marker(ParseDigits(s).value, first, RangeEnd(e[|digits|..], first)))
  }

  function ParseSxxEyy(tok: string): (r: Option<Marker>)
    ensures r.Some? && r.value.end.Some? ==> r.value.episode < r.value.end.value
  {
    ParseTrimmed(TrimRight(TrimLeft(tok)))
  }

  function ParseTrimmed(t: string): (r: Option<Marker>)
    ensures r.Some? && r.value.end.Some? ==> r.value.episode < r.value.end.value
  {
    if t == [] || !IsS(t[0]) then None
    else
      var rest := t[1..];
      var p := FindE(rest);
      if p == |rest| then None
      else
        ParseParts(rest[..p], rest[p + 1..])
  }

  // -------------------------------------------------------------- the two halves

  predicate Digits(s: string, most: nat) {
    1 <= |s| <= most && AllDigits(s)
  }

  /** `S5` or `S05`, and nothing else. */
  predicate IsSeasonToken(t: string) {
    t != [] && IsS(t[0]) && Digits(t[1..], 2)
  }

  /** The first dash, or the end. */
  function FindDash(s: string): (r: nat)
    ensures r <= |s|
    ensures r < |s| ==> s[r] == '-'
    ensures forall k :: 0 <= k < r ==> s[k] != '-'
  {
    if s == [] || s[0] == '-' then 0
    else
      assert forall k :: 0 < k < |s| ==> s[k] == s[1..][k - 1];
      1 + FindDash(s[1..])
  }

  /** `E05`, `E05-06` or `E05-E06`. */
  predicate IsEpisodeToken(t: string) {
    t != [] && IsE(t[0]) &&
    var rest := t[1..];
    var d := FindDash(rest);
    if d < |rest| then Digits(rest[..d], 3) && Digits(StripE(rest[d + 1..]), 3)
    else Digits(rest, 3)
  }

  /** The numbers the two halves spell. */
  function Spelt(a: string, b: string): Marker
    requires IsSeasonToken(a) && IsEpisodeToken(b)
  {
    var rest := b[1..];
    var d := FindDash(rest);
    var first := Value(rest[..d]);
    var last := if d < |rest| then Value(StripE(rest[d + 1..])) else 0;
    Marker(Value(a[1..]), first, if last > first then Some(last) else None)
  }

  lemma {:induction false} FindEAfterDigits(d: string, rest: string)
    requires AllDigits(d) && rest != [] && IsE(rest[0])
    ensures FindE(d + rest) == |d|
  {
    if d == [] {
      assert d + rest == rest;
    } else {
      assert (d + rest)[1..] == d[1..] + rest;
      FindEAfterDigits(d[1..], rest);
    }
  }

  lemma NothingTrimmed(t: string)
    requires t != [] && IsAlphanumeric(t[0]) && IsAlphanumeric(t[|t| - 1])
    ensures TrimRight(TrimLeft(t)) == t
  {
  }

  lemma EpisodeEndsInDigit(b: string)
    requires IsEpisodeToken(b)
    ensures |b| >= 2 && IsDigit(b[|b| - 1])
  {
    var rest := b[1..];
    var d := FindDash(rest);
    if d < |rest| {
      var tail := StripE(rest[d + 1..]);
      assert tail[|tail| - 1] == b[|b| - 1];
    } else {
      assert rest[|rest| - 1] == b[|b| - 1];
    }
  }

  lemma RestParses(b: string)
    requires IsEpisodeToken(b)
    ensures var rest := b[1..];
            var first := rest[..FindDash(rest)];
            && Digits(first, 3) && TakeDigits(rest) == first && rest[|first|..] == rest[FindDash(rest)..]
  {
    var rest := b[1..];
    var d := FindDash(rest);
    assert rest == rest[..d] + rest[d..];
    if d == |rest| {
      assert rest[..d] == rest;
    }
    DigitsTaken(rest[..d], rest[d..]);
  }

  lemma TailParses(b: string, first: nat)
    requires IsEpisodeToken(b)
    ensures var rest := b[1..];
            var d := FindDash(rest);
            RangeEnd(rest[d..], first) ==
            if d < |rest| && Value(StripE(rest[d + 1..])) > first then Some(Value(StripE(rest[d + 1..]))) else None
  {
    var rest := b[1..];
    var d := FindDash(rest);
    if d < |rest| {
      var tail := StripE(rest[d + 1..]);
      assert StripDash(rest[d..]) == rest[d + 1..];
      assert tail + [] == tail;
      DigitsTaken(tail, []);
      ShortValue(tail);
    } else {
      assert rest[d..] == [];
      assert RangeEnd([], first) == None;
    }
  }

  lemma PartsOf(s: string, e: string, digits: string)
    requires Digits(s, 3) && Digits(digits, 3) && TakeDigits(e) == digits
    ensures ParseParts(s, e) == Some(Marker(Value(s), Value(digits), RangeEnd(e[|digits|..], Value(digits))))
  {
    ShortValue(digits);
    ShortValue(s);
  }

  lemma PartsParse(a: string, b: string)
    requires IsSeasonToken(a) && IsEpisodeToken(b)
    ensures ParseParts(a[1..], b[1..]) == Some(Spelt(a, b))
  {
    RestParses(b);
    var first := TakeDigits(b[1..]);
    PartsOf(a[1..], b[1..], first);
    TailParses(b, Value(first));
  }

  lemma ParseOf(t: string, p: nat)
    requires t != [] && IsS(t[0]) && FindE(t[1..]) == p < |t| - 1
    ensures ParseTrimmed(t) == ParseParts(t[1..][..p], t[1..][p + 1..])
  {
  }

  lemma JoinedSplits(a: string, b: string)
    requires IsSeasonToken(a) && IsEpisodeToken(b)
    ensures ParseSxxEyy(a + b) == ParseParts(a[1..], b[1..])
  {
    var t := a + b;
    EpisodeEndsInDigit(b);
    assert t[|t| - 1] == b[|b| - 1];
    var rest := t[1..];
    assert rest == a[1..] + b;
    FindEAfterDigits(a[1..], b);
    ParseOf(t, |a| - 1);
    NothingTrimmed(t);
    assert rest[..|a| - 1] == a[1..] && rest[|a|..] == b[1..];
  }

  /** A season and an episode accepted as separate tokens parse, once joined, to
      exactly the numbers the two spell. */
  lemma JoinedParses(a: string, b: string)
    requires IsSeasonToken(a) && IsEpisodeToken(b)
    ensures ParseSxxEyy(a + b) == Some(Spelt(a, b))
  {
    JoinedSplits(a, b);
    PartsParse(a, b);
  }

  // -------------------------------------------------------- a marker welded to the end

  /** The last six characters are `s##e##`. */
  predicate MarkerAtEnd(s: string) {
    |s| >= 6 &&
    var m := s[|s| - 6..];
    IsS(m[0]) && IsDigit(m[1]) && IsDigit(m[2]) && IsE(m[3]) && IsDigit(m[4]) && IsDigit(m[5])
  }

  function SplitTrailing(s: string): string {
    if |s| >= 7 && MarkerAtEnd(s) && IsAlphanumeric(s[|s| - 7]) then s[..|s| - 6] + " " + s[|s| - 6..]
    else s
  }

  lemma WeldedSplits(m: string)
    requires |m| == 6 && MarkerAtEnd(m)
    ensures IsSeasonToken(m[..3]) && IsEpisodeToken(m[3..]) && m == m[..3] + m[3..]
    ensures FindDash(m[3..][1..]) == 2
  {
    assert m[|m| - 6..] == m;
    assert m[..3][1..] == m[1..3];
    assert m[3..][1..] == m[4..6];
    NoDash(m[4..6]);
  }

  lemma {:induction false} NoDash(s: string)
    requires forall k :: 0 <= k < |s| ==> s[k] != '-'
    ensures FindDash(s) == |s|
  {
  }

  lemma PlainParses(a: string, b: string)
    requires IsSeasonToken(a) && IsEpisodeToken(b) && FindDash(b[1..]) == |b| - 1
    ensures ParseSxxEyy(a + b) == Some(Marker(Value(a[1..]), Value(b[1..]), None))
  {
    JoinedParses(a, b);
    assert b[1..][..|b| - 1] == b[1..];
  }

  lemma WeldedParses(m: string, season: string, episode: string)
    requires |m| == 6 && MarkerAtEnd(m) && season == m[1..3] && episode == m[4..6]
    ensures AllDigits(season) && AllDigits(episode)
    ensures ParseSxxEyy(m) == Some(Marker(Value(season), Value(episode), None))
  {
    WeldedSplits(m);
    assert m[..3][1..] == season && m[3..][1..] == episode;
    PlainParses(m[..3], m[3..]);
  }

  /** A marker welded to the end of a stem parses, once cut off, to its own digits, and
      the cut leaves the rest of the stem alone. */
  lemma TrailingParses(s: string)
    ensures SplitTrailing(s) != s <==> |s| >= 7 && MarkerAtEnd(s) && IsAlphanumeric(s[|s| - 7])
    ensures SplitTrailing(s) != s ==>
              && SplitTrailing(s) == s[..|s| - 6] + " " + s[|s| - 6..]
              && AllDigits(s[|s| - 5..|s| - 3]) && AllDigits(s[|s| - 2..])
              && ParseSxxEyy(s[|s| - 6..]) == Some(Marker(Value(s[|s| - 5..|s| - 3]), Value(s[|s| - 2..]), None))
  {
    if |s| >= 7 && MarkerAtEnd(s) && IsAlphanumeric(s[|s| - 7]) {
      var m := s[|s| - 6..];
      assert m[|m| - 6..] == m;
      assert m[1..3] == s[|s| - 5..|s| - 3] && m[4..6] == s[|s| - 2..];
      WeldedParses(m, m[1..3], m[4..6]);
      assert |SplitTrailing(s)| == |s| + 1;
    }
  }

  lemma SplitTrailingOnce(s: string)
    ensures SplitTrailing(SplitTrailing(s)) == SplitTrailing(s)
  {
    var out := SplitTrailing(s);
    if out != s {
      assert out[|out| - 7] == ' ';
    }
  }

  // ------------------------------------------------------------------------- tokens

  function WordEnd(s: string): (r: nat)
    ensures r <= |s| && (r < |s| ==> IsSpace(s[r]))
    ensures s != [] && !IsSpace(s[0]) ==> r > 0
  {
    if s == [] || IsSpace(s[0]) then 0 else 1 + WordEnd(s[1..])
  }

  /** `split_whitespace`. */
  function Words(s: string): seq<string>
    decreases |s|
  {
    if s == [] then []
    else if IsSpace(s[0]) then Words(s[1..])
    else [s[..WordEnd(s)]] + Words(s[WordEnd(s)..])
  }

  predicate IsWord(w: string) {
    w != [] && forall k :: 0 <= k < |w| ==> !IsSpace(w[k])
  }

  predicate AllWords(ws: seq<string>) {
    forall k :: 0 <= k < |ws| ==> IsWord(ws[k])
  }

  /** `join(" ")`. */
  function Spaced(ws: seq<string>): string {
    if ws == [] then []
    else if |ws| == 1 then ws[0]
    else ws[0] + " " + Spaced(ws[1..])
  }

  lemma {:induction false} WordThen(w: string, rest: string)
    requires rest == [] || IsSpace(rest[0])
    requires forall k :: 0 <= k < |w| ==> !IsSpace(w[k])
    ensures WordEnd(w + rest) == |w|
  {
    if w == [] {
      assert w + rest == rest;
    } else {
      assert (w + rest)[1..] == w[1..] + rest;
      WordThen(w[1..], rest);
    }
  }

  lemma FirstWord(w: string, rest: string)
    requires IsWord(w) && (rest == [] || IsSpace(rest[0]))
    ensures Words(w + rest) == [w] + Words(rest)
  {
    var t := w + rest;
    WordThen(w, rest);
    assert t[..|w|] == w && t[|w|..] == rest && t[0] == w[0];
  }

  /** Splitting gives words, and undoes joining. */
  lemma {:induction false} WordsOfSpaced(ws: seq<string>)
    requires AllWords(ws)
    ensures Words(Spaced(ws)) == ws
  {
    if |ws| == 1 {
      assert ws[0] + [] == ws[0];
      FirstWord(ws[0], []);
    } else if |ws| > 1 {
      var rest := Spaced(ws[1..]);
      WordsOfSpaced(ws[1..]);
      assert ws[0] + " " + rest == ws[0] + (" " + rest);
      FirstWord(ws[0], " " + rest);
      assert (" " + rest)[1..] == rest;
    }
  }

  lemma {:induction false} WordIsSolid(s: string)
    ensures forall k :: 0 <= k < WordEnd(s) ==> !IsSpace(s[k])
  {
    if s != [] && !IsSpace(s[0]) {
      WordIsSolid(s[1..]);
      forall k | 0 <= k < WordEnd(s)
        ensures !IsSpace(s[k])
      {
        assert k > 0 ==> s[k] == s[1..][k - 1];
      }
    }
  }

  lemma {:induction false} WordsAreWords(s: string)
    ensures AllWords(Words(s))
    decreases |s|
  {
    if s != [] {
      if IsSpace(s[0]) {
        WordsAreWords(s[1..]);
      } else {
        WordIsSolid(s);
        WordsAreWords(s[WordEnd(s)..]);
      }
    }
  }

  // -------------------------------------------------------------------- the join pass

  predicate Pair(ws: seq<string>, i: nat) {
    i + 1 < |ws| && IsSeasonToken(ws[i]) && IsEpisodeToken(ws[i + 1])
  }

  function Joined(ws: seq<string>): (r: seq<string>)
    ensures r != [] <==> ws != []
  {
    if ws == [] then []
    else if Pair(ws, 0) then [ws[0] + ws[1]] + Joined(ws[2..])
    else [ws[0]] + Joined(ws[1..])
  }

  lemma JoinStep(ws: seq<string>, i: nat)
    requires i < |ws|
    ensures Joined(ws[i..]) == if Pair(ws, i) then [ws[i] + ws[i + 1]] + Joined(ws[i + 2..])
                               else [ws[i]] + Joined(ws[i + 1..])
  {
    var rest := ws[i..];
    assert Pair(rest, 0) <==> Pair(ws, i);
    assert rest[1..] == ws[i + 1..];
    if Pair(ws, i) {
      assert rest[2..] == ws[i + 2..];
    }
  }

  lemma Carried(done: seq<string>, w: string, rest: seq<string>)
    ensures done + ([w] + rest) == (done + [w]) + rest
  {
  }

  method JoinSplitMarker(s: string) returns (out: string)
    ensures out == Spaced(Joined(Words(s)))
  {
    var ws := Words(s);
    var joined: seq<string> := [];
    var i := 0;
    assert ws[0..] == ws;
    while i < |ws|
      invariant 0 <= i <= |ws|
      invariant Joined(ws) == joined + Joined(ws[i..])
    {
      JoinStep(ws, i);
      if i + 1 < |ws| && IsSeasonToken(ws[i]) && IsEpisodeToken(ws[i + 1]) {
        Carried(joined, ws[i] + ws[i + 1], Joined(ws[i + 2..]));
        joined := joined + [ws[i] + ws[i + 1]];
        i := i + 2;
      } else {
        Carried(joined, ws[i], Joined(ws[i + 1..]));
        joined := joined + [ws[i]];
        i := i + 1;
      }
    }
    assert joined + [] == joined;
    out := Spaced(joined);
  }

  lemma JoinedIsNeither(a: string, b: string)
    requires IsSeasonToken(a) && IsEpisodeToken(b)
    ensures !IsSeasonToken(a + b) && !IsEpisodeToken(a + b)
    ensures IsWord(a) && IsWord(b) ==> IsWord(a + b)
  {
    assert (a + b)[1..][|a| - 1] == b[0];
    assert (a + b)[0] == a[0];
  }

  /** After the pass no season token stands before an episode token. */
  lemma {:induction false} NoPairLeft(ws: seq<string>)
    ensures forall i :: 0 <= i < |Joined(ws)| ==> !Pair(Joined(ws), i)
    ensures ws != [] && IsEpisodeToken(Joined(ws)[0]) ==> Joined(ws)[0] == ws[0]
    decreases |ws|
  {
    if ws != [] {
      var all := Joined(ws);
      var rest := all[1..];
      if Pair(ws, 0) {
        JoinedIsNeither(ws[0], ws[1]);
        NoPairLeft(ws[2..]);
        assert rest == Joined(ws[2..]);
      } else {
        NoPairLeft(ws[1..]);
        assert rest == Joined(ws[1..]);
      }
      forall i | 0 <= i < |all|
        ensures !Pair(all, i)
      {
        assert i > 0 ==> Pair(all, i) == Pair(rest, i - 1);
      }
    }
  }

  lemma {:induction false} JoinedUnchanged(ws: seq<string>)
    requires forall i :: 0 <= i < |ws| ==> !Pair(ws, i)
    ensures Joined(ws) == ws
  {
    if ws != [] {
      forall i | 0 <= i < |ws| - 1
        ensures !Pair(ws[1..], i)
      {
        assert !Pair(ws, i + 1);
      }
      JoinedUnchanged(ws[1..]);
    }
  }

  lemma {:induction false} JoinedAreWords(ws: seq<string>)
    requires AllWords(ws)
    ensures AllWords(Joined(ws))
    decreases |ws|
  {
    if ws != [] {
      if Pair(ws, 0) {
        JoinedIsNeither(ws[0], ws[1]);
        JoinedAreWords(ws[2..]);
      } else {
        JoinedAreWords(ws[1..]);
      }
    }
  }

  /** The tokens the parser sees are the joined ones, and the pass has nothing left to do. */
  lemma JoinPassSettles(s: string)
    ensures var out := Spaced(Joined(Words(s)));
            Words(out) == Joined(Words(s)) && Spaced(Joined(Words(out))) == out
  {
    WordsAreWords(s);
    JoinedAreWords(Words(s));
    WordsOfSpaced(Joined(Words(s)));
    NoPairLeft(Words(s));
    JoinedUnchanged(Joined(Words(s)));
  }
}
