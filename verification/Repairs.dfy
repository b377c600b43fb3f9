// What the repair passes of a series name are for: every marker they free is read, with
// the numbers it spells.

module Repairs {
  import opened Wrappers
  import opened Markers
  import opened EpisodeNumbers

  // ------------------------------------------------------------------- trimming

  predicate Junk(s: string) {
    forall k :: 0 <= k < |s| ==> !IsAlphanumeric(s[k])
  }

  predicate Bounded(c: string) {
    c != [] && IsAlphanumeric(c[0]) && IsAlphanumeric(c[|c| - 1])
  }

  lemma {:induction false} LeftTrimmed(a: string, u: string)
    requires Junk(a) && u != [] && IsAlphanumeric(u[0])
    ensures TrimLeft(a + u) == u
  {
    if a == [] {
      assert a + u == u;
    } else {
      assert (a + u)[1..] == a[1..] + u;
      LeftTrimmed(a[1..], u);
    }
  }

  lemma {:induction false} RightTrimmed(u: string, b: string)
    requires Junk(b) && u != [] && IsAlphanumeric(u[|u| - 1])
    ensures TrimRight(u + b) == u
  {
    if b == [] {
      assert u + b == u;
    } else {
      assert (u + b)[..|u + b| - 1] == u + b[..|b| - 1];
      RightTrimmed(u, b[..|b| - 1]);
    }
  }

  lemma Trimmed(a: string, c: string, b: string)
    requires Junk(a) && Junk(b) && Bounded(c)
    ensures TrimRight(TrimLeft(a + c + b)) == c
  {
    assert a + c + b == a + (c + b);
    LeftTrimmed(a, c + b);
    RightTrimmed(c, b);
  }

  lemma {:induction false} LeftParts(t: string) returns (a: string)
    ensures Junk(a) && t == a + TrimLeft(t)
    ensures TrimLeft(t) != [] ==> IsAlphanumeric(TrimLeft(t)[0])
  {
    a := [];
    if t != [] && !IsAlphanumeric(t[0]) {
      a := LeftParts(t[1..]);
      a := [t[0]] + a;
      assert t == [t[0]] + t[1..];
    }
  }

  lemma {:induction false} RightParts(t: string) returns (b: string)
    ensures Junk(b) && t == TrimRight(t) + b
    ensures TrimRight(t) != [] ==> IsAlphanumeric(TrimRight(t)[|TrimRight(t)| - 1])
  {
    b := [];
    if t != [] && !IsAlphanumeric(t[|t| - 1]) {
      b := RightParts(t[..|t| - 1]);
      b := b + [t[|t| - 1]];
    }
  }

  lemma TrimParts(t: string) returns (a: string, c: string, b: string)
    ensures c == TrimRight(TrimLeft(t)) && t == a + c + b && Junk(a) && Junk(b)
    ensures c != [] ==> Bounded(c)
  {
    a := LeftParts(t);
    b := RightParts(TrimLeft(t));
    c := TrimRight(TrimLeft(t));
    assert c != [] ==> c[0] == TrimLeft(t)[0];
  }

  lemma {:induction false} JunkTrims(t: string)
    requires Junk(t)
    ensures TrimLeft(t) == []
  {
    if t != [] {
      JunkTrims(t[1..]);
    }
  }

  lemma JunkIsNothing(t: string)
    requires Junk(t)
    ensures Accepts(t).None? && !IsSeasonToken(t) && !IsEpisodeToken(t)
  {
    JunkTrims(t);
  }

  // ------------------------------------------------------------- what a marker says

  /** Junk, an S and its digits, an E and its digits, and what follows. */
  datatype Parts = Parts(junk: string, s: char, season: string, e: char, episode: string, tail: string) {
    predicate Valid() {
      && Junk(junk) && IsS(s) && IsE(e) && season != [] && AllDigits(season)
      && episode != [] && AllDigits(episode) && (tail != [] ==> !IsDigit(tail[0]))
    }

    function Stem(): string {
      [s] + season + [e] + episode
    }

    function Whole(): string {
      junk + Stem() + tail
    }
  }

  function Said(season: string, episode: string, tail: string): Option<Marker>
    requires AllDigits(season) && AllDigits(episode)
  {
    if ParseDigits(season).None? || ParseDigits(episode).None? then None
    else
      var first := ParseDigits(episode).value;
      Some(Marker(ParseDigits(season).value, first, RangeEnd(tail, first)))
  }

  lemma DigitsKept(x: string, y: string)
    requires y != [] && !IsDigit(y[0])
    ensures TakeDigits(x + y) == TakeDigits(x)
  {
    var d := DigitCount(x);
    assert x == x[..d] + x[d..];
    assert x + y == x[..d] + (x[d..] + y);
    DigitsTaken(x[..d], x[d..] + y);
  }

  /** A range's end is read from the start of the tail alone. */
  lemma TailCut(x: string, y: string, first: nat)
    requires y == [] || (!IsE(y[0]) && !IsDigit(y[0]))
    ensures (y != [] && y[0] == '-' && x == []) || RangeEnd(x + y, first) == RangeEnd(x, first)
  {
    if y == [] {
      assert x + y == x;
    } else if y[0] != '-' || x != [] {
      var x1 := StripDash(x);
      assert x == [] ==> x + y == y;
      assert StripDash(x + y) == x1 + y;
      var x2 := StripE(x1);
      assert x1 == [] ==> x1 + y == y;
      assert StripE(x1 + y) == x2 + y;
      DigitsKept(x2, y);
    }
  }

  lemma JunkTail(x: string, y: string, first: nat)
    requires Junk(y)
    ensures RangeEnd(x + y, first) == RangeEnd(x, first)
  {
    TailCut(x, y, first);
    if y != [] && y[0] == '-' && x == [] {
      assert x + y == y;
      var z := y[1..];
      assert StripDash(y) == z && StripE(z) == z;
      assert DigitCount(z) == 0;
    }
  }

  lemma CoreSays(s: char, season: string, e: char, after: string, episode: string, tail: string)
    requires IsS(s) && IsE(e) && season != [] && AllDigits(season)
    requires episode != [] && AllDigits(episode) && (tail != [] ==> !IsDigit(tail[0])) && after == episode + tail
    ensures ParseTrimmed([s] + season + [e] + after) == Said(season, episode, tail)
  {
    var t := [s] + season + [e] + after;
    var rest := t[1..];
    assert rest == season + ([e] + after);
    FindEAfterDigits(season, [e] + after);
    assert rest[..|season|] == season && rest[|season| + 1..] == after;
    ParseOf(t, |season|);
    DigitsTaken(episode, tail);
    assert after[|episode|..] == tail;
  }

  lemma StemThen(p: Parts, x: string, b: string)
    requires p.tail == x + b
    ensures p.Whole() == p.junk + (p.Stem() + x) + b
    ensures p.Stem() + x == [p.s] + p.season + [p.e] + (p.episode + x)
  {
  }

  lemma StemBounded(p: Parts, x: string)
    requires p.Valid() && (x != [] ==> IsAlphanumeric(x[|x| - 1]))
    ensures Bounded(p.Stem() + x)
  {
    var c := p.Stem() + x;
    assert c[|c| - 1] == if x == [] then p.episode[|p.episode| - 1] else x[|x| - 1];
  }

  lemma PartsSay(p: Parts)
    requires p.Valid()
    ensures ParseSxxEyy(p.Whole()) == Said(p.season, p.episode, p.tail)
  {
    var b := RightParts(p.tail);
    var x := TrimRight(p.tail);
    StemThen(p, x, b);
    StemBounded(p, x);
    Trimmed(p.junk, p.Stem() + x, b);
    assert x != [] ==> x[0] == p.tail[0];
    CoreSays(p.s, p.season, p.e, p.episode + x, p.episode, x);
    SaidBefore(p.season, p.episode, x, b);
  }

  lemma SaidBefore(season: string, episode: string, x: string, y: string)
    requires AllDigits(season) && AllDigits(episode) && Junk(y)
    ensures Said(season, episode, x + y) == Said(season, episode, x)
  {
    if ParseDigits(episode).Some? {
      JunkTail(x, y, ParseDigits(episode).value);
    }
  }

  lemma InParts(c: string, f: nat, n: nat)
    requires f + 2 + n <= |c|
    ensures c == [c[0]] + c[1..][..f] + [c[1..][f]] + c[1..][f + 1..][..n] + c[1..][f + 1..][n..]
  {
  }

  lemma CoreParts(c: string) returns (p: Parts)
    requires ParseTrimmed(c).Some?
    ensures p.Valid() && p.junk == [] && c == p.Stem() + p.tail
  {
    var rest := c[1..];
    var f := FindE(rest);
    var after := rest[f + 1..];
    var n := DigitCount(after);
    InParts(c, f, n);
    p := Parts([], c[0], rest[..f], rest[f], TakeDigits(after), after[n..]);
  }

  lemma Around(a: string, p: Parts, b: string) returns (q: Parts)
    requires p.Valid() && Junk(a) && Junk(b)
    ensures q == p.(junk := a, tail := p.tail + b) && q.Valid() && q.Whole() == a + (p.Stem() + p.tail) + b
  {
    q := p.(junk := a, tail := p.tail + b);
    assert q.tail != [] ==> q.tail[0] == if p.tail == [] then b[0] else p.tail[0];
    assert q.Stem() == p.Stem();
  }

  lemma PartsOfMarker(t: string) returns (p: Parts)
    requires ParseSxxEyy(t).Some?
    ensures p.Valid() && p.Whole() == t && ParseSxxEyy(t) == Said(p.season, p.episode, p.tail)
  {
    var a, c, b := TrimParts(t);
    var q := CoreParts(c);
    p := Around(a, q, b);
    PartsSay(p);
  }

  // --------------------------------------------------- a part that keeps its marker

  /** The same season and episode, and the same end unless that is lost with the rest of
      the token. */
  function Kept(m: Marker, lost: bool): Marker {
    if lost then m.(end := None) else m
  }

  /** What is cut off does not run on in the marker's own digits. */
  predicate CutsCleanly(y: string) {
    y != [] ==> !IsE(y[0]) && !IsDigit(y[0])
  }

  /** A cut loses the end just when it is made at a dash right after the digits. */
  predicate LosesEnd(x: string, y: string) {
    x == [] && y != [] && y[0] == '-'
  }

  lemma PartSays(season: string, episode: string, x: string, y: string)
    requires AllDigits(season) && AllDigits(episode) && Said(season, episode, x + y).Some? && CutsCleanly(y)
    ensures Said(season, episode, x) == Some(Kept(Said(season, episode, x + y).value, LosesEnd(x, y)))
  {
    TailCut(x, y, ParseDigits(episode).value);
    if x == [] {
      assert RangeEnd(x, ParseDigits(episode).value) == None;
    }
  }

  lemma PartReads(p: Parts, junk: string, x: string, y: string)
    requires p.Valid() && ParseSxxEyy(p.Whole()).Some? && p.tail == x + y && Junk(junk) && CutsCleanly(y)
    ensures ParseSxxEyy(junk + p.Stem() + x) == Some(Kept(ParseSxxEyy(p.Whole()).value, LosesEnd(x, y)))
  {
    var q := p.(junk := junk, tail := x);
    assert x != [] ==> x[0] == p.tail[0];
    assert q.Stem() == p.Stem();
    PartsSay(p);
    PartsSay(q);
    PartSays(p.season, p.episode, x, y);
  }

  /** No white space and no dash, from an alphanumeric that is no E on, and no S inside. */
  predicate Steady(c: string) {
    && c != [] && IsAlphanumeric(c[0]) && !IsE(c[0])
    && (forall k :: 0 <= k < |c| ==> !IsSpace(c[k]) && c[k] != '-')
    && forall k :: 0 < k < |c| ==> !IsS(c[k])
  }

  /** The part of an accepted token that says its season and episode. */
  ghost predicate Anchored(t: string, a: string, c: string, z: string) {
    && t == a + c + z && Junk(a) && Steady(c)
    && ((ParseSxxEyy(t).Some? && exists p: Parts :: p.Valid() && p.Whole() == t && p.Stem() == c && p.tail == z)
        || (ParseSxxEyy(t).None? && ParseNnXnn(t).Some? && Bounded(c) && Junk(z)))
  }

  lemma StemSteady(p: Parts)
    requires p.Valid()
    ensures Steady(p.Stem())
  {
    var c := p.Stem();
    forall k | 0 <= k < |c|
      ensures !IsSpace(c[k]) && c[k] != '-' && (k > 0 ==> !IsS(c[k]))
    {
      var i := k - |p.season| - 2;
      assert c[k] == if k == 0 then p.s
                     else if k <= |p.season| then p.season[k - 1]
                     else if i < 0 then p.e else p.episode[i];
    }
  }

  lemma PlusDigits(s: string)
    requires ParseU32(s).Some?
    ensures forall k :: 0 <= k < |s| ==> IsDigit(s[k]) || s[k] == '+'
  {
    assert s != [] && s[0] == '+' ==> forall k :: 0 < k < |s| ==> s[k] == s[1..][k - 1];
  }

  predicate DigitsAndX(c: string) {
    forall k :: 0 <= k < |c| ==> IsDigit(c[k]) || c[k] == '+' || c[k] == 'x' || c[k] == 'X'
  }

  lemma NnXnnDigits(c: string)
    requires ParseX(c).Some?
    ensures DigitsAndX(c) && |c| <= 6
  {
    var x := FindX(c);
    var s, e := c[..x], c[x + 1..];
    PlusDigits(s);
    PlusDigits(e);
    FoundX(c);
    forall k | 0 <= k < |c|
      ensures IsDigit(c[k]) || c[k] == '+' || c[k] == 'x' || c[k] == 'X'
    {
      assert k < x ==> c[k] == s[k];
      assert k > x ==> c[k] == e[k - x - 1];
    }
  }

  lemma XDigitsSteady(c: string)
    requires Bounded(c) && DigitsAndX(c)
    ensures Steady(c)
  {
  }

  lemma NnXnnSteady(t: string)
    requires ParseNnXnn(t).Some?
    ensures var c := TrimRight(TrimLeft(t));
            Steady(c) && DigitsAndX(c) && |c| <= 6
  {
    var a, c, b := TrimParts(t);
    NnXnnDigits(c);
    XDigitsSteady(c);
  }

  lemma {:induction false} FoundX(s: string)
    ensures FindX(s) < |s| ==> s[FindX(s)] == 'x' || s[FindX(s)] == 'X'
  {
    if s != [] && !(s[0] == 'x' || s[0] == 'X') {
      FoundX(s[1..]);
    }
  }

  lemma Anchor(t: string) returns (a: string, c: string, z: string)
    requires Accepts(t).Some?
    ensures Anchored(t, a, c, z)
  {
    if ParseSxxEyy(t).Some? {
      var p := PartsOfMarker(t);
      StemSteady(p);
      a, c, z := p.junk, p.Stem(), p.tail;
    } else {
      a, c, z := TrimParts(t);
      NnXnnSteady(t);
    }
  }

  /** A part that keeps the anchor, behind any junk, is accepted with the same numbers. */
  lemma AnchorReads(t: string, a: string, c: string, z: string, junk: string, x: string, y: string)
    requires Anchored(t, a, c, z) && Junk(junk) && z == x + y && CutsCleanly(y)
    ensures Accepts(t).Some? && Accepts(junk + c + x) == Some(Kept(Accepts(t).value, LosesEnd(x, y)))
  {
    if ParseSxxEyy(t).Some? {
      var p: Parts :| p.Valid() && p.Whole() == t && p.Stem() == c && p.tail == z;
      PartReads(p, junk, x, y);
    } else {
      assert forall k :: 0 <= k < |x| ==> x[k] == z[k];
      Trimmed(a, c, z);
      Trimmed(junk, c, x);
    }
  }

  /** Where the digits of an accepted token's episode end. */
  function DigitsEnd(t: string): nat {
    TrimLeftShortens(t);
    var core := TrimLeft(t);
    if core == [] || FindE(core[1..]) == |core| - 1 then 0
    else
      var e := FindE(core[1..]);
      |t| - |core| + e + 2 + DigitCount(core[e + 2..])
  }

  lemma {:induction false} TrimLeftShortens(t: string)
    ensures |TrimLeft(t)| <= |t|
  {
    if t != [] && !IsAlphanumeric(t[0]) {
      TrimLeftShortens(t[1..]);
    }
  }

  lemma StemEnds(p: Parts)
    requires p.Valid()
    ensures DigitsEnd(p.Whole()) == |p.junk| + |p.Stem()|
  {
    var core := p.Stem() + p.tail;
    assert p.Whole() == p.junk + core;
    LeftTrimmed(p.junk, core);
    var after := p.episode + p.tail;
    assert core[1..] == p.season + ([p.e] + after);
    FindEAfterDigits(p.season, [p.e] + after);
    assert core[|p.season| + 2..] == after;
    DigitsCounted(p.episode, p.tail);
  }

  lemma AnchorEnds(t: string, a: string, c: string, z: string)
    requires Anchored(t, a, c, z)
    ensures Accepts(t).Some? && (Accepts(t).value.end == None || DigitsEnd(t) == |a| + |c|)
  {
    if ParseSxxEyy(t).Some? {
      var p: Parts :| p.Valid() && p.Whole() == t && p.Stem() == c && p.tail == z;
      StemEnds(p);
      assert |a| + |c| + |z| == |t| == |p.junk| + |c| + |z|;
    }
  }

  // ------------------------------------------------------------ the glued marker

  lemma WordOf(w: string, z: string)
    requires w != [] && forall k :: 0 <= k < |w| ==> !IsSpace(w[k])
    ensures Words(w + z) == [w + z[..WordEnd(z)]] + Words(z[WordEnd(z)..])
  {
    var e := WordEnd(z);
    WordIsSolid(z);
    assert w + z == (w + z[..e]) + z[e..];
    FirstWord(w + z[..e], z[e..]);
  }

  lemma SpaceFirst(s: string, rest: string)
    requires s != [] && IsSpace(s[0])
    ensures Words(s + rest) == Words(s[1..] + rest)
  {
    assert (s + rest)[1..] == s[1..] + rest;
  }

  lemma WordFirst(s: string, rest: string)
    requires 0 < WordEnd(s) < |s|
    ensures Words(s + rest) == [s[..WordEnd(s)]] + Words(s[WordEnd(s)..] + rest)
  {
    var e := WordEnd(s);
    WordIsSolid(s);
    assert s + rest == s[..e] + (s[e..] + rest);
    FirstWord(s[..e], s[e..] + rest);
  }

  /** The word that holds c, behind junk words. */
  predicate HeldBehindJunk(ws: seq<string>, n: nat, before: string, held: string) {
    n < |ws| && ws[n] == before + held && Junk(before) && forall k :: 0 <= k < n ==> Junk(ws[k])
  }

  lemma OneFurther(w: string, ws: seq<string>, n: nat, before: string, held: string)
    requires HeldBehindJunk(ws, n, before, held) && Junk(w)
    ensures HeldBehindJunk([w] + ws, n + 1, before, held)
  {
  }

  /** Behind junk, the first word that is not junk is the one that holds c. */
  lemma {:induction false} FirstSolid(junk: string, c: string, z: string) returns (n: nat, before: string)
    requires Junk(junk) && Steady(c)
    ensures HeldBehindJunk(Words(junk + (c + z)), n, before, c + z[..WordEnd(z)])
    decreases |junk|
  {
    var e := WordEnd(junk);
    if e == |junk| {
      WordIsSolid(junk);
      n, before := 0, junk;
      WordOf(junk + c, z);
      assert junk + c + z == junk + (c + z);
      assert junk + c + z[..WordEnd(z)] == junk + (c + z[..WordEnd(z)]);
    } else if e == 0 {
      n, before := FirstSolid(junk[1..], c, z);
      SpaceFirst(junk, c + z);
    } else {
      n, before := FirstSolid(junk[e..], c, z);
      WordFirst(junk, c + z);
      OneFurther(junk[..e], Words(junk[e..] + (c + z)), n, before, c + z[..WordEnd(z)]);
      n := n + 1;
    }
  }

  lemma {:induction false} UntilSpaceIs(s: string)
    ensures var u := UntilSpace(s);
            |u| <= |s| && u == s[..|u|] && (|u| < |s| ==> s[|u|] == ' ')
  {
    if s != [] && s[0] != ' ' {
      UntilSpaceIs(s[1..]);
    }
  }

  /** The same text with some dashes made spaces, and a space after it. */
  predicate Freed(z: string, f: string) {
    && |z| <= |f| && (|z| < |f| ==> f[|z|] == ' ')
    && forall k :: 0 <= k < |z| ==> f[k] == z[k] || (z[k] == '-' && f[k] == ' ')
  }

  lemma FreedWord(z: string, f: string)
    requires Freed(z, f)
    ensures var e := WordEnd(f);
            e <= |z| && f[..e] == z[..e] && CutsCleanly(z[e..])
  {
    WordIsSolid(f);
    var e := WordEnd(f);
    assert e > |z| ==> IsSpace(f[|z|]);
    forall k | 0 <= k < e
      ensures f[k] == z[k]
    {
    }
  }

  lemma FreedParts(a: string, c: string, z: string, f: string)
    requires Junk(a) && Steady(c) && Freed(a + c + z, f)
    ensures f == f[..|a|] + (c + f[|a| + |c|..]) && Junk(f[..|a|]) && Freed(z, f[|a| + |c|..])
  {
    var t := a + c + z;
    forall k | 0 <= k < |a|
      ensures !IsAlphanumeric(f[k])
    {
      assert t[k] == a[k];
    }
    forall k | 0 <= k < |c|
      ensures f[|a| + k] == c[k]
    {
      assert t[|a| + k] == c[k];
    }
    assert f[|a|..|a| + |c|] == c;
    forall k | 0 <= k < |z|
      ensures var g := f[|a| + |c|..]; g[k] == z[k] || (z[k] == '-' && g[k] == ' ')
    {
      assert t[|a| + |c| + k] == z[k];
    }
  }

  lemma FreedWords(a: string, c: string, z: string, f: string) returns (n: nat, before: string, e: nat)
    requires Junk(a) && Steady(c) && Freed(a + c + z, f)
    ensures e <= |z| && CutsCleanly(z[e..]) && HeldBehindJunk(Words(f), n, before, c + z[..e])
    ensures LosesEnd(z[..e], z[e..]) <==> z != [] && z[0] == '-' && f[|a| + |c|] == ' '
  {
    FreedParts(a, c, z, f);
    var rest := f[|a| + |c|..];
    n, before := FirstSolid(f[..|a|], c, rest);
    FreedWord(z, rest);
    e := WordEnd(rest);
  }

  /** The dash right after the episode's digits was made a space. */
  predicate CutAtDash(t: string, f: string) {
    var d := DigitsEnd(t);
    d < |t| && d < |f| && t[d] == '-' && f[d] == ' '
  }

  /** Text freed from an accepted token has a word of the same numbers, behind junk; its end
      is lost exactly when the dash after its digits was taken away. */
  lemma FreedReads(t: string, f: string) returns (n: nat)
    requires Accepts(t).Some? && Freed(t, f)
    ensures n < |Words(f)| && (forall k :: 0 <= k < n ==> Junk(Words(f)[k]))
    ensures Accepts(Words(f)[n]) == Some(Kept(Accepts(t).value, CutAtDash(t, f)))
  {
    var a, c, z := Anchor(t);
    var before, e;
    n, before, e := FreedWords(a, c, z, f);
    FreedHeld(t, a, c, z, before, e);
    AnchorEnds(t, a, c, z);
    if Accepts(t).value.end.Some? {
      LostAtDash(t, a, c, z, f, LosesEnd(z[..e], z[e..]));
    }
    KeptAlike(Accepts(t).value, LosesEnd(z[..e], z[e..]), CutAtDash(t, f));
  }

  lemma KeptAlike(m: Marker, x: bool, y: bool)
    requires m.end == None || x == y
    ensures Kept(m, x) == Kept(m, y)
  {
  }

  lemma LostAtDash(t: string, a: string, c: string, z: string, f: string, lost: bool)
    requires t == a + c + z && |t| <= |f| && DigitsEnd(t) == |a| + |c|
    requires lost <==> z != [] && z[0] == '-' && f[|a| + |c|] == ' '
    ensures lost == CutAtDash(t, f)
  {
    CutAtDashIs(t, f, |a| + |c|);
    DashAfter(a, c, z, t, f, |a| + |c|);
  }

  lemma CutAtDashIs(t: string, f: string, d: nat)
    requires DigitsEnd(t) == d
    ensures CutAtDash(t, f) <==> d < |t| && d < |f| && t[d] == '-' && f[d] == ' '
  {
  }

  lemma DashAfter(a: string, c: string, z: string, t: string, f: string, d: nat)
    requires t == a + c + z && d == |a| + |c| && |t| <= |f|
    ensures d < |t| && d < |f| && t[d] == '-' && f[d] == ' ' <==> z != [] && z[0] == '-' && f[d] == ' '
  {
  }

  lemma Grouped(x: string, y: string, z: string)
    ensures x + y + z == x + (y + z)
  {
  }

  lemma CutInTwo(z: string, e: nat)
    requires e <= |z|
    ensures z == z[..e] + z[e..]
  {
  }

  lemma FreedHeld(t: string, a: string, c: string, z: string, before: string, e: nat)
    requires Anchored(t, a, c, z) && Junk(before) && e <= |z| && CutsCleanly(z[e..])
    ensures Accepts(t).Some?
    ensures Accepts(before + (c + z[..e])) == Some(Kept(Accepts(t).value, LosesEnd(z[..e], z[e..])))
  {
    CutInTwo(z, e);
    AnchorReads(t, a, c, z, before, z[..e], z[e..]);
    Grouped(before, c, z[..e]);
  }

  lemma {:induction false} WordsSplit(x: string, y: string)
    ensures Words(x + " " + y) == Words(x) + Words(y)
    decreases |x|
  {
    var t := x + " " + y;
    if x == [] {
      assert t[1..] == y;
    } else if IsSpace(x[0]) {
      assert t[1..] == x[1..] + " " + y;
      WordsSplit(x[1..], y);
    } else {
      var e := WordEnd(x);
      WordIsSolid(x);
      assert x == x[..e] + x[e..];
      assert t == x[..e] + (x[e..] + " " + y);
      FirstWord(x[..e], x[e..] + " " + y);
      WordsSplit(x[e..], y);
    }
  }

  /** Some dashes made spaces. */
  predicate Opened(s: string, r: string) {
    |r| == |s| && forall k :: 0 <= k < |s| ==> r[k] == s[k] || (s[k] == '-' && r[k] == ' ')
  }

  lemma GluedOpens(s: string)
    ensures Opened(s, SplitGlued(s))
    ensures forall i: nat :: Glues(s, i) ==> SplitGlued(s)[i] == ' '
  {
  }

  lemma OpenedAfter(s: string, r: string, j: nat)
    requires Opened(s, r) && j <= |s|
    ensures Freed(UntilSpace(s[j..]), r[j..])
  {
    var t, f := s[j..], r[j..];
    UntilSpaceIs(t);
    assert forall k :: 0 <= k < |t| ==> t[k] == s[j + k] && f[k] == r[j + k];
    assert forall k :: 0 <= k < |UntilSpace(t)| ==> UntilSpace(t)[k] == t[k];
  }

  lemma SpaceAt(r: string, i: nat)
    requires i < |r| && r[i] == ' '
    ensures Words(r) == Words(r[..i]) + Words(r[i + 1..])
  {
    assert r == r[..i] + " " + r[i + 1..];
    WordsSplit(r[..i], r[i + 1..]);
  }

  /** The dash after the marker's own digits glues another marker to it. */
  predicate GluesOn(s: string, i: nat)
    requires i < |s|
  {
    Glues(s, i + 1 + DigitsEnd(UntilSpace(s[i + 1..])))
  }

  lemma CutWhereGlued(s: string, i: nat)
    requires Glues(s, i)
    ensures CutAtDash(UntilSpace(s[i + 1..]), SplitGlued(s)[i + 1..]) <==> GluesOn(s, i)
  {
    var t, u := s[i + 1..], UntilSpace(s[i + 1..]);
    var d := DigitsEnd(u);
    UntilSpaceIs(t);
    assert d < |t| ==> t[d] == s[i + 1 + d] && SplitGlued(s)[i + 1..][d] == SplitGlued(s)[i + 1 + d];
    assert d < |u| ==> u[d] == t[d];
    if GluesOn(s, i) {
      DigitsEndWithin(u);
      SolidUntil(s, i, u, d);
    }
  }

  /** What is no space is still in the token. */
  lemma SolidUntil(s: string, i: nat, u: string, d: nat)
    requires i < |s| && u == UntilSpace(s[i + 1..]) && d <= |u| && i + 1 + d < |s| && s[i + 1 + d] == '-'
    ensures d < |u|
  {
    UntilSpaceIs(s[i + 1..]);
    var rest := s[i + 1..];
    assert rest[d] == s[i + 1 + d];
  }

  lemma DigitsEndWithin(t: string)
    ensures DigitsEnd(t) <= |t|
  {
    TrimLeftShortens(t);
  }

  /** A dash that glues a name to a marker separates two runs of words, and the first
      word after it that is not mere punctuation is that marker: with its season, its
      episode, and its end unless the dash before the end glues too. */
  lemma GluedMarkerIsFreed(s: string, i: nat) returns (n: nat)
    requires Glues(s, i)
    ensures var r := SplitGlued(s);
            var before, after := Words(r[..i]), Words(r[i + 1..]);
            && Words(r) == before + after && n < |after| && (forall k :: 0 <= k < n ==> Junk(after[k]))
            && Accepts(after[n]) == Some(Kept(Accepts(UntilSpace(s[i + 1..])).value, GluesOn(s, i)))
  {
    var r := SplitGlued(s);
    GluedOpens(s);
    OpenedAfter(s, r, i + 1);
    SpaceAt(r, i);
    CutWhereGlued(s, i);
    n := FreedReads(UntilSpace(s[i + 1..]), r[i + 1..]);
  }
}
