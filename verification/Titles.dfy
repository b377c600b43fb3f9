// What a chapter's title says the chapter is. Titles are ASCII here.

module Titles {
  import opened Wrappers

  datatype Kind = Recap | Intro | Credits

  // ----------------------------------------------------------------- whitespace

  /** What `trim` removes: the white space of Unicode, as far as ASCII goes. */
  predicate Trimmable(c: char) {
    '\t' <= c <= '\r' || c == ' '
  }

  /** What `split_ascii_whitespace` splits on: the vertical tab is not among them. */
  predicate Space(c: char) {
    c == ' ' || c == '\t' || c == '\n' || c == '\r' || c as int == 12
  }

  function TrimStart(s: string): (r: string)
    ensures r != [] ==> !Trimmable(r[0])
  {
    if s != [] && Trimmable(s[0]) then TrimStart(s[1..]) else s
  }

  function TrimEnd(s: string): (r: string)
    ensures r != [] ==> !Trimmable(r[|r| - 1])
    ensures r <= s
  {
    if s != [] && Trimmable(s[|s| - 1]) then TrimEnd(s[..|s| - 1]) else s
  }

  function Lower(c: char): char {
    if 'A' <= c <= 'Z' then (c as int + 32) as char else c
  }

  function Lowered(s: string): (r: string)
    ensures |r| == |s|
    ensures forall i :: 0 <= i < |s| ==> r[i] == Lower(s[i])
  {
    seq(|s|, i requires 0 <= i < |s| => Lower(s[i]))
  }

  function Normal(title: string): string {
    Lowered(TrimEnd(TrimStart(title)))
  }

  // --------------------------------------------------------------------- tokens

  function WordEnd(t: string, i: nat): (r: nat)
    requires i <= |t|
    ensures i <= r <= |t|
    ensures forall k :: i <= k < r ==> !Space(t[k])
    ensures r < |t| ==> Space(t[r])
    decreases |t| - i
  {
    if i == |t| || Space(t[i]) then i else WordEnd(t, i + 1)
  }

  function Tokens(t: string, i: nat): seq<string>
    requires i <= |t|
    decreases |t| - i
  {
    if i == |t| then []
    else if Space(t[i]) then Tokens(t, i + 1)
    else [t[i..WordEnd(t, i)]] + Tokens(t, WordEnd(t, i))
  }

  /** The token is the needle, or the needle and then a colon. */
  predicate Word(w: string, needle: string) {
    w == needle || (|w| > |needle| && w[..|needle|] == needle && w[|needle|] == ':')
  }

  predicate Has(t: string, needle: string) {
    AnyWord(Tokens(t, 0), needle)
  }

  predicate Phrase(t: string, a: string, b: string) {
    AnyPair(Tokens(t, 0), a, b)
  }

  // --------------------------------------------------- matching on the text itself

  predicate Opens(t: string, i: nat) {
    i <= |t| && (i == 0 || Space(t[i - 1]))
  }

  predicate Closes(t: string, i: nat) {
    i == |t| || (i < |t| && (Space(t[i]) || t[i] == ':'))
  }

  predicate StandsAt(t: string, i: nat, piece: string) {
    i + |piece| <= |t| && t[i..i + |piece|] == piece
  }

  /** The needle stands at i between the white space that tokens are split on. */
  predicate Matches(t: string, needle: string, i: nat) {
    Opens(t, i) && StandsAt(t, i, needle) && Closes(t, i + |needle|)
  }

  predicate Gap(t: string, i: nat, j: nat) {
    i < j <= |t| && forall k :: i <= k < j ==> Space(t[k])
  }

  /** Two words so, a at i and b at j. */
  predicate PairMatches(t: string, a: string, b: string, i: nat, j: nat) {
    Opens(t, i) && StandsAt(t, i, a) && Gap(t, i + |a|, j) && StandsAt(t, j, b) && Closes(t, j + |b|)
  }

  predicate Solid(s: string) {
    s != [] && forall k :: 0 <= k < |s| ==> !Space(s[k]) && s[k] != ':'
  }

  /** A word starts here, or only white space stands before the next one. */
  predicate Boundary(t: string, i: nat) {
    i <= |t| && (Opens(t, i) || i == |t| || Space(t[i]))
  }

  lemma {:induction false} PastWord(t: string, i: nat, to: nat)
    requires i <= to <= |t| && forall k :: i <= k < to ==> !Space(t[k])
    ensures to <= WordEnd(t, i)
    decreases if i < to then to - i else 0
  {
    if i < to {
      PastWord(t, i + 1, to);
    }
  }

  lemma FirstChar(t: string, i: nat, piece: string)
    ensures piece != [] && StandsAt(t, i, piece) ==> t[i] == piece[0]
  {
    assert piece != [] && StandsAt(t, i, piece) ==> t[i..i + |piece|][0] == t[i];
  }

  lemma SliceOfWord(t: string, i: nat, e: nat, n: nat)
    requires i <= e <= |t| && i + n <= e
    ensures t[i..e][..n] == t[i..i + n]
  {
  }

  /** A prefix of the word that starts here stands here. */
  lemma WordPrefix(t: string, i: nat, piece: string)
    requires i <= |t| && Solid(piece)
    ensures var w := t[i..WordEnd(t, i)];
            StandsAt(t, i, piece) <==> |piece| <= |w| && w[..|piece|] == piece
  {
    var w, n := t[i..WordEnd(t, i)], |piece|;
    if n <= |w| {
      SliceOfWord(t, i, WordEnd(t, i), n);
    } else if i + n <= |t| && t[i..i + n] == piece {
      StandsInWord(t, i, piece);
    }
  }

  lemma StandsInWord(t: string, i: nat, piece: string)
    requires StandsAt(t, i, piece) && Solid(piece)
    ensures i + |piece| <= WordEnd(t, i)
  {
    forall k | i <= k < i + |piece|
      ensures !Space(t[k])
    {
      assert t[i..i + |piece|][k - i] == piece[k - i];
    }
    PastWord(t, i, i + |piece|);
  }

  lemma WordIsMatch(t: string, i: nat, needle: string)
    requires i < |t| && Opens(t, i) && !Space(t[i]) && Solid(needle)
    ensures Word(t[i..WordEnd(t, i)], needle) <==> Matches(t, needle, i)
  {
    var w, n := t[i..WordEnd(t, i)], |needle|;
    WordPrefix(t, i, needle);
    WordForm(w, needle);
    if n <= |w| {
      WordCloses(t, i, n);
    }
  }

  lemma WordCloses(t: string, i: nat, n: nat)
    requires i <= |t| && n <= |t[i..WordEnd(t, i)]|
    ensures Closes(t, i + n) <==> n == |t[i..WordEnd(t, i)]| || t[i..WordEnd(t, i)][n] == ':'
  {
    if i + n < WordEnd(t, i) {
      assert t[i..WordEnd(t, i)][n] == t[i + n];
    }
  }

  lemma WordForm(w: string, needle: string)
    ensures Word(w, needle) <==>
            |needle| <= |w| && w[..|needle|] == needle && (|w| == |needle| || w[|needle|] == ':')
  {
    if |needle| == |w| {
      assert w[..|needle|] == w;
    }
  }

  /** No match starts inside a word. */
  lemma NotInside(t: string, i: nat, j: nat, needle: string)
    requires i < |t| && !Space(t[i]) && i < j < WordEnd(t, i)
    ensures !Matches(t, needle, j)
  {
    assert !Space(t[j - 1]);
  }

  predicate AnyWord(words: seq<string>, needle: string) {
    exists k :: 0 <= k < |words| && Word(words[k], needle)
  }

  predicate AnyMatch(t: string, i: nat, needle: string) {
    exists j :: i <= j < |t| && Matches(t, needle, j)
  }

  lemma AnyWordCons(first: string, rest: seq<string>, needle: string)
    ensures AnyWord([first] + rest, needle) <==> Word(first, needle) || AnyWord(rest, needle)
  {
    var all := [first] + rest;
    if AnyWord(all, needle) {
      var k :| 0 <= k < |all| && Word(all[k], needle);
      assert k > 0 ==> all[k] == rest[k - 1];
    }
    if Word(first, needle) {
      assert Word(all[0], needle);
    }
    if AnyWord(rest, needle) {
      var k :| 0 <= k < |rest| && Word(rest[k], needle);
      assert Word(all[k + 1], needle);
    }
  }

  lemma AnyMatchSplit(t: string, i: nat, e: nat, needle: string)
    requires i < e <= |t| && forall j :: i < j < e ==> !Matches(t, needle, j)
    ensures AnyMatch(t, i, needle) <==> Matches(t, needle, i) || AnyMatch(t, e, needle)
  {
  }

  lemma {:induction false} TokensMatch(t: string, i: nat, needle: string)
    requires Boundary(t, i) && Solid(needle)
    ensures AnyWord(Tokens(t, i), needle) <==> AnyMatch(t, i, needle)
    decreases |t| - i
  {
    if i < |t| && Space(t[i]) {
      TokensMatch(t, i + 1, needle);
      AnyMatchSplit(t, i, i + 1, needle);
      FirstChar(t, i, needle);
    } else if i < |t| {
      var e := WordEnd(t, i);
      TokensMatch(t, e, needle);
      WordIsMatch(t, i, needle);
      AnyWordCons(t[i..e], Tokens(t, e), needle);
      forall j | i < j < e
        ensures !Matches(t, needle, j)
      {
        NotInside(t, i, j, needle);
      }
      AnyMatchSplit(t, i, e, needle);
    }
  }

  // -------------------------------------------------------------------- two words

  predicate PairAt(words: seq<string>, k: nat, a: string, b: string) {
    k + 1 < |words| && words[k] == a && Word(words[k + 1], b)
  }

  predicate AnyPair(words: seq<string>, a: string, b: string) {
    exists k :: 0 <= k < |words| && PairAt(words, k, a, b)
  }

  predicate PairFrom(t: string, i: nat, a: string, b: string) {
    exists j :: i < j < |t| && PairMatches(t, a, b, i, j)
  }

  predicate AnyPairMatch(t: string, i: nat, a: string, b: string) {
    exists j :: i <= j < |t| && PairFrom(t, j, a, b)
  }

  lemma AnyPairCons(first: string, rest: seq<string>, a: string, b: string)
    ensures AnyPair([first] + rest, a, b) <==> PairAt([first] + rest, 0, a, b) || AnyPair(rest, a, b)
  {
    var all := [first] + rest;
    if AnyPair(all, a, b) {
      var k :| 0 <= k < |all| && PairAt(all, k, a, b);
      assert k > 0 ==> PairAt(rest, k - 1, a, b);
    }
    if AnyPair(rest, a, b) {
      var k :| 0 <= k < |rest| && PairAt(rest, k, a, b);
      assert PairAt(all, k + 1, a, b);
    }
  }

  /** Where the next word starts. */
  function NextWord(t: string, i: nat): (r: nat)
    requires i <= |t|
    ensures i <= r <= |t|
    ensures forall k :: i <= k < r ==> Space(t[k])
    ensures r < |t| ==> !Space(t[r])
    ensures Tokens(t, i) == Tokens(t, r)
    decreases |t| - i
  {
    if i < |t| && Space(t[i]) then NextWord(t, i + 1) else i
  }

  lemma PairHere(t: string, i: nat, a: string, b: string)
    requires i < |t| && Opens(t, i) && !Space(t[i]) && Solid(a) && Solid(b)
    ensures PairAt(Tokens(t, i), 0, a, b) <==> PairFrom(t, i, a, b)
  {
    var e := WordEnd(t, i);
    var j := NextWord(t, e);
    var here := Tokens(t, i);
    assert here[0] == t[i..e] && here[1..] == Tokens(t, j);
    assert e < |t| ==> e < j;
    if j < |t| {
      assert Opens(t, j) && here[1] == t[j..WordEnd(t, j)];
      WordIsMatch(t, j, b);
      if PairAt(here, 0, a, b) {
        assert i + |a| == e && Gap(t, e, j);
        assert PairMatches(t, a, b, i, j);
      }
    }
    if PairFrom(t, i, a, b) {
      var n :| i < n < |t| && PairMatches(t, a, b, i, n);
      WordEndsAt(t, i, a);
      NextWordAt(t, e, n, b);
    }
  }

  lemma WordEndsAt(t: string, i: nat, a: string)
    requires StandsAt(t, i, a) && Solid(a) && i + |a| < |t| && Space(t[i + |a|])
    ensures WordEnd(t, i) == i + |a| && t[i..WordEnd(t, i)] == a
  {
    StandsInWord(t, i, a);
  }

  lemma {:induction false} NextWordAt(t: string, i: nat, j: nat, b: string)
    requires Gap(t, i, j) && StandsAt(t, j, b) && Solid(b)
    ensures NextWord(t, i) == j && j < |t|
    decreases |t| - i
  {
    FirstChar(t, j, b);
    if i + 1 < j {
      NextWordAt(t, i + 1, j, b);
    }
  }

  lemma AnyPairSplit(t: string, i: nat, e: nat, a: string, b: string)
    requires i < e <= |t| && forall j :: i < j < e ==> !PairFrom(t, j, a, b)
    ensures AnyPairMatch(t, i, a, b) <==> PairFrom(t, i, a, b) || AnyPairMatch(t, e, a, b)
  {
  }

  lemma NoPairInside(t: string, i: nat, j: nat, a: string, b: string)
    requires i < |t| && !Space(t[i]) && i < j < WordEnd(t, i)
    ensures !PairFrom(t, j, a, b)
  {
    assert !Space(t[j - 1]);
  }

  lemma {:induction false} PairsMatch(t: string, i: nat, a: string, b: string)
    requires Boundary(t, i) && Solid(a) && Solid(b)
    ensures AnyPair(Tokens(t, i), a, b) <==> AnyPairMatch(t, i, a, b)
    decreases |t| - i
  {
    if i < |t| && Space(t[i]) {
      PairsMatch(t, i + 1, a, b);
      AnyPairSplit(t, i, i + 1, a, b);
      FirstChar(t, i, a);
    } else if i < |t| {
      var e := WordEnd(t, i);
      PairsMatch(t, e, a, b);
      PairHere(t, i, a, b);
      AnyPairCons(t[i..e], Tokens(t, e), a, b);
      forall j | i < j < e
        ensures !PairFrom(t, j, a, b)
      {
        NoPairInside(t, i, j, a, b);
      }
      AnyPairSplit(t, i, e, a, b);
    }
  }

  // ---------------------------------------------------------- the regex it stands for

  const VERTICAL_TAB: char := 11 as char

  /** `\s`: what tokens are split on, and the vertical tab. */
  predicate RegexSpace(c: char) {
    Space(c) || c == VERTICAL_TAB
  }

  predicate RegexOpens(t: string, i: nat) {
    i <= |t| && (i == 0 || RegexSpace(t[i - 1]))
  }

  predicate RegexCloses(t: string, i: nat) {
    i == |t| || (i < |t| && (RegexSpace(t[i]) || t[i] == ':'))
  }

  /** `\s+` */
  predicate RegexGap(t: string, i: nat, j: nat) {
    i < j <= |t| && forall k :: i <= k < j ==> RegexSpace(t[k])
  }

  /** `(^|\s)needle(\s|:|$)` matches with the needle at i. */
  predicate RegexMatches(t: string, needle: string, i: nat) {
    RegexOpens(t, i) && StandsAt(t, i, needle) && RegexCloses(t, i + |needle|)
  }

  /** `(^|\s)a\s+b(\s|:|$)` matches with a at i and b at j. */
  predicate RegexPairMatches(t: string, a: string, b: string, i: nat, j: nat) {
    RegexOpens(t, i) && StandsAt(t, i, a) && RegexGap(t, i + |a|, j) && StandsAt(t, j, b) && RegexCloses(t, j + |b|)
  }

  predicate TabAt(t: string, i: int) {
    0 <= i < |t| && t[i] == VERTICAL_TAB
  }

  /** The expression matches; when `clean`, some match touches no vertical tab. */
  predicate Found(t: string, needle: string, clean: bool) {
    exists i :: 0 <= i < |t| && RegexMatches(t, needle, i) && (clean ==> !TabAt(t, i - 1) && !TabAt(t, i + |needle|))
  }

  predicate TabWithin(t: string, i: int, j: int) {
    exists k :: i <= k < j && TabAt(t, k)
  }

  predicate PairFoundAt(t: string, a: string, b: string, i: nat, clean: bool) {
    exists j :: i < j < |t| && RegexPairMatches(t, a, b, i, j)
                && (clean ==> !TabAt(t, i - 1) && !TabWithin(t, i + |a|, j) && !TabAt(t, j + |b|))
  }

  predicate PairFound(t: string, a: string, b: string, clean: bool) {
    exists i :: 0 <= i < |t| && PairFoundAt(t, a, b, i, clean)
  }

  predicate NoTab(t: string) {
    forall k :: 0 <= k < |t| ==> t[k] != VERTICAL_TAB
  }

  /** Token matching finds exactly the matches of the expression that touch no vertical
      tab: a title without one is read as the expression reads it. */
  lemma HasIsRegex(t: string, needle: string, clean: bool)
    requires Solid(needle) && (clean || NoTab(t))
    ensures Has(t, needle) <==> Found(t, needle, clean)
  {
    TokensMatch(t, 0, needle);
    if AnyMatch(t, 0, needle) {
      var i :| 0 <= i < |t| && Matches(t, needle, i);
      assert RegexMatches(t, needle, i) && !TabAt(t, i - 1) && !TabAt(t, i + |needle|);
    }
    if Found(t, needle, clean) {
      var i :| 0 <= i < |t| && RegexMatches(t, needle, i) && (clean ==> !TabAt(t, i - 1) && !TabAt(t, i + |needle|));
      assert Matches(t, needle, i);
    }
  }

  lemma CleanGap(t: string, i: nat, j: nat)
    requires j <= |t|
    ensures Gap(t, i, j) <==> RegexGap(t, i, j) && !TabWithin(t, i, j)
  {
    if RegexGap(t, i, j) && !TabWithin(t, i, j) {
      forall k | i <= k < j
        ensures Space(t[k])
      {
        assert !TabAt(t, k);
      }
    }
  }

  /** And two adjacent tokens are the matches of the two-word expression, so qualified. */
  lemma PhraseIsRegex(t: string, a: string, b: string, clean: bool)
    requires Solid(a) && Solid(b) && (clean || NoTab(t))
    ensures Phrase(t, a, b) <==> PairFound(t, a, b, clean)
  {
    PairsMatch(t, 0, a, b);
    if AnyPairMatch(t, 0, a, b) {
      var i :| 0 <= i < |t| && PairFrom(t, i, a, b);
      var j :| i < j < |t| && PairMatches(t, a, b, i, j);
      CleanGap(t, i + |a|, j);
      assert RegexPairMatches(t, a, b, i, j) && !TabAt(t, i - 1) && !TabAt(t, j + |b|);
      assert PairFoundAt(t, a, b, i, clean);
    }
    if PairFound(t, a, b, clean) {
      var i :| 0 <= i < |t| && PairFoundAt(t, a, b, i, clean);
      var j :| i < j < |t| && RegexPairMatches(t, a, b, i, j)
               && (clean ==> !TabAt(t, i - 1) && !TabWithin(t, i + |a|, j) && !TabAt(t, j + |b|));
      CleanGap(t, i + |a|, j);
      assert PairMatches(t, a, b, i, j);
      assert PairFrom(t, i, a, b);
    }
  }

  // -------------------------------------------------------------------- the verdict

  predicate IsMarker(t: string) {
    || (|t| >= 7 && t[..7] == "end of ")
    || (|t| >= 4 && t[|t| - 4..] == " end")
    || (|t| >= 6 && t[|t| - 6..] == " start")
  }

  predicate SaysRecap(t: string) {
    Has(t, "recap") || Has(t, "recaps") || Has(t, "previously")
  }

  predicate SaysIntro(t: string) {
    || Has(t, "intro") || Has(t, "introduction") || Has(t, "opening") || Has(t, "op")
    || Phrase(t, "main", "title") || Phrase(t, "main", "titles")
    || Phrase(t, "title", "sequence") || Phrase(t, "titles", "sequence")
  }

  predicate SaysCredits(t: string) {
    || Has(t, "credit") || Has(t, "credits") || Has(t, "ending")
    || Has(t, "outro") || Has(t, "closing") || Has(t, "ed")
  }

  function KindOf(title: string): Option<Kind> {
    var t := Normal(title);
    if IsMarker(t) then None
    else if SaysRecap(t) then Some(Recap)
    else if SaysIntro(t) then Some(Intro)
    else if SaysCredits(t) then Some(Credits)
    else None
  }

  predicate RecapRegex(t: string, clean: bool) {
    Found(t, "recap", clean) || Found(t, "recaps", clean) || Found(t, "previously", clean)
  }

  predicate IntroRegex(t: string, clean: bool) {
    || Found(t, "intro", clean) || Found(t, "introduction", clean) || Found(t, "opening", clean) || Found(t, "op", clean)
    || PairFound(t, "main", "title", clean) || PairFound(t, "main", "titles", clean)
    || PairFound(t, "title", "sequence", clean) || PairFound(t, "titles", "sequence", clean)
  }

  predicate CreditsRegex(t: string, clean: bool) {
    || Found(t, "credit", clean) || Found(t, "credits", clean) || Found(t, "ending", clean)
    || Found(t, "outro", clean) || Found(t, "closing", clean) || Found(t, "ed", clean)
  }

  lemma RecapIsRegex(t: string, clean: bool)
    requires clean || NoTab(t)
    ensures SaysRecap(t) <==> RecapRegex(t, clean)
  {
    HasIsRegex(t, "recap", clean);
    HasIsRegex(t, "recaps", clean);
    HasIsRegex(t, "previously", clean);
  }

  lemma IntroIsRegex(t: string, clean: bool)
    requires clean || NoTab(t)
    ensures SaysIntro(t) <==> IntroRegex(t, clean)
  {
    HasIsRegex(t, "intro", clean);
    HasIsRegex(t, "introduction", clean);
    HasIsRegex(t, "opening", clean);
    HasIsRegex(t, "op", clean);
    PhraseIsRegex(t, "main", "title", clean);
    PhraseIsRegex(t, "main", "titles", clean);
    PhraseIsRegex(t, "title", "sequence", clean);
    PhraseIsRegex(t, "titles", "sequence", clean);
  }

  lemma CreditsIsRegex(t: string, clean: bool)
    requires clean || NoTab(t)
    ensures SaysCredits(t) <==> CreditsRegex(t, clean)
  {
    HasIsRegex(t, "credit", clean);
    HasIsRegex(t, "credits", clean);
    HasIsRegex(t, "ending", clean);
    HasIsRegex(t, "outro", clean);
    HasIsRegex(t, "closing", clean);
    HasIsRegex(t, "ed", clean);
  }

  /** The verdict is the one the regular expressions give, recap before intro before
      credits: on every title when their matches may touch no vertical tab, and with no
      such proviso on every title that has none left once trimmed. */
  lemma KindIsRegex(title: string, clean: bool)
    requires clean || NoTab(Normal(title))
    ensures var t := Normal(title);
            && (KindOf(title) == Some(Recap) <==> !IsMarker(t) && RecapRegex(t, clean))
            && (KindOf(title) == Some(Intro) <==> !IsMarker(t) && !RecapRegex(t, clean) && IntroRegex(t, clean))
            && (KindOf(title) == Some(Credits) <==>
                  !IsMarker(t) && !RecapRegex(t, clean) && !IntroRegex(t, clean) && CreditsRegex(t, clean))
  {
    RecapIsRegex(Normal(title), clean);
    IntroIsRegex(Normal(title), clean);
    CreditsIsRegex(Normal(title), clean);
  }

  /** With one the two can differ: here the expression says intro, and the tokens nothing. */
  lemma TabHidesTheIntro(title: string)
    requires title == "foo" + [VERTICAL_TAB] + "intro"
    ensures KindOf(title) == None && Found(Normal(title), "intro", false)
  {
    var t := Normal(title);
    assert TrimStart(title) == title && TrimEnd(title) == title;
    assert t == title;
    assert t[4..4 + |"intro"|] == "intro";
    assert RegexMatches(t, "intro", 4);
    OneToken(t);
  }

  lemma AnotherWord(t: string, needle: string)
    requires Tokens(t, 0) == [t] && t != [] && t[0] == 'f' && needle != [] && needle[0] != 'f'
    ensures !Has(t, needle)
  {
    WordStarts(t, needle);
  }

  lemma WordStarts(w: string, needle: string)
    requires needle != []
    ensures Word(w, needle) ==> w != [] && w[0] == needle[0]
  {
    if |w| > |needle| {
      assert w[..|needle|][0] == w[0];
    }
  }

  lemma OneWord(t: string, a: string, b: string)
    requires Tokens(t, 0) == [t]
    ensures !Phrase(t, a, b)
  {
  }

  lemma NoMarker(t: string)
    requires |t| == 9 && t[0] == 'f' && t[3] == VERTICAL_TAB && t[5] == 'n'
    ensures !IsMarker(t)
  {
    assert t[..7][0] == 'f' && t[3..][0] == VERTICAL_TAB && t[5..][0] == 'n';
  }

  /** A text without white space is one token, and this one is no known word. */
  lemma OneToken(t: string)
    requires t == "foo" + [VERTICAL_TAB] + "intro"
    ensures !IsMarker(t) && !SaysRecap(t) && !SaysIntro(t) && !SaysCredits(t)
  {
    assert t[0] == 'f' && t[3] == VERTICAL_TAB && t[5] == 'n' && |t| == 9;
    NoMarker(t);
    PastWord(t, 0, |t|);
    assert t[0..|t|] == t && Tokens(t, |t|) == [];
    assert Tokens(t, 0) == [t];
    NothingSaid(t);
  }

  lemma NothingSaid(t: string)
    requires Tokens(t, 0) == [t] && t != [] && t[0] == 'f'
    ensures !SaysRecap(t) && !SaysIntro(t) && !SaysCredits(t)
  {
    AnotherWord(t, "recap");
    AnotherWord(t, "recaps");
    AnotherWord(t, "previously");
    AnotherWord(t, "intro");
    AnotherWord(t, "introduction");
    AnotherWord(t, "opening");
    AnotherWord(t, "op");
    OneWord(t, "main", "title");
    OneWord(t, "main", "titles");
    OneWord(t, "title", "sequence");
    OneWord(t, "titles", "sequence");
    AnotherWord(t, "credit");
    AnotherWord(t, "credits");
    AnotherWord(t, "ending");
    AnotherWord(t, "outro");
    AnotherWord(t, "closing");
    AnotherWord(t, "ed");
  }
}
