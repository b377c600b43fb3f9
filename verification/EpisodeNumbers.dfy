// The numbers a file name yields: the standard series parse after its three repair
// passes, and the fansub parse over tokens.

module EpisodeNumbers {
  import opened Wrappers
  import opened Markers

  /** No season is absolute numbering; an end says the file spans a range. */
  datatype Guess = Guess(season: Option<nat>, episode: nat, end: Option<nat>)

  predicate Spans(g: Guess) {
    g.end.Some? ==> g.episode < g.end.value
  }

  // ------------------------------------------------------------------ series names

  /** `parse::<u32>()`, which takes a leading plus. */
  function ParseU32(s: string): Option<nat> {
    var digits := if s != [] && s[0] == '+' then s[1..] else s;
    if AllDigits(digits) then ParseDigits(digits) else None
  }

  function FindX(s: string): (r: nat)
    ensures r <= |s|
  {
    if s == [] || s[0] == 'x' || s[0] == 'X' then 0 else 1 + FindX(s[1..])
  }

  /** `01x02`. */
  function ParseNnXnn(tok: string): Option<Marker> {
    ParseX(TrimRight(TrimLeft(tok)))
  }

  function ParseX(t: string): Option<Marker> {
    var x := FindX(t);
    if x == |t| then None
    else
      var s, e := t[..x], t[x + 1..];
      if s == [] || e == [] || |s| > 2 || |e| > 3 || ParseU32(s).None? || ParseU32(e).None? then None
      else Some(Marker(ParseU32(s).value, ParseU32(e).value, None))
  }

  function Accepts(tok: string): Option<Marker> {
    if ParseSxxEyy(tok).Some? then ParseSxxEyy(tok) else ParseNnXnn(tok)
  }

  lemma {:induction false} FindXAfterDigits(d: string, rest: string)
    requires AllDigits(d) && rest != [] && (rest[0] == 'x' || rest[0] == 'X')
    ensures FindX(d + rest) == |d|
  {
    if d == [] {
      assert d + rest == rest;
    } else {
      assert (d + rest)[1..] == d[1..] + rest;
      FindXAfterDigits(d[1..], rest);
    }
  }

  lemma CrossParses(t: string, s: string, cross: char, e: string)
    requires Digits(s, 2) && (cross == 'x' || cross == 'X') && Digits(e, 3) && t == s + ([cross] + e)
    ensures ParseX(t) == Some(Marker(Value(s), Value(e), None))
  {
    assert t[..|s|] == s && t[|s| + 1..] == e;
    FindXAfterDigits(s, [cross] + e);
    assert s[0] != '+' && e[0] != '+';
    ShortValue(s);
    ShortValue(e);
  }

  /** `1x02`, in either case: the season stands before the cross, the episode after it. */
  lemma CrossIsRead(s: string, cross: char, e: string)
    requires Digits(s, 2) && (cross == 'x' || cross == 'X') && Digits(e, 3)
    ensures Accepts(s + ([cross] + e)) == Some(Marker(Value(s), Value(e), None))
  {
    var t := s + ([cross] + e);
    assert t[0] == s[0] && t[|t| - 1] == e[|e| - 1];
    NothingTrimmed(t);
    NoSeason(t);
    CrossParses(t, s, cross, e);
  }

  lemma NoSeason(t: string)
    requires t != [] && IsDigit(t[0]) && TrimRight(TrimLeft(t)) == t
    ensures Accepts(t) == ParseX(t)
  {
  }

  function UntilSpace(s: string): string {
    if s == [] || s[0] == ' ' then [] else [s[0]] + UntilSpace(s[1..])
  }

  /** A dash that glues a name to a marker. */
  predicate Glues(s: string, i: nat) {
    0 < i < |s| && s[i] == '-' && Accepts(UntilSpace(s[i + 1..])).Some?
  }

  function SplitGlued(s: string): (r: string)
    ensures |r| == |s|
    ensures forall i :: 0 <= i < |s| ==> r[i] == if Glues(s, i) then ' ' else s[i]
  {
    seq(|s|, i requires 0 <= i < |s| => if Glues(s, i) then ' ' else s[i])
  }

  function Cleaned(stem: string): string {
    seq(|stem|, i requires 0 <= i < |stem| => if stem[i] == '.' || stem[i] == '_' then ' ' else stem[i])
  }

  function Tokens(stem: string): seq<string> {
    Words(SplitTrailing(Spaced(Joined(Words(SplitGlued(Cleaned(stem)))))))
  }

  /** The first token that is a marker. */
  function FirstMarker(tokens: seq<string>): Option<Marker> {
    if tokens == [] then None
    else if Accepts(tokens[0]).Some? then Accepts(tokens[0])
    else FirstMarker(tokens[1..])
  }

  predicate SceneName(stem: string) {
    && (forall k :: 0 <= k < |stem| ==> !IsSpace(stem[k]) && stem[k] !in "[]()")
    && '.' in stem && '-' in LastSegment(stem)
  }

  function LastSegment(stem: string): string {
    if stem == [] || stem[|stem| - 1] == '.' then [] else LastSegment(stem[..|stem| - 1]) + [stem[|stem| - 1]]
  }

  /** Three digits, a season and two of episode, never first and never last. */
  function SceneCompact(tokens: seq<string>, i: nat): Option<Marker>
    decreases |tokens| - i
  {
    if i + 1 >= |tokens| then None
    else
      var t := tokens[i];
      if |t| == 3 && AllDigits(t) && t[0] != '0' then Some(Marker(Value(t[..1]), Value(t[1..]), None))
      else SceneCompact(tokens, i + 1)
  }

  function SeriesNumbers(stem: string): Option<Guess> {
    var tokens := Tokens(stem);
    var m := if FirstMarker(tokens).Some? then FirstMarker(tokens)
             else if SceneName(stem) then SceneCompact(tokens, 1)
             else None;
    match m case None => None case Some(m) => Some(Guess(Some(m.season), m.episode, m.end))
  }

  lemma {:induction false} FirstMarkerSpans(tokens: seq<string>)
    ensures FirstMarker(tokens).Some? && FirstMarker(tokens).value.end.Some? ==>
              FirstMarker(tokens).value.episode < FirstMarker(tokens).value.end.value
  {
    if tokens != [] && Accepts(tokens[0]).None? {
      FirstMarkerSpans(tokens[1..]);
    }
  }

  lemma {:induction false} SceneIsSingle(tokens: seq<string>, i: nat)
    ensures SceneCompact(tokens, i).Some? ==> SceneCompact(tokens, i).value.end == None
    decreases |tokens| - i
  {
    if i + 1 < |tokens| && !(|tokens[i]| == 3 && AllDigits(tokens[i]) && tokens[i][0] != '0') {
      SceneIsSingle(tokens, i + 1);
    }
  }

  // ------------------------------------------------------------------ fansub names

  function Wrapped(a: nat, b: nat): nat {
    (a + b) % (U32_MAX + 1)
  }

  predicate IsYear(n: nat) {
    1900 <= n <= 2099
  }

  /** `1-26`: one to three digits on each side, strictly increasing. */
  function NumRange(t: string): (r: Option<(nat, nat)>)
    ensures r.Some? ==> r.value.0 < r.value.1 < 1000
  {
    var d := FindDash(t);
    if d == |t| then None
    else
      var a, b := t[..d], t[d + 1..];
      if a == [] || b == [] || |a| > 3 || |b| > 3 || !AllDigits(a) || !AllDigits(b) then None
      else
        ShortValue(a);
        ShortValue(b);
        if Value(b) > Value(a) then Some((Value(a), Value(b))) else None
  }

  function Roman(t: string): Option<nat> {
    match t
    case "I" => Some(1)
    case "II" => Some(2)
    case "III" => Some(3)
    case "IV" => Some(4)
    case "V" => Some(5)
    case "VI" => Some(6)
    case "VII" => Some(7)
    case "VIII" => Some(8)
    case "IX" => Some(9)
    case "X" => Some(10)
    case "XI" => Some(11)
    case "XII" => Some(12)
    case "XIII" => Some(13)
    case _ => None
  }

  /** A release designation: the band its numbers live in (none for a film), its index,
      the token the index was read from, and the end of the span it covers. */
  datatype Designator = Designator(at: nat, band: Option<nat>, index: nat, consumed: Option<nat>, span: Option<nat>,
                                   explicit: bool) {
    predicate Sane() {
      (span.Some? ==> index < span.value < 1000) && (band.Some? ==> band.value <= 120)
    }
  }

  function Upper(s: string): string {
    seq(|s|, i requires 0 <= i < |s| => if 'a' <= s[i] <= 'z' then (s[i] as int - 32) as char else s[i])
  }

  function Band(word: string): (r: Option<Option<nat>>)
    ensures r.Some? && r.value.Some? ==> r.value.value <= 120
  {
    if word == "NCOP" then Some(Some(100))
    else if word == "NCED" then Some(Some(120))
    else if word in ["OVA", "OAV", "ONA", "SP", "SPECIAL", "SPECIALS"] then Some(Some(0))
    else if word in ["MOVIE", "GEKIJOUBAN"] then Some(None)
    else None
  }

  /** Where a token's trailing digits start. */
  function DigitTail(t: string): (r: nat)
    ensures r <= |t| && AllDigits(t[r..])
    ensures r < |t| <==> t != [] && IsDigit(t[|t| - 1])
  {
    if t == [] || !IsDigit(t[|t| - 1]) then |t|
    else
      var r := DigitTail(t[..|t| - 1]);
      assert forall k :: r <= k < |t| - 1 ==> t[k] == t[..|t| - 1][r..][k - r];
      r
  }

  function DesignatorAt(tokens: seq<string>, i: nat): (r: Option<Designator>)
    requires i < |tokens|
    ensures r.Some? ==> r.value.at == i && r.value.Sane()
    ensures r.Some? ==> (r.value.explicit <==>
                           r.value.consumed.Some? || (tokens[i] != [] && IsDigit(tokens[i][|tokens[i]| - 1])))
  {
    var t := tokens[i];
    var base, digits := t[..DigitTail(t)], t[DigitTail(t)..];
    match Band(Upper(base))
    case None => None
    case Some(band) =>
      if digits != [] then
        Some(Designator(i, band, if ParseDigits(digits).Some? then ParseDigits(digits).value else 1, None, None, true))
      else if i + 1 == |tokens| then Some(Designator(i, band, 1, None, None, false))
      else Some(Following(i, band, tokens[i + 1]))
  }

  function Following(i: nat, band: Option<nat>, next: string): (r: Designator)
    requires band.Some? ==> band.value <= 120
    ensures r.at == i && r.Sane()
    ensures r.explicit <==> r.consumed.Some?
  {
    if |next| <= 4 && AllDigits(next) && !(ParseDigits(next).Some? && IsYear(ParseDigits(next).value)) then
      Designator(i, band, if ParseDigits(next).Some? then ParseDigits(next).value else 1, Some(i + 1), None, true)
    else if NumRange(next).Some? then
      Designator(i, band, NumRange(next).value.0, Some(i + 1), Some(NumRange(next).value.1), true)
    else if Roman(next).Some? then Designator(i, band, Roman(next).value, Some(i + 1), None, true)
    else Designator(i, band, 1, None, None, false)
  }

  /** The first designation, or the first with an explicit index. */
  function FindDesignator(tokens: seq<string>, i: nat, explicit: bool): (r: Option<Designator>)
    ensures r.Some? ==> r.value.at < |tokens| && DesignatorAt(tokens, r.value.at) == r && r.value.Sane()
    decreases |tokens| - i
  {
    if i >= |tokens| then None
    else
      var d := DesignatorAt(tokens, i);
      if d.Some? && (!explicit || d.value.explicit) then d else FindDesignator(tokens, i + 1, explicit)
  }

  function Designation(tokens: seq<string>): (r: Option<Designator>)
    ensures r.Some? ==> r.value.at < |tokens| && DesignatorAt(tokens, r.value.at) == r && r.value.Sane()
  {
    if FindDesignator(tokens, 0, true).Some? then FindDesignator(tokens, 0, true)
    else FindDesignator(tokens, 0, false)
  }

  /** `E01` or `EP01`. */
  function ExplicitNumber(tokens: seq<string>, i: nat): Option<nat>
    decreases |tokens| - i
  {
    if i >= |tokens| then None
    else
      var t := tokens[i];
      var rest := if t != [] && IsE(t[0]) then StripP(t[1..]) else [];
      if rest != [] && |rest| <= 4 && AllDigits(rest) then Some(Value(rest)) else ExplicitNumber(tokens, i + 1)
  }

  function StripP(s: string): string {
    if s != [] && (s[0] == 'p' || s[0] == 'P') then s[1..] else s
  }

  /** `03-a` is a part of 03. */
  function LetteredPart(t: string): Option<string> {
    var d := FindDash(t);
    if d < |t| && 1 <= d <= 4 && AllDigits(t[..d]) && |t| == d + 2
       && ('a' <= t[d + 1] <= 'z' || 'A' <= t[d + 1] <= 'Z') then Some(t[..d])
    else None
  }

  function UntilV(s: string): string {
    if s == [] || s[0] == 'v' || s[0] == 'V' then [] else [s[0]] + UntilV(s[1..])
  }

  /** What the token at i says when it is read as an episode number. */
  function NumberAt(tokens: seq<string>, i: nat): (r: Option<Guess>)
    requires i < |tokens|
    ensures r.Some? ==> Spans(r.value) && !(r.value.end.None? && IsYear(r.value.episode))
  {
    var t := tokens[i];
    if i == |tokens| - 1 && NumRange(t).Some? then
      Some(Guess(None, NumRange(t).value.0, Some(NumRange(t).value.1)))
    else
      var num := if LetteredPart(t).Some? then LetteredPart(t).value else UntilV(t);
      if num == [] || |num| > 4 || !AllDigits(num) || IsYear(Value(num)) then None
      else Some(Guess(None, Value(num), None))
  }

  function Numbers(tokens: seq<string>): (r: seq<Option<Guess>>)
    ensures |r| == |tokens| && forall i :: 0 <= i < |tokens| ==> r[i] == NumberAt(tokens, i)
  {
    seq(|tokens|, i requires 0 <= i < |tokens| => NumberAt(tokens, i))
  }

  /** Token i may be an episode number and no later one is read as any. */
  ghost predicate LastAt(numbers: seq<Option<Guess>>, owned: nat, consumed: Option<nat>, i: int) {
    && owned <= i < |numbers| && Some(i) != consumed
    && forall j :: i < j < |numbers| && Some(j) != consumed ==> numbers[j].None?
  }

  /** The last number that the show's own name does not own and no designation consumed. */
  function LastNumber(numbers: seq<Option<Guess>>, owned: nat, consumed: Option<nat>): (r: Option<Guess>)
    ensures r.Some? ==> exists i :: LastAt(numbers, owned, consumed, i) && numbers[i] == r
    ensures r.None? ==> forall i :: owned <= i < |numbers| && Some(i) != consumed ==> numbers[i].None?
  {
    if numbers == [] then None
    else
      var n := |numbers| - 1;
      if consumed != Some(n) && n >= owned && numbers[n].Some? then
        assert LastAt(numbers, owned, consumed, n);
        numbers[n]
      else
        var r := LastNumber(numbers[..n], owned, consumed);
        LastShorter(numbers, owned, consumed);
        r
  }

  lemma LastShorter(numbers: seq<Option<Guess>>, owned: nat, consumed: Option<nat>)
    requires numbers != []
    requires var n := |numbers| - 1; consumed == Some(n) || n < owned || numbers[n].None?
    ensures forall i :: LastAt(numbers[..|numbers| - 1], owned, consumed, i) ==>
              LastAt(numbers, owned, consumed, i) && numbers[i] == numbers[..|numbers| - 1][i]
  {
  }

  lemma LastIsRead(tokens: seq<string>, owned: nat, consumed: Option<nat>)
    ensures var r := LastNumber(Numbers(tokens), owned, consumed);
            r.Some? ==> Spans(r.value) && !(r.value.end.None? && IsYear(r.value.episode))
                        && exists i :: owned <= i < |tokens| && NumberAt(tokens, i) == r
  {
    var numbers := Numbers(tokens);
    var r := LastNumber(numbers, owned, consumed);
    if r.Some? {
      var i :| LastAt(numbers, owned, consumed, i) && numbers[i] == r;
      assert NumberAt(tokens, i) == r;
    }
  }

  /** A designation's slot in the specials; none for a film. */
  function Slot(d: Designator): (r: Option<Guess>)
    requires d.Sane()
    ensures r.Some? ==> Spans(r.value)
  {
    if d.band.None? then None
    else
      Some(Guess(Some(0), Wrapped(d.band.value, d.index),
                 if d.span.Some? then Some(Wrapped(d.band.value, d.span.value)) else None))
  }

  /** An explicit designation outranks any number, any number an indexless one. */
  function Decided(d: Option<Designator>, number: Option<Guess>): (r: Option<Guess>)
    requires (d.Some? ==> d.value.Sane()) && (number.Some? ==> Spans(number.value))
    ensures r.Some? ==> Spans(r.value)
  {
    if d.Some? && d.value.explicit then Slot(d.value)
    else if number.Some? then number
    else if d.Some? then Slot(d.value)
    else None
  }

  /** `owned` counts the leading tokens that spell the show's own name. */
  function AnimeNumbers(tokens: seq<string>, owned: nat): (r: Option<Guess>)
    ensures r.Some? ==> Spans(r.value)
  {
    var d := Designation(tokens);
    var consumed := if d.Some? then d.value.consumed else None;
    LastIsRead(tokens, owned, consumed);
    var number := if ExplicitNumber(tokens, 0).Some? then Some(Guess(None, ExplicitNumber(tokens, 0).value, None))
                  else LastNumber(Numbers(tokens), owned, consumed);
    Decided(d, number)
  }

  // --------------------------------------------------------------------- the promise

  /** Whatever the name, a guess that carries an end spans forward. */
  lemma EveryGuessSpans(stem: string, tokens: seq<string>, owned: nat)
    ensures SeriesNumbers(stem).Some? ==> Spans(SeriesNumbers(stem).value)
    ensures AnimeNumbers(tokens, owned).Some? ==> Spans(AnimeNumbers(tokens, owned).value)
  {
    FirstMarkerSpans(Tokens(stem));
    SceneIsSingle(Tokens(stem), 1);
  }

  /** With neither an explicit E number nor an explicit designation, an absolute number
      comes from a token that is not the show's own name, and a lone one is never a year. */
  lemma AbsoluteNumberIsNoYear(tokens: seq<string>, owned: nat)
    ensures var r := AnimeNumbers(tokens, owned);
            r.Some? && r.value.season.None? && ExplicitNumber(tokens, 0).None? ==>
              && !(r.value.end.None? && IsYear(r.value.episode))
              && exists i :: owned <= i < |tokens| && NumberAt(tokens, i) == r
  {
    var d := Designation(tokens);
    var consumed := if d.Some? then d.value.consumed else None;
    LastIsRead(tokens, owned, consumed);
  }
}
