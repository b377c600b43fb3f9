// What the fansub parse answers, said of the tokens themselves: which words designate a
// special, which tokens are numbers, and which of them wins.

module FansubNames {
  import opened Wrappers
  import opened Markers
  import opened EpisodeNumbers

  // -------------------------------------------------------------------- designations

  /** A word that designates a release, in any case of its letters, and where the numbers
      it introduces begin; a film has none. */
  predicate Word(base: string, from: Option<nat>) {
    || (Upper(base) == "NCOP" && from == Some(100))
    || (Upper(base) == "NCED" && from == Some(120))
    || (Upper(base) in ["OVA", "OAV", "ONA", "SP", "SPECIAL", "SPECIALS"] && from == Some(0))
    || (Upper(base) in ["MOVIE", "GEKIJOUBAN"] && from == None)
  }

  /** Digits after the word itself. */
  predicate Attached(t: string, base: string, index: nat) {
    && |base| < |t| && t[..|base|] == base && AllDigits(t[|base|..])
    && index == if Value(t[|base|..]) > 0xFFFF_FFFF then 1 else Value(t[|base|..])
  }

  /** The token right after the word: up to four digits that are no year, a range or a
      Roman number. */
  predicate Follows(next: string, index: nat, end: Option<nat>) {
    if |next| <= 4 && AllDigits(next) && !(1900 <= Value(next) <= 2099) then
      end == None && index == if next == "" then 1 else Value(next)
    else if NumRange(next).Some? then end.Some? && NumRange(next) == Some((index, end.value))
    else end == None && Roman(next) == Some(index)
  }

  predicate Numbered(tokens: seq<string>, i: nat, base: string, index: nat, end: Option<nat>, used: Option<nat>) {
    && i < |tokens|
    && match used
       case None => end == None && Attached(tokens[i], base, index)
       case Some(next) => next == i + 1 < |tokens| && tokens[i] == base && Follows(tokens[next], index, end)
  }

  /** Token i is such a word with a number of its own. */
  ghost predicate Designates(tokens: seq<string>, i: nat) {
    exists base, from, index, end, used :: Word(base, from) && Numbered(tokens, i, base, index, end, used)
  }

  /** Token i is such a word and nothing more. */
  predicate Bare(tokens: seq<string>, i: nat, from: Option<nat>) {
    i < |tokens| && Word(tokens[i], from)
  }

  lemma WordIsBand(base: string)
    ensures forall from :: Word(base, from) <==> Band(Upper(base)) == Some(from)
  {
  }

  lemma WordEnds(base: string, from: Option<nat>)
    requires Word(base, from)
    ensures base != [] && !IsDigit(base[|base| - 1])
  {
    var last := Upper(base)[|base| - 1];
    assert last in "PDAVSELN";
  }

  lemma {:induction false} TailOf(t: string, n: nat)
    requires n <= |t| && AllDigits(t[n..]) && (n > 0 ==> !IsDigit(t[n - 1]))
    ensures DigitTail(t) == n
  {
    if n < |t| {
      assert IsDigit(t[n..][|t| - 1 - n]);
      assert t[..|t| - 1][n..] == t[n..][..|t| - 1 - n];
      TailOf(t[..|t| - 1], n);
    }
  }

  lemma FollowsIs(i: nat, from: Option<nat>, next: string)
    requires from.Some? ==> from.value <= 120
    ensures var d := Following(i, from, next);
            forall index, end :: Follows(next, index, end) <==> d == Designator(i, from, index, Some(i + 1), end, true)
  {
    if |next| <= 4 && AllDigits(next) && next != "" {
      FourDigits(next);
    }
  }

  lemma FourDigits(s: string)
    requires AllDigits(s) && 0 < |s| <= 4
    ensures Value(s) <= 9999
  {
    ShortValue(s[..|s| - 1]);
  }

  lemma AttachedIs(t: string, base: string, index: nat)
    requires Attached(t, base, index) && DigitTail(t) == |base|
    ensures index == if ParseDigits(t[|base|..]).Some? then ParseDigits(t[|base|..]).value else 1
  {
  }

  lemma NumberedIs(tokens: seq<string>, i: nat, base: string, from: Option<nat>, index: nat, end: Option<nat>, used: Option<nat>)
    requires Word(base, from) && Numbered(tokens, i, base, index, end, used)
    ensures DesignatorAt(tokens, i) == Some(Designator(i, from, index, used, end, true))
  {
    var t := tokens[i];
    WordIsBand(base);
    WordEnds(base, from);
    TailOf(t, |base|);
    assert t[..|base|] == base;
    match used {
      case None => AttachedIs(t, base, index);
      case Some(next) => FollowsIs(i, from, tokens[next]);
    }
  }

  lemma TailAttached(tokens: seq<string>, i: nat, d: Designator, tail: nat)
    requires i < |tokens| && DesignatorAt(tokens, i) == Some(d) && tail == DigitTail(tokens[i]) < |tokens[i]|
    ensures Numbered(tokens, i, tokens[i][..tail], d.index, d.span, d.consumed)
  {
  }

  lemma TailFollowed(tokens: seq<string>, i: nat, d: Designator)
    requires i < |tokens| && DesignatorAt(tokens, i) == Some(d) && d.explicit && DigitTail(tokens[i]) == |tokens[i]|
    ensures Numbered(tokens, i, tokens[i], d.index, d.span, d.consumed)
  {
    assert tokens[i][..|tokens[i]|] == tokens[i];
    assert i + 1 < |tokens|;
    FollowsIs(i, d.band, tokens[i + 1]);
    assert Follows(tokens[i + 1], d.index, d.span);
  }

  lemma DesignatorNumbered(tokens: seq<string>, i: nat)
    requires i < |tokens| && DesignatorAt(tokens, i).Some? && DesignatorAt(tokens, i).value.explicit
    ensures Designates(tokens, i)
  {
    var t, d := tokens[i], DesignatorAt(tokens, i).value;
    var tail := DigitTail(t);
    WordIsBand(t[..tail]);
    if tail == |t| {
      assert t[..tail] == t;
      TailFollowed(tokens, i, d);
    } else {
      TailAttached(tokens, i, d, tail);
    }
  }

  lemma {:induction false} FirstDesignator(tokens: seq<string>, i: nat, k: nat, explicit: bool)
    requires k <= i < |tokens| && DesignatorAt(tokens, i).Some? && (explicit ==> DesignatorAt(tokens, i).value.explicit)
    requires forall j :: k <= j < i ==> DesignatorAt(tokens, j).None? || (explicit && !DesignatorAt(tokens, j).value.explicit)
    ensures FindDesignator(tokens, k, explicit) == DesignatorAt(tokens, i)
    decreases i - k
  {
    if k < i {
      FirstDesignator(tokens, i, k + 1, explicit);
    }
  }

  lemma {:induction false} NoDesignator(tokens: seq<string>, k: nat, explicit: bool)
    requires forall j :: k <= j < |tokens| ==> DesignatorAt(tokens, j).None? || (explicit && !DesignatorAt(tokens, j).value.explicit)
    ensures FindDesignator(tokens, k, explicit).None?
    decreases |tokens| - k
  {
    if k < |tokens| {
      NoDesignator(tokens, k + 1, explicit);
    }
  }

  lemma DesignationDecides(tokens: seq<string>, owned: nat, d: Designator)
    requires FindDesignator(tokens, 0, true) == Some(d) && d.explicit
    ensures d.Sane() && AnimeNumbers(tokens, owned) == Slot(d)
  {
  }

  /** The first word that carries a number wins over every number in the name: the answer
      is that place among the specials, and for a film no answer. */
  lemma DesignationWins(tokens: seq<string>, owned: nat, i: nat, base: string, from: Option<nat>,
                        index: nat, end: Option<nat>, used: Option<nat>)
    requires Word(base, from) && Numbered(tokens, i, base, index, end, used)
    requires forall j :: 0 <= j < i ==> !Designates(tokens, j)
    ensures from.None? ==> AnimeNumbers(tokens, owned) == None
    ensures from.Some? ==>
              AnimeNumbers(tokens, owned) ==
              Some(Guess(Some(0), (from.value + index) % 0x1_0000_0000,
                         if end.Some? then Some(from.value + end.value) else None))
  {
    NumberedIs(tokens, i, base, from, index, end, used);
    forall j | 0 <= j < i
      ensures DesignatorAt(tokens, j).None? || !DesignatorAt(tokens, j).value.explicit
    {
      if DesignatorAt(tokens, j).Some? && DesignatorAt(tokens, j).value.explicit {
        DesignatorNumbered(tokens, j);
      }
    }
    FirstDesignator(tokens, i, 0, true);
    DesignationDecides(tokens, owned, Designator(i, from, index, used, end, true));
    SlotIs(Designator(i, from, index, used, end, true));
  }

  // ------------------------------------------------------------------------- numbers

  /** One to this many digits. */
  predicate Short(d: string, most: nat) {
    1 <= |d| <= most && AllDigits(d)
  }

  ghost predicate RangeOf(t: string, a: nat, b: nat) {
    exists x, y :: Short(x, 3) && Short(y, 3) && t == x + ['-'] + y && a == Value(x) < Value(y) == b
  }

  lemma DashAfter(x: string, y: string)
    requires '-' !in x
    ensures FindDash(x + ['-'] + y) == |x|
  {
    var t := x + ['-'] + y;
    assert t[|x|] == '-';
    assert forall k :: 0 <= k < |x| ==> t[k] == x[k];
  }

  lemma RangeFound(t: string)
    requires NumRange(t).Some?
    ensures RangeOf(t, NumRange(t).value.0, NumRange(t).value.1)
  {
    var d := FindDash(t);
    var x, y := t[..d], t[d + 1..];
    assert t == x + ['-'] + y;
    assert Short(x, 3) && Short(y, 3);
  }

  lemma RangeRead(t: string, x: string, y: string)
    requires Short(x, 3) && Short(y, 3) && t == x + ['-'] + y && Value(x) < Value(y)
    ensures NumRange(t) == Some((Value(x), Value(y)))
  {
    assert '-' !in x;
    DashAfter(x, y);
    assert t[..|x|] == x && t[|x| + 1..] == y;
  }

  /** A batch marker is two short numbers around a dash, the second the greater. */
  lemma RangeIs(t: string, a: nat, b: nat)
    ensures NumRange(t) == Some((a, b)) <==> RangeOf(t, a, b)
  {
    if NumRange(t).Some? {
      RangeFound(t);
    }
    if RangeOf(t, a, b) {
      var x, y :| Short(x, 3) && Short(y, 3) && t == x + ['-'] + y && a == Value(x) < Value(y) == b;
      RangeRead(t, x, y);
    }
  }

  /** A number on its own, with its version, or a lettered part of it: `05`, `05v2`, `03-a`. */
  predicate Numeral(t: string, d: string) {
    && Short(d, 4) && d <= t
    && (|t| > |d| ==> t[|d|] == 'v' || t[|d|] == 'V' || (|t| == |d| + 2 && t[|d|] == '-' && IsLetter(t[|d| + 1])))
  }

  predicate IsLetter(c: char) {
    'a' <= c <= 'z' || 'A' <= c <= 'Z'
  }

  lemma {:induction false} UntilVIs(d: string, rest: string)
    requires AllDigits(d) && (rest != [] ==> !IsDigit(rest[0]))
    ensures var u := UntilV(d + rest);
            u == d <==> rest == [] || rest[0] == 'v' || rest[0] == 'V'
    ensures rest != [] && rest[0] != 'v' && rest[0] != 'V' ==> !AllDigits(UntilV(d + rest))
    decreases |d|
  {
    var t := d + rest;
    if d == [] {
      assert t == rest;
      if rest != [] && rest[0] != 'v' && rest[0] != 'V' {
        assert UntilV(rest)[0] == rest[0];
      }
    } else {
      assert t[1..] == d[1..] + rest;
      UntilVIs(d[1..], rest);
      assert UntilV(t) == [t[0]] + UntilV(t[1..]);
      var u := UntilV(t[1..]);
      assert ([t[0]] + u)[1..] == u && d == [d[0]] + d[1..];
      assert !AllDigits(u) ==> exists k :: 0 <= k < |u| && !IsDigit(u[k]) && ([t[0]] + u)[k + 1] == u[k];
    }
  }

  lemma NumeralIsRead(t: string, d: string)
    requires Numeral(t, d)
    ensures (if LetteredPart(t).Some? then LetteredPart(t).value else UntilV(t)) == d
  {
    var rest := t[|d|..];
    assert t == d + rest;
    UntilVIs(d, rest);
    if rest != [] && rest[0] == '-' {
      assert t == d + ['-'] + rest[1..];
      DashAfter(d, rest[1..]);
      assert t[..|d|] == d;
    } else {
      var dash := FindDash(t);
      assert forall k :: 0 <= k < |d| ==> t[k] == d[k];
      assert forall k :: 0 <= k < dash ==> t[..dash][k] == t[k];
      assert LetteredPart(t).None?;
    }
  }

  lemma ReadIsNumeral(t: string)
    requires var num := if LetteredPart(t).Some? then LetteredPart(t).value else UntilV(t); Short(num, 4)
    ensures Numeral(t, if LetteredPart(t).Some? then LetteredPart(t).value else UntilV(t))
  {
    if LetteredPart(t).None? {
      var n := DigitCount(t);
      assert t == t[..n] + t[n..];
      UntilVIs(t[..n], t[n..]);
    }
  }

  /** Token i is a number: a range when it is the last token, else a numeral that is no year. */
  ghost predicate Number(tokens: seq<string>, i: nat, n: nat, end: Option<nat>) {
    i < |tokens| &&
    if i == |tokens| - 1 && exists a, b :: RangeOf(tokens[i], a, b) then end.Some? && RangeOf(tokens[i], n, end.value)
    else end == None && !(1900 <= n <= 2099) && exists d :: Numeral(tokens[i], d) && n == Value(d)
  }

  lemma RangeKnown(t: string)
    ensures NumRange(t).Some? <==> exists a, b :: RangeOf(t, a, b)
  {
    if NumRange(t).Some? {
      RangeIs(t, NumRange(t).value.0, NumRange(t).value.1);
    }
    if a, b :| RangeOf(t, a, b) {
      RangeIs(t, a, b);
    }
  }

  lemma NumberIs(tokens: seq<string>, i: nat, n: nat, end: Option<nat>)
    requires i < |tokens|
    ensures NumberAt(tokens, i) == Some(Guess(None, n, end)) <==> Number(tokens, i, n, end)
    ensures NumberAt(tokens, i).Some? ==> NumberAt(tokens, i).value.season == None
  {
    var t := tokens[i];
    RangeKnown(t);
    if i == |tokens| - 1 && NumRange(t).Some? {
      if end.Some? {
        RangeIs(t, n, end.value);
      }
    } else {
      NumeralKnown(t, n);
    }
  }

  lemma NumeralKnown(t: string, n: nat)
    ensures var num := if LetteredPart(t).Some? then LetteredPart(t).value else UntilV(t);
            Short(num, 4) && n == Value(num) <==> exists d :: Numeral(t, d) && n == Value(d)
  {
    var num := if LetteredPart(t).Some? then LetteredPart(t).value else UntilV(t);
    if Short(num, 4) {
      ReadIsNumeral(t);
    }
    if d :| Numeral(t, d) && n == Value(d) {
      NumeralIsRead(t, d);
    }
  }

  /** `E5`, `ep05`. */
  ghost predicate ENumber(t: string, n: nat) {
    exists d :: Short(d, 4) && n == Value(d) && (t in [['e'] + d, ['E'] + d] || t in [['e', 'p'] + d, ['e', 'P'] + d, ['E', 'p'] + d, ['E', 'P'] + d])
  }

  function AfterE(t: string): string {
    if t != [] && IsE(t[0]) then StripP(t[1..]) else []
  }

  lemma ENumberIs(t: string, n: nat)
    ensures ENumber(t, n) <==> Short(AfterE(t), 4) && n == Value(AfterE(t))
  {
    if d :| Short(d, 4) && n == Value(d) && (t in [['e'] + d, ['E'] + d] || t in [['e', 'p'] + d, ['e', 'P'] + d, ['E', 'p'] + d, ['E', 'P'] + d]) {
      if |t| == |d| + 1 {
        assert t[1..] == d;
      } else {
        assert t[1..][1..] == d;
      }
    }
    if Short(AfterE(t), 4) {
      var d := AfterE(t);
      if t[1..] == d {
        assert t == [t[0]] + d;
      } else {
        assert t == [t[0], t[1]] + d;
      }
    }
  }

  lemma {:induction false} FirstENumber(tokens: seq<string>, k: nat, i: nat, n: nat)
    requires k <= i < |tokens| && ENumber(tokens[i], n) && forall j, m :: k <= j < i ==> !ENumber(tokens[j], m)
    ensures ExplicitNumber(tokens, k) == Some(n)
    decreases i - k
  {
    ENumberIs(tokens[k], n);
    if k < i {
      if Short(AfterE(tokens[k]), 4) {
        ENumberIs(tokens[k], Value(AfterE(tokens[k])));
      }
      FirstENumber(tokens, k + 1, i, n);
    }
  }

  lemma {:induction false} NoENumber(tokens: seq<string>, k: nat)
    requires forall j, m :: k <= j < |tokens| ==> !ENumber(tokens[j], m)
    ensures ExplicitNumber(tokens, k) == None
    decreases |tokens| - k
  {
    if k < |tokens| {
      if Short(AfterE(tokens[k]), 4) {
        ENumberIs(tokens[k], Value(AfterE(tokens[k])));
      }
      NoENumber(tokens, k + 1);
    }
  }

  lemma LastIs(numbers: seq<Option<Guess>>, owned: nat, i: nat)
    requires owned <= i < |numbers| && numbers[i].Some? && forall j :: i < j < |numbers| ==> numbers[j] == None
    ensures LastNumber(numbers, owned, None) == numbers[i]
  {
    var r := LastNumber(numbers, owned, None);
    if r.Some? {
      var k :| LastAt(numbers, owned, None, k) && numbers[k] == r;
    }
  }

  ghost predicate Undesignated(tokens: seq<string>) {
    forall j :: 0 <= j < |tokens| ==> !Designates(tokens, j)
  }

  ghost predicate NoNumberIn(tokens: seq<string>, from: nat) {
    forall j, n, end :: from <= j < |tokens| ==> !Number(tokens, j, n, end)
  }

  lemma NumbersNowhere(tokens: seq<string>, from: nat)
    requires NoNumberIn(tokens, from)
    ensures forall j :: from <= j < |tokens| ==> NumberAt(tokens, j).None?
  {
    forall j | from <= j < |tokens|
      ensures NumberAt(tokens, j).None?
    {
      if NumberAt(tokens, j).Some? {
        var g := NumberAt(tokens, j).value;
        NumberIs(tokens, j, g.episode, g.end);
      }
    }
  }

  lemma UndesignatedIs(tokens: seq<string>)
    requires Undesignated(tokens)
    ensures FindDesignator(tokens, 0, true) == None
    ensures Designation(tokens).Some? ==> !Designation(tokens).value.explicit && Designation(tokens).value.consumed == None
  {
    forall j | 0 <= j < |tokens|
      ensures DesignatorAt(tokens, j).None? || !DesignatorAt(tokens, j).value.explicit
    {
      if DesignatorAt(tokens, j).Some? && DesignatorAt(tokens, j).value.explicit {
        DesignatorNumbered(tokens, j);
      }
    }
    NoDesignator(tokens, 0, true);
  }

  /** Without such a word the first E number is the episode. */
  lemma ENumberWins(tokens: seq<string>, owned: nat, i: nat, n: nat)
    requires Undesignated(tokens) && i < |tokens| && ENumber(tokens[i], n)
    requires forall j, m :: 0 <= j < i ==> !ENumber(tokens[j], m)
    ensures AnimeNumbers(tokens, owned) == Some(Guess(None, n, None))
  {
    UndesignatedIs(tokens);
    FirstENumber(tokens, 0, i, n);
  }

  /** Without either the last number is, past the tokens that spell the show's own name. */
  lemma LastNumberWins(tokens: seq<string>, owned: nat, i: nat, n: nat, end: Option<nat>)
    requires Undesignated(tokens) && forall j: nat, m :: j < |tokens| ==> !ENumber(tokens[j], m)
    requires owned <= i && Number(tokens, i, n, end) && NoNumberIn(tokens, i + 1)
    ensures AnimeNumbers(tokens, owned) == Some(Guess(None, n, end))
  {
    UndesignatedIs(tokens);
    NoENumber(tokens, 0);
    NumberIs(tokens, i, n, end);
    NumbersNowhere(tokens, i + 1);
    LastIs(Numbers(tokens), owned, i);
  }

  lemma BareIs(tokens: seq<string>, j: nat)
    requires Undesignated(tokens) && j < |tokens|
    ensures forall from :: Bare(tokens, j, from) ==> DesignatorAt(tokens, j) == Some(Designator(j, from, 1, None, None, false))
    ensures DesignatorAt(tokens, j).Some? ==> Bare(tokens, j, DesignatorAt(tokens, j).value.band)
  {
    var t := tokens[j];
    if DesignatorAt(tokens, j).Some? && DesignatorAt(tokens, j).value.explicit {
      DesignatorNumbered(tokens, j);
    }
    WordIsBand(t);
    forall from | Word(t, from)
      ensures DigitTail(t) == |t|
    {
      WordEnds(t, from);
      TailOf(t, |t|);
    }
    assert DigitTail(t) == |t| ==> t[..DigitTail(t)] == t;
  }

  lemma BareFirst(tokens: seq<string>, i: nat, from: Option<nat>)
    requires Undesignated(tokens) && Bare(tokens, i, from)
    requires forall j: nat, other :: j < i ==> !Bare(tokens, j, other)
    ensures Designation(tokens) == Some(Designator(i, from, 1, None, None, false))
  {
    UndesignatedIs(tokens);
    BareIs(tokens, i);
    forall j | 0 <= j < i
      ensures DesignatorAt(tokens, j).None?
    {
      BareIs(tokens, j);
    }
    FirstDesignator(tokens, i, 0, false);
  }

  lemma BareNowhere(tokens: seq<string>)
    requires Undesignated(tokens) && forall j: nat, other :: j < |tokens| ==> !Bare(tokens, j, other)
    ensures Designation(tokens) == None
  {
    UndesignatedIs(tokens);
    forall j | 0 <= j < |tokens|
      ensures DesignatorAt(tokens, j).None?
    {
      BareIs(tokens, j);
    }
    NoDesignator(tokens, 0, false);
  }

  lemma SlotIs(d: Designator)
    requires d.Sane()
    ensures Slot(d) == if d.band.None? then None
                       else Some(Guess(Some(0), (d.band.value + d.index) % 0x1_0000_0000,
                                       if d.span.Some? then Some(d.band.value + d.span.value) else None))
  {
  }

  lemma BareDecides(tokens: seq<string>, owned: nat)
    requires ExplicitNumber(tokens, 0) == None && LastNumber(Numbers(tokens), owned, None) == None
    requires Designation(tokens).Some? ==> Designation(tokens).value.consumed == None
    ensures AnimeNumbers(tokens, owned) == if Designation(tokens).Some? then Slot(Designation(tokens).value) else None
  {
  }

  /** And without any number the first word that designates anything answers its first place. */
  lemma BareWordIsFirst(tokens: seq<string>, owned: nat, i: nat, from: Option<nat>)
    requires Undesignated(tokens) && forall j: nat, m :: j < |tokens| ==> !ENumber(tokens[j], m)
    requires NoNumberIn(tokens, owned)
    requires Bare(tokens, i, from) && forall j: nat, other :: j < i ==> !Bare(tokens, j, other)
    ensures AnimeNumbers(tokens, owned) == if from.Some? then Some(Guess(Some(0), from.value + 1, None)) else None
  {
    NoNumbers(tokens, owned);
    BareFirst(tokens, i, from);
    BareDecides(tokens, owned);
    SlotIs(Designator(i, from, 1, None, None, false));
  }

  /** With no word either there is no answer. */
  lemma NothingIsNoAnswer(tokens: seq<string>, owned: nat)
    requires Undesignated(tokens) && forall j: nat, m :: j < |tokens| ==> !ENumber(tokens[j], m)
    requires NoNumberIn(tokens, owned) && forall j: nat, other :: j < |tokens| ==> !Bare(tokens, j, other)
    ensures AnimeNumbers(tokens, owned) == None
  {
    NoNumbers(tokens, owned);
    BareNowhere(tokens);
    BareDecides(tokens, owned);
  }

  lemma NoNumbers(tokens: seq<string>, owned: nat)
    requires NoNumberIn(tokens, owned) && forall j: nat, m :: j < |tokens| ==> !ENumber(tokens[j], m)
    ensures ExplicitNumber(tokens, 0) == None && LastNumber(Numbers(tokens), owned, None) == None
  {
    NoENumber(tokens, 0);
    NumbersNowhere(tokens, owned);
  }
}
