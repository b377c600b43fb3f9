// Approve-by-code enrollment: what one call does to the pending requests and to the
// certificates waiting to be fetched.

module EnrollmentDesk {
  import opened Wrappers

  datatype Identity = Identity(moduleType: string, moduleId: string, name: string)

  /** What is computed from a request's bytes: the base32 digest, the fingerprint, and
      the identity of a well-signed request. */
  datatype Hashing = Hashing(digest: string -> string, fingerprint: string -> string,
                             identity: string -> Option<Identity>)

  predicate Base32(c: char) {
    'A' <= c <= 'Z' || '2' <= c <= '7'
  }

  ghost predicate Digests(h: Hashing) {
    forall csr :: |h.digest(csr)| >= 8 && forall k :: 0 <= k < |h.digest(csr)| ==> Base32(h.digest(csr)[k])
  }

  // ---------------------------------------------------------------------- the code

  function Upper(c: char): char {
    if 'a' <= c <= 'z' then (c as int - 32) as char else c
  }

  /** Without dashes and without case. */
  function Normalize(s: string): string {
    if s == [] then []
    else if s[0] == '-' then Normalize(s[1..])
    else [Upper(s[0])] + Normalize(s[1..])
  }

  function Code(h: Hashing, csr: string): string
    requires |h.digest(csr)| >= 8
  {
    h.digest(csr)[0..4] + "-" + h.digest(csr)[4..8]
  }

  predicate Matches(h: Hashing, entered: string, csr: string)
    requires |h.digest(csr)| >= 8
  {
    Normalize(entered) == Normalize(Code(h, csr))
  }

  lemma NormalizeStep(c: char, rest: string)
    ensures Normalize([c] + rest) == (if c == '-' then [] else [Upper(c)]) + Normalize(rest)
  {
    assert ([c] + rest)[1..] == rest;
  }

  lemma NormalizePrefixed(c: char, x: string, b: string)
    requires Normalize(x + b) == Normalize(x) + Normalize(b)
    ensures Normalize([c] + (x + b)) == Normalize([c] + x) + Normalize(b)
  {
    NormalizeStep(c, x);
    NormalizeStep(c, x + b);
  }

  lemma {:induction false} NormalizeConcat(a: string, b: string)
    ensures Normalize(a + b) == Normalize(a) + Normalize(b)
  {
    if a == [] {
      assert a + b == b;
    } else {
      var c, x := a[0], a[1..];
      NormalizeConcat(x, b);
      NormalizePrefixed(c, x, b);
      assert a == [c] + x;
      assert a + b == [c] + (x + b);
    }
  }

  lemma {:induction false} Base32IsNormal(s: string)
    requires forall k :: 0 <= k < |s| ==> Base32(s[k])
    ensures Normalize(s) == s
  {
    if s != [] {
      Base32IsNormal(s[1..]);
    }
  }

  /** A typed code matches exactly when, dashes and case aside, it is the first eight
      digits of the request's own digest. */
  lemma MatchesItsOwnDigits(h: Hashing, entered: string, csr: string)
    requires Digests(h)
    ensures Matches(h, entered, csr) <==> Normalize(entered) == h.digest(csr)[..8]
  {
    var d := h.digest(csr);
    NormalizeConcat(d[0..4] + "-", d[4..8]);
    NormalizeConcat(d[0..4], "-");
    Base32IsNormal(d[0..4]);
    Base32IsNormal(d[4..8]);
    assert d[0..4] + [] + d[4..8] == d[..8];
  }

  /** A dash may be left out or put anywhere. */
  lemma DashesAreFree(h: Hashing, a: string, b: string, csr: string)
    requires |h.digest(csr)| >= 8
    ensures Matches(h, a + "-" + b, csr) <==> Matches(h, a + b, csr)
  {
    NormalizeConcat(a + "-", b);
    NormalizeConcat(a, "-");
    NormalizeConcat(a, b);
  }

  // ------------------------------------------------------------------------ the desk

  datatype Pending = Pending(csr: string, fingerprint: string, identity: Identity, at: nat)

  /** A certificate waiting to be fetched: the request it was signed for, and when. */
  datatype Issued = Issued(csr: string, at: nat)

  datatype Desk = Desk(pending: seq<Pending>, approved: map<string, Issued>)

  const MAX_PENDING: nat := 32

  datatype Refusal = InvalidCsr | Duplicate | Full | NoMatch | SigningFailed

  predicate Fresh(at: nat, now: nat, ttl: nat) {
    now < at + ttl
  }

  function Live(pending: seq<Pending>, now: nat, ttl: nat): (r: seq<Pending>)
    ensures forall p :: p in r <==> p in pending && Fresh(p.at, now, ttl)
    ensures |r| <= |pending|
  {
    if pending == [] then []
    else
      Live(pending[..|pending| - 1], now, ttl)
      + (if Fresh(pending[|pending| - 1].at, now, ttl) then [pending[|pending| - 1]] else [])
  }

  /** The requests `from` picks, in order, are all of those whose time is not up. */
  ghost predicate Picks(before: seq<Pending>, after: seq<Pending>, from: seq<nat>, now: nat, ttl: nat) {
    && |from| == |after| && (forall k :: 0 <= k < |from| ==> from[k] < |before| && after[k] == before[from[k]])
    && (forall j, k :: 0 <= j < k < |from| ==> from[j] < from[k])
    && (forall i :: 0 <= i < |before| ==> (i in from <==> now < before[i].at + ttl))
  }

  lemma PicksOneMore(before: seq<Pending>, after: seq<Pending>, from: seq<nat>, now: nat, ttl: nat, p: Pending)
    requires Picks(before, after, from, now, ttl) && now < p.at + ttl
    ensures Picks(before + [p], after + [p], from + [|before|], now, ttl)
  {
    assert |before| !in from;
    assert |before| in from + [|before|];
  }

  lemma PicksNoMore(before: seq<Pending>, after: seq<Pending>, from: seq<nat>, now: nat, ttl: nat, p: Pending)
    requires Picks(before, after, from, now, ttl) && now >= p.at + ttl
    ensures Picks(before + [p], after, from, now, ttl)
  {
    assert |before| !in from;
  }

  lemma LiveStep(short: seq<Pending>, p: Pending, now: nat, ttl: nat)
    ensures Live(short + [p], now, ttl) == if now < p.at + ttl then Live(short, now, ttl) + [p] else Live(short, now, ttl)
  {
    assert (short + [p])[..|short|] == short;
  }

  /** What is left when the time of some is up: the same requests in the same order, less those. */
  lemma {:induction false} ExpiryPicks(pending: seq<Pending>, now: nat, ttl: nat) returns (from: seq<nat>)
    ensures Picks(pending, Live(pending, now, ttl), from, now, ttl)
  {
    if pending == [] {
      return [];
    }
    var short, p := pending[..|pending| - 1], pending[|pending| - 1];
    assert pending == short + [p];
    var before := ExpiryPicks(short, now, ttl);
    from := NextPicked(short, p, before, now, ttl);
  }

  lemma NextPicked(short: seq<Pending>, p: Pending, before: seq<nat>, now: nat, ttl: nat) returns (from: seq<nat>)
    requires Picks(short, Live(short, now, ttl), before, now, ttl)
    ensures Picks(short + [p], Live(short + [p], now, ttl), from, now, ttl)
  {
    var kept := Live(short, now, ttl);
    LiveStep(short, p, now, ttl);
    if now < p.at + ttl {
      PicksOneMore(short, kept, before, now, ttl, p);
      from := before + [|short|];
    } else {
      PicksNoMore(short, kept, before, now, ttl, p);
      from := before;
    }
  }

  /** A request is taken exactly when it is well signed, none of its fingerprint waits and
      fewer than 32 wait; a request that is not says why. */
  lemma SubmissionSays(h: Hashing, pending: seq<Pending>, now: nat, ttl: nat, csr: string)
    ensures var live := Live(pending, now, ttl);
            var waiting := exists p :: p in live && p.fingerprint == h.fingerprint(csr);
            match Submission(h, pending, now, ttl, csr)
            case Ok(p) => h.identity(csr) == Some(p.identity) && !waiting && |live| < 32
                          && p.csr == csr && p.fingerprint == h.fingerprint(csr) && p.at == now
            case Err(e) => (e == InvalidCsr <==> h.identity(csr).None?)
                           && (e == Duplicate <==> h.identity(csr).Some? && waiting)
                           && (e == Full <==> h.identity(csr).Some? && !waiting && |live| >= 32)
  {
    var live := Live(pending, now, ttl);
    assert forall k :: 0 <= k < |live| ==> live[k] in live;
  }

  predicate Knows(pending: seq<Pending>, fingerprint: string) {
    exists k :: 0 <= k < |pending| && pending[k].fingerprint == fingerprint
  }

  function Submission(h: Hashing, pending: seq<Pending>, now: nat, ttl: nat, csr: string): Result<Pending, Refusal> {
    if h.identity(csr).None? then Err(InvalidCsr)
    else if Knows(Live(pending, now, ttl), h.fingerprint(csr)) then Err(Duplicate)
    else if |Live(pending, now, ttl)| >= MAX_PENDING then Err(Full)
    else Ok(Pending(csr, h.fingerprint(csr), h.identity(csr).value, now))
  }

  /** The first pending request the typed code matches. */
  ghost predicate FirstMatch(h: Hashing, pending: seq<Pending>, code: string, k: nat)
    requires Digests(h)
  {
    && k < |pending| && Matches(h, code, pending[k].csr)
    && forall j :: 0 <= j < k ==> !Matches(h, code, pending[j].csr)
  }

  function MatchIndex(h: Hashing, pending: seq<Pending>, code: string, k: nat): (r: Option<nat>)
    requires Digests(h) && k <= |pending|
    requires forall j :: 0 <= j < k ==> !Matches(h, code, pending[j].csr)
    ensures r.Some? ==> FirstMatch(h, pending, code, r.value)
    ensures r.None? ==> forall j :: 0 <= j < |pending| ==> !Matches(h, code, pending[j].csr)
    decreases |pending| - k
  {
    if k == |pending| then None
    else if Matches(h, code, pending[k].csr) then Some(k)
    else MatchIndex(h, pending, code, k + 1)
  }

  function Without(pending: seq<Pending>, k: nat): seq<Pending>
    requires k < |pending|
  {
    pending[..k] + pending[k + 1..]
  }

  /** The pending requests after an approval, and the one it was for. */
  function Approval(h: Hashing, pending: seq<Pending>, now: nat, ttl: nat, code: string): (seq<Pending>, Option<Pending>)
    requires Digests(h)
  {
    var live := Live(pending, now, ttl);
    match MatchIndex(h, live, code, 0)
    case Some(k) => (Without(live, k), Some(live[k]))
    case None => (if |live| == 1 then [] else live, None)
  }

  function LiveIssued(approved: map<string, Issued>, now: nat, ttl: nat): map<string, Issued> {
    map fp | fp in approved && Fresh(approved[fp].at, now, ttl) :: approved[fp]
  }

  datatype Answer = Approved(csr: string) | Waiting | Rejected
}

module Enrollment {
  import opened Wrappers
  import opened EnrollmentDesk

  class Enrollments {
    var pending: seq<Pending>
    const hashing: Hashing
    const ttl: nat

    constructor (hashing: Hashing, ttl: nat)
      ensures pending == [] && this.hashing == hashing && this.ttl == ttl
    {
      this.hashing, this.ttl := hashing, ttl;
      pending := [];
    }

    method Expire(now: nat)
      modifies this
      ensures pending == Live(old(pending), now, ttl)
    {
      var kept: seq<Pending> := [];
      for k := 0 to |pending|
        invariant pending == old(pending) && kept == Live(pending[..k], now, ttl)
      {
        assert pending[..k + 1][..k] == pending[..k];
        if Fresh(pending[k].at, now, ttl) {
          kept := kept + [pending[k]];
        }
      }
      assert pending[..|pending|] == pending;
      pending := kept;
    }

    method Submit(now: nat, csr: string) returns (r: Result<Pending, Refusal>)
      modifies this
      ensures r == Submission(hashing, old(pending), now, ttl, csr)
      ensures pending == Live(old(pending), now, ttl) + (if r.Ok? then [r.value] else [])
    {
      Expire(now);
      var identity := hashing.identity(csr);
      if identity.None? {
        return Err(InvalidCsr);
      }
      var fingerprint := hashing.fingerprint(csr);
      for k := 0 to |pending|
        invariant pending == Live(old(pending), now, ttl)
        invariant forall j :: 0 <= j < k ==> pending[j].fingerprint != fingerprint
      {
        if pending[k].fingerprint == fingerprint {
          return Err(Duplicate);
        }
      }
      if |pending| >= MAX_PENDING {
        return Err(Full);
      }
      var p := Pending(csr, fingerprint, identity.value, now);
      pending := pending + [p];
      return Ok(p);
    }

    method Position(code: string) returns (found: Option<nat>)
      requires Digests(hashing)
      ensures found == MatchIndex(hashing, pending, code, 0)
    {
      for k := 0 to |pending|
        invariant forall j :: 0 <= j < k ==> !Matches(hashing, code, pending[j].csr)
        invariant MatchIndex(hashing, pending, code, 0) == MatchIndex(hashing, pending, code, k)
      {
        if Matches(hashing, code, pending[k].csr) {
          return Some(k);
        }
      }
      return None;
    }

    /** `signs` is whether the certificate authority could sign. */
    method Approve(now: nat, code: string, signs: bool) returns (r: Result<Pending, Refusal>)
      requires Digests(hashing)
      modifies this
      ensures pending == Approval(hashing, old(pending), now, ttl, code).0
      ensures var found := Approval(hashing, old(pending), now, ttl, code).1;
              r == if found.None? then Err(NoMatch) else if signs then Ok(found.value) else Err(SigningFailed)
    {
      Expire(now);
      var found := Position(code);
      if found.None? {
        if |pending| == 1 {
          pending := [];
        }
        return Err(NoMatch);
      }
      var p := pending[found.value];
      pending := Without(pending, found.value);
      return if signs then Ok(p) else Err(SigningFailed);
    }
  }

  class Service {
    const enrollments: Enrollments
    var approved: map<string, Issued>

    constructor (hashing: Hashing, ttl: nat)
      ensures fresh(enrollments) && enrollments.hashing == hashing && enrollments.ttl == ttl
      ensures enrollments.pending == [] && approved == map[]
    {
      enrollments := new Enrollments(hashing, ttl);
      approved := map[];
    }

    method Approve(now: nat, code: string, signs: bool) returns (r: Result<Pending, Refusal>)
      requires Digests(enrollments.hashing)
      modifies this, enrollments
      ensures var found := Approval(enrollments.hashing, old(enrollments.pending), now, enrollments.ttl, code);
              && enrollments.pending == found.0
              && approved == (if found.1.Some? && signs then
                                old(approved)[found.1.value.fingerprint := Issued(found.1.value.csr, now)]
                              else old(approved))
              && r == if found.1.None? then Err(NoMatch) else if signs then Ok(found.1.value) else Err(SigningFailed)
    {
      r := enrollments.Approve(now, code, signs);
      if r.Ok? {
        approved := approved[r.value.fingerprint := Issued(r.value.csr, now)];
      }
    }

    method Status(now: nat, fingerprint: string) returns (answer: Answer)
      modifies this, enrollments
      ensures approved == LiveIssued(old(approved), now, enrollments.ttl)
      ensures fingerprint in approved ==>
                answer == Approved(approved[fingerprint].csr) && enrollments.pending == old(enrollments.pending)
      ensures fingerprint !in approved ==>
                && enrollments.pending == Live(old(enrollments.pending), now, enrollments.ttl)
                && answer == if Knows(enrollments.pending, fingerprint) then Waiting else Rejected
    {
      approved := map fp | fp in approved && Fresh(approved[fp].at, now, enrollments.ttl) :: approved[fp];
      if fingerprint in approved {
        return Approved(approved[fingerprint].csr);
      }
      enrollments.Expire(now);
      for k := 0 to |enrollments.pending|
        invariant enrollments.pending == Live(old(enrollments.pending), now, enrollments.ttl)
        invariant approved == LiveIssued(old(approved), now, enrollments.ttl)
        invariant forall j :: 0 <= j < k ==> enrollments.pending[j].fingerprint != fingerprint
      {
        if enrollments.pending[k].fingerprint == fingerprint {
          return Waiting;
        }
      }
      return Rejected;
    }
  }
}
