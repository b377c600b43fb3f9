// Runs of the enrollment service: requests submitted, approved, listed and polled in
// any order, while time passes.

module EnrollmentRuns {
  import opened Wrappers
  import opened EnrollmentDesk
  import Runs

  /** A certificate signed: for which request, submitted when, by which typed code, when. */
  datatype Signing = Signing(csr: string, submittedAt: nat, code: string, at: nat)

  /** `submitted` is every request ever accepted, with its time; `signed` every
      certificate ever signed. */
  datatype World = World(desk: Desk, now: nat, submitted: set<(string, nat)>, signed: set<Signing>)

  datatype Event =
    | Submit(csr: string)
    | Approve(code: string, signs: bool)
    | List
    | Poll(fingerprint: string)
    | Tick(elapsed: nat)

  function Next(h: Hashing, ttl: nat, w: World, e: Event): World
    requires Digests(h)
  {
    var live := Live(w.desk.pending, w.now, ttl);
    match e
    case Submit(csr) =>
      var r := Submission(h, w.desk.pending, w.now, ttl, csr);
      if r.Ok? then w.(desk := w.desk.(pending := live + [r.value]), submitted := w.submitted + {(csr, w.now)})
      else w.(desk := w.desk.(pending := live))
    case Approve(code, signs) =>
      var a := Approval(h, w.desk.pending, w.now, ttl, code);
      if a.1.Some? && signs then
        w.(desk := Desk(a.0, w.desk.approved[a.1.value.fingerprint := Issued(a.1.value.csr, w.now)]),
           signed := w.signed + {Signing(a.1.value.csr, a.1.value.at, code, w.now)})
      else w.(desk := w.desk.(pending := a.0))
    case List => w.(desk := w.desk.(pending := live))
    case Poll(fingerprint) =>
      var kept := LiveIssued(w.desk.approved, w.now, ttl);
      w.(desk := Desk(if fingerprint in kept then w.desk.pending else live, kept))
    case Tick(elapsed) => w.(now := w.now + elapsed)
  }

  function Answered(ttl: nat, w: World, fingerprint: string): Answer {
    var kept := LiveIssued(w.desk.approved, w.now, ttl);
    if fingerprint in kept then Approved(kept[fingerprint].csr)
    else if Knows(Live(w.desk.pending, w.now, ttl), fingerprint) then Waiting
    else Rejected
  }

  ghost predicate Step(h: Hashing, ttl: nat, w: World, e: Event, next: World) {
    Digests(h) && next == Next(h, ttl, w, e)
  }

  const START := World(Desk([], map[]), 0, {}, {})

  ghost predicate Run(h: Hashing, ttl: nat, ws: seq<World>, es: seq<Event>) {
    Runs.Linked((w, e, next) => Step(h, ttl, w, e, next), ws, es) && ws[0] == START
  }

  // ---------------------------------------------------------------------- invariants

  /** A pending request was submitted, with this fingerprint and identity. */
  ghost predicate Genuine(h: Hashing, w: World, p: Pending) {
    && p.fingerprint == h.fingerprint(p.csr) && h.identity(p.csr) == Some(p.identity)
    && (p.csr, p.at) in w.submitted && p.at <= w.now
  }

  ghost predicate AllGenuine(h: Hashing, w: World) {
    forall p :: p in w.desk.pending ==> Genuine(h, w, p)
  }

  predicate Distinct(pending: seq<Pending>) {
    forall i, j :: 0 <= i < j < |pending| ==> pending[i].fingerprint != pending[j].fingerprint
  }

  /** A signing answered a typed code that matched a request submitted and unexpired. */
  ghost predicate Proper(h: Hashing, ttl: nat, w: World, s: Signing)
    requires Digests(h)
  {
    && Matches(h, s.code, s.csr) && h.identity(s.csr).Some?
    && (s.csr, s.submittedAt) in w.submitted && s.submittedAt <= s.at <= w.now
    && Fresh(s.submittedAt, s.at, ttl)
  }

  ghost predicate AllProper(h: Hashing, ttl: nat, w: World)
    requires Digests(h)
  {
    forall s :: s in w.signed ==> Proper(h, ttl, w, s)
  }

  /** A waiting certificate was signed, for a request with that fingerprint. */
  ghost predicate Backed(h: Hashing, w: World, fp: string)
    requires fp in w.desk.approved
  {
    var issued := w.desk.approved[fp];
    && fp == h.fingerprint(issued.csr)
    && exists s :: s in w.signed && s.csr == issued.csr && s.at == issued.at
  }

  ghost predicate AllBacked(h: Hashing, w: World) {
    forall fp :: fp in w.desk.approved ==> Backed(h, w, fp)
  }

  ghost predicate Good(h: Hashing, ttl: nat, w: World) {
    && Digests(h)
    && |w.desk.pending| <= MAX_PENDING && Distinct(w.desk.pending)
    && AllGenuine(h, w) && AllProper(h, ttl, w) && AllBacked(h, w)
  }

  lemma {:induction false} LiveDistinct(pending: seq<Pending>, now: nat, ttl: nat)
    requires Distinct(pending)
    ensures Distinct(Live(pending, now, ttl))
  {
    if pending != [] {
      var short, last := pending[..|pending| - 1], pending[|pending| - 1];
      LiveDistinct(short, now, ttl);
      forall p | p in Live(short, now, ttl)
        ensures p.fingerprint != last.fingerprint
      {
        assert p in short;
      }
    }
  }

  lemma AppendDistinct(pending: seq<Pending>, p: Pending)
    requires Distinct(pending) && !Knows(pending, p.fingerprint)
    ensures Distinct(pending + [p])
  {
  }

  /** What an approval leaves is part of what was live. */
  lemma ApprovalKeeps(h: Hashing, pending: seq<Pending>, now: nat, ttl: nat, code: string)
    requires Digests(h) && Distinct(pending)
    ensures var a := Approval(h, pending, now, ttl, code);
            && Distinct(a.0) && |a.0| <= |pending| && (forall p :: p in a.0 ==> p in pending)
            && (a.1.Some? ==> a.1.value in pending && a.1.value !in a.0 && Fresh(a.1.value.at, now, ttl)
                              && Matches(h, code, a.1.value.csr))
  {
    LiveDistinct(pending, now, ttl);
    var live := Live(pending, now, ttl);
    if MatchIndex(h, live, code, 0).Some? {
      var k := MatchIndex(h, live, code, 0).value;
      assert live[k] in live;
      forall p | p in Without(live, k)
        ensures p in live && p != live[k]
      {
      }
    }
  }

  lemma PendingKept(h: Hashing, ttl: nat, w: World, e: Event)
    requires Good(h, ttl, w)
    ensures var next := Next(h, ttl, w, e);
            |next.desk.pending| <= MAX_PENDING && Distinct(next.desk.pending) && AllGenuine(h, next)
  {
    var next := Next(h, ttl, w, e);
    LiveDistinct(w.desk.pending, w.now, ttl);
    match e {
      case Submit(csr) =>
        var r := Submission(h, w.desk.pending, w.now, ttl, csr);
        if r.Ok? {
          AppendDistinct(Live(w.desk.pending, w.now, ttl), r.value);
        }
      case Approve(code, signs) =>
        ApprovalKeeps(h, w.desk.pending, w.now, ttl, code);
      case _ =>
    }
    forall p | p in next.desk.pending
      ensures Genuine(h, next, p)
    {
      if p in w.desk.pending {
        assert Genuine(h, w, p);
      }
    }
  }

  lemma SignedKept(h: Hashing, ttl: nat, w: World, e: Event)
    requires Good(h, ttl, w)
    ensures AllProper(h, ttl, Next(h, ttl, w, e)) && AllBacked(h, Next(h, ttl, w, e))
  {
    var next := Next(h, ttl, w, e);
    if e.Approve? {
      ApprovalKeeps(h, w.desk.pending, w.now, ttl, e.code);
    }
    forall s | s in next.signed
      ensures Proper(h, ttl, next, s)
    {
      if s in w.signed {
        assert Proper(h, ttl, w, s);
      } else {
        var p := Approval(h, w.desk.pending, w.now, ttl, e.code).1.value;
        assert Genuine(h, w, p);
      }
    }
    forall fp | fp in next.desk.approved
      ensures Backed(h, next, fp)
    {
      if fp in w.desk.approved && next.desk.approved[fp] == w.desk.approved[fp] {
        assert Backed(h, w, fp);
      } else {
        var p := Approval(h, w.desk.pending, w.now, ttl, e.code).1.value;
        assert Genuine(h, w, p);
        assert Signing(p.csr, p.at, e.code, w.now) in next.signed;
      }
    }
  }

  lemma AlwaysGood(h: Hashing, ttl: nat, ws: seq<World>, es: seq<Event>, k: nat)
    requires Digests(h) && Run(h, ttl, ws, es) && k < |ws|
    ensures Good(h, ttl, ws[k])
  {
    var step := (w, e, next) => Step(h, ttl, w, e, next);
    var good := w => Good(h, ttl, w);
    forall w, e, next | good(w) && step(w, e, next)
      ensures good(next)
    {
      PendingKept(h, ttl, w, e);
      SignedKept(h, ttl, w, e);
    }
    Runs.KeptThroughout(step, good, ws, es, 0, k);
  }

  // ------------------------------------------------------------------- the promises

  /** In every run: pending fingerprints stay distinct and at most 32, and every
      certificate ever signed was for a request that had been submitted, carried an
      identity, had not expired, and whose own digits were the ones typed. */
  lemma SignedOnlyForItsOwnCode(h: Hashing, ttl: nat, ws: seq<World>, es: seq<Event>, k: nat)
    requires Digests(h) && Run(h, ttl, ws, es) && k < |ws|
    ensures |ws[k].desk.pending| <= MAX_PENDING && Distinct(ws[k].desk.pending)
    ensures forall s :: s in ws[k].signed ==>
              && Normalize(s.code) == h.digest(s.csr)[..8] && h.identity(s.csr).Some?
              && (s.csr, s.submittedAt) in ws[k].submitted
              && s.submittedAt <= s.at < s.submittedAt + ttl
  {
    AlwaysGood(h, ttl, ws, es, k);
    forall s | s in ws[k].signed
      ensures Normalize(s.code) == h.digest(s.csr)[..8]
      ensures h.identity(s.csr).Some? && (s.csr, s.submittedAt) in ws[k].submitted
      ensures s.submittedAt <= s.at < s.submittedAt + ttl
    {
      assert Proper(h, ttl, ws[k], s);
      MatchesItsOwnDigits(h, s.code, s.csr);
    }
  }

  /** A code that matches no pending request signs nothing, and takes a request away
      only when it was the only one. */
  lemma MismatchSignsNothing(h: Hashing, ttl: nat, w: World, code: string, signs: bool)
    requires Digests(h)
    requires forall p :: p in Live(w.desk.pending, w.now, ttl) ==> Normalize(code) != h.digest(p.csr)[..8]
    ensures var next, live := Next(h, ttl, w, Approve(code, signs)), Live(w.desk.pending, w.now, ttl);
            && next.signed == w.signed && next.desk.approved == w.desk.approved
            && next.desk.pending == if |live| == 1 then [] else live
  {
    var live := Live(w.desk.pending, w.now, ttl);
    forall p | p in live
      ensures !Matches(h, code, p.csr)
    {
      MatchesItsOwnDigits(h, code, p.csr);
    }
  }

  /** A code that matches takes exactly one request away, the oldest it matches. */
  lemma MatchTakesTheOldest(h: Hashing, ttl: nat, w: World, code: string, signs: bool, k: nat)
    requires Digests(h) && FirstMatch(h, Live(w.desk.pending, w.now, ttl), code, k)
    ensures var next, live := Next(h, ttl, w, Approve(code, signs)), Live(w.desk.pending, w.now, ttl);
            && next.desk.pending == Without(live, k)
            && next.signed == w.signed + (if signs then {Signing(live[k].csr, live[k].at, code, w.now)} else {})
  {
    var live := Live(w.desk.pending, w.now, ttl);
    var found := MatchIndex(h, live, code, 0);
    assert found.Some? ==> found.value == k by {
      if found.Some? {
        assert FirstMatch(h, live, code, found.value);
      }
    }
  }

  /** A poll is answered with a certificate only if one was signed within the time limit
      for a request of that fingerprint. */
  lemma PolledCertificateWasSigned(h: Hashing, ttl: nat, ws: seq<World>, es: seq<Event>, k: nat, fingerprint: string)
    requires Digests(h) && Run(h, ttl, ws, es) && k < |ws|
    requires Answered(ttl, ws[k], fingerprint).Approved?
    ensures var csr := Answered(ttl, ws[k], fingerprint).csr;
            && h.fingerprint(csr) == fingerprint
            && exists s :: s in ws[k].signed && s.csr == csr && s.at <= ws[k].now < s.at + ttl
  {
    AlwaysGood(h, ttl, ws, es, k);
    var issued := ws[k].desk.approved[fingerprint];
    assert Backed(h, ws[k], fingerprint);
    var s :| s in ws[k].signed && s.csr == issued.csr && s.at == issued.at;
    assert Proper(h, ttl, ws[k], s);
  }

  /** The certificate of a fingerprint, no older than a given time. */
  ghost predicate HeldSince(ttl: nat, w: World, fp: string, at: nat) {
    && at <= w.now && (w.now < at + ttl ==> fp in w.desk.approved && w.desk.approved[fp].at >= at)
    && InThePast(w)
  }

  ghost predicate InThePast(w: World) {
    forall f :: f in w.desk.approved ==> w.desk.approved[f].at <= w.now
  }

  lemma HeldOn(h: Hashing, ttl: nat, w: World, e: Event, fp: string, at: nat)
    requires Digests(h) && HeldSince(ttl, w, fp, at)
    ensures HeldSince(ttl, Next(h, ttl, w, e), fp, at)
  {
  }

  /** Once signed, a certificate is there for every poll until the time limit. */
  lemma CertificateWaits(h: Hashing, ttl: nat, ws: seq<World>, es: seq<Event>, i: nat, j: nat)
    requires Digests(h) && Run(h, ttl, ws, es) && i < j < |ws| && es[i].Approve? && es[i].signs
    requires Approval(h, ws[i].desk.pending, ws[i].now, ttl, es[i].code).1.Some?
    requires ws[j].now < ws[i].now + ttl
    ensures var p := Approval(h, ws[i].desk.pending, ws[i].now, ttl, es[i].code).1.value;
            Answered(ttl, ws[j], p.fingerprint).Approved?
  {
    var fp := Approval(h, ws[i].desk.pending, ws[i].now, ttl, es[i].code).1.value.fingerprint;
    var at := ws[i].now;
    var step := (w, e, next) => Step(h, ttl, w, e, next);
    var good := w => HeldSince(ttl, w, fp, at);
    assert step(ws[i], es[i], ws[i + 1]);
    IssuedInThePast(h, ttl, ws, es, i);
    assert good(ws[i + 1]);
    forall w, e, next | good(w) && step(w, e, next)
      ensures good(next)
    {
      HeldOn(h, ttl, w, e, fp, at);
    }
    Runs.KeptThroughout(step, good, ws, es, i + 1, j);
  }

  lemma IssuedInThePast(h: Hashing, ttl: nat, ws: seq<World>, es: seq<Event>, k: nat)
    requires Digests(h) && Run(h, ttl, ws, es) && k < |ws|
    ensures InThePast(ws[k])
  {
    AlwaysGood(h, ttl, ws, es, k);
    forall f | f in ws[k].desk.approved
      ensures ws[k].desk.approved[f].at <= ws[k].now
    {
      assert Backed(h, ws[k], f);
      var s :| s in ws[k].signed && s.csr == ws[k].desk.approved[f].csr && s.at == ws[k].desk.approved[f].at;
      assert Proper(h, ttl, ws[k], s);
    }
  }
}
