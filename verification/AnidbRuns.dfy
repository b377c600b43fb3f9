// Runs of any number of AniDB clients over one state file, with their logins
// interleaved step by step, crashes and restarts.

module AnidbRuns {
  import opened Wrappers
  import opened AnidbSession
  import Runs

  /** Where a client stands. A login passes the ban gate, reads the file and binds a
      port, then sends its packets; `Ready` holds the session lookups use. */
  datatype Client =
    | Gated(credential: Credential)
    | Bound(credential: Credential, session: string, resume: Option<nat>, port: nat)
    | Authenticating(credential: Credential, port: nat)
    | Ready(session: string)

  /** A session the server handed out in answer to AUTH, and who it was for. */
  datatype Grant = Grant(session: string, credential: Credential, port: nat)

  /** `logins` lists every packet sent by a login, `grants` every session ever handed
      out, `ids` every client number used. */
  datatype World = World(file: State, now: int, clients: map<nat, Client>,
                         logins: seq<Packet>, grants: set<Grant>, ids: set<nat>)

  datatype Event =
    | Begin(c: nat, credential: Credential)
    | Load(c: nat, port: nat)
    | Encrypt(c: nat, reply: Reply)
    | Probe(c: nat, reply: Reply)
    | Authenticate(c: nat, reply: Reply)
    | Lookup(c: nat, reply: Reply)
    | Forget
    | Crash
    | Tick(secs: nat)

  predicate Possible(w: World, e: Event) {
    match e
    case Begin(c, _) => c !in w.ids
    case Load(c, _) => c in w.clients && w.clients[c].Gated?
    case Encrypt(c, _) => c in w.clients && w.clients[c].Bound?
    case Probe(c, _) => c in w.clients && w.clients[c].Bound?
    case Authenticate(c, _) => c in w.clients && w.clients[c].Authenticating?
    case Lookup(c, _) => c in w.clients && w.clients[c].Ready?
    case _ => true
  }

  function Next(w: World, e: Event): World
    requires Possible(w, e)
  {
    match e
    case Begin(c, credential) =>
      if BanRemaining(w.file, w.now).Some? then w.(ids := w.ids + {c})
      else w.(ids := w.ids + {c}, clients := w.clients[c := Gated(credential)])
    case Load(c, port) =>
      var credential := w.clients[c].credential;
      w.(clients := w.clients[c := Bound(credential, w.file.session, ResumablePort(w.file, credential), port)])
    case Encrypt(c, reply) =>
      var sent := w.(logins := w.logins + [EncryptPacket]);
      if SaysBanned(reply) then sent.(file := Banned(w.file, w.now), clients := w.clients - {c})
      else if reply.Reply? && reply.code == 209 then sent
      else sent.(clients := w.clients - {c})
    case Probe(c, reply) =>
      var b := w.clients[c];
      if b.resume.None? || b.port == 0 || b.resume.value != b.port then
        w.(clients := w.clients[c := Authenticating(b.credential, b.port)])
      else
        var sent := w.(logins := w.logins + [UptimePacket(b.session, b.credential, b.port)]);
        if reply.Reply? && reply.code == 208 then sent.(clients := w.clients[c := Ready(b.session)])
        else if SaysBanned(reply) then sent.(file := Banned(w.file, w.now), clients := w.clients - {c})
        else sent.(clients := w.clients[c := Authenticating(b.credential, b.port)])
    case Authenticate(c, reply) =>
      var a := w.clients[c];
      var sent := w.(logins := w.logins + [AuthPacket(a.credential, a.port)]);
      if Accepts(reply) then
        sent.(file := Established(reply.key, a.port, a.credential),
              clients := w.clients[c := Ready(reply.key)],
              grants := w.grants + {Grant(reply.key, a.credential, a.port)})
      else if SaysBanned(reply) then sent.(file := Banned(w.file, w.now), clients := w.clients - {c})
      else sent.(clients := w.clients - {c})
    case Lookup(c, reply) =>
      if SaysBanned(reply) then w.(file := Banned(w.file, w.now), clients := w.clients[c := Ready("")])
      else if reply.Reply? && (reply.code == 501 || reply.code == 506) then w.(file := Lost(w.file))
      else w
    case Forget => w.(file := Forgotten(w.file))
    case Crash => w.(clients := map[])
    case Tick(secs) => w.(now := w.now + secs)
  }

  ghost predicate Step(w: World, e: Event, next: World) {
    Possible(w, e) && next == Next(w, e)
  }

  ghost predicate Run(ws: seq<World>, es: seq<Event>) {
    && Runs.Linked(Step, ws, es)
    && ws[0].file == DEFAULT && ws[0].now >= 0
    && ws[0].clients == map[] && ws[0].logins == [] && ws[0].grants == {} && ws[0].ids == {}
  }

  // ------------------------------------------------- whose session is resumed

  ghost predicate Resumes(w: World, session: string, credential: Credential, port: nat) {
    Grant(session, credential, port) in w.grants
  }

  ghost predicate ClientConsistent(w: World, client: Client) {
    client.Bound? && client.resume.Some? ==> Resumes(w, client.session, client.credential, client.resume.value)
  }

  ghost predicate PacketConsistent(w: World, p: Packet) {
    p.UptimePacket? ==> Resumes(w, p.session, p.credential, p.port)
  }

  ghost predicate FileConsistent(w: World) {
    && (w.file.session != "" ==> Resumes(w, w.file.session, w.file.credential, w.file.port))
    && 0 <= w.now && w.file.bannedUntil <= w.now + BAN_COOLDOWN
  }

  ghost predicate Consistent(w: World) {
    && FileConsistent(w)
    && (forall c :: c in w.clients ==> c in w.ids && ClientConsistent(w, w.clients[c]))
    && (forall p :: p in w.logins ==> PacketConsistent(w, p))
  }

  lemma ClientStaysConsistent(w: World, e: Event, c: nat)
    requires Consistent(w) && Possible(w, e) && c in Next(w, e).clients
    ensures c in Next(w, e).ids && ClientConsistent(Next(w, e), Next(w, e).clients[c])
  {
    if c in w.clients {
      assert ClientConsistent(w, w.clients[c]);
    }
  }

  lemma PacketStaysConsistent(w: World, e: Event, p: Packet)
    requires Consistent(w) && Possible(w, e) && p in Next(w, e).logins
    ensures PacketConsistent(Next(w, e), p)
  {
    if p in w.logins {
      assert PacketConsistent(w, p);
    } else {
      assert e.Encrypt? || e.Probe? || e.Authenticate?;
      assert ClientConsistent(w, w.clients[e.c]);
    }
  }

  lemma StepKeepsConsistent(w: World, e: Event)
    requires Consistent(w) && Possible(w, e)
    ensures Consistent(Next(w, e))
  {
    var n := Next(w, e);
    forall c | c in n.clients
      ensures c in n.ids && ClientConsistent(n, n.clients[c])
    {
      ClientStaysConsistent(w, e, c);
    }
    forall p | p in n.logins
      ensures PacketConsistent(n, p)
    {
      PacketStaysConsistent(w, e, p);
    }
  }

  lemma AlwaysConsistent(ws: seq<World>, es: seq<Event>, k: nat)
    requires Run(ws, es) && k < |ws|
    ensures Consistent(ws[k])
  {
    forall w, e, next | Consistent(w) && Step(w, e, next)
      ensures Consistent(next)
    {
      StepKeepsConsistent(w, e);
    }
    Runs.KeptThroughout(Step, Consistent, ws, es, 0, k);
  }

  /** A session is only ever probed with the credentials and from the port that it was
      handed out for, in every run: across crashes, credential changes and however many
      clients share the file. */
  lemma SessionsAreResumedByTheirOwner(ws: seq<World>, es: seq<Event>, k: nat, n: nat)
    requires Run(ws, es) && k < |ws| && n < |ws[k].logins| && ws[k].logins[n].UptimePacket?
    ensures var p := ws[k].logins[n]; Grant(p.session, p.credential, p.port) in ws[k].grants
  {
    AlwaysConsistent(ws, es, k);
    assert PacketConsistent(ws[k], ws[k].logins[n]);
  }

  // ----------------------------------------------------------------- the ban clock

  ghost predicate Succeeds(w: World, e: Event) {
    Possible(w, e) && e.Authenticate? && Accepts(e.reply)
  }

  /** Only a successful AUTH takes time off the ban clock: a forgotten session, a lost
      one, a new ban, a crash or a refused login never do. */
  lemma BanClockKept(ws: seq<World>, es: seq<Event>, i: nat, j: nat)
    requires Run(ws, es) && i <= j < |ws|
    requires forall m :: i <= m < j ==> !Succeeds(ws[m], es[m])
    ensures ws[j].file.bannedUntil >= ws[i].file.bannedUntil
  {
    var until := ws[i].file.bannedUntil;
    var good := (w: World) => Consistent(w) && w.file.bannedUntil >= until;
    var quiet := (w, e, next) => Step(w, e, next) && !Succeeds(w, e);
    forall w, e, next | good(w) && quiet(w, e, next)
      ensures good(next)
    {
      StepKeepsConsistent(w, e);
    }
    AlwaysConsistent(ws, es, i);
    Runs.KeptThroughout(quiet, good, ws, es, i, j);
  }

  ghost predicate NoLoginInFlight(w: World) {
    forall c :: c in w.clients ==> w.clients[c].Ready?
  }

  /** From a recorded ban with no login in flight until it lapses, no login sends a
      packet, so nothing can lift the ban early either. */
  lemma BanSilencesLogins(ws: seq<World>, es: seq<Event>, i: nat, j: nat)
    requires Run(ws, es) && i <= j < |ws|
    requires NoLoginInFlight(ws[i]) && ws[j].now < ws[i].file.bannedUntil
    ensures ws[j].logins == ws[i].logins
    ensures BanRemaining(ws[j].file, ws[j].now).Some?
    ensures ws[j].file.bannedUntil >= ws[i].file.bannedUntil
  {
    var until, logins := ws[i].file.bannedUntil, ws[i].logins;
    var good := (w: World) => Consistent(w) &&
      (w.now < until ==> NoLoginInFlight(w) && w.logins == logins && w.file.bannedUntil >= until);
    forall w, e, next | good(w) && Step(w, e, next)
      ensures good(next)
    {
      StepKeepsConsistent(w, e);
    }
    AlwaysConsistent(ws, es, i);
    Runs.KeptThroughout(Step, good, ws, es, i, j);
  }

  /** A login begun while a ban is recorded never becomes a client and never sends. */
  lemma RefusedLoginNeverSpeaks(ws: seq<World>, es: seq<Event>, k: nat, j: nat, c: nat, credential: Credential)
    requires Run(ws, es) && k < |es| && es[k] == Begin(c, credential)
    requires BanRemaining(ws[k].file, ws[k].now).Some?
    requires k < j < |ws|
    ensures c !in ws[j].clients
    ensures ws[k + 1].logins == ws[k].logins && ws[k + 1].file == ws[k].file
  {
    AlwaysConsistent(ws, es, k);
    assert Step(ws[k], es[k], ws[k + 1]);
    var good := (w: World) => c in w.ids && c !in w.clients;
    Runs.KeptThroughout(Step, good, ws, es, k + 1, j);
  }

  /** A probe is sent: the client got the port its stored session belongs to. */
  predicate Sends(client: Client) {
    client.Bound? && client.port != 0 && client.resume == Some(client.port)
  }

  /** The server banned the hub, in answer to a login or a lookup. */
  ghost predicate BansHub(w: World, e: Event) {
    && Possible(w, e) && (e.Encrypt? || e.Probe? || e.Authenticate? || e.Lookup?) && Says(e.reply, 555)
    && (e.Probe? ==> Sends(w.clients[e.c]))
  }

  /** The session is dropped: by the server, which no longer knows it, or on request. */
  ghost predicate DropsSession(w: World, e: Event) {
    e.Forget? || (Possible(w, e) && e.Lookup? && (Says(e.reply, 501) || Says(e.reply, 506)))
  }

  ghost predicate OffersNothing(w: World) {
    w.file.session == "" && forall credential :: ResumablePort(w.file, credential) == None
  }

  /** A ban is recorded for a day from now, and after a ban or a dropped session no login is
      offered one until an AUTH succeeds. */
  lemma DroppedIsNotResumed(ws: seq<World>, es: seq<Event>, i: nat, j: nat)
    requires Run(ws, es) && i < j < |ws| && (BansHub(ws[i], es[i]) || DropsSession(ws[i], es[i]))
    requires forall m :: i < m < j ==> !Succeeds(ws[m], es[m])
    ensures BansHub(ws[i], es[i]) ==> ws[i + 1].file.bannedUntil == ws[i].now + 86_400
    ensures OffersNothing(ws[j])
  {
    assert Step(ws[i], es[i], ws[i + 1]);
    var quiet := (w, e, next) => Step(w, e, next) && !Succeeds(w, e);
    Runs.KeptThroughout(quiet, OffersNothing, ws, es, i + 1, j);
  }

  // ------------------------------------------------------------------ a restart

  ghost predicate Disturbs(w: World, e: Event) {
    e.Forget? || Succeeds(w, e)
    || (e.Lookup? && e.reply.Reply? && (SaysBanned(e.reply) || e.reply.code == 501 || e.reply.code == 506))
    || ((e.Encrypt? || e.Probe? || e.Authenticate?) && SaysBanned(e.reply))
  }

  /** The session survives: after AUTH succeeded, and until the server drops it, bans the
      hub, or somebody logs in or disconnects, a login with the same credentials is
      offered the same session and port, after any number of crashes. */
  lemma SessionSurvivesRestarts(ws: seq<World>, es: seq<Event>, i: nat, j: nat)
    requires Run(ws, es) && i < j < |ws| && Succeeds(ws[i], es[i])
    requires forall m :: i < m < j ==> !Disturbs(ws[m], es[m])
    ensures es[i].c in ws[i].clients && ws[i].clients[es[i].c].Authenticating?
    ensures var a := ws[i].clients[es[i].c];
            && ws[j].file == Established(es[i].reply.key, a.port, a.credential)
            && (a.port != 0 ==> ResumablePort(ws[j].file, a.credential) == Some(a.port))
            && (forall other :: other != a.credential ==> ResumablePort(ws[j].file, other) == None)
  {
    assert Step(ws[i], es[i], ws[i + 1]);
    var file := ws[i + 1].file;
    var good := (w: World) => w.file == file;
    var quiet := (w, e, next) => Step(w, e, next) && !Disturbs(w, e);
    Runs.KeptThroughout(quiet, good, ws, es, i + 1, j);
  }

  /** A login of client c that starts at b, binds the given port at l and gets its probe
      answered at p, with anything else in between. */
  ghost predicate ProbedLogin(ws: seq<World>, es: seq<Event>, b: nat, l: nat, p: nat, c: nat, credential: Credential, port: nat) {
    && |ws| == |es| + 1 && b < l < p < |es|
    && es[b] == Begin(c, credential) && es[l] == Load(c, port)
    && es[p].Probe? && es[p].c == c && es[p].reply.Reply? && es[p].reply.code == 208
  }

  lemma BegunAs(ws: seq<World>, es: seq<Event>, b: nat, l: nat, c: nat, credential: Credential)
    requires Run(ws, es) && b < l < |es| && es[b] == Begin(c, credential)
    requires c in ws[l].clients && ws[l].clients[c].Gated?
    ensures ws[l].clients[c] == Gated(credential) && c in ws[l].ids
  {
    var good := (w: World) => c in w.ids && (c in w.clients && w.clients[c].Gated? ==> w.clients[c] == Gated(credential));
    AlwaysConsistent(ws, es, b);
    assert Step(ws[b], es[b], ws[b + 1]);
    Runs.KeptThroughout(Step, good, ws, es, b + 1, l);
  }

  lemma BoundAs(ws: seq<World>, es: seq<Event>, l: nat, p: nat, c: nat)
    requires Run(ws, es) && l < p < |ws| && c in ws[l].ids && c in ws[l].clients && ws[l].clients[c].Bound?
    requires c in ws[p].clients && ws[p].clients[c].Bound?
    ensures ws[p].clients[c] == ws[l].clients[c]
  {
    var bound := ws[l].clients[c];
    var good := (w: World) => c in w.ids && (c in w.clients ==> !w.clients[c].Gated? && (w.clients[c].Bound? ==> w.clients[c] == bound));
    Runs.KeptThroughout(Step, good, ws, es, l, p);
  }

  /** A client that is past its probe never probes again. */
  lemma PastIsPast(ws: seq<World>, es: seq<Event>, m: nat, p: nat, c: nat)
    requires Run(ws, es) && m <= p < |ws| && c in ws[m].ids && c in ws[m].clients && ws[m].clients[c].Authenticating?
    ensures c in ws[p].clients ==> ws[p].clients[c].Authenticating? || ws[p].clients[c].Ready?
  {
    var good := (w: World) => c in w.ids && (c in w.clients ==> w.clients[c].Authenticating? || w.clients[c].Ready?);
    Runs.KeptThroughout(Step, good, ws, es, m, p);
  }

  /** And the login that takes up the offer is spared its AUTH: whatever else goes on
      meanwhile, its probe is answered and it holds the session that AUTH had brought. */
  lemma SessionIsResumed(ws: seq<World>, es: seq<Event>, i: nat, b: nat, l: nat, p: nat, c: nat)
    requires Run(ws, es) && i < b < |es| && Succeeds(ws[i], es[i])
    requires forall m :: i < m <= p && m < |es| ==> !Disturbs(ws[m], es[m])
    requires var a := ws[i].clients[es[i].c];
             a.port != 0 && ProbedLogin(ws, es, b, l, p, c, a.credential, a.port)
    ensures var a, session := ws[i].clients[es[i].c], es[i].reply.key;
            && ws[p].logins + [UptimePacket(session, a.credential, a.port)] == ws[p + 1].logins
            && c in ws[p + 1].clients && ws[p + 1].clients[c] == Ready(session)
    ensures forall m :: b <= m <= p ==> !(es[m].Authenticate? && es[m].c == c)
  {
    var a := ws[i].clients[es[i].c];
    SessionSurvivesRestarts(ws, es, i, l);
    assert Step(ws[l], es[l], ws[l + 1]) && Step(ws[p], es[p], ws[p + 1]);
    BegunAs(ws, es, b, l, c, a.credential);
    if l + 1 < p {
      BoundAs(ws, es, l + 1, p, c);
    }
    forall m | b <= m <= p
      ensures !(es[m].Authenticate? && es[m].c == c)
    {
      if es[m].Authenticate? && es[m].c == c {
        assert Step(ws[m], es[m], ws[m + 1]);
        AlwaysConsistent(ws, es, m);
        PastIsPast(ws, es, m, p, c);
      }
    }
  }

  // --------------------------------------------------------- one login on its own

  /** One step, when it is possible. */
  function Turn(w: World, e: Event): World {
    if Possible(w, e) then Next(w, e) else w
  }

  function Opening(w: World, c: nat, a: Attempt): World {
    var bound := Turn(Turn(w, Begin(c, a.credential)), Load(c, a.bound));
    if a.encrypt then Turn(bound, Encrypt(c, a.encryptReply)) else bound
  }

  function Closing(w: World, c: nat, a: Attempt): World {
    Turn(Turn(w, Probe(c, a.uptimeReply)), Authenticate(c, a.authReply))
  }

  /** A login with nothing in between; steps it is past or gone for are not taken. */
  function Alone(w: World, c: nat, a: Attempt): World {
    Closing(Opening(w, c, a), c, a)
  }

  lemma OpeningOpens(w: World, c: nat, a: Attempt)
    requires c !in w.ids && c !in w.clients && a.file == w.file && a.now == w.now && !a.Gated() && a.Opened()
    ensures var client := Bound(a.credential, w.file.session, ResumablePort(w.file, a.credential), a.bound);
            Opening(w, c, a) == w.(ids := w.ids + {c}, clients := w.clients[c := client], logins := w.logins + a.Opening())
  {
    assert w.clients[c := Gated(a.credential)][c := Bound(a.credential, w.file.session, ResumablePort(w.file, a.credential), a.bound)]
        == w.clients[c := Bound(a.credential, w.file.session, ResumablePort(w.file, a.credential), a.bound)];
    assert w.logins + [] == w.logins;
  }

  lemma OpeningEnds(w: World, c: nat, a: Attempt)
    requires c !in w.ids && c !in w.clients && a.file == w.file && a.now == w.now && !a.Gated() && !a.Opened()
    ensures var file := if Says(a.encryptReply, 555) then State("", w.file.port, Unbound, w.now + 86_400) else w.file;
            Opening(w, c, a) == w.(ids := w.ids + {c}, file := file, logins := w.logins + [EncryptPacket])
  {
    var client := Bound(a.credential, w.file.session, ResumablePort(w.file, a.credential), a.bound);
    assert w.clients[c := Gated(a.credential)][c := client] - {c} == w.clients;
  }

  lemma ClosingEnds(w: World, open: World, c: nat, a: Attempt, outcome: Outcome, sent: seq<Packet>, left: State)
    requires c !in w.clients && a.file == w.file && a.now == w.now && !a.Gated() && a.Opened()
    requires open.file == w.file && open.now == w.now && open.logins == w.logins + a.Opening()
    requires open.clients == w.clients[c := Bound(a.credential, w.file.session, ResumablePort(w.file, a.credential), a.bound)]
    requires LoginDecided(a, outcome, sent) && FileDecided(w.file, a.credential, a.bound, w.now, outcome, left)
    ensures var end := Closing(open, c, a);
            && end.file == left && end.logins == w.logins + sent
            && end.clients == if outcome.Resumed? || outcome.Authenticated? then w.clients[c := Ready(outcome.session)] else w.clients
  {
    var probed := Turn(open, Probe(c, a.uptimeReply));
    assert probed.logins == w.logins + (a.Opening() + a.Probing());
    if !a.Settled() {
      assert probed.clients == w.clients[c := Authenticating(a.credential, a.bound)];
      assert Possible(probed, Authenticate(c, a.authReply));
      assert w.clients[c := Authenticating(a.credential, a.bound)] - {c} == w.clients;
    } else {
      assert open.clients - {c} == w.clients;
    }
  }

  /** The login of the state file is that run: the same file, the same packets, and a
      client that holds a session exactly when the login answered one. */
  lemma LoginIsARun(w: World, c: nat, a: Attempt, outcome: Outcome, sent: seq<Packet>, left: State)
    requires c !in w.ids && c !in w.clients && a.file == w.file && a.now == w.now
    requires LoginDecided(a, outcome, sent) && FileDecided(w.file, a.credential, a.bound, w.now, outcome, left)
    ensures Alone(w, c, a).file == left
    ensures Alone(w, c, a).logins == w.logins + sent
    ensures Alone(w, c, a).clients ==
            if outcome.Resumed? || outcome.Authenticated? then w.clients[c := Ready(outcome.session)] else w.clients
  {
    var open := Opening(w, c, a);
    if a.Gated() {
      assert w.logins + [] == w.logins;
    } else if !a.Opened() {
      OpeningEnds(w, c, a);
    } else {
      OpeningOpens(w, c, a);
      ClosingEnds(w, open, c, a, outcome, sent, left);
    }
  }
}
