// Whole runs of the authentication store: every interleaving of the hub's
// transactions, requests and restarts, with the history needed to say which
// tokens were ever handed out.

module AuthRuns {
  import opened Wrappers
  import opened AuthStore
  import Runs

  /** The store with its history. `issued[f]` lists the refresh tokens of family f in
      the order they were handed out; `minted` holds every access token ever signed;
      `rowsRead` the account rows logins in flight have read; `ids` every account id used. */
  datatype World = World(db: Db, now: int,
                         issued: map<FamilyId, seq<Hash>>,
                         minted: set<Access>,
                         rowsRead: set<LoginRow>,
                         ids: set<UserId>)

  datatype Event =
    | Setup(id: UserId, username: string, password: string)
    | Create(id: UserId, username: string, password: string, admin: bool)
    | SetRole(id: UserId, admin: bool)
    | Delete(id: UserId)
    | Reset(username: string, password: string)
    | LoginReads(username: string, password: string)
    | LoginIssues(row: LoginRow, family: FamilyId, secret: nat, signedAt: int, readAt: int)
    | Rotate(presented: Option<Token>, secret: nat, readAt: int, signedAt: int)
    | LogOut(user: UserId, presented: Option<Token>)
    | Restart
    | Wait(secs: nat)

  /** Freshness of random ids and secrets, logins that issue only what they read, and
      clocks read in the order of the code, before the wait for the database. */
  ghost predicate Possible(w: World, e: Event) {
    match e
    case Setup(id, _, _) => id !in w.ids
    case Create(id, _, _, _) => id !in w.ids
    case LoginIssues(row, family, _, signedAt, readAt) =>
      row in w.rowsRead && family !in w.issued && signedAt <= readAt <= w.now
    case Rotate(presented, secret, readAt, signedAt) =>
      && readAt <= signedAt <= w.now
      && (presented.Some? && presented.value.family in w.issued ==>
            HashOf(Token(presented.value.family, secret)) !in w.issued[presented.value.family])
    case _ => true
  }

  function Signed(minted: set<Access>, a: Option<Access>): set<Access> {
    if a.Some? then minted + {a.value} else minted
  }

  ghost function Next(w: World, e: Event): World {
    match e
    case Setup(id, username, password) =>
      w.(db := CompleteSetup(w.db, id, username, password).0, ids := w.ids + {id})
    case Create(id, username, password, admin) =>
      w.(db := CreateUser(w.db, id, username, password, admin).0, ids := w.ids + {id})
    case SetRole(id, admin) => w.(db := SetAdmin(w.db, id, admin).0)
    case Delete(id) => w.(db := DeleteUser(w.db, id).0)
    case Reset(username, password) => w.(db := ResetPassword(w.db, username, password, w.now).0)
    case LoginReads(username, password) =>
      var row := ReadLogin(w.db, username, password);
      if row.Some? then w.(rowsRead := w.rowsRead + {row.value}) else w
    case LoginIssues(row, family, secret, signedAt, readAt) =>
      var (db, access) := IssueTokens(w.db, row, family, secret, signedAt, readAt);
      w.(db := db, minted := Signed(w.minted, access),
         issued := if access.Some? then w.issued[family := [HashOf(Token(family, secret))]] else w.issued)
    case Rotate(presented, secret, readAt, signedAt) =>
      var (db, access) := Refresh(w.db, presented, secret, readAt, signedAt);
      w.(db := db, minted := Signed(w.minted, access),
         issued := if access.Some? && presented.Some? && presented.value.family in w.issued
                   then w.issued[presented.value.family :=
                          w.issued[presented.value.family] + [HashOf(Token(presented.value.family, secret))]]
                   else w.issued)
    case LogOut(user, presented) => w.(db := Logout(w.db, user, presented, w.now))
    case Restart => w.(db := Pruned(w.db, w.now))
    case Wait(secs) => w.(now := w.now + secs)
  }

  ghost predicate Begins(w: World) {
    w.db == EMPTY && w.issued == map[] && w.minted == {} && w.rowsRead == {} && w.ids == {}
  }

  ghost predicate Run(ws: seq<World>, es: seq<Event>) {
    Runs.Linked(Step, ws, es) && Begins(ws[0])
  }

  ghost predicate Step(w: World, e: Event, next: World) {
    Possible(w, e) && next == Next(w, e)
  }

  // ------------------------------------------------------------- the invariant

  /** The row of a family holds exactly its two newest tokens. */
  ghost predicate HoldsNewestTwo(family: Family, history: seq<Hash>) {
    && |history| >= 1
    && family.current == history[|history| - 1]
    && family.previous == (if |history| >= 2 then Some(history[|history| - 2]) else None)
  }

  ghost predicate FamilyConsistent(w: World, f: FamilyId)
    requires f in w.db.families
  {
    && f in w.issued
    && HoldsNewestTwo(w.db.families[f], w.issued[f])
    && w.db.families[f].user in w.db.users
  }

  /** No token of a family is handed out twice, and each names its family. */
  ghost predicate HistoryConsistent(f: FamilyId, history: seq<Hash>) {
    && (forall i, j :: 0 <= i < j < |history| ==> history[i] != history[j])
    && (forall i :: 0 <= i < |history| ==> history[i].token.family == f)
  }

  ghost predicate AccountsConsistent(w: World) {
    && w.db.users.Keys <= w.ids
    && UniqueNames(w.db.users)
    && (forall a :: a in w.minted ==> VersionReached(w, a.sub, a.version))
    && (forall r :: r in w.rowsRead ==> VersionReached(w, r.id, r.version))
  }

  ghost predicate VersionReached(w: World, user: UserId, version: int) {
    user in w.ids && (user in w.db.users ==> version <= w.db.users[user].authVersion)
  }

  ghost predicate Consistent(w: World) {
    && (forall f :: f in w.db.families ==> FamilyConsistent(w, f))
    && (forall f :: f in w.issued ==> HistoryConsistent(f, w.issued[f]))
    && AccountsConsistent(w)
  }

  lemma RotateKeepsFamily(w: World, e: Event, f: FamilyId)
    requires Consistent(w) && Possible(w, e) && e.Rotate? && f in w.db.families
    ensures f in Next(w, e).db.families && FamilyConsistent(Next(w, e), f)
  {
    assert FamilyConsistent(w, f);
    var (db, access) := Refresh(w.db, e.presented, e.secret, e.readAt, e.signedAt);
    if e.presented.Some? && e.presented.value.family == f && access.Some? {
      assert db.families[f] == Rotated(w.db.families[f], HashOf(Token(f, e.secret)), e.readAt);
      assert HoldsNewestTwo(db.families[f], w.issued[f] + [HashOf(Token(f, e.secret))]);
    } else {
      assert Next(w, e).issued == w.issued || (f in w.issued && Next(w, e).issued[f] == w.issued[f]);
    }
  }

  ghost predicate ChangesAccounts(e: Event) {
    e.Setup? || e.Create? || e.SetRole? || e.Delete? || e.Reset?
  }

  lemma AccountEventFamily(w: World, e: Event, f: FamilyId)
    requires ChangesAccounts(e) && f in Next(w, e).db.families
    ensures Next(w, e).issued == w.issued && f in w.db.families
    ensures var was, now := w.db.families[f], Next(w, e).db.families[f];
            && now.user == was.user && now.current == was.current && now.previous == was.previous
            && (was.user in w.db.users ==> was.user in Next(w, e).db.users)
  {
  }

  lemma AccountEventKeepsFamily(w: World, e: Event, f: FamilyId)
    requires Consistent(w) && Possible(w, e) && ChangesAccounts(e) && f in Next(w, e).db.families
    ensures f in w.db.families && FamilyConsistent(Next(w, e), f)
  {
    AccountEventFamily(w, e, f);
    assert FamilyConsistent(w, f);
  }

  lemma SessionEventKeepsFamily(w: World, e: Event, f: FamilyId)
    requires Consistent(w) && Possible(w, e) && !ChangesAccounts(e) && !e.Rotate? && f in Next(w, e).db.families
    ensures FamilyConsistent(Next(w, e), f)
  {
    if f in w.db.families {
      assert FamilyConsistent(w, f);
    }
  }

  lemma FamilyStaysConsistent(w: World, e: Event, f: FamilyId)
    requires Consistent(w) && Possible(w, e) && f in Next(w, e).db.families
    ensures FamilyConsistent(Next(w, e), f)
  {
    if ChangesAccounts(e) {
      AccountEventKeepsFamily(w, e, f);
    } else if e.Rotate? {
      RotateKeepsFamily(w, e, f);
    } else {
      SessionEventKeepsFamily(w, e, f);
    }
  }

  lemma HistoryStaysConsistent(w: World, e: Event, f: FamilyId)
    requires Consistent(w) && Possible(w, e) && f in Next(w, e).issued
    ensures HistoryConsistent(f, Next(w, e).issued[f])
  {
    if f in w.issued {
      assert HistoryConsistent(f, w.issued[f]);
    }
  }

  lemma VersionStaysReached(w: World, e: Event, user: UserId, version: int)
    requires Consistent(w) && Possible(w, e) && VersionReached(w, user, version)
    ensures VersionReached(Next(w, e), user, version)
  {
  }

  lemma NamesStayUnique(w: World, e: Event)
    requires Consistent(w) && Possible(w, e)
    ensures Next(w, e).db.users.Keys <= Next(w, e).ids
    ensures UniqueNames(Next(w, e).db.users)
  {
  }

  lemma StepKeepsConsistent(w: World, e: Event)
    requires Consistent(w) && Possible(w, e)
    ensures Consistent(Next(w, e))
  {
    var n := Next(w, e);
    forall f | f in n.db.families
      ensures FamilyConsistent(n, f)
    {
      FamilyStaysConsistent(w, e, f);
    }
    forall f | f in n.issued
      ensures HistoryConsistent(f, n.issued[f])
    {
      HistoryStaysConsistent(w, e, f);
    }
    NamesStayUnique(w, e);
    forall a | a in n.minted
      ensures VersionReached(n, a.sub, a.version)
    {
      if a in w.minted {
        VersionStaysReached(w, e, a.sub, a.version);
      }
    }
    forall r | r in n.rowsRead
      ensures VersionReached(n, r.id, r.version)
    {
      if r in w.rowsRead {
        VersionStaysReached(w, e, r.id, r.version);
      }
    }
  }

  /** In every reachable state a family's row holds exactly its two newest tokens, and
      belongs to an account that exists. */
  lemma AlwaysConsistent(ws: seq<World>, es: seq<Event>, k: nat)
    requires Run(ws, es) && k < |ws|
    ensures Consistent(ws[k])
    ensures forall f :: f in ws[k].db.families ==>
              && f in ws[k].issued && HoldsNewestTwo(ws[k].db.families[f], ws[k].issued[f])
              && ws[k].db.families[f].user in ws[k].db.users
  {
    forall w, e, next | Consistent(w) && Step(w, e, next)
      ensures Consistent(next)
    {
      StepKeepsConsistent(w, e);
    }
    Runs.KeptThroughout(Step, Consistent, ws, es, 0, k);
    forall f | f in ws[k].db.families
      ensures FamilyConsistent(ws[k], f)
    {
    }
  }

  // -------------------------------------------------------------- refresh tokens

  ghost predicate AliveAt(w: World, f: FamilyId, at: int) {
    f in w.db.families && Live(w.db.families[f], at)
  }

  ghost predicate Alive(w: World, f: FamilyId) {
    AliveAt(w, f, w.now)
  }

  /** One of the two most recent tokens handed out for its family. */
  ghost predicate AmongNewestTwo(w: World, t: Token) {
    t.family in w.issued
    && var history := w.issued[t.family];
       exists i :: |history| - 2 <= i < |history| && 0 <= i && history[i] == HashOf(t)
  }

  ghost predicate Accepted(w: World, e: Event) {
    e.Rotate? && Refresh(w.db, e.presented, e.secret, e.readAt, e.signedAt).1.Some?
  }

  /** What a presented token does, in any reachable state: it rotates exactly when it
      is one of the two newest of a family that lives by the clock the request read; any
      other token naming such a family revokes it; everything else changes nothing. No
      other family moves. */
  lemma RotationWindow(ws: seq<World>, es: seq<Event>, k: nat, t: Token, secret: nat, at: int, signed: int)
    requires Run(ws, es) && k < |es| && es[k] == Rotate(Some(t), secret, at, signed)
    ensures Accepted(ws[k], es[k]) <==> AliveAt(ws[k], t.family, at) && AmongNewestTwo(ws[k], t)
    ensures Accepted(ws[k], es[k]) ==>
      && t.family in ws[k].issued && t.family in ws[k + 1].issued
      && ws[k + 1].issued[t.family] == ws[k].issued[t.family] + [HashOf(Token(t.family, secret))]
      && t.family in ws[k + 1].db.families && ws[k + 1].db.families[t.family].revokedAt == None
      && ws[k + 1].db.families[t.family].expiresAt == at + REFRESH_TTL_SECS
    ensures AliveAt(ws[k], t.family, at) && !AmongNewestTwo(ws[k], t) ==>
      t.family in ws[k + 1].db.families && ws[k + 1].db.families[t.family].revokedAt == Some(at)
    ensures !AliveAt(ws[k], t.family, at) ==> ws[k + 1] == ws[k]
    ensures ws[k + 1].db.families - {t.family} == ws[k].db.families - {t.family}
    ensures ws[k + 1].db.users == ws[k].db.users
  {
    AlwaysConsistent(ws, es, k);
    var w := ws[k];
    if t.family in w.db.families {
      var history := w.issued[t.family];
      assert HoldsNewestTwo(w.db.families[t.family], history);
      if Matches(w.db.families[t.family], HashOf(t)) {
        var i := if w.db.families[t.family].current == HashOf(t) then |history| - 1 else |history| - 2;
        assert history[i] == HashOf(t);
      }
    }
  }

  /** A token two or more rotations old, presented to a live family, revokes it. */
  lemma OlderGenerationRevokes(ws: seq<World>, es: seq<Event>, k: nat, t: Token, secret: nat, at: int, signed: int, i: nat)
    requires Run(ws, es) && k < |es| && es[k] == Rotate(Some(t), secret, at, signed) && AliveAt(ws[k], t.family, at)
    requires t.family in ws[k].issued && i + 2 < |ws[k].issued[t.family]| && ws[k].issued[t.family][i] == HashOf(t)
    ensures !Accepted(ws[k], es[k]) && Dead(ws[k + 1], t.family)
  {
    AlwaysConsistent(ws, es, k);
    assert HistoryConsistent(t.family, ws[k].issued[t.family]);
    RotationWindow(ws, es, k, t, secret, at, signed);
  }

  /** A family that has been handed out and is no longer alive. */
  ghost predicate Dead(w: World, f: FamilyId) {
    f in w.issued && !Alive(w, f)
  }

  /** Dead by every clock read from this time on. */
  ghost predicate DeadSince(w: World, f: FamilyId, from: int) {
    f in w.issued && (f in w.db.families ==> w.db.families[f].revokedAt.Some? || w.db.families[f].expiresAt < from)
  }

  lemma DeathSurvivesRotation(w: World, e: Event, f: FamilyId, from: int)
    requires e.Rotate? && e.readAt >= from && DeadSince(w, f, from)
    ensures DeadSince(Next(w, e), f, from)
  {
  }

  lemma DeathSurvivesAccounts(w: World, e: Event, f: FamilyId, from: int)
    requires ChangesAccounts(e) && DeadSince(w, f, from)
    ensures DeadSince(Next(w, e), f, from)
  {
  }

  lemma DeathSurvivesStep(w: World, e: Event, f: FamilyId, from: int)
    requires Consistent(w) && Possible(w, e) && DeadSince(w, f, from)
    requires e.Rotate? ==> e.readAt >= from
    ensures DeadSince(Next(w, e), f, from)
  {
    if e.Rotate? {
      DeathSurvivesRotation(w, e, f, from);
    } else if ChangesAccounts(e) {
      DeathSurvivesAccounts(w, e, f, from);
    }
  }

  /** Dead is final: no later event of any run, restarts included, revives the family. An
      expired one can only be renewed by a request that read its clock before. */
  lemma DeadIsFinal(ws: seq<World>, es: seq<Event>, i: nat, j: nat, f: FamilyId)
    requires Run(ws, es) && i <= j < |ws| && Dead(ws[i], f)
    requires forall m :: i <= m < j && es[m].Rotate? ==> es[m].readAt >= ws[i].now
    ensures Dead(ws[j], f)
  {
    var from := ws[i].now;
    var good := w => Consistent(w) && DeadSince(w, f, from);
    var quiet := (w, e: Event, next) => Step(w, e, next) && (e.Rotate? ==> e.readAt >= from);
    forall w, e, next | good(w) && quiet(w, e, next)
      ensures good(next)
    {
      StepKeepsConsistent(w, e);
      DeathSurvivesStep(w, e, f, from);
    }
    AlwaysConsistent(ws, es, i);
    Runs.KeptThroughout(quiet, good, ws, es, i, j);
    TimeMovesOn(ws, es, i, j);
  }

  /** Revoked, or no longer in the database. */
  ghost predicate Ended(w: World, f: FamilyId) {
    f in w.issued && (f in w.db.families ==> w.db.families[f].revokedAt.Some?)
  }

  lemma EndSurvivesStep(w: World, e: Event, f: FamilyId)
    requires Consistent(w) && Possible(w, e) && Ended(w, f)
    ensures Ended(Next(w, e), f)
  {
    var n := Next(w, e);
    var read := if e.Rotate? then e.readAt else 0;
    var from := if f in n.db.families && n.db.families[f].expiresAt < read then n.db.families[f].expiresAt else read;
    DeathSurvivesStep(w, e, f, from);
  }

  /** That is final whatever clock a later request reads. */
  lemma EndedIsFinal(ws: seq<World>, es: seq<Event>, i: nat, j: nat, f: FamilyId)
    requires Run(ws, es) && i <= j < |ws| && Ended(ws[i], f)
    ensures Ended(ws[j], f) && !Alive(ws[j], f)
  {
    var good := w => Consistent(w) && Ended(w, f);
    forall w, e, next | good(w) && Step(w, e, next)
      ensures good(next)
    {
      StepKeepsConsistent(w, e);
      EndSurvivesStep(w, e, f);
    }
    AlwaysConsistent(ws, es, i);
    Runs.KeptThroughout(Step, good, ws, es, i, j);
  }

  /** What such a request can do: a token of the two newest revives an expired family, for
      no longer than the lifetime from the time it read, which the family had not outlived. */
  lemma WaitingRotationRenews(ws: seq<World>, es: seq<Event>, k: nat, t: Token, secret: nat, at: int, signed: int)
    requires Run(ws, es) && k < |es| && es[k] == Rotate(Some(t), secret, at, signed)
    requires Dead(ws[k], t.family) && Accepted(ws[k], es[k])
    ensures at < ws[k].now && t.family in ws[k].db.families && at <= ws[k].db.families[t.family].expiresAt < ws[k].now
    ensures Alive(ws[k + 1], t.family) <==> ws[k].now <= at + REFRESH_TTL_SECS
  {
    RotationWindow(ws, es, k, t, secret, at, signed);
    assert Step(ws[k], es[k], ws[k + 1]);
  }

  /** Logging out kills exactly the named family, and only when the token is its newest
      and its own user asks: presenting the previous generation does nothing. */
  lemma LogoutNamesTheNewest(ws: seq<World>, es: seq<Event>, k: nat, user: UserId, t: Token)
    requires Run(ws, es) && k < |es| && es[k] == LogOut(user, Some(t))
    requires Alive(ws[k], t.family)
    ensures t.family in ws[k].issued && |ws[k].issued[t.family]| >= 1
    ensures var history := ws[k].issued[t.family];
            Dead(ws[k + 1], t.family) <==>
              ws[k].db.families[t.family].user == user && history[|history| - 1] == HashOf(t)
    ensures !Dead(ws[k + 1], t.family) ==> ws[k + 1] == ws[k]
    ensures ws[k + 1].db.families - {t.family} == ws[k].db.families - {t.family}
  {
    AlwaysConsistent(ws, es, k);
  }

  /** A committed reset or deletion kills every family the account had, and no other. */
  lemma AccountChangeKillsItsFamilies(ws: seq<World>, es: seq<Event>, k: nat, f: FamilyId)
    requires Run(ws, es) && k < |es| && Alive(ws[k], f)
    requires es[k].Reset? || es[k].Delete?
    ensures Dead(ws[k + 1], f) <==> Ends(ws[k], es[k], ws[k].db.families[f].user)
    ensures !Dead(ws[k + 1], f) ==> f in ws[k + 1].db.families && ws[k + 1].db.families[f] == ws[k].db.families[f]
  {
    AlwaysConsistent(ws, es, k);
  }

  // Two clients that share a login and leapfrog.

  /** Nobody else names the family, and its account is neither reset nor deleted. */
  ghost predicate LeavesAlone(w: World, e: Event, f: FamilyId, user: UserId) {
    && (e.Rotate? && e.presented.Some? ==> e.presented.value.family != f)
    && (e.LogOut? && e.presented.Some? ==> e.presented.value.family != f)
    && (e.Reset? || e.Delete? ==> !Ends(w, e, user))
  }

  ghost predicate HasRow(w: World, f: FamilyId, row: Family) {
    f in w.db.families && w.db.families[f] == row && row.user in w.db.users && f in w.issued
  }

  lemma RowSurvivesStep(w: World, e: Event, next: World, f: FamilyId, row: Family)
    requires Consistent(w) && Step(w, e, next) && HasRow(w, f, row) && LeavesAlone(w, e, f, row.user)
    requires w.now <= row.expiresAt
    ensures HasRow(next, f, row)
  {
    if ChangesAccounts(e) {
      RowSurvivesAccounts(w, e, f, row);
    }
  }

  lemma RowSurvivesAccounts(w: World, e: Event, f: FamilyId, row: Family)
    requires ChangesAccounts(e) && Possible(w, e) && HasRow(w, f, row) && LeavesAlone(w, e, f, row.user)
    ensures HasRow(Next(w, e), f, row)
  {
  }

  lemma TimeMovesOn(ws: seq<World>, es: seq<Event>, i: nat, j: nat)
    requires Run(ws, es) && i <= j < |ws|
    ensures ws[i].now <= ws[j].now
  {
    var at := ws[i].now;
    Runs.KeptThroughout(Step, (w: World) => at <= w.now, ws, es, i, j);
  }

  lemma RowSurvives(ws: seq<World>, es: seq<Event>, i: nat, j: nat, f: FamilyId, row: Family)
    requires Run(ws, es) && i <= j < |ws| && HasRow(ws[i], f, row) && ws[j].now <= row.expiresAt
    requires forall m :: i <= m < j ==> LeavesAlone(ws[m], es[m], f, row.user)
    ensures HasRow(ws[j], f, row)
  {
    var good := w => Consistent(w) && HasRow(w, f, row);
    var quiet := (w, e, next) => Step(w, e, next) && LeavesAlone(w, e, f, row.user) && w.now <= row.expiresAt;
    forall w, e, next | good(w) && quiet(w, e, next)
      ensures good(next)
    {
      StepKeepsConsistent(w, e);
      RowSurvivesStep(w, e, next, f, row);
    }
    forall m | i <= m < j
      ensures ws[m].now <= row.expiresAt
    {
      TimeMovesOn(ws, es, m, j);
    }
    AlwaysConsistent(ws, es, i);
    Runs.KeptThroughout(quiet, good, ws, es, i, j);
  }

  /** The family holds what the next two turns will present, and lasts until then. */
  ghost predicate Ahead(w: World, next: Token, after: Token, user: UserId, until: int) {
    next.family in w.db.families &&
    var row := w.db.families[next.family];
    && HasRow(w, next.family, row) && row.user == user && row.revokedAt == None && until <= row.expiresAt
    && row.current == HashOf(after) && (row.previous == Some(HashOf(next)) || next == after)
  }

  /** What the clients present: what each of them held, then always what it was last
      given, two turns before. */
  ghost predicate TakeTurns(es: seq<Event>, turns: seq<nat>, tokens: seq<Token>) {
    && |tokens| == |turns| + 2 && tokens[0].family == tokens[1].family
    && (forall k :: 0 <= k < |turns| ==>
          && turns[k] < |es| && es[turns[k]].Rotate? && es[turns[k]].presented == Some(tokens[k])
          && tokens[k + 2] == Token(tokens[0].family, es[turns[k]].secret))
    && (forall k :: 0 < k < |turns| ==> turns[k - 1] < turns[k])
  }

  /** From event i on the family is named at these turns only, by the two clients
      alternately, and no turn comes later than the idle lifetime after the one before read its clock. */
  ghost predicate Leapfrogs(ws: seq<World>, es: seq<Event>, i: nat, turns: seq<nat>, tokens: seq<Token>, user: UserId) {
    && |ws| == |es| + 1 && i < |ws| && turns != [] && TakeTurns(es, turns, tokens)
    && i <= turns[0] && Ahead(ws[i], tokens[0], tokens[1], user, ws[turns[0]].now)
    && (forall k :: 0 < k < |turns| ==> ws[turns[k]].now <= es[turns[k - 1]].readAt + REFRESH_TTL_SECS)
    && (forall m :: i <= m < |es| && m !in turns ==> LeavesAlone(ws[m], es[m], tokens[0].family, user))
  }

  lemma {:induction false} AscendingTurns(turns: seq<nat>, j: nat, k: nat)
    requires j < k < |turns| && forall n :: 0 < n < |turns| ==> turns[n - 1] < turns[n]
    ensures turns[j] < turns[k]
    decreases k
  {
    if j < k - 1 {
      AscendingTurns(turns, j, k - 1);
    }
  }

  lemma NoTurnBetween(turns: seq<nat>, k: nat, m: nat)
    requires k < |turns| && forall n :: 0 < n < |turns| ==> turns[n - 1] < turns[n]
    requires m < turns[k] && (k > 0 ==> turns[k - 1] < m)
    ensures m !in turns
  {
    if m in turns {
      var n :| 0 <= n < |turns| && turns[n] == m;
      if n > k {
        AscendingTurns(turns, k, n);
      } else if n < k && n < k - 1 {
        AscendingTurns(turns, n, k - 1);
      }
    }
  }

  lemma AheadSurvives(ws: seq<World>, es: seq<Event>, i: nat, j: nat, next: Token, after: Token, user: UserId, until: int)
    requires Run(ws, es) && i <= j < |ws| && Ahead(ws[i], next, after, user, until) && ws[j].now <= until
    requires forall m :: i <= m < j ==> LeavesAlone(ws[m], es[m], next.family, user)
    ensures Ahead(ws[j], next, after, user, until)
  {
    RowSurvives(ws, es, i, j, next.family, ws[i].db.families[next.family]);
  }

  lemma TurnTaken(w: World, e: Event, result: World, next: Token, after: Token, user: UserId)
    requires Consistent(w) && Step(w, e, result) && e.Rotate? && e.presented == Some(next)
    requires Ahead(w, next, after, user, w.now) && next.family == after.family
    ensures Accepted(w, e) && Ahead(result, after, Token(next.family, e.secret), user, e.readAt + REFRESH_TTL_SECS)
  {
    assert FamilyConsistent(w, next.family);
  }

  lemma NextTurn(ws: seq<World>, es: seq<Event>, t: nat, u: nat, next: Token, after: Token, third: Token, user: UserId)
    requires Run(ws, es) && t < u < |es| && es[t].Rotate? && es[t].presented == Some(next)
    requires Ahead(ws[t], next, after, user, ws[t].now) && next.family == after.family
    requires third == Token(next.family, es[t].secret) && ws[u].now <= es[t].readAt + REFRESH_TTL_SECS
    requires forall m :: t < m < u ==> LeavesAlone(ws[m], es[m], next.family, user)
    ensures Ahead(ws[u], after, third, user, ws[u].now)
  {
    AlwaysConsistent(ws, es, t);
    assert Step(ws[t], es[t], ws[t + 1]);
    TurnTaken(ws[t], es[t], ws[t + 1], next, after, user);
    AheadSurvives(ws, es, t + 1, u, after, third, user, es[t].readAt + REFRESH_TTL_SECS);
  }

  lemma AloneBefore(ws: seq<World>, es: seq<Event>, i: nat, turns: seq<nat>, tokens: seq<Token>, user: UserId, k: nat)
    requires Leapfrogs(ws, es, i, turns, tokens, user) && k < |turns|
    ensures forall m :: (if k == 0 then i else turns[k - 1] + 1) <= m < turns[k] ==>
              LeavesAlone(ws[m], es[m], tokens[0].family, user)
  {
    forall m | (if k == 0 then i else turns[k - 1] + 1) <= m < turns[k]
      ensures LeavesAlone(ws[m], es[m], tokens[0].family, user)
    {
      TurnsFrom(turns, if k == 0 then 0 else k - 1);
      NoTurnBetween(turns, k, m);
    }
  }

  lemma {:induction false} TurnsFrom(turns: seq<nat>, k: nat)
    requires k < |turns| && forall n :: 0 < n < |turns| ==> turns[n - 1] < turns[n]
    ensures turns[0] <= turns[k]
  {
    if k > 0 {
      TurnsFrom(turns, k - 1);
    }
  }

  lemma SameFamily(es: seq<Event>, turns: seq<nat>, tokens: seq<Token>, k: nat)
    requires TakeTurns(es, turns, tokens) && k < |tokens|
    ensures tokens[k].family == tokens[0].family
  {
    assert k >= 2 ==> tokens[k - 2 + 2] == Token(tokens[0].family, es[turns[k - 2]].secret);
  }

  lemma AheadAtFirst(ws: seq<World>, es: seq<Event>, i: nat, turns: seq<nat>, tokens: seq<Token>, user: UserId)
    requires Run(ws, es) && Leapfrogs(ws, es, i, turns, tokens, user)
    ensures Ahead(ws[turns[0]], tokens[0], tokens[1], user, ws[turns[0]].now)
  {
    AloneBefore(ws, es, i, turns, tokens, user, 0);
    AheadSurvives(ws, es, i, turns[0], tokens[0], tokens[1], user, ws[turns[0]].now);
  }

  lemma AheadAtNext(ws: seq<World>, es: seq<Event>, i: nat, turns: seq<nat>, tokens: seq<Token>, user: UserId, k: nat)
    requires Run(ws, es) && Leapfrogs(ws, es, i, turns, tokens, user) && 0 < k < |turns|
    requires Ahead(ws[turns[k - 1]], tokens[k - 1], tokens[k], user, ws[turns[k - 1]].now)
    ensures Ahead(ws[turns[k]], tokens[k], tokens[k + 1], user, ws[turns[k]].now)
  {
    AloneBefore(ws, es, i, turns, tokens, user, k);
    SameFamily(es, turns, tokens, k - 1);
    SameFamily(es, turns, tokens, k);
    assert tokens[k - 1 + 2] == Token(tokens[0].family, es[turns[k - 1]].secret);
    NextTurn(ws, es, turns[k - 1], turns[k], tokens[k - 1], tokens[k], tokens[k + 1], user);
  }

  lemma {:induction false} AheadAtTurn(ws: seq<World>, es: seq<Event>, i: nat, turns: seq<nat>, tokens: seq<Token>,
                                       user: UserId, k: nat)
    requires Run(ws, es) && Leapfrogs(ws, es, i, turns, tokens, user) && k < |turns|
    ensures Ahead(ws[turns[k]], tokens[k], tokens[k + 1], user, ws[turns[k]].now)
    decreases k
  {
    if k == 0 {
      AheadAtFirst(ws, es, i, turns, tokens, user);
    } else {
      AheadAtTurn(ws, es, i, turns, tokens, user, k - 1);
      AheadAtNext(ws, es, i, turns, tokens, user, k);
    }
  }

  /** Two clients, each one generation behind the other, that strictly alternate and
      never let the idle lifetime pass stay logged in for ever: every turn is accepted,
      whatever logins, role changes, restarts and other accounts' events come between. */
  lemma LeapfrogNeverEnds(ws: seq<World>, es: seq<Event>, i: nat, turns: seq<nat>, tokens: seq<Token>, user: UserId, k: nat)
    requires Run(ws, es) && Leapfrogs(ws, es, i, turns, tokens, user) && k < |turns|
    ensures Accepted(ws[turns[k]], es[turns[k]])
  {
    var t := turns[k];
    AheadAtTurn(ws, es, i, turns, tokens, user, k);
    SameFamily(es, turns, tokens, k);
    SameFamily(es, turns, tokens, k + 1);
    AlwaysConsistent(ws, es, t);
    assert Step(ws[t], es[t], ws[t + 1]);
    TurnTaken(ws[t], es[t], ws[t + 1], tokens[k], tokens[k + 1], user);
  }

  // --------------------------------------------------------------- access tokens

  /** The event commits a role change, password reset or deletion of this account. */
  ghost predicate Ends(w: World, e: Event, user: UserId) {
    match e
    case SetRole(id, admin) => id == user && SetAdmin(w.db, id, admin).1 == Changed
    case Delete(id) => id == user && DeleteUser(w.db, id).1.Deleted?
    case Reset(username, password) =>
      ResetPassword(w.db, username, password, w.now).1 == PasswordReset && Named(w.db.users, username) == Some(user)
    case _ => false
  }

  /** No access token of this version will ever be accepted for the account again. */
  ghost predicate Spent(w: World, user: UserId, version: int) {
    user in w.ids && (user in w.db.users ==> version < w.db.users[user].authVersion)
  }

  lemma SpentSurvivesStep(w: World, e: Event, user: UserId, version: int)
    requires Consistent(w) && Possible(w, e) && Spent(w, user, version)
    ensures Spent(Next(w, e), user, version)
  {
  }

  lemma SpentForEver(ws: seq<World>, es: seq<Event>, i: nat, j: nat, user: UserId, version: int)
    requires Run(ws, es) && i <= j < |ws| && Spent(ws[i], user, version)
    ensures Spent(ws[j], user, version)
  {
    var good := w => Consistent(w) && Spent(w, user, version);
    forall w, e, next | good(w) && Step(w, e, next)
      ensures good(next)
    {
      StepKeepsConsistent(w, e);
      SpentSurvivesStep(w, e, user, version);
    }
    AlwaysConsistent(ws, es, i);
    Runs.KeptThroughout(Step, good, ws, es, i, j);
  }

  /** Any access token minted before a committed role change, reset or deletion of its
      account is refused by every later request of every run, restarts included. */
  lemma OldAccessIsRefused(ws: seq<World>, es: seq<Event>, k: nat, j: nat, a: Access, now: int)
    requires Run(ws, es) && k < |es| && a in ws[k].minted && Ends(ws[k], es[k], a.sub)
    requires k < j < |ws|
    ensures Authenticate(ws[j].db, Some(a), now) == None
  {
    AlwaysConsistent(ws, es, k);
    assert Spent(ws[k + 1], a.sub, a.version);
    SpentForEver(ws, es, k + 1, j, a.sub, a.version);
  }

  /** The account still is what this token's claims say of it. */
  ghost predicate Current(w: World, a: Access) {
    && a.sub in w.db.users
    && var u := w.db.users[a.sub]; u.username == a.username && u.isAdmin == a.admin && u.authVersion == a.version
  }

  lemma CurrentUntilEnded(w: World, e: Event, a: Access)
    requires Consistent(w) && Possible(w, e) && Current(w, a) && !Ends(w, e, a.sub)
    ensures Current(Next(w, e), a)
  {
  }

  lemma CurrentHeld(ws: seq<World>, es: seq<Event>, i: nat, j: nat, a: Access)
    requires Run(ws, es) && i <= j < |ws| && Current(ws[i], a)
    requires forall m :: i <= m < j ==> !Ends(ws[m], es[m], a.sub)
    ensures Current(ws[j], a)
  {
    var good := w => Consistent(w) && Current(w, a);
    var quiet := (w, e, next) => Step(w, e, next) && !Ends(w, e, a.sub);
    forall w, e, next | good(w) && quiet(w, e, next)
      ensures good(next)
    {
      StepKeepsConsistent(w, e);
      CurrentUntilEnded(w, e, a);
    }
    AlwaysConsistent(ws, es, i);
    Runs.KeptThroughout(quiet, good, ws, es, i, j);
  }

  /** And the other direction: the access token a rotation returns is accepted for fifteen
      minutes from its signing while no such change has committed since, and what the request
      learns of the account is what the token says, the stored administrator flag included.
      A minute's leeway later nothing accepts it. */
  lemma AccessHonouredUntilChanged(ws: seq<World>, es: seq<Event>, k: nat, j: nat, a: Access, now: int)
    requires Run(ws, es) && k < j < |ws| && es[k].Rotate?
    requires Refresh(ws[k].db, es[k].presented, es[k].secret, es[k].readAt, es[k].signedAt).1 == Some(a)
    ensures a in ws[k + 1].minted
    ensures now > es[k].signedAt + 960 ==> Authenticate(ws[j].db, Some(a), now) == None
    ensures now <= es[k].signedAt + 960 && (forall m :: k < m < j ==> !Ends(ws[m], es[m], a.sub)) ==>
              Authenticate(ws[j].db, Some(a), now) == Some(a)
  {
    assert Current(ws[k], a) && a.exp == es[k].signedAt + 900;
    AlwaysConsistent(ws, es, k);
    assert Step(ws[k], es[k], ws[k + 1]);
    CurrentUntilEnded(ws[k], es[k], a);
    if forall m :: k < m < j ==> !Ends(ws[m], es[m], a.sub) {
      CurrentHeld(ws, es, k + 1, j, a);
    }
  }

  /** So is the token of a login, when no such change committed since its row was read: the
      insertion then finds the account, and the token it mints is honoured as long. */
  lemma LoginHonouredUntilChanged(ws: seq<World>, es: seq<Event>, r: nat, k: nat, j: nat, row: LoginRow, now: int)
    requires Run(ws, es) && r < k < j < |ws| && es[r].LoginReads? && es[k].LoginIssues? && es[k].row == row
    requires ReadLogin(ws[r].db, es[r].username, es[r].password) == Some(row)
    requires forall m :: r <= m < j ==> !Ends(ws[m], es[m], row.id)
    ensures var access := IssueTokens(ws[k].db, row, es[k].family, es[k].secret, es[k].signedAt, es[k].readAt).1;
            && access.Some? && access.value in ws[k + 1].minted
            && Authenticate(ws[j].db, access, now) == if now <= es[k].signedAt + 960 then access else None
  {
    var a := Mint(row, es[k].signedAt);
    assert Current(ws[r], a) && a.exp == es[k].signedAt + 900;
    CurrentHeld(ws, es, r, k, a);
    CurrentHeld(ws, es, k, j, a);
    assert Step(ws[k], es[k], ws[k + 1]);
  }

  ghost predicate Brief(w: World) {
    forall a :: a in w.minted ==> a.exp <= w.now + 900
  }

  /** No access token of any run is accepted more than sixteen minutes after it was there. */
  lemma AccessIsBrief(ws: seq<World>, es: seq<Event>, k: nat, j: nat, a: Access, now: int)
    requires Run(ws, es) && k < |ws| && j < |ws| && a in ws[k].minted && now > ws[k].now + 960
    ensures Authenticate(ws[j].db, Some(a), now) == None
  {
    forall w, e, next | Brief(w) && Step(w, e, next)
      ensures Brief(next)
    {
      BriefStep(w, e);
    }
    Runs.KeptThroughout(Step, Brief, ws, es, 0, k);
  }

  lemma BriefStep(w: World, e: Event)
    requires Brief(w) && Possible(w, e)
    ensures Brief(Next(w, e))
  {
  }

  /** A login that finds its account starts a family of one token, alive for thirty days by
      every clock. */
  lemma LoginStartsFamily(ws: seq<World>, es: seq<Event>, k: nat, at: int)
    requires Run(ws, es) && k < |es| && es[k].LoginIssues? && es[k].row.id in ws[k].db.users
    ensures var f := es[k].family;
            && f !in ws[k].db.families && f in ws[k + 1].issued && ws[k + 1].issued[f] == [HashOf(Token(f, es[k].secret))]
            && (AliveAt(ws[k + 1], f, at) <==> at <= es[k].readAt + 2_592_000)
            && ws[k + 1].db.families[f].user == es[k].row.id
            && ws[k + 1].db.families - {f} == ws[k].db.families
  {
    AlwaysConsistent(ws, es, k);
    assert Step(ws[k], es[k], ws[k + 1]);
  }

  /** Nor does a login still in flight bring one back: a row read before the change mints only
      access tokens that are refused. */
  lemma LateLoginIsRefused(ws: seq<World>, es: seq<Event>, k: nat, j: nat, row: LoginRow, minted: int, now: int)
    requires Run(ws, es) && k < |es| && row in ws[k].rowsRead && Ends(ws[k], es[k], row.id)
    requires k < j < |ws|
    ensures Authenticate(ws[j].db, Some(Mint(row, minted)), now) == None
  {
    AlwaysConsistent(ws, es, k);
    assert Spent(ws[k + 1], row.id, row.version);
    SpentForEver(ws, es, k + 1, j, row.id, row.version);
  }

  // ------------------------------------------------------------------- passwords

  /** The event commits this password for the account: at setup, creation or a reset. */
  ghost predicate Enters(w: World, e: Event, id: UserId, username: string, password: string) {
    match e
    case Setup(i, u, p) => (i, u, p) == (id, username, password) && CompleteSetup(w.db, i, u, p).1 == SetupDone
    case Create(i, u, p, admin) => (i, u, p) == (id, username, password) && CreateUser(w.db, i, u, p, admin).1 == Created
    case Reset(u, p) =>
      && (u, p) == (username, password) && ResetPassword(w.db, u, p, w.now).1 == PasswordReset
      && Named(w.db.users, u) == Some(id)
    case _ => false
  }

  ghost predicate Replaces(w: World, e: Event, id: UserId) {
    (e.Reset? || e.Delete?) && Ends(w, e, id)
  }

  ghost predicate Knows(w: World, id: UserId, username: string, password: string) {
    id in w.db.users && w.db.users[id].username == username && w.db.users[id].password == password
  }

  lemma KnowsStep(w: World, e: Event, id: UserId, username: string, password: string)
    requires Consistent(w) && Possible(w, e) && Knows(w, id, username, password) && !Replaces(w, e, id)
    ensures Knows(Next(w, e), id, username, password)
  {
  }

  lemma EntersKnows(w: World, e: Event, id: UserId, username: string, password: string)
    requires Consistent(w) && Possible(w, e) && Enters(w, e, id, username, password)
    ensures Knows(Next(w, e), id, username, password)
  {
  }

  /** Once set, created or reset, a password and no other logs the account in, until the
      next reset or the deletion; the row read is the account's own. */
  lemma PasswordHolds(ws: seq<World>, es: seq<Event>, k: nat, j: nat, id: UserId, username: string, password: string, tried: string)
    requires Run(ws, es) && k < j < |ws| && Enters(ws[k], es[k], id, username, password)
    requires forall m :: k < m < j ==> !Replaces(ws[m], es[m], id)
    ensures ReadLogin(ws[j].db, username, tried).Some? <==> tried == password
    ensures tried == password ==>
              && ReadLogin(ws[j].db, username, tried).value.id == id
              && ReadLogin(ws[j].db, username, tried).value.username == username
  {
    var good := w => Consistent(w) && Knows(w, id, username, password);
    var quiet := (w, e, next) => Step(w, e, next) && !Replaces(w, e, id);
    forall w, e, next | good(w) && quiet(w, e, next)
      ensures good(next)
    {
      StepKeepsConsistent(w, e);
      KnowsStep(w, e, id, username, password);
    }
    AlwaysConsistent(ws, es, k);
    assert Step(ws[k], es[k], ws[k + 1]);
    EntersKnows(ws[k], es[k], id, username, password);
    AlwaysConsistent(ws, es, k + 1);
    Runs.KeptThroughout(quiet, good, ws, es, k + 1, j);
    assert Knows(ws[j], id, username, password);
  }

  /** A role change gives or takes the flag, and no login, restart or other event does until
      the next. */
  lemma RoleChangeTakes(ws: seq<World>, es: seq<Event>, k: nat, j: nat, id: UserId)
    requires Run(ws, es) && k < j < |ws| && es[k].SetRole? && es[k].id == id && Ends(ws[k], es[k], id)
    requires forall m :: k < m < j ==> !Ends(ws[m], es[m], id)
    ensures id in ws[j].db.users && ws[j].db.users[id].isAdmin == es[k].admin
  {
    assert Step(ws[k], es[k], ws[k + 1]);
    var u := ws[k + 1].db.users[id];
    CurrentHeld(ws, es, k + 1, j, Access(id, u.username, es[k].admin, u.authVersion, 0));
  }

  // ----------------------------------------------------------------- the last admin

  ghost predicate HasAdmin(w: World) {
    Admins(w.db.users) != {}
  }

  /** Taking one account out of two or more administrators leaves another. */
  lemma AnotherAdmin(users: map<UserId, User>, id: UserId) returns (other: UserId)
    requires |Admins(users)| > 1
    ensures other in Admins(users) && other != id
  {
    assert |Admins(users) - {id}| >= 1;
    other :| other in Admins(users) - {id};
  }

  lemma SetAdminKeepsOne(db: Db, id: UserId, admin: bool)
    requires Admins(db.users) != {}
    ensures Admins(SetAdmin(db, id, admin).0.users) != {}
  {
    var after := SetAdmin(db, id, admin).0.users;
    if |Admins(db.users)| > 1 {
      var other := AnotherAdmin(db.users, id);
      assert other in Admins(after);
    } else if id in after && admin {
      var a :| a in Admins(db.users);
      assert a in Admins(after);
    }
  }

  lemma DeleteKeepsOne(db: Db, id: UserId)
    requires Admins(db.users) != {}
    ensures Admins(DeleteUser(db, id).0.users) != {}
  {
    var after := DeleteUser(db, id).0.users;
    if |Admins(db.users)| > 1 {
      var other := AnotherAdmin(db.users, id);
      assert other in Admins(after);
    } else {
      var a :| a in Admins(db.users);
      assert a in after ==> a in Admins(after);
    }
  }

  lemma AdminSurvivesStep(w: World, e: Event)
    requires Consistent(w) && Possible(w, e) && HasAdmin(w)
    ensures HasAdmin(Next(w, e))
  {
    match e {
      case SetRole(id, admin) => SetAdminKeepsOne(w.db, id, admin);
      case Delete(id) => DeleteKeepsOne(w.db, id);
      case _ =>
        var a :| a in Admins(w.db.users);
        assert a in Next(w, e).db.users;
        assert a in Admins(Next(w, e).db.users);
    }
  }

  /** Once an administrator exists, every interleaving of promotions, demotions,
      deletions and creations leaves at least one. */
  lemma AlwaysAnAdmin(ws: seq<World>, es: seq<Event>, i: nat, j: nat)
    requires Run(ws, es) && i <= j < |ws| && HasAdmin(ws[i])
    ensures HasAdmin(ws[j])
  {
    var good := w => Consistent(w) && HasAdmin(w);
    forall w, e, next | good(w) && Step(w, e, next)
      ensures good(next)
    {
      StepKeepsConsistent(w, e);
      AdminSurvivesStep(w, e);
    }
    AlwaysConsistent(ws, es, i);
    Runs.KeptThroughout(Step, good, ws, es, i, j);
  }

  ghost predicate SetsUp(w: World, e: Event) {
    e.Setup? && CompleteSetup(w.db, e.id, e.username, e.password).1 == SetupDone
  }

  /** Concurrent claims of first-run setup succeed at most once in a run, and whatever
      happens after the one that did, the hub keeps an administrator. */
  lemma SetupHappensOnce(ws: seq<World>, es: seq<Event>, i: nat, j: nat)
    requires Run(ws, es) && i < j < |ws| && SetsUp(ws[i], es[i])
    ensures HasAdmin(ws[j])
    ensures j < |es| ==> !SetsUp(ws[j], es[j])
  {
    assert Step(ws[i], es[i], ws[i + 1]);
    AlwaysConsistent(ws, es, i);
    assert es[i].id in Admins(ws[i + 1].db.users);
    AlwaysAnAdmin(ws, es, i + 1, j);
    var admin :| admin in Admins(ws[j].db.users);
    assert admin in ws[j].db.users;
  }
}
