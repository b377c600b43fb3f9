// The hub's authentication object over the stored rows, each method proved against
// the transaction it performs.

module AuthHub {
  import opened Wrappers
  import opened AuthStore

  ghost predicate OnlyAdministrator(accounts: map<UserId, User>, id: UserId) {
    id in accounts && accounts[id].isAdmin && forall other :: other in accounts && other != id ==> !accounts[other].isAdmin
  }

  lemma OnlyOne(accounts: map<UserId, User>, id: UserId)
    requires id in accounts && accounts[id].isAdmin
    ensures OnlyAdministrator(accounts, id) <==> |Admins(accounts)| <= 1
  {
    var admins := Admins(accounts);
    assert |admins| == 1 + |admins - {id}|;
    if |admins| <= 1 {
      forall other | other in accounts && other != id
        ensures !accounts[other].isAdmin
      {
        assert other !in admins - {id};
      }
    } else {
      var other :| other in admins - {id};
      assert other in accounts && accounts[other].isAdmin;
    }
  }

  /** The family of this account is revoked now, any other stays as it was. */
  ghost predicate RevokedFor(before: Family, after: Family, user: UserId, now: int) {
    if before.user == user then
      && after.user == user && after.revokedAt == Some(now) && after.expiresAt == before.expiresAt
      && after.current == before.current && after.previous == before.previous
    else after == before
  }

  ghost predicate ResetTo(before: Db, after: Db, id: UserId, username: string, password: string, now: int) {
    && id in before.users && before.users[id].username == username
    && id in after.users && after.users - {id} == before.users - {id}
    && after.users[id] == User(username, password, before.users[id].isAdmin, before.users[id].authVersion + 1)
    && after.families.Keys == before.families.Keys
    && forall f :: f in after.families ==> RevokedFor(before.families[f], after.families[f], id, now)
  }

  /** The family is alive and holds the presented token, as its newest or the one before. */
  ghost predicate Rotates(family: Family, t: Token, now: int) {
    && family.revokedAt == None && family.expiresAt >= now
    && (family.current == HashOf(t) || family.previous == Some(HashOf(t)))
  }

  class Hub {
    var users: map<UserId, User>
    var families: map<FamilyId, Family>
    var setupRequired: bool

    ghost function Store(): Db
      reads this
    {
      Db(users, families)
    }

    /** Names stay unique and no family outlives its account: the two constraints
        of the schema that the statements below rely on. */
    ghost predicate Valid()
      reads this
    {
      && UniqueNames(users)
      && (forall f :: f in families ==> families[f].user in users)
    }

    /** Start a hub over stored rows. */
    constructor (db: Db, now: int)
      requires UniqueNames(db.users) && forall f :: f in db.families ==> db.families[f].user in db.users
      ensures Valid() && Store() == Pruned(db, now)
      ensures users == db.users && (setupRequired <==> db.users == map[])
      ensures forall f :: f in families <==> f in db.families && db.families[f].expiresAt >= now
      ensures forall f :: f in families ==> families[f] == db.families[f]
    {
      users := db.users;
      families := map f | f in db.families && db.families[f].expiresAt >= now :: db.families[f];
      setupRequired := |db.users| == 0;
    }

    method CompleteSetup(id: UserId, username: string, password: string) returns (outcome: SetupOutcome)
      requires Valid() && id !in users
      modifies this
      ensures Valid()
      ensures (Store(), outcome) == AuthStore.CompleteSetup(old(Store()), id, username, password)
      ensures outcome == SetupDone <==> username != "" && |password| >= 12 && old(users) == map[]
      ensures outcome == InvalidInput <==> username == "" || |password| < 12
      ensures outcome == SetupDone ==> users == map[id := User(username, password, true, 1)] && !setupRequired
      ensures outcome != SetupDone ==> users == old(users)
      ensures families == old(families)
      ensures outcome != SetupDone ==> setupRequired == old(setupRequired)
    {
      if !CredentialsAccepted(username, password) {
        return InvalidInput;
      }
      if |users| != 0 {
        return AlreadyCompleted;
      }
      users := users[id := User(username, password, true, 1)];
      setupRequired := false;
      return SetupDone;
    }

    method CreateUser(id: UserId, username: string, password: string, admin: bool) returns (outcome: CreateOutcome)
      requires Valid() && id !in users
      modifies this`users
      ensures Valid()
      ensures (Store(), outcome) == AuthStore.CreateUser(old(Store()), id, username, password, admin)
      ensures outcome == Refused <==> username == "" || |password| < 12
      ensures outcome == Created ==> users == old(users)[id := User(username, password, admin, 1)]
      ensures outcome == Created ==> forall other :: other in old(users) ==> old(users)[other].username != username
      ensures outcome == UsernameTaken ==> exists other :: other in users && users[other].username == username
      ensures outcome != Created ==> users == old(users)
    {
      if !CredentialsAccepted(username, password) {
        return Refused;
      }
      if exists other :: other in users && users[other].username == username {
        return UsernameTaken;
      }
      users := users[id := User(username, password, admin, 1)];
      return Created;
    }

    method SetAdmin(id: UserId, admin: bool) returns (outcome: SetAdminOutcome)
      requires Valid()
      modifies this`users
      ensures Valid()
      ensures (Store(), outcome) == AuthStore.SetAdmin(old(Store()), id, admin)
      ensures outcome == NoSuchUser <==> id !in users
      ensures outcome == Unchanged <==> id in old(users) && old(users)[id].isAdmin == admin
      ensures outcome == LastAdmin <==> id in old(users) && OnlyAdministrator(old(users), id) && !admin
      ensures outcome == Changed ==>
        && id in users && users[id].isAdmin == admin && users[id].authVersion == old(users)[id].authVersion + 1
        && users[id].username == old(users)[id].username && users[id].password == old(users)[id].password
        && users - {id} == old(users) - {id}
      ensures outcome != Changed ==> users == old(users)
    {
      if id !in users {
        return NoSuchUser;
      }
      var was := users[id];
      if was.isAdmin == admin {
        return Unchanged;
      }
      if was.isAdmin {
        OnlyOne(users, id);
      }
      if admin || |Admins(users)| > 1 {
        users := users[id := was.(isAdmin := admin, authVersion := was.authVersion + 1)];
        return Changed;
      }
      return LastAdmin;
    }

    method DeleteUser(id: UserId) returns (outcome: DeleteOutcome)
      requires Valid()
      modifies this`users, this`families
      ensures Valid()
      ensures (Store(), outcome) == AuthStore.DeleteUser(old(Store()), id)
      ensures outcome == NotFound <==> id !in old(users)
      ensures outcome == OnlyAdmin <==> id in old(users) && OnlyAdministrator(old(users), id)
      ensures outcome.Deleted? ==> id in old(users) && outcome.username == old(users)[id].username && users == old(users) - {id}
      ensures outcome.Deleted? ==> forall f :: f in families <==> f in old(families) && old(families)[f].user != id
      ensures !outcome.Deleted? ==> users == old(users) && families == old(families)
      ensures forall f :: f in families ==> families[f] == old(families)[f]
    {
      if id !in users {
        return NotFound;
      }
      var username := users[id].username;
      if users[id].isAdmin {
        OnlyOne(users, id);
      }
      if !users[id].isAdmin || |Admins(users)| > 1 {
        users := users - {id};
        families := map f | f in families && families[f].user != id :: families[f];
        return Deleted(username);
      }
      return OnlyAdmin;
    }

    method ResetPassword(username: string, password: string, now: int) returns (outcome: ResetOutcome)
      requires Valid()
      modifies this`users, this`families
      ensures Valid()
      ensures (Store(), outcome) == AuthStore.ResetPassword(old(Store()), username, password, now)
      ensures outcome == ResetRefused <==> username == "" || |password| < 12
      ensures outcome == ResetNoSuchUser ==> forall id :: id in users ==> users[id].username != username
      ensures outcome != PasswordReset ==> users == old(users) && families == old(families)
      ensures outcome == PasswordReset ==> exists id :: ResetTo(old(Store()), Store(), id, username, password, now)
    {
      if !CredentialsAccepted(username, password) {
        return ResetRefused;
      }
      if id :| id in users && users[id].username == username {
        assert Named(users, username) == Some(id);
        users := users[id := users[id].(password := password, authVersion := users[id].authVersion + 1)];
        families := RevokeAll(families, id, now);
        assert ResetTo(old(Store()), Store(), id, username, password, now);
        return PasswordReset;
      } else {
        return ResetNoSuchUser;
      }
    }

    method ReadLogin(username: string, password: string) returns (row: Option<LoginRow>)
      requires Valid()
      ensures row == AuthStore.ReadLogin(Store(), username, password)
      ensures row.Some? <==> exists id :: id in users && users[id].username == username && users[id].password == password
      ensures row.Some? ==>
        && row.value.id in users && row.value.username == username
        && users[row.value.id] == User(username, password, row.value.admin, row.value.version)
    {
      if id :| id in users && users[id].username == username {
        assert Named(users, username) == Some(id);
        row := if users[id].password == password then Some(RowOf(users, id)) else None;
      } else {
        row := None;
      }
    }

    method IssueTokens(row: LoginRow, family: FamilyId, secret: nat, signedAt: int, now: int) returns (access: Option<Access>)
      requires Valid() && family !in families
      modifies this`families
      ensures Valid()
      ensures (Store(), access) == AuthStore.IssueTokens(old(Store()), row, family, secret, signedAt, now)
      ensures access == if row.id in users then Some(Access(row.id, row.username, row.admin, row.version, signedAt + 900)) else None
      ensures access.Some? ==>
        families == old(families)[family := Family(row.id, HashOf(Token(family, secret)), None, now + 2_592_000, None)]
      ensures access.None? ==> families == old(families)
    {
      if row.id !in users {
        return None;
      }
      families := families[family := Family(row.id, HashOf(Token(family, secret)), None, now + REFRESH_TTL_SECS, None)];
      return Some(Mint(row, signedAt));
    }

    method Refresh(presented: Option<Token>, secret: nat, now: int, signedAt: int) returns (access: Option<Access>)
      requires Valid()
      modifies this`families
      ensures Valid()
      ensures (Store(), access) == AuthStore.Refresh(old(Store()), presented, secret, now, signedAt)
      ensures access.Some? <==> presented.Some? && presented.value.family in old(families)
                                && Rotates(old(families)[presented.value.family], presented.value, now)
      ensures access.Some? ==>
        var f, was := presented.value.family, old(families)[presented.value.family];
        && families == old(families)[f := Family(was.user, HashOf(Token(f, secret)), Some(was.current), now + 2_592_000, None)]
        && var u := users[was.user];
           access.value == Access(was.user, u.username, u.isAdmin, u.authVersion, signedAt + 900)
      ensures access.None? && presented.Some? && presented.value.family in old(families) ==>
        var f, was := presented.value.family, old(families)[presented.value.family];
        families == if was.revokedAt == None && was.expiresAt >= now
                    then old(families)[f := Family(was.user, was.current, was.previous, was.expiresAt, Some(now))]
                    else old(families)
      ensures presented.None? || presented.value.family !in old(families) ==> families == old(families)
    {
      if presented == None {
        return None;
      }
      var t := presented.value;
      var changed := 0;
      if t.family in families && Live(families[t.family], now) && Matches(families[t.family], HashOf(t)) {
        families := families[t.family := Rotated(families[t.family], HashOf(Token(t.family, secret)), now)];
        changed := 1;
      }
      if changed == 0 {
        if t.family in families {
          var family := families[t.family];
          if family.revokedAt == None && family.expiresAt >= now
             && family.current != HashOf(t) && family.previous != Some(HashOf(t)) {
            families := families[t.family := family.(revokedAt := Some(now))];
          }
        }
        return None;
      }
      return Some(Mint(RowOf(users, families[t.family].user), signedAt));
    }

    method Logout(user: UserId, presented: Option<Token>, now: int)
      requires Valid()
      modifies this`families
      ensures Valid()
      ensures Store() == AuthStore.Logout(old(Store()), user, presented, now)
      ensures forall f :: f in families <==> f in old(families)
      ensures forall f :: f in families ==>
        var was := old(families)[f];
        families[f] == if presented.Some? && presented.value.family == f && was.user == user
                          && was.current == HashOf(presented.value) && was.revokedAt == None
                       then Family(was.user, was.current, was.previous, was.expiresAt, Some(now))
                       else was
    {
      if presented.Some? {
        var t := presented.value;
        if t.family in families {
          var family := families[t.family];
          if family.user == user && family.current == HashOf(t) && family.revokedAt == None {
            families := families[t.family := family.(revokedAt := Some(now))];
          }
        }
      }
    }

    method Authenticate(bearer: Option<Access>, now: int) returns (claims: Option<Access>)
      requires Valid()
      ensures claims == AuthStore.Authenticate(Store(), bearer, now)
      // The account row is authoritative for the name and the role, whatever the token says.
      ensures claims.Some? ==>
        && bearer.Some? && claims.value.sub == bearer.value.sub && claims.value.sub in users
        && claims.value.admin == users[claims.value.sub].isAdmin
        && claims.value.username == users[claims.value.sub].username
      // It is answered up to a minute past its expiry, while the account is at its version.
      ensures claims.Some? <==> bearer.Some? && now <= bearer.value.exp + 60 && bearer.value.sub in users
                                && users[bearer.value.sub].authVersion == bearer.value.version
    {
      if bearer == None {
        return None;
      }
      var token := bearer.value;
      if token.exp + EXPIRY_LEEWAY_SECS < now || token.sub !in users {
        return None;
      }
      var row := users[token.sub];
      if token.version != row.authVersion {
        return None;
      }
      return Some(Access(token.sub, row.username, row.isAdmin, row.authVersion, token.exp));
    }
  }
}
