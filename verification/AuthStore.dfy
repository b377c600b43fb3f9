// Accounts, refresh-token families and access tokens: the rows each committed
// transaction reads and writes. Every transaction is one atomic step. SHA-256 and
// Argon2 are taken to be injective, random ids and secrets to be fresh.

module AuthStore {
  import opened Wrappers

  type UserId = nat
  type FamilyId = nat

  const ACCESS_TTL_SECS := 15 * 60
  const REFRESH_TTL_SECS := 30 * 24 * 3600
  const MIN_PASSWORD_CHARS := 12
  /** The clock skew the JWT library forgives when it checks `exp`. */
  const EXPIRY_LEEWAY_SECS := 60

  /** A well-formed refresh token `v1.<family>.<secret>`. */
  datatype Token = Token(family: FamilyId, secret: nat)

  datatype Hash = HashOf(token: Token)

  datatype User = User(username: string, password: string, isAdmin: bool, authVersion: int)

  datatype Family = Family(user: UserId, current: Hash, previous: Option<Hash>,
                           expiresAt: int, revokedAt: Option<int>)

  datatype Db = Db(users: map<UserId, User>, families: map<FamilyId, Family>)

  /** The claims of a signed access token. */
  datatype Access = Access(sub: UserId, username: string, admin: bool, version: int, exp: int)

  const EMPTY := Db(map[], map[])

  ghost predicate UniqueNames(users: map<UserId, User>) {
    forall i, j :: i in users && j in users && users[i].username == users[j].username ==> i == j
  }

  ghost function Named(users: map<UserId, User>, username: string): (r: Option<UserId>)
    ensures r.Some? ==> r.value in users && users[r.value].username == username
    ensures r.None? ==> forall id :: id in users ==> users[id].username != username
  {
    if exists id :: id in users && users[id].username == username then
      var id :| id in users && users[id].username == username;
      Some(id)
    else
      None
  }

  function Admins(users: map<UserId, User>): set<UserId> {
    set id | id in users && users[id].isAdmin
  }

  predicate CredentialsAccepted(username: string, password: string) {
    username != "" && |password| >= MIN_PASSWORD_CHARS
  }

  // ------------------------------------------------------------------ accounts

  datatype SetupOutcome = SetupDone | InvalidInput | AlreadyCompleted

  function CompleteSetup(db: Db, id: UserId, username: string, password: string): (Db, SetupOutcome) {
    if !CredentialsAccepted(username, password) then (db, InvalidInput)
    else if |db.users| != 0 then (db, AlreadyCompleted)
    else (db.(users := db.users[id := User(username, password, true, 1)]), SetupDone)
  }

  datatype CreateOutcome = Created | Refused | UsernameTaken

  function CreateUser(db: Db, id: UserId, username: string, password: string, admin: bool): (Db, CreateOutcome) {
    if !CredentialsAccepted(username, password) then (db, Refused)
    else if exists other :: other in db.users && db.users[other].username == username then (db, UsernameTaken)
    else (db.(users := db.users[id := User(username, password, admin, 1)]), Created)
  }

  datatype SetAdminOutcome = Changed | Unchanged | NoSuchUser | LastAdmin

  function SetAdmin(db: Db, id: UserId, admin: bool): (Db, SetAdminOutcome) {
    if id !in db.users then (db, NoSuchUser)
    else
      var was := db.users[id];
      if was.isAdmin == admin then (db, Unchanged)
      else if admin || |Admins(db.users)| > 1 then
        (db.(users := db.users[id := was.(isAdmin := admin, authVersion := was.authVersion + 1)]), Changed)
      else (db, LastAdmin)
  }

  datatype DeleteOutcome = Deleted(username: string) | NotFound | OnlyAdmin

  function DeleteUser(db: Db, id: UserId): (Db, DeleteOutcome) {
    if id !in db.users then (db, NotFound)
    else if !db.users[id].isAdmin || |Admins(db.users)| > 1 then
      (Db(db.users - {id}, map f | f in db.families && db.families[f].user != id :: db.families[f]),
       Deleted(db.users[id].username))
    else (db, OnlyAdmin)
  }

  function RevokeAll(families: map<FamilyId, Family>, user: UserId, now: int): map<FamilyId, Family> {
    map f | f in families ::
      if families[f].user == user then families[f].(revokedAt := Some(now)) else families[f]
  }

  datatype ResetOutcome = PasswordReset | ResetRefused | ResetNoSuchUser

  ghost function ResetPassword(db: Db, username: string, password: string, now: int): (Db, ResetOutcome) {
    if !CredentialsAccepted(username, password) then (db, ResetRefused)
    else match Named(db.users, username)
      case None => (db, ResetNoSuchUser)
      case Some(id) => (ResetOf(db, id, password, now), PasswordReset)
  }

  function ResetOf(db: Db, id: UserId, password: string, now: int): Db
    requires id in db.users
  {
    var u := db.users[id];
    Db(db.users[id := u.(password := password, authVersion := u.authVersion + 1)],
       RevokeAll(db.families, id, now))
  }

  // -------------------------------------------------------------------- tokens

  /** What `login` read of the account before it inserts the new family; the two
      are separate statements, so other transactions may commit in between. */
  datatype LoginRow = LoginRow(id: UserId, username: string, admin: bool, version: int)

  ghost function ReadLogin(db: Db, username: string, password: string): Option<LoginRow> {
    match Named(db.users, username)
    case None => None
    case Some(id) => if db.users[id].password == password then Some(RowOf(db.users, id)) else None
  }

  function RowOf(users: map<UserId, User>, id: UserId): LoginRow
    requires id in users
  {
    LoginRow(id, users[id].username, users[id].isAdmin, users[id].authVersion)
  }

  function Mint(row: LoginRow, signedAt: int): Access {
    Access(row.id, row.username, row.admin, row.version, signedAt + ACCESS_TTL_SECS)
  }

  /** The access token reads its own clock. The foreign key refuses a family for an account
      deleted since the read. */
  function IssueTokens(db: Db, row: LoginRow, family: FamilyId, secret: nat, signedAt: int, now: int): (Db, Option<Access>) {
    if row.id !in db.users then (db, None)
    else
      var started := Family(row.id, HashOf(Token(family, secret)), None, now + REFRESH_TTL_SECS, None);
      (db.(families := db.families[family := started]), Some(Mint(row, signedAt)))
  }

  predicate Live(family: Family, now: int) {
    family.revokedAt == None && family.expiresAt >= now
  }

  predicate Matches(family: Family, hash: Hash) {
    family.current == hash || family.previous == Some(hash)
  }

  function Rotated(family: Family, next: Hash, now: int): Family {
    family.(previous := Some(family.current), current := next, expiresAt := now + REFRESH_TTL_SECS)
  }

  /** `presented` is None for anything that does not parse as a refresh token. The rotation
      uses the clock read before it waited, the access token the one at its signing. */
  function Refresh(db: Db, presented: Option<Token>, secret: nat, now: int, signedAt: int): (Db, Option<Access>) {
    match presented
    case None => (db, None)
    case Some(t) =>
      if t.family !in db.families then (db, None)
      else
        var family := db.families[t.family];
        if Live(family, now) && Matches(family, HashOf(t)) && family.user in db.users then
          (db.(families := db.families[t.family := Rotated(family, HashOf(Token(t.family, secret)), now)]),
           Some(Mint(RowOf(db.users, family.user), signedAt)))
        else if Live(family, now) && !Matches(family, HashOf(t)) then
          (db.(families := db.families[t.family := family.(revokedAt := Some(now))]), None)
        else (db, None)
  }

  function Logout(db: Db, user: UserId, presented: Option<Token>, now: int): Db {
    match presented
    case None => db
    case Some(t) =>
      if t.family in db.families && db.families[t.family].user == user
         && db.families[t.family].current == HashOf(t) && db.families[t.family].revokedAt == None
      then db.(families := db.families[t.family := db.families[t.family].(revokedAt := Some(now))])
      else db
  }

  /** `bearer` is None when the signature, issuer, audience or type is wrong. */
  function Authenticate(db: Db, bearer: Option<Access>, now: int): Option<Access> {
    match bearer
    case None => None
    case Some(a) =>
      if a.exp + EXPIRY_LEEWAY_SECS >= now && a.sub in db.users && a.version == db.users[a.sub].authVersion
      then Some(Access(a.sub, db.users[a.sub].username, db.users[a.sub].isAdmin, a.version, a.exp))
      else None
  }

  /** What a hub start removes: families past their expiry. */
  function Pruned(db: Db, now: int): Db {
    db.(families := map f | f in db.families && db.families[f].expiresAt >= now :: db.families[f])
  }
}
