// Library grants: a complete set is written only over the state its author read.

module Grants {
  import opened Wrappers
  import Runs

  /** A user's row: the flag, the version of the grants, and the libraries listed. */
  datatype Account = Account(all: bool, version: nat, libraries: set<string>)

  datatype SetAccess = Applied(version: nat, libraries: set<string>) | Stale | NoSuchUser

  function Written(users: map<string, Account>, user: string, expected: nat, all: bool, libraries: set<string>)
      : (map<string, Account>, SetAccess)
  {
    if user !in users then (users, NoSuchUser)
    else if users[user].version != expected then (users, Stale)
    else (users[user := Account(all, expected + 1, libraries)], Applied(expected + 1, libraries))
  }

  /** Deleting a library takes it from every list and counts as a write to each. */
  function Withdrawn(users: map<string, Account>, library: string): map<string, Account> {
    map u | u in users ::
      if library in users[u].libraries then Account(users[u].all, users[u].version + 1, users[u].libraries - {library})
      else users[u]
  }

  class Store {
    var users: map<string, Account>

    /** `libraries` may repeat an id; a repeat is ignored. */
    method WriteAccess(user: string, expected: nat, all: bool, libraries: seq<string>) returns (r: SetAccess)
      modifies this
      ensures var written := Written(old(users), user, expected, all, set l | l in libraries);
              users == written.0 && r == written.1
      ensures r == NoSuchUser <==> user !in old(users)
      ensures r.Applied? <==> user in old(users) && old(users)[user].version == expected
      ensures r.Applied? ==> r.version == expected + 1 && forall l :: l in r.libraries <==> l in libraries
      ensures users == if r.Applied? then old(users)[user := Account(all, r.version, r.libraries)] else old(users)
    {
      if user !in users || users[user].version != expected {
        return if user in users then Stale else NoSuchUser;
      }
      var stored: set<string> := {};
      for i := 0 to |libraries|
        invariant stored == set l | l in libraries[..i]
        invariant users == old(users)
      {
        assert libraries[..i + 1] == libraries[..i] + [libraries[i]];
        stored := stored + {libraries[i]};
      }
      assert libraries[..|libraries|] == libraries;
      users := users[user := Account(all, expected + 1, stored)];
      return Applied(expected + 1, stored);
    }
  }

  // ----------------------------------------------------------------- what is visible

  predicate Restricted(users: map<string, Account>, user: string, admin: bool) {
    !admin && (user !in users || !users[user].all)
  }

  predicate CanSee(users: map<string, Account>, user: string, admin: bool, library: string) {
    admin || (user in users && (users[user].all || library in users[user].libraries))
  }

  /** The one check callers make first agrees with the check per library. */
  lemma RestrictedMeansSomethingHidden(users: map<string, Account>, user: string, admin: bool)
    ensures Restricted(users, user, admin) <==> exists library :: !CanSee(users, user, admin, library)
  {
    if Restricted(users, user, admin) {
      var library := Unlisted(if user in users then users[user].libraries else {});
      assert !CanSee(users, user, admin, library);
    }
  }

  function Repeat(n: nat): string {
    if n == 0 then [] else Repeat(n - 1) + ['x']
  }

  lemma {:induction false} RepeatLength(n: nat)
    ensures |Repeat(n)| == n
  {
    if n > 0 {
      RepeatLength(n - 1);
    }
  }

  /** Some string is longer than every listed one. */
  lemma {:induction false} Longer(listed: set<string>) returns (n: nat)
    ensures forall l :: l in listed ==> |l| < n
    decreases |listed|
  {
    if listed == {} {
      return 0;
    }
    var l :| l in listed;
    var m := Longer(listed - {l});
    n := if |l| < m then m else |l| + 1;
    forall k | k in listed
      ensures |k| < n
    {
      assert k != l ==> k in listed - {l};
    }
  }

  lemma Unlisted(listed: set<string>) returns (library: string)
    ensures library !in listed
  {
    var n := Longer(listed);
    library := Repeat(n);
    RepeatLength(n);
  }

  // -------------------------------------------------------------------------- runs

  /** `seen` is what each admin's panel last loaded; `ids` every account ever made. */
  datatype World = World(users: map<string, Account>, seen: map<nat, map<string, Account>>, ids: set<string>)

  datatype Event =
    | Load(admin: nat)
    | Save(admin: nat, user: string, all: bool, libraries: set<string>)
    | Create(user: string)
    | Delete(user: string)
    | DeleteLibrary(library: string)

  /** An admin saves an account its panel shows; account ids are never reused. */
  predicate Possible(w: World, e: Event) {
    match e
    case Save(admin, user, _, _) => admin in w.seen && user in w.seen[admin]
    case Create(user) => user !in w.ids
    case _ => true
  }

  function Outcome(w: World, e: Event): SetAccess
    requires Possible(w, e) && e.Save?
  {
    Written(w.users, e.user, w.seen[e.admin][e.user].version, e.all, e.libraries).1
  }

  function Next(w: World, e: Event): World
    requires Possible(w, e)
  {
    match e
    case Load(admin) => w.(seen := w.seen[admin := w.users])
    case Save(admin, user, all, libraries) =>
      w.(users := Written(w.users, user, w.seen[admin][user].version, all, libraries).0)
    case Create(user) => w.(users := w.users[user := Account(true, 0, {})], ids := w.ids + {user})
    case Delete(user) => w.(users := w.users - {user})
    case DeleteLibrary(library) => w.(users := Withdrawn(w.users, library))
  }

  ghost predicate Step(w: World, e: Event, next: World) {
    Possible(w, e) && next == Next(w, e)
  }

  ghost predicate Run(ws: seq<World>, es: seq<Event>) {
    Runs.Linked(Step, ws, es) && ws[0] == World(map[], map[], {})
  }

  /** What a panel shows of an account is old, or is what is stored. */
  ghost predicate Honest(w: World, admin: nat, user: string) {
    admin in w.seen && user in w.seen[admin] ==>
      && user in w.ids
      && (user in w.users ==>
            && w.seen[admin][user].version <= w.users[user].version
            && (w.seen[admin][user].version == w.users[user].version ==> w.seen[admin][user] == w.users[user]))
  }

  ghost predicate AllHonest(w: World) {
    (forall user :: user in w.users ==> user in w.ids) && forall admin, user :: Honest(w, admin, user)
  }

  lemma HonestKept(w: World, e: Event)
    requires AllHonest(w) && Possible(w, e)
    ensures AllHonest(Next(w, e))
  {
    var next := Next(w, e);
    forall admin, user
      ensures Honest(next, admin, user)
    {
      assert Honest(w, admin, user);
    }
  }

  lemma AlwaysHonest(ws: seq<World>, es: seq<Event>, k: nat)
    requires Run(ws, es) && k < |ws|
    ensures AllHonest(ws[k])
  {
    forall w, e, next | AllHonest(w) && Step(w, e, next)
      ensures AllHonest(next)
    {
      HonestKept(w, e);
    }
    Runs.KeptThroughout(Step, AllHonest, ws, es, 0, k);
  }

  /** In every run, a save is applied exactly when the account is what that admin's panel
      showed; it then stores exactly the set it reports, at a
      higher version, and leaves every other account alone. Otherwise nothing changes. */
  lemma AppliedOnlyOverWhatWasRead(ws: seq<World>, es: seq<Event>, k: nat)
    requires Run(ws, es) && k < |es| && es[k].Save?
    ensures Step(ws[k], es[k], ws[k + 1])
    ensures var e, w := es[k], ws[k];
            && (Outcome(w, e).Applied? <==> e.user in w.users && w.users[e.user] == w.seen[e.admin][e.user])
            && (Outcome(w, e) == NoSuchUser <==> e.user !in w.users)
    ensures var e, w, next := es[k], ws[k], ws[k + 1];
            match Outcome(w, e)
            case Applied(version, libraries) =>
              && e.user in w.users && w.users[e.user] == w.seen[e.admin][e.user]
              && version > w.users[e.user].version && libraries == e.libraries
              && next.users == w.users[e.user := Account(e.all, version, libraries)]
            case _ => next == w
  {
    AlwaysHonest(ws, es, k);
    assert Honest(ws[k], es[k].admin, es[k].user);
  }

  /** A deleted library is on no list any more; nothing else that anybody could see changes,
      and the accounts that listed it are at a new version. */
  lemma DeletedLibraryIsGone(ws: seq<World>, es: seq<Event>, k: nat, user: string, library: string, other: string)
    requires Run(ws, es) && k < |es| && es[k] == DeleteLibrary(library) && user in ws[k].users && other != library
    ensures user in ws[k + 1].users
    ensures var was, now := ws[k].users[user], ws[k + 1].users[user];
            && library !in now.libraries && now.all == was.all && (other in now.libraries <==> other in was.libraries)
            && now.version == if library in was.libraries then was.version + 1 else was.version
  {
    assert Step(ws[k], es[k], ws[k + 1]);
  }

  /** Of two saves made from the same load of the same account, at most one is applied. */
  lemma SecondSaveIsRefused(ws: seq<World>, es: seq<Event>, i: nat, j: nat)
    requires Run(ws, es) && i < j < |es| && es[i].Save? && es[j].Save? && es[i].user == es[j].user
    requires Possible(ws[i], es[i]) && Possible(ws[j], es[j])
    requires ws[i].seen[es[i].admin][es[i].user].version == ws[j].seen[es[j].admin][es[j].user].version
    requires Outcome(ws[i], es[i]).Applied?
    ensures !Outcome(ws[j], es[j]).Applied?
  {
    assert Step(ws[i], es[i], ws[i + 1]) && Step(ws[j], es[j], ws[j + 1]);
    var user, version := es[i].user, ws[i].users[es[i].user].version;
    var good := w => Beyond(w, user, version);
    AlwaysHonest(ws, es, i);
    assert Honest(ws[i], es[i].admin, user);
    forall w, e, next | good(w) && Step(w, e, next)
      ensures good(next)
    {
    }
    Runs.KeptThroughout(Step, good, ws, es, i + 1, j);
  }

  /** The account was made, and its version has passed a given one. */
  ghost predicate Beyond(w: World, user: string, version: nat) {
    user in w.ids && (user in w.users ==> w.users[user].version > version)
  }
}
