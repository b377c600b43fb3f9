// Taking a snapshot of a hub and restoring one. The databases are what SQLite's own
// snapshot returns; reading a manifest, file modes and I/O errors are not modelled.

module Backup {
  import opened Wrappers
  import opened SnapshotPaths
  import opened Snapshot
  import opened Staging
  import opened Walks

  const FORMAT := 4
  const HUB_DB := "hub.db"
  const MEDIA_DB := "mediadb.db"
  const PKI := "pki"
  const SUBTITLES := "subtitles"
  const KEY_FILE := "credentials.secret"
  const SECRET_FILES := ["jwt.secret", KEY_FILE, "metrics.secret"]
  const CONFIG := "kahawai.toml"

  /** What stands in a hub's data directory to be backed up, and the file named as its
      configuration: nothing, a file or a directory at each place. */
  datatype Hub = Hub(hubDb: Bytes, mediaDb: Option<Bytes>, pkiAt: Option<Node>, subtitlesAt: Option<Node>,
                     secretsAt: map<string, Node>, configAt: Option<Node>) {
    function Pki(): Option<Listing> {
      ListingAt(pkiAt)
    }

    function Subtitles(): Option<Listing> {
      ListingAt(subtitlesAt)
    }

    function Secrets(): map<string, Bytes> {
      map name | name in secretsAt && !secretsAt[name].Dir? :: secretsAt[name].data
    }

    function Config(): Option<Bytes> {
      BytesAt(configAt)
    }

    /** A tree is a directory where it stands, a secret or the configuration a file. */
    predicate RightKinds() {
      && (pkiAt.Some? ==> pkiAt.value.Dir?) && (subtitlesAt.Some? ==> subtitlesAt.value.Dir?)
      && (forall name :: name in SECRET_FILES && name in secretsAt ==> !secretsAt[name].Dir?)
      && (configAt.Some? ==> !configAt.value.Dir?)
    }
  }

  function ListingAt(at: Option<Node>): Option<Listing> {
    match at case Some(Dir(listing)) => Some(listing) case _ => None
  }

  function BytesAt(at: Option<Node>): Option<Bytes> {
    match at case Some(File(data)) => Some(data) case Some(Link(data)) => Some(data) case _ => None
  }

  datatype Manifest = Manifest(format: nat, mediadbBytes: Option<nat>, secrets: seq<string>, artifacts: seq<Artifact>)

  /** What reading a hub database for its credential key gives: an error when it cannot be
      opened or has no settings, no key, or the key's fingerprint. */
  datatype KeyMarker = Unreadable | NoKey | Names(fingerprint: string)

  /** The digest, what a hub database says of its credential key, and the key's
      fingerprint, all left open. */
  datatype Crypto = Crypto(sha: Digest, seeded: Bytes -> KeyMarker, fingerprint: Bytes -> string)

  // ------------------------------------------------------- what a snapshot holds

  function One(name: string, data: Option<Bytes>): map<Path, Bytes> {
    if data.Some? then map[[name] := data.value] else map[]
  }

  function Tree(name: string, listing: Option<Listing>): map<Path, Bytes> {
    if listing.Some? then Flatten(listing.value, [name]) else map[]
  }

  function Secret(hub: Hub, name: string): Option<Bytes> {
    if name in hub.Secrets() then Some(hub.Secrets()[name]) else None
  }

  function SecretFiles(hub: Hub, n: nat): map<Path, Bytes>
    requires n <= |SECRET_FILES|
  {
    if n == 0 then map[] else SecretFiles(hub, n - 1) + One(SECRET_FILES[n - 1], Secret(hub, SECRET_FILES[n - 1]))
  }

  /** Everything a restore puts back. */
  function HubFiles(hub: Hub): map<Path, Bytes> {
    One(HUB_DB, Some(hub.hubDb)) + One(MEDIA_DB, hub.mediaDb) + Tree(PKI, hub.Pki()) + Tree(SUBTITLES, hub.Subtitles())
    + SecretFiles(hub, |SECRET_FILES|)
  }

  /** Everything the manifest lists. */
  function SnapshotFiles(hub: Hub): map<Path, Bytes> {
    HubFiles(hub) + One(CONFIG, hub.Config())
  }

  predicate TreesWellFormed(hub: Hub) {
    (hub.Pki().Some? ==> WellFormed(hub.Pki().value)) && (hub.Subtitles().Some? ==> WellFormed(hub.Subtitles().value))
  }

  predicate KeyMatches(hub: Hub, crypto: Crypto) {
    match crypto.seeded(hub.hubDb)
    case Unreadable => false
    case NoKey => true
    case Names(expected) => KEY_FILE in hub.Secrets() && crypto.fingerprint(hub.Secrets()[KEY_FILE]) == expected
  }

  ghost predicate TreesNameable(hub: Hub) {
    AllPortable(Tree(PKI, hub.Pki())) && AllPortable(Tree(SUBTITLES, hub.Subtitles()))
  }

  /** What the manifest of a finished snapshot says. */
  ghost predicate Documents(m: Manifest, hub: Hub, sha: Digest) {
    && m.format == (if hub.mediaDb.Some? then FORMAT else 3)
    && m.mediadbBytes == (if hub.mediaDb.Some? then Some(|hub.mediaDb.value|) else None)
    && (forall name :: name in m.secrets <==> name in SECRET_FILES && name in hub.Secrets())
    && Describes(m.artifacts, SnapshotFiles(hub), sha)
  }

  // --------------------------------------------------- the same, one path at a time

  /** The file of the hub that a restore puts back at a path: a database, a secret, or what
      walking down a tree's directory finds. */
  function HubFileAt(hub: Hub, p: Path): Option<Bytes> {
    if p == ["hub.db"] then Some(hub.hubDb)
    else if p == ["mediadb.db"] then hub.mediaDb
    else if p == ["jwt.secret"] || p == ["credentials.secret"] || p == ["metrics.secret"] then
      if p[0] in hub.secretsAt then BytesAt(Some(hub.secretsAt[p[0]])) else None
    else if p != [] && p[0] == "pki" then WalkBelow(hub.pkiAt, p[1..])
    else if p != [] && p[0] == "subtitles" then WalkBelow(hub.subtitlesAt, p[1..])
    else None
  }

  lemma TreeAtPath(name: string, at: Option<Node>, p: Path)
    requires ListingAt(at).Some? ==> WellFormed(ListingAt(at).value)
    ensures At(Tree(name, ListingAt(at)), p) == if p != [] && p[0] == name then WalkBelow(at, p[1..]) else None
  {
    if ListingAt(at).Some? {
      TreeIsWalked(name, ListingAt(at).value, p);
    }
  }

  /** Every file the walk finds has a portable path. */
  ghost predicate WalksPortably(name: string, at: Option<Node>) {
    forall path :: WalkBelow(at, path).Some? ==> Portable([name] + path)
  }

  lemma TreePortable(name: string, at: Option<Node>)
    requires ListingAt(at).Some? ==> WellFormed(ListingAt(at).value)
    ensures AllPortable(Tree(name, ListingAt(at))) <==> WalksPortably(name, at)
  {
    var tree := Tree(name, ListingAt(at));
    if AllPortable(tree) {
      forall path | WalkBelow(at, path).Some?
        ensures Portable([name] + path)
      {
        TreeAtPath(name, at, [name] + path);
        assert ([name] + path)[1..] == path;
      }
    }
    if WalksPortably(name, at) {
      forall p | p in tree
        ensures Portable(p)
      {
        TreeAtPath(name, at, p);
        assert p == [name] + p[1..];
      }
    }
  }

  lemma {:induction false} SecretFilesAt(hub: Hub, n: nat, p: Path)
    requires n <= |SECRET_FILES|
    ensures p in SecretFiles(hub, n) <==> |p| == 1 && p[0] in SECRET_FILES[..n] && p[0] in hub.Secrets()
    ensures p in SecretFiles(hub, n) ==> SecretFiles(hub, n)[p] == hub.Secrets()[p[0]]
  {
    if n > 0 {
      SecretFilesAt(hub, n - 1, p);
      assert SECRET_FILES[..n] == SECRET_FILES[..n - 1] + [SECRET_FILES[n - 1]];
      if |p| == 1 && p[0] == SECRET_FILES[n - 1] {
        assert p == [SECRET_FILES[n - 1]];
      }
    }
  }

  lemma SecretsAtPath(hub: Hub, p: Path)
    ensures At(SecretFiles(hub, 3), p) ==
            if (p == ["jwt.secret"] || p == ["credentials.secret"] || p == ["metrics.secret"]) && p[0] in hub.secretsAt
            then BytesAt(Some(hub.secretsAt[p[0]])) else None
  {
    SecretFilesAt(hub, 3, p);
    assert SECRET_FILES[..3] == ["jwt.secret", "credentials.secret", "metrics.secret"];
  }

  lemma TopNames()
    ensures |"hub.db"| == 6 && |"mediadb.db"| == 10 && |"jwt.secret"| == 10 && |"credentials.secret"| == 18
    ensures |"metrics.secret"| == 14 && |"pki"| == 3 && |"subtitles"| == 9 && |"kahawai.toml"| == 12
    ensures "mediadb.db"[0] == 'm' && "jwt.secret"[0] == 'j'
  {
  }

  /** Everything a restore puts back is what the hub holds at each path. */
  lemma HubFilesAre(hub: Hub, p: Path)
    requires TreesWellFormed(hub)
    ensures At(HubFiles(hub), p) == HubFileAt(hub, p)
  {
    TopNames();
    TreeAtPath(PKI, hub.pkiAt, p);
    TreeAtPath(SUBTITLES, hub.subtitlesAt, p);
    SecretsAtPath(hub, p);
  }

  /** Whatever walking down a tree finds stands below the tree's name, and nothing else. */
  lemma TreesStand(hub: Hub, path: Path)
    requires TreesWellFormed(hub)
    ensures At(HubFiles(hub), ["pki"] + path) == WalkBelow(hub.pkiAt, path)
    ensures At(HubFiles(hub), ["subtitles"] + path) == WalkBelow(hub.subtitlesAt, path)
  {
    TopNames();
    assert (["pki"] + path)[1..] == path && (["subtitles"] + path)[1..] == path;
    HubFilesAre(hub, ["pki"] + path);
    HubFilesAre(hub, ["subtitles"] + path);
  }

  lemma SnapshotFilesAre(hub: Hub, p: Path)
    requires TreesWellFormed(hub)
    ensures At(SnapshotFiles(hub), p) == if p == ["kahawai.toml"] then BytesAt(hub.configAt) else HubFileAt(hub, p)
  {
    TopNames();
    HubFilesAre(hub, p);
  }

  // --------------------------------------------------------------- the list grows

  /** A snapshot in the making: files and list agree, under these top-level names. */
  ghost predicate Agree(listed: seq<Artifact>, files: map<Path, Bytes>, tops: set<string>, sha: Digest) {
    Describes(listed, files, sha) && Nameable(files) && forall p :: p in files ==> p[0] in tops
  }

  lemma OneMoreFile(listed: seq<Artifact>, files: map<Path, Bytes>, tops: set<string>, name: string, data: Bytes, sha: Digest)
    requires Agree(listed, files, tops, sha) && PortableName(name) && name !in tops
    ensures Agree(listed + [ArtifactFor([name], data, sha)], files[[name] := data], tops + {name}, sha)
    ensures files[[name] := data] == files + One(name, Some(data))
  {
    var one := map[[name] := data];
    OneFileDescribed([name], data, sha);
    assert [name] !in files;
    assert files + one == files[[name] := data];
    DescribesBoth(listed, files, [ArtifactFor([name], data, sha)], one, sha);
  }

  lemma OneMoreTree(listed: seq<Artifact>, files: map<Path, Bytes>, tops: set<string>, name: string, tree: Listing, sha: Digest)
    requires Agree(listed, files, tops, sha) && name !in tops
    requires WellFormed(tree) && AllPortable(Flatten(tree, [name]))
    ensures Agree(listed + ArtifactsOf(tree, [name], sha), files + Flatten(tree, [name]), tops + {name}, sha)
  {
    ArtifactsDescribeTree(tree, [name], sha);
    BelowIsNeverRoot(tree, [name]);
    forall p | p in Flatten(tree, [name])
      ensures p[0] == name
    {
      PathsBelow(tree, [name], p);
      assert p[..1][0] == name;
    }
    DescribesBoth(listed, files, ArtifactsOf(tree, [name], sha), Flatten(tree, [name]), sha);
  }

  lemma DatabaseNames()
    ensures PortableName(HUB_DB) && PortableName(MEDIA_DB) && PortableName(CONFIG)
  {
  }

  lemma TreeNames()
    ensures PortableName(PKI) && PortableName(SUBTITLES)
  {
  }

  lemma SecretName(n: nat)
    requires n < |SECRET_FILES|
    ensures PortableName(SECRET_FILES[n])
  {
    var name := SECRET_FILES[n];
    assert n == 0 || n == 1 || n == 2;
  }

  // ------------------------------------------------------------------- the methods

  lemma TreeAdds(name: string, at: Option<Node>, files: map<Path, Bytes>, tops: set<string>)
    requires (ListingAt(at).Some? ==> WellFormed(ListingAt(at).value)) && name !in tops
    requires forall p :: p in files ==> p != [] && p[0] in tops
    ensures forall p :: At(files + Tree(name, ListingAt(at)), p) ==
                        if p != [] && p[0] == name then WalkBelow(at, p[1..]) else At(files, p)
  {
    forall p: Path
      ensures At(files + Tree(name, ListingAt(at)), p) ==
              if p != [] && p[0] == name then WalkBelow(at, p[1..]) else At(files, p)
    {
      TreeAtPath(name, at, p);
    }
  }

  /** Copy one optional tree of the hub; a file in its place stops the backup. */
  method BackupTree(name: string, at: Option<Node>, dest: Folder, listed: seq<Artifact>, ghost tops: set<string>, sha: Digest)
    returns (more: Option<seq<Artifact>>)
    requires (ListingAt(at).Some? ==> WellFormed(ListingAt(at).value)) && PortableName(name)
    requires Agree(listed, dest.files, tops, sha) && name !in tops
    modifies dest
    ensures more.Some? <==> (at.Some? ==> at.value.Dir?) && AllPortable(Tree(name, ListingAt(at)))
    ensures more.Some? ==> dest.files == old(dest.files) + Tree(name, ListingAt(at))
                           && Agree(more.value, dest.files, tops + {name}, sha)
    ensures more.Some? <==> (at.Some? ==> at.value.Dir?) && WalksPortably(name, at)
    ensures more.Some? ==>
      forall p :: At(dest.files, p) ==
                  if p != [] && p[0] == name then WalkBelow(at, p[1..]) else At(old(dest.files), p)
  {
    TreePortable(name, at);
    TreeAdds(name, at, dest.files, tops);
    if at.None? {
      assert dest.files + Tree(name, None) == dest.files;
      return Some(listed);
    }
    if !at.value.Dir? {
      return None;
    }
    var listing := at.value.listing;
    assert forall n :: n in [name] ==> EntryName(n);
    var copied := CopySnapshotTree(listing, dest, [name], listed, sha);
    if copied.None? {
      return None;
    }
    OneMoreTree(listed, old(dest.files), tops, name, listing, sha);
    return Some(copied.value.artifacts);
  }

  /** Snapshot a hub into an empty destination. It fails exactly when the database cannot
      be read for its credential key or requires one the hub does not hold, something of the
      wrong kind stands where a tree, a secret or the configuration belongs, or a file
      cannot be named. */
  method TakeBackup(hub: Hub, dest: Folder, crypto: Crypto) returns (manifest: Option<Manifest>)
    requires TreesWellFormed(hub) && dest.files == map[]
    modifies dest
    ensures manifest.Some? <==> KeyMatches(hub, crypto) && hub.RightKinds() && TreesNameable(hub)
    ensures manifest.Some? ==> dest.files == SnapshotFiles(hub) && Documents(manifest.value, hub, crypto.sha)
    ensures TreesNameable(hub) <==> WalksPortably("pki", hub.pkiAt) && WalksPortably("subtitles", hub.subtitlesAt)
    ensures manifest.Some? ==>
      forall p :: At(dest.files, p) == if p == ["kahawai.toml"] then BytesAt(hub.configAt) else HubFileAt(hub, p)
  {
    TreePortable(PKI, hub.pkiAt);
    TreePortable(SUBTITLES, hub.subtitlesAt);
    forall p: Path
      ensures At(SnapshotFiles(hub), p) == if p == ["kahawai.toml"] then BytesAt(hub.configAt) else HubFileAt(hub, p)
    {
      SnapshotFilesAre(hub, p);
    }
    if !KeyMatches(hub, crypto) {
      return None;
    }
    var listed := BackupDatabases(hub, dest, crypto.sha);
    var trees := BackupTrees(hub, dest, listed, crypto.sha);
    if trees.None? {
      return None;
    }
    var kept, secrets := BackupSecrets(hub, dest, trees.value, crypto.sha);
    if kept.None? {
      return None;
    }
    assert SECRET_FILES[..|SECRET_FILES|] == SECRET_FILES;
    DatabaseNames();
    ConfigNameUnused();
    var rest := BackupFile(CONFIG, hub.configAt, dest, kept.value, Tops(|SECRET_FILES|), crypto.sha);
    if rest.None? {
      return None;
    }
    return Some(Manifest(if hub.mediaDb.Some? then FORMAT else 3,
                         if hub.mediaDb.Some? then Some(|hub.mediaDb.value|) else None,
                         secrets, rest.value));
  }

  method BackupTrees(hub: Hub, dest: Folder, listed: seq<Artifact>, sha: Digest) returns (more: Option<seq<Artifact>>)
    requires TreesWellFormed(hub) && Agree(listed, dest.files, Tops(0) - {PKI, SUBTITLES}, sha)
    modifies dest
    ensures more.Some? <==>
      (hub.pkiAt.Some? ==> hub.pkiAt.value.Dir?) && (hub.subtitlesAt.Some? ==> hub.subtitlesAt.value.Dir?) && TreesNameable(hub)
    ensures more.Some? ==> dest.files == old(dest.files) + Tree(PKI, hub.Pki()) + Tree(SUBTITLES, hub.Subtitles())
                           && Agree(more.value, dest.files, Tops(0), sha)
  {
    TreeNames();
    assert Tops(0) - {PKI, SUBTITLES} + {PKI} == Tops(0) - {SUBTITLES};
    assert Tops(0) - {SUBTITLES} + {SUBTITLES} == Tops(0);
    more := BackupTree(PKI, hub.pkiAt, dest, listed, Tops(0) - {PKI, SUBTITLES}, sha);
    if more.Some? {
      more := BackupTree(SUBTITLES, hub.subtitlesAt, dest, more.value, Tops(0) - {SUBTITLES}, sha);
    }
  }

  /** Copy one optional file; a directory in its place stops the backup. */
  method BackupFile(name: string, at: Option<Node>, dest: Folder, listed: seq<Artifact>, ghost tops: set<string>, sha: Digest)
    returns (more: Option<seq<Artifact>>)
    requires PortableName(name) && Agree(listed, dest.files, tops, sha) && name !in tops
    modifies dest
    ensures more.Some? <==> (at.Some? ==> !at.value.Dir?)
    ensures more.Some? ==> dest.files == old(dest.files) + One(name, BytesAt(at))
                           && Agree(more.value, dest.files, tops + {name}, sha)
  {
    if at.None? {
      return Some(listed);
    }
    if at.value.Dir? {
      return None;
    }
    OneMoreFile(listed, dest.files, tops, name, at.value.data, sha);
    dest.files := dest.files[[name] := at.value.data];
    return Some(listed + [ArtifactFor([name], at.value.data, sha)]);
  }

  method BackupDatabases(hub: Hub, dest: Folder, sha: Digest) returns (listed: seq<Artifact>)
    requires dest.files == map[]
    modifies dest
    ensures dest.files == One(HUB_DB, Some(hub.hubDb)) + One(MEDIA_DB, hub.mediaDb)
    ensures Agree(listed, dest.files, Tops(0) - {PKI, SUBTITLES}, sha)
  {
    DatabaseNames();
    assert Agree([], map[], {}, sha);
    var first := BackupFile(HUB_DB, Some(File(hub.hubDb)), dest, [], {}, sha);
    assert {} + {HUB_DB} == {HUB_DB} && MEDIA_DB !in {HUB_DB};
    var media := match hub.mediaDb case None => None case Some(data) => Some(File(data));
    var second := BackupFile(MEDIA_DB, media, dest, first.value, {HUB_DB}, sha);
    assert {HUB_DB} + {MEDIA_DB} == Tops(0) - {PKI, SUBTITLES};
    return second.value;
  }

  /** The top-level names in use before secret number n is copied. */
  ghost function Tops(n: nat): set<string>
    requires n <= |SECRET_FILES|
  {
    if n == 0 then {HUB_DB, MEDIA_DB, PKI, SUBTITLES} else Tops(n - 1) + {SECRET_FILES[n - 1]}
  }

  lemma SecretNameUnused(n: nat)
    requires n < |SECRET_FILES|
    ensures SECRET_FILES[n] !in Tops(n)
  {
    assert Tops(1) == Tops(0) + {SECRET_FILES[0]};
    assert Tops(2) == Tops(1) + {SECRET_FILES[1]};
    assert n == 0 || n == 1 || n == 2;
  }

  lemma ConfigNameUnused()
    ensures CONFIG !in Tops(|SECRET_FILES|)
  {
    assert Tops(1) == Tops(0) + {SECRET_FILES[0]};
    assert Tops(2) == Tops(1) + {SECRET_FILES[1]};
    assert Tops(3) == Tops(2) + {SECRET_FILES[2]};
  }

  function SecretAt(hub: Hub, name: string): Option<Node> {
    if name in hub.secretsAt then Some(hub.secretsAt[name]) else None
  }

  lemma SecretsGrow(hub: Hub, start: map<Path, Bytes>, n: nat)
    requires n < |SECRET_FILES|
    ensures var name := SECRET_FILES[n];
            && BytesAt(SecretAt(hub, name)) == Secret(hub, name)
            && start + SecretFiles(hub, n) + One(name, Secret(hub, name)) == start + SecretFiles(hub, n + 1)
  {
    PlusAssociates(start, SecretFiles(hub, n), One(SECRET_FILES[n], Secret(hub, SECRET_FILES[n])));
  }

  /** The first n secrets are files where they stand. */
  ghost predicate SecretsAreFiles(hub: Hub, n: nat)
    requires n <= |SECRET_FILES|
  {
    forall k :: 0 <= k < n && SECRET_FILES[k] in hub.secretsAt ==> !hub.secretsAt[SECRET_FILES[k]].Dir?
  }

  /** The first n secrets are copied, listed and named. */
  ghost predicate Secured(hub: Hub, n: nat, start: map<Path, Bytes>, files: map<Path, Bytes>, listed: seq<Artifact>,
                          secrets: seq<string>, sha: Digest)
    requires n <= |SECRET_FILES|
  {
    && files == start + SecretFiles(hub, n) && Agree(listed, files, Tops(n), sha)
    && Carried(secrets, hub, n) && SecretsAreFiles(hub, n)
  }

  lemma FewerAreFiles(hub: Hub, n: nat)
    requires n <= |SECRET_FILES|
    ensures SecretsAreFiles(hub, |SECRET_FILES|) ==> SecretsAreFiles(hub, n)
  {
  }

  method BackupSecret(hub: Hub, n: nat, dest: Folder, ghost start: map<Path, Bytes>, listed: seq<Artifact>,
                      secrets: seq<string>, sha: Digest)
    returns (more: Option<seq<Artifact>>, named: seq<string>)
    requires n < |SECRET_FILES| && Secured(hub, n, start, dest.files, listed, secrets, sha)
    modifies dest
    ensures more.Some? ==> Secured(hub, n + 1, start, dest.files, more.value, named, sha)
    ensures more.None? ==> !SecretsAreFiles(hub, |SECRET_FILES|)
  {
    var name := SECRET_FILES[n];
    SecretName(n);
    SecretNameUnused(n);
    SecretsGrow(hub, start, n);
    CarryOneMore(secrets, hub, n);
    FewerAreFiles(hub, n + 1);
    more := BackupFile(name, SecretAt(hub, name), dest, listed, Tops(n), sha);
    named := if name in hub.secretsAt then secrets + [name] else secrets;
  }

  method BackupSecrets(hub: Hub, dest: Folder, before: seq<Artifact>, sha: Digest)
    returns (listed: Option<seq<Artifact>>, secrets: seq<string>)
    requires Agree(before, dest.files, Tops(0), sha)
    modifies dest
    ensures listed.Some? <==> SecretsAreFiles(hub, |SECRET_FILES|)
    ensures listed.Some? ==>
      && dest.files == old(dest.files) + SecretFiles(hub, |SECRET_FILES|)
      && Agree(listed.value, dest.files, Tops(|SECRET_FILES|), sha) && Carried(secrets, hub, |SECRET_FILES|)
  {
    listed, secrets := Some(before), [];
    ghost var start := dest.files;
    assert start + SecretFiles(hub, 0) == start;
    for n := 0 to |SECRET_FILES|
      invariant listed.Some? && Secured(hub, n, start, dest.files, listed.value, secrets, sha)
    {
      listed, secrets := BackupSecret(hub, n, dest, start, listed.value, secrets, sha);
      if listed.None? {
        return;
      }
    }
  }

  /** The names of the secrets carried are those of the first n that exist. */
  ghost predicate Carried(secrets: seq<string>, hub: Hub, n: nat)
    requires n <= |SECRET_FILES|
  {
    forall name :: name in secrets <==> name in SECRET_FILES[..n] && name in hub.Secrets()
  }

  lemma CarryOneMore(secrets: seq<string>, hub: Hub, n: nat)
    requires n < |SECRET_FILES| && Carried(secrets, hub, n)
    ensures Carried(if SECRET_FILES[n] in hub.Secrets() then secrets + [SECRET_FILES[n]] else secrets, hub, n + 1)
  {
    assert SECRET_FILES[..n + 1] == SECRET_FILES[..n] + [SECRET_FILES[n]];
  }
}
