// What a restore leaves in the data directory, and that it undoes a backup.

module RoundTrip {
  import opened Wrappers
  import opened SnapshotPaths
  import opened Snapshot
  import opened Staging
  import opened Backup
  import opened Disks
  import opened Restore
  import opened Walks

  /** The journals of a database being replaced. */
  predicate StaleJournal(p: Path, source: Disk) {
    ([HUB_DB] in source.files && (p == [HUB_DB + "-wal"] || p == [HUB_DB + "-shm"]))
    || ([MEDIA_DB] in source.files && (p == [MEDIA_DB + "-wal"] || p == [MEDIA_DB + "-shm"]))
  }

  lemma JournalNames(p: Path)
    requires Journal(p)
    ensures !PutBack(p)
  {
    assert |HUB_DB| == 6 && |MEDIA_DB| == 10 && |PKI| == 3 && |SUBTITLES| == 9;
    assert (HUB_DB + "-wal")[6] == '-' && (HUB_DB + "-shm")[6] == '-';
    assert (MEDIA_DB + "-wal")[10] == '-' && (MEDIA_DB + "-shm")[10] == '-';
    assert (HUB_DB + "-wal")[0] == 'h' && (HUB_DB + "-shm")[0] == 'h';
    assert SECRET_FILES[0][0] == 'j' && SECRET_FILES[1][0] == 'c' && |SECRET_FILES[2]| == 14;
    assert SECRET_FILES[2][10] == 'c' by {
      assert SECRET_FILES[2] == "metrics.secret";
    }
  }

  lemma DatabasesOverlay(data: Disk, source: Disk, p: Path)
    ensures var after := DatabasesWritten(data, source, 2);
            if (p == [HUB_DB] || p == [MEDIA_DB]) && p in source.files then
              p in after.files && after.files[p] == source.files[p]
            else if StaleJournal(p, source) then p !in after.files
            else SameFile(after, data, p)
  {
    var first := DatabasesWritten(data, source, 1);
    assert DatabasesWritten(data, source, 0) == data;
    assert first == DatabaseWritten(data, source, HUB_DB);
    assert DatabasesWritten(data, source, 2) == DatabaseWritten(first, source, MEDIA_DB);
    assert |HUB_DB| == 6 && |MEDIA_DB| == 10 && HUB_DB[0] == 'h' && MEDIA_DB[0] == 'm';
    assert (MEDIA_DB + "-wal")[0] == 'm' && (MEDIA_DB + "-shm")[0] == 'm';
    assert |MEDIA_DB + "-wal"| == 14 && |HUB_DB + "-wal"| == 10;
    assert |MEDIA_DB + "-shm"| == 14 && |HUB_DB + "-shm"| == 10;
    assert (HUB_DB + "-wal")[0] == 'h' && (HUB_DB + "-shm")[0] == 'h';
  }

  lemma TreesOverlay(data: Disk, source: Disk, p: Path)
    ensures var after := TreesWritten(data, source, 2);
            if p != [] && p[0] in TREES && p in source.files then
              p in after.files && after.files[p] == source.files[p]
            else SameFile(after, data, p)
  {
    var first := TreesWritten(data, source, 1);
    assert TreesWritten(data, source, 0) == data;
    assert first == Overlaid(data, source, Under(source, [PKI]));
    assert TreesWritten(data, source, 2) == Overlaid(first, source, Under(source, [SUBTITLES]));
    UnderTop(source, PKI, p);
    UnderTop(source, SUBTITLES, p);
  }

  lemma {:induction false} SecretsOverlay(data: Disk, source: Disk, n: nat, p: Path)
    requires n <= |SECRET_FILES|
    ensures var after := SecretsWritten(data, source, n);
            && after.dirs == data.dirs
            && if |p| == 1 && p[0] in SECRET_FILES[..n] && p in source.files then
                 p in after.files && after.files[p] == source.files[p]
               else SameFile(after, data, p)
  {
    if n > 0 {
      SecretsOverlay(data, source, n - 1, p);
      assert SECRET_FILES[..n] == SECRET_FILES[..n - 1] + [SECRET_FILES[n - 1]];
      if |p| == 1 && p[0] == SECRET_FILES[n - 1] {
        assert p == [SECRET_FILES[n - 1]];
      }
    }
  }

  /** A restore is an overlay: what it puts back is the snapshot's, journals of replaced
      databases go, and every other file of the data directory stays as it was. Of
      directories it makes those of the snapshot's trees and removes none. */
  lemma RestoreOverlays(data: Disk, source: Disk, p: Path)
    ensures var after := AllWritten(data, source);
            if p in source.files && PutBack(p) then p in after.files && after.files[p] == source.files[p]
            else if StaleJournal(p, source) then p !in after.files
            else SameFile(after, data, p)
    ensures p in AllWritten(data, source).dirs <==> p in data.dirs || (p in source.dirs && p != [] && p[0] in TREES)
  {
    var first := DatabasesWritten(data, source, 2);
    var second := TreesWritten(first, source, 2);
    DatabasesOverlay(data, source, p);
    TreesOverlay(first, source, p);
    SecretsOverlay(second, source, 3, p);
    assert SECRET_FILES[..3] == SECRET_FILES;
    DirsAfter(data, source, p);
    if StaleJournal(p, source) {
      JournalNames(p);
    }
    NamesApart();
  }

  // ------------------------------------------------------------- the round trip

  lemma NameLengths()
    ensures |HUB_DB| == 6 && |MEDIA_DB| == 10 && |PKI| == 3 && |SUBTITLES| == 9 && |CONFIG| == 12 && |MANIFEST| == 19
    ensures |SECRET_FILES[0]| == 10 && |SECRET_FILES[1]| == 18 && |SECRET_FILES[2]| == 14
    ensures MEDIA_DB[0] == 'm' && SECRET_FILES[0][0] == 'j'
    ensures forall name :: name in SECRET_FILES ==>
      name == SECRET_FILES[0] || name == SECRET_FILES[1] || name == SECRET_FILES[2]
  {
  }

  lemma TreeAt(name: string, listing: Option<Listing>, p: Path)
    requires p in Tree(name, listing)
    ensures |p| > 1 && p[0] == name
  {
    PathsBelow(listing.value, [name], p);
    assert p[..1][0] == name;
  }

  /** Which files a snapshot holds, one path at a time. */
  lemma SnapshotAt(hub: Hub, p: Path)
    ensures p == [HUB_DB] ==> p in HubFiles(hub) && HubFiles(hub)[p] == hub.hubDb
    ensures p == [MEDIA_DB] ==> (p in HubFiles(hub) <==> hub.mediaDb.Some?)
    ensures p == [MEDIA_DB] && p in HubFiles(hub) ==> HubFiles(hub)[p] == hub.mediaDb.value
    ensures |p| == 1 && p[0] in SECRET_FILES ==> (p in HubFiles(hub) <==> p[0] in hub.Secrets())
    ensures |p| == 1 && p[0] in SECRET_FILES && p in HubFiles(hub) ==> HubFiles(hub)[p] == hub.Secrets()[p[0]]
    ensures p in HubFiles(hub) ==> PutBack(p)
    ensures p == [CONFIG] ==> !PutBack(p)
    ensures p == [MANIFEST] || p == [PKI] || p == [SUBTITLES] ==> p !in HubFiles(hub) && p != [CONFIG]
    ensures p in HubFiles(hub) && |p| > 1 ==> p[0] in TREES
  {
    NameLengths();
    SecretFilesAt(hub, 3, p);
    assert SECRET_FILES[..3] == SECRET_FILES;
    if p in Tree(PKI, hub.Pki()) {
      TreeAt(PKI, hub.Pki(), p);
    }
    if p in Tree(SUBTITLES, hub.Subtitles()) {
      TreeAt(SUBTITLES, hub.Subtitles(), p);
    }
  }

  ghost predicate ProperDigest(sha: Digest) {
    forall data: Bytes :: DigestText(sha(data))
  }

  lemma DescribedIsHeld(files: map<Path, Bytes>, p: Path, sha: Digest)
    requires p in files && Nameable(files) && ProperDigest(sha)
    ensures var a := ArtifactFor(p, files[p], sha);
            WellStated(a) && Pieces(a.path) == p && HeldAt(a, p, files, sha)
  {
    PiecesOfJoin(p);
  }

  lemma BackedUpIsAccepted(listed: seq<Artifact>, files: map<Path, Bytes>, sha: Digest)
    requires Describes(listed, files, sha) && Nameable(files) && ProperDigest(sha)
    ensures Accepts(listed, files, sha)
  {
    forall a | a in listed
      ensures WellStated(a) && HeldAt(a, Pieces(a.path), files, sha)
    {
      var p :| p in files && a == ArtifactFor(p, files[p], sha);
      DescribedIsHeld(files, p, sha);
    }
    forall p | p in files
      ensures exists a :: a in listed && Pieces(a.path) == p
    {
      DescribedIsHeld(files, p, sha);
      assert ArtifactFor(p, files[p], sha) in listed;
    }
  }

  /** A snapshot directory holding what a backup wrote, in whatever order it is read. */
  ghost predicate Holds(snapshot: Listing, hub: Hub, manifestText: Bytes) {
    && WellFormed(snapshot) && Regular(snapshot)
    && Flatten(snapshot, []) == SnapshotFiles(hub)[[MANIFEST] := manifestText]
  }

  lemma TreePathNamed(hub: Hub, p: Path)
    requires TreesNameable(hub) && (p in Tree(PKI, hub.Pki()) || p in Tree(SUBTITLES, hub.Subtitles()))
    ensures p != [] && Portable(p)
  {
    if p in Tree(PKI, hub.Pki()) {
      TreeAt(PKI, hub.Pki(), p);
    } else {
      TreeAt(SUBTITLES, hub.Subtitles(), p);
    }
  }

  lemma PlainPathNamed(p: Path)
    requires |p| == 1 && (p[0] == HUB_DB || p[0] == MEDIA_DB || p[0] == CONFIG || p[0] in SECRET_FILES)
    ensures Portable(p)
  {
    if p[0] in SECRET_FILES {
      var n :| 0 <= n < 3 && SECRET_FILES[n] == p[0];
      SecretName(n);
    } else {
      DatabaseNames();
    }
  }

  lemma SnapshotPathNamed(hub: Hub, p: Path)
    requires TreesNameable(hub) && p in SnapshotFiles(hub)
    ensures p != [] && Portable(p)
  {
    if p in Tree(PKI, hub.Pki()) || p in Tree(SUBTITLES, hub.Subtitles()) {
      TreePathNamed(hub, p);
    } else {
      SecretFilesAt(hub, 3, p);
      PlainPathNamed(p);
    }
  }

  lemma SnapshotNameable(hub: Hub)
    requires TreesNameable(hub)
    ensures Nameable(SnapshotFiles(hub))
  {
    forall p | p in SnapshotFiles(hub)
      ensures p != [] && Portable(p)
    {
      SnapshotPathNamed(hub, p);
    }
  }

  lemma ManifestSetAside(files: map<Path, Bytes>, manifestText: Bytes)
    requires Nameable(files) && [MANIFEST] !in files
    ensures AllPortable(files[[MANIFEST] := manifestText])
    ensures Listable(files[[MANIFEST] := manifestText]) == files
  {
    assert PortableName(MANIFEST);
  }

  lemma ManifestNotBackedUp(hub: Hub)
    ensures [MANIFEST] !in SnapshotFiles(hub)
  {
    SnapshotAt(hub, [MANIFEST]);
  }

  lemma StagedIsBackedUp(snapshot: Listing, hub: Hub, manifestText: Bytes)
    requires Holds(snapshot, hub, manifestText) && TreesNameable(hub)
    ensures Collectable(snapshot, []) && Listable(Flatten(snapshot, [])) == SnapshotFiles(hub)
  {
    ManifestNotBackedUp(hub);
    SnapshotNameable(hub);
    ManifestSetAside(SnapshotFiles(hub), manifestText);
  }

  /** A finished snapshot as staging leaves it. */
  function BackedUp(hub: Hub): Disk {
    Needing(SnapshotFiles(hub))
  }

  /** Every directory of a snapshot belongs to a tree. */
  lemma BackedUpDirs(hub: Hub, q: Path)
    ensures q in BackedUp(hub).dirs <==> q in Parents(HubFiles(hub))
    ensures q in BackedUp(hub).dirs ==> q != [] && q[0] in TREES
  {
    if q in BackedUp(hub).dirs {
      var p, n :| p in SnapshotFiles(hub) && 0 < n < |p| && p[..n] == q;
      SnapshotAt(hub, p);
      assert p in HubFiles(hub);
      assert q[0] == p[0];
    }
    if q in Parents(HubFiles(hub)) {
      var p, n :| p in HubFiles(hub) && 0 < n < |p| && p[..n] == q;
      assert p in SnapshotFiles(hub);
    }
  }

  lemma HubDbKept(hub: Hub)
    ensures [HUB_DB] in SnapshotFiles(hub) && SnapshotFiles(hub)[[HUB_DB]] == hub.hubDb
    ensures [MEDIA_DB] in SnapshotFiles(hub) <==> hub.mediaDb.Some?
  {
    NameLengths();
    SnapshotAt(hub, [HUB_DB]);
    SnapshotAt(hub, [MEDIA_DB]);
  }

  lemma SecretKept(hub: Hub, name: string)
    requires name in SECRET_FILES && name in hub.Secrets()
    ensures [name] in SnapshotFiles(hub) && SnapshotFiles(hub)[[name]] == hub.Secrets()[name]
  {
    NameLengths();
    SnapshotAt(hub, [name]);
    assert [name][0] == name && name != CONFIG;
  }

  lemma KeyIsASecret()
    ensures KEY_FILE in SECRET_FILES
  {
    assert SECRET_FILES[1] == KEY_FILE;
  }

  lemma BackupCarriesKey(hub: Hub, m: Manifest, crypto: Crypto)
    requires KeyMatches(hub, crypto) && forall name :: name in m.secrets <==> name in SECRET_FILES && name in hub.Secrets()
    ensures [HUB_DB] in SnapshotFiles(hub) && KeyCarried(m, SnapshotFiles(hub), crypto)
  {
    HubDbKept(hub);
    KeyIsASecret();
    if KEY_FILE in hub.Secrets() {
      SecretKept(hub, KEY_FILE);
    }
  }

  lemma BackupIsComplete(hub: Hub, m: Manifest, data: Disk, crypto: Crypto, elsewhere: string -> bool)
    requires KeyMatches(hub, crypto) && Documents(m, hub, crypto.sha)
    requires hub.mediaDb.Some? ==> |hub.mediaDb.value| > 0
    requires hub.mediaDb.None? ==> !data.Exists([MEDIA_DB])
    ensures Complete(m, BackedUp(hub), data, crypto, elsewhere)
  {
    HubDbKept(hub);
    BackedUpDirs(hub, [MEDIA_DB]);
    NamesApart();
    BackupCarriesKey(hub, m, crypto);
    forall name | name in m.secrets
      ensures NamesFile(name, BackedUp(hub), elsewhere)
    {
      SecretKept(hub, name);
      var n :| 0 <= n < |SECRET_FILES| && SECRET_FILES[n] == name;
      SecretName(n);
    }
  }

  /** In a snapshot a backup wrote every name is the kind of thing a restore needs. */
  lemma BackedUpKinds(hub: Hub)
    ensures RightKinds(BackedUp(hub))
  {
    SnapshotAt(hub, [PKI]);
    SnapshotAt(hub, [SUBTITLES]);
    NamesApart();
    forall name | name in DATABASES || name in SECRET_FILES
      ensures [name] !in BackedUp(hub).dirs
    {
      BackedUpDirs(hub, [name]);
    }
  }

  lemma AllowedByParts(snapshot: Listing, m: Manifest, data: Disk, force: bool, crypto: Crypto, elsewhere: string -> bool,
                       files: map<Path, Bytes>)
    requires 3 <= m.format <= FORMAT && (HoldsDatabase(data) ==> force)
    requires Collectable(snapshot, []) && Listable(Flatten(snapshot, [])) == files
    requires Accepts(m.artifacts, files, crypto.sha) && Complete(m, Needing(files), data, crypto, elsewhere)
    ensures Allowed(snapshot, m, data, force, crypto, elsewhere) && Source(snapshot, m) == Needing(files)
  {
  }

  lemma ListAccepted(hub: Hub, m: Manifest, sha: Digest)
    requires TreesNameable(hub) && Documents(m, hub, sha) && ProperDigest(sha)
    ensures Accepts(m.artifacts, SnapshotFiles(hub), sha) && 3 <= m.format <= FORMAT
  {
    SnapshotNameable(hub);
    BackedUpIsAccepted(m.artifacts, SnapshotFiles(hub), sha);
  }

  /** What `backup` wrote, `restore` accepts: into any data directory that may be
      replaced and holds no media database the snapshot lacks. Only something in the data
      directory can then interrupt it. */
  lemma BackupIsRestorable(hub: Hub, m: Manifest, snapshot: Listing, manifestText: Bytes,
                           data: Disk, force: bool, crypto: Crypto, elsewhere: string -> bool)
    requires KeyMatches(hub, crypto) && TreesNameable(hub) && Documents(m, hub, crypto.sha)
    requires hub.mediaDb.Some? ==> |hub.mediaDb.value| > 0
    requires Holds(snapshot, hub, manifestText) && ProperDigest(crypto.sha)
    requires (HoldsDatabase(data) ==> force) && (hub.mediaDb.None? ==> !data.Exists([MEDIA_DB]))
    ensures Allowed(snapshot, m, data, force, crypto, elsewhere)
    ensures Source(snapshot, m) == BackedUp(hub)
    ensures Fits(BackedUp(hub), data) <==> NothingInTheWay(BackedUp(hub), data)
  {
    StagedIsBackedUp(snapshot, hub, manifestText);
    ListAccepted(hub, m, crypto.sha);
    BackupIsComplete(hub, m, data, crypto, elsewhere);
    AllowedByParts(snapshot, m, data, force, crypto, elsewhere, SnapshotFiles(hub));
    SourceValid(snapshot, m);
    BackedUpKinds(hub);
    FitsWhenFree(BackedUp(hub), data);
  }

  /** A file of the data directory where a directory is put back, or a directory where a
      file is, or where a replaced database's journal would be. */
  predicate InTheWay(source: Disk, data: Disk, p: Path) {
    || (PutBack(p) && p in source.dirs && p in data.files)
    || (p in data.dirs && ((PutBack(p) && p in source.files) || StaleJournal(p, source)))
  }

  ghost predicate NothingInTheWay(source: Disk, data: Disk) {
    forall p :: !InTheWay(source, data, p)
  }

  lemma DatabaseFitsWhenFree(source: Disk, data: Disk, name: string)
    requires name in DATABASES && [name] !in source.dirs
    ensures DatabaseFits(source, data, name) <==>
            && !InTheWay(source, data, [name])
            && ([name] in source.files ==> [name + "-wal"] !in data.dirs && [name + "-shm"] !in data.dirs)
  {
    if StaleJournal([name], source) {
      JournalNames([name]);
    }
  }

  lemma SecretFitsWhenFree(source: Disk, data: Disk, name: string)
    requires name in SECRET_FILES && [name] !in source.dirs
    ensures SecretFits(source, data, name) <==> !InTheWay(source, data, [name])
  {
    NamesApart();
    if StaleJournal([name], source) {
      JournalNames([name]);
    }
  }

  lemma TreeFitsWhenFree(source: Disk, data: Disk, name: string)
    requires name in TREES && [name] !in source.files && source.Valid()
    ensures TreeFits(source, data, name) <==> forall p :: p != [] && p[0] == name ==> !InTheWay(source, data, p)
  {
    forall p | p != [] && p[0] == name
      ensures InTheWay(source, data, p) <==> (p in source.dirs && p in data.files) || (p in source.files && p in data.dirs)
      ensures p in Under(source, [name]) <==> source.Exists(p)
    {
      UnderTop(source, name, p);
      if StaleJournal(p, source) {
        JournalNames(p);
      }
    }
    if !source.Exists([name]) {
      NoTree(source, data, name);
    }
    forall p | p in Under(source, [name])
      ensures p != [] && p[0] == name
    {
      UnderTop(source, name, p);
    }
  }

  /** When the snapshot's names are the right kinds of thing, only what stands in the way
      in the data directory interrupts a restore. */
  lemma FitsWhenFree(source: Disk, data: Disk)
    requires source.Valid() && RightKinds(source)
    ensures Fits(source, data) <==> NothingInTheWay(source, data)
  {
    forall k | 0 <= k < |DATABASES|
      ensures NothingInTheWay(source, data) ==> DatabaseFits(source, data, DATABASES[k])
    {
      DatabaseFitsWhenFree(source, data, DATABASES[k]);
      assert !InTheWay(source, data, [DATABASES[k] + "-wal"]) || !NothingInTheWay(source, data);
      assert !InTheWay(source, data, [DATABASES[k] + "-shm"]) || !NothingInTheWay(source, data);
    }
    forall k | 0 <= k < |TREES|
      ensures NothingInTheWay(source, data) ==> TreeFits(source, data, TREES[k])
    {
      TreeFitsWhenFree(source, data, TREES[k]);
    }
    forall k | 0 <= k < |SECRET_FILES|
      ensures NothingInTheWay(source, data) ==> SecretFits(source, data, SECRET_FILES[k])
    {
      SecretFitsWhenFree(source, data, SECRET_FILES[k]);
    }
    if Fits(source, data) {
      forall p
        ensures !InTheWay(source, data, p)
      {
        FreeWhenFits(source, data, p);
      }
    }
  }

  ghost predicate RightKinds(source: Disk) {
    && (forall name :: name in TREES ==> [name] !in source.files)
    && (forall name :: name in DATABASES || name in SECRET_FILES ==> [name] !in source.dirs)
  }

  lemma FreeWhenFits(source: Disk, data: Disk, p: Path)
    requires source.Valid() && RightKinds(source) && Fits(source, data)
    ensures !InTheWay(source, data, p)
  {
    assert DatabaseFits(source, data, DATABASES[0]) && DatabaseFits(source, data, DATABASES[1]);
    DatabaseFitsWhenFree(source, data, HUB_DB);
    DatabaseFitsWhenFree(source, data, MEDIA_DB);
    assert TreeFits(source, data, TREES[0]) && TreeFits(source, data, TREES[1]);
    TreeFitsWhenFree(source, data, PKI);
    TreeFitsWhenFree(source, data, SUBTITLES);
    if |p| == 1 && p[0] in SECRET_FILES {
      var k :| 0 <= k < |SECRET_FILES| && SECRET_FILES[k] == p[0];
      assert SecretFits(source, data, SECRET_FILES[k]);
      SecretFitsWhenFree(source, data, p[0]);
      assert p == [p[0]];
    }
  }

  /** After restoring a backup, every file the hub had stands at its path, and nothing
      else of the data directory moved but stale journals; the only directories made are
      those that hold them. */
  lemma RestoredFile(hub: Hub, data: Disk, p: Path)
    requires TreesWellFormed(hub)
    ensures var after := AllWritten(data, BackedUp(hub));
            && (if HubFileAt(hub, p).Some? then At(after.files, p) == HubFileAt(hub, p)
                else if StaleJournal(p, BackedUp(hub)) then p !in after.files
                else SameFile(after, data, p))
            && (p in after.dirs <==> p in data.dirs || LeadsToHubFile(hub, p))
  {
    var files := SnapshotFiles(hub);
    RestoreOverlays(data, BackedUp(hub), p);
    SnapshotAt(hub, p);
    BackedUpDirs(hub, p);
    HubFilesAre(hub, p);
    ParentsAre(hub, p);
    assert p in files && PutBack(p) <==> p in HubFiles(hub);
    assert p in HubFiles(hub) ==> files[p] == HubFiles(hub)[p];
  }

  /** A file of the hub stands below. */
  ghost predicate LeadsToHubFile(hub: Hub, q: Path) {
    q != [] && exists p :: q < p && HubFileAt(hub, p).Some?
  }

  lemma ParentsAre(hub: Hub, q: Path)
    requires TreesWellFormed(hub)
    ensures q in Parents(HubFiles(hub)) <==> LeadsToHubFile(hub, q)
  {
    if q in Parents(HubFiles(hub)) {
      var p, n :| p in HubFiles(hub) && 0 < n < |p| && p[..n] == q;
      HubFilesAre(hub, p);
      assert q < p;
    }
    if LeadsToHubFile(hub, q) {
      var p :| q < p && HubFileAt(hub, p).Some?;
      HubFilesAre(hub, p);
      assert p[..|q|] == q;
    }
  }

  const EMPTY := Disk(map[], {})

  lemma SameEverywhere(one: Disk, two: Disk)
    requires forall p :: SameAt(one, two, p)
    ensures one == two
  {
    assert forall p :: p in one.files ==> SameAt(one, two, p);
    assert forall p :: p in two.files ==> SameAt(one, two, p);
    assert forall p :: p in one.dirs ==> SameAt(one, two, p);
    assert forall p :: p in two.dirs ==> SameAt(one, two, p);
    assert one.files == two.files && one.dirs == two.dirs;
  }

  lemma RestoredIntoNothing(hub: Hub)
    requires TreesWellFormed(hub)
    ensures AllWritten(EMPTY, BackedUp(hub)) == Needing(HubFiles(hub))
  {
    forall p
      ensures SameAt(AllWritten(EMPTY, BackedUp(hub)), Needing(HubFiles(hub)), p)
    {
      RestoredFile(hub, EMPTY, p);
      HubFilesAre(hub, p);
      ParentsAre(hub, p);
    }
    SameEverywhere(AllWritten(EMPTY, BackedUp(hub)), Needing(HubFiles(hub)));
  }

  /** At every path the file the hub has there, and the directories those need. */
  ghost predicate HoldsJust(disk: Disk, hub: Hub) {
    && (forall p :: At(disk.files, p) == HubFileAt(hub, p))
    && (forall q :: q in disk.dirs <==> LeadsToHubFile(hub, q))
  }

  lemma NeedingHubFiles(hub: Hub)
    requires TreesWellFormed(hub)
    ensures HoldsJust(Needing(HubFiles(hub)), hub)
  {
    forall p: Path
      ensures At(HubFiles(hub), p) == HubFileAt(hub, p)
      ensures p in Parents(HubFiles(hub)) <==> LeadsToHubFile(hub, p)
    {
      HubFilesAre(hub, p);
      ParentsAre(hub, p);
    }
  }

  lemma NothingInNothing(source: Disk)
    ensures NothingInTheWay(source, EMPTY)
  {
  }

  /** Backing up and restoring into an empty data directory is never interrupted and
      gives back at every path exactly the file the hub had there, whatever order the
      snapshot is read in. */
  lemma BackupRoundTrip(hub: Hub, m: Manifest, snapshot: Listing, manifestText: Bytes, crypto: Crypto,
                        elsewhere: string -> bool)
    requires KeyMatches(hub, crypto) && TreesWellFormed(hub) && TreesNameable(hub) && Documents(m, hub, crypto.sha)
    requires hub.mediaDb.Some? ==> |hub.mediaDb.value| > 0
    requires Holds(snapshot, hub, manifestText) && ProperDigest(crypto.sha)
    ensures Allowed(snapshot, m, EMPTY, false, crypto, elsewhere)
    ensures Fits(Source(snapshot, m), EMPTY)
    ensures HoldsJust(AllWritten(EMPTY, Source(snapshot, m)), hub)
  {
    BackupIsRestorable(hub, m, snapshot, manifestText, EMPTY, false, crypto, elsewhere);
    NothingInNothing(BackedUp(hub));
    RestoredIntoNothing(hub);
    NeedingHubFiles(hub);
  }

  /** What passed the checks opens as a hub: the database is there, the key it was sealed with
      beside it, and a media database exactly in the format that has one. Databases that were
      there are replaced only when forced. */
  lemma RestoredHubOpens(snapshot: Listing, m: Manifest, data: Disk, force: bool, crypto: Crypto, elsewhere: string -> bool)
    requires WellFormed(snapshot) && Allowed(snapshot, m, data, force, crypto, elsewhere)
    ensures m.format <= 4 && (["hub.db"] in data.files || ["mediadb.db"] in data.files ==> force)
    ensures Opens(AllWritten(data, Source(snapshot, m)).files, m, crypto)
  {
    var source := Source(snapshot, m);
    RestoreOverlays(data, source, [HUB_DB]);
    RestoreOverlays(data, source, [MEDIA_DB]);
    JournalsGone(data, source);
    PlacesApart(source);
    SecretsRestored(m, data, source, elsewhere);
  }

  lemma SecretsRestored(m: Manifest, data: Disk, source: Disk, elsewhere: string -> bool)
    requires forall name :: name in m.secrets ==> NamesFile(name, source, elsewhere)
    ensures forall name :: name in m.secrets && name in ["jwt.secret", "credentials.secret", "metrics.secret"] ==>
              [name] in AllWritten(data, source).files
    ensures KEY_FILE == "credentials.secret"
    ensures [KEY_FILE] in source.files ==> At(AllWritten(data, source).files, [KEY_FILE]) == Some(source.files[[KEY_FILE]])
  {
    SecretsAre();
    forall name | name in SECRET_FILES
      ensures [name] in source.files ==> At(AllWritten(data, source).files, [name]) == Some(source.files[[name]])
    {
      RestoreOverlays(data, source, [name]);
    }
  }

  ghost predicate Opens(files: map<Path, Bytes>, m: Manifest, crypto: Crypto) {
    && ["hub.db"] in files && ["hub.db-wal"] !in files && ["hub.db-shm"] !in files
    && (m.format >= 2 ==>
          match crypto.seeded(files[["hub.db"]])
          case Unreadable => false
          case NoKey => true
          case Names(expected) => At(files, ["credentials.secret"]).Some?
                                  && crypto.fingerprint(files[["credentials.secret"]]) == expected)
    && (["mediadb.db"] in files <==> m.format >= 4)
    && (m.format >= 4 ==> ["mediadb.db-wal"] !in files && ["mediadb.db-shm"] !in files)
    && (forall name :: name in m.secrets && name in ["jwt.secret", "credentials.secret", "metrics.secret"] ==> [name] in files)
  }

  lemma JournalsGone(data: Disk, source: Disk)
    ensures var after := AllWritten(data, source).files;
            && ([HUB_DB] in source.files ==> ["hub.db-wal"] !in after && ["hub.db-shm"] !in after)
            && ([MEDIA_DB] in source.files ==> ["mediadb.db-wal"] !in after && ["mediadb.db-shm"] !in after)
  {
    JournalGone(data, source, ["hub.db-wal"]);
    JournalGone(data, source, ["hub.db-shm"]);
    JournalGone(data, source, ["mediadb.db-wal"]);
    JournalGone(data, source, ["mediadb.db-shm"]);
  }

  lemma JournalGone(data: Disk, source: Disk, p: Path)
    requires p == ["hub.db-wal"] || p == ["hub.db-shm"] || p == ["mediadb.db-wal"] || p == ["mediadb.db-shm"]
    ensures StaleJournal(p, source) ==> p !in AllWritten(data, source).files
    ensures p == ["hub.db-wal"] || p == ["hub.db-shm"] ==> ([HUB_DB] in source.files ==> StaleJournal(p, source))
    ensures p == ["mediadb.db-wal"] || p == ["mediadb.db-shm"] ==> ([MEDIA_DB] in source.files ==> StaleJournal(p, source))
  {
    assert HUB_DB + "-wal" == "hub.db-wal" && HUB_DB + "-shm" == "hub.db-shm";
    assert MEDIA_DB + "-wal" == "mediadb.db-wal" && MEDIA_DB + "-shm" == "mediadb.db-shm";
    RestoreOverlays(data, source, p);
    JournalNames(p);
  }

  lemma PlacesApart(source: Disk)
    ensures !StaleJournal([HUB_DB], source) && !StaleJournal([MEDIA_DB], source)
    ensures PutBack([HUB_DB]) && PutBack([MEDIA_DB])
  {
    if StaleJournal([HUB_DB], source) {
      JournalNames([HUB_DB]);
    }
    if StaleJournal([MEDIA_DB], source) {
      JournalNames([MEDIA_DB]);
    }
  }

  lemma SecretsAre()
    ensures KEY_FILE in SECRET_FILES && SECRET_FILES == ["jwt.secret", "credentials.secret", "metrics.secret"]
    ensures forall name :: name in SECRET_FILES ==> EntryName(name)
  {
    assert SECRET_FILES[1] == KEY_FILE;
  }

  /** With an injective digest the list pins the bytes: two snapshots that pass against
      one list stage the same files. */
  lemma ListPinsTheFiles(listed: seq<Artifact>, one: map<Path, Bytes>, two: map<Path, Bytes>, sha: Digest)
    requires Accepts(listed, one, sha) && Accepts(listed, two, sha)
    requires forall a: Bytes, b: Bytes :: sha(a) == sha(b) ==> a == b
    ensures one == two
  {
    assert one.Keys == two.Keys;
    forall p | p in one
      ensures one[p] == two[p]
    {
      var a :| a in listed && Pieces(a.path) == p;
      assert HeldAt(a, p, one, sha) && HeldAt(a, p, two, sha);
    }
  }
}
