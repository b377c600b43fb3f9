// Restoring a snapshot into a data directory: every check comes before the first write,
// and what can still interrupt the writes is stated exactly.

module Restore {
  import opened Wrappers
  import opened SnapshotPaths
  import opened Snapshot
  import opened Staging
  import opened Backup
  import opened Disks

  const DATABASES := [HUB_DB, MEDIA_DB]
  const TREES := [PKI, SUBTITLES]

  /** `Interrupted` is a restore that fails after its last check. */
  datatype Outcome = Restored | Refused | Interrupted

  // -------------------------------------------------------------------- the checks

  predicate HoldsDatabase(data: Disk) {
    data.Exists([HUB_DB]) || data.Exists([MEDIA_DB])
  }

  /** A database that cannot be read for its key fails the check too. */
  predicate KeyCarried(m: Manifest, source: map<Path, Bytes>, crypto: Crypto)
    requires [HUB_DB] in source
  {
    match crypto.seeded(source[[HUB_DB]])
    case Unreadable => false
    case NoKey => true
    case Names(expected) =>
      KEY_FILE in m.secrets && [KEY_FILE] in source && crypto.fingerprint(source[[KEY_FILE]]) == expected
  }

  /** Whether a name in the manifest is a file. `elsewhere` answers for text that is no
      single entry of the snapshot. */
  predicate NamesFile(name: string, source: Disk, elsewhere: string -> bool) {
    if EntryName(name) then [name] in source.files else elsewhere(name)
  }

  predicate Complete(m: Manifest, source: Disk, data: Disk, crypto: Crypto, elsewhere: string -> bool) {
    && [HUB_DB] in source.files
    && (if m.format >= 4 then m.mediadbBytes.Some? && m.mediadbBytes.value > 0 && [MEDIA_DB] in source.files
        else !source.Exists([MEDIA_DB]) && !data.Exists([MEDIA_DB]))
    && (forall name :: name in m.secrets ==> NamesFile(name, source, elsewhere))
    && (m.format >= 2 ==> KeyCarried(m, source.files, crypto))
  }

  /** What the restore reads: the staged files, or the snapshot itself before format 3. */
  function Source(snapshot: Listing, m: Manifest): Disk {
    if m.format >= 3 then Needing(Listable(Flatten(snapshot, []))) else DiskOf(snapshot)
  }

  lemma SourceValid(snapshot: Listing, m: Manifest)
    requires WellFormed(snapshot)
    ensures Source(snapshot, m).Valid()
  {
    DiskOfValid(snapshot);
    NeedingValid(DiskOf(snapshot), Listable(Flatten(snapshot, [])));
  }

  ghost predicate Allowed(snapshot: Listing, m: Manifest, data: Disk, force: bool, crypto: Crypto, elsewhere: string -> bool) {
    && m.format <= FORMAT
    && (HoldsDatabase(data) ==> force)
    && (m.format >= 3 ==>
          Collectable(snapshot, []) && Accepts(m.artifacts, Listable(Flatten(snapshot, [])), crypto.sha))
    && Complete(m, Source(snapshot, m), data, crypto, elsewhere)
  }

  // ------------------------------------------------------------ what stops the writes

  /** One file of the snapshot can be copied over what the data directory has. */
  predicate Replaceable(name: string, source: Disk, data: Disk) {
    [name] in source.files && [name] !in data.dirs
  }

  predicate DatabaseFits(source: Disk, data: Disk, name: string) {
    source.Exists([name]) ==>
      Replaceable(name, source, data) && [name + "-wal"] !in data.dirs && [name + "-shm"] !in data.dirs
  }

  ghost predicate DatabasesFit(source: Disk, data: Disk, n: nat)
    requires n <= |DATABASES|
  {
    forall k :: 0 <= k < n ==> DatabaseFits(source, data, DATABASES[k])
  }

  ghost predicate TreeFits(source: Disk, data: Disk, name: string) {
    source.Exists([name]) ==> [name] in source.dirs && Clear(source, data, Under(source, [name]))
  }

  ghost predicate TreesFit(source: Disk, data: Disk, n: nat)
    requires n <= |TREES|
  {
    forall k :: 0 <= k < n ==> TreeFits(source, data, TREES[k])
  }

  predicate SecretFits(source: Disk, data: Disk, name: string) {
    source.Exists([name]) ==> Replaceable(name, source, data)
  }

  ghost predicate SecretsFit(source: Disk, data: Disk, n: nat)
    requires n <= |SECRET_FILES|
  {
    forall k :: 0 <= k < n ==> SecretFits(source, data, SECRET_FILES[k])
  }

  /** Every file and directory to be written is one in the snapshot, and finds nothing of
      the other kind in its place. */
  ghost predicate Fits(source: Disk, data: Disk) {
    DatabasesFit(source, data, |DATABASES|) && TreesFit(source, data, |TREES|) && SecretsFit(source, data, |SECRET_FILES|)
  }

  // -------------------------------------------------------------------- the writes

  function DatabaseWritten(data: Disk, source: Disk, name: string): Disk {
    if [name] in source.files
    then data.(files := (data.files - {[name + "-wal"]} - {[name + "-shm"]})[[name] := source.files[[name]]])
    else data
  }

  function SecretWritten(data: Disk, source: Disk, name: string): Disk {
    if [name] in source.files then data.(files := data.files[[name] := source.files[[name]]]) else data
  }

  function DatabasesWritten(data: Disk, source: Disk, n: nat): Disk
    requires n <= |DATABASES|
  {
    if n == 0 then data else DatabaseWritten(DatabasesWritten(data, source, n - 1), source, DATABASES[n - 1])
  }

  function TreesWritten(data: Disk, source: Disk, n: nat): Disk
    requires n <= |TREES|
  {
    if n == 0 then data else Overlaid(TreesWritten(data, source, n - 1), source, Under(source, [TREES[n - 1]]))
  }

  function SecretsWritten(data: Disk, source: Disk, n: nat): Disk
    requires n <= |SECRET_FILES|
  {
    if n == 0 then data else SecretWritten(SecretsWritten(data, source, n - 1), source, SECRET_FILES[n - 1])
  }

  /** The data directory after the three loops of a restore. */
  function AllWritten(data: Disk, source: Disk): Disk {
    SecretsWritten(TreesWritten(DatabasesWritten(data, source, |DATABASES|), source, |TREES|), source, |SECRET_FILES|)
  }

  /** The files of a snapshot a restore puts back, and their directories. */
  predicate PutBack(p: Path) {
    p == [HUB_DB] || p == [MEDIA_DB] || (p != [] && p[0] in TREES) || (|p| == 1 && p[0] in SECRET_FILES)
  }

  predicate Journal(p: Path) {
    p == [HUB_DB + "-wal"] || p == [HUB_DB + "-shm"] || p == [MEDIA_DB + "-wal"] || p == [MEDIA_DB + "-shm"]
  }

  predicate SameFile(after: Disk, before: Disk, p: Path) {
    (p in after.files <==> p in before.files) && (p in after.files ==> after.files[p] == before.files[p])
  }

  predicate SameAt(after: Disk, before: Disk, p: Path) {
    SameFile(after, before, p) && (p in after.dirs <==> p in before.dirs)
  }

  /** Nothing moved but what a restore writes. */
  ghost predicate OthersKept(after: Disk, before: Disk) {
    forall p :: !PutBack(p) && !Journal(p) ==> SameAt(after, before, p)
  }

  /** Only the database's own file and journals moved. */
  ghost predicate DatabaseOnly(after: Disk, before: Disk, name: string) {
    && after.dirs == before.dirs
    && forall p :: p != [name] && p != [name + "-wal"] && p != [name + "-shm"] ==> SameFile(after, before, p)
  }

  method WriteDatabase(data: DataDir, source: Disk, name: string) returns (ok: bool)
    requires data.disk.Valid()
    modifies data
    ensures data.disk.Valid() && DatabaseOnly(data.disk, old(data.disk), name)
    ensures ok <==> DatabaseFits(source, old(data.disk), name)
    ensures ok ==> data.disk == DatabaseWritten(old(data.disk), source, name)
  {
    if !source.Exists([name]) {
      return true;
    }
    ok := data.RemoveFile([name + "-wal"]);
    if !ok {
      return;
    }
    ok := data.RemoveFile([name + "-shm"]);
    if !ok {
      return;
    }
    if [name] !in source.files {
      return false;
    }
    ok := data.CopyTo([name], source.files[[name]]);
  }

  lemma DatabaseKeepsOthers(after: Disk, before: Disk, name: string)
    requires DatabaseOnly(after, before, name) && name in DATABASES
    ensures OthersKept(after, before)
  {
    assert PutBack([name]) && Journal([name + "-wal"]) && Journal([name + "-shm"]);
  }

  lemma KeptTwice(a: Disk, b: Disk, c: Disk)
    requires OthersKept(b, a) && OthersKept(c, b)
    ensures OthersKept(c, a)
  {
    forall p | !PutBack(p) && !Journal(p)
      ensures SameAt(c, a, p)
    {
      assert SameAt(b, a, p) && SameAt(c, b, p);
    }
  }

  method WriteDatabases(data: DataDir, source: Disk) returns (ok: bool)
    requires data.disk.Valid()
    modifies data
    ensures data.disk.Valid() && data.disk.dirs == old(data.disk).dirs && OthersKept(data.disk, old(data.disk))
    ensures ok <==> DatabasesFit(source, old(data.disk), |DATABASES|)
    ensures ok ==> data.disk == DatabasesWritten(old(data.disk), source, |DATABASES|)
  {
    for n := 0 to |DATABASES|
      invariant data.disk == DatabasesWritten(old(data.disk), source, n) && data.disk.dirs == old(data.disk).dirs
      invariant data.disk.Valid() && OthersKept(data.disk, old(data.disk))
      invariant DatabasesFit(source, old(data.disk), n)
    {
      ghost var before := data.disk;
      ok := WriteDatabase(data, source, DATABASES[n]);
      DatabaseKeepsOthers(data.disk, before, DATABASES[n]);
      KeptTwice(old(data.disk), before, data.disk);
      if !ok {
        return;
      }
    }
    return true;
  }

  lemma TreesApart(source: Disk)
    ensures Under(source, [PKI]) !! Under(source, [SUBTITLES])
  {
    assert |PKI| == 3 && |SUBTITLES| == 9;
    assert forall p :: p in Under(source, [PKI]) ==> p[..1][0] == PKI;
    assert forall p :: p in Under(source, [SUBTITLES]) ==> p[..1][0] == SUBTITLES;
  }

  lemma TreeKeepsOthers(data: Disk, source: Disk, name: string, written: set<Path>)
    requires name in TREES && written <= Under(source, [name])
    ensures OthersKept(Overlaid(data, source, written), data)
  {
    assert forall p :: p in written ==> p[..1][0] == name;
  }

  lemma TreesClear(source: Disk, data: Disk, n: nat)
    requires n < |TREES|
    ensures Clear(source, TreesWritten(data, source, n), Under(source, [TREES[n]]))
            <==> Clear(source, data, Under(source, [TREES[n]]))
  {
    assert TreesWritten(data, source, 0) == data;
    if n == 1 {
      TreesApart(source);
      assert TreesWritten(data, source, 1) == Overlaid(data, source, Under(source, [TREES[0]]));
      ClearElsewhere(data, source, Under(source, [TREES[0]]), Under(source, [TREES[1]]));
    }
  }

  lemma BelowTop(p: Path, name: string)
    requires Below([name], p)
    ensures p[0] == name && (|p| == 1 ==> p == [name])
  {
    assert p[..1][0] == name;
  }

  lemma NoTree(source: Disk, data: Disk, name: string)
    requires source.Valid() && !source.Exists([name])
    ensures Under(source, [name]) == {} && Overlaid(data, source, {}) == data
  {
    forall p | p in Under(source, [name])
      ensures false
    {
      BelowTop(p, name);
      if |p| > 1 {
        Ancestor(source, p, 1);
      }
    }
  }

  method WriteTree(data: DataDir, source: Disk, name: string) returns (ok: bool)
    requires source.Valid() && data.disk.Valid() && name in TREES
    modifies data
    ensures data.disk.Valid() && OthersKept(data.disk, old(data.disk))
    ensures ok <==> TreeFits(source, old(data.disk), name)
    ensures ok ==> data.disk == Overlaid(old(data.disk), source, Under(source, [name]))
  {
    if !source.Exists([name]) {
      NoTree(source, data.disk, name);
      return true;
    }
    if [name] in source.files {
      ok := data.CreateDir([name]);
      return false;
    }
    ghost var written;
    ok, written := CopyTree(source, data, [name]);
    TreeKeepsOthers(old(data.disk), source, name, written);
  }

  method WriteTrees(data: DataDir, source: Disk) returns (ok: bool)
    requires source.Valid() && data.disk.Valid()
    modifies data
    ensures data.disk.Valid() && OthersKept(data.disk, old(data.disk))
    ensures ok <==> TreesFit(source, old(data.disk), |TREES|)
    ensures ok ==> data.disk == TreesWritten(old(data.disk), source, |TREES|)
  {
    for n := 0 to |TREES|
      invariant data.disk == TreesWritten(old(data.disk), source, n) && data.disk.Valid()
      invariant OthersKept(data.disk, old(data.disk)) && TreesFit(source, old(data.disk), n)
    {
      ghost var before := data.disk;
      TreesClear(source, old(data.disk), n);
      ok := WriteTree(data, source, TREES[n]);
      KeptTwice(old(data.disk), before, data.disk);
      if !ok {
        return;
      }
    }
    return true;
  }

  method WriteSecret(data: DataDir, source: Disk, name: string) returns (ok: bool)
    requires data.disk.Valid() && name in SECRET_FILES
    modifies data
    ensures data.disk.Valid() && data.disk.dirs == old(data.disk).dirs && OthersKept(data.disk, old(data.disk))
    ensures ok <==> SecretFits(source, old(data.disk), name)
    ensures ok ==> data.disk == SecretWritten(old(data.disk), source, name)
  {
    if !source.Exists([name]) {
      return true;
    }
    if [name] !in source.files {
      return false;
    }
    ok := data.CopyTo([name], source.files[[name]]);
  }

  lemma SecretsStep(source: Disk, start: Disk, now: Disk, n: nat)
    requires n < |SECRET_FILES| && now == SecretsWritten(start, source, n) && now.dirs == start.dirs
    requires SecretsFit(source, start, n)
    ensures SecretFits(source, now, SECRET_FILES[n]) <==> SecretsFit(source, start, n + 1)
    ensures SecretWritten(now, source, SECRET_FILES[n]) == SecretsWritten(start, source, n + 1)
    ensures !SecretFits(source, now, SECRET_FILES[n]) ==> !SecretsFit(source, start, |SECRET_FILES|)
  {
    assert SecretFits(source, now, SECRET_FILES[n]) <==> SecretFits(source, start, SECRET_FILES[n]);
  }

  method WriteSecrets(data: DataDir, source: Disk) returns (ok: bool)
    requires data.disk.Valid()
    modifies data
    ensures data.disk.Valid() && OthersKept(data.disk, old(data.disk))
    ensures ok <==> SecretsFit(source, old(data.disk), |SECRET_FILES|)
    ensures ok ==> data.disk == SecretsWritten(old(data.disk), source, |SECRET_FILES|)
  {
    for n := 0 to |SECRET_FILES|
      invariant data.disk == SecretsWritten(old(data.disk), source, n) && data.disk.dirs == old(data.disk).dirs
      invariant data.disk.Valid() && OthersKept(data.disk, old(data.disk))
      invariant SecretsFit(source, old(data.disk), n)
    {
      ghost var before := data.disk;
      SecretsStep(source, old(data.disk), before, n);
      ok := WriteSecret(data, source, SECRET_FILES[n]);
      KeptTwice(old(data.disk), before, data.disk);
      if !ok {
        return;
      }
    }
    return true;
  }

  /** The staged files a restore will read, or nothing when staging fails. */
  method ReadSource(snapshot: Listing, m: Manifest, crypto: Crypto) returns (source: Option<Disk>)
    requires WellFormed(snapshot)
    ensures source.Some? <==> (m.format >= 3 ==>
      Collectable(snapshot, []) && Accepts(m.artifacts, Listable(Flatten(snapshot, [])), crypto.sha))
    ensures source.Some? ==> source.value == Source(snapshot, m)
  {
    if m.format < 3 {
      return Some(DiskOf(snapshot));
    }
    var staging := new Folder();
    var staged := StageArtifacts(snapshot, staging, m.artifacts, crypto.sha);
    if !staged {
      return None;
    }
    NothingBefore(Listable(Flatten(snapshot, [])));
    return Some(Needing(staging.files));
  }

  /** Neither loop changes what the next one meets. */
  lemma LaterWritesFit(source: Disk, data: Disk)
    ensures var first := DatabasesWritten(data, source, |DATABASES|);
            && (TreesFit(source, first, |TREES|) <==> TreesFit(source, data, |TREES|))
            && (SecretsFit(source, TreesWritten(first, source, |TREES|), |SECRET_FILES|)
                <==> SecretsFit(source, data, |SECRET_FILES|))
  {
    var first := DatabasesWritten(data, source, |DATABASES|);
    forall n | 0 <= n < |TREES|
      ensures TreeFits(source, first, TREES[n]) <==> TreeFits(source, data, TREES[n])
    {
      TreeMeetsNoDatabase(source, data, TREES[n]);
    }
    forall n | 0 <= n < |SECRET_FILES|
      ensures [SECRET_FILES[n]] in TreesWritten(first, source, |TREES|).dirs <==> [SECRET_FILES[n]] in data.dirs
    {
      DirsAfter(data, source, [SECRET_FILES[n]]);
      NamesApart();
    }
  }

  lemma NamesApart()
    ensures forall name :: name in SECRET_FILES ==> name !in TREES
    ensures forall name :: name in DATABASES ==> name !in TREES && name !in SECRET_FILES
    ensures forall name :: name in DATABASES ==> name + "-wal" !in TREES && name + "-shm" !in TREES
  {
    assert |PKI| == 3 && |SUBTITLES| == 9 && |HUB_DB| == 6 && |MEDIA_DB| == 10;
    assert |SECRET_FILES[0]| == 10 && |SECRET_FILES[1]| == 18 && |SECRET_FILES[2]| == 14;
    assert MEDIA_DB[0] == 'm' && SECRET_FILES[0][0] == 'j';
    forall name | name in DATABASES
      ensures |name + "-wal"| == |name + "-shm"| == 10 || |name + "-wal"| == |name + "-shm"| == 14
    {
    }
  }

  lemma TreeMeetsNoDatabase(source: Disk, data: Disk, name: string)
    requires name in TREES
    ensures TreeFits(source, DatabasesWritten(data, source, |DATABASES|), name) <==> TreeFits(source, data, name)
  {
    var first := DatabasesWritten(data, source, |DATABASES|);
    DatabasesTouch(data, source);
    NamesApart();
    forall p | p in Under(source, [name])
      ensures SameAt(first, data, p)
    {
      BelowTop(p, name);
    }
  }

  lemma DatabasesTouch(data: Disk, source: Disk)
    ensures var after := DatabasesWritten(data, source, |DATABASES|);
            && after.dirs == data.dirs
            && forall p :: p != [HUB_DB] && p != [MEDIA_DB] && !Journal(p) ==> SameFile(after, data, p)
  {
    assert DatabasesWritten(data, source, 0) == data;
    assert DatabasesWritten(data, source, 1) == DatabaseWritten(data, source, HUB_DB);
    assert DatabasesWritten(data, source, 2) == DatabaseWritten(DatabasesWritten(data, source, 1), source, MEDIA_DB);
  }

  /** The directories of a data directory after the databases and the trees. */
  lemma DirsAfter(data: Disk, source: Disk, p: Path)
    ensures var after := TreesWritten(DatabasesWritten(data, source, |DATABASES|), source, |TREES|);
            p in after.dirs <==> p in data.dirs || (p in source.dirs && p != [] && p[0] in TREES)
  {
    var first := DatabasesWritten(data, source, |DATABASES|);
    DatabasesTouch(data, source);
    assert TreesWritten(first, source, 0) == first;
    assert TreesWritten(first, source, 1) == Overlaid(first, source, Under(source, [PKI]));
    assert TreesWritten(first, source, 2) == Overlaid(TreesWritten(first, source, 1), source, Under(source, [SUBTITLES]));
    UnderTop(source, PKI, p);
    UnderTop(source, SUBTITLES, p);
  }

  lemma UnderTop(source: Disk, name: string, p: Path)
    ensures p in Under(source, [name]) <==> source.Exists(p) && p != [] && p[0] == name
  {
    assert p != [] ==> p[..1] == [p[0]];
  }

  /** Restore a snapshot. It is refused exactly when a check fails, and then the data
      directory is untouched. Past the checks it is interrupted exactly when a file or a
      directory stands where the other kind is needed, in the snapshot or in the data
      directory; and even then nothing moves but what a restore writes. */
  method RestoreSnapshot(snapshot: Listing, manifest: Option<Manifest>, data: DataDir, force: bool, crypto: Crypto,
                         elsewhere: string -> bool)
    returns (outcome: Outcome)
    requires WellFormed(snapshot) && data.disk.Valid()
    modifies data
    ensures data.disk.Valid()
    ensures outcome == Refused <==>
      manifest.None? || !Allowed(snapshot, manifest.value, old(data.disk), force, crypto, elsewhere)
    ensures outcome == Refused ==> data.disk == old(data.disk)
    ensures outcome != Refused ==> (outcome == Restored <==> Fits(Source(snapshot, manifest.value), old(data.disk)))
    ensures outcome == Restored ==> data.disk == AllWritten(old(data.disk), Source(snapshot, manifest.value))
    ensures OthersKept(data.disk, old(data.disk))
  {
    if manifest.None? {
      return Refused;
    }
    var m := manifest.value;
    if m.format > FORMAT || (HoldsDatabase(data.disk) && !force) {
      return Refused;
    }
    var source := ReadSource(snapshot, m, crypto);
    if source.None? || !Complete(m, source.value, data.disk, crypto, elsewhere) {
      return Refused;
    }
    SourceValid(snapshot, m);
    var ok := WriteAll(data, source.value);
    return if ok then Restored else Interrupted;
  }

  method WriteAll(data: DataDir, source: Disk) returns (ok: bool)
    requires source.Valid() && data.disk.Valid()
    modifies data
    ensures data.disk.Valid() && OthersKept(data.disk, old(data.disk))
    ensures ok <==> Fits(source, old(data.disk))
    ensures ok ==> data.disk == AllWritten(old(data.disk), source)
  {
    LaterWritesFit(source, data.disk);
    ok := WriteDatabases(data, source);
    if !ok {
      return;
    }
    ghost var first := data.disk;
    ok := WriteTrees(data, source);
    KeptTwice(old(data.disk), first, data.disk);
    if !ok {
      return;
    }
    ghost var second := data.disk;
    ok := WriteSecrets(data, source);
    KeptTwice(old(data.disk), second, data.disk);
  }
}
