// Two snapshots in perfect order whose restore fails after its checks, and one it refuses:
// a hub database beside one directory with one empty file in it.

module Unforeseen {
  import opened Wrappers
  import opened SnapshotPaths
  import opened Snapshot
  import opened Staging
  import opened Backup
  import opened Disks
  import opened Restore
  import opened RoundTrip

  /** The snapshot's own directory: its manifest, the database, and `dir/file`. */
  function TwoFiles(manifestText: Bytes, db: Bytes, dir: string, file: string): Listing {
    Entry(MANIFEST, File(manifestText), Entry(HUB_DB, File(db), Entry(dir, Dir(Entry(file, File([]), End)), End)))
  }

  function TwoPaths(db: Bytes, dir: string, file: string): map<Path, Bytes> {
    map[[HUB_DB] := db] + map[[dir, file] := []]
  }

  function TwoListed(db: Bytes, dir: string, file: string, sha: Digest): seq<Artifact> {
    [ArtifactFor([HUB_DB], db, sha), ArtifactFor([dir, file], [], sha)]
  }

  lemma NamesUsed(dir: string, file: string)
    requires PortableName(dir) && PortableName(file)
    ensures HUB_DB != MANIFEST && Portable([HUB_DB]) && Portable([dir, file]) && Portable([MANIFEST])
  {
    NameLengths();
    DatabaseNames();
    assert PortableName(MANIFEST);
  }

  lemma FlattenTwo(manifestText: Bytes, db: Bytes, dir: string, file: string)
    ensures Flatten(TwoFiles(manifestText, db, dir, file), []) ==
            map[[MANIFEST] := manifestText] + (map[[HUB_DB] := db] + map[[dir, file] := []])
  {
    var last := Entry(file, File([]), End);
    assert [] + [MANIFEST] == [MANIFEST] && [] + [HUB_DB] == [HUB_DB] && [] + [dir] == [dir];
    assert [dir] + [file] == [dir, file];
    assert Flatten(last, [dir]) == map[[dir, file] := []];
    assert Flatten(Entry(dir, Dir(last), End), []) == map[[dir, file] := []];
    assert Flatten(Entry(HUB_DB, File(db), Entry(dir, Dir(last), End)), []) == map[[HUB_DB] := db] + map[[dir, file] := []];
  }

  lemma TwoDescribed(db: Bytes, dir: string, file: string, sha: Digest)
    requires PortableName(dir) && PortableName(file)
    ensures Describes(TwoListed(db, dir, file, sha), TwoPaths(db, dir, file), sha) && Nameable(TwoPaths(db, dir, file))
  {
    var one, two := ArtifactFor([HUB_DB], db, sha), ArtifactFor([dir, file], [], sha);
    NamesUsed(dir, file);
    OneFileDescribed([HUB_DB], db, sha);
    OneFileDescribed([dir, file], [], sha);
    DescribesBoth([one], map[[HUB_DB] := db], [two], map[[dir, file] := []], sha);
    assert [one] + [two] == [one, two];
  }

  lemma ParentsTwo(db: Bytes, dir: string, file: string)
    ensures Parents(TwoPaths(db, dir, file)) == {[dir]}
  {
    var files := TwoPaths(db, dir, file);
    assert [dir, file] in files && [dir, file][..1] == [dir];
    forall q | q in Parents(files)
      ensures q == [dir]
    {
      var p, n :| p in files && 0 < n < |p| && p[..n] == q;
    }
  }

  lemma TwoWellFormed(manifestText: Bytes, db: Bytes, dir: string, file: string)
    requires PortableName(dir) && PortableName(file) && dir != HUB_DB && dir != MANIFEST
    ensures WellFormed(TwoFiles(manifestText, db, dir, file)) && Regular(TwoFiles(manifestText, db, dir, file))
  {
    var last := Entry(file, File([]), End);
    assert WellFormed(End) && Regular(End) && EntryNames(End) == {};
    assert WellFormed(last) && Regular(last);
    var third := Entry(dir, Dir(last), End);
    assert WellFormed(third) && Regular(third) && EntryNames(third) == {dir};
    NamesUsed(dir, file);
    DatabaseNames();
    var second := Entry(HUB_DB, File(db), third);
    assert WellFormed(second) && Regular(second) && EntryNames(second) == {HUB_DB, dir};
    assert PortableName(MANIFEST);
  }

  lemma TwoCollected(manifestText: Bytes, db: Bytes, dir: string, file: string, snapshot: Listing, files: map<Path, Bytes>)
    requires PortableName(dir) && PortableName(file) && dir != HUB_DB && dir != MANIFEST
    requires snapshot == TwoFiles(manifestText, db, dir, file) && files == TwoPaths(db, dir, file)
    ensures Collectable(snapshot, []) && Listable(Flatten(snapshot, [])) == files && WellFormed(snapshot)
    ensures Needing(files) == Disk(files, {[dir]})
  {
    NamesUsed(dir, file);
    TwoWellFormed(manifestText, db, dir, file);
    FlattenTwo(manifestText, db, dir, file);
    ParentsTwo(db, dir, file);
    AllTogether(manifestText, db, [HUB_DB], [dir, file]);
  }

  lemma AllTogether(manifestText: Bytes, db: Bytes, one: Path, two: Path)
    requires one != [MANIFEST] && two != [MANIFEST] && Portable(one) && Portable(two) && Portable([MANIFEST])
    ensures var all := map[[MANIFEST] := manifestText] + (map[one := db] + map[two := []]);
            AllPortable(all) && Listable(all) == map[one := db] + map[two := []]
  {
  }

  lemma TwoComplete(db: Bytes, dir: string, m: Manifest, source: Disk, data: Disk, crypto: Crypto, elsewhere: string -> bool)
    requires m.format == 3 && m.secrets == [] && crypto.seeded(db) == NoKey && dir != MEDIA_DB
    requires [HUB_DB] in source.files && source.files[[HUB_DB]] == db && [MEDIA_DB] !in source.files && source.dirs == {[dir]}
    requires !data.Exists([MEDIA_DB])
    ensures Complete(m, source, data, crypto, elsewhere)
  {
  }

  /** A snapshot of format 3, written and listed as a backup would, of a database that can be
      read and names no key, restored into a directory without databases. */
  ghost predicate InOrder(manifestText: Bytes, db: Bytes, dir: string, file: string, snapshot: Listing, m: Manifest,
                          data: Disk, crypto: Crypto)
  {
    && PortableName(dir) && PortableName(file) && dir != HUB_DB && dir != MEDIA_DB && dir != MANIFEST
    && ProperDigest(crypto.sha) && crypto.seeded(db) == NoKey
    && snapshot == TwoFiles(manifestText, db, dir, file)
    && m.format == 3 && m.secrets == [] && m.artifacts == TwoListed(db, dir, file, crypto.sha)
    && !HoldsDatabase(data)
  }

  lemma TwoAccepted(db: Bytes, dir: string, file: string, files: map<Path, Bytes>, listed: seq<Artifact>, sha: Digest)
    requires PortableName(dir) && PortableName(file) && ProperDigest(sha)
    requires files == TwoPaths(db, dir, file) && listed == TwoListed(db, dir, file, sha)
    ensures Accepts(listed, files, sha)
  {
    TwoDescribed(db, dir, file, sha);
    BackedUpIsAccepted(listed, files, sha);
  }

  lemma TwoDatabases(db: Bytes, dir: string, file: string)
    ensures var files := TwoPaths(db, dir, file);
            [HUB_DB] in files && files[[HUB_DB]] == db && [MEDIA_DB] !in files
  {
    assert |HUB_DB| == 6 && |MEDIA_DB| == 10;
  }

  lemma TwoAllowed(manifestText: Bytes, db: Bytes, dir: string, file: string, snapshot: Listing, m: Manifest,
                   data: Disk, crypto: Crypto, elsewhere: string -> bool)
    requires InOrder(manifestText, db, dir, file, snapshot, m, data, crypto)
    ensures WellFormed(snapshot) && Allowed(snapshot, m, data, false, crypto, elsewhere)
    ensures Source(snapshot, m) == Disk(TwoPaths(db, dir, file), {[dir]})
  {
    var files := TwoPaths(db, dir, file);
    TwoCollected(manifestText, db, dir, file, snapshot, files);
    TwoAccepted(db, dir, file, files, m.artifacts, crypto.sha);
    TwoDatabases(db, dir, file);
    TwoComplete(db, dir, m, Needing(files), data, crypto, elsewhere);
    AllowedByParts(snapshot, m, data, false, crypto, elsewhere, files);
  }

  /** A secret's name given to a directory passes every check, and is noticed only once
      everything else is written. */
  lemma SecretDirectoryInterrupts(manifestText: Bytes, db: Bytes, name: string, snapshot: Listing, m: Manifest,
                                  crypto: Crypto, elsewhere: string -> bool)
    requires name in SECRET_FILES && InOrder(manifestText, db, name, "x", snapshot, m, EMPTY, crypto)
    ensures Allowed(snapshot, m, EMPTY, false, crypto, elsewhere)
    ensures DatabasesFit(Source(snapshot, m), EMPTY, |DATABASES|) && TreesFit(Source(snapshot, m), EMPTY, |TREES|)
    ensures !Fits(Source(snapshot, m), EMPTY)
  {
    var k :| 0 <= k < |SECRET_FILES| && SECRET_FILES[k] == name;
    NamesApart();
    TwoAllowed(manifestText, db, name, "x", snapshot, m, EMPTY, crypto, elsewhere);
    SecretUnfit(Source(snapshot, m), db, k);
  }

  lemma SecretUnfit(source: Disk, db: Bytes, k: nat)
    requires k < |SECRET_FILES| && source == Disk(TwoPaths(db, SECRET_FILES[k], "x"), {[SECRET_FILES[k]]})
    ensures DatabasesFit(source, EMPTY, |DATABASES|) && TreesFit(source, EMPTY, |TREES|) && !Fits(source, EMPTY)
  {
    NamesApart();
    assert !SecretFits(source, EMPTY, SECRET_FILES[k]);
  }

  function OneFile(name: string, data: Bytes): Disk {
    Disk(map[[name] := data], {})
  }

  lemma OneFileValid(name: string, data: Bytes)
    ensures OneFile(name, data).Valid() && [name] in OneFile(name, data).files && OneFile(name, data).dirs == {}
  {
  }

  /** So does a tree for which the data directory has a plain file: the databases are
      replaced, and the tree is not. */
  lemma PlainFileInterrupts(manifestText: Bytes, db: Bytes, name: string, previous: Bytes, snapshot: Listing, m: Manifest,
                            data: Disk, crypto: Crypto, elsewhere: string -> bool)
    requires name in TREES && data == OneFile(name, previous)
    requires InOrder(manifestText, db, name, "x", snapshot, m, data, crypto)
    ensures data.Valid() && Allowed(snapshot, m, data, false, crypto, elsewhere)
    ensures DatabasesFit(Source(snapshot, m), data, |DATABASES|) && !Fits(Source(snapshot, m), data)
  {
    OneFileValid(name, previous);
    TwoAllowed(manifestText, db, name, "x", snapshot, m, data, crypto, elsewhere);
    PlainFileUnfit(Source(snapshot, m), db, data, name);
  }

  lemma PlainFileUnfit(source: Disk, db: Bytes, data: Disk, name: string)
    requires name in TREES && source == Disk(TwoPaths(db, name, "x"), {[name]})
    requires [name] in data.files && data.dirs == {}
    ensures DatabasesFit(source, data, |DATABASES|) && !Fits(source, data)
  {
    NamesApart();
    assert [name] in Under(source, [name]);
    var k :| 0 <= k < |TREES| && TREES[k] == name;
    assert !TreeFits(source, data, TREES[k]);
  }

  /** A directory in the media database's place is refused, at any format. */
  lemma MediaDirectoryRefused(snapshot: Listing, m: Manifest, data: Disk, force: bool, crypto: Crypto, elsewhere: string -> bool)
    requires WellFormed(snapshot) && [MEDIA_DB] in Source(snapshot, m).dirs
    ensures !Allowed(snapshot, m, data, force, crypto, elsewhere)
  {
    SourceValid(snapshot, m);
  }

  /** And so, from format 2 on, is a database that cannot be read for its key. */
  lemma UnreadableDatabaseRefused(snapshot: Listing, m: Manifest, data: Disk, force: bool, crypto: Crypto,
                                  elsewhere: string -> bool)
    requires m.format >= 2 && [HUB_DB] in Source(snapshot, m).files
    requires crypto.seeded(Source(snapshot, m).files[[HUB_DB]]) == Unreadable
    ensures !Allowed(snapshot, m, data, force, crypto, elsewhere)
  {
  }
}
