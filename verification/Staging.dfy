// Collecting a snapshot's files and staging them against the artifact list of its
// manifest.

module Staging {
  import opened Wrappers
  import opened SnapshotPaths
  import opened Snapshot

  // --------------------------------------------- what a copied tree's list says

  ghost predicate DistinctPaths(listed: seq<Artifact>) {
    forall i, j :: 0 <= i < j < |listed| ==> listed[i].path != listed[j].path
  }

  /** The list names exactly these files, once each, with their length and digest. */
  ghost predicate Describes(listed: seq<Artifact>, files: map<Path, Bytes>, sha: Digest) {
    && (forall a :: a in listed ==> exists p :: p in files && a == ArtifactFor(p, files[p], sha))
    && (forall p :: p in files ==> ArtifactFor(p, files[p], sha) in listed)
    && DistinctPaths(listed)
  }

  lemma {:induction false} PathsBelow(l: Listing, at: Path, p: Path)
    requires p in Flatten(l, at)
    ensures |p| > |at| && p[..|at|] == at && p[|at|] in EntryNames(l)
    decreases l, 0
  {
    if p in FlattenNode(l.node, at + [l.name]) {
      PathsBelowNode(l.node, at + [l.name], p);
      assert p[..|at|] == p[..|at| + 1][..|at|];
      assert p[|at|] == p[..|at| + 1][|at|];
    } else {
      PathsBelow(l.rest, at, p);
    }
  }

  lemma {:induction false} PathsBelowNode(n: Node, at: Path, p: Path)
    requires p in FlattenNode(n, at)
    ensures |p| >= |at| && p[..|at|] == at
    decreases n, 1
  {
    if n.Dir? {
      PathsBelow(n.listing, at, p);
    }
  }

  ghost predicate Nameable(files: map<Path, Bytes>) {
    AllPortable(files) && [] !in files
  }

  lemma DescribesBoth(a: seq<Artifact>, f: map<Path, Bytes>, b: seq<Artifact>, g: map<Path, Bytes>, sha: Digest)
    requires Describes(a, f, sha) && Describes(b, g, sha) && Nameable(f) && Nameable(g) && f.Keys !! g.Keys
    ensures Describes(a + b, f + g, sha)
  {
    var both, files := a + b, f + g;
    forall x | x in both
      ensures exists p :: p in files && x == ArtifactFor(p, files[p], sha)
    {
      if x in a {
        var p :| p in f && x == ArtifactFor(p, f[p], sha);
        assert p in files && files[p] == f[p];
      } else {
        var p :| p in g && x == ArtifactFor(p, g[p], sha);
        assert p in files && files[p] == g[p];
      }
    }
    forall i, j | 0 <= i < j < |both|
      ensures both[i].path != both[j].path
    {
      if i < |a| <= j {
        assert both[i] in a && both[j] in b;
        var p :| p in f && both[i] == ArtifactFor(p, f[p], sha);
        var q :| q in g && both[j] == ArtifactFor(q, g[q], sha);
        if Join(p) == Join(q) {
          JoinInjective(p, q);
          assert false;
        }
      } else if j < |a| {
        assert both[i] == a[i] && both[j] == a[j];
      } else {
        assert both[i] == b[i - |a|] && both[j] == b[j - |a|];
      }
    }
  }

  lemma EntriesApart(l: Listing, at: Path)
    requires l.Entry? && WellFormed(l)
    ensures FlattenNode(l.node, at + [l.name]).Keys !! Flatten(l.rest, at).Keys
  {
    forall p | p in FlattenNode(l.node, at + [l.name])
      ensures p !in Flatten(l.rest, at)
    {
      PathsBelowNode(l.node, at + [l.name], p);
      assert p[|at|] == p[..|at| + 1][|at|] == l.name;
      if p in Flatten(l.rest, at) {
        PathsBelow(l.rest, at, p);
      }
    }
  }

  lemma BelowIsNeverRoot(l: Listing, at: Path)
    ensures [] !in Flatten(l, at)
  {
    if [] in Flatten(l, at) {
      PathsBelow(l, at, []);
    }
  }

  lemma OneFileDescribed(path: Path, data: Bytes, sha: Digest)
    ensures Describes([ArtifactFor(path, data, sha)], map[path := data], sha)
  {
    var files := map[path := data];
    assert path in files && files[path] == data;
  }

  /** The list built while copying describes the copied tree exactly. */
  lemma {:induction false} ArtifactsDescribeTree(l: Listing, at: Path, sha: Digest)
    requires WellFormed(l) && AllPortable(Flatten(l, at))
    ensures Describes(ArtifactsOf(l, at, sha), Flatten(l, at), sha)
    decreases l
  {
    if l.Entry? {
      var child := at + [l.name];
      FirstEntry(l, at, map[]);
      if l.node.Dir? {
        ArtifactsDescribeTree(l.node.listing, child, sha);
        BelowIsNeverRoot(l.node.listing, child);
      } else {
        OneFileDescribed(child, l.node.data, sha);
      }
      ArtifactsDescribeTree(l.rest, at, sha);
      BelowIsNeverRoot(l.rest, at);
      EntriesApart(l, at);
      DescribesBoth(ArtifactsOfNode(l.node, child, sha), FlattenNode(l.node, child),
                    ArtifactsOf(l.rest, at, sha), Flatten(l.rest, at), sha);
    }
  }

  // --------------------------------------------------------- collecting a tree

  /** The files a manifest lists: all but the manifest itself. */
  function Listable(files: map<Path, Bytes>): map<Path, Bytes> {
    files - {[MANIFEST]}
  }

  ghost predicate Collectable(l: Listing, at: Path) {
    Regular(l) && AllPortable(Flatten(l, at))
  }

  ghost predicate CollectableNode(n: Node, at: Path) {
    !n.Link? && (n.Dir? ==> Regular(n.listing)) && AllPortable(FlattenNode(n, at))
  }

  /** A directory gathered as far as `rest`. */
  ghost predicate Gathered(from: Listing, rest: Listing, at: Path, start: map<Path, Bytes>, found: map<Path, Bytes>) {
    && (Collectable(from, at) <==> Collectable(rest, at))
    && found + Listable(Flatten(rest, at)) == start + Listable(Flatten(from, at))
  }

  lemma CollectableFirst(l: Listing, at: Path)
    requires l.Entry?
    ensures Collectable(l, at) <==> CollectableNode(l.node, at + [l.name]) && Collectable(l.rest, at)
    ensures Listable(Flatten(l, at)) == Listable(FlattenNode(l.node, at + [l.name])) + Listable(Flatten(l.rest, at))
  {
    FirstEntry(l, at, map[]);
  }

  lemma GatheredStep(from: Listing, rest: Listing, at: Path, start: map<Path, Bytes>, found: map<Path, Bytes>)
    requires rest.Entry? && Gathered(from, rest, at, start, found)
    ensures var child := at + [rest.name];
            && (!CollectableNode(rest.node, child) ==> !Collectable(from, at))
            && (CollectableNode(rest.node, child) ==>
                 Gathered(from, rest.rest, at, start, found + Listable(FlattenNode(rest.node, child))))
  {
    CollectableFirst(rest, at);
    PlusAssociates(found, Listable(FlattenNode(rest.node, at + [rest.name])), Listable(Flatten(rest.rest, at)));
  }

  method CollectEntry(node: Node, at: Path, found: map<Path, Bytes>) returns (more: Option<map<Path, Bytes>>)
    requires (node.Dir? ==> WellFormed(node.listing)) && at != [] && Readable(at)
    ensures more.Some? <==> CollectableNode(node, at)
    ensures more.Some? ==> more.value == found + Listable(FlattenNode(node, at))
    decreases node
  {
    if node.Dir? {
      more := CollectArtifactPaths(node.listing, at, found);
    } else if node.File? {
      assert at in FlattenNode(node, at);
      if at == [MANIFEST] {
        assert PortableName(MANIFEST);
        return Some(found);
      }
      PathJudged(at);
      assert forall c :: c in Normals(at) ==> c.Normal? && c.name in at;
      var path := BuildArtifactPath(Normals(at));
      if path.None? {
        return None;
      }
      return Some(found[at := node.data]);
    } else {
      return None;
    }
  }

  /** Every regular file below a directory but the manifest, by its path. Anything that
      is neither file nor directory, or cannot be named, stops it. */
  method CollectArtifactPaths(directory: Listing, at: Path, artifacts: map<Path, Bytes>)
    returns (found: Option<map<Path, Bytes>>)
    requires WellFormed(directory) && Readable(at)
    ensures found.Some? <==> Collectable(directory, at)
    ensures found.Some? ==> found.value == artifacts + Listable(Flatten(directory, at))
    decreases directory
  {
    var rest, gathered := directory, artifacts;
    while rest.Entry?
      invariant WellFormed(rest) && (rest == directory || rest < directory)
      invariant Gathered(directory, rest, at, artifacts, gathered)
      decreases rest
    {
      GatheredStep(directory, rest, at, artifacts, gathered);
      var more := CollectEntry(rest.node, at + [rest.name], gathered);
      if more.None? {
        return None;
      }
      gathered := more.value;
      rest := rest.rest;
    }
    return Some(gathered);
  }

  // ------------------------------------------------------------------- staging

  predicate DigestText(s: string) {
    |s| == 64 && forall c :: c in s ==> '0' <= c <= '9' || 'a' <= c <= 'f'
  }

  ghost predicate WellStated(a: Artifact) {
    DigestText(a.sha256) && Portable(Pieces(a.path))
  }

  ghost predicate HeldAt(a: Artifact, p: Path, files: map<Path, Bytes>, sha: Digest) {
    p in files && |files[p]| == a.bytes && sha(files[p]) == a.sha256
  }

  /** What a manifest must say of the files found for a restore to go on. */
  ghost predicate Accepts(listed: seq<Artifact>, files: map<Path, Bytes>, sha: Digest) {
    && (forall a :: a in listed ==> WellStated(a) && HeldAt(a, Pieces(a.path), files, sha))
    && DistinctPaths(listed)
    && (forall p :: p in files ==> exists a :: a in listed && Pieces(a.path) == p)
  }

  method CheckArtifact(a: Artifact) returns (ok: bool)
    ensures ok <==> WellStated(a)
  {
    CanonicalText(a.path);
    return DigestText(a.sha256) && ArtifactPath(Components(a.path)) == Some(a.path);
  }

  /** The list by path, when every entry is well stated and none is repeated. Equal paths
      have equal text, so keying by one is keying by the other. */
  method ExpectedArtifacts(listed: seq<Artifact>) returns (expected: Option<map<Path, Artifact>>)
    ensures expected.Some? <==> (forall a :: a in listed ==> WellStated(a)) && DistinctPaths(listed)
    ensures expected.Some? ==> Indexes(expected.value, listed)
  {
    var byPath: map<Path, Artifact> := map[];
    for i := 0 to |listed|
      invariant forall k :: 0 <= k < i ==> WellStated(listed[k])
      invariant DistinctPaths(listed[..i]) && Indexes(byPath, listed[..i])
    {
      var artifact := listed[i];
      var ok := CheckArtifact(artifact);
      if !ok {
        assert artifact in listed;
        return None;
      }
      var path := Pieces(artifact.path);
      if path in byPath {
        var k :| 0 <= k < i && listed[..i][k] == byPath[path];
        SamePath(listed[k], artifact);
        return None;
      }
      IndexOneMore(byPath, listed, i);
      byPath := byPath[path := artifact];
    }
    assert listed[..|listed|] == listed;
    return Some(byPath);
  }

  ghost predicate Indexes(expected: map<Path, Artifact>, listed: seq<Artifact>) {
    && (forall a :: a in listed ==> Pieces(a.path) in expected && expected[Pieces(a.path)] == a)
    && (forall p :: p in expected ==> expected[p] in listed && Pieces(expected[p].path) == p)
  }

  lemma SamePath(a: Artifact, b: Artifact)
    requires Pieces(a.path) == Pieces(b.path)
    ensures a.path == b.path
  {
    JoinPieces(a.path);
    JoinPieces(b.path);
  }

  lemma IndexOneMore(expected: map<Path, Artifact>, listed: seq<Artifact>, i: nat)
    requires i < |listed| && DistinctPaths(listed[..i]) && Indexes(expected, listed[..i])
    requires Pieces(listed[i].path) !in expected
    ensures DistinctPaths(listed[..i + 1])
    ensures Indexes(expected[Pieces(listed[i].path) := listed[i]], listed[..i + 1])
  {
    assert listed[..i + 1] == listed[..i] + [listed[i]];
    forall k | 0 <= k < i
      ensures listed[k].path != listed[i].path
    {
      assert listed[..i][k] in listed[..i];
    }
  }

  /** One expected artifact: found, copied into the staging folder and compared. */
  method StageOne(artifact: Artifact, path: Path, actual: map<Path, Bytes>, staging: Folder, sha: Digest) returns (ok: bool)
    requires PathAllowed(path)
    modifies staging
    ensures ok <==> HeldAt(artifact, path, actual, sha)
    ensures ok ==> staging.files == old(staging.files)[path := actual[path]]
  {
    if path !in actual {
      return false;
    }
    PortableTextAccepted(path);
    assert forall name :: name in path ==> PortableName(name);
    var staged := CopyArtifact(actual[path], staging, path, sha);
    return staged.value.bytes == artifact.bytes && staged.value.sha256 == artifact.sha256;
  }

  /** The files already held, on top of what the folder had. */
  function Holding(start: map<Path, Bytes>, files: map<Path, Bytes>, held: set<Path>): map<Path, Bytes> {
    start + (map p | p in files && p in held :: files[p])
  }

  lemma HoldOneMore(start: map<Path, Bytes>, files: map<Path, Bytes>, held: set<Path>, path: Path)
    requires path in files
    ensures Holding(start, files, held)[path := files[path]] == Holding(start, files, held + {path})
  {
  }

  lemma HoldAll(start: map<Path, Bytes>, files: map<Path, Bytes>, held: set<Path>)
    requires held == files.Keys
    ensures Holding(start, files, held) == start + files
  {
  }

  lemma NothingBefore(files: map<Path, Bytes>)
    ensures map[] + files == files
  {
  }

  ghost predicate AllHeld(expected: map<Path, Artifact>, held: set<Path>, files: map<Path, Bytes>, sha: Digest)
    requires held <= expected.Keys
  {
    forall p :: p in held ==> HeldAt(expected[p], p, files, sha)
  }

  ghost predicate LeftOver(actual: map<Path, Bytes>, files: map<Path, Bytes>, held: set<Path>) {
    && (forall p :: p in actual <==> p in files && p !in held)
    && (forall p :: p in actual ==> actual[p] == files[p])
  }

  lemma TakeOne(actual: map<Path, Bytes>, files: map<Path, Bytes>, held: set<Path>, path: Path, a: Artifact, sha: Digest)
    requires LeftOver(actual, files, held) && path !in held
    ensures HeldAt(a, path, actual, sha) <==> HeldAt(a, path, files, sha)
    ensures path in files ==> path in actual && actual[path] == files[path]
    ensures LeftOver(actual - {path}, files, held + {path})
  {
  }

  lemma AllTaken(expected: map<Path, Artifact>, actual: map<Path, Bytes>, files: map<Path, Bytes>, sha: Digest)
    requires LeftOver(actual, files, expected.Keys) && AllHeld(expected, expected.Keys, files, sha)
    ensures actual.Keys == {} <==> MatchesList(expected, files, sha)
    ensures actual.Keys == {} ==> expected.Keys == files.Keys
  {
    assert expected.Keys <= files.Keys;
    assert actual.Keys == files.Keys - expected.Keys;
  }

  ghost predicate MatchesList(expected: map<Path, Artifact>, files: map<Path, Bytes>, sha: Digest) {
    expected.Keys == files.Keys && AllHeld(expected, expected.Keys, files, sha)
  }

  /** The staging loop, over a list already checked and files already collected. */
  method StageExpected(expected: map<Path, Artifact>, files: map<Path, Bytes>, staging: Folder, sha: Digest)
    returns (ok: bool)
    requires PathsAllowed(expected.Keys)
    modifies staging
    ensures ok <==> MatchesList(expected, files, sha)
    ensures ok ==> staging.files == old(staging.files) + files
  {
    var actual, pending := files, expected.Keys;
    ghost var held: set<Path> := {};
    ghost var start := staging.files;
    while pending != {}
      invariant pending <= expected.Keys && held == expected.Keys - pending
      invariant LeftOver(actual, files, held) && AllHeld(expected, held, files, sha)
      invariant staging.files == Holding(start, files, held)
      decreases pending
    {
      var path :| path in pending;
      TakeOne(actual, files, held, path, expected[path], sha);
      var one := StageOne(expected[path], path, actual, staging, sha);
      if !one {
        return false;
      }
      HoldOneMore(start, files, held, path);
      actual := actual - {path};
      pending, held := pending - {path}, held + {path};
    }
    AllTaken(expected, actual, files, sha);
    if actual.Keys == {} {
      HoldAll(start, files, held);
    }
    return actual.Keys == {};
  }

  ghost predicate PathsAllowed(paths: set<Path>) {
    forall p :: p in paths ==> PathAllowed(p)
  }

  ghost predicate PathAllowed(p: Path) {
    p != [] && Portable(p)
  }

  lemma AcceptedByIndex(expected: map<Path, Artifact>, listed: seq<Artifact>, files: map<Path, Bytes>, sha: Digest)
    requires Indexes(expected, listed) && DistinctPaths(listed) && forall a :: a in listed ==> WellStated(a)
    ensures Accepts(listed, files, sha) <==> MatchesList(expected, files, sha)
  {
    if Accepts(listed, files, sha) {
      forall p | p in expected
        ensures p in files && HeldAt(expected[p], p, files, sha)
      {
        assert expected[p] in listed;
      }
      assert expected.Keys == files.Keys;
    }
  }

  /** Freeze the snapshot's files into the staging folder. It succeeds exactly when the
      snapshot holds only directories and nameable regular files, and its manifest lists
      precisely those files, once each, with their lengths and digests. */
  method StageArtifacts(src: Listing, staging: Folder, listed: seq<Artifact>, sha: Digest) returns (ok: bool)
    requires WellFormed(src)
    modifies staging
    ensures ok <==> Collectable(src, []) && Accepts(listed, Listable(Flatten(src, [])), sha)
    ensures ok ==> staging.files == old(staging.files) + Listable(Flatten(src, []))
  {
    var expected := ExpectedArtifacts(listed);
    if expected.None? {
      return false;
    }
    var collected := CollectArtifactPaths(src, [], map[]);
    if collected.None? {
      return false;
    }
    NothingBefore(Listable(Flatten(src, [])));
    AcceptedByIndex(expected.value, listed, collected.value, sha);
    IndexPortable(expected.value, listed);
    ok := StageExpected(expected.value, collected.value, staging, sha);
  }

  lemma IndexPortable(expected: map<Path, Artifact>, listed: seq<Artifact>)
    requires Indexes(expected, listed) && forall a :: a in listed ==> WellStated(a)
    ensures PathsAllowed(expected.Keys)
  {
    forall p | p in expected
      ensures PathAllowed(p)
    {
      assert expected[p] in listed && Pieces(expected[p].path) == p;
    }
  }
}
