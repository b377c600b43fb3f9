// Copying a directory tree into a snapshot with its artifact list, and staging a
// snapshot back against that list. Reads and writes are taken to succeed; the SHA-256
// digest is a parameter.

module Snapshot {
  import opened Wrappers
  import opened SnapshotPaths

  type Bytes = seq<bv8>

  /** What a directory entry is: a regular file, anything else that opens and reads
      like one (a symbolic link), or a directory. */
  datatype Node = File(data: Bytes) | Link(data: Bytes) | Dir(listing: Listing)

  /** A directory in the order `read_dir` happens to return it. */
  datatype Listing = End | Entry(name: string, node: Node, rest: Listing)

  datatype Artifact = Artifact(path: string, bytes: nat, sha256: string)

  type Digest = Bytes -> string

  const MANIFEST := "kahawai-backup.json"

  function EntryNames(l: Listing): set<string> {
    if l.End? then {} else {l.name} + EntryNames(l.rest)
  }

  /** What any file system guarantees of a tree. */
  predicate WellFormed(l: Listing) {
    l.End? || (EntryName(l.name) && l.name !in EntryNames(l.rest) && WellFormed(l.rest)
               && (l.node.Dir? ==> WellFormed(l.node.listing)))
  }

  /** Nothing but directories and regular files. */
  predicate Regular(l: Listing) {
    l.End? || (!l.node.Link? && Regular(l.rest) && (l.node.Dir? ==> Regular(l.node.listing)))
  }

  /** Every file below a directory by its path, under the prefix `at`. */
  function Flatten(l: Listing, at: Path): map<Path, Bytes> {
    if l.End? then map[] else FlattenNode(l.node, at + [l.name]) + Flatten(l.rest, at)
  }

  function FlattenNode(n: Node, at: Path): map<Path, Bytes> {
    match n
    case File(data) => map[at := data]
    case Link(data) => map[at := data]
    case Dir(listing) => Flatten(listing, at)
  }

  lemma PlusAssociates(a: map<Path, Bytes>, b: map<Path, Bytes>, c: map<Path, Bytes>)
    ensures a + b + c == a + (b + c)
  {
  }

  ghost predicate AllPortable(files: map<Path, Bytes>) {
    forall p :: p in files ==> Portable(p)
  }

  function ArtifactFor(path: Path, data: Bytes, sha: Digest): Artifact {
    Artifact(Join(path), |data|, sha(data))
  }

  function ArtifactsOf(l: Listing, at: Path, sha: Digest): seq<Artifact> {
    if l.End? then [] else ArtifactsOfNode(l.node, at + [l.name], sha) + ArtifactsOf(l.rest, at, sha)
  }

  function ArtifactsOfNode(n: Node, at: Path, sha: Digest): seq<Artifact> {
    match n
    case File(data) => [ArtifactFor(at, data, sha)]
    case Link(data) => [ArtifactFor(at, data, sha)]
    case Dir(listing) => ArtifactsOf(listing, at, sha)
  }

  function TotalBytes(artifacts: seq<Artifact>): nat {
    if artifacts == [] then 0 else TotalBytes(artifacts[..|artifacts| - 1]) + artifacts[|artifacts| - 1].bytes
  }

  lemma {:induction false} TotalBytesOfBoth(a: seq<Artifact>, b: seq<Artifact>)
    ensures TotalBytes(a + b) == TotalBytes(a) + TotalBytes(b)
  {
    if b == [] {
      assert a + b == a;
    } else {
      TotalBytesOfBoth(a, b[..|b| - 1]);
      assert (a + b)[..|a + b| - 1] == a + b[..|b| - 1];
    }
  }

  // ----------------------------------------------------------- copying a tree

  class Folder {
    var files: map<Path, Bytes>

    constructor ()
      ensures files == map[]
    {
      files := map[];
    }
  }

  /** Copy one file and describe it. The bytes are written before the path is judged. */
  method CopyArtifact(data: Bytes, to: Folder, relative: Path, sha: Digest) returns (artifact: Option<Artifact>)
    requires forall name :: name in relative ==> name != ""
    modifies to
    ensures to.files == old(to.files)[relative := data]
    ensures artifact == match ArtifactPath(Normals(relative))
                        case None => None
                        case Some(path) => Some(Artifact(path, |data|, sha(data)))
  {
    to.files := to.files[relative := data];
    assert forall c :: c in Normals(relative) ==> c.Normal? && c.name in relative;
    var path := BuildArtifactPath(Normals(relative));
    if path.None? {
      return None;
    }
    return Some(Artifact(path.value, |data|, sha(data)));
  }

  datatype Copied = Copied(files: nat, bytes: nat, artifacts: seq<Artifact>)

  ghost predicate Readable(path: Path) {
    forall name :: name in path ==> EntryName(name)
  }

  lemma PathJudged(path: Path)
    requires path != [] && Readable(path)
    ensures ArtifactPath(Normals(path)) == if Portable(path) then Some(Join(path)) else None
  {
    if Portable(path) {
      PortableTextAccepted(path);
    } else {
      var name :| name in path && !PortableName(name);
      var i :| 0 <= i < |path| && path[i] == name;
      assert Normals(path)[i] in Normals(path);
    }
  }

  lemma FirstEntry(l: Listing, at: Path, before: map<Path, Bytes>)
    requires l.Entry?
    ensures var child := at + [l.name];
            && AllPortable(Flatten(l, at)) == (AllPortable(FlattenNode(l.node, child)) && AllPortable(Flatten(l.rest, at)))
            && before + FlattenNode(l.node, child) + Flatten(l.rest, at) == before + Flatten(l, at)
  {
    var child := at + [l.name];
    assert Flatten(l, at) == FlattenNode(l.node, child) + Flatten(l.rest, at);
    assert Flatten(l, at).Keys == FlattenNode(l.node, child).Keys + Flatten(l.rest, at).Keys;
    assert forall p :: p in FlattenNode(l.node, child) ==> p in Flatten(l, at);
    assert forall p :: p in Flatten(l.rest, at) ==> p in Flatten(l, at);
  }

  function Added(done: Copied, listed: seq<Artifact>): Copied {
    Copied(done.files + |listed|, done.bytes + TotalBytes(listed), done.artifacts + listed)
  }

  lemma AddedTwice(done: Copied, a: seq<Artifact>, b: seq<Artifact>)
    ensures Added(Added(done, a), b) == Added(done, a + b)
  {
    TotalBytesOfBoth(a, b);
    assert done.artifacts + a + b == done.artifacts + (a + b);
  }

  /** One directory entry of the loop below: a directory recurses, anything else is copied. */
  method CopyEntry(node: Node, to: Folder, child: Path, done: Copied, sha: Digest) returns (copied: Option<Copied>)
    requires (node.Dir? ==> WellFormed(node.listing)) && child != [] && Readable(child)
    modifies to
    ensures copied.Some? <==> AllPortable(FlattenNode(node, child))
    ensures copied.Some? ==>
      && to.files == old(to.files) + FlattenNode(node, child)
      && copied.value == Added(done, ArtifactsOfNode(node, child, sha))
    decreases node
  {
    if node.Dir? {
      var inner := CopySnapshotTree(node.listing, to, child, done.artifacts, sha);
      if inner.None? {
        return None;
      }
      return Some(Copied(done.files + inner.value.files, done.bytes + inner.value.bytes, inner.value.artifacts));
    }
    PathJudged(child);
    var artifact := CopyArtifact(node.data, to, child, sha);
    assert child in FlattenNode(node, child);
    if artifact.None? {
      return None;
    }
    assert TotalBytes([artifact.value]) == artifact.value.bytes;
    return Some(Copied(done.files + 1, done.bytes + artifact.value.bytes, done.artifacts + [artifact.value]));
  }

  /** A tree walked as far as `rest`: `files` and `listed` hold what came before it. */
  ghost predicate Midway(from: Listing, rest: Listing, at: Path, sha: Digest,
                         start: map<Path, Bytes>, files: map<Path, Bytes>, listed: seq<Artifact>)
  {
    && (AllPortable(Flatten(from, at)) <==> AllPortable(Flatten(rest, at)))
    && listed + ArtifactsOf(rest, at, sha) == ArtifactsOf(from, at, sha)
    && files + Flatten(rest, at) == start + Flatten(from, at)
  }

  lemma MidwayStep(from: Listing, rest: Listing, at: Path, sha: Digest,
                   start: map<Path, Bytes>, files: map<Path, Bytes>, listed: seq<Artifact>)
    requires rest.Entry? && Midway(from, rest, at, sha, start, files, listed)
    ensures var child := at + [rest.name];
            && (!AllPortable(FlattenNode(rest.node, child)) ==> !AllPortable(Flatten(from, at)))
            && (AllPortable(FlattenNode(rest.node, child)) ==>
                 Midway(from, rest.rest, at, sha, start, files + FlattenNode(rest.node, child),
                        listed + ArtifactsOfNode(rest.node, child, sha)))
  {
    FirstEntry(rest, at, files);
    var one := ArtifactsOfNode(rest.node, at + [rest.name], sha);
    assert listed + one + ArtifactsOf(rest.rest, at, sha) == listed + (one + ArtifactsOf(rest.rest, at, sha));
  }

  /** The state of the loop below: `listed` describes what it has copied. */
  ghost predicate Walking(from: Listing, rest: Listing, at: Path, sha: Digest, start: map<Path, Bytes>,
                          files: map<Path, Bytes>, begun: Copied, listed: seq<Artifact>, done: Copied)
  {
    WellFormed(rest) && done == Added(begun, listed) && Midway(from, rest, at, sha, start, files, listed)
  }

  lemma WalkingStarts(from: Listing, at: Path, sha: Digest, start: map<Path, Bytes>, begun: Copied)
    requires WellFormed(from)
    ensures Walking(from, from, at, sha, start, start, begun, [], begun)
  {
    assert begun.artifacts + [] == begun.artifacts;
    assert [] + ArtifactsOf(from, at, sha) == ArtifactsOf(from, at, sha);
  }

  lemma WalkingStep(from: Listing, rest: Listing, at: Path, sha: Digest, start: map<Path, Bytes>,
                    files: map<Path, Bytes>, begun: Copied, listed: seq<Artifact>, done: Copied)
    requires rest.Entry? && Walking(from, rest, at, sha, start, files, begun, listed, done)
    ensures var child := at + [rest.name];
            var more := ArtifactsOfNode(rest.node, child, sha);
            && (!AllPortable(FlattenNode(rest.node, child)) ==> !AllPortable(Flatten(from, at)))
            && (AllPortable(FlattenNode(rest.node, child)) ==>
                  Walking(from, rest.rest, at, sha, start, files + FlattenNode(rest.node, child), begun,
                          listed + more, Added(done, more)))
  {
    MidwayStep(from, rest, at, sha, start, files, listed);
    AddedTwice(begun, listed, ArtifactsOfNode(rest.node, at + [rest.name], sha));
  }

  lemma WalkingEnds(from: Listing, at: Path, sha: Digest, start: map<Path, Bytes>,
                    files: map<Path, Bytes>, begun: Copied, listed: seq<Artifact>, done: Copied)
    requires Walking(from, End, at, sha, start, files, begun, listed, done)
    ensures AllPortable(Flatten(from, at)) && files == start + Flatten(from, at)
    ensures done == Added(begun, ArtifactsOf(from, at, sha))
  {
    assert listed == ArtifactsOf(from, at, sha);
  }

  /** Copy a directory into the snapshot and describe every file copied. It succeeds
      exactly when every file below can be given a portable name. */
  method CopySnapshotTree(from: Listing, to: Folder, relative: Path, artifacts: seq<Artifact>, sha: Digest)
    returns (copied: Option<Copied>)
    requires WellFormed(from) && Readable(relative)
    modifies to
    ensures copied.Some? <==> AllPortable(Flatten(from, relative))
    ensures copied.Some? ==>
      && to.files == old(to.files) + Flatten(from, relative)
      && copied.value == Added(Copied(0, 0, artifacts), ArtifactsOf(from, relative, sha))
    decreases from
  {
    var done := Copied(0, 0, artifacts);
    var rest := from;
    ghost var begun, start, listed := done, to.files, [];
    WalkingStarts(from, relative, sha, start, begun);
    while rest.Entry?
      invariant rest == from || rest < from
      invariant Walking(from, rest, relative, sha, start, to.files, begun, listed, done)
      decreases rest
    {
      var child := relative + [rest.name];
      WalkingStep(from, rest, relative, sha, start, to.files, begun, listed, done);
      var next := CopyEntry(rest.node, to, child, done, sha);
      if next.None? {
        return None;
      }
      done := next.value;
      listed := listed + ArtifactsOfNode(rest.node, child, sha);
      rest := rest.rest;
    }
    WalkingEnds(from, relative, sha, start, to.files, begun, listed, done);
    return Some(done);
  }
}
