// What stands at a path of a directory, found by walking down its names: the reference
// for what a copied tree holds.

module Walks {
  import opened Wrappers
  import opened SnapshotPaths
  import opened Snapshot
  import opened Staging

  function At(files: map<Path, Bytes>, p: Path): Option<Bytes> {
    if p in files then Some(files[p]) else None
  }

  /** The entry of a directory with this name. */
  function Named(l: Listing, name: string): Option<Node> {
    if l.End? then None else if l.name == name then Some(l.node) else Named(l.rest, name)
  }

  /** The bytes of the file the path leads to, one name at a time. */
  function Walk(n: Node, path: Path): Option<Bytes>
    decreases |path|
  {
    if path == [] then (if n.Dir? then None else Some(n.data))
    else if !n.Dir? || Named(n.listing, path[0]).None? then None
    else Walk(Named(n.listing, path[0]).value, path[1..])
  }

  function WalkBelow(at: Option<Node>, path: Path): Option<Bytes> {
    if at.Some? && path != [] then Walk(at.value, path) else None
  }

  lemma {:induction false} NamedIsEntry(l: Listing, name: string)
    ensures Named(l, name).Some? <==> name in EntryNames(l)
  {
    if l.Entry? {
      NamedIsEntry(l.rest, name);
    }
  }

  lemma SplitPath(at: Path, path: Path)
    requires path != []
    ensures at + path == (at + [path[0]]) + path[1..] && |at + path| > |at| && (at + path)[|at|] == path[0]
    ensures (at + path)[..|at|] == at && (at + path)[..|at| + 1] == at + [path[0]]
  {
  }

  lemma NotBelow(n: Node, child: Path, p: Path)
    requires |p| >= |child| && p[..|child|] != child
    ensures p !in FlattenNode(n, child)
  {
    if p in FlattenNode(n, child) {
      PathsBelowNode(n, child, p);
    }
  }

  /** Flattening a directory lists exactly what walking finds. */
  lemma {:induction false} FlattenIsWalked(l: Listing, at: Path, path: Path)
    requires WellFormed(l) && path != []
    ensures At(Flatten(l, at), at + path) ==
            if Named(l, path[0]).Some? then Walk(Named(l, path[0]).value, path[1..]) else None
    decreases l, 0
  {
    SplitPath(at, path);
    var p := at + path;
    if l.Entry? {
      var child := at + [l.name];
      if path[0] == l.name {
        NodeIsWalked(l.node, child, path[1..]);
        if p in Flatten(l.rest, at) {
          PathsBelow(l.rest, at, p);
        }
      } else {
        FlattenIsWalked(l.rest, at, path);
        assert child[|at|] != (at + [path[0]])[|at|];
        NotBelow(l.node, child, p);
      }
    }
  }

  lemma {:induction false} NodeIsWalked(n: Node, at: Path, path: Path)
    requires n.Dir? ==> WellFormed(n.listing)
    ensures At(FlattenNode(n, at), at + path) == Walk(n, path)
    decreases n, 1
  {
    if n.Dir? {
      if path == [] {
        assert at + path == at;
        if at in Flatten(n.listing, at) {
          PathsBelow(n.listing, at, at);
        }
      } else {
        FlattenIsWalked(n.listing, at, path);
      }
    } else {
      assert |path| > 0 ==> |at + path| > |at|;
      assert path == [] ==> at + path == at;
    }
  }

  lemma StandsBelow(l: Listing, name: string, p: Path)
    ensures p in Flatten(l, [name]) ==> p != [] && p[0] == name
  {
    if p in Flatten(l, [name]) {
      PathsBelow(l, [name], p);
      assert p[0] == p[..1][0];
    }
  }

  /** The same for any path: nothing stands outside the directory. */
  lemma TreeIsWalked(name: string, l: Listing, p: Path)
    requires WellFormed(l)
    ensures At(Flatten(l, [name]), p) == if p != [] && p[0] == name then WalkBelow(Some(Dir(l)), p[1..]) else None
  {
    if p != [] && p[0] == name {
      assert p == [name] + p[1..];
      NodeIsWalked(Dir(l), [name], p[1..]);
    }
    StandsBelow(l, name, p);
  }
}
