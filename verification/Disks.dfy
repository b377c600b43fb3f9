// A directory as files and directories by path, and the three ways a restore writes to
// it. The only failures modelled are a file or a directory that stands in the way.

module Disks {
  import opened SnapshotPaths
  import opened Snapshot

  datatype Disk = Disk(files: map<Path, Bytes>, dirs: set<Path>) {
    /** Every path but the top has its parent, and is one thing only. */
    ghost predicate Valid() {
      && files.Keys !! dirs
      && forall p :: p in files || p in dirs ==> p != [] && (|p| > 1 ==> p[..|p| - 1] in dirs)
    }

    /** `exists()`, which a directory answers as a file does. */
    predicate Exists(p: Path) {
      p in files || p in dirs
    }
  }

  predicate Below(at: Path, p: Path) {
    |at| <= |p| && p[..|at|] == at
  }

  /** The path itself and everything below it. */
  function Under(d: Disk, at: Path): set<Path> {
    set p | p in d.files.Keys + d.dirs && Below(at, p)
  }

  /** The entries of a directory. */
  function Children(d: Disk, at: Path): set<Path> {
    set p | p in d.files.Keys + d.dirs && Below(at, p) && |p| == |at| + 1
  }

  /** What `data` becomes when these paths of `source` are written over it. */
  function Overlaid(data: Disk, source: Disk, written: set<Path>): Disk {
    Disk(data.files + (map p | p in source.files && p in written :: source.files[p]),
         data.dirs + source.dirs * written)
  }

  /** No file stands where a directory comes, and no directory where a file comes. */
  ghost predicate Clear(source: Disk, data: Disk, paths: set<Path>) {
    forall p :: p in paths ==> !(p in source.dirs && p in data.files) && !(p in source.files && p in data.dirs)
  }

  lemma {:induction false} Ancestor(d: Disk, p: Path, n: nat)
    requires d.Valid() && d.Exists(p) && 0 < n < |p|
    ensures p[..n] in d.dirs
    decreases |p|
  {
    var up := p[..|p| - 1];
    if n < |up| {
      Ancestor(d, up, n);
      assert up[..n] == p[..n];
    }
  }

  lemma FileAlone(d: Disk, at: Path)
    requires d.Valid() && at in d.files
    ensures Under(d, at) == {at}
  {
    forall p | p in Under(d, at)
      ensures p == at
    {
      if |p| > |at| {
        Ancestor(d, p, |at|);
      }
    }
  }

  // ---------------------------------------------------------------- the writes

  class DataDir {
    var disk: Disk

    constructor (start: Disk)
      ensures disk == start
    {
      disk := start;
    }

    /** `fs::copy` into a directory that is there. */
    method CopyTo(to: Path, data: Bytes) returns (ok: bool)
      requires disk.Valid() && to != [] && (|to| > 1 ==> to[..|to| - 1] in disk.dirs)
      modifies this
      ensures disk.Valid()
      ensures ok <==> to !in old(disk).dirs
      ensures disk == if ok then old(disk).(files := old(disk).files[to := data]) else old(disk)
    {
      if to in disk.dirs {
        return false;
      }
      disk := disk.(files := disk.files[to := data]);
      return true;
    }

    /** `create_dir_all`, of a path whose parent is there. */
    method CreateDir(at: Path) returns (ok: bool)
      requires disk.Valid() && at != [] && (|at| > 1 ==> at[..|at| - 1] in disk.dirs)
      modifies this
      ensures disk.Valid()
      ensures ok <==> at !in old(disk).files
      ensures disk == if ok then old(disk).(dirs := old(disk).dirs + {at}) else old(disk)
    {
      if at in disk.files {
        return false;
      }
      disk := disk.(dirs := disk.dirs + {at});
      return true;
    }

    /** `remove_file`, to which a missing file is no error. */
    method RemoveFile(p: Path) returns (ok: bool)
      requires disk.Valid()
      modifies this
      ensures disk.Valid()
      ensures ok <==> p !in old(disk).dirs
      ensures disk == if ok then old(disk).(files := old(disk).files - {p}) else old(disk)
    {
      if p in disk.dirs {
        return false;
      }
      disk := disk.(files := disk.files - {p});
      return true;
    }
  }

  /** A tree copied but for these of its entries. */
  ghost predicate Midway(source: Disk, at: Path, pending: set<Path>, written: set<Path>) {
    && pending <= Children(source, at)
    && written <= Under(source, at) && at in written
    && forall p :: p in Under(source, at) && p != at ==> (p in written <==> p[..|at| + 1] !in pending)
  }

  lemma MidwayStart(source: Disk, at: Path)
    requires source.Valid() && at in source.dirs
    ensures Midway(source, at, Children(source, at), {at})
  {
    forall p | p in Under(source, at) && p != at
      ensures p[..|at| + 1] in Children(source, at)
    {
      if |p| > |at| + 1 {
        Ancestor(source, p, |at| + 1);
      } else {
        assert p[..|at| + 1] == p;
      }
      assert p[..|at| + 1][..|at|] == p[..|at|];
    }
  }

  lemma MidwayStep(source: Disk, at: Path, pending: set<Path>, written: set<Path>, child: Path)
    requires Midway(source, at, pending, written) && child in pending
    ensures Midway(source, at, pending - {child}, written + Under(source, child))
    ensures Under(source, child) !! written && Under(source, child) < Under(source, at)
  {
    forall p | p in Under(source, child)
      ensures p in Under(source, at) && p != at && p !in written
    {
      assert p[..|at|] == p[..|at| + 1][..|at|];
    }
    forall p | p in Under(source, at) && p != at && p[..|at| + 1] == child
      ensures p in Under(source, child)
    {
    }
    assert at !in Under(source, child);
  }

  lemma OverlaidTwice(data: Disk, source: Disk, one: set<Path>, two: set<Path>)
    ensures Overlaid(Overlaid(data, source, one), source, two) == Overlaid(data, source, one + two)
  {
  }

  lemma ClearElsewhere(data: Disk, source: Disk, written: set<Path>, paths: set<Path>)
    requires written !! paths
    ensures Clear(source, Overlaid(data, source, written), paths) <==> Clear(source, data, paths)
  {
    assert forall p :: p in paths ==> (p in Overlaid(data, source, written).files <==> p in data.files);
    assert forall p :: p in paths ==> (p in Overlaid(data, source, written).dirs <==> p in data.dirs);
  }

  /** The state of the loop below. */
  ghost predicate Copying(source: Disk, start: Disk, at: Path, pending: set<Path>, written: set<Path>, now: Disk) {
    Midway(source, at, pending, written) && Clear(source, start, written) && now == Overlaid(start, source, written)
  }

  lemma CopyingStarts(source: Disk, start: Disk, at: Path)
    requires source.Valid() && at in source.dirs && at !in start.files
    ensures Copying(source, start, at, Children(source, at), {at}, start.(dirs := start.dirs + {at}))
  {
    MidwayStart(source, at);
  }

  lemma CopyingChild(source: Disk, start: Disk, at: Path, pending: set<Path>, written: set<Path>, now: Disk, child: Path)
    requires source.Valid() && Copying(source, start, at, pending, written, now) && child in pending
    requires at in source.dirs
    ensures source.Exists(child) && |child| == |at| + 1 && child[..|at|] == at && at in now.dirs
    ensures Under(source, child) < Under(source, at)
    ensures Clear(source, now, Under(source, child)) <==> Clear(source, start, Under(source, child))
  {
    MidwayStep(source, at, pending, written, child);
    ClearElsewhere(start, source, written, Under(source, child));
  }

  lemma CopyingStep(source: Disk, start: Disk, at: Path, pending: set<Path>, written: set<Path>, now: Disk,
                    child: Path, more: set<Path>)
    requires Copying(source, start, at, pending, written, now) && child in pending && more <= Under(source, child)
    ensures Overlaid(now, source, more) == Overlaid(start, source, written + more)
    ensures written + more <= Under(source, at)
    ensures more == Under(source, child) && Clear(source, start, more) ==>
              Copying(source, start, at, pending - {child}, written + more, Overlaid(now, source, more))
    ensures !Clear(source, start, Under(source, child)) ==> !Clear(source, start, Under(source, at))
  {
    MidwayStep(source, at, pending, written, child);
    OverlaidTwice(start, source, written, more);
  }

  lemma CopyingEnds(source: Disk, start: Disk, at: Path, written: set<Path>, now: Disk)
    requires Copying(source, start, at, {}, written, now)
    ensures written == Under(source, at)
  {
  }

  lemma NothingOverlaid(data: Disk, source: Disk)
    ensures Overlaid(data, source, {}) == data
  {
  }

  /** Copy a directory and everything below it, in whatever order its entries are read.
      It succeeds exactly when nothing stands in the way; what it wrote before it failed
      stays. */
  method CopyTree(source: Disk, data: DataDir, at: Path) returns (ok: bool, ghost written: set<Path>)
    requires source.Valid() && data.disk.Valid() && at in source.dirs
    requires |at| > 1 ==> at[..|at| - 1] in data.disk.dirs
    modifies data
    ensures data.disk.Valid()
    ensures ok <==> Clear(source, old(data.disk), Under(source, at))
    ensures written <= Under(source, at) && (ok ==> written == Under(source, at))
    ensures data.disk == Overlaid(old(data.disk), source, written)
    decreases Under(source, at), 0
  {
    ghost var start := data.disk;
    ok := data.CreateDir(at);
    if !ok {
      NothingOverlaid(start, source);
      assert at in Under(source, at);
      return false, {};
    }
    written := {at};
    var pending := Children(source, at);
    CopyingStarts(source, start, at);
    while pending != {}
      invariant Copying(source, start, at, pending, written, data.disk) && data.disk.Valid()
      decreases pending
    {
      var child :| child in pending;
      CopyingChild(source, start, at, pending, written, data.disk, child);
      ghost var now, more := data.disk, {};
      ok, more := CopyEntry(source, data, child);
      CopyingStep(source, start, at, pending, written, now, child, more);
      written := written + more;
      if !ok {
        return;
      }
      pending := pending - {child};
    }
    CopyingEnds(source, start, at, written, data.disk);
    return true, written;
  }

  /** A directory recurses, anything else is copied. */
  method CopyEntry(source: Disk, data: DataDir, child: Path) returns (ok: bool, ghost written: set<Path>)
    requires source.Valid() && data.disk.Valid() && source.Exists(child)
    requires |child| > 1 ==> child[..|child| - 1] in data.disk.dirs
    modifies data
    ensures data.disk.Valid()
    ensures ok <==> Clear(source, old(data.disk), Under(source, child))
    ensures written <= Under(source, child) && (ok ==> written == Under(source, child))
    ensures data.disk == Overlaid(old(data.disk), source, written)
    decreases Under(source, child), 1
  {
    if child in source.dirs {
      ok, written := CopyTree(source, data, child);
    } else {
      FileAlone(source, child);
      FileOverlaid(source, data.disk, child);
      NothingOverlaid(data.disk, source);
      ok := data.CopyTo(child, source.files[child]);
      written := if ok then {child} else {};
    }
  }

  lemma FileOverlaid(source: Disk, data: Disk, p: Path)
    requires source.Valid() && p in source.files
    ensures Overlaid(data, source, {p}) == data.(files := data.files[p := source.files[p]])
    ensures Clear(source, data, {p}) <==> p !in data.dirs
  {
    assert p !in source.dirs;
  }

  // ------------------------------------------------------- where disks come from

  /** Every directory below a listing by its path. */
  function DirsOf(l: Listing, at: Path): set<Path> {
    if l.End? then {} else DirsOfNode(l.node, at + [l.name]) + DirsOf(l.rest, at)
  }

  function DirsOfNode(n: Node, at: Path): set<Path> {
    if n.Dir? then {at} + DirsOf(n.listing, at) else {}
  }

  function DiskOf(l: Listing): Disk {
    Disk(Flatten(l, []), DirsOf(l, []))
  }

  /** What holds these files and the directories they need, and no other. */
  function Parents(files: map<Path, Bytes>): set<Path> {
    set p, n | p in files && 0 < n < |p| :: p[..n]
  }

  function Needing(files: map<Path, Bytes>): Disk {
    Disk(files, Parents(files))
  }

  lemma NeedingValid(d: Disk, files: map<Path, Bytes>)
    requires d.Valid() && files.Keys <= d.files.Keys
    ensures Needing(files).Valid() && Parents(files) <= d.dirs
  {
    forall q | q in Parents(files)
      ensures q in d.dirs && q != [] && (|q| > 1 ==> q[..|q| - 1] in Parents(files))
    {
      var p, n :| p in files && 0 < n < |p| && p[..n] == q;
      Ancestor(d, p, n);
      assert n > 1 ==> q[..n - 1] == p[..n - 1];
    }
    forall p | p in files && |p| > 1
      ensures p[..|p| - 1] in Parents(files)
    {
    }
  }

  ghost predicate ValidBelow(d: Disk, at: Path, names: set<string>) {
    && d.files.Keys !! d.dirs
    && forall p :: d.Exists(p) ==> && |p| > |at| && p[..|at|] == at && p[|at|] in names
                                   && (|p| > |at| + 1 ==> p[..|p| - 1] in d.dirs)
  }

  lemma ValidBoth(a: Disk, b: Disk, at: Path, name: string, names: set<string>)
    requires ValidBelow(a, at, {name}) && ValidBelow(b, at, names) && name !in names
    ensures ValidBelow(Disk(a.files + b.files, a.dirs + b.dirs), at, {name} + names)
  {
    assert forall p :: !(a.Exists(p) && b.Exists(p));
    forall p | p in a.files || p in b.files
      ensures p !in a.dirs + b.dirs
    {
      assert a.Exists(p) || b.Exists(p);
    }
    var d := Disk(a.files + b.files, a.dirs + b.dirs);
    assert forall p :: d.Exists(p) ==> a.Exists(p) || b.Exists(p);
  }

  lemma {:induction false} ListingValid(l: Listing, at: Path)
    requires WellFormed(l)
    ensures ValidBelow(Disk(Flatten(l, at), DirsOf(l, at)), at, EntryNames(l))
    decreases l
  {
    if l.Entry? {
      var child := at + [l.name];
      var node := Disk(FlattenNode(l.node, child), DirsOfNode(l.node, child));
      if l.node.Dir? {
        ListingValid(l.node.listing, child);
        ChildValid(Disk(Flatten(l.node.listing, child), DirsOf(l.node.listing, child)), at, l.name, EntryNames(l.node.listing));
      }
      assert child[..|at|] == at;
      assert ValidBelow(node, at, {l.name});
      ListingValid(l.rest, at);
      assert EntryNames(l) == {l.name} + EntryNames(l.rest);
      ValidBoth(node, Disk(Flatten(l.rest, at), DirsOf(l.rest, at)), at, l.name, EntryNames(l.rest));
    }
  }

  lemma ChildValid(d: Disk, at: Path, name: string, names: set<string>)
    requires ValidBelow(d, at + [name], names)
    ensures ValidBelow(Disk(d.files, {at + [name]} + d.dirs), at, {name})
  {
    var child := at + [name];
    forall p | d.Exists(p)
      ensures |p| > |at| && p[..|at|] == at && p[|at|] == name && p != child
      ensures |p| > |at| + 1 ==> p[..|p| - 1] in {child} + d.dirs
    {
      assert p[..|at|] == p[..|child|][..|at|] && p[|at|] == p[..|child|][|at|];
      assert |p| == |child| + 1 ==> p[..|p| - 1] == child;
    }
  }

  lemma DiskOfValid(l: Listing)
    requires WellFormed(l)
    ensures DiskOf(l).Valid()
  {
    ListingValid(l, []);
  }
}
