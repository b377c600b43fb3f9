// The portable, slash-separated names a snapshot's manifest gives its files.

module SnapshotPaths {
  import opened Wrappers

  /** A relative path as its list of names. */
  type Path = seq<string>

  datatype Component = RootDir | CurDir | ParentDir | Normal(name: string)

  /** A name a directory entry can have on the hub's file system. */
  predicate EntryName(name: string) {
    name != "" && name != "." && name != ".." && '/' !in name
  }

  predicate PortableName(name: string) {
    EntryName(name) && '\\' !in name
  }

  predicate Portable(path: Path) {
    forall name :: name in path ==> PortableName(name)
  }

  function Normals(path: Path): seq<Component> {
    seq(|path|, i requires 0 <= i < |path| => Normal(path[i]))
  }

  /** The text between slashes. */
  function Pieces(s: string): (r: seq<string>)
    ensures |r| >= 1
    ensures forall piece :: piece in r ==> '/' !in piece
  {
    if s == "" then [""]
    else
      var rest := Pieces(s[1..]);
      if s[0] == '/' then [""] + rest else [[s[0]] + rest[0]] + rest[1..]
  }

  function Significant(pieces: seq<string>): seq<Component> {
    if pieces == [] then []
    else
      (if pieces[0] == "" || pieces[0] == "." then []
       else if pieces[0] == ".." then [ParentDir]
       else [Normal(pieces[0])]) + Significant(pieces[1..])
  }

  /** How the standard library reads a path: empty and `.` pieces vanish, except that a
      leading slash and a leading `.` are components of their own. */
  function Components(s: string): seq<Component> {
    (if s != "" && s[0] == '/' then [RootDir]
     else if Pieces(s)[0] == "." then [CurDir]
     else []) + Significant(Pieces(s))
  }

  function Join(path: Path): string {
    if path == [] then ""
    else if |path| == 1 then path[0]
    else path[0] + "/" + Join(path[1..])
  }

  predicate Acceptable(components: seq<Component>) {
    components != [] && forall c :: c in components ==> c.Normal? && '\\' !in c.name
  }

  function Names(components: seq<Component>): Path
    requires forall c :: c in components ==> c.Normal?
  {
    seq(|components|, i requires 0 <= i < |components| => components[i].name)
  }

  function ArtifactPath(components: seq<Component>): Option<string> {
    if Acceptable(components) then Some(Join(Names(components))) else None
  }

  lemma {:induction false} JoinGrows(path: Path, name: string)
    ensures Join(path + [name]) == if path == [] then name else Join(path) + "/" + name
  {
    if |path| >= 2 {
      JoinGrows(path[1..], name);
      assert (path + [name])[1..] == path[1..] + [name];
    } else if |path| == 1 {
      assert (path + [name])[1..] == [name];
    }
  }

  lemma NamesGrow(components: seq<Component>, i: nat)
    requires i < |components| && components[i].Normal? && forall c :: c in components[..i] ==> c.Normal?
    ensures forall c :: c in components[..i + 1] ==> c in components[..i] || c == components[i]
    ensures Names(components[..i + 1]) == Names(components[..i]) + [components[i].name]
  {
    assert components[..i + 1] == components[..i] + [components[i]];
  }

  /** The source's loop: component by component, a slash before all but the first. */
  method BuildArtifactPath(components: seq<Component>) returns (path: Option<string>)
    requires forall c :: c in components && c.Normal? ==> c.name != ""
    ensures path == ArtifactPath(components)
  {
    var built := "";
    for i := 0 to |components|
      invariant forall c :: c in components[..i] ==> c.Normal? && '\\' !in c.name
      invariant built == Join(Names(components[..i]))
      invariant built == "" <==> i == 0
    {
      var c := components[i];
      if !c.Normal? {
        return None;
      }
      if '\\' in c.name {
        return None;
      }
      JoinGrows(Names(components[..i]), c.name);
      NamesGrow(components, i);
      if built != "" {
        built := built + "/";
      }
      built := built + c.name;
    }
    assert components[..|components|] == components;
    if built == "" {
      return None;
    }
    return Some(built);
  }

  // ------------------------------------------------ names and text correspond

  lemma {:induction false} JoinPieces(s: string)
    ensures Join(Pieces(s)) == s
  {
    if s != "" {
      JoinPieces(s[1..]);
      var rest := Pieces(s[1..]);
      if s[0] == '/' {
        assert Pieces(s)[1..] == rest;
      } else {
        assert Pieces(s) == [[s[0]] + rest[0]] + rest[1..];
        assert |rest| > 1 ==> Pieces(s)[1..] == rest[1..];
        assert Join(Pieces(s)) == [s[0]] + Join(rest);
      }
      assert s == [s[0]] + s[1..];
    }
  }

  lemma {:induction false} PiecesOfName(name: string)
    requires '/' !in name
    ensures Pieces(name) == [name]
  {
    if name != "" {
      PiecesOfName(name[1..]);
      assert name[0] in name;
      assert [name[0]] + name[1..] == name;
    }
  }

  lemma {:induction false} PiecesSplit(name: string, rest: string)
    requires '/' !in name
    ensures Pieces(name + "/" + rest) == [name] + Pieces(rest)
  {
    var s := name + "/" + rest;
    if name == "" {
      assert s[1..] == rest;
    } else {
      PiecesSplit(name[1..], rest);
      assert s[1..] == name[1..] + "/" + rest;
      assert s[0] == name[0] && name[0] in name;
      assert [name[0]] + name[1..] == name;
    }
  }

  /** Joining loses nothing: the names come back, so distinct paths have distinct text. */
  lemma {:induction false} PiecesOfJoin(path: Path)
    requires path != [] && forall name :: name in path ==> '/' !in name
    ensures Pieces(Join(path)) == path
  {
    if |path| == 1 {
      PiecesOfName(path[0]);
    } else {
      PiecesOfJoin(path[1..]);
      PiecesSplit(path[0], Join(path[1..]));
    }
  }

  lemma JoinInjective(p: Path, q: Path)
    requires p != [] && q != [] && Portable(p) && Portable(q) && Join(p) == Join(q)
    ensures p == q
  {
    PiecesOfJoin(p);
    PiecesOfJoin(q);
  }

  lemma {:induction false} SignificantOfPortable(pieces: Path)
    requires Portable(pieces)
    ensures Significant(pieces) == Normals(pieces)
  {
    if pieces != [] {
      assert PortableName(pieces[0]);
      SignificantOfPortable(pieces[1..]);
      assert Normals(pieces) == [Normal(pieces[0])] + Normals(pieces[1..]);
    }
  }

  lemma {:induction false} SignificantNames(pieces: seq<string>, c: Component)
    requires c in Significant(pieces)
    requires forall piece :: piece in pieces ==> '/' !in piece
    ensures c.Normal? ==> EntryName(c.name) && c.name in pieces
    ensures !c.RootDir? && !c.CurDir?
  {
    if c in Significant(pieces[1..]) {
      SignificantNames(pieces[1..], c);
    }
  }

  lemma PortableTextAccepted(path: Path)
    requires path != [] && Portable(path)
    ensures ArtifactPath(Normals(path)) == Some(Join(path))
    ensures Components(Join(path)) == Normals(path)
  {
    PiecesOfJoin(path);
    SignificantOfPortable(path);
    assert Names(Normals(path)) == path;
    assert forall c :: c in Normals(path) ==> c.Normal? && c.name in path;
    assert Normals(path) != [];
    assert PortableName(path[0]);
    assert path[0][0] in path[0];
    assert Join(path)[0] == path[0][0];
  }

  /** The check a manifest path must pass, `artifact_path(path) == path`, says exactly
      that its text is a slash-separated list of portable names: no root, no `.` or
      `..`, no empty piece, no backslash. */
  lemma CanonicalText(s: string)
    ensures ArtifactPath(Components(s)) == Some(s) <==> Portable(Pieces(s))
  {
    var pieces := Pieces(s);
    JoinPieces(s);
    if Portable(pieces) {
      PortableTextAccepted(pieces);
    }
    if ArtifactPath(Components(s)) == Some(s) {
      var names := Names(Components(s));
      assert Components(s)[0].Normal? by {
        assert Components(s)[0] in Components(s);
      }
      assert Components(s) == Significant(pieces);
      forall name | name in names
        ensures PortableName(name)
      {
        var i :| 0 <= i < |names| && names[i] == name;
        assert Components(s)[i] in Components(s);
        SignificantNames(pieces, Components(s)[i]);
      }
      PiecesOfJoin(names);
    }
  }
}
