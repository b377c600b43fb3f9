// What the layout of a run of elements depends on: each element's header bytes, and
// each element starting where the one before it ended.

module Tiling {
  import opened Wrappers
  import opened Ebml

  // ------------------------------------------------------ a header that is moved

  lemma IdMoves(buf: Buffer, off: nat, piece: Buffer, n: nat)
    requires At(buf, off, piece) && piece != [] && Announced(piece[0]) == n <= 4 && n <= |piece|
    ensures ReadId(buf, off) == ReadId(piece, 0) == Some(Field(Big(piece, 0, n), n))
  {
    assert buf[off] == piece[0];
    BigAt(buf, off, piece, 0, n);
  }

  lemma {:induction false} AccumulateAt(value: nat, buf: Buffer, off: nat, piece: Buffer, from: nat, to: nat)
    requires At(buf, off, piece) && from <= to <= |piece|
    ensures Accumulate(value, buf, off + from, off + to) == Accumulate(value, piece, from, to)
    decreases if from < to then to - from else 0
  {
    if from < to {
      assert buf[off + from] == piece[from];
      AccumulateAt(256 * value + piece[from], buf, off, piece, from + 1, to);
    }
  }

  lemma SizeMoves(buf: Buffer, off: nat, piece: Buffer, at: nat, n: nat)
    requires At(buf, off, piece) && at < |piece| && Announced(piece[at]) == n <= 8 && at + n <= |piece|
    ensures ReadSize(buf, off + at) == ReadSize(piece, at)
    ensures ReadSize(piece, at) == Some(Field(Accumulate(Unmarked(piece[at], n), piece, at + 1, at + n), n))
  {
    assert buf[off + at] == piece[at];
    AccumulateAt(Unmarked(piece[at], n), buf, off, piece, at + 1, at + n);
  }

  predicate Agree(a: Buffer, i: nat, b: Buffer, j: nat, n: nat) {
    && i + n <= |a| && j + n <= |b|
    && a[i..i + n] == b[j..j + n]
  }

  /** A header reads the same wherever its bytes stand. */
  lemma HeaderMoves(a: Buffer, i: nat, b: Buffer, j: nat, k: Kid)
    requires KidAt(a, i) == Some(k) && Agree(a, i, b, j, k.header)
    ensures KidAt(b, j) == Some(k.(off := j))
  {
    var piece := a[i..i + k.header];
    assert At(a, i, piece);
    assert At(b, j, piece) by {
      assert piece == b[j..j + k.header];
    }
    var n := Announced(piece[0]);
    assert a[i] == piece[0];
    IdMoves(a, i, piece, n);
    IdMoves(b, j, piece, n);
    assert a[i + n] == piece[n];
    SizeMoves(a, i, piece, n, k.header - n);
    SizeMoves(b, j, piece, n, k.header - n);
    var id, size := ReadId(piece, 0).value, ReadSize(piece, n).value;
    KidOf(a, i, id, size);
    KidOf(b, j, id, size);
  }

  // -------------------------------------------------------------------- tilings

  /** Where element i of a run starts. */
  function Start(kids: seq<Kid>, off: nat, i: nat): nat
    requires i <= |kids|
  {
    if i == 0 then off else After(kids[i - 1])
  }

  predicate Placed(buf: Buffer, kids: seq<Kid>, off: nat, i: nat)
    requires i < |kids|
  {
    kids[i].off == Start(kids, off, i) && KidAt(buf, kids[i].off) == Some(kids[i])
  }

  /** The elements are read one after the other and fill a range exactly. */
  predicate Tiled(buf: Buffer, kids: seq<Kid>, off: nat, end: nat) {
    && Start(kids, off, |kids|) == end
    && forall i :: 0 <= i < |kids| ==> Placed(buf, kids, off, i)
  }

  lemma {:induction false} Ascending(buf: Buffer, kids: seq<Kid>, off: nat, end: nat, i: nat, j: nat)
    requires Tiled(buf, kids, off, end) && i <= j <= |kids|
    ensures Start(kids, off, i) <= Start(kids, off, j)
    ensures i < j ==> After(kids[i]) <= Start(kids, off, j)
    decreases j
  {
    if i < j {
      assert Placed(buf, kids, off, j - 1);
      Ascending(buf, kids, off, end, i, j - 1);
    }
  }

  lemma InRange(buf: Buffer, kids: seq<Kid>, off: nat, end: nat, i: nat)
    requires Tiled(buf, kids, off, end) && i < |kids|
    ensures off <= kids[i].off < After(kids[i]) <= end
    ensures kids[i].header >= 2
  {
    assert Placed(buf, kids, off, i);
    Ascending(buf, kids, off, end, 0, i);
    Ascending(buf, kids, off, end, i, |kids|);
  }

  lemma Disjoint(buf: Buffer, kids: seq<Kid>, off: nat, end: nat, i: nat, j: nat)
    requires Tiled(buf, kids, off, end) && i < |kids| && j < |kids| && i != j
    ensures After(kids[i]) <= kids[j].off || After(kids[j]) <= kids[i].off
  {
    assert Placed(buf, kids, off, i) && Placed(buf, kids, off, j);
    if i < j {
      Ascending(buf, kids, off, end, i, j);
    } else {
      Ascending(buf, kids, off, end, j, i);
    }
  }

  lemma SuffixStep(kids: seq<Kid>, i: nat)
    requires i < |kids|
    ensures kids[i..] == [kids[i]] + kids[i + 1..]
  {
  }

  /** A tiling is what `children` lists. */
  lemma {:induction false} TiledIsListed(buf: Buffer, kids: seq<Kid>, off: nat, end: nat, i: nat)
    requires Tiled(buf, kids, off, end) && i <= |kids|
    ensures Children(buf, Start(kids, off, i), end) == Some(kids[i..])
    decreases |kids| - i
  {
    if i < |kids| {
      assert Placed(buf, kids, off, i);
      InRange(buf, kids, off, end, i);
      TiledIsListed(buf, kids, off, end, i + 1);
      ChildrenStep(buf, kids[i].off, end, kids[i], kids[i + 1..]);
      SuffixStep(kids, i);
    } else {
      assert kids[i..] == [];
    }
  }

  /** And what `children` lists is a tiling, when the last element ends at the end. */
  lemma {:induction false} ListedIsTiled(buf: Buffer, kids: seq<Kid>, off: nat, end: nat)
    requires Children(buf, off, end) == Some(kids) && Start(kids, off, |kids|) == end
    ensures Tiled(buf, kids, off, end)
    decreases |kids|
  {
    if kids != [] {
      var rest := kids[1..];
      assert off < end && KidAt(buf, off) == Some(kids[0]) && Children(buf, After(kids[0]), end) == Some(rest);
      assert Start(rest, After(kids[0]), |rest|) == end;
      ListedIsTiled(buf, rest, After(kids[0]), end);
      forall i | 0 <= i < |kids|
        ensures Placed(buf, kids, off, i)
      {
        if i > 0 {
          assert Placed(buf, rest, After(kids[0]), i - 1);
        }
      }
    }
  }
}
