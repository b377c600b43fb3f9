// What `build_fixture` promises: the rewritten file still parses, every element it
// moved kept its bytes, and every SeekPosition of 8 bytes still names the element it
// named, unless the entry lied about Tracks. Positions of other lengths are skipped.

module Relocation {
  import opened Wrappers
  import opened Ebml
  import opened Tiling
  import opened SeekHead
  import opened Fixture

  /** A file with a Segment whose elements are `kids`: Tracks is the one at ti, the first
      Cluster the one at ci, the SeekHead the one at si. */
  datatype File = File(src: Buffer, seg: Kid, kids: seq<Kid>, ti: nat, ci: nat, si: nat) {
    /** The Segment runs to the end of the file, has its size in 8 bytes, which will hold
        the new size too, and has its Tracks and its SeekHead before its first Cluster. */
    predicate Given() {
      && Formed()
      && FirstOf(src, 0, |src|, SEGMENT) == Some(seg)
      && FirstIn(kids, TRACKS) == Some(kids[ti])
      && FirstIn(kids, CLUSTER) == Some(kids[ci])
      && FirstIn(kids, SEEKHEAD) == Some(kids[si])
    }

    /** And its Tracks leave room for the Void that takes their place. */
    predicate Suitable() {
      Given() && Roomy()
    }

    predicate Roomy()
      requires ti < |kids|
    {
      Total(kids[ti]) >= 9
    }

    predicate Shaped() {
      Formed() && Roomy()
    }

    predicate Formed() {
      && KidAt(src, seg.off) == Some(seg) && seg.id == SEGMENT && seg.header == 12 && After(seg) == |src|
      && Tiled(src, kids, Payload(seg), |src|)
      && ti < ci < |kids| && si < ci && kids[ti].id == TRACKS && kids[si].id == SEEKHEAD
      && NewSize() < 0x100_0000_0000_0000
    }

    function NewSize(): nat
      requires ti < |kids|
    {
      seg.size + VOID_BYTES + Total(kids[ti])
    }

    function Home(i: nat): nat
      requires i < |kids|
    {
      NewHome(kids, ti, ci, |src|, i)
    }
  }

  // --------------------------------------------------------- the bytes of the splice

  lemma VoidReads(buf: Buffer, off: nat, total: nat)
    requires 9 <= total && total - 9 < Power256(7)
    requires VoidOf(total).Some? && At(buf, off, VoidOf(total).value)
    ensures KidAt(buf, off) == Some(Kid(off, VOID, 9, total - 9))
  {
    var body := BigEndian(total - 9, 7);
    AtSplit(buf, off, [VOID, 1] + body, Zeros(total - 9));
    AtSplit(buf, off, [VOID, 1], body);
    assert [VOID, 1][1] == 1 && [VOID, 1][0] == VOID;
    assert buf[off] == VOID && buf[off + 1] == 1;
    BigEndianValue(total - 9, 7);
    BigAt(buf, off + 2, body, 0, 7);
    AccumulateScales(0, buf, off + 2, off + 9);
    assert Big(buf, off, off + 1) == VOID by {
      assert Big(buf, off, off) == 0;
    }
    KidOf(buf, off, Field(VOID, 1), Field(total - 9, 8));
  }

  /** The bytes of a range stand, in order, at another place. */
  predicate Copied(a: Buffer, from: nat, to: nat, b: Buffer, at: nat) {
    && from <= to <= |a| && at + (to - from) <= |b|
    && forall x :: from <= x < to ==> b[at + (x - from)] == a[x]
  }

  lemma CopiedAgree(a: Buffer, from: nat, to: nat, b: Buffer, at: nat, i: nat, n: nat)
    requires Copied(a, from, to, b, at) && from <= i && i + n <= to
    ensures Agree(a, i, b, at + (i - from), n)
  {
    var there := at + (i - from);
    var p, q := a[i..i + n], b[there..there + n];
    forall x | 0 <= x < n
      ensures p[x] == q[x]
    {
      assert a[i + x] == b[at + (i + x - from)];
    }
  }

  /** Replacing a range moves what follows it and keeps what precedes it. */
  lemma ReplacedBytes(buf: Buffer, from: nat, to: nat, piece: Buffer)
    requires from <= to <= |buf|
    ensures var out := Replaced(buf, from, to, piece);
            && |out| == from + |piece| + |buf| - to
            && Copied(buf, 0, from, out, 0) && At(out, from, piece)
            && Copied(buf, to, |buf|, out, from + |piece|)
  {
  }

  lemma CopiedTwice(a: Buffer, from: nat, to: nat, b: Buffer, at: nat, lo: nat, hi: nat, c: Buffer, there: nat)
    requires Copied(a, from, to, b, at) && Copied(b, lo, hi, c, there)
    requires lo <= at && at + (to - from) <= hi
    ensures Copied(a, from, to, c, there + (at - lo))
  {
    forall x | from <= x < to
      ensures c[there + (at - lo) + (x - from)] == a[x]
    {
      assert b[at + (x - from)] == a[x];
    }
  }

  lemma CopiedPart(a: Buffer, from: nat, to: nat, b: Buffer, at: nat, lo: nat, hi: nat)
    requires Copied(a, from, to, b, at) && from <= lo <= hi <= to
    ensures Copied(a, lo, hi, b, at + (lo - from))
  {
  }

  lemma AtCopied(buf: Buffer, at: nat, piece: Buffer, from: nat, to: nat, out: Buffer, there: nat)
    requires At(buf, at, piece) && Copied(buf, from, to, out, there) && from <= at && at + |piece| <= to
    ensures At(out, there + (at - from), piece)
  {
    forall k | 0 <= k < |piece|
      ensures out[there + (at - from) + k] == piece[k]
    {
      assert buf[at + k] == piece[k];
    }
  }

  /** Where the four stretches of the original stand once Tracks and the Void moved. */
  predicate Stretches(src: Buffer, mid: Buffer, off: nat, t: Kid, c: Kid) {
    && off <= t.off && After(t) <= c.off <= |src|
    && Copied(src, off, t.off, mid, off)
    && Copied(src, After(t), c.off, mid, After(t))
    && Copied(src, c.off, |src|, mid, c.off + VOID_BYTES)
    && Copied(src, t.off, After(t), mid, |src| + VOID_BYTES)
  }

  predicate Voids(mid: Buffer, t: Kid, c: Kid, hole: Buffer, large: Buffer) {
    At(mid, t.off, hole) && At(mid, c.off, large)
  }

  lemma Emptied(src: Buffer, t: Kid, c: Kid, hole: Buffer, out: Buffer)
    requires After(t) <= c.off <= |src| && |hole| == Total(t) && out == Replaced(src, t.off, After(t), hole)
    ensures |out| == |src|
    ensures Copied(src, 0, t.off, out, 0) && At(out, t.off, hole)
    ensures Copied(src, After(t), c.off, out, After(t)) && Copied(src, c.off, |src|, out, c.off)
  {
    ReplacedBytes(src, t.off, After(t), hole);
    CopiedPart(src, After(t), |src|, out, After(t), After(t), c.off);
    CopiedPart(src, After(t), |src|, out, After(t), c.off, |src|);
  }

  predicate SpreadLayout(src: Buffer, out: Buffer, t: Kid, c: Kid, hole: Buffer, large: Buffer) {
    && After(t) <= c.off <= |src| && |out| == |src| + |large|
    && Copied(src, 0, t.off, out, 0)
    && Copied(src, After(t), c.off, out, After(t))
    && Copied(src, c.off, |src|, out, c.off + |large|)
    && Voids(out, t, c, hole, large)
  }

  lemma Spread(src: Buffer, t: Kid, c: Kid, hole: Buffer, large: Buffer, emptied: Buffer, out: Buffer)
    requires After(t) <= c.off <= |src| && |hole| == Total(t)
    requires emptied == Replaced(src, t.off, After(t), hole) && out == Replaced(emptied, c.off, c.off, large)
    ensures SpreadLayout(src, out, t, c, hole, large)
  {
    Emptied(src, t, c, hole, emptied);
    ReplacedBytes(emptied, c.off, c.off, large);
    SpreadFrom(src, t, c, hole, large, emptied, out);
  }

  lemma SpreadFrom(src: Buffer, t: Kid, c: Kid, hole: Buffer, large: Buffer, emptied: Buffer, out: Buffer)
    requires After(t) <= c.off <= |src| && |hole| == Total(t) && |out| == |src| + |large| && |emptied| == |src|
    requires Copied(src, 0, t.off, emptied, 0) && At(emptied, t.off, hole)
    requires Copied(src, After(t), c.off, emptied, After(t)) && Copied(src, c.off, |src|, emptied, c.off)
    requires Copied(emptied, 0, c.off, out, 0) && Copied(emptied, c.off, |src|, out, c.off + |large|)
    requires At(out, c.off, large)
    ensures SpreadLayout(src, out, t, c, hole, large)
  {
    CopiedTwice(src, 0, t.off, emptied, 0, 0, c.off, out, 0);
    AtCopied(emptied, t.off, hole, 0, c.off, out, 0);
    CopiedTwice(src, After(t), c.off, emptied, After(t), 0, c.off, out, 0);
    CopiedTwice(src, c.off, |src|, emptied, c.off, c.off, |src|, out, c.off + |large|);
  }

  /** What packing eight bytes at an offset leaves of a buffer that was appended to. */
  lemma PackedFrame(spread: Buffer, tracks: Buffer, at: nat, value: int)
    requires at + 8 <= |spread| && Pack(spread + tracks, at, value).Some?
    ensures var mid := Pack(spread + tracks, at, value).value;
            && |mid| == |spread| + |tracks|
            && Copied(spread, 0, at, mid, 0) && Copied(spread, at + 8, |spread|, mid, at + 8)
            && Copied(tracks, 0, |tracks|, mid, |spread|)
  {
    var whole, mid := spread + tracks, Pack(spread + tracks, at, value).value;
    assert forall x :: 0 <= x < |spread| ==> whole[x] == spread[x];
    assert forall x :: 0 <= x < |tracks| ==> whole[|spread| + x] == tracks[x];
    assert mid[at + 8..] == whole[at + 8..];
    forall x | 0 <= x < |tracks|
      ensures mid[|spread| + (x - 0)] == tracks[x]
    {
      assert whole[|spread| + x] == tracks[x];
      assert mid[|spread| + x] == whole[|spread| + x];
    }
  }

  lemma CarriedOver(src: Buffer, lo: nat, hi: nat, spread: Buffer, place: nat, mid: Buffer, from: nat)
    requires Copied(src, lo, hi, spread, place) && Copied(spread, from, |spread|, mid, from) && from <= place
    ensures Copied(src, lo, hi, mid, place)
  {
    CopiedTwice(src, lo, hi, spread, place, from, |spread|, mid, from);
  }

  lemma VoidsCarried(from: nat, t: Kid, c: Kid, hole: Buffer, large: Buffer, spread: Buffer, mid: Buffer)
    requires Voids(spread, t, c, hole, large) && Copied(spread, from, |spread|, mid, from)
    requires from <= t.off && from <= c.off
    ensures Voids(mid, t, c, hole, large)
  {
    AtCopied(spread, t.off, hole, from, |spread|, mid, from);
    AtCopied(spread, c.off, large, from, |spread|, mid, from);
  }

  lemma TracksCopied(src: Buffer, from: nat, to: nat, tracks: Buffer, mid: Buffer, there: nat)
    requires from <= to <= |src| && tracks == src[from..to] && Copied(tracks, 0, |tracks|, mid, there)
    ensures Copied(src, from, to, mid, there)
  {
    forall x | from <= x < to
      ensures mid[there + (x - from)] == src[x]
    {
      assert tracks[x - from] == src[x];
    }
  }

  lemma PackedStretches(src: Buffer, from: nat, t: Kid, c: Kid, spread: Buffer, mid: Buffer)
    requires from <= t.off && After(t) <= c.off <= |src|
    requires Copied(src, 0, t.off, spread, 0) && Copied(src, After(t), c.off, spread, After(t))
    requires Copied(src, c.off, |src|, spread, c.off + VOID_BYTES)
    requires Copied(spread, from, |spread|, mid, from) && Copied(src, t.off, After(t), mid, |src| + VOID_BYTES)
    ensures Stretches(src, mid, from, t, c)
  {
    CopiedPart(src, 0, t.off, spread, 0, from, t.off);
    CarriedOver(src, from, t.off, spread, from, mid, from);
    CarriedOver(src, After(t), c.off, spread, After(t), mid, from);
    CarriedOver(src, c.off, |src|, spread, c.off + VOID_BYTES, mid, from);
  }

  /** All the bytes of the buffer whose SeekHead is still to be corrected. */
  predicate Assembled(src: Buffer, at: nat, value: nat, t: Kid, c: Kid, hole: Buffer, large: Buffer, mid: Buffer) {
    && |mid| == |src| + VOID_BYTES + Total(t)
    && Copied(src, 0, at, mid, 0) && At(mid, at, BigEndian(value, 8))
    && Stretches(src, mid, at + 8, t, c) && Voids(mid, t, c, hole, large)
  }

  lemma SplicedBytes(src: Buffer, at: nat, t: Kid, c: Kid, hole: Buffer, spread: Buffer, tracks: Buffer, value: nat,
                     large: Buffer, mid: Buffer)
    requires at + 8 <= t.off && |large| == VOID_BYTES
    requires SpreadLayout(src, spread, t, c, hole, large) && tracks == src[t.off..After(t)]
    requires Pack(spread + tracks, at, value) == Some(mid)
    ensures Assembled(src, at, value, t, c, hole, large, mid)
  {
    PackWrites(spread + tracks, at, value);
    PackedFrame(spread, tracks, at, value);
    TracksCopied(src, t.off, After(t), tracks, mid, |spread|);
    PackedStretches(src, at + 8, t, c, spread, mid);
    VoidsCarried(at + 8, t, c, hole, large, spread, mid);
    HeadCopied(src, at, t.off, spread, mid);
  }

  lemma HeadCopied(src: Buffer, n: nat, m: nat, spread: Buffer, mid: Buffer)
    requires n <= m && Copied(src, 0, m, spread, 0) && Copied(spread, 0, n, mid, 0)
    ensures Copied(src, 0, n, mid, 0)
  {
    CopiedPart(src, 0, m, spread, 0, 0, n);
    CopiedTwice(src, 0, n, spread, 0, 0, n, mid, 0);
  }

  lemma SplicedLayout(src: Buffer, seg: Kid, t: Kid, c: Kid, hole: Buffer, large: Buffer, mid: Buffer, size: nat)
    requires seg.off + 12 <= t.off && After(t) <= c.off <= |src| && size == seg.size + VOID_BYTES + Total(t)
    requires VoidOf(Total(t)) == Some(hole) && VoidOf(VOID_BYTES) == Some(large)
    requires Spliced(src, seg, t, c) == Some(mid)
    ensures Assembled(src, seg.off + 4, MarkSize(size), t, c, hole, large, mid)
  {
    var emptied := Replaced(src, t.off, After(t), hole);
    var spread := Replaced(emptied, c.off, c.off, large);
    Spread(src, t, c, hole, large, emptied, spread);
    SplicedBytes(src, seg.off + 4, t, c, hole, spread, src[t.off..After(t)],
                 MarkSize(size), large, mid);
  }

  // ------------------------------------------------------------ where everything went

  /** Element i of the rewritten Segment: the hole, the large Void and the copy of
      Tracks are new, everything from the first Cluster on has moved. */
  function Relocated(kids: seq<Kid>, ti: nat, ci: nat, end: nat, i: nat): Kid
    requires ti < ci < |kids| && i < |kids| + 2 && Total(kids[ti]) >= 9
  {
    if i < ci then
      if i == ti then Kid(kids[ti].off, VOID, 9, Total(kids[ti]) - 9) else kids[i]
    else if i == ci then Kid(kids[ci].off, VOID, 9, VOID_BYTES - 9)
    else if i <= |kids| then kids[i - 1].(off := kids[i - 1].off + VOID_BYTES)
    else kids[ti].(off := end + VOID_BYTES)
  }

  function AllRelocated(kids: seq<Kid>, ti: nat, ci: nat, end: nat): (r: seq<Kid>)
    requires ti < ci < |kids| && Total(kids[ti]) >= 9
    ensures |r| == |kids| + 2
  {
    seq(|kids| + 2, i requires 0 <= i < |kids| + 2 => Relocated(kids, ti, ci, end, i))
  }

  /** Where element i of the original is now. */
  function NewHome(kids: seq<Kid>, ti: nat, ci: nat, end: nat, i: nat): nat
    requires i < |kids|
  {
    if i == ti then end + VOID_BYTES
    else if i < ci then kids[i].off
    else kids[i].off + VOID_BYTES
  }

  /** The element's bytes stand at `home`, and its header reads the same there. */
  predicate Settled(src: Buffer, k: Kid, out: Buffer, home: nat) {
    KidAt(out, home) == Some(k.(off := home)) && Agree(src, k.off, out, home, Total(k))
  }

  lemma HeaderCopied(src: Buffer, from: nat, to: nat, mid: Buffer, at: nat, k: Kid, home: nat)
    requires KidAt(src, k.off) == Some(k) && from <= k.off && After(k) <= to && Copied(src, from, to, mid, at)
    requires home == at + (k.off - from)
    ensures Settled(src, k, mid, home)
  {
    CopiedAgree(src, from, to, mid, at, k.off, k.header);
    CopiedAgree(src, from, to, mid, at, k.off, Total(k));
    HeaderMoves(src, k.off, mid, home, k);
  }

  /** Every element but Tracks has its bytes, and its header reads the same, in its
      new place; so does the copy of Tracks. */
  lemma ElementMoved(src: Buffer, mid: Buffer, kids: seq<Kid>, off: nat, ti: nat, ci: nat, i: nat)
    requires Tiled(src, kids, off, |src|) && ti < ci < |kids| && i < |kids|
    requires Stretches(src, mid, off, kids[ti], kids[ci])
    ensures Settled(src, kids[i], mid, NewHome(kids, ti, ci, |src|, i))
  {
    var t, c, home := kids[ti], kids[ci], NewHome(kids, ti, ci, |src|, i);
    assert Placed(src, kids, off, i);
    InRange(src, kids, off, |src|, i);
    if i == ti {
      HeaderCopied(src, t.off, After(t), mid, |src| + VOID_BYTES, kids[i], home);
    } else if i < ti {
      Ordered(src, kids, off, |src|, i, ti);
      HeaderCopied(src, off, t.off, mid, off, kids[i], home);
    } else if i < ci {
      Ordered(src, kids, off, |src|, ti, i);
      Ordered(src, kids, off, |src|, i, ci);
      HeaderCopied(src, After(t), c.off, mid, After(t), kids[i], home);
    } else {
      if i > ci {
        Ordered(src, kids, off, |src|, ci, i);
      }
      HeaderCopied(src, c.off, |src|, mid, c.off + VOID_BYTES, kids[i], home);
    }
  }

  lemma Ordered(buf: Buffer, kids: seq<Kid>, off: nat, end: nat, i: nat, j: nat)
    requires Tiled(buf, kids, off, end) && i < j < |kids|
    ensures After(kids[i]) <= kids[j].off
  {
    assert Placed(buf, kids, off, j);
    Ascending(buf, kids, off, end, i, j);
  }

  lemma RelocatedStart(src: Buffer, kids: seq<Kid>, off: nat, ti: nat, ci: nat, i: nat)
    requires Tiled(src, kids, off, |src|) && ti < ci < |kids| && Total(kids[ti]) >= 9
    requires i < |kids| + 2
    ensures Relocated(kids, ti, ci, |src|, i).off == Start(AllRelocated(kids, ti, ci, |src|), off, i)
  {
    var all := AllRelocated(kids, ti, ci, |src|);
    if i > 0 {
      assert all[i - 1] == Relocated(kids, ti, ci, |src|, i - 1);
    }
    if i < ci {
      assert Placed(src, kids, off, i);
    } else if i == ci {
      assert Placed(src, kids, off, ci);
    } else if i <= |kids| {
      assert Placed(src, kids, off, i - 1);
    }
  }

  predicate VoidsReadAt(mid: Buffer, t: Kid, c: Kid) {
    && Total(t) >= 9
    && KidAt(mid, t.off) == Some(Kid(t.off, VOID, 9, Total(t) - 9))
    && KidAt(mid, c.off) == Some(Kid(c.off, VOID, 9, VOID_BYTES - 9))
  }

  lemma VoidsRead(mid: Buffer, t: Kid, c: Kid)
    requires 9 <= Total(t) && Total(t) - 9 < Power256(7)
    requires VoidOf(Total(t)).Some? && VoidOf(VOID_BYTES).Some?
    requires Voids(mid, t, c, VoidOf(Total(t)).value, VoidOf(VOID_BYTES).value)
    ensures VoidsReadAt(mid, t, c)
  {
    VoidReads(mid, t.off, Total(t));
    assert VOID_BYTES - 9 < Power256(7) by {
      assert Power256(3) == 0x100_0000;
      PowerGrows(3, 7);
    }
    VoidReads(mid, c.off, VOID_BYTES);
  }

  lemma MovedReads(src: Buffer, mid: Buffer, kids: seq<Kid>, off: nat, ti: nat, ci: nat, i: nat, home: nat)
    requires Tiled(src, kids, off, |src|) && ti < ci < |kids| && i < |kids|
    requires Stretches(src, mid, off, kids[ti], kids[ci]) && home == NewHome(kids, ti, ci, |src|, i)
    ensures KidAt(mid, home) == Some(kids[i].(off := home))
  {
    ElementMoved(src, mid, kids, off, ti, ci, i);
  }

  lemma RelocatedReads(src: Buffer, mid: Buffer, kids: seq<Kid>, off: nat, ti: nat, ci: nat, i: nat)
    requires Tiled(src, kids, off, |src|) && ti < ci < |kids| && i < |kids| + 2
    requires Stretches(src, mid, off, kids[ti], kids[ci]) && VoidsReadAt(mid, kids[ti], kids[ci])
    ensures var k := Relocated(kids, ti, ci, |src|, i);
            KidAt(mid, k.off) == Some(k)
  {
    if i < ci && i != ti {
      MovedReads(src, mid, kids, off, ti, ci, i, kids[i].off);
    } else if ci < i <= |kids| {
      MovedReads(src, mid, kids, off, ti, ci, i - 1, kids[i - 1].off + VOID_BYTES);
    } else if i > |kids| {
      MovedReads(src, mid, kids, off, ti, ci, ti, |src| + VOID_BYTES);
    }
  }

  /** The new Segment is filled exactly by the relocated elements. */
  lemma RelocatedTiled(src: Buffer, mid: Buffer, kids: seq<Kid>, off: nat, ti: nat, ci: nat)
    requires Tiled(src, kids, off, |src|) && ti < ci < |kids| && |mid| == |src| + VOID_BYTES + Total(kids[ti])
    requires Stretches(src, mid, off, kids[ti], kids[ci]) && VoidsReadAt(mid, kids[ti], kids[ci])
    ensures Tiled(mid, AllRelocated(kids, ti, ci, |src|), off, |mid|)
  {
    var all := AllRelocated(kids, ti, ci, |src|);
    forall i | 0 <= i < |all|
      ensures Placed(mid, all, off, i)
    {
      RelocatedStart(src, kids, off, ti, ci, i);
      RelocatedReads(src, mid, kids, off, ti, ci, i);
    }
    assert all[|kids| + 1] == Relocated(kids, ti, ci, |src|, |kids| + 1);
  }

  // ------------------------------------------------------------- the Segment's header

  lemma HeaderLengths(buf: Buffer, off: nat, k: Kid)
    requires KidAt(buf, off) == Some(k) && k.header == 12
    ensures off + 12 <= |buf| ==> ReadId(buf, off) == Some(Field(k.id, 4)) && Announced(buf[off]) == 4
  {
  }

  lemma SizeRewritten(src: Buffer, mid: Buffer, seg: Kid, size: nat)
    requires KidAt(src, seg.off) == Some(seg) && seg.header == 12 && seg.off + 12 <= |src|
    requires size < 0x100_0000_0000_0000 && Copied(src, 0, seg.off + 4, mid, 0)
    requires At(mid, seg.off + 4, BigEndian(MarkSize(size), 8))
    ensures KidAt(mid, seg.off) == Some(Kid(seg.off, seg.id, 12, size))
  {
    var v := size + Capacity(8);
    var field := BigEndian(v, 8);
    HeaderLengths(src, seg.off, seg);
    var id := src[seg.off..seg.off + 4];
    assert At(src, seg.off, id);
    assert At(mid, seg.off, id) by {
      forall k | 0 <= k < 4
        ensures mid[seg.off + k] == id[k]
      {
        assert mid[0 + (seg.off + k - 0)] == src[seg.off + k];
      }
    }
    IdMoves(src, seg.off, id, 4);
    IdMoves(mid, seg.off, id, 4);
    MarkedField(v, 8);
    ReadMarked(mid, seg.off + 4, field, size);
    KidOf(mid, seg.off, Field(seg.id, 4), Field(size, 8));
  }

  /** What precedes the Segment still precedes it. */
  lemma {:induction false} StillFirst(src: Buffer, mid: Buffer, off: nat, seg: Kid, moved: Kid)
    requires FirstOf(src, off, |src|, seg.id) == Some(seg) && |src| <= |mid|
    requires Copied(src, 0, seg.off, mid, 0) && KidAt(mid, seg.off) == Some(moved) && moved.id == seg.id
    ensures FirstOf(mid, off, |mid|, seg.id) == Some(moved)
    decreases |src| - off
  {
    var k := KidAt(src, off).value;
    if k.id != seg.id {
      assert After(k) <= seg.off;
      CopiedAgree(src, 0, seg.off, mid, 0, off, k.header);
      HeaderMoves(src, off, mid, off, k);
      StillFirst(src, mid, After(k), seg, moved);
    }
  }

  // ----------------------------------------------------------------- the SeekHead

  lemma TiledInPlace(src: Buffer, mid: Buffer, lo: nat, hi: nat, kids: seq<Kid>, off: nat, end: nat)
    requires Tiled(src, kids, off, end) && lo <= off && end <= hi && Copied(src, lo, hi, mid, lo)
    ensures Tiled(mid, kids, off, end)
  {
    forall i | 0 <= i < |kids|
      ensures Placed(mid, kids, off, i)
    {
      assert Placed(src, kids, off, i);
      InRange(src, kids, off, end, i);
      CopiedAgree(src, lo, hi, mid, lo, kids[i].off, kids[i].header);
      HeaderMoves(src, kids[i].off, mid, kids[i].off, kids[i]);
    }
  }

  lemma NestedInPlace(src: Buffer, mid: Buffer, entries: seq<Kid>, inners: seq<seq<Kid>>, lo: nat, hi: nat)
    requires Nested(src, entries, inners, lo, hi) && Copied(src, lo, hi, mid, lo)
    ensures Nested(mid, entries, inners, lo, hi)
  {
    TiledInPlace(src, mid, lo, hi, entries, lo, hi);
    forall i | 0 <= i < |entries|
      ensures Inside(mid, entries, inners, i)
    {
      if entries[i].id == SEEK {
        assert Inside(src, entries, inners, i);
        InRange(src, entries, lo, hi, i);
        TiledInPlace(src, mid, lo, hi, inners[i], Payload(entries[i]), After(entries[i]));
      }
    }
  }

  lemma {:induction false} BigCopied(src: Buffer, lo: nat, hi: nat, mid: Buffer, from: nat, to: nat)
    requires Copied(src, lo, hi, mid, lo) && lo <= from <= to <= hi
    ensures Big(src, from, to) == Big(mid, from, to)
    decreases (to)
  {
    if from < to {
      assert mid[lo + (to - 1 - lo)] == src[to - 1];
      BigCopied(src, lo, hi, mid, from, to - 1);
    }
  }

  /** An entry of the original reads the same in the buffer about to be corrected. */
  lemma EntryInPlace(src: Buffer, mid: Buffer, kids: seq<Kid>, off: nat, end: nat, lo: nat, hi: nat)
    requires Tiled(src, kids, off, end) && lo <= off && end <= hi && Copied(src, lo, hi, mid, lo)
    ensures IdOf(src, kids) == IdOf(mid, kids)
    ensures PositionOf(kids).Some? ==>
              var at := PositionOf(kids).value;
              lo <= at && at + 8 <= hi && Big(src, at, at + 8) == Big(mid, at, at + 8)
  {
    if LastOf(kids, SEEK_ID).Some? {
      var s := LastOf(kids, SEEK_ID).value;
      KidInRange(src, kids, off, end, s);
      BigCopied(src, lo, hi, mid, Payload(s), After(s));
    }
    if PositionOf(kids).Some? {
      var t := LastOf(kids, SEEK_POSITION).value;
      KidInRange(src, kids, off, end, t);
      BigCopied(src, lo, hi, mid, Payload(t), After(t));
    }
  }

  // -------------------------------------------------------------------- the promise

  lemma SpliceIsSafe(f: File)
    requires f.Shaped()
    ensures var t, c := f.kids[f.ti], f.kids[f.ci];
            && f.seg.off + 12 <= t.off && After(t) <= c.off < |f.src|
            && VoidOf(Total(t)).Some? && VoidOf(VOID_BYTES).Some? && Total(t) - 9 < Power256(7)
  {
    InRange(f.src, f.kids, Payload(f.seg), |f.src|, f.ti);
    InRange(f.src, f.kids, Payload(f.seg), |f.src|, f.ci);
    Ordered(f.src, f.kids, Payload(f.seg), |f.src|, f.ti, f.ci);
    MarkerPlace(8);
    LargeVoid();
  }

  /** What stands where before the SeekHead is corrected. */
  predicate Rebuilt(f: File, mid: Buffer)
    requires f.Shaped()
  {
    && |mid| == |f.src| + VOID_BYTES + Total(f.kids[f.ti])
    && Copied(f.src, 0, f.seg.off + 4, mid, 0)
    && KidAt(mid, f.seg.off) == Some(Kid(f.seg.off, SEGMENT, 12, f.NewSize()))
    && Stretches(f.src, mid, Payload(f.seg), f.kids[f.ti], f.kids[f.ci])
    && VoidsReadAt(mid, f.kids[f.ti], f.kids[f.ci])
  }

  lemma SplicedIsRebuilt(f: File, mid: Buffer)
    requires f.Shaped() && Spliced(f.src, f.seg, f.kids[f.ti], f.kids[f.ci]) == Some(mid)
    ensures Rebuilt(f, mid)
  {
    SpliceIsSafe(f);
    var t, c := f.kids[f.ti], f.kids[f.ci];
    var hole, large := VoidOf(Total(t)).value, VoidOf(VOID_BYTES).value;
    SplicedLayout(f.src, f.seg, t, c, hole, large, mid, f.NewSize());
    RebuiltFrom(f, hole, large, mid);
  }

  lemma RebuiltFrom(f: File, hole: Buffer, large: Buffer, mid: Buffer)
    requires f.Shaped() && Total(f.kids[f.ti]) - 9 < Power256(7)
    requires VoidOf(Total(f.kids[f.ti])) == Some(hole) && VoidOf(VOID_BYTES) == Some(large)
    requires Assembled(f.src, f.seg.off + 4, MarkSize(f.NewSize()), f.kids[f.ti], f.kids[f.ci], hole, large, mid)
    ensures Rebuilt(f, mid)
  {
    VoidsRead(mid, f.kids[f.ti], f.kids[f.ci]);
    SizeRewritten(f.src, mid, f.seg, f.NewSize());
  }

  /** The last step of the script. */
  function Finished(mid: Buffer, sh: Kid, plan: Plan): Option<Built> {
    match Rewrite(mid, Payload(sh), After(sh), plan)
    case None => None
    case Some(out) => Some(Built(out, plan.tracksPos))
  }

  lemma SpliceSucceeds(f: File)
    requires f.Suitable()
    ensures Spliced(f.src, f.seg, f.kids[f.ti], f.kids[f.ci]).Some?
  {
    SpliceIsSafe(f);
    MarkerPlace(8);
  }

  lemma FixtureSteps(f: File) returns (mid: Buffer, plan: Plan)
    requires f.Suitable()
    ensures Rebuilt(f, mid) && plan == PlanFor(f.seg, f.kids[f.ti], f.kids[f.ci], |mid|)
    ensures FixtureFor(f.src) == Finished(mid, f.kids[f.si], plan)
  {
    SpliceSucceeds(f);
    ListedWhole(f.src, f.kids, Payload(f.seg), |f.src|);
    mid := Spliced(f.src, f.seg, f.kids[f.ti], f.kids[f.ci]).value;
    plan := PlanFor(f.seg, f.kids[f.ti], f.kids[f.ci], |mid|);
    SplicedIsRebuilt(f, mid);
  }

  lemma SeekHeadStays(f: File, mid: Buffer)
    requires f.Shaped() && Rebuilt(f, mid)
    ensures var sh := f.kids[f.si];
            && f.si != f.ti && f.Home(f.si) == sh.off && Payload(f.seg) <= sh.off
            && Copied(f.src, sh.off, After(sh), mid, sh.off)
  {
    var sh, t, c := f.kids[f.si], f.kids[f.ti], f.kids[f.ci];
    InRange(f.src, f.kids, Payload(f.seg), |f.src|, f.si);
    Ordered(f.src, f.kids, Payload(f.seg), |f.src|, f.si, f.ci);
    if f.si < f.ti {
      Ordered(f.src, f.kids, Payload(f.seg), |f.src|, f.si, f.ti);
      CopiedPart(f.src, Payload(f.seg), t.off, mid, Payload(f.seg), sh.off, After(sh));
    } else {
      Ordered(f.src, f.kids, Payload(f.seg), |f.src|, f.ti, f.si);
      CopiedPart(f.src, After(t), c.off, mid, After(t), sh.off, After(sh));
    }
  }

  /** The Seek elements of the SeekHead and what each of them holds. */
  predicate SeeksAre(f: File, buf: Buffer, entries: seq<Kid>, inners: seq<seq<Kid>>)
    requires f.si < |f.kids|
  {
    Nested(buf, entries, inners, Payload(f.kids[f.si]), After(f.kids[f.si]))
  }

  lemma SeeksInPlace(f: File, entries: seq<Kid>, inners: seq<seq<Kid>>, mid: Buffer)
    requires f.Shaped() && Rebuilt(f, mid) && SeeksAre(f, f.src, entries, inners)
    ensures SeeksAre(f, mid, entries, inners)
  {
    var lo, hi := Payload(f.kids[f.si]), After(f.kids[f.si]);
    SeekHeadStays(f, mid);
    CopiedPart(f.src, f.kids[f.si].off, hi, mid, f.kids[f.si].off, lo, hi);
    NestedInPlace(f.src, mid, entries, inners, lo, hi);
  }

  /** What correcting the SeekHead does: nothing outside its payload changes, its own
      layout stays, every entry is updated. */
  ghost predicate CorrectedTo(f: File, entries: seq<Kid>, inners: seq<seq<Kid>>, mid: Buffer, plan: Plan, out: Buffer)
    requires f.Shaped()
  {
    && OnlyWithin(mid, out, Payload(f.kids[f.si]), After(f.kids[f.si]))
    && SeeksAre(f, out, entries, inners)
    && |inners| == |entries| && forall j :: 0 <= j < |entries| ==> EntryUpdated(mid, out, entries, inners, plan, j)
  }

  lemma Corrected(f: File, entries: seq<Kid>, inners: seq<seq<Kid>>, mid: Buffer, plan: Plan)
    requires f.Shaped() && Rebuilt(f, mid) && SeeksAre(f, f.src, entries, inners)
    ensures Finished(mid, f.kids[f.si], plan).Some? ==>
              CorrectedTo(f, entries, inners, mid, plan, Finished(mid, f.kids[f.si], plan).value.buf)
  {
    var lo, hi := Payload(f.kids[f.si]), After(f.kids[f.si]);
    SeeksInPlace(f, entries, inners, mid);
    if Rewrite(mid, lo, hi, plan).Some? {
      RewriteUpdates(mid, entries, inners, lo, hi, plan, 0);
    }
  }

  /** An entry's position, moved, fits in 64 bits. */
  predicate Representable(f: File, entries: seq<Kid>, inners: seq<seq<Kid>>, j: nat)
    requires f.Formed() && j < |entries| == |inners|
  {
    entries[j].id == SEEK && PositionOf(inners[j]).Some? ==>
      RepresentableTarget(f, IdOf(f.src, inners[j]), PositionIn(f.src, PositionOf(inners[j]).value))
  }

  predicate RepresentableTarget(f: File, id: Option<nat>, was: nat)
    requires f.Formed()
  {
    NewTarget(f, id, was + Payload(f.seg)) < Payload(f.seg) + Power256(8)
  }

  /** The script succeeds on such a file exactly when a Void fits where Tracks were and
      every position it moves still fits in its eight bytes. */
  lemma FixtureSucceeds(f: File, entries: seq<Kid>, inners: seq<seq<Kid>>)
    requires f.Given() && SeeksAre(f, f.src, entries, inners)
    ensures FixtureFor(f.src).Some? <==>
              f.Roomy() && forall j :: 0 <= j < |entries| ==> Representable(f, entries, inners, j)
  {
    if f.Roomy() {
      RoomyFixtureSucceeds(f, entries, inners);
    } else {
      ListedWhole(f.src, f.kids, Payload(f.seg), |f.src|);
      assert Spliced(f.src, f.seg, f.kids[f.ti], f.kids[f.ci]).None?;
    }
  }

  lemma RoomyFixtureSucceeds(f: File, entries: seq<Kid>, inners: seq<seq<Kid>>)
    requires f.Suitable() && SeeksAre(f, f.src, entries, inners)
    ensures FixtureFor(f.src).Some? <==> forall j :: 0 <= j < |entries| ==> Representable(f, entries, inners, j)
  {
    var mid, plan := FixtureSteps(f);
    SeeksInPlace(f, entries, inners, mid);
    RewriteSucceeds(mid, entries, inners, Payload(f.kids[f.si]), After(f.kids[f.si]), plan, 0);
    forall j | 0 <= j < |entries|
      ensures Fits(mid, entries, inners, plan, j) <==> Representable(f, entries, inners, j)
    {
      FitsOrNot(f, entries, inners, mid, plan, j);
    }
  }

  lemma TargetFits(f: File, length: nat, plan: Plan, id: Option<nat>, was: nat)
    requires f.Shaped() && length == |f.src| + VOID_BYTES + Total(f.kids[f.ti])
    requires plan == PlanFor(f.seg, f.kids[f.ti], f.kids[f.ci], length)
    ensures FitsMoved(plan, id, was) <==> RepresentableTarget(f, id, was)
  {
    InRange(f.src, f.kids, Payload(f.seg), |f.src|, f.ti);
    MovedIsTarget(f, length, id, was, Moved(plan, id, was));
  }

  lemma FitsOrNot(f: File, entries: seq<Kid>, inners: seq<seq<Kid>>, mid: Buffer, plan: Plan, j: nat)
    requires f.Shaped() && Rebuilt(f, mid) && SeeksAre(f, f.src, entries, inners) && j < |entries|
    requires plan == PlanFor(f.seg, f.kids[f.ti], f.kids[f.ci], |mid|)
    ensures Fits(mid, entries, inners, plan, j) <==> Representable(f, entries, inners, j)
  {
    if entries[j].id == SEEK {
      SeekHeadStays(f, mid);
      EntryRead(f, entries, inners, mid, j);
      if PositionOf(inners[j]).Some? {
        TargetFits(f, |mid|, plan, IdOf(f.src, inners[j]), PositionIn(f.src, PositionOf(inners[j]).value));
      }
    }
  }

  /** The rewritten file parses: the same Segment, now longer, is found first, and its
      elements are the old ones with the hole, the large Void and the copy of Tracks. */
  lemma FixtureParses(f: File, entries: seq<Kid>, inners: seq<seq<Kid>>)
    requires f.Suitable() && SeeksAre(f, f.src, entries, inners)
    ensures FixtureFor(f.src).Some? ==>
              var out := FixtureFor(f.src).value.buf;
              ParsesAsRelocated(f, out) && SeeksAre(f, out, entries, inners)
  {
    var mid, plan := FixtureSteps(f);
    Corrected(f, entries, inners, mid, plan);
    if FixtureFor(f.src).Some? {
      ParsesFrom(f, mid, FixtureFor(f.src).value.buf);
    }
  }

  predicate ParsesAsRelocated(f: File, out: Buffer)
    requires f.ti < f.ci < |f.kids| && Total(f.kids[f.ti]) >= 9
  {
    && FirstOf(out, 0, |out|, SEGMENT) == Some(Kid(f.seg.off, SEGMENT, 12, f.NewSize()))
    && f.seg.off + 12 + f.NewSize() == |out|
    && Children(out, f.seg.off + 12, |out|) == Some(AllRelocated(f.kids, f.ti, f.ci, |f.src|))
  }

  lemma ParsesFrom(f: File, mid: Buffer, out: Buffer)
    requires f.Shaped() && Rebuilt(f, mid) && FirstOf(f.src, 0, |f.src|, SEGMENT) == Some(f.seg)
    requires OnlyWithin(mid, out, Payload(f.kids[f.si]), After(f.kids[f.si]))
    ensures ParsesAsRelocated(f, out)
  {
    HeadersKept(f, mid, out);
    ListedWhole(out, AllRelocated(f.kids, f.ti, f.ci, |f.src|), Payload(f.seg), |out|);
    SegmentFound(f, mid, out);
  }

  lemma ListedWhole(buf: Buffer, kids: seq<Kid>, off: nat, end: nat)
    requires Tiled(buf, kids, off, end)
    ensures Children(buf, off, end) == Some(kids)
  {
    TiledIsListed(buf, kids, off, end, 0);
    assert kids[0..] == kids;
  }

  lemma HeadersKept(f: File, mid: Buffer, out: Buffer)
    requires f.Shaped() && Rebuilt(f, mid)
    requires OnlyWithin(mid, out, Payload(f.kids[f.si]), After(f.kids[f.si]))
    ensures Tiled(out, AllRelocated(f.kids, f.ti, f.ci, |f.src|), Payload(f.seg), |out|)
  {
    var all, start, sh := AllRelocated(f.kids, f.ti, f.ci, |f.src|), Payload(f.seg), f.kids[f.si];
    SeekHeadStays(f, mid);
    RelocatedTiled(f.src, mid, f.kids, start, f.ti, f.ci);
    assert all[f.si] == sh;
    forall i | 0 <= i < |all|
      ensures Payload(all[i]) <= Payload(sh) || After(sh) <= all[i].off
    {
      if i != f.si {
        Disjoint(mid, all, start, |mid|, i, f.si);
      }
    }
    TiledFrame(mid, out, Payload(sh), After(sh), all, start, |mid|);
  }

  lemma SegmentFound(f: File, mid: Buffer, out: Buffer)
    requires f.Shaped() && Rebuilt(f, mid)
    requires OnlyWithin(mid, out, Payload(f.kids[f.si]), After(f.kids[f.si]))
    requires FirstOf(f.src, 0, |f.src|, SEGMENT) == Some(f.seg)
    ensures FirstOf(out, 0, |out|, SEGMENT) == Some(Kid(f.seg.off, SEGMENT, 12, f.NewSize()))
  {
    var moved := Kid(f.seg.off, SEGMENT, 12, f.NewSize());
    SeekHeadStays(f, mid);
    AgreeOutside(mid, out, Payload(f.kids[f.si]), After(f.kids[f.si]), f.seg.off, 12);
    HeaderMoves(mid, f.seg.off, out, f.seg.off, moved);
    assert Copied(f.src, 0, f.seg.off, out, 0) by {
      forall x | 0 <= x < f.seg.off
        ensures out[0 + (x - 0)] == f.src[x]
      {
        assert mid[0 + (x - 0)] == f.src[x];
      }
    }
    StillFirst(f.src, out, 0, f.seg, moved);
  }

  /** Every element but the SeekHead has all of its bytes in its new place. */
  lemma ElementsKeepTheirBytes(f: File, entries: seq<Kid>, inners: seq<seq<Kid>>, i: nat)
    requires f.Suitable() && SeeksAre(f, f.src, entries, inners) && i < |f.kids| && i != f.si
    ensures FixtureFor(f.src).Some? ==> Settled(f.src, f.kids[i], FixtureFor(f.src).value.buf, f.Home(i))
  {
    var mid, plan := FixtureSteps(f);
    Corrected(f, entries, inners, mid, plan);
    if FixtureFor(f.src).Some? {
      SettledStays(f, mid, FixtureFor(f.src).value.buf, i);
    }
  }

  /** The position the script reports is that of the copy of Tracks: the last element of the
      Segment, with every byte Tracks had. */
  lemma TracksReported(f: File, entries: seq<Kid>, inners: seq<seq<Kid>>)
    requires f.Suitable() && SeeksAre(f, f.src, entries, inners)
    ensures FixtureFor(f.src).Some? ==> TracksAtEnd(f, FixtureFor(f.src).value)
  {
    var mid, plan := FixtureSteps(f);
    Corrected(f, entries, inners, mid, plan);
    if FixtureFor(f.src).Some? {
      ReportedFrom(f, mid, plan, FixtureFor(f.src).value);
    }
  }

  predicate TracksAtEnd(f: File, built: Built)
    requires f.ti < |f.kids|
  {
    var t := f.kids[f.ti];
    && built.tracksPos >= 0 && Settled(f.src, t, built.buf, f.seg.off + 12 + built.tracksPos)
    && f.seg.off + 12 + built.tracksPos + t.header + t.size == |built.buf|
    && |built.buf| == |f.src| + 0x1_0000 + t.header + t.size
  }

  lemma ReportedFrom(f: File, mid: Buffer, plan: Plan, built: Built)
    requires f.Shaped() && Rebuilt(f, mid) && plan == PlanFor(f.seg, f.kids[f.ti], f.kids[f.ci], |mid|)
    requires OnlyWithin(mid, built.buf, Payload(f.kids[f.si]), After(f.kids[f.si])) && built.tracksPos == plan.tracksPos
    ensures TracksAtEnd(f, built)
  {
    SettledStays(f, mid, built.buf, f.ti);
    ReportedPlace(f, mid, plan);
    EndsWithTracks(f, built, f.Home(f.ti));
  }

  lemma EndsWithTracks(f: File, built: Built, home: nat)
    requires f.ti < |f.kids| && home == |f.src| + VOID_BYTES == f.seg.off + 12 + built.tracksPos && built.tracksPos >= 0
    requires |built.buf| == home + Total(f.kids[f.ti]) && Settled(f.src, f.kids[f.ti], built.buf, home)
    ensures TracksAtEnd(f, built)
  {
  }

  lemma ReportedPlace(f: File, mid: Buffer, plan: Plan)
    requires f.Shaped() && Rebuilt(f, mid) && plan == PlanFor(f.seg, f.kids[f.ti], f.kids[f.ci], |mid|)
    ensures plan.tracksPos >= 0 && f.seg.off + 12 + plan.tracksPos == f.Home(f.ti)
  {
    InRange(f.src, f.kids, Payload(f.seg), |f.src|, f.ti);
  }

  lemma SettledStays(f: File, mid: Buffer, out: Buffer, i: nat)
    requires f.Shaped() && Rebuilt(f, mid) && i < |f.kids| && i != f.si
    requires OnlyWithin(mid, out, Payload(f.kids[f.si]), After(f.kids[f.si]))
    ensures Settled(f.src, f.kids[i], out, f.Home(i))
  {
    var start, sh, k, home := Payload(f.seg), f.kids[f.si], f.kids[i], f.Home(i);
    ElementMoved(f.src, mid, f.kids, start, f.ti, f.ci, i);
    HomesApart(f, i);
    SettledOutside(f.src, k, mid, home, out, Payload(sh), After(sh));
  }

  lemma SettledOutside(src: Buffer, k: Kid, mid: Buffer, home: nat, out: Buffer, lo: nat, hi: nat)
    requires Settled(src, k, mid, home) && OnlyWithin(mid, out, lo, hi)
    requires home + Total(k) <= lo || hi <= home
    ensures Settled(src, k, out, home)
  {
    AgreeOutside(mid, out, lo, hi, home, Total(k));
    AgreeOutside(mid, out, lo, hi, home, k.header);
    HeaderMoves(mid, home, out, home, k.(off := home));
  }

  /** No element lands on the SeekHead. */
  lemma HomesApart(f: File, i: nat)
    requires f.Shaped() && i < |f.kids| && i != f.si
    ensures f.Home(i) + Total(f.kids[i]) <= f.kids[f.si].off || After(f.kids[f.si]) <= f.Home(i)
  {
    var start := Payload(f.seg);
    InRange(f.src, f.kids, start, |f.src|, f.si);
    if i == f.ti {
    } else if i < f.ci {
      Disjoint(f.src, f.kids, start, |f.src|, i, f.si);
    } else {
      Ordered(f.src, f.kids, start, |f.src|, f.si, i);
    }
  }

  /** Where an entry that named an offset names now. */
  function NewTarget(f: File, id: Option<nat>, target: nat): nat
    requires f.ti < f.ci < |f.kids|
  {
    if id == Some(TRACKS) then f.Home(f.ti)
    else if target >= f.kids[f.ci].off then target + VOID_BYTES
    else target
  }

  lemma MovedIsTarget(f: File, length: nat, id: Option<nat>, was: nat, now: int)
    requires f.Shaped() && length == |f.src| + VOID_BYTES + Total(f.kids[f.ti])
    requires now == Moved(PlanFor(f.seg, f.kids[f.ti], f.kids[f.ci], length), id, was)
    ensures now + Payload(f.seg) == NewTarget(f, id, was + Payload(f.seg))
  {
  }

  lemma EntryRead(f: File, entries: seq<Kid>, inners: seq<seq<Kid>>, mid: Buffer, j: nat)
    requires f.si < |f.kids| && SeeksAre(f, f.src, entries, inners)
    requires Copied(f.src, f.kids[f.si].off, After(f.kids[f.si]), mid, f.kids[f.si].off)
    requires j < |entries| && entries[j].id == SEEK
    ensures IdOf(f.src, inners[j]) == IdOf(mid, inners[j])
    ensures PositionOf(inners[j]).Some? ==>
              var at := PositionOf(inners[j]).value;
              && at + 8 <= |f.src| && at + 8 <= |mid| && Big(f.src, at, at + 8) == Big(mid, at, at + 8)
              && PositionIn(f.src, at) == PositionIn(mid, at)
  {
    var sh, e := f.kids[f.si], entries[j];
    assert Inside(f.src, entries, inners, j);
    InRange(f.src, entries, Payload(sh), After(sh), j);
    EntryInPlace(f.src, mid, inners[j], Payload(e), After(e), sh.off, After(sh));
  }

  /** A Seek element of the original and of the rewritten file: the same id, and the
      offset it named then and names now. */
  predicate Renamed(f: File, out: Buffer, kids: seq<Kid>, at: nat, id: Option<nat>, was: nat, now: nat) {
    && PositionOf(kids) == Some(at) && at + 8 <= |f.src| && at + 8 <= |out|
    && IdOf(f.src, kids) == id == IdOf(out, kids)
    && Big(f.src, at, at + 8) + Payload(f.seg) == was
    && Big(out, at, at + 8) + Payload(f.seg) == now
  }

  lemma PositionMoved(f: File, entries: seq<Kid>, inners: seq<seq<Kid>>, j: nat)
    returns (at: nat, was: nat, now: nat)
    requires f.Suitable() && SeeksAre(f, f.src, entries, inners)
    requires j < |entries| && entries[j].id == SEEK && PositionOf(inners[j]).Some?
    ensures FixtureFor(f.src).Some? ==>
              && Renamed(f, FixtureFor(f.src).value.buf, inners[j], at, IdOf(f.src, inners[j]), was, now)
              && now == NewTarget(f, IdOf(f.src, inners[j]), was)
  {
    var mid, plan := FixtureSteps(f);
    Corrected(f, entries, inners, mid, plan);
    SeekHeadStays(f, mid);
    at, was, now := 0, 0, 0;
    if FixtureFor(f.src).Some? {
      assert EntryUpdated(mid, FixtureFor(f.src).value.buf, entries, inners, plan, j);
      at, was, now := EntryMoved(f, entries, inners, mid, plan, FixtureFor(f.src).value.buf, j);
    }
  }

  lemma EntryMoved(f: File, entries: seq<Kid>, inners: seq<seq<Kid>>, mid: Buffer, plan: Plan, out: Buffer, j: nat)
    returns (at: nat, was: nat, now: nat)
    requires f.Shaped() && SeeksAre(f, f.src, entries, inners)
    requires Copied(f.src, f.kids[f.si].off, After(f.kids[f.si]), mid, f.kids[f.si].off)
    requires |mid| == |f.src| + VOID_BYTES + Total(f.kids[f.ti])
    requires plan == PlanFor(f.seg, f.kids[f.ti], f.kids[f.ci], |mid|)
    requires j < |entries| && entries[j].id == SEEK && PositionOf(inners[j]).Some?
    requires Updated(mid, out, inners[j], plan)
    ensures Renamed(f, out, inners[j], at, IdOf(f.src, inners[j]), was, now)
    ensures now == NewTarget(f, IdOf(f.src, inners[j]), was)
  {
    EntryRead(f, entries, inners, mid, j);
    at := PositionOf(inners[j]).value;
    was := Big(f.src, at, at + 8) + Payload(f.seg);
    now := Big(out, at, at + 8) + Payload(f.seg);
    MovedIsTarget(f, |mid|, IdOf(f.src, inners[j]), Big(f.src, at, at + 8), Big(out, at, at + 8));
  }

  lemma TargetIsHome(f: File, id: Option<nat>, i: nat)
    requires f.Shaped() && i < |f.kids|
    ensures NewTarget(f, id, f.kids[i].off) == f.Home(i) <==> (id == Some(TRACKS) <==> i == f.ti)
  {
    var start := Payload(f.seg);
    InRange(f.src, f.kids, start, |f.src|, i);
    if i < f.ci {
      Ordered(f.src, f.kids, start, |f.src|, i, f.ci);
    } else if i > f.ci {
      Ordered(f.src, f.kids, start, |f.src|, f.ci, i);
    }
  }

  /** A corrected position names the element it named before, in its new place, exactly
      when the entry calls itself Tracks just if it names Tracks. */
  lemma PositionsStillName(f: File, entries: seq<Kid>, inners: seq<seq<Kid>>, j: nat)
    returns (at: nat, was: nat, now: nat)
    requires f.Suitable() && SeeksAre(f, f.src, entries, inners)
    requires j < |entries| && entries[j].id == SEEK && PositionOf(inners[j]).Some?
    ensures FixtureFor(f.src).Some? ==>
              Renamed(f, FixtureFor(f.src).value.buf, inners[j], at, IdOf(f.src, inners[j]), was, now)
    ensures FixtureFor(f.src).Some? ==>
              forall i :: 0 <= i < |f.kids| && was == f.kids[i].off ==>
                (now == f.Home(i) <==> (IdOf(f.src, inners[j]) == Some(TRACKS) <==> i == f.ti))
  {
    at, was, now := PositionMoved(f, entries, inners, j);
    forall i | 0 <= i < |f.kids|
      ensures NewTarget(f, IdOf(f.src, inners[j]), f.kids[i].off) == f.Home(i)
              <==> (IdOf(f.src, inners[j]) == Some(TRACKS) <==> i == f.ti)
    {
      TargetIsHome(f, IdOf(f.src, inners[j]), i);
    }
  }
}
