// A file whose SeekHead says that its Tracks stand where its SeekHead does: the entry is
// believed, and its position leaves the element it named.

module LyingEntry {
  import opened Wrappers
  import opened Ebml
  import opened Tiling
  import opened SeekHead
  import opened Fixture
  import opened Relocation

  /** A Segment of a SeekHead with one Seek, Tracks of four bytes, and an empty Cluster. */
  predicate Lying(buf: Buffer) {
    && |buf| == 52
    && At(buf, 0, [0x18, 0x53, 0x80, 0x67, 0x01]) && At(buf, 5, [0, 0, 0, 0, 0, 0, 40])
    && At(buf, 12, [0x11, 0x4D, 0x9B, 0x74, 0x95])
    && At(buf, 17, [0x4D, 0xBB, 0x92])
    && At(buf, 20, [0x53, 0xAB, 0x84]) && At(buf, 23, [0x16, 0x54, 0xAE, 0x6B])
    && At(buf, 27, [0x53, 0xAC, 0x88]) && At(buf, 30, [0, 0, 0, 0, 0, 0, 0, 0])
    && At(buf, 38, [0x16, 0x54, 0xAE, 0x6B, 0x84])
    && At(buf, 47, [0x1F, 0x43, 0xB6, 0x75, 0x80])
  }

  lemma Appended(buf: Buffer, piece: Buffer) returns (longer: Buffer)
    ensures longer == buf + piece && At(longer, |buf|, piece)
    ensures forall off: nat, part: Buffer :: At(buf, off, part) ==> At(longer, off, part)
  {
    longer := buf + piece;
    forall off: nat, part: Buffer | At(buf, off, part)
      ensures At(longer, off, part)
    {
      forall k | 0 <= k < |part|
        ensures longer[off + k] == part[k]
      {
        assert buf[off + k] == part[k];
      }
    }
  }

  /** The Segment's header and its SeekHead. */
  lemma LyingHead() returns (buf: Buffer)
    ensures |buf| == 38
    ensures At(buf, 0, [0x18, 0x53, 0x80, 0x67, 0x01]) && At(buf, 5, [0, 0, 0, 0, 0, 0, 40])
    ensures At(buf, 12, [0x11, 0x4D, 0x9B, 0x74, 0x95]) && At(buf, 17, [0x4D, 0xBB, 0x92])
    ensures At(buf, 20, [0x53, 0xAB, 0x84]) && At(buf, 23, [0x16, 0x54, 0xAE, 0x6B])
    ensures At(buf, 27, [0x53, 0xAC, 0x88]) && At(buf, 30, [0, 0, 0, 0, 0, 0, 0, 0])
  {
    buf := Appended([], [0x18, 0x53, 0x80, 0x67, 0x01]);
    buf := Appended(buf, [0, 0, 0, 0, 0, 0, 40]);
    buf := Appended(buf, [0x11, 0x4D, 0x9B, 0x74, 0x95]);
    buf := Appended(buf, [0x4D, 0xBB, 0x92]);
    buf := Appended(buf, [0x53, 0xAB, 0x84]);
    buf := Appended(buf, [0x16, 0x54, 0xAE, 0x6B]);
    buf := Appended(buf, [0x53, 0xAC, 0x88]);
    buf := Appended(buf, [0, 0, 0, 0, 0, 0, 0, 0]);
  }

  lemma LyingFile() returns (buf: Buffer)
    ensures Lying(buf)
  {
    buf := LyingHead();
    buf := Appended(buf, [0x16, 0x54, 0xAE, 0x6B, 0x84]);
    buf := Appended(buf, [0, 0, 0, 0]);
    buf := Appended(buf, [0x1F, 0x43, 0xB6, 0x75, 0x80]);
  }

  function FileOf(buf: Buffer): File {
    File(buf, Kid(0, SEGMENT, 12, 40),
         [Kid(12, SEEKHEAD, 5, 21), Kid(38, TRACKS, 5, 4), Kid(47, CLUSTER, 5, 0)], 1, 2, 0)
  }

  const ENTRIES := [Kid(17, SEEK, 3, 18)]

  const INNERS := [[Kid(20, SEEK_ID, 3, 4), Kid(27, SEEK_POSITION, 3, 8)]]

  lemma BigTwo(buf: Buffer, off: nat, a: Byte, b: Byte)
    requires off + 2 <= |buf| && buf[off] == a && buf[off + 1] == b
    ensures Big(buf, off, off + 2) == 0x100 * (a as nat) + b
  {
    assert Big(buf, off, off) == 0;
    assert Big(buf, off, off + 1) == buf[off];
  }

  lemma BigFour(buf: Buffer, off: nat, a: Byte, b: Byte, c: Byte, d: Byte)
    requires off + 4 <= |buf| && buf[off] == a && buf[off + 1] == b && buf[off + 2] == c && buf[off + 3] == d
    ensures Big(buf, off, off + 4) == 0x100_0000 * (a as nat) + 0x1_0000 * (b as nat) + 0x100 * (c as nat) + d
  {
    BigTwo(buf, off, a, b);
    assert Big(buf, off, off + 3) == 256 * Big(buf, off, off + 2) + c;
  }

  /** An element whose size takes one byte. */
  lemma SmallKid(buf: Buffer, off: nat, n: nat, id: nat, size: nat)
    requires n <= 4 && off + n + 1 <= |buf| && size < 0x80
    requires Announced(buf[off]) == n && Big(buf, off, off + n) == id && buf[off + n] == 0x80 + size
    ensures KidAt(buf, off) == Some(Kid(off, id, n + 1, size))
  {
    KidOf(buf, off, Field(id, n), Field(size, 1));
  }

  lemma LongId(buf: Buffer, off: nat, a: Byte, b: Byte, c: Byte, d: Byte, last: Byte)
    requires At(buf, off, [a, b, c, d, last]) && Announced(a) == 4 && last >= 0x80
    ensures KidAt(buf, off) == Some(Kid(off, 0x100_0000 * (a as nat) + 0x1_0000 * (b as nat) + 0x100 * (c as nat) + d, 5, last - 0x80))
  {
    var piece := [a, b, c, d, last];
    assert buf[off + 0] == piece[0] && buf[off + 1] == piece[1] && buf[off + 2] == piece[2];
    assert buf[off + 3] == piece[3] && buf[off + 4] == piece[4];
    BigFour(buf, off, a, b, c, d);
    SmallKid(buf, off, 4, Big(buf, off, off + 4), last - 0x80);
  }

  lemma ShortId(buf: Buffer, off: nat, a: Byte, b: Byte, last: Byte)
    requires At(buf, off, [a, b, last]) && Announced(a) == 2 && last >= 0x80
    ensures KidAt(buf, off) == Some(Kid(off, 0x100 * (a as nat) + b, 3, last - 0x80))
  {
    var piece := [a, b, last];
    assert buf[off + 0] == piece[0] && buf[off + 1] == piece[1] && buf[off + 2] == piece[2];
    BigTwo(buf, off, a, b);
    SmallKid(buf, off, 2, Big(buf, off, off + 2), last - 0x80);
  }

  lemma {:induction false} ZerosAreZero(buf: Buffer, from: nat, to: nat)
    requires from <= to <= |buf| && forall k :: from <= k < to ==> buf[k] == 0
    ensures Big(buf, from, to) == 0
    decreases (to)
  {
    if from < to {
      ZerosAreZero(buf, from, to - 1);
    }
  }

  lemma SevenBytes(buf: Buffer, off: nat)
    requires At(buf, off, [0, 0, 0, 0, 0, 0, 40])
    ensures Big(buf, off, off + 7) == 40
  {
    var piece: Buffer := [0, 0, 0, 0, 0, 0, 40];
    forall k | off <= k < off + 6
      ensures buf[k] == 0
    {
      assert buf[off + (k - off)] == piece[k - off];
    }
    ZerosAreZero(buf, off, off + 6);
    assert buf[off + 6] == piece[6];
  }

  lemma SegmentReads(buf: Buffer)
    requires |buf| == 52 && At(buf, 0, [0x18, 0x53, 0x80, 0x67, 0x01]) && At(buf, 5, [0, 0, 0, 0, 0, 0, 40])
    ensures KidAt(buf, 0) == Some(Kid(0, SEGMENT, 12, 40))
  {
    var piece: Buffer := [0x18, 0x53, 0x80, 0x67, 0x01];
    assert buf[0 + 0] == piece[0] && buf[0 + 1] == piece[1] && buf[0 + 2] == piece[2];
    assert buf[0 + 3] == piece[3] && buf[0 + 4] == piece[4];
    BigFour(buf, 0, 0x18, 0x53, 0x80, 0x67);
    SevenBytes(buf, 5);
    AccumulateScales(0, buf, 5, 12);
    KidOf(buf, 0, Field(SEGMENT, 4), Field(40, 8));
  }

  lemma ElementsRead(buf: Buffer)
    requires Lying(buf)
    ensures KidAt(buf, 0) == Some(Kid(0, SEGMENT, 12, 40)) && KidAt(buf, 12) == Some(Kid(12, SEEKHEAD, 5, 21))
    ensures KidAt(buf, 38) == Some(Kid(38, TRACKS, 5, 4)) && KidAt(buf, 47) == Some(Kid(47, CLUSTER, 5, 0))
    ensures KidAt(buf, 17) == Some(Kid(17, SEEK, 3, 18)) && KidAt(buf, 20) == Some(Kid(20, SEEK_ID, 3, 4))
    ensures KidAt(buf, 27) == Some(Kid(27, SEEK_POSITION, 3, 8))
  {
    SegmentReads(buf);
    LongId(buf, 12, 0x11, 0x4D, 0x9B, 0x74, 0x95);
    LongId(buf, 38, 0x16, 0x54, 0xAE, 0x6B, 0x84);
    LongId(buf, 47, 0x1F, 0x43, 0xB6, 0x75, 0x80);
    ShortId(buf, 17, 0x4D, 0xBB, 0x92);
    ShortId(buf, 20, 0x53, 0xAB, 0x84);
    ShortId(buf, 27, 0x53, 0xAC, 0x88);
  }

  lemma KidsTile(buf: Buffer)
    requires KidAt(buf, 12) == Some(Kid(12, SEEKHEAD, 5, 21)) && KidAt(buf, 38) == Some(Kid(38, TRACKS, 5, 4))
    requires KidAt(buf, 47) == Some(Kid(47, CLUSTER, 5, 0))
    ensures Tiled(buf, FileOf(buf).kids, 12, 52)
  {
    var kids := FileOf(buf).kids;
    assert Placed(buf, kids, 12, 0) && Placed(buf, kids, 12, 1) && Placed(buf, kids, 12, 2);
  }

  lemma SeeksTile(buf: Buffer)
    requires KidAt(buf, 17) == Some(Kid(17, SEEK, 3, 18)) && KidAt(buf, 20) == Some(Kid(20, SEEK_ID, 3, 4))
    requires KidAt(buf, 27) == Some(Kid(27, SEEK_POSITION, 3, 8)) && |buf| == 52
    ensures Nested(buf, ENTRIES, INNERS, 17, 38)
  {
    var kids := INNERS[0];
    assert Placed(buf, ENTRIES, 17, 0);
    assert Placed(buf, kids, 20, 0) && Placed(buf, kids, 20, 1);
    assert Tiled(buf, kids, 20, 38);
  }

  lemma FirstOnes(buf: Buffer)
    ensures var kids := FileOf(buf).kids;
            FirstIn(kids, TRACKS) == Some(kids[1]) && FirstIn(kids, CLUSTER) == Some(kids[2])
            && FirstIn(kids, SEEKHEAD) == Some(kids[0])
  {
    var kids := FileOf(buf).kids;
    assert kids[1..] == [kids[1], kids[2]] && kids[1..][1..] == [kids[2]];
  }

  lemma IsSuitable(buf: Buffer)
    requires Lying(buf)
    ensures FileOf(buf).Suitable() && SeeksAre(FileOf(buf), buf, ENTRIES, INNERS)
  {
    ElementsRead(buf);
    KidsTile(buf);
    SeeksTile(buf);
    FirstOnes(buf);
  }

  lemma WhatItSays(buf: Buffer)
    requires Lying(buf)
    ensures PositionOf(INNERS[0]) == Some(30) && IdOf(buf, INNERS[0]) == Some(TRACKS) && Big(buf, 30, 38) == 0
  {
    var kids := INNERS[0];
    assert kids[..1] == [kids[0]] && LastOf([kids[0]], SEEK_ID) == Some(kids[0]);
    var id: Buffer := [0x16, 0x54, 0xAE, 0x6B];
    assert buf[23 + 0] == id[0] && buf[23 + 1] == id[1] && buf[23 + 2] == id[2] && buf[23 + 3] == id[3];
    BigFour(buf, 23, 0x16, 0x54, 0xAE, 0x6B);
    var zeros: Buffer := [0, 0, 0, 0, 0, 0, 0, 0];
    forall k | 30 <= k < 38
      ensures buf[k] == 0
    {
      assert buf[30 + (k - 30)] == zeros[k - 30];
    }
    ZerosAreZero(buf, 30, 38);
  }

  lemma ItFits(buf: Buffer)
    requires Lying(buf) && FileOf(buf).Suitable()
    ensures Representable(FileOf(buf), ENTRIES, INNERS, 0)
  {
    WhatItSays(buf);
    assert Power256(3) == 0x100_0000;
    PowerGrows(3, 8);
  }

  /** Such a file is rewritten, and the entry that named the SeekHead, which stays where it
      is, names the copy of Tracks instead. */
  lemma EntryLeavesItsElement(buf: Buffer) returns (at: nat, was: nat, now: nat)
    requires Lying(buf)
    ensures var f := FileOf(buf);
            && f.Suitable() && SeeksAre(f, buf, ENTRIES, INNERS) && FixtureFor(buf).Some?
            && Renamed(f, FixtureFor(buf).value.buf, INNERS[0], at, Some(TRACKS), was, now)
            && was == f.kids[f.si].off == f.Home(f.si) && now == f.Home(f.ti) != was
  {
    var f := FileOf(buf);
    IsSuitable(buf);
    WhatItSays(buf);
    ItFits(buf);
    FixtureSucceeds(f, ENTRIES, INNERS);
    at, was, now := PositionMoved(f, ENTRIES, INNERS, 0);
  }
}
