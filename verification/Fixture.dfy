// `build_fixture`: Tracks becomes a Void in place and is appended at the end, a large
// Void is inserted before the first Cluster, and the Segment's size and the SeekHead
// are corrected to match.

module Fixture {
  import opened Wrappers
  import opened Ebml
  import opened Tiling
  import opened SeekHead

  const SEGMENT: nat := 0x18538067
  const SEEKHEAD: nat := 0x114D9B74
  const CLUSTER: nat := 0x1F43B675
  const VOID: Byte := 0xEC

  // ------------------------------------------------------------------- operations

  function Zeros(n: nat): (r: Buffer)
    ensures |r| == n
  {
    seq(n, (i: nat) => 0 as Byte)
  }

  /** A Void occupying exactly `total` bytes; None is `struct.pack`'s error. */
  function VoidOf(total: nat): (r: Option<Buffer>)
    ensures r.Some? ==> |r.value| == total
  {
    if total < 9 || total - 9 >= Power256(8) then None
    else Some([VOID, 1] + BigEndian(total - 9, 7) + Zeros(total - 9))
  }

  /** `next(k for k in children(…) if k.id == id)`: reading stops at the first match. */
  function FirstOf(buf: Buffer, off: nat, end: nat, id: nat): (r: Option<Kid>)
    ensures r.Some? ==> r.value.id == id && off <= r.value.off < end && KidAt(buf, r.value.off) == r
    decreases if off < end then end - off else 0
  {
    if off >= end then None
    else
      match KidAt(buf, off)
      case None => None
      case Some(k) => if k.id == id then Some(k) else FirstOf(buf, After(k), end, id)
  }

  function FirstIn(kids: seq<Kid>, id: nat): (r: Option<Kid>)
    ensures r.Some? ==> r.value in kids && r.value.id == id
    ensures r.None? ==> forall k :: k in kids ==> k.id != id
  {
    if kids == [] then None
    else if kids[0].id == id then Some(kids[0])
    else FirstIn(kids[1..], id)
  }

  function Total(k: Kid): nat {
    k.header + k.size
  }

  /** Slice assignment: `buf[from:to] = piece`. */
  function Replaced(buf: Buffer, from: nat, to: nat, piece: Buffer): Buffer
    requires from <= to
  {
    buf[..Cut(buf, from)] + piece + buf[Cut(buf, to)..]
  }

  /** `value | (1 << 56)`. */
  function MarkSize(value: nat): nat {
    if (value / 0x100_0000_0000_0000) % 2 == 1 then value else value + 0x100_0000_0000_0000
  }

  /** The buffer before its SeekHead is corrected. */
  function Spliced(src: Buffer, seg: Kid, t: Kid, c: Kid): Option<Buffer> {
    match VoidOf(Total(t))
    case None => None
    case Some(hole) =>
      var tracks := src[Cut(src, t.off)..Cut(src, After(t))];
      var emptied := Replaced(src, t.off, After(t), hole);
      assert VoidOf(VOID_BYTES).Some? by { LargeVoid(); }
      var spread := Replaced(emptied, c.off, c.off, VoidOf(VOID_BYTES).value);
      Pack(spread + tracks, seg.off + 4, MarkSize(seg.size + VOID_BYTES + Total(t)))
  }

  lemma LargeVoid()
    ensures VoidOf(VOID_BYTES).Some?
  {
    assert Power256(3) == 0x100_0000;
    PowerGrows(3, 8);
  }

  lemma {:induction false} PowerGrows(n: nat, m: nat)
    requires n <= m
    ensures Power256(n) <= Power256(m)
    decreases m
  {
    if n < m {
      PowerGrows(n, m - 1);
    }
  }

  datatype Built = Built(buf: Buffer, tracksPos: int)

  function FixtureFor(src: Buffer): Option<Built> {
    match FirstOf(src, 0, |src|, SEGMENT)
    case None => None
    case Some(seg) =>
      match Children(src, Payload(seg), After(seg))
      case None => None
      case Some(kids) => FixtureOf(src, seg, FirstIn(kids, TRACKS), FirstIn(kids, CLUSTER), FirstIn(kids, SEEKHEAD))
  }

  function FixtureOf(src: Buffer, seg: Kid, t: Option<Kid>, c: Option<Kid>, sh: Option<Kid>): Option<Built> {
    if t.None? || c.None? || sh.None? then None
    else
      match Spliced(src, seg, t.value, c.value)
      case None => None
      case Some(mid) =>
        var plan := PlanFor(seg, t.value, c.value, |mid|);
        match Rewrite(mid, Payload(sh.value), After(sh.value), plan)
        case None => None
        case Some(out) => Some(Built(out, plan.tracksPos))
  }

  function PlanFor(seg: Kid, t: Kid, c: Kid, length: nat): Plan {
    Plan(length - Total(t) - Payload(seg), c.off - Payload(seg))
  }

  method NextOf(buf: Buffer, start: nat, end: nat, id: nat) returns (found: Option<Kid>)
    ensures found == FirstOf(buf, start, end, id)
  {
    var off := start;
    while off < end
      invariant FirstOf(buf, start, end, id) == FirstOf(buf, off, end, id)
      decreases if off < end then end - off else 0
    {
      found := FindKid(buf, off);
      if found.None? || found.value.id == id {
        return;
      }
      off := After(found.value);
    }
    return None;
  }

  method BuildFixture(src: Buffer) returns (built: Option<Built>)
    ensures built == FixtureFor(src)
  {
    var seg := NextOf(src, 0, |src|, SEGMENT);
    if seg.None? {
      return None;
    }
    var kids := ListChildren(src, Payload(seg.value), After(seg.value));
    if kids.None? {
      return None;
    }
    var t, c := FirstIn(kids.value, TRACKS), FirstIn(kids.value, CLUSTER);
    var sh := FirstIn(kids.value, SEEKHEAD);
    if t.None? || c.None? || sh.None? {
      return None;
    }
    var mid := Spliced(src, seg.value, t.value, c.value);
    if mid.None? {
      return None;
    }
    var plan := PlanFor(seg.value, t.value, c.value, |mid.value|);
    var out := RewriteSeekHead(mid.value, Payload(sh.value), After(sh.value), plan);
    if out.None? {
      return None;
    }
    return Some(Built(out.value, plan.tracksPos));
  }

  /** What the script cannot do without: a first Segment whose elements can all be listed,
      Tracks, a Cluster and a SeekHead among them, and nine bytes for the Void. */
  lemma FixtureNeeds(src: Buffer) returns (seg: Kid, kids: seq<Kid>, tracks: Kid)
    requires FixtureFor(src).Some?
    ensures FirstOf(src, 0, |src|, 0x18538067) == Some(seg)
    ensures Children(src, seg.off + seg.header, seg.off + seg.header + seg.size) == Some(kids)
    ensures FirstIn(kids, 0x1654AE6B) == Some(tracks) && FirstIn(kids, 0x1F43B675).Some? && FirstIn(kids, 0x114D9B74).Some?
    ensures tracks.header + tracks.size >= 9
  {
    seg := FirstOf(src, 0, |src|, SEGMENT).value;
    kids := Children(src, Payload(seg), After(seg)).value;
    tracks := FirstIn(kids, TRACKS).value;
    assert Spliced(src, seg, tracks, FirstIn(kids, CLUSTER).value).Some?;
  }
}
