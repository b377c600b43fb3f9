// The loop that corrects a SeekHead in place: it walks the Seek elements of a buffer
// it is itself rewriting, and rewrites each 8-byte SeekPosition.

module SeekHead {
  import opened Wrappers
  import opened Ebml
  import opened Tiling

  const TRACKS: nat := 0x1654AE6B
  const SEEK: nat := 0x4DBB
  const SEEK_ID: nat := 0x53AB
  const SEEK_POSITION: nat := 0x53AC

  const VOID_BYTES: nat := 0x1_0000

  /** Where Tracks went and where the first Cluster was, counted from the Segment's data. */
  datatype Plan = Plan(tracksPos: int, clusterPos: int)

  function Moved(plan: Plan, id: Option<nat>, current: nat): int {
    if id == Some(TRACKS) then plan.tracksPos
    else if current >= plan.clusterPos then current + VOID_BYTES
    else current
  }

  function Payload(k: Kid): nat {
    k.off + k.header
  }

  /** The element the inner loop's variable was last set from. */
  function LastOf(kids: seq<Kid>, id: nat): (r: Option<Kid>)
    ensures r.Some? ==> r.value in kids && r.value.id == id
    ensures r.Some? <==> exists k :: k in kids && k.id == id
  {
    if kids == [] then None
    else if kids[|kids| - 1].id == id then Some(kids[|kids| - 1])
    else LastOf(kids[..|kids| - 1], id)
  }

  /** No later element has the id. */
  lemma {:induction false} LastIsLast(kids: seq<Kid>, id: nat, k: nat)
    requires k < |kids| && kids[k].id == id && forall j :: k < j < |kids| ==> kids[j].id != id
    ensures LastOf(kids, id) == Some(kids[k])
  {
    if k < |kids| - 1 {
      LastIsLast(kids[..|kids| - 1], id, k);
    }
  }

  function IdOf(buf: Buffer, kids: seq<Kid>): Option<nat> {
    match LastOf(kids, SEEK_ID)
    case None => None
    case Some(k) => Some(Big(buf, Payload(k), Cut(buf, After(k))))
  }

  /** Where the 8-byte SeekPosition stands. */
  function PositionOf(kids: seq<Kid>): Option<nat> {
    match LastOf(kids, SEEK_POSITION)
    case None => None
    case Some(k) => if k.size == 8 then Some(Payload(k)) else None
  }

  /** `struct.pack_into(">Q", …)`; None is its error. */
  function Pack(buf: Buffer, at: nat, value: int): (r: Option<Buffer>)
    ensures r.Some? ==> |r.value| == |buf| && at + 8 <= |buf| && 0 <= value < Power256(8)
  {
    if at + 8 > |buf| || value < 0 || value >= Power256(8) then None
    else Some(buf[..at] + BigEndian(value, 8) + buf[at + 8..])
  }

  function RewriteSeek(buf: Buffer, kids: seq<Kid>, plan: Plan): (r: Option<Buffer>)
    ensures r.Some? ==> |r.value| == |buf|
  {
    match PositionOf(kids)
    case None => Some(buf)
    case Some(at) =>
      var current := Big(buf, at, Cut(buf, at + 8));
      var moved := Moved(plan, IdOf(buf, kids), current);
      if moved == current then Some(buf) else Pack(buf, at, moved)
  }

  function RewriteEntry(buf: Buffer, k: Kid, plan: Plan): (r: Option<Buffer>)
    ensures r.Some? ==> |r.value| == |buf|
  {
    if k.id != SEEK then Some(buf)
    else
      match Children(buf, Payload(k), After(k))
      case None => None
      case Some(kids) => RewriteSeek(buf, kids, plan)
  }

  /** The generator resumes in the buffer the body has just changed. */
  function Rewrite(buf: Buffer, off: nat, end: nat, plan: Plan): (r: Option<Buffer>)
    ensures r.Some? ==> |r.value| == |buf|
    decreases if off < end then end - off else 0
  {
    if off >= end then Some(buf)
    else
      match KidAt(buf, off)
      case None => None
      case Some(k) =>
        match RewriteEntry(buf, k, plan)
        case None => None
        case Some(next) => Rewrite(next, After(k), end, plan)
  }

  method ScanSeek(buf: Buffer, kids: seq<Kid>) returns (id: Option<nat>, position: Option<Kid>)
    ensures id == IdOf(buf, kids) && position == LastOf(kids, SEEK_POSITION)
  {
    id, position := None, None;
    assert kids[..0] == [];
    for i := 0 to |kids|
      invariant id == IdOf(buf, kids[..i]) && position == LastOf(kids[..i], SEEK_POSITION)
    {
      var kid := kids[i];
      assert kids[..i + 1] == kids[..i] + [kid];
      assert kids[..i + 1][..i] == kids[..i];
      if kid.id == SEEK_ID {
        id := Some(Big(buf, Payload(kid), Cut(buf, After(kid))));
      } else if kid.id == SEEK_POSITION {
        position := Some(kid);
      }
    }
    assert kids[..|kids|] == kids;
  }

  /** The body of the outer loop. */
  method Correct(buf: Buffer, kid: Kid, plan: Plan) returns (out: Option<Buffer>)
    ensures out == RewriteEntry(buf, kid, plan)
  {
    if kid.id != SEEK {
      return Some(buf);
    }
    var kids := ListChildren(buf, Payload(kid), After(kid));
    if kids.None? {
      return None;
    }
    var seekId, position := ScanSeek(buf, kids.value);
    if position.None? || position.value.size != 8 {
      return Some(buf);
    }
    var at := Payload(position.value);
    var current := Big(buf, at, Cut(buf, at + 8));
    var moved := Moved(plan, seekId, current);
    if moved == current {
      return Some(buf);
    }
    return Pack(buf, at, moved);
  }

  lemma RewriteStep(buf: Buffer, off: nat, end: nat, plan: Plan, k: Kid)
    requires off < end && KidAt(buf, off) == Some(k)
    ensures Rewrite(buf, off, end, plan) == (match RewriteEntry(buf, k, plan)
                                             case None => None
                                             case Some(next) => Rewrite(next, After(k), end, plan))
  {
  }

  method RewriteSeekHead(src: Buffer, start: nat, end: nat, plan: Plan) returns (out: Option<Buffer>)
    ensures out == Rewrite(src, start, end, plan)
  {
    var buf, off := src, start;
    while off < end
      invariant Rewrite(src, start, end, plan) == Rewrite(buf, off, end, plan)
      decreases if off < end then end - off else 0
    {
      var kid := FindKid(buf, off);
      if kid.None? {
        return None;
      }
      RewriteStep(buf, off, end, plan, kid.value);
      var next := Correct(buf, kid.value, plan);
      if next.None? {
        return None;
      }
      buf, off := next.value, After(kid.value);
    }
    return Some(buf);
  }

  // --------------------------------------------------------------- what it changes

  predicate OnlyWithin(a: Buffer, b: Buffer, lo: nat, hi: nat) {
    && |a| == |b|
    && forall x :: 0 <= x < |a| && !(lo <= x < hi) ==> a[x] == b[x]
  }

  lemma OnlyWithinTwice(a: Buffer, b: Buffer, c: Buffer, lo: nat, mid: nat, hi: nat)
    requires OnlyWithin(a, b, lo, mid) && OnlyWithin(b, c, mid, hi) && lo <= mid <= hi
    ensures OnlyWithin(a, c, lo, hi)
  {
  }

  lemma PackWrites(buf: Buffer, at: nat, value: int)
    requires Pack(buf, at, value).Some?
    ensures var out := Pack(buf, at, value).value;
            OnlyWithin(buf, out, at, at + 8) && At(out, at, BigEndian(value, 8)) && Big(out, at, at + 8) == value
  {
    var out := Pack(buf, at, value).value;
    assert At(out, at, BigEndian(value, 8));
    BigEndianValue(value, 8);
    BigAt(out, at, BigEndian(value, 8), 0, 8);
  }

  lemma {:induction false} BigUnchanged(a: Buffer, b: Buffer, lo: nat, hi: nat, from: nat, to: nat)
    requires OnlyWithin(a, b, lo, hi) && to <= |a| && (to <= lo || hi <= from)
    ensures Big(a, from, to) == Big(b, from, to)
    decreases (to)
  {
    if from < to {
      assert a[to - 1] == b[to - 1];
      BigUnchanged(a, b, lo, hi, from, to - 1);
    }
  }

  lemma AgreeOutside(a: Buffer, b: Buffer, lo: nat, hi: nat, off: nat, n: nat)
    requires OnlyWithin(a, b, lo, hi) && off + n <= |a| && (off + n <= lo || hi <= off)
    ensures Agree(a, off, b, off, n)
  {
  }

  /** A tiling survives a write that misses every header. */
  lemma TiledFrame(a: Buffer, b: Buffer, lo: nat, hi: nat, kids: seq<Kid>, off: nat, end: nat)
    requires Tiled(a, kids, off, end) && end <= |a| && OnlyWithin(a, b, lo, hi)
    requires forall i :: 0 <= i < |kids| ==> Payload(kids[i]) <= lo || hi <= kids[i].off
    ensures Tiled(b, kids, off, end)
  {
    forall i | 0 <= i < |kids|
      ensures Placed(b, kids, off, i)
    {
      assert Placed(a, kids, off, i);
      InRange(a, kids, off, end, i);
      AgreeOutside(a, b, lo, hi, kids[i].off, kids[i].header);
      HeaderMoves(a, kids[i].off, b, kids[i].off, kids[i]);
    }
  }

  // --------------------------------------------------------------------- one Seek

  /** The entry names the same id, and its position is the moved one. */
  predicate Updated(before: Buffer, after: Buffer, kids: seq<Kid>, plan: Plan) {
    && IdOf(after, kids) == IdOf(before, kids)
    && (PositionOf(kids).Some? ==>
          var at := PositionOf(kids).value;
          && at + 8 <= |before| && |after| == |before|
          && Big(after, at, at + 8) == Moved(plan, IdOf(before, kids), Big(before, at, at + 8)))
  }

  lemma IndexOf(kids: seq<Kid>, k: Kid) returns (i: nat)
    requires k in kids
    ensures i < |kids| && kids[i] == k
  {
    i :| 0 <= i < |kids| && kids[i] == k;
  }

  lemma KidInRange(buf: Buffer, kids: seq<Kid>, off: nat, end: nat, k: Kid)
    requires Tiled(buf, kids, off, end) && k in kids
    ensures off <= k.off < After(k) <= end
  {
    var i := IndexOf(kids, k);
    InRange(buf, kids, off, end, i);
  }

  lemma PatchKeepsSeek(buf: Buffer, out: Buffer, kids: seq<Kid>, off: nat, end: nat, t: Kid)
    requires Tiled(buf, kids, off, end) && end <= |buf|
    requires LastOf(kids, SEEK_POSITION) == Some(t) && OnlyWithin(buf, out, Payload(t), After(t))
    ensures off <= t.off && After(t) <= end
    ensures Tiled(out, kids, off, end) && IdOf(out, kids) == IdOf(buf, kids)
  {
    var m := IndexOf(kids, t);
    InRange(buf, kids, off, end, m);
    forall i | 0 <= i < |kids|
      ensures Payload(kids[i]) <= Payload(t) || After(t) <= kids[i].off
    {
      if i != m {
        Disjoint(buf, kids, off, end, i, m);
      }
    }
    TiledFrame(buf, out, Payload(t), After(t), kids, off, end);
    if LastOf(kids, SEEK_ID).Some? {
      var s := LastOf(kids, SEEK_ID).value;
      var n := IndexOf(kids, s);
      InRange(buf, kids, off, end, n);
      Disjoint(buf, kids, off, end, n, m);
      BigUnchanged(buf, out, Payload(t), After(t), Payload(s), After(s));
    }
  }

  lemma SeekUpdated(buf: Buffer, kids: seq<Kid>, off: nat, end: nat, plan: Plan)
    requires Tiled(buf, kids, off, end) && end <= |buf|
    requires RewriteSeek(buf, kids, plan).Some?
    ensures var out := RewriteSeek(buf, kids, plan).value;
            OnlyWithin(buf, out, off, end) && Tiled(out, kids, off, end) && Updated(buf, out, kids, plan)
  {
    var out := RewriteSeek(buf, kids, plan).value;
    if PositionOf(kids).Some? {
      var t := LastOf(kids, SEEK_POSITION).value;
      var at := Payload(t);
      KidInRange(buf, kids, off, end, t);
      var current := Big(buf, at, at + 8);
      var moved := Moved(plan, IdOf(buf, kids), current);
      if moved != current {
        PackWrites(buf, at, moved);
        PatchKeepsSeek(buf, out, kids, off, end, t);
      }
    }
  }

  // -------------------------------------------------------------- the whole SeekHead

  /** Every Seek's own elements fill it exactly. */
  predicate Nested(buf: Buffer, entries: seq<Kid>, inners: seq<seq<Kid>>, lo: nat, hi: nat) {
    && Tiled(buf, entries, lo, hi) && hi <= |buf|
    && |inners| == |entries|
    && forall i :: 0 <= i < |entries| ==> Inside(buf, entries, inners, i)
  }

  predicate Inside(buf: Buffer, entries: seq<Kid>, inners: seq<seq<Kid>>, i: nat)
    requires i < |entries| == |inners|
  {
    entries[i].id == SEEK ==> Tiled(buf, inners[i], Payload(entries[i]), After(entries[i]))
  }

  lemma InnerFrame(a: Buffer, b: Buffer, lo: nat, hi: nat, kids: seq<Kid>, off: nat, end: nat)
    requires Tiled(a, kids, off, end) && end <= |a| && OnlyWithin(a, b, lo, hi)
    requires end <= lo || hi <= off
    ensures Tiled(b, kids, off, end)
  {
    forall i | 0 <= i < |kids|
      ensures Payload(kids[i]) <= lo || hi <= kids[i].off
    {
      InRange(a, kids, off, end, i);
    }
    TiledFrame(a, b, lo, hi, kids, off, end);
  }

  /** A change inside one entry's payload that keeps that entry's own elements. */
  lemma NestedFrame(a: Buffer, b: Buffer, entries: seq<Kid>, inners: seq<seq<Kid>>, lo: nat, hi: nat, i: nat)
    requires Nested(a, entries, inners, lo, hi) && i < |entries|
    requires OnlyWithin(a, b, Payload(entries[i]), After(entries[i])) && Inside(b, entries, inners, i)
    ensures Nested(b, entries, inners, lo, hi)
  {
    forall j | 0 <= j < |entries|
      ensures Payload(entries[j]) <= Payload(entries[i]) || After(entries[i]) <= entries[j].off
    {
      if j != i {
        Disjoint(a, entries, lo, hi, i, j);
      }
    }
    TiledFrame(a, b, Payload(entries[i]), After(entries[i]), entries, lo, hi);
    forall j | 0 <= j < |entries|
      ensures Inside(b, entries, inners, j)
    {
      if j != i && entries[j].id == SEEK {
        assert Inside(a, entries, inners, j);
        Disjoint(a, entries, lo, hi, i, j);
        InRange(a, entries, lo, hi, j);
        InnerFrame(a, b, Payload(entries[i]), After(entries[i]), inners[j], Payload(entries[j]), After(entries[j]));
      }
    }
  }

  predicate EntryUpdated(before: Buffer, after: Buffer, entries: seq<Kid>, inners: seq<seq<Kid>>, plan: Plan, j: nat)
    requires j < |entries| == |inners|
  {
    entries[j].id == SEEK ==> Updated(before, after, inners[j], plan)
  }

  lemma EntryRewritten(buf: Buffer, entries: seq<Kid>, inners: seq<seq<Kid>>, lo: nat, hi: nat, plan: Plan, i: nat)
    requires Nested(buf, entries, inners, lo, hi) && i < |entries|
    requires RewriteEntry(buf, entries[i], plan).Some?
    ensures var next := RewriteEntry(buf, entries[i], plan).value;
            && OnlyWithin(buf, next, Payload(entries[i]), After(entries[i]))
            && Nested(next, entries, inners, lo, hi)
            && EntryUpdated(buf, next, entries, inners, plan, i)
  {
    var k, next := entries[i], RewriteEntry(buf, entries[i], plan).value;
    InRange(buf, entries, lo, hi, i);
    assert Inside(buf, entries, inners, i);
    if k.id == SEEK {
      TiledIsListed(buf, inners[i], Payload(k), After(k), 0);
      assert inners[i][0..] == inners[i];
      SeekUpdated(buf, inners[i], Payload(k), After(k), plan);
    }
    NestedFrame(buf, next, entries, inners, lo, hi, i);
  }

  /** An entry is unaffected by what is changed outside it. */
  lemma EntryAside(a: Buffer, b: Buffer, entries: seq<Kid>, inners: seq<seq<Kid>>, lo: nat, hi: nat, j: nat,
                   from: nat, to: nat)
    requires Nested(a, entries, inners, lo, hi) && j < |entries| && entries[j].id == SEEK
    requires OnlyWithin(a, b, from, to) && (After(entries[j]) <= from || to <= entries[j].off)
    ensures IdOf(a, inners[j]) == IdOf(b, inners[j])
    ensures PositionOf(inners[j]).Some? ==>
              var at := PositionOf(inners[j]).value;
              at + 8 <= |a| && Big(a, at, at + 8) == Big(b, at, at + 8)
  {
    var kids, off, end := inners[j], Payload(entries[j]), After(entries[j]);
    InRange(a, entries, lo, hi, j);
    assert Inside(a, entries, inners, j);
    if LastOf(kids, SEEK_ID).Some? {
      var s := LastOf(kids, SEEK_ID).value;
      KidInRange(a, kids, off, end, s);
      BigUnchanged(a, b, from, to, Payload(s), After(s));
    }
    if PositionOf(kids).Some? {
      var t := LastOf(kids, SEEK_POSITION).value;
      KidInRange(a, kids, off, end, t);
      BigUnchanged(a, b, from, to, Payload(t), After(t));
    }
  }

  lemma FirstUpdated(buf: Buffer, next: Buffer, out: Buffer, entries: seq<Kid>, inners: seq<seq<Kid>>, lo: nat, hi: nat,
                     plan: Plan, i: nat)
    requires Nested(next, entries, inners, lo, hi) && i < |entries|
    requires EntryUpdated(buf, next, entries, inners, plan, i) && OnlyWithin(next, out, After(entries[i]), hi)
    ensures EntryUpdated(buf, out, entries, inners, plan, i)
  {
    if entries[i].id == SEEK {
      EntryAside(next, out, entries, inners, lo, hi, i, After(entries[i]), hi);
    }
  }

  lemma LaterUpdated(buf: Buffer, next: Buffer, out: Buffer, entries: seq<Kid>, inners: seq<seq<Kid>>, lo: nat, hi: nat,
                     plan: Plan, i: nat, j: nat)
    requires Nested(buf, entries, inners, lo, hi) && i < j < |entries|
    requires OnlyWithin(buf, next, Payload(entries[i]), After(entries[i]))
    requires EntryUpdated(next, out, entries, inners, plan, j)
    ensures EntryUpdated(buf, out, entries, inners, plan, j)
  {
    if entries[j].id == SEEK {
      Disjoint(buf, entries, lo, hi, i, j);
      Ascending(buf, entries, lo, hi, i, j);
      assert Placed(buf, entries, lo, j);
      EntryAside(buf, next, entries, inners, lo, hi, j, Payload(entries[i]), After(entries[i]));
    }
  }

  /** Walking the buffer it rewrites, the loop still visits every entry of the original
      once: each position is moved exactly once, and nothing else changes. */
  lemma {:induction false} RewriteUpdates(buf: Buffer, entries: seq<Kid>, inners: seq<seq<Kid>>, lo: nat, hi: nat,
                                          plan: Plan, i: nat)
    requires Nested(buf, entries, inners, lo, hi) && i <= |entries|
    requires Rewrite(buf, Start(entries, lo, i), hi, plan).Some?
    ensures var out := Rewrite(buf, Start(entries, lo, i), hi, plan).value;
            && OnlyWithin(buf, out, Start(entries, lo, i), hi)
            && Nested(out, entries, inners, lo, hi)
            && forall j :: i <= j < |entries| ==> EntryUpdated(buf, out, entries, inners, plan, j)
    decreases |entries| - i
  {
    Ascending(buf, entries, lo, hi, i, |entries|);
    if i < |entries| {
      var k := entries[i];
      assert Placed(buf, entries, lo, i);
      InRange(buf, entries, lo, hi, i);
      EntryRewritten(buf, entries, inners, lo, hi, plan, i);
      var next := RewriteEntry(buf, k, plan).value;
      RewriteUpdates(next, entries, inners, lo, hi, plan, i + 1);
      var out := Rewrite(next, After(k), hi, plan).value;
      OnlyWithinTwice(buf, next, out, k.off, After(k), hi);
      forall j | i <= j < |entries|
        ensures EntryUpdated(buf, out, entries, inners, plan, j)
      {
        if j == i {
          FirstUpdated(buf, next, out, entries, inners, lo, hi, plan, i);
        } else {
          LaterUpdated(buf, next, out, entries, inners, lo, hi, plan, i, j);
        }
      }
    }
  }

  // ------------------------------------------------------------------ when it succeeds

  /** The moved position can be written in eight bytes. */
  predicate Fits(buf: Buffer, entries: seq<Kid>, inners: seq<seq<Kid>>, plan: Plan, j: nat)
    requires j < |entries| == |inners|
  {
    entries[j].id == SEEK && PositionOf(inners[j]).Some? ==>
      FitsMoved(plan, IdOf(buf, inners[j]), PositionIn(buf, PositionOf(inners[j]).value))
  }

  predicate FitsMoved(plan: Plan, id: Option<nat>, current: nat) {
    0 <= Moved(plan, id, current) < Power256(8)
  }

  function PositionIn(buf: Buffer, at: nat): nat {
    Big(buf, at, Cut(buf, at + 8))
  }

  lemma EntrySucceeds(buf: Buffer, entries: seq<Kid>, inners: seq<seq<Kid>>, lo: nat, hi: nat, plan: Plan, i: nat)
    requires Nested(buf, entries, inners, lo, hi) && i < |entries|
    ensures RewriteEntry(buf, entries[i], plan).Some? <==> Fits(buf, entries, inners, plan, i)
  {
    var k := entries[i];
    InRange(buf, entries, lo, hi, i);
    assert Inside(buf, entries, inners, i);
    if k.id == SEEK {
      TiledIsListed(buf, inners[i], Payload(k), After(k), 0);
      assert inners[i][0..] == inners[i];
      SeekSucceeds(buf, inners[i], Payload(k), After(k), plan);
    }
  }

  lemma SeekSucceeds(buf: Buffer, kids: seq<Kid>, off: nat, end: nat, plan: Plan)
    requires Tiled(buf, kids, off, end) && end <= |buf|
    ensures RewriteSeek(buf, kids, plan).Some? <==>
            (PositionOf(kids).Some? ==> FitsMoved(plan, IdOf(buf, kids), PositionIn(buf, PositionOf(kids).value)))
  {
    if PositionOf(kids).Some? {
      var t := LastOf(kids, SEEK_POSITION).value;
      KidInRange(buf, kids, off, end, t);
      BigBounded(buf, Payload(t), Payload(t) + 8);
    }
  }

  /** The loop fails exactly when some position, once moved, needs more than 64 bits. */
  lemma {:induction false} RewriteSucceeds(buf: Buffer, entries: seq<Kid>, inners: seq<seq<Kid>>, lo: nat, hi: nat,
                                           plan: Plan, i: nat)
    requires Nested(buf, entries, inners, lo, hi) && i <= |entries|
    ensures Rewrite(buf, Start(entries, lo, i), hi, plan).Some? <==>
            forall j :: i <= j < |entries| ==> Fits(buf, entries, inners, plan, j)
    decreases |entries| - i
  {
    Ascending(buf, entries, lo, hi, i, |entries|);
    if i < |entries| {
      var k := entries[i];
      assert Placed(buf, entries, lo, i);
      InRange(buf, entries, lo, hi, i);
      EntrySucceeds(buf, entries, inners, lo, hi, plan, i);
      RewriteStep(buf, k.off, hi, plan, k);
      if RewriteEntry(buf, k, plan).Some? {
        EntryRewritten(buf, entries, inners, lo, hi, plan, i);
        var next := RewriteEntry(buf, k, plan).value;
        RewriteSucceeds(next, entries, inners, lo, hi, plan, i + 1);
        forall j | i < j < |entries|
          ensures Fits(next, entries, inners, plan, j) <==> Fits(buf, entries, inners, plan, j)
        {
          LaterFits(buf, next, entries, inners, lo, hi, plan, i, j);
        }
      }
    }
  }

  lemma LaterFits(buf: Buffer, next: Buffer, entries: seq<Kid>, inners: seq<seq<Kid>>, lo: nat, hi: nat, plan: Plan,
                  i: nat, j: nat)
    requires Nested(buf, entries, inners, lo, hi) && i < j < |entries|
    requires OnlyWithin(buf, next, Payload(entries[i]), After(entries[i]))
    ensures Fits(next, entries, inners, plan, j) <==> Fits(buf, entries, inners, plan, j)
  {
    if entries[j].id == SEEK {
      Disjoint(buf, entries, lo, hi, i, j);
      Ascending(buf, entries, lo, hi, i, j);
      assert Placed(buf, entries, lo, j);
      EntryAside(buf, next, entries, inners, lo, hi, j, Payload(entries[i]), After(entries[i]));
    }
  }
}
