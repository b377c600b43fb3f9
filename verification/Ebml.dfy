// EBML element headers as the reproduction scripts write and read them: element ids
// and data sizes are marked by the first set bit of their first byte (RFC 8794,
// sections 4 to 6).

module Ebml {
  import opened Wrappers

  type Buffer = seq<Byte>

  // ------------------------------------------------------- big-endian integers

  function Power256(n: nat): (r: nat)
    ensures r >= 1
  {
    if n == 0 then 1 else 256 * Power256(n - 1)
  }

  /** The integer spelt by the bytes from one offset up to another. */
  function Big(buf: Buffer, from: nat, to: nat): nat
    requires to <= |buf|
  {
    if from >= to then 0 else 256 * Big(buf, from, to - 1) + buf[to - 1]
  }

  /** `to_bytes(n, "big")`. */
  function BigEndian(v: nat, n: nat): (r: Buffer)
    ensures |r| == n
  {
    if n == 0 then [] else BigEndian(v / 256, n - 1) + [v % 256]
  }

  /** The bytes `piece` stand at an offset. */
  predicate At(buf: Buffer, off: nat, piece: Buffer) {
    && off + |piece| <= |buf|
    && forall k :: 0 <= k < |piece| ==> buf[off + k] == piece[k]
  }

  lemma {:induction false} BigAt(buf: Buffer, off: nat, piece: Buffer, from: nat, to: nat)
    requires At(buf, off, piece) && from <= to <= |piece|
    ensures Big(buf, off + from, off + to) == Big(piece, from, to)
    decreases (to)
  {
    if from < to {
      BigAt(buf, off, piece, from, to - 1);
      assert buf[off + (to - 1)] == piece[to - 1];
    }
  }

  lemma {:induction false} BigEndianValue(v: nat, n: nat)
    requires v < Power256(n)
    ensures Big(BigEndian(v, n), 0, n) == v
  {
    if n > 0 {
      BigEndianValue(v / 256, n - 1);
      BigAt(BigEndian(v, n), 0, BigEndian(v / 256, n - 1), 0, n - 1);
    }
  }

  lemma {:induction false} BigBounded(buf: Buffer, from: nat, to: nat)
    requires from <= to <= |buf|
    ensures Big(buf, from, to) < Power256(to - from)
  {
    if from < to {
      BigBounded(buf, from, to - 1);
    }
  }

  lemma Shifted(x: nat, unit: nat, low: nat, last: nat)
    ensures 256 * (x * unit + low) + last == x * (256 * unit) + (256 * low + last)
  {
    assert 256 * (x * unit) == x * (256 * unit);
  }

  lemma {:induction false} BigSplit(buf: Buffer, from: nat, to: nat)
    requires from < to <= |buf|
    ensures Big(buf, from, to) == buf[from] * Power256(to - from - 1) + Big(buf, from + 1, to)
  {
    if from + 1 < to {
      BigSplit(buf, from, to - 1);
      Shifted(buf[from], Power256(to - from - 2), Big(buf, from + 1, to - 1), buf[to - 1]);
    }
  }

  /** The reader's loop: every further byte shifts the value up by eight bits. */
  function Accumulate(value: nat, buf: Buffer, from: nat, to: nat): nat
    requires to <= |buf|
    decreases if from < to then to - from else 0
  {
    if from >= to then value else Accumulate(256 * value + buf[from], buf, from + 1, to)
  }

  lemma Carry(value: nat, digit: nat, unit: nat)
    ensures (256 * value + digit) * unit == value * (256 * unit) + digit * unit
  {
  }

  lemma {:induction false} AccumulateScales(value: nat, buf: Buffer, from: nat, to: nat)
    requires from <= to <= |buf|
    ensures Accumulate(value, buf, from, to) == value * Power256(to - from) + Big(buf, from, to)
    decreases if from < to then to - from else 0
  {
    if from < to {
      var unit := Power256(to - from - 1);
      AccumulateScales(256 * value + buf[from], buf, from + 1, to);
      BigSplit(buf, from, to);
      Carry(value, buf[from], unit);
    }
  }

  // --------------------------------------------------------------- the marker bit

  /** The mask that marks a field of n bytes. */
  function Mask(n: nat): nat
    requires 1 <= n <= 8
  {
    match n
    case 1 => 0x80
    case 2 => 0x40
    case 3 => 0x20
    case 4 => 0x10
    case 5 => 0x08
    case 6 => 0x04
    case 7 => 0x02
    case 8 => 0x01
  }

  /** The byte has the mask's bit set. */
  predicate Marked(first: Byte, n: nat)
    requires 1 <= n <= 8
  {
    match n
    case 1 => (first / 0x80) % 2 == 1
    case 2 => (first / 0x40) % 2 == 1
    case 3 => (first / 0x20) % 2 == 1
    case 4 => (first / 0x10) % 2 == 1
    case 5 => (first / 0x08) % 2 == 1
    case 6 => (first / 0x04) % 2 == 1
    case 7 => (first / 0x02) % 2 == 1
    case 8 => first % 2 == 1
  }

  /** The bits below the mask. */
  function Unmarked(first: Byte, n: nat): nat
    requires 1 <= n <= 8
  {
    match n
    case 1 => first % 0x80
    case 2 => first % 0x40
    case 3 => first % 0x20
    case 4 => first % 0x10
    case 5 => first % 0x08
    case 6 => first % 0x04
    case 7 => first % 0x02
    case 8 => 0
  }

  /** The number of bytes a first byte announces: one more than its leading zero bits. */
  function Announced(first: Byte): (n: nat)
    ensures 1 <= n <= 9
    ensures n <= 8 <==> first > 0
    ensures n <= 8 ==> Mask(n) <= first < 2 * Mask(n)
  {
    if first >= 0x80 then 1
    else if first >= 0x40 then 2
    else if first >= 0x20 then 3
    else if first >= 0x10 then 4
    else if first >= 0x08 then 5
    else if first >= 0x04 then 6
    else if first >= 0x02 then 7
    else if first >= 0x01 then 8
    else 9
  }

  lemma FirstMark(first: Byte, n: nat)
    requires 1 <= n <= 8 && n <= Announced(first)
    ensures Marked(first, n) <==> n == Announced(first)
  {
  }

  lemma Unmask(first: Byte)
    requires first > 0
    ensures Unmarked(first, Announced(first)) == first - Mask(Announced(first))
  {
  }

  // ------------------------------------------------------------------ the writer

  /** Two to the number of value bits in a size field of n bytes. */
  function Capacity(n: nat): nat
    requires 1 <= n <= 8
  {
    match n
    case 1 => 0x80
    case 2 => 0x4000
    case 3 => 0x20_0000
    case 4 => 0x1000_0000
    case 5 => 0x8_0000_0000
    case 6 => 0x400_0000_0000
    case 7 => 0x2_0000_0000_0000
    case 8 => 0x100_0000_0000_0000
  }

  /** The marker bit stands just above the value bits, in the first byte. */
  lemma MarkerPlace(n: nat)
    requires 1 <= n <= 8
    ensures Capacity(n) == Mask(n) * Power256(n - 1) && 2 * Capacity(n) <= Power256(n)
  {
    assert Power256(0) == 1 && Power256(1) == 0x100 && Power256(2) == 0x1_0000;
    assert Power256(3) == 0x100_0000 && Power256(4) == 0x1_0000_0000;
    assert Power256(5) == 0x100_0000_0000 && Power256(6) == 0x1_0000_0000_0000;
    assert Power256(7) == 0x100_0000_0000_0000 && Power256(8) == 0x1_0000_0000_0000_0000;
  }

  /** The shortest field that fits a value, never the reserved all-ones one. */
  function VintLength(value: nat, n: nat): (r: Option<nat>)
    requires 1 <= n <= 9
    ensures r.Some? ==> n <= r.value <= 8 && value < Capacity(r.value) - 1
    ensures r.Some? ==> forall shorter :: n <= shorter < r.value ==> value >= Capacity(shorter) - 1
    ensures r.None? ==> forall any :: n <= any <= 8 ==> value >= Capacity(any) - 1
    decreases 9 - n
  {
    if n > 8 then None
    else if value < Capacity(n) - 1 then Some(n)
    else VintLength(value, n + 1)
  }

  /** The first value the writer refuses. */
  const VINT_LIMIT: nat := 0x100_0000_0000_0000 - 1

  /** None is the script's ValueError. */
  function Vint(value: nat): (r: Option<Buffer>)
    ensures r.Some? <==> value < VINT_LIMIT
    ensures r.Some? ==> 1 <= |r.value| <= 8
  {
    match VintLength(value, 1)
    case None => None
    case Some(n) => Some(BigEndian(value + Capacity(n), n))
  }

  method WriteVint(value: nat) returns (field: Option<Buffer>)
    ensures field == Vint(value)
    // The promise of the docstring: the shortest form, defined below 2^56 - 1.
    ensures field.Some? <==> value < VINT_LIMIT
    ensures field.Some? ==> 1 <= |field.value| <= 8
    ensures field.Some? ==> forall shorter :: 1 <= shorter < |field.value| ==> value >= Capacity(shorter) - 1
  {
    for n := 1 to 9
      invariant VintLength(value, 1) == VintLength(value, n)
      invariant forall shorter :: 1 <= shorter < n ==> value >= Capacity(shorter) - 1
    {
      if value < Capacity(n) - 1 {
        return Some(BigEndian(value + Capacity(n), n));
      }
    }
    return None;
  }

  lemma DigitTooSmall(first: nat, mask: nat, unit: nat, rest: nat)
    requires first < mask && rest < unit
    ensures first * unit + rest < mask * unit
  {
    assert (first + 1) * unit <= mask * unit;
  }

  lemma DigitTooLarge(first: nat, mask: nat, unit: nat)
    requires first >= 2 * mask
    ensures first * unit >= 2 * (mask * unit)
  {
    assert first * unit >= (2 * mask) * unit;
  }

  lemma DigitOf(v: nat, first: nat, mask: nat, unit: nat, rest: nat)
    requires v == first * unit + rest && rest < unit
    requires mask * unit <= v < 2 * (mask * unit)
    ensures mask <= first < 2 * mask
  {
    if first < mask {
      DigitTooSmall(first, mask, unit, rest);
    } else if first >= 2 * mask {
      DigitTooLarge(first, mask, unit);
    }
  }

  /** A marked value's first byte announces the field's own length. */
  lemma MarkedField(v: nat, n: nat)
    requires 1 <= n <= 8 && Capacity(n) <= v < 2 * Capacity(n)
    ensures Announced(BigEndian(v, n)[0]) == n
    ensures Big(BigEndian(v, n), 0, n) == v
  {
    var bytes, unit := BigEndian(v, n), Power256(n - 1);
    MarkerPlace(n);
    BigEndianValue(v, n);
    BigSplit(bytes, 0, n);
    BigBounded(bytes, 1, n);
    DigitOf(v, bytes[0], Mask(n), unit, Big(bytes, 1, n));
  }

  lemma VintForm(value: nat)
    requires value < VINT_LIMIT
    ensures var field := Vint(value).value;
            && Announced(field[0]) == |field|
            && Big(field, 0, |field|) == value + Capacity(|field|)
  {
    var n := VintLength(value, 1).value;
    MarkedField(value + Capacity(n), n);
  }

  // ------------------------------------------------------------------ the readers

  /** A Python slice's end, cut short at the end of the buffer. */
  function Cut(buf: Buffer, to: nat): (r: nat)
    ensures r <= |buf| && r <= to && (to <= |buf| ==> r == to)
  {
    if to <= |buf| then to else |buf|
  }

  datatype Field = Field(value: nat, length: nat)

  /** An id keeps its marker. None is an error: no bytes left, or no mark within four. */
  function ReadId(buf: Buffer, off: nat): (r: Option<Field>)
    ensures r.Some? ==> 1 <= r.value.length <= 4
  {
    if off >= |buf| || Announced(buf[off]) > 4 then None
    else
      var n := Announced(buf[off]);
      Some(Field(Big(buf, off, Cut(buf, off + n)), n))
  }

  /** A size drops its marker. */
  function ReadSize(buf: Buffer, off: nat): (r: Option<Field>)
    ensures r.Some? ==> 1 <= r.value.length <= 8
  {
    if off >= |buf| || Announced(buf[off]) > 8 then None
    else
      var n := Announced(buf[off]);
      Some(Field(Accumulate(Unmarked(buf[off], n), buf, off + 1, Cut(buf, off + n)), n))
  }

  method FindId(buf: Buffer, off: nat) returns (field: Option<Field>)
    ensures field == ReadId(buf, off)
  {
    if off >= |buf| {
      return None;
    }
    var first := buf[off];
    for n := 1 to 5
      invariant n <= Announced(first)
    {
      FirstMark(first, n);
      if Marked(first, n) {
        return Some(Field(Big(buf, off, Cut(buf, off + n)), n));
      }
    }
    return None;
  }

  method FindSize(buf: Buffer, off: nat) returns (field: Option<Field>)
    ensures field == ReadSize(buf, off)
  {
    if off >= |buf| {
      return None;
    }
    var first := buf[off];
    for n := 1 to 9
      invariant n <= Announced(first)
    {
      FirstMark(first, n);
      if Marked(first, n) {
        var value: nat := Unmarked(first, n);
        var end := Cut(buf, off + n);
        for k := off + 1 to end
          invariant Accumulate(value, buf, k, end) == Accumulate(Unmarked(first, n), buf, off + 1, end)
        {
          value := 256 * value + buf[k];
        }
        return Some(Field(value, n));
      }
    }
    return None;
  }

  lemma AtSplit(buf: Buffer, off: nat, a: Buffer, b: Buffer)
    requires At(buf, off, a + b)
    ensures At(buf, off, a) && At(buf, off + |a|, b)
  {
    forall k | 0 <= k < |a|
      ensures buf[off + k] == a[k]
    {
      assert (a + b)[k] == a[k];
    }
    forall k | 0 <= k < |b|
      ensures buf[off + |a| + k] == b[k]
    {
      assert (a + b)[|a| + k] == b[k];
    }
  }

  lemma DropMarker(first: nat, mask: nat, unit: nat, rest: nat, value: nat)
    requires mask <= first && first * unit + rest == value + mask * unit
    ensures (first - mask) * unit + rest == value
  {
    assert (first - mask) * unit == first * unit - mask * unit;
  }

  /** Reading undoes writing, for every value the writer accepts and wherever in a
      buffer the field stands. */
  lemma ReadSizeUndoesVint(buf: Buffer, off: nat, value: nat)
    requires value < VINT_LIMIT && At(buf, off, Vint(value).value)
    ensures ReadSize(buf, off) == Some(Field(value, |Vint(value).value|))
  {
    var field := Vint(value).value;
    VintForm(value);
    ReadMarked(buf, off, field, value);
  }

  lemma ReadMarked(buf: Buffer, off: nat, field: Buffer, value: nat)
    requires 1 <= |field| <= 8 && At(buf, off, field)
    requires Announced(field[0]) == |field| && Big(field, 0, |field|) == value + Capacity(|field|)
    ensures ReadSize(buf, off) == Some(Field(value, |field|))
  {
    var n, first := |field|, field[0];
    assert buf[off] == first;
    BigAt(buf, off, field, 0, n);
    BigSplit(buf, off, off + n);
    MarkerPlace(n);
    Unmask(first);
    DropMarker(first, Mask(n), Power256(n - 1), Big(buf, off + 1, off + n), value);
    AccumulateScales(first - Mask(n), buf, off + 1, off + n);
  }

  // -------------------------------------------------------------------- elements

  /** An element as it is written: its id bytes and its payload. */
  datatype Element = Element(id: Buffer, payload: Buffer)

  /** An id whose first byte announces its own length. */
  predicate ValidId(id: Buffer) {
    1 <= |id| <= 4 && Announced(id[0]) == |id|
  }

  predicate Writable(e: Element) {
    ValidId(e.id) && |e.payload| < VINT_LIMIT
  }

  function Written(e: Element): (r: Buffer)
    requires Writable(e)
  {
    e.id + Vint(|e.payload|).value + e.payload
  }

  function AllWritten(es: seq<Element>): Buffer
    requires forall e :: e in es ==> Writable(e)
  {
    if es == [] then [] else Written(es[0]) + AllWritten(es[1..])
  }

  /** What `children` yields of one element. */
  datatype Kid = Kid(off: nat, id: nat, header: nat, size: nat)

  function KidAt(buf: Buffer, off: nat): (r: Option<Kid>)
    ensures r.Some? ==> r.value.off == off && 2 <= r.value.header <= 12
  {
    match ReadId(buf, off)
    case None => None
    case Some(id) =>
      match ReadSize(buf, off + id.length)
      case None => None
      case Some(size) => Some(Kid(off, id.value, id.length + size.length, size.value))
  }

  lemma KidOf(buf: Buffer, off: nat, id: Field, size: Field)
    requires ReadId(buf, off) == Some(id) && ReadSize(buf, off + id.length) == Some(size)
    ensures KidAt(buf, off) == Some(Kid(off, id.value, id.length + size.length, size.value))
  {
  }

  function After(k: Kid): nat {
    k.off + k.header + k.size
  }

  function Prepend(found: seq<Kid>, rest: Option<seq<Kid>>): Option<seq<Kid>> {
    match rest case None => None case Some(kids) => Some(found + kids)
  }

  lemma PrependTwice(found: seq<Kid>, k: Kid, rest: Option<seq<Kid>>)
    ensures Prepend(found, Prepend([k], rest)) == Prepend(found + [k], rest)
  {
    if rest.Some? {
      assert found + ([k] + rest.value) == (found + [k]) + rest.value;
    }
  }

  /** None when a header cannot be read: the generator raises. */
  function Children(buf: Buffer, off: nat, end: nat): Option<seq<Kid>>
    decreases end - off
  {
    if off >= end then Some([])
    else
      match KidAt(buf, off)
      case None => None
      case Some(k) => Prepend([k], Children(buf, After(k), end))
  }

  method FindKid(buf: Buffer, off: nat) returns (kid: Option<Kid>)
    ensures kid == KidAt(buf, off)
  {
    var id := FindId(buf, off);
    if id.None? {
      return None;
    }
    var size := FindSize(buf, off + id.value.length);
    if size.None? {
      return None;
    }
    KidOf(buf, off, id.value, size.value);
    return Some(Kid(off, id.value.value, id.value.length + size.value.length, size.value.value));
  }

  method ListChildren(buf: Buffer, start: nat, end: nat) returns (kids: Option<seq<Kid>>)
    ensures kids == Children(buf, start, end)
  {
    var off: nat, found: seq<Kid> := start, [];
    assert Children(buf, start, end) == Prepend([], Children(buf, start, end)) by {
      if Children(buf, start, end).Some? {
        assert [] + Children(buf, start, end).value == Children(buf, start, end).value;
      }
    }
    while off < end
      invariant Children(buf, start, end) == Prepend(found, Children(buf, off, end))
      decreases end - off
    {
      var kid := FindKid(buf, off);
      if kid.None? {
        return None;
      }
      PrependTwice(found, kid.value, Children(buf, After(kid.value), end));
      found := found + [kid.value];
      off := After(kid.value);
    }
    assert found + [] == found;
    return Some(found);
  }

  /** What reading a written element at an offset should give. */
  function Read(e: Element, off: nat): (r: Kid)
    requires Writable(e)
    ensures After(r) == off + |Written(e)|
  {
    Kid(off, Big(e.id, 0, |e.id|), |e.id| + |Vint(|e.payload|).value|, |e.payload|)
  }

  /** Where and what the written elements are. */
  function Laid(es: seq<Element>, off: nat): seq<Kid>
    requires forall e :: e in es ==> Writable(e)
  {
    if es == [] then []
    else
      [Read(es[0], off)] + Laid(es[1..], off + |Written(es[0])|)
  }

  lemma ReadsHeader(buf: Buffer, off: nat, id: Buffer, size: Field)
    requires ValidId(id) && At(buf, off, id)
    requires ReadSize(buf, off + |id|) == Some(size)
    ensures KidAt(buf, off) == Some(Kid(off, Big(id, 0, |id|), |id| + size.length, size.value))
  {
    assert buf[off] == id[0];
    BigAt(buf, off, id, 0, |id|);
    KidOf(buf, off, Field(Big(id, 0, |id|), |id|), size);
  }

  lemma ReadsWritten(buf: Buffer, off: nat, e: Element)
    requires Writable(e) && At(buf, off, Written(e))
    ensures KidAt(buf, off) == Some(Read(e, off))
  {
    var field := Vint(|e.payload|).value;
    AtSplit(buf, off, e.id + field, e.payload);
    AtSplit(buf, off, e.id, field);
    ReadSizeUndoesVint(buf, off + |e.id|, |e.payload|);
    ReadsHeader(buf, off, e.id, Field(|e.payload|, |field|));
  }

  lemma ChildrenStep(buf: Buffer, off: nat, end: nat, k: Kid, rest: seq<Kid>)
    requires off < end && KidAt(buf, off) == Some(k) && Children(buf, After(k), end) == Some(rest)
    ensures Children(buf, off, end) == Some([k] + rest)
  {
  }

  lemma ReadThenRest(buf: Buffer, off: nat, end: nat, k: Kid, next: nat, rest: seq<Kid>)
    requires off < next <= end && KidAt(buf, off) == Some(k) && After(k) == next && Children(buf, next, end) == Some(rest)
    ensures Children(buf, off, end) == Some([k] + rest)
  {
    ChildrenStep(buf, off, end, k, rest);
  }

  lemma AfterRead(e: Element, off: nat)
    requires Writable(e)
    ensures After(Read(e, off)) == off + |Written(e)|
  {
  }

  lemma HeadWritten(buf: Buffer, off: nat, e: Element, rest: Buffer)
    requires Writable(e) && At(buf, off, Written(e) + rest)
    ensures KidAt(buf, off) == Some(Read(e, off)) && At(buf, off + |Written(e)|, rest)
  {
    AtSplit(buf, off, Written(e), rest);
    ReadsWritten(buf, off, e);
  }

  lemma WrittenStep(es: seq<Element>)
    requires es != [] && forall e :: e in es ==> Writable(e)
    ensures forall e :: e in es[1..] ==> Writable(e)
    ensures AllWritten(es) == Written(es[0]) + AllWritten(es[1..])
  {
  }

  lemma LaidStep(es: seq<Element>, off: nat, rest: seq<Element>, next: nat)
    requires es != [] && rest == es[1..] && (forall e :: e in es ==> Writable(e)) && (forall e :: e in rest ==> Writable(e))
    requires next == off + |Written(es[0])|
    ensures Laid(es, off) == [Read(es[0], off)] + Laid(rest, next)
  {
  }

  /** Parsing undoes writing: any list of elements, anywhere in a buffer, is read back
      as exactly those elements at exactly their offsets. */
  lemma {:induction false} ChildrenUndoElements(buf: Buffer, off: nat, es: seq<Element>, end: nat)
    requires forall e :: e in es ==> Writable(e)
    requires At(buf, off, AllWritten(es)) && end == off + |AllWritten(es)|
    ensures Children(buf, off, end) == Some(Laid(es, off))
    decreases |es|
  {
    if es == [] {
      assert Children(buf, off, off) == Some([]);
    } else {
      WrittenStep(es);
      var rest, next := es[1..], off + |Written(es[0])|;
      HeadWritten(buf, off, es[0], AllWritten(rest));
      AfterRead(es[0], off);
      ChildrenUndoElements(buf, next, rest, end);
      ReadThenRest(buf, off, end, Read(es[0], off), next, Laid(rest, next));
      LaidStep(es, off, rest, next);
    }
  }
}
