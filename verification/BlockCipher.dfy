// Block-by-block encryption with PKCS#7 padding, over any invertible block cipher.

module BlockCipher {
  import opened Wrappers

  type Bytes = seq<Byte>

  const BLOCK: nat := 16

  /** One block enciphered, and deciphered. */
  datatype Cipher = Cipher(seal: Bytes -> Bytes, open: Bytes -> Bytes)

  ghost predicate Invertible(c: Cipher) {
    forall block: Bytes :: |block| == BLOCK ==>
      |c.seal(block)| == BLOCK && |c.open(block)| == BLOCK && c.open(c.seal(block)) == block
  }

  /** Every block of a buffer in turn. */
  function Map(f: Bytes -> Bytes, data: Bytes): Bytes {
    if |data| < BLOCK then data else f(data[..BLOCK]) + Map(f, data[BLOCK..])
  }

  function Padded(data: Bytes): (r: Bytes)
    ensures |r| % BLOCK == 0 && |data| < |r| <= |data| + BLOCK
    ensures data <= r && forall k :: |data| <= k < |r| ==> r[k] as int == |r| - |data|
  {
    var pad := BLOCK - |data| % BLOCK;
    data + seq(pad, (i: nat) => pad as Byte)
  }

  datatype Failure = BadLength | BadPadding

  function Encrypted(c: Cipher, data: Bytes): Bytes {
    Map(c.seal, Padded(data))
  }

  function Stripped(buf: Bytes): Result<Bytes, Failure>
    requires buf != []
  {
    var pad := buf[|buf| - 1];
    if 1 <= pad <= BLOCK && pad <= |buf| then Ok(buf[..|buf| - pad]) else Err(BadPadding)
  }

  function Decrypted(c: Cipher, data: Bytes): Result<Bytes, Failure> {
    if |data| % BLOCK != 0 || data == [] then Err(BadLength)
    else if Map(c.open, data) == [] then Err(BadPadding)
    else Stripped(Map(c.open, data))
  }

  lemma {:induction false} MapKeepsLength(f: Bytes -> Bytes, data: Bytes)
    requires forall block: Bytes :: |block| == BLOCK ==> |f(block)| == BLOCK
    ensures |Map(f, data)| == |data|
    decreases |data|
  {
    if |data| >= BLOCK {
      MapKeepsLength(f, data[BLOCK..]);
    }
  }

  method Overwrite(buf: array<Byte>, at: nat, chunk: Bytes)
    requires at + |chunk| <= buf.Length
    modifies buf
    ensures buf[..] == old(buf[..at]) + chunk + old(buf[at + |chunk|..])
  {
    for k := 0 to |chunk|
      invariant buf[..at] == old(buf[..at]) && buf[at..at + k] == chunk[..k]
      invariant buf[at + |chunk|..] == old(buf[at + |chunk|..])
    {
      buf[at + k] := chunk[k];
    }
    assert buf[..] == buf[..at] + buf[at..at + |chunk|] + buf[at + |chunk|..];
  }

  predicate Whole(n: nat) {
    n % BLOCK == 0
  }

  lemma NextBlock(i: nat, n: nat)
    requires Whole(i) && Whole(n) && i < n
    ensures Whole(i + BLOCK) && i + BLOCK <= n
  {
  }

  lemma SplitAt(now: Bytes, done: Bytes, was: Bytes, i: nat)
    requires i + BLOCK <= |was| && |done| == i && now == done + was[i..]
    ensures now[..i] == done && now[i..i + BLOCK] == was[i..][..BLOCK] && now[i + BLOCK..] == was[i + BLOCK..]
  {
  }

  /** The loop over the chunks of a buffer that it changes in place. */
  method MapInPlace(f: Bytes -> Bytes, buf: array<Byte>)
    requires Whole(buf.Length)
    requires forall block: Bytes :: |block| == BLOCK ==> |f(block)| == BLOCK
    modifies buf
    ensures buf[..] == Map(f, old(buf[..]))
  {
    ghost var was := buf[..];
    ghost var done: Bytes := [];
    var i := 0;
    assert done + was[i..] == was && was[i..] == was && [] + Map(f, was) == Map(f, was);
    while i < buf.Length
      invariant 0 <= i <= buf.Length && Whole(i) && |done| == i
      invariant buf[..] == done + was[i..]
      invariant done + Map(f, was[i..]) == Map(f, was)
    {
      NextBlock(i, buf.Length);
      SplitAt(buf[..], done, was, i);
      assert buf[i..i + BLOCK] == buf[..][i..i + BLOCK];
      var chunk := f(buf[i..i + BLOCK]);
      BlockStep(f, was, i);
      assert buf[..i] == buf[..][..i] && buf[i + BLOCK..] == buf[..][i + BLOCK..];
      Overwrite(buf, i, chunk);
      Associate(done, chunk, Map(f, was[i + BLOCK..]));
      done := done + chunk;
      i := i + BLOCK;
    }
    assert was[i..] == [] && done + [] == done;
  }

  lemma Associate(a: Bytes, b: Bytes, c: Bytes)
    ensures (a + b) + c == a + (b + c)
  {
  }

  lemma BlockStep(f: Bytes -> Bytes, data: Bytes, i: nat)
    requires i + BLOCK <= |data|
    ensures Map(f, data[i..]) == f(data[i..][..BLOCK]) + Map(f, data[i + BLOCK..])
  {
    assert data[i..][BLOCK..] == data[i + BLOCK..];
  }

  lemma {:induction false} MapUndone(c: Cipher, data: Bytes)
    requires Invertible(c) && |data| % BLOCK == 0
    ensures Map(c.open, Map(c.seal, data)) == data
    decreases |data|
  {
    if |data| >= BLOCK {
      var first, rest := data[..BLOCK], data[BLOCK..];
      MapUndone(c, rest);
      var sealed := c.seal(first) + Map(c.seal, rest);
      assert sealed[..BLOCK] == c.seal(first) && sealed[BLOCK..] == Map(c.seal, rest);
      assert first + rest == data;
    }
  }

  /** Decryption undoes encryption for every message, the empty one and those that
      already fill their last block included. */
  lemma DecryptUndoesEncrypt(c: Cipher, data: Bytes)
    requires Invertible(c)
    ensures |Encrypted(c, data)| % BLOCK == 0 && |data| < |Encrypted(c, data)| <= |data| + BLOCK
    ensures Decrypted(c, Encrypted(c, data)) == Ok(data)
  {
    MapKeepsLength(c.seal, Padded(data));
    MapUndone(c, Padded(data));
    var buf := Padded(data);
    assert buf[..|buf| - buf[|buf| - 1]] == data;
  }

  lemma {:induction false} MapLast(f: Bytes -> Bytes, data: Bytes)
    requires forall block: Bytes :: |block| == BLOCK ==> |f(block)| == BLOCK
    requires |data| % BLOCK == 0 && data != []
    ensures |Map(f, data)| == |data| && Map(f, data)[|data| - BLOCK..] == f(data[|data| - BLOCK..])
    decreases |data|
  {
    var rest := data[BLOCK..];
    MapKeepsLength(f, data);
    if rest == [] {
      assert data[..BLOCK] == data == data[|data| - BLOCK..] && Map(f, rest) == [];
    } else {
      MapLast(f, rest);
      assert data[|data| - BLOCK..] == rest[|rest| - BLOCK..];
      assert Map(f, data)[|data| - BLOCK..] == Map(f, rest)[|rest| - BLOCK..];
    }
  }

  /** What decryption refuses: a length that is not whole blocks, or a last block whose
      last byte, deciphered, names no padding. Nothing else of the data matters. */
  lemma RefusedExactly(c: Cipher, data: Bytes)
    requires Invertible(c)
    ensures Decrypted(c, data) == Err(BadLength) <==> |data| % BLOCK != 0 || data == []
    ensures |data| % BLOCK == 0 && data != [] ==>
              (Decrypted(c, data) == Err(BadPadding) <==>
                 !(1 <= c.open(data[|data| - BLOCK..])[BLOCK - 1] <= BLOCK))
  {
    if |data| % BLOCK == 0 && data != [] {
      MapLast(c.open, data);
      assert Map(c.open, data)[|data| - 1] == Map(c.open, data)[|data| - BLOCK..][BLOCK - 1];
    }
  }
}
