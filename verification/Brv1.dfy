/**
 The BRV1 chunked stream format (internal/backupcrypto/crypto.go).

 The AEAD is ideal: a table from (passphrase, salt, nonce) to the plaintext
 sealed there and the ciphertext handed out. Opening succeeds only on the
 stored ciphertext. Sealing demands an unused nonce, so the nonce uniqueness
 that section 8 of NIST SP 800-38D requires is an obligation of the encoder.
 */
module Brv1 {
  import opened Wrappers

  type byte = b: int | 0 <= b < 256
  type bytes = seq<byte>

  const MAGIC: bytes := [0x42, 0x52, 0x56, 0x31]
  const VERSION: byte := 1
  const ALGORITHM: byte := 1
  const HEADER_SIZE := 32
  const TAG_SIZE := 16
  const MAX_CHUNK_LOG2 := 24
  const MAX_CHUNKS := 0x100_0000

  function Pow2(e: nat): (p: nat)
    ensures p >= 1
  {
    if e == 0 then 1 else 2 * Pow2(e - 1)
  }

  /** nonce[8..11]: the 24-bit big-endian counter and the final flag. */
  function CounterBytes(counter: nat, final: bool): (b: bytes)
    requires counter < MAX_CHUNKS
    ensures |b| == 4
  {
    [counter / 65536, counter / 256 % 256, counter % 256, if final then 1 else 0]
  }

  function Nonce(prefix: bytes, counter: nat, final: bool): (n: bytes)
    requires |prefix| == 8 && counter < MAX_CHUNKS
    ensures |n| == 12
  {
    prefix + CounterBytes(counter, final)
  }

  lemma NonceInjective(p: bytes, c: nat, f: bool, p': bytes, c': nat, f': bool)
    requires |p| == 8 && |p'| == 8 && c < MAX_CHUNKS && c' < MAX_CHUNKS
    requires Nonce(p, c, f) == Nonce(p', c', f')
    ensures p == p' && c == c' && f == f'
  {
    var n, n' := Nonce(p, c, f), Nonce(p', c', f');
    assert p == n[..8] && p' == n'[..8];
    assert CounterBytes(c, f) == n[8..] && CounterBytes(c', f') == n'[8..];
    assert c / 65536 == n[8] == c' / 65536 && c / 256 % 256 == n[9] == c' / 256 % 256 && c % 256 == n[10] == c' % 256;
    assert n[11] == (if f then 1 else 0) && n[11] == (if f' then 1 else 0);
  }

  function BuildHeader(chunkLog2: nat, salt: bytes, prefix: bytes): (h: bytes)
    requires chunkLog2 < 65536 && |salt| == 16 && |prefix| == 8
    ensures |h| == HEADER_SIZE
  {
    MAGIC + [VERSION, ALGORITHM, chunkLog2 / 256, chunkLog2 % 256] + salt + prefix
  }

  /** The 32 bytes of a header, one by one. */
  lemma HeaderBytes(chunkLog2: nat, salt: bytes, prefix: bytes)
    requires chunkLog2 < 65536 && |salt| == 16 && |prefix| == 8
    ensures var h := BuildHeader(chunkLog2, salt, prefix);
            && |h| == 32 && h[0] == 0x42 && h[1] == 0x52 && h[2] == 0x56 && h[3] == 0x31
            && h[4] == 1 && h[5] == 1 && h[6] as int * 256 + h[7] as int == chunkLog2
            && (forall i | 0 <= i < 16 :: h[8 + i] == salt[i]) && (forall i | 0 <= i < 8 :: h[24 + i] == prefix[i])
  {
    var h := BuildHeader(chunkLog2, salt, prefix);
    assert h[8..24] == salt && h[24..32] == prefix;
    assert forall i | 0 <= i < 16 :: h[8 + i] == h[8..24][i];
    assert forall i | 0 <= i < 8 :: h[24 + i] == h[24..32][i];
  }

  // ------------------------------------------------------------- ideal AEAD

  datatype Slot = Slot(passphrase: bytes, salt: bytes, nonce: bytes)
  datatype Sealed = Sealed(plain: bytes, cipher: bytes)
  type Table = map<Slot, Sealed>

  function Open(table: Table, slot: Slot, cipher: bytes): (r: Option<bytes>)
  {
    if slot in table && table[slot].cipher == cipher then Some(table[slot].plain) else None
  }

  // ------------------------------------------------------------- chunking

  /** The read-one-ahead split: full chunks, then one last chunk of what is left. */
  function Chunks(data: bytes, size: nat): (cs: seq<bytes>)
    requires size >= 1
    ensures |cs| >= 1
    decreases |data|
  {
    if |data| <= size then [data] else [data[..size]] + Chunks(data[size..], size)
  }

  function Flatten(cs: seq<bytes>): (b: bytes)
  {
    if cs == [] then [] else cs[0] + Flatten(cs[1..])
  }

  lemma Assoc(a: bytes, b: bytes, c: bytes)
    ensures a + b + c == a + (b + c)
  {
  }

  lemma {:induction false} FlattenAppend(cs: seq<bytes>, c: bytes)
    ensures Flatten(cs + [c]) == Flatten(cs) + c
  {
    if cs == [] {
      assert [c][1..] == [];
    } else {
      assert (cs + [c])[1..] == cs[1..] + [c];
      FlattenAppend(cs[1..], c);
      assert cs[0] + (Flatten(cs[1..]) + c) == cs[0] + Flatten(cs[1..]) + c;
    }
  }

  /** Every chunk but the last is full, the last is empty only for empty input, and nothing is lost. */
  ghost predicate WellCut(cs: seq<bytes>, data: bytes, size: nat) {
    && |cs| >= 1 && Flatten(cs) == data
    && (forall i | 0 <= i < |cs| - 1 :: |cs[i]| == size)
    && |cs[|cs| - 1]| <= size
    && (cs[|cs| - 1] == [] <==> data == [])
  }

  lemma {:induction false} ChunkShape(data: bytes, size: nat)
    requires size >= 1
    ensures WellCut(Chunks(data, size), data, size)
    decreases |data|
  {
    var cs := Chunks(data, size);
    if |data| <= size {
      assert cs[1..] == [];
    } else {
      var rest := Chunks(data[size..], size);
      ChunkShape(data[size..], size);
      assert cs[1..] == rest;
      assert data[..size] + data[size..] == data;
      forall i | 0 <= i < |cs| - 1 ensures |cs[i]| == size {
        if i > 0 { assert cs[i] == rest[i - 1]; }
      }
      assert cs[|cs| - 1] == rest[|rest| - 1];
    }
  }

  lemma DivStep(n: nat, c: nat)
    requires 1 <= c < n
    ensures (n + c - 1) / c == 1 + (n - c + c - 1) / c
  {
    var q, r := (n - 1) / c, (n - 1) % c;
    assert n - 1 == q * c + r;
    assert n + c - 1 == (q + 1) * c + r;
    assert (n + c - 1) / c == q + 1 by { DivUnique(n + c - 1, c, q + 1, r); }
  }

  lemma MulDistributes(x: nat, y: nat, c: nat)
    ensures (x + y) * c == x * c + y * c
    ensures y >= 1 ==> y * c >= c
  {
  }

  lemma DivUnique(a: nat, c: nat, q: nat, r: nat)
    requires c >= 1 && a == q * c + r && r < c
    ensures a / c == q
  {
    var q', r' := a / c, a % c;
    assert a == q' * c + r' && r' < c;
    if q' < q { MulDistributes(q', q - q', c); }
    if q < q' { MulDistributes(q, q' - q, c); }
  }

  /** The number of chunks: the quotient rounded up, and one for empty input. */
  lemma {:induction false} ChunkCount(data: bytes, size: nat)
    requires size >= 1
    ensures |Chunks(data, size)| == (if data == [] then 1 else (|data| + size - 1) / size)
    decreases |data|
  {
    if data == [] {
    } else if |data| <= size {
      DivUnique(|data| + size - 1, size, 1, |data| - 1);
    } else {
      ChunkCount(data[size..], size);
      DivStep(|data|, size);
    }
  }
}
