/**
 What Decrypt accepts (internal/backupcrypto/crypto.go:266-368), stated as a
 function of the stream and of the ideal AEAD's table, and proved both ways:
 it undoes the encoder, and it accepts nothing else.
 */
module Brv1Security {
  import opened Wrappers
  import opened Brv1

  datatype CryptoError =
    | EmptyPassphrase | MagicMismatch | UnsupportedVersion | UnsupportedAlgorithm | ChunkTooLarge
    | Truncated | CounterExhausted | ChunkNotAuthentic | TrailingData

  type Decoded = Result<bytes, CryptoError>

  /** The chunk under the non-final nonce, else under the final one, and which of the two it was. */
  function TryOpen(table: Table, passphrase: bytes, salt: bytes, prefix: bytes, counter: nat, chunk: bytes): (r: Option<(bytes, bool)>)
    requires |prefix| == 8 && counter < MAX_CHUNKS
  {
    match Open(table, Slot(passphrase, salt, Nonce(prefix, counter, false)), chunk)
    case Some(p) => Some((p, false))
    case None =>
      match Open(table, Slot(passphrase, salt, Nonce(prefix, counter, true)), chunk)
      case Some(p) => Some((p, true))
      case None => None
  }

  /** A decoder result with earlier plaintext in front. */
  function Prepend(plain: bytes, r: Decoded): (s: Decoded)
  {
    if r.Ok? then Ok(plain + r.value) else r
  }

  /** How many bytes the decoder reads for its next chunk. */
  function NextLength(body: bytes, size: nat): (n: nat)
    ensures n <= |body|
  {
    if |body| < size + TAG_SIZE then |body| else size + TAG_SIZE
  }

  /** The decoder loop from chunk number counter on; size is the header's chunk size. */
  function DecodeFrom(table: Table, passphrase: bytes, salt: bytes, prefix: bytes, size: nat, body: bytes, counter: nat): (r: Decoded)
    requires |prefix| == 8 && counter <= MAX_CHUNKS
    decreases |body|
  {
    var n := NextLength(body, size);
    if counter == MAX_CHUNKS then Err(CounterExhausted)
    else if n < TAG_SIZE then Err(Truncated)
    else match TryOpen(table, passphrase, salt, prefix, counter, body[..n])
      case None => Err(ChunkNotAuthentic)
      case Some((p, true)) => if body[n..] != [] then Err(TrailingData) else Ok(p)
      case Some((p, false)) => Prepend(p, DecodeFrom(table, passphrase, salt, prefix, size, body[n..], counter + 1))
  }

  function DecodeHeader(stream: bytes): (r: Result<(nat, bytes, bytes), CryptoError>)
    ensures r.Ok? ==> 1 <= r.value.0 <= MAX_CHUNK_LOG2 && |r.value.1| == 16 && |r.value.2| == 8 && |stream| >= HEADER_SIZE
  {
    if |stream| < HEADER_SIZE || stream[..4] != MAGIC then Err(MagicMismatch)
    else if stream[4] != VERSION then Err(UnsupportedVersion)
    else if stream[5] != ALGORITHM then Err(UnsupportedAlgorithm)
    else
      var high: int, low: int := stream[6], stream[7];
      var chunkLog2 := high * 256 + low;
      if chunkLog2 == 0 || chunkLog2 > MAX_CHUNK_LOG2 then Err(ChunkTooLarge)
      else Ok((chunkLog2, stream[8..24], stream[24..32]))
  }

  function Decrypt(table: Table, passphrase: bytes, stream: bytes): (r: Decoded)
  {
    if passphrase == [] then Err(EmptyPassphrase)
    else match DecodeHeader(stream)
      case Err(e) => Err(e)
      case Ok((chunkLog2, salt, prefix)) =>
        DecodeFrom(table, passphrase, salt, prefix, Pow2(chunkLog2), stream[HEADER_SIZE..], 0)
  }

  /** Which refusal the first 32 bytes earn, the checks in the order they are made; all others are accepted. */
  lemma HeaderRefusals(table: Table, passphrase: bytes, stream: bytes)
    ensures Decrypt(table, passphrase, stream) == Err(EmptyPassphrase) <==> |passphrase| == 0
    ensures |passphrase| > 0 ==>
            (Decrypt(table, passphrase, stream) == Err(MagicMismatch) <==>
             |stream| < 32 || stream[0] != 0x42 || stream[1] != 0x52 || stream[2] != 0x56 || stream[3] != 0x31)
    ensures |passphrase| > 0 && |stream| >= 32 && Magical(stream) ==>
            && (Decrypt(table, passphrase, stream) == Err(UnsupportedVersion) <==> stream[4] != 1)
            && (Decrypt(table, passphrase, stream) == Err(UnsupportedAlgorithm) <==> stream[4] == 1 && stream[5] != 1)
            && (Decrypt(table, passphrase, stream) == Err(ChunkTooLarge) <==>
                stream[4] == 1 && stream[5] == 1 && !(1 <= stream[6] as int * 256 + stream[7] as int <= 24))
  {
    if |stream| >= 32 {
      assert stream[..4] == [stream[0], stream[1], stream[2], stream[3]];
    }
    if |passphrase| > 0 && DecodeHeader(stream).Ok? {
      var (e, salt, prefix) := DecodeHeader(stream).value;
      BodyErrors(table, passphrase, salt, prefix, Pow2(e), stream[HEADER_SIZE..], 0);
    }
  }

  predicate Magical(stream: bytes)
    requires |stream| >= 4
  {
    stream[0] == 0x42 && stream[1] == 0x52 && stream[2] == 0x56 && stream[3] == 0x31
  }

  /** Reading the body fails in four ways only. */
  lemma {:induction false} BodyErrors(table: Table, passphrase: bytes, salt: bytes, prefix: bytes, size: nat, body: bytes, c: nat)
    requires |prefix| == 8 && c <= MAX_CHUNKS
    ensures var r := DecodeFrom(table, passphrase, salt, prefix, size, body, c);
            r.Err? ==> r.error == Truncated || r.error == CounterExhausted || r.error == ChunkNotAuthentic || r.error == TrailingData
    decreases |body|
  {
    var n := NextLength(body, size);
    if c < MAX_CHUNKS && n >= TAG_SIZE {
      BodyErrors(table, passphrase, salt, prefix, size, body[n..], c + 1);
    }
  }

  /** A header that decodes says where its fields are; a full read of them is all it takes. */
  lemma HeaderAccepted(stream: bytes)
    ensures DecodeHeader(stream).Ok? <==>
            |stream| >= 32 && Magical(stream) && stream[4] == 1 && stream[5] == 1 && 1 <= stream[6] as int * 256 + stream[7] as int <= 24
    ensures DecodeHeader(stream).Ok? ==> DecodeHeader(stream).value == (stream[6] as int * 256 + stream[7] as int, stream[8..24], stream[24..32])
  {
    if |stream| >= 32 {
      assert stream[..4] == [stream[0], stream[1], stream[2], stream[3]];
    }
  }

  // ------------------------------------------------ what one encryption leaves

  /** One encrypted file: its key material, nonce prefix, chunks and their ciphertexts. */
  datatype File = File(passphrase: bytes, salt: bytes, prefix: bytes, chunks: seq<bytes>, ciphers: seq<bytes>)
  {
    ghost predicate WellFormed() {
      |salt| == 16 && |prefix| == 8 && 1 <= |chunks| == |ciphers| <= MAX_CHUNKS
    }

    /** The slot chunk i was sealed in; only the last one carries the final flag. */
    function SlotOf(i: nat): Slot
      requires |prefix| == 8 && i < |chunks| && |chunks| <= MAX_CHUNKS
    {
      Slot(passphrase, salt, Nonce(prefix, i, i == |chunks| - 1))
    }
  }

  /** The table holds every chunk of the file in its slot. */
  ghost predicate Stored(table: Table, f: File)
    requires f.WellFormed()
  {
    forall i | 0 <= i < |f.chunks| ::
      && f.SlotOf(i) in table && table[f.SlotOf(i)] == Sealed(f.chunks[i], f.ciphers[i])
      && |f.ciphers[i]| == |f.chunks[i]| + TAG_SIZE
  }

  /** Under the file's key nothing else was ever sealed. */
  ghost predicate NothingElse(table: Table, f: File)
    requires f.WellFormed()
  {
    forall slot | slot in table && slot.passphrase == f.passphrase && slot.salt == f.salt ::
      exists i :: 0 <= i < |f.chunks| && slot == f.SlotOf(i)
  }

  lemma SlotInFile(table: Table, f: File, prefix: bytes, counter: nat, final: bool)
    requires f.WellFormed() && NothingElse(table, f) && |prefix| == 8 && counter < MAX_CHUNKS
    requires Slot(f.passphrase, f.salt, Nonce(prefix, counter, final)) in table
    ensures prefix == f.prefix && counter < |f.chunks| && final == (counter == |f.chunks| - 1)
  {
    var slot := Slot(f.passphrase, f.salt, Nonce(prefix, counter, final));
    var i :| 0 <= i < |f.chunks| && slot == f.SlotOf(i);
    NonceInjective(prefix, counter, final, f.prefix, i, i == |f.chunks| - 1);
  }

  /** Under the file's key only the file's own chunk opens at its number. */
  lemma OpenedIsOwn(table: Table, f: File, prefix: bytes, c: nat, chunk: bytes)
    requires f.WellFormed() && Stored(table, f) && NothingElse(table, f) && |prefix| == 8 && c < MAX_CHUNKS
    requires TryOpen(table, f.passphrase, f.salt, prefix, c, chunk).Some?
    ensures prefix == f.prefix && c < |f.chunks| && chunk == f.ciphers[c]
    ensures TryOpen(table, f.passphrase, f.salt, prefix, c, chunk) == Some((f.chunks[c], c == |f.chunks| - 1))
  {
    var (_, final) := TryOpen(table, f.passphrase, f.salt, prefix, c, chunk).value;
    SlotInFile(table, f, prefix, c, final);
    assert f.SlotOf(c) == Slot(f.passphrase, f.salt, Nonce(prefix, c, final));
  }

  lemma OwnOpens(table: Table, f: File, c: nat)
    requires f.WellFormed() && Stored(table, f) && NothingElse(table, f) && c < |f.chunks|
    ensures TryOpen(table, f.passphrase, f.salt, f.prefix, c, f.ciphers[c]) == Some((f.chunks[c], c == |f.chunks| - 1))
  {
    var last := c == |f.chunks| - 1;
    assert f.SlotOf(c) == Slot(f.passphrase, f.salt, Nonce(f.prefix, c, last));
    if last && Slot(f.passphrase, f.salt, Nonce(f.prefix, c, false)) in table { SlotInFile(table, f, f.prefix, c, false); }
  }

  lemma FlattenFrom(cs: seq<bytes>, c: nat)
    requires c < |cs|
    ensures Flatten(cs[c..]) == cs[c] + Flatten(cs[c + 1..])
    ensures c == |cs| - 1 ==> Flatten(cs[c..]) == cs[c]
  {
    assert cs[c..][1..] == cs[c + 1..];
    if c == |cs| - 1 { assert cs[c] + [] == cs[c]; }
  }

  // ------------------------------------------------------------ accepted means ours

  /** Whatever chunk size the decoder uses, from chunk c on it accepts only the file's own bytes. */
  lemma {:induction false} AcceptedIsSuffix(table: Table, f: File, prefix: bytes, size: nat, body: bytes, c: nat)
    requires f.WellFormed() && Stored(table, f) && NothingElse(table, f)
    requires |prefix| == 8 && c <= MAX_CHUNKS
    requires DecodeFrom(table, f.passphrase, f.salt, prefix, size, body, c).Ok?
    ensures prefix == f.prefix && c < |f.chunks|
    ensures body == Flatten(f.ciphers[c..])
    ensures DecodeFrom(table, f.passphrase, f.salt, prefix, size, body, c) == Ok(Flatten(f.chunks[c..]))
    ensures |f.ciphers[c]| == NextLength(body, size)
    decreases |body|
  {
    var n := NextLength(body, size);
    AcceptedStep(table, f, prefix, size, body, c);
    FlattenFrom(f.chunks, c);
    if c < |f.chunks| - 1 {
      AcceptedIsSuffix(table, f, prefix, size, body[n..], c + 1);
    } else {
      assert f.ciphers[c + 1..] == [];
    }
    SuffixJoins(f.ciphers, c, body, n);
  }

  lemma SuffixJoins(ciphers: seq<bytes>, c: nat, body: bytes, n: nat)
    requires c < |ciphers| && n <= |body| && body[..n] == ciphers[c] && body[n..] == Flatten(ciphers[c + 1..])
    ensures body == Flatten(ciphers[c..])
  {
    FlattenFrom(ciphers, c);
    assert body == body[..n] + body[n..];
  }

  /** The first chunk accepted is the file's chunk c, and the last one ends the body. */
  lemma {:induction false} AcceptedStep(table: Table, f: File, prefix: bytes, size: nat, body: bytes, c: nat)
    requires f.WellFormed() && Stored(table, f) && NothingElse(table, f)
    requires |prefix| == 8 && c <= MAX_CHUNKS
    requires DecodeFrom(table, f.passphrase, f.salt, prefix, size, body, c).Ok?
    ensures prefix == f.prefix && c < |f.chunks|
    ensures var n := NextLength(body, size);
            && 0 < n <= |body| && body[..n] == f.ciphers[c]
            && DecodeFrom(table, f.passphrase, f.salt, prefix, size, body, c) ==
               (if c == |f.chunks| - 1 then Ok(f.chunks[c])
                else Prepend(f.chunks[c], DecodeFrom(table, f.passphrase, f.salt, prefix, size, body[n..], c + 1)))
            && (c == |f.chunks| - 1 ==> body[n..] == [])
  {
    OpenedIsOwn(table, f, prefix, c, body[..NextLength(body, size)]);
  }

  // ------------------------------------------------------------ ours is accepted

  /** Sizes a decoder with this chunk size reads back chunk by chunk. */
  ghost predicate Sliced(f: File, size: nat)
    requires f.WellFormed()
  {
    && (forall i | 0 <= i < |f.chunks| - 1 :: |f.chunks[i]| == size)
    && |f.chunks[|f.chunks| - 1]| <= size
  }

  lemma ChunkLengths(table: Table, f: File, size: nat, c: nat)
    requires f.WellFormed() && Stored(table, f) && Sliced(f, size) && c < |f.chunks|
    ensures |f.ciphers[c]| == |f.chunks[c]| + TAG_SIZE
    ensures if c < |f.chunks| - 1 then |f.chunks[c]| == size else |f.chunks[c]| <= size
  {
  }

  lemma DecodeMiddle(table: Table, passphrase: bytes, salt: bytes, prefix: bytes, size: nat, chunk: bytes, rest: bytes, c: nat, p: bytes)
    requires |prefix| == 8 && c < MAX_CHUNKS && |chunk| == size + TAG_SIZE
    requires TryOpen(table, passphrase, salt, prefix, c, chunk) == Some((p, false))
    ensures DecodeFrom(table, passphrase, salt, prefix, size, chunk + rest, c) ==
            Prepend(p, DecodeFrom(table, passphrase, salt, prefix, size, rest, c + 1))
  {
    assert (chunk + rest)[..|chunk|] == chunk && (chunk + rest)[|chunk|..] == rest;
  }

  lemma DecodeLast(table: Table, passphrase: bytes, salt: bytes, prefix: bytes, size: nat, chunk: bytes, c: nat, p: bytes)
    requires |prefix| == 8 && c < MAX_CHUNKS && TAG_SIZE <= |chunk| <= size + TAG_SIZE
    requires TryOpen(table, passphrase, salt, prefix, c, chunk) == Some((p, true))
    ensures DecodeFrom(table, passphrase, salt, prefix, size, chunk, c) == Ok(p)
  {
    assert chunk[..|chunk|] == chunk && chunk[|chunk|..] == [];
  }

  lemma {:induction false} OwnIsAccepted(table: Table, f: File, size: nat, c: nat)
    requires f.WellFormed() && Stored(table, f) && NothingElse(table, f) && Sliced(f, size)
    requires c < |f.chunks|
    ensures DecodeFrom(table, f.passphrase, f.salt, f.prefix, size, Flatten(f.ciphers[c..]), c) == Ok(Flatten(f.chunks[c..]))
    decreases |f.chunks| - c
  {
    ChunkLengths(table, f, size, c);
    OwnOpens(table, f, c);
    FlattenFrom(f.ciphers, c);
    FlattenFrom(f.chunks, c);
    if c < |f.chunks| - 1 {
      OwnIsAccepted(table, f, size, c + 1);
      DecodeMiddle(table, f.passphrase, f.salt, f.prefix, size, f.ciphers[c], Flatten(f.ciphers[c + 1..]), c, f.chunks[c]);
    } else {
      DecodeLast(table, f.passphrase, f.salt, f.prefix, size, f.ciphers[c], c, f.chunks[c]);
    }
  }

  // ------------------------------------------------------------ whole streams

  /** The file as the encoder wrote it: data cut at 2^chunkLog2, sealed, behind its header. */
  ghost predicate Encrypted(table: Table, f: File, data: bytes, chunkLog2: nat)
  {
    && f.WellFormed() && 1 <= chunkLog2 <= MAX_CHUNK_LOG2 && f.passphrase != []
    && f.chunks == Chunks(data, Pow2(chunkLog2))
    && Stored(table, f) && NothingElse(table, f)
  }

  function StreamOf(f: File, chunkLog2: nat): (b: bytes)
    requires |f.salt| == 16 && |f.prefix| == 8 && chunkLog2 < 65536
  {
    BuildHeader(chunkLog2, f.salt, f.prefix) + Flatten(f.ciphers)
  }

  lemma HeaderParts(chunkLog2: nat, salt: bytes, prefix: bytes, body: bytes)
    requires 1 <= chunkLog2 <= MAX_CHUNK_LOG2 && |salt| == 16 && |prefix| == 8
    ensures var stream := BuildHeader(chunkLog2, salt, prefix) + body;
            DecodeHeader(stream) == Ok((chunkLog2, salt, prefix)) && stream[HEADER_SIZE..] == body
  {
    var h := BuildHeader(chunkLog2, salt, prefix);
    var stream := h + body;
    assert h[..4] == MAGIC && h[8..24] == salt && h[24..32] == prefix;
    assert stream[..4] == h[..4] && stream[8..24] == h[8..24] && stream[24..32] == h[24..32];
    assert stream[HEADER_SIZE..] == body;
  }

  /** A header that decodes is the one the encoder builds from what it says. */
  lemma HeaderDetermined(stream: bytes)
    requires DecodeHeader(stream).Ok?
    ensures var (chunkLog2, salt, prefix) := DecodeHeader(stream).value;
            stream == BuildHeader(chunkLog2, salt, prefix) + stream[HEADER_SIZE..]
  {
    var (chunkLog2, salt, prefix) := DecodeHeader(stream).value;
    var h := BuildHeader(chunkLog2, salt, prefix);
    assert h[..4] == MAGIC && h[8..24] == salt && h[24..32] == prefix;
    assert stream[..4] == MAGIC;
    forall i | 0 <= i < HEADER_SIZE ensures stream[i] == h[i] {
      if i < 4 { assert stream[i] == stream[..4][i] && h[i] == h[..4][i]; }
      else if i >= 24 { assert h[i] == h[24..32][i - 24]; }
      else if i >= 8 { assert h[i] == h[8..24][i - 8]; }
    }
    assert stream[..HEADER_SIZE] == h;
    assert stream == stream[..HEADER_SIZE] + stream[HEADER_SIZE..];
  }

  lemma EncryptedShape(table: Table, f: File, data: bytes, chunkLog2: nat)
    requires Encrypted(table, f, data, chunkLog2)
    ensures Sliced(f, Pow2(chunkLog2)) && Flatten(f.chunks) == data
  {
    ChunkShape(data, Pow2(chunkLog2));
    CutIsSliced(f, data, Pow2(chunkLog2));
  }

  lemma CutIsSliced(f: File, data: bytes, size: nat)
    requires f.WellFormed() && WellCut(f.chunks, data, size)
    ensures Sliced(f, size) && Flatten(f.chunks) == data
  {
  }

  lemma DecryptBody(table: Table, passphrase: bytes, e: nat, salt: bytes, prefix: bytes, body: bytes)
    requires passphrase != [] && 1 <= e <= MAX_CHUNK_LOG2 && |salt| == 16 && |prefix| == 8
    ensures Decrypt(table, passphrase, BuildHeader(e, salt, prefix) + body) ==
            DecodeFrom(table, passphrase, salt, prefix, Pow2(e), body, 0)
  {
    HeaderParts(e, salt, prefix, body);
  }

  lemma SlicedAccepted(table: Table, f: File, e: nat)
    requires f.WellFormed() && Stored(table, f) && NothingElse(table, f) && Sliced(f, Pow2(e))
    requires f.passphrase != [] && 1 <= e <= MAX_CHUNK_LOG2
    ensures Decrypt(table, f.passphrase, StreamOf(f, e)) == Ok(Flatten(f.chunks))
  {
    OwnIsAccepted(table, f, Pow2(e), 0);
    assert f.ciphers[0..] == f.ciphers && f.chunks[0..] == f.chunks;
    DecryptBody(table, f.passphrase, e, f.salt, f.prefix, Flatten(f.ciphers));
  }

  /** Decrypt undoes Encrypt, for every plaintext in the chunk budget and every chunk exponent. */
  lemma RoundTrip(table: Table, f: File, data: bytes, chunkLog2: nat)
    requires Encrypted(table, f, data, chunkLog2)
    ensures Decrypt(table, f.passphrase, StreamOf(f, chunkLog2)) == Ok(data)
  {
    EncryptedShape(table, f, data, chunkLog2);
    SlicedAccepted(table, f, chunkLog2);
  }

  /** A stream cut off between two chunks is reported as truncated, wherever the cut is. */
  lemma TruncatedAtBoundary(table: Table, f: File, data: bytes, chunkLog2: nat, k: nat)
    requires Encrypted(table, f, data, chunkLog2) && k < |f.chunks|
    ensures Decrypt(table, f.passphrase, BuildHeader(chunkLog2, f.salt, f.prefix) + Flatten(f.ciphers[..k])) == Err(Truncated)
  {
    EncryptedShape(table, f, data, chunkLog2);
    FailsAfter(table, f, Pow2(chunkLog2), 0, k, [], Truncated);
    assert f.ciphers[0..k] == f.ciphers[..k] && Flatten(f.ciphers[..k]) + [] == Flatten(f.ciphers[..k]);
    DecryptBody(table, f.passphrase, chunkLog2, f.salt, f.prefix, Flatten(f.ciphers[..k]));
  }

  /** One chunk exchanged for other bytes of its length is not authentic, whatever comes after it. */
  lemma TamperRefused(table: Table, f: File, data: bytes, chunkLog2: nat, k: nat, other: bytes, rest: bytes)
    requires Encrypted(table, f, data, chunkLog2) && k < |f.chunks| && other != f.ciphers[k] && |other| == |f.ciphers[k]|
    requires |f.chunks[k]| < Pow2(chunkLog2) ==> rest == []
    ensures Decrypt(table, f.passphrase, BuildHeader(chunkLog2, f.salt, f.prefix) + (Flatten(f.ciphers[..k]) + (other + rest))) ==
            Err(ChunkNotAuthentic)
  {
    EncryptedShape(table, f, data, chunkLog2);
    assert f.ciphers[0..k] == f.ciphers[..k];
    TamperedHere(table, f, Pow2(chunkLog2), k, other, rest);
    FailsAfter(table, f, Pow2(chunkLog2), 0, k, other + rest, ChunkNotAuthentic);
    DecryptBody(table, f.passphrase, chunkLog2, f.salt, f.prefix, Flatten(f.ciphers[..k]) + (other + rest));
  }

  /** An error met at chunk k is the error of the whole body before which the file's own chunks stand. */
  lemma {:induction false} FailsAfter(table: Table, f: File, size: nat, c: nat, k: nat, tail: bytes, e: CryptoError)
    requires f.WellFormed() && Stored(table, f) && NothingElse(table, f) && Sliced(f, size)
    requires c <= k < |f.chunks| && DecodeFrom(table, f.passphrase, f.salt, f.prefix, size, tail, k) == Err(e)
    ensures DecodeFrom(table, f.passphrase, f.salt, f.prefix, size, Flatten(f.ciphers[c..k]) + tail, c) == Err(e)
    decreases k - c
  {
    if c < k {
      FailsAfter(table, f, size, c + 1, k, tail, e);
      OwnMiddle(table, f, size, c, k, tail);
    } else {
      NothingBefore(f.ciphers, c, tail);
    }
  }

  lemma NothingBefore(ciphers: seq<bytes>, c: nat, tail: bytes)
    requires c < |ciphers|
    ensures Flatten(ciphers[c..c]) + tail == tail
  {
    assert ciphers[c..c] == [];
  }

  /** The file's chunk c opens, whatever comes after chunk k. */
  lemma OwnMiddle(table: Table, f: File, size: nat, c: nat, k: nat, tail: bytes)
    requires f.WellFormed() && Stored(table, f) && NothingElse(table, f) && Sliced(f, size) && c < k < |f.chunks|
    ensures DecodeFrom(table, f.passphrase, f.salt, f.prefix, size, Flatten(f.ciphers[c..k]) + tail, c) ==
            Prepend(f.chunks[c], DecodeFrom(table, f.passphrase, f.salt, f.prefix, size, Flatten(f.ciphers[c + 1..k]) + tail, c + 1))
  {
    ChunkLengths(table, f, size, c);
    OwnOpens(table, f, c);
    assert f.ciphers[c..k][1..] == f.ciphers[c + 1..k];
    Assoc(f.ciphers[c], Flatten(f.ciphers[c + 1..k]), tail);
    DecodeMiddle(table, f.passphrase, f.salt, f.prefix, size, f.ciphers[c], Flatten(f.ciphers[c + 1..k]) + tail, c, f.chunks[c]);
  }

  lemma TamperedHere(table: Table, f: File, size: nat, c: nat, other: bytes, rest: bytes)
    requires f.WellFormed() && Stored(table, f) && NothingElse(table, f) && Sliced(f, size)
    requires c < |f.chunks| && other != f.ciphers[c] && |other| == |f.ciphers[c]|
    requires |f.chunks[c]| < size ==> rest == []
    ensures DecodeFrom(table, f.passphrase, f.salt, f.prefix, size, other + rest, c) == Err(ChunkNotAuthentic)
  {
    ChunkLengths(table, f, size, c);
    var body := other + rest;
    assert body[..NextLength(body, size)] == other;
    NotOwn(table, f, c, other);
  }

  lemma NotOwn(table: Table, f: File, c: nat, chunk: bytes)
    requires f.WellFormed() && Stored(table, f) && NothingElse(table, f) && c < |f.chunks| && chunk != f.ciphers[c]
    ensures TryOpen(table, f.passphrase, f.salt, f.prefix, c, chunk).None?
  {
    if TryOpen(table, f.passphrase, f.salt, f.prefix, c, chunk).Some? {
      OpenedIsOwn(table, f, f.prefix, c, chunk);
    }
  }

  /** A body that goes on after 2^24 chunks, none of them final, is over the budget. */
  lemma {:induction false} BudgetRefused(table: Table, passphrase: bytes, salt: bytes, prefix: bytes, size: nat, chunks: seq<bytes>, rest: bytes, c: nat)
    requires |prefix| == 8 && c + |chunks| == 16_777_216
    requires forall i | 0 <= i < |chunks| :: OpensInMiddle(table, passphrase, salt, prefix, size, c + i, chunks[i])
    ensures DecodeFrom(table, passphrase, salt, prefix, size, Flatten(chunks) + rest, c) == Err(CounterExhausted)
    decreases |chunks|
  {
    if chunks != [] {
      var tail := chunks[1..];
      assert OpensInMiddle(table, passphrase, salt, prefix, size, c + 0, chunks[0]);
      forall i | 0 <= i < |tail| ensures OpensInMiddle(table, passphrase, salt, prefix, size, (c + 1) + i, tail[i]) {
        assert OpensInMiddle(table, passphrase, salt, prefix, size, c + (i + 1), chunks[i + 1]);
      }
      BudgetRefused(table, passphrase, salt, prefix, size, tail, rest, c + 1);
      Assoc(chunks[0], Flatten(tail), rest);
      var (p, _) := TryOpen(table, passphrase, salt, prefix, c, chunks[0]).value;
      DecodeMiddle(table, passphrase, salt, prefix, size, chunks[0], Flatten(tail) + rest, c, p);
    }
  }

  /** A full chunk that opens at this number under the nonce without the final flag. */
  predicate OpensInMiddle(table: Table, passphrase: bytes, salt: bytes, prefix: bytes, size: nat, c: nat, chunk: bytes)
    requires |prefix| == 8 && c < MAX_CHUNKS
  {
    |chunk| == size + TAG_SIZE && TryOpen(table, passphrase, salt, prefix, c, chunk).Some? && !TryOpen(table, passphrase, salt, prefix, c, chunk).value.1
  }

  /**
   Bytes after the last chunk are refused: as trailing data when that chunk is
   full, and otherwise because they are read as part of it.
   */
  lemma ExtensionRefused(table: Table, f: File, data: bytes, chunkLog2: nat, more: bytes)
    requires Encrypted(table, f, data, chunkLog2) && more != []
    ensures Decrypt(table, f.passphrase, BuildHeader(chunkLog2, f.salt, f.prefix) + (Flatten(f.ciphers) + more)) ==
            Err(if |f.chunks[|f.chunks| - 1]| == Pow2(chunkLog2) then TrailingData else ChunkNotAuthentic)
  {
    var last := |f.chunks| - 1;
    var e := if |f.chunks[last]| == Pow2(chunkLog2) then TrailingData else ChunkNotAuthentic;
    EncryptedShape(table, f, data, chunkLog2);
    ExtendedLast(table, f, Pow2(chunkLog2), last, more);
    FailsAfter(table, f, Pow2(chunkLog2), 0, last, f.ciphers[last] + more, e);
    SplitLast(f.ciphers, more);
    DecryptBody(table, f.passphrase, chunkLog2, f.salt, f.prefix, Flatten(f.ciphers) + more);
  }

  lemma SplitLast(ciphers: seq<bytes>, more: bytes)
    requires ciphers != []
    ensures var last := |ciphers| - 1; Flatten(ciphers) + more == Flatten(ciphers[0..last]) + (ciphers[last] + more)
  {
    var last := |ciphers| - 1;
    var start := ciphers[0..last];
    assert ciphers == start + [ciphers[last]];
    FlattenAppend(start, ciphers[last]);
    Assoc(Flatten(start), ciphers[last], more);
  }

  lemma ExtendedLast(table: Table, f: File, size: nat, c: nat, more: bytes)
    requires f.WellFormed() && Stored(table, f) && NothingElse(table, f)
    requires c == |f.chunks| - 1 && |f.chunks[c]| <= size && more != []
    ensures DecodeFrom(table, f.passphrase, f.salt, f.prefix, size, f.ciphers[c] + more, c) ==
            Err(if |f.chunks[c]| == size then TrailingData else ChunkNotAuthentic)
  {
    var body := f.ciphers[c] + more;
    var n := NextLength(body, size);
    OwnOpens(table, f, c);
    if |f.chunks[c]| == size {
      assert body[..n] == f.ciphers[c] && body[n..] == more;
    } else {
      assert |body[..n]| > |f.ciphers[c]|;
      if TryOpen(table, f.passphrase, f.salt, f.prefix, c, body[..n]).Some? {
        OpenedIsOwn(table, f, f.prefix, c, body[..n]);
        assert false;
      }
    }
  }

  /** The chunk exponents a decoder may be told and still accept the file. */
  predicate ExponentAccepted(f: File, chunkLog2: nat, e: nat) {
    1 <= e <= MAX_CHUNK_LOG2 && (e == chunkLog2 || (|f.chunks| == 1 && |f.chunks[0]| <= Pow2(e)))
  }

  lemma {:induction false} Pow2Injective(a: nat, b: nat)
    requires Pow2(a) == Pow2(b)
    ensures a == b
  {
    if a > 0 && b > 0 { Pow2Injective(a - 1, b - 1); }
  }

  /** The first of several chunks is shorter than the whole body. */
  lemma FirstIsShorter(ciphers: seq<bytes>)
    requires |ciphers| > 1 && |ciphers[1]| >= 1
    ensures |Flatten(ciphers)| > |ciphers[0]|
  {
    assert ciphers[1..][0] == ciphers[1];
  }

  lemma AcceptedBody(table: Table, f: File, size: nat, prefix: bytes, body: bytes)
    requires f.WellFormed() && Stored(table, f) && NothingElse(table, f) && |prefix| == 8
    requires DecodeFrom(table, f.passphrase, f.salt, prefix, size, body, 0).Ok?
    ensures prefix == f.prefix && body == Flatten(f.ciphers)
    ensures DecodeFrom(table, f.passphrase, f.salt, prefix, size, body, 0) == Ok(Flatten(f.chunks))
    ensures |f.chunks| > 1 ==> |f.chunks[0]| == size
    ensures |f.chunks| == 1 ==> |f.chunks[0]| <= size
  {
    assert f.ciphers[0..] == f.ciphers && f.chunks[0..] == f.chunks;
    AcceptedIsSuffix(table, f, prefix, size, body, 0);
    if |f.chunks| > 1 { FirstIsShorter(f.ciphers); }
  }

  lemma AcceptedStream(table: Table, f: File, chunkLog2: nat, stream: bytes)
    requires f.WellFormed() && Stored(table, f) && NothingElse(table, f) && Sliced(f, Pow2(chunkLog2))
    requires Decrypt(table, f.passphrase, stream).Ok? && DecodeHeader(stream).value.1 == f.salt
    ensures Decrypt(table, f.passphrase, stream) == Ok(Flatten(f.chunks))
    ensures var e := DecodeHeader(stream).value.0; ExponentAccepted(f, chunkLog2, e) && stream == StreamOf(f, e)
  {
    var (e, salt, prefix) := DecodeHeader(stream).value;
    HeaderDetermined(stream);
    AcceptedBody(table, f, Pow2(e), prefix, stream[HEADER_SIZE..]);
    if |f.chunks| > 1 { Pow2Injective(e, chunkLog2); }
  }

  /**
   Exactly what Decrypt accepts under the file's key: the encoder's own bytes,
   where only the header's chunk exponent may differ, and then only for a
   file of one chunk that fits. Whatever is accepted yields the plaintext.
   */
  lemma AcceptedIff(table: Table, f: File, data: bytes, chunkLog2: nat, stream: bytes)
    requires Encrypted(table, f, data, chunkLog2)
    requires DecodeHeader(stream).Ok? ==> DecodeHeader(stream).value.1 == f.salt
    ensures Decrypt(table, f.passphrase, stream).Ok? <==>
            exists e :: ExponentAccepted(f, chunkLog2, e) && stream == StreamOf(f, e)
    ensures Decrypt(table, f.passphrase, stream).Ok? ==> Decrypt(table, f.passphrase, stream) == Ok(data)
  {
    EncryptedShape(table, f, data, chunkLog2);
    if Decrypt(table, f.passphrase, stream).Ok? {
      AcceptedStream(table, f, chunkLog2, stream);
    }
    if e :| ExponentAccepted(f, chunkLog2, e) && stream == StreamOf(f, e) {
      SlicedAccepted(table, f, e);
    }
  }

  /**
   With the table left by one encryption, any stream Decrypt accepts under any
   passphrase is the encoder's up to the two exponent bytes, and yields the
   plaintext; so every truncation, extension or reordering is refused.
   */
  lemma OneRunAuthentic(table: Table, f: File, data: bytes, chunkLog2: nat, passphrase: bytes, stream: bytes)
    requires Encrypted(table, f, data, chunkLog2)
    requires forall slot | slot in table :: slot.passphrase == f.passphrase && slot.salt == f.salt
    requires Decrypt(table, passphrase, stream).Ok?
    ensures passphrase == f.passphrase && Decrypt(table, passphrase, stream) == Ok(data)
    ensures |stream| == |StreamOf(f, chunkLog2)|
    ensures stream[HEADER_SIZE..] == Flatten(f.ciphers)
    ensures stream[..6] == StreamOf(f, chunkLog2)[..6] && stream[8..] == StreamOf(f, chunkLog2)[8..]
  {
    var (e, salt, prefix) := DecodeHeader(stream).value;
    FirstChunkOpened(table, passphrase, salt, prefix, Pow2(e), stream[HEADER_SIZE..]);
    AcceptedUnderSalt(table, f, data, chunkLog2, stream);
  }

  /** A stream accepted under the file's passphrase and salt is the file's, up to the two exponent bytes. */
  lemma {:induction false} AcceptedUnderSalt(table: Table, f: File, data: bytes, chunkLog2: nat, stream: bytes)
    requires Encrypted(table, f, data, chunkLog2)
    requires Decrypt(table, f.passphrase, stream).Ok? && DecodeHeader(stream).value.1 == f.salt
    ensures Decrypt(table, f.passphrase, stream) == Ok(data)
    ensures |stream| == |StreamOf(f, chunkLog2)|
    ensures stream[HEADER_SIZE..] == Flatten(f.ciphers)
    ensures stream[..6] == StreamOf(f, chunkLog2)[..6] && stream[8..] == StreamOf(f, chunkLog2)[8..]
  {
    var e := DecodeHeader(stream).value.0;
    EncryptedShape(table, f, data, chunkLog2);
    AcceptedStream(table, f, chunkLog2, stream);
    HeaderParts(e, f.salt, f.prefix, Flatten(f.ciphers));
    HeaderTail(e, chunkLog2, f.salt, f.prefix, Flatten(f.ciphers));
  }

  lemma HeaderTail(e: nat, e': nat, salt: bytes, prefix: bytes, body: bytes)
    requires e < 65536 && e' < 65536 && |salt| == 16 && |prefix| == 8
    ensures var a, b := BuildHeader(e, salt, prefix) + body, BuildHeader(e', salt, prefix) + body;
            |a| == |b| && a[..6] == b[..6] && a[8..] == b[8..]
  {
    var a, b := BuildHeader(e, salt, prefix) + body, BuildHeader(e', salt, prefix) + body;
    assert a[8..] == salt + prefix + body && b[8..] == salt + prefix + body;
    assert a[..6] == MAGIC + [VERSION, ALGORITHM] && b[..6] == MAGIC + [VERSION, ALGORITHM];
  }

  /** Accepting anything means some slot under the header's key was sealed. */
  lemma FirstChunkOpened(table: Table, passphrase: bytes, salt: bytes, prefix: bytes, size: nat, body: bytes)
    requires |prefix| == 8 && DecodeFrom(table, passphrase, salt, prefix, size, body, 0).Ok?
    ensures exists slot :: slot in table && slot.passphrase == passphrase && slot.salt == salt
  {
    var middle := Slot(passphrase, salt, Nonce(prefix, 0, false));
    var last := Slot(passphrase, salt, Nonce(prefix, 0, true));
    assert middle in table || last in table;
  }

  lemma {:induction false} FlattenLength(chunks: seq<bytes>, ciphers: seq<bytes>)
    requires |chunks| == |ciphers| && forall i | 0 <= i < |chunks| :: |ciphers[i]| == |chunks[i]| + TAG_SIZE
    ensures |Flatten(ciphers)| == |Flatten(chunks)| + TAG_SIZE * |chunks|
  {
    if chunks != [] { FlattenLength(chunks[1..], ciphers[1..]); }
  }

  lemma StreamLengthByChunks(table: Table, f: File, data: bytes, chunkLog2: nat)
    requires Encrypted(table, f, data, chunkLog2)
    ensures |StreamOf(f, chunkLog2)| == HEADER_SIZE + |data| + TAG_SIZE * |f.chunks|
  {
    EncryptedShape(table, f, data, chunkLog2);
    FlattenLength(f.chunks, f.ciphers);
  }

  /** The stream's length: the header, the data, and a tag per chunk. */
  lemma StreamLength(table: Table, f: File, data: bytes, chunkLog2: nat, size: nat)
    requires Encrypted(table, f, data, chunkLog2) && size == Pow2(chunkLog2)
    ensures |StreamOf(f, chunkLog2)| ==
            32 + |data| + 16 * (if data == [] then 1 else (|data| + size - 1) / size)
  {
    StreamLengthByChunks(table, f, data, chunkLog2);
    ChunkCount(data, size);
  }

  /** At the encoder's default exponent, 16, a chunk is 64 KiB. */
  lemma DefaultStreamLength(table: Table, f: File, data: bytes)
    requires Encrypted(table, f, data, 16)
    ensures |StreamOf(f, 16)| == 32 + |data| + 16 * (if data == [] then 1 else (|data| + 65535) / 65536)
  {
    assert Pow2(4) == 16;
    assert Pow2(8) == 256;
    assert Pow2(12) == 4096;
    assert Pow2(16) == 65536;
    StreamLength(table, f, data, 16, 65536);
  }
}
