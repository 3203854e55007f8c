/**
 Encrypt and Decrypt as the code runs them: loops over a stream that reuse one
 plaintext buffer, one ciphertext buffer and one nonce
 (internal/backupcrypto/crypto.go:170-368).
 */
module Brv1Stream {
  import opened Wrappers
  import opened Brv1
  import opened Brv1Security

  /** A source of bytes; rest is what has not been read yet. */
  class Reader {
    var rest: bytes

    constructor (data: bytes)
      ensures rest == data
    {
      rest := data;
    }

    /** io.ReadFull into buf[from..]; fewer bytes only at the end of the stream. */
    method ReadFull(buf: array<byte>, from: nat) returns (n: nat)
      requires from <= buf.Length
      modifies this, buf
      ensures n == if |old(rest)| < buf.Length - from then |old(rest)| else buf.Length - from
      ensures rest == old(rest)[n..]
      ensures buf[..from + n] == old(buf[..from]) + old(rest)[..n]
    {
      n := if |rest| < buf.Length - from then |rest| else buf.Length - from;
      forall i | 0 <= i < n { buf[from + i] := rest[i]; }
      rest := rest[n..];
    }
  }

  class Writer {
    var written: bytes

    constructor ()
      ensures written == []
    {
      written := [];
    }

    method Write(b: bytes)
      modifies this
      ensures written == old(written) + b
    {
      written := written + b;
    }
  }

  class Aead {
    var table: Table

    constructor ()
      ensures table == map[]
    {
      table := map[];
    }

    /** Any ciphertext of the right length; the nonce must be unused under this key. */
    method Seal(slot: Slot, plain: bytes) returns (cipher: bytes)
      requires slot !in table
      modifies this
      ensures |cipher| == |plain| + TAG_SIZE
      ensures table == old(table)[slot := Sealed(plain, cipher)]
    {
      assert |seq(|plain| + TAG_SIZE, i => 0 as byte)| == |plain| + TAG_SIZE;
      cipher :| |cipher| == |plain| + TAG_SIZE;
      table := table[slot := Sealed(plain, cipher)];
    }
  }

  /** writeCounter: fills nonce[8..11] and leaves the prefix. */
  method WriteCounter(nonce: array<byte>, counter: nat, final: bool)
    requires nonce.Length == 12 && counter < MAX_CHUNKS
    modifies nonce
    ensures nonce[..8] == old(nonce[..8])
    ensures nonce[8] as int * 65536 + nonce[9] as int * 256 + nonce[10] as int == counter && nonce[11] == if final then 1 else 0
    ensures nonce[..] == Nonce(old(nonce[..8]), counter, final)
  {
    nonce[8] := counter / 65536;
    nonce[9] := counter / 256 % 256;
    nonce[10] := counter % 256;
    nonce[11] := if final then 1 else 0;
  }

  /** The file's key and nonce prefix are of the right lengths, and it is within the chunk budget. */
  predicate Sealable(f: File) {
    |f.salt| == 16 && |f.prefix| == 8 && |f.chunks| == |f.ciphers| <= MAX_CHUNKS
  }

  /** The slot of chunk number i. */
  function SlotAt(f: File, i: nat, final: bool): (s: Slot)
    requires |f.prefix| == 8 && i < MAX_CHUNKS
  {
    Slot(f.passphrase, f.salt, Nonce(f.prefix, i, final))
  }

  function Shorter(f: File): (g: File)
    requires |f.chunks| == |f.ciphers| > 0
  {
    f.(chunks := f.chunks[..|f.chunks| - 1], ciphers := f.ciphers[..|f.chunks| - 1])
  }

  function Add(f: File, chunk: bytes, cipher: bytes): (g: File)
  {
    f.(chunks := f.chunks + [chunk], ciphers := f.ciphers + [cipher])
  }

  /** The table after the file's chunks so far were sealed, none of them as the final one. */
  function SealAll(before: Table, f: File): (t: Table)
    requires Sealable(f)
    decreases |f.chunks|
  {
    if f.chunks == [] then before
    else
      var n := |f.chunks| - 1;
      SealAll(before, Shorter(f))[SlotAt(f, n, false) := Sealed(f.chunks[n], f.ciphers[n])]
  }

  /** No earlier file used this passphrase with this salt: salts are fresh random bytes. */
  ghost predicate FreshSalt(table: Table, passphrase: bytes, salt: bytes) {
    forall slot | slot in table :: slot.passphrase != passphrase || slot.salt != salt
  }

  /** Everything sealed before is still as it was. */
  ghost predicate Kept(before: Table, table: Table) {
    forall slot | slot in before :: slot in table && table[slot] == before[slot]
  }

  /** One more chunk, in the middle or as the last one. */
  lemma SealNext(before: Table, f: File, chunk: bytes, cipher: bytes)
    requires Sealable(f) && Tagged(f) && |f.chunks| < MAX_CHUNKS && |cipher| == |chunk| + TAG_SIZE
    ensures var g := Add(f, chunk, cipher);
            && Sealable(g) && Tagged(g)
            && SealAll(before, g) == SealAll(before, f)[SlotAt(f, |f.chunks|, false) := Sealed(chunk, cipher)]
            && SealLast(before, g) == SealAll(before, f)[SlotAt(f, |f.chunks|, true) := Sealed(chunk, cipher)]
  {
    assert Shorter(Add(f, chunk, cipher)) == f;
  }

  /** What SealAll holds: the earlier entries, and chunk i in the non-final slot i. */
  lemma {:induction false} SealAllHolds(before: Table, f: File)
    requires Sealable(f) && FreshSalt(before, f.passphrase, f.salt)
    ensures Kept(before, SealAll(before, f))
    ensures forall i | 0 <= i < |f.chunks| ::
              SlotAt(f, i, false) in SealAll(before, f) && SealAll(before, f)[SlotAt(f, i, false)] == Sealed(f.chunks[i], f.ciphers[i])
    ensures forall slot | slot in SealAll(before, f) && slot !in before ::
              exists i :: 0 <= i < |f.chunks| && slot == SlotAt(f, i, false)
  {
    SealAllKeeps(before, f);
    forall i | 0 <= i < |f.chunks|
      ensures SlotAt(f, i, false) in SealAll(before, f) && SealAll(before, f)[SlotAt(f, i, false)] == Sealed(f.chunks[i], f.ciphers[i])
    {
      SealAllAt(before, f, i);
    }
    forall slot | slot in SealAll(before, f) && slot !in before
      ensures exists i :: 0 <= i < |f.chunks| && slot == SlotAt(f, i, false)
    {
      var i := SealAllOnly(before, f, slot);
    }
  }

  lemma {:induction false} SealAllKeeps(before: Table, f: File)
    requires Sealable(f) && FreshSalt(before, f.passphrase, f.salt)
    ensures Kept(before, SealAll(before, f))
    decreases |f.chunks|
  {
    if f.chunks != [] {
      SealAllKeeps(before, Shorter(f));
      assert SlotAt(f, |f.chunks| - 1, false) !in before;
    }
  }

  lemma {:induction false} SealAllAt(before: Table, f: File, i: nat)
    requires Sealable(f) && i < |f.chunks|
    ensures SlotAt(f, i, false) in SealAll(before, f) && SealAll(before, f)[SlotAt(f, i, false)] == Sealed(f.chunks[i], f.ciphers[i])
    decreases |f.chunks|
  {
    var n := |f.chunks| - 1;
    if i < n {
      SealAllAt(before, Shorter(f), i);
      SlotsDiffer(f, i, n);
    }
  }

  lemma {:induction false} SealAllOnly(before: Table, f: File, slot: Slot) returns (i: nat)
    requires Sealable(f) && slot in SealAll(before, f) && slot !in before
    ensures i < |f.chunks| && slot == SlotAt(f, i, false)
    decreases |f.chunks|
  {
    var n := |f.chunks| - 1;
    if slot == SlotAt(f, n, false) {
      i := n;
    } else {
      i := SealAllOnly(before, Shorter(f), slot);
    }
  }

  lemma {:induction false} SlotsDiffer(f: File, i: nat, j: nat)
    requires |f.prefix| == 8 && i < j < MAX_CHUNKS
    ensures SlotAt(f, i, false) != SlotAt(f, j, false)
  {
    if SlotAt(f, i, false) == SlotAt(f, j, false) {
      NonceInjective(f.prefix, i, false, f.prefix, j, false);
    }
  }

  /** The next nonce, final or not, has not been used. */
  lemma NextSlotUnused(before: Table, f: File, final: bool)
    requires Sealable(f) && FreshSalt(before, f.passphrase, f.salt) && |f.chunks| < MAX_CHUNKS
    ensures SlotAt(f, |f.chunks|, final) !in SealAll(before, f)
  {
    SealAllHolds(before, f);
    var slot := SlotAt(f, |f.chunks|, final);
    if slot in SealAll(before, f) {
      var i :| 0 <= i < |f.chunks| && slot == SlotAt(f, i, false);
      NonceInjective(f.prefix, |f.chunks|, final, f.prefix, i, false);
    }
  }

  /** The table once the last chunk was sealed as the final one. */
  function SealLast(before: Table, f: File): (t: Table)
    requires Sealable(f) && f.chunks != []
  {
    var n := |f.chunks| - 1;
    SealAll(before, Shorter(f))[SlotAt(f, n, true) := Sealed(f.chunks[n], f.ciphers[n])]
  }

  ghost predicate Tagged(f: File)
    requires |f.chunks| == |f.ciphers|
  {
    forall i | 0 <= i < |f.chunks| :: |f.ciphers[i]| == |f.chunks[i]| + TAG_SIZE
  }

  /** A finished file is in the table, alone under its key. */
  lemma SealLastHolds(before: Table, f: File)
    requires Sealable(f) && f.chunks != [] && FreshSalt(before, f.passphrase, f.salt) && Tagged(f)
    ensures f.WellFormed() && Kept(before, SealLast(before, f))
    ensures Stored(SealLast(before, f), f) && NothingElse(SealLast(before, f), f)
  {
    var g, n := Shorter(f), |f.chunks| - 1;
    var t, last := SealLast(before, f), SlotAt(f, n, true);
    SealAllHolds(before, g);
    NextSlotUnused(before, g, true);
    assert SlotAt(g, n, true) == last;
    forall i | 0 <= i < |f.chunks|
      ensures f.SlotOf(i) in t && t[f.SlotOf(i)] == Sealed(f.chunks[i], f.ciphers[i])
    {
      if i < n { assert f.SlotOf(i) == SlotAt(g, i, false); } else { assert f.SlotOf(i) == last; }
    }
    forall slot | slot in t && slot.passphrase == f.passphrase && slot.salt == f.salt
      ensures exists i :: 0 <= i < |f.chunks| && slot == f.SlotOf(i)
    {
      if slot == last {
        assert slot == f.SlotOf(n);
      } else {
        assert slot !in before;
        var i :| 0 <= i < |g.chunks| && slot == SlotAt(g, i, false);
        assert slot == f.SlotOf(i);
      }
    }
  }

  /** Whatever was added to the table was sealed under this key. */
  ghost predicate OnlyUnder(before: Table, table: Table, passphrase: bytes, salt: bytes) {
    forall slot | slot in table && slot !in before :: slot.passphrase == passphrase && slot.salt == salt
  }

  lemma {:induction false} SealLastOnlyUnder(before: Table, f: File)
    requires Sealable(f) && f.chunks != []
    ensures OnlyUnder(before, SealLast(before, f), f.passphrase, f.salt)
  {
    forall slot | slot in SealLast(before, f) && slot !in before ensures slot.passphrase == f.passphrase && slot.salt == f.salt {
      if slot != SlotAt(f, |f.chunks| - 1, true) {
        var i := SealAllOnly(before, Shorter(f), slot);
      }
    }
  }

  lemma ChunksStep(chunk: bytes, rest: bytes, size: nat)
    requires |chunk| == size >= 1 && rest != []
    ensures Chunks(chunk + rest, size) == [chunk] + Chunks(rest, size)
  {
    assert (chunk + rest)[..size] == chunk && (chunk + rest)[size..] == rest;
  }

  lemma DoneGrows(data: bytes, done: seq<bytes>, chunk: bytes, rest: bytes, size: nat)
    requires |chunk| == size >= 1 && rest != []
    requires Chunks(data, size) == done + Chunks(chunk + rest, size)
    ensures Chunks(data, size) == done + [chunk] + Chunks(rest, size)
  {
    ChunksStep(chunk, rest, size);
    assert done + ([chunk] + Chunks(rest, size)) == done + [chunk] + Chunks(rest, size);
  }

  lemma OutputGrows(out: bytes, ciphers: seq<bytes>, cipher: bytes)
    ensures out + Flatten(ciphers) + cipher == out + Flatten(ciphers + [cipher])
  {
    FlattenAppend(ciphers, cipher);
    Assoc(out, Flatten(ciphers), cipher);
  }

  /** Fills the chunk buffer after first bytes already in it. */
  method Fill(src: Reader, plaintext: array<byte>, first: nat) returns (pendingLen: nat)
    requires first <= plaintext.Length
    modifies src, plaintext
    ensures first <= pendingLen <= plaintext.Length
    ensures plaintext[..pendingLen] + src.rest == old(plaintext[..first]) + old(src.rest)
    ensures src.rest != [] ==> pendingLen == plaintext.Length
    ensures |src.rest| <= |old(src.rest)|
  {
    var n := src.ReadFull(plaintext, first);
    pendingLen := first + n;
    assert old(src.rest) == old(src.rest)[..n] + old(src.rest)[n..];
  }

  /** The encoder's output side: it seals chunk after chunk and writes the ciphertexts. */
  class Sealer {
    const aead: Aead
    const dst: Writer
    const nonce: array<byte>
    const passphrase: bytes
    const salt: bytes
    var counter: nat
    ghost const before: Table
    ghost const start: bytes
    ghost var file: File

    constructor (aead: Aead, dst: Writer, passphrase: bytes, salt: bytes, prefix: bytes)
      requires |salt| == 16 && |prefix| == 8 && FreshSalt(aead.table, passphrase, salt)
      ensures this.aead == aead && this.dst == dst && fresh(nonce)
      ensures before == aead.table && start == dst.written
      ensures Ready() && file == File(passphrase, salt, prefix, [], [])
    {
      this.aead, this.dst, this.passphrase, this.salt := aead, dst, passphrase, salt;
      nonce := new byte[12](i requires 0 <= i < 12 => if i < 8 then prefix[i] else 0);
      counter, before, start := 0, aead.table, dst.written;
      file := File(passphrase, salt, prefix, [], []);
      new;
      assert nonce[..8] == prefix;
    }

    ghost predicate Ready()
      reads this, aead, dst, nonce
    {
      && Sealable(file) && Tagged(file) && FreshSalt(before, passphrase, salt)
      && aead.table == SealAll(before, file)
      && file.passphrase == passphrase && file.salt == salt && counter == |file.chunks|
      && nonce.Length == 12 && nonce[..8] == file.prefix
      && dst.written == start + Flatten(file.ciphers)
    }

    /** The whole file is sealed and written. */
    ghost predicate Finished()
      reads this, aead, dst
    {
      && Sealable(file) && Tagged(file) && FreshSalt(before, passphrase, salt)
      && file.passphrase == passphrase && file.salt == salt
      && file.chunks != [] && aead.table == SealLast(before, file)
      && dst.written == start + Flatten(file.ciphers)
    }

    /** Seals one chunk under the counter's nonce and writes its ciphertext. */
    method SealChunk(chunk: bytes, final: bool)
      requires Ready() && counter < MAX_CHUNKS
      modifies this, aead, dst, nonce
      ensures file.passphrase == old(file.passphrase) && file.salt == old(file.salt) && file.prefix == old(file.prefix)
      ensures file.chunks == old(file.chunks) + [chunk] && counter == old(counter) + 1
      ensures if final then Finished() else Ready()
    {
      WriteCounter(nonce, counter, final);
      NextSlotUnused(before, file, final);
      var ciphertext := aead.Seal(Slot(passphrase, salt, nonce[..]), chunk);
      dst.Write(ciphertext);
      OutputGrows(start, file.ciphers, ciphertext);
      SealNext(before, file, chunk, ciphertext);
      file := Add(file, chunk, ciphertext);
      counter := counter + 1;
    }
  }

  /** The encoder's input side: one reused chunk buffer and one byte read ahead. */
  class ChunkReader {
    const src: Reader
    const plaintext: array<byte>
    var pendingLen: nat
    var next: Option<byte>

    constructor (src: Reader, size: nat)
      requires size >= 1
      modifies src
      ensures this.src == src && fresh(plaintext) && plaintext.Length == size
      ensures Valid() && next.None? && Ahead() == old(src.rest)
    {
      this.src := src;
      plaintext := new byte[size];
      pendingLen, next := 0, None;
      new;
      pendingLen := Fill(src, plaintext, 0);
      assert Ahead() == plaintext[..pendingLen] + src.rest == old(src.rest);
    }

    ghost predicate Valid()
      reads this, src, plaintext
    {
      && pendingLen <= plaintext.Length && 1 <= plaintext.Length
      && (src.rest != [] || next.Some? ==> pendingLen == plaintext.Length)
    }

    function Pending(): (b: bytes)
      requires Valid()
      reads this, src, plaintext
    {
      plaintext[..pendingLen]
    }

    /** What follows the pending chunk. */
    ghost function Rest(): (b: bytes)
      reads this, src
    {
      (if next.Some? then [next.value] else []) + src.rest
    }

    ghost function Ahead(): (b: bytes)
      requires Valid()
      reads this, src, plaintext
    {
      Pending() + Rest()
    }

    /** Reads one byte past the current chunk; final means there is none. */
    method Peek() returns (final: bool)
      requires Valid() && next.None?
      modifies this, src
      ensures Valid() && Pending() == old(Pending()) && Rest() == old(Rest())
      ensures final <==> Rest() == []
      ensures !final ==> next.Some? && |src.rest| < |old(src.rest)|
    {
      var peek := new byte[1];
      var n := src.ReadFull(peek, 0);
      final := n == 0;
      if !final {
        assert [peek[0]] == peek[..1] == old(src.rest)[..1];
        next := Some(peek[0]);
      }
    }

    /** Slides the peeked byte to the front of the buffer and reads the rest of the next chunk. */
    method Advance()
      requires Valid() && next.Some?
      modifies this, src, plaintext
      ensures Valid() && next.None? && Ahead() == old(Rest())
      ensures |src.rest| <= |old(src.rest)|
    {
      plaintext[0] := next.value;
      assert plaintext[..1] == [next.value];
      pendingLen := Fill(src, plaintext, 1);
      next := None;
    }
  }

  /**
   Encrypt. Every Seal call meets its fresh-nonce obligation; the stream
   written is the encoder's, unless the data needs more than 2^24 chunks, which
   is exactly when the counter is reported exhausted.
   */
  method Encrypt(aead: Aead, src: Reader, dst: Writer, passphrase: bytes, chunkLog2: nat, salt: bytes, prefix: bytes)
    returns (r: Result<nat, CryptoError>, ghost f: File)
    requires 1 <= chunkLog2 <= MAX_CHUNK_LOG2 && |salt| == 16 && |prefix| == 8
    requires FreshSalt(aead.table, passphrase, salt)
    modifies aead, src, dst
    ensures passphrase == [] <==> r == Err(EmptyPassphrase)
    ensures passphrase != [] ==> (r == Err(CounterExhausted) <==> |Chunks(old(src.rest), Pow2(chunkLog2))| > 16_777_216)
    ensures r.Ok? || r == Err(EmptyPassphrase) || r == Err(CounterExhausted)
    ensures r.Ok? ==> r.value == |old(src.rest)| && src.rest == []
    ensures r.Ok? ==> f.passphrase == passphrase && f.salt == salt && f.prefix == prefix
    ensures r.Ok? ==> Encrypted(aead.table, f, old(src.rest), chunkLog2) && Kept(old(aead.table), aead.table)
    ensures r.Ok? ==> OnlyUnder(old(aead.table), aead.table, passphrase, salt)
    ensures r.Ok? ==> dst.written == old(dst.written) + StreamOf(f, chunkLog2)
  {
    f := File(passphrase, salt, prefix, [], []);
    if passphrase == [] {
      return Err(EmptyPassphrase), f;
    }
    var size := Pow2(chunkLog2);
    var header := BuildHeader(chunkLog2, salt, prefix);
    dst.Write(header);
    ghost var before := aead.table;
    r, f := EncryptBody(aead, src, dst, passphrase, size, salt, prefix);
    if r.Ok? {
      SealLastHolds(before, f);
      SealLastOnlyUnder(before, f);
      Assoc(old(dst.written), header, Flatten(f.ciphers));
    }
  }

  /** The whole body, from the first chunk to the final one. */
  method EncryptBody(aead: Aead, src: Reader, dst: Writer, passphrase: bytes, size: nat, salt: bytes, prefix: bytes)
    returns (r: Result<nat, CryptoError>, ghost f: File)
    requires size >= 1 && |salt| == 16 && |prefix| == 8
    requires FreshSalt(aead.table, passphrase, salt)
    modifies aead, src, dst
    ensures r.Ok? || r == Err(CounterExhausted)
    ensures r.Err? <==> |Chunks(old(src.rest), size)| > MAX_CHUNKS
    ensures r.Ok? ==> r.value == |old(src.rest)| && src.rest == []
    ensures r.Ok? ==> f.passphrase == passphrase && f.salt == salt && f.prefix == prefix
    ensures r.Ok? ==> f.chunks == Chunks(old(src.rest), size)
    ensures r.Ok? ==> Sealable(f) && Tagged(f) && aead.table == SealLast(old(aead.table), f)
    ensures r.Ok? ==> dst.written == old(dst.written) + Flatten(f.ciphers)
  {
    var sealer := new Sealer(aead, dst, passphrase, salt, prefix);
    var input := new ChunkReader(src, size);
    r := EncryptChunks(sealer, input);
    f := sealer.file;
  }

  /** The read-one-chunk-ahead loop. */
  method EncryptChunks(sealer: Sealer, input: ChunkReader) returns (r: Result<nat, CryptoError>)
    requires sealer.Ready() && sealer.counter == 0 && input.Valid() && input.next.None? && sealer.nonce != input.plaintext
    modifies sealer, sealer.aead, sealer.dst, sealer.nonce, input, input.src, input.plaintext
    ensures var cs := Chunks(old(input.Ahead()), input.plaintext.Length);
            match r
            case Ok(total) =>
              && total == |old(input.Ahead())| && input.src.rest == [] && sealer.Finished()
              && sealer.file.prefix == old(sealer.file.prefix) && sealer.file.chunks == cs
            case Err(e) => e == CounterExhausted && |cs| > MAX_CHUNKS
  {
    var size := input.plaintext.Length;
    ghost var data, ahead := input.Ahead(), input.Ahead();
    ghost var done := [];
    var total: nat := 0;
    while true
      invariant sealer.Ready() && input.Valid() && input.next.None?
      invariant input.Ahead() == ahead && sealer.file.chunks == done && sealer.file.prefix == old(sealer.file.prefix)
      invariant Chunks(data, size) == done + Chunks(ahead, size)
      invariant total + |ahead| == |data|
      decreases |input.src.rest|
    {
      ghost var chunk := input.Pending();
      var step, n := EncryptChunk(sealer, input);
      total := total + n;
      if step.Exhausted? {
        return Err(CounterExhausted);
      }
      if step.Finished? {
        return Ok(total);
      }
      DoneGrows(data, done, chunk, input.Ahead(), size);
      done, ahead := done + [chunk], input.Ahead();
    }
  }

  datatype Step = Continued | Finished | Exhausted

  /** One round of the loop: look one byte ahead, seal the pending chunk, slide. */
  method EncryptChunk(sealer: Sealer, input: ChunkReader) returns (step: Step, n: nat)
    requires sealer.Ready() && input.Valid() && input.next.None? && sealer.nonce != input.plaintext
    modifies sealer, sealer.aead, sealer.dst, sealer.nonce, input, input.src, input.plaintext
    ensures step.Exhausted? <==> old(sealer.counter) == MAX_CHUNKS
    ensures step.Exhausted? ==> n == 0 && sealer.file == old(sealer.file)
    ensures !step.Exhausted? ==>
      && n == |old(input.Pending())|
      && sealer.file.passphrase == old(sealer.file.passphrase) && sealer.file.salt == old(sealer.file.salt)
      && sealer.file.prefix == old(sealer.file.prefix) && sealer.file.chunks == old(sealer.file.chunks) + [old(input.Pending())]
    ensures step.Finished? ==> sealer.Finished() && old(input.Ahead()) == old(input.Pending()) && input.src.rest == []
    ensures step.Continued? ==>
      && sealer.Ready() && input.Valid() && input.next.None?
      && n == input.plaintext.Length && input.Ahead() != [] && old(input.Ahead()) == old(input.Pending()) + input.Ahead()
      && |input.src.rest| < |old(input.src.rest)|
  {
    var final := input.Peek();
    if sealer.counter == MAX_CHUNKS {
      return Exhausted, 0;
    }
    n := input.pendingLen;
    sealer.SealChunk(input.Pending(), final);
    if final {
      return Finished, n;
    }
    input.Advance();
    step := Continued;
  }

  // ------------------------------------------------------------- decoder

  /**
   Decrypt. It returns what the specification says of the stream, and on
   success it has written exactly the plaintext.
   */
  method DecryptStream(aead: Aead, src: Reader, dst: Writer, passphrase: bytes) returns (r: Result<nat, CryptoError>)
    modifies src, dst
    ensures var spec := Decrypt(aead.table, passphrase, old(src.rest));
            match r
            case Ok(total) => spec.Ok? && total == |spec.value| && dst.written == old(dst.written) + spec.value
            case Err(e) => spec == Err(e)
  {
    if passphrase == [] {
      return Err(EmptyPassphrase);
    }
    ghost var stream := src.rest;
    var buf := new byte[HEADER_SIZE];
    var n := src.ReadFull(buf, 0);
    if n < HEADER_SIZE {
      return Err(MagicMismatch);
    }
    var header := buf[..];
    assert header == buf[..n] == stream[..HEADER_SIZE];
    SameHeader(stream);
    var parsed := DecodeHeader(header);
    if parsed.Err? {
      return Err(parsed.error);
    }
    var (chunkLog2, salt, prefix) := parsed.value;
    r := DecryptBody(aead, src, dst, passphrase, salt, prefix, Pow2(chunkLog2));
  }

  /** The header is read from the first 32 bytes alone. */
  lemma SameHeader(stream: bytes)
    requires |stream| >= HEADER_SIZE
    ensures DecodeHeader(stream[..HEADER_SIZE]) == DecodeHeader(stream)
  {
    var h := stream[..HEADER_SIZE];
    assert h[..4] == stream[..4] && h[8..24] == stream[8..24] && h[24..32] == stream[24..32];
  }

  /** The decoder loop: try the non-final nonce, then the final one. */
  method DecryptBody(aead: Aead, src: Reader, dst: Writer, passphrase: bytes, salt: bytes, prefix: bytes, size: nat)
    returns (r: Result<nat, CryptoError>)
    requires size >= 1 && |prefix| == 8
    modifies src, dst
    ensures var spec := DecodeFrom(aead.table, passphrase, salt, prefix, size, old(src.rest), 0);
            match r
            case Ok(total) => spec.Ok? && total == |spec.value| && dst.written == old(dst.written) + spec.value
            case Err(e) => spec == Err(e)
  {
    ghost var spec := DecodeFrom(aead.table, passphrase, salt, prefix, size, src.rest, 0);
    ghost var plain: bytes := [];
    assert spec.Ok? ==> plain + spec.value == spec.value;
    var ciphertext := new byte[size + TAG_SIZE];
    var nonce := new byte[12](i requires 0 <= i < 12 => if i < 8 then prefix[i] else 0);
    assert nonce[..8] == prefix;
    var counter, total: nat := 0, 0;
    while true
      invariant counter <= MAX_CHUNKS && nonce[..8] == prefix && total == |plain|
      invariant spec == Prepend(plain, DecodeFrom(aead.table, passphrase, salt, prefix, size, src.rest, counter))
      invariant dst.written == old(dst.written) + plain
      decreases |src.rest|
    {
      var step := DecryptChunk(aead, src, ciphertext, nonce, passphrase, salt, counter, size);
      if step.Err? {
        return Err(step.error);
      }
      var (p, final) := step.value;
      dst.Write(p);
      total := total + |p|;
      Assoc(old(dst.written), plain, p);
      if final {
        if src.rest != [] {
          return Err(TrailingData);
        }
        return Ok(total);
      }
      PrependTwice(plain, p, DecodeFrom(aead.table, passphrase, salt, prefix, size, src.rest, counter + 1));
      plain := plain + p;
      counter := counter + 1;
    }
  }

  /** One round of the loop: reads a chunk into the reused buffer and opens it. */
  method DecryptChunk(aead: Aead, src: Reader, ciphertext: array<byte>, nonce: array<byte>, passphrase: bytes, salt: bytes, counter: nat, size: nat)
    returns (step: Result<(bytes, bool), CryptoError>)
    requires size >= 1 && ciphertext.Length == size + TAG_SIZE && nonce.Length == 12 && counter <= MAX_CHUNKS && ciphertext != nonce
    modifies src, ciphertext, nonce
    ensures nonce[..8] == old(nonce[..8])
    ensures var spec := DecodeFrom(aead.table, passphrase, salt, old(nonce[..8]), size, old(src.rest), counter);
            match step
            case Err(e) => spec == Err(e)
            case Ok((p, final)) =>
              && counter < MAX_CHUNKS && |src.rest| < |old(src.rest)|
              && (final ==> spec == if src.rest == [] then Ok(p) else Err(TrailingData))
              && (!final ==> spec == Prepend(p, DecodeFrom(aead.table, passphrase, salt, old(nonce[..8]), size, src.rest, counter + 1)))
  {
    if counter == MAX_CHUNKS {
      return Err(CounterExhausted);
    }
    ghost var body := src.rest;
    var n := src.ReadFull(ciphertext, 0);
    if n == 0 {
      return Err(Truncated);
    }
    if n < TAG_SIZE {
      return Err(Truncated);
    }
    var chunk := ciphertext[..n];
    assert chunk == body[..n];
    var found := OpenChunk(aead, nonce, passphrase, salt, counter, chunk);
    return if found.None? then Err(ChunkNotAuthentic) else Ok(found.value);
  }

  method OpenChunk(aead: Aead, nonce: array<byte>, passphrase: bytes, salt: bytes, counter: nat, chunk: bytes)
    returns (r: Option<(bytes, bool)>)
    requires nonce.Length == 12 && counter < MAX_CHUNKS
    modifies nonce
    ensures nonce[..8] == old(nonce[..8])
    ensures r == TryOpen(aead.table, passphrase, salt, old(nonce[..8]), counter, chunk)
  {
    WriteCounter(nonce, counter, false);
    var middle := Open(aead.table, Slot(passphrase, salt, nonce[..]), chunk);
    if middle.Some? {
      return Some((middle.value, false));
    }
    WriteCounter(nonce, counter, true);
    var last := Open(aead.table, Slot(passphrase, salt, nonce[..]), chunk);
    r := if last.Some? then Some((last.value, true)) else None;
  }

  lemma PrependTwice(a: bytes, b: bytes, r: Decoded)
    ensures Prepend(a, Prepend(b, r)) == Prepend(a + b, r)
  {
    if r.Ok? { Assoc(a, b, r.value); }
  }

  /** What Encrypt wrote, DecryptStream turns back into the data, wherever the two run. */
  method EncryptThenDecrypt(aead: Aead, data: bytes, passphrase: bytes, chunkLog2: nat, salt: bytes, prefix: bytes)
    returns (r: Result<bytes, CryptoError>)
    requires 1 <= chunkLog2 <= MAX_CHUNK_LOG2 && |salt| == 16 && |prefix| == 8
    requires FreshSalt(aead.table, passphrase, salt)
    modifies aead
    ensures r.Ok? ==> r.value == data
    ensures r.Ok? <==> passphrase != [] && |Chunks(data, Pow2(chunkLog2))| <= 16_777_216
  {
    var src := new Reader(data);
    var dst := new Writer();
    var e, f := Encrypt(aead, src, dst, passphrase, chunkLog2, salt, prefix);
    if e.Err? {
      return Err(e.error);
    }
    assert dst.written == StreamOf(f, chunkLog2);
    RoundTrip(aead.table, f, data, chunkLog2);
    var back := new Reader(dst.written);
    var plain := new Writer();
    var d := DecryptStream(aead, back, plain, passphrase);
    r := Ok(plain.written);
  }
}
