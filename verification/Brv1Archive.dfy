/**
 Many files in one key store: encrypt-upload seals every file of a dump under
 one passphrase and a salt of its own (cmd/bloodraven/encrypt_upload.go:334-405,
 internal/backupcrypto/crypto.go:170-368). Each stays readable, and the only
 thing readable under its salt, whatever is sealed after it.
 */
module Brv1Archive {
  import opened Wrappers
  import opened Brv1
  import opened Brv1Security
  import opened Brv1Stream

  /** A file stays encrypted as it was when another is sealed under another salt. */
  lemma {:induction false} EncryptedStays(before: Table, after: Table, f: File, data: bytes, chunkLog2: nat, passphrase: bytes, salt: bytes)
    requires Encrypted(before, f, data, chunkLog2) && Kept(before, after) && OnlyUnder(before, after, passphrase, salt)
    requires f.passphrase != passphrase || f.salt != salt
    ensures Encrypted(after, f, data, chunkLog2)
  {
    forall i | 0 <= i < |f.chunks|
      ensures f.SlotOf(i) in after && after[f.SlotOf(i)] == Sealed(f.chunks[i], f.ciphers[i])
    {
      assert f.SlotOf(i) in before;
    }
  }

  lemma {:induction false} StillFresh(before: Table, after: Table, passphrase: bytes, salt: bytes, other: bytes)
    requires FreshSalt(before, passphrase, other) && OnlyUnder(before, after, passphrase, salt) && salt != other
    ensures FreshSalt(after, passphrase, other)
  {
    forall slot | slot in after ensures slot.passphrase != passphrase || slot.salt != other {
    }
  }

  /** The i-th file is in the table as the encoder wrote it, under its own salt. */
  ghost predicate FileIs(table: Table, f: File, passphrase: bytes, salt: bytes, data: bytes, chunkLog2: nat, stream: bytes) {
    Encrypted(table, f, data, chunkLog2) && f.passphrase == passphrase && f.salt == salt && stream == StreamOf(f, chunkLog2)
  }

  ghost predicate Distinct(salts: seq<bytes>) {
    forall i, j | 0 <= i < j < |salts| :: salts[i] != salts[j]
  }

  /** The passphrase is not empty and the file is within the chunk budget. */
  predicate Fits(passphrase: bytes, data: bytes, chunkLog2: nat) {
    passphrase != [] && |Chunks(data, Pow2(chunkLog2))| <= MAX_CHUNKS
  }

  ghost predicate UnderSome(slot: Slot, passphrase: bytes, salts: seq<bytes>) {
    slot.passphrase == passphrase && exists j :: 0 <= j < |salts| && slot.salt == salts[j]
  }

  /** Nothing but the files is in the key store. */
  ghost predicate Covered(table: Table, passphrase: bytes, salts: seq<bytes>) {
    forall slot | slot in table :: UnderSome(slot, passphrase, salts)
  }

  /** One more file: it reads back, and those before it still do. */
  method EncryptNext(aead: Aead, files: seq<bytes>, i: nat, passphrase: bytes, chunkLog2: nat, salts: seq<bytes>, prefix: bytes, streams: seq<bytes>, ghost fs: seq<File>)
    returns (ok: bool, stream: bytes, ghost f: File)
    requires i < |files| == |salts| && |streams| == |fs| == i && 1 <= chunkLog2 <= MAX_CHUNK_LOG2 && |prefix| == 8
    requires Distinct(salts) && (forall j | 0 <= j < |salts| :: |salts[j]| == 16)
    requires forall j | i <= j < |salts| :: FreshSalt(aead.table, passphrase, salts[j])
    requires forall j | 0 <= j < i :: FileIs(aead.table, fs[j], passphrase, salts[j], files[j], chunkLog2, streams[j])
    modifies aead
    ensures ok <==> Fits(passphrase, files[i], chunkLog2)
    ensures ok ==> FileIs(aead.table, f, passphrase, salts[i], files[i], chunkLog2, stream)
    ensures ok ==> forall j | 0 <= j < i :: FileIs(aead.table, fs[j], passphrase, salts[j], files[j], chunkLog2, streams[j])
    ensures ok ==> forall j | i < j < |salts| :: FreshSalt(aead.table, passphrase, salts[j])
    ensures ok && Covered(old(aead.table), passphrase, salts) ==> Covered(aead.table, passphrase, salts)
  {
    ghost var before := aead.table;
    var src := new Reader(files[i]);
    var dst := new Writer();
    var r;
    r, f := Encrypt(aead, src, dst, passphrase, chunkLog2, salts[i], prefix);
    ok, stream := r.Ok?, dst.written;
    if ok {
      assert [] + StreamOf(f, chunkLog2) == StreamOf(f, chunkLog2);
      forall j | 0 <= j < i ensures FileIs(aead.table, fs[j], passphrase, salts[j], files[j], chunkLog2, streams[j]) {
        EncryptedStays(before, aead.table, fs[j], files[j], chunkLog2, passphrase, salts[i]);
      }
      forall j | i < j < |salts| ensures FreshSalt(aead.table, passphrase, salts[j]) {
        StillFresh(before, aead.table, passphrase, salts[i], salts[j]);
      }
    }
  }

  /**
   The files of a dump, one after another: in the key store all of them leave
   behind each stream decrypts to its file.
   */
  method EncryptFiles(aead: Aead, files: seq<bytes>, passphrase: bytes, chunkLog2: nat, salts: seq<bytes>, prefixes: seq<bytes>)
    returns (ok: bool, streams: seq<bytes>, ghost fs: seq<File>)
    requires |files| == |salts| == |prefixes| && 1 <= chunkLog2 <= MAX_CHUNK_LOG2
    requires Distinct(salts) && forall j | 0 <= j < |salts| :: |salts[j]| == 16 && |prefixes[j]| == 8
    requires forall j | 0 <= j < |salts| :: FreshSalt(aead.table, passphrase, salts[j])
    modifies aead
    ensures ok <==> forall j | 0 <= j < |files| :: Fits(passphrase, files[j], chunkLog2)
    ensures ok ==> |streams| == |fs| == |files|
    ensures ok ==> forall j | 0 <= j < |files| :: Decrypt(aead.table, passphrase, streams[j]) == Ok(files[j])
    ensures ok ==> forall j | 0 <= j < |files| :: FileIs(aead.table, fs[j], passphrase, salts[j], files[j], chunkLog2, streams[j])
    ensures ok && Covered(old(aead.table), passphrase, salts) ==> Covered(aead.table, passphrase, salts)
  {
    streams, fs := [], [];
    var i := 0;
    while i < |files|
      invariant 0 <= i <= |files| && |streams| == |fs| == i
      invariant forall j | 0 <= j < i :: Fits(passphrase, files[j], chunkLog2)
      invariant forall j | i <= j < |salts| :: FreshSalt(aead.table, passphrase, salts[j])
      invariant Covered(old(aead.table), passphrase, salts) ==> Covered(aead.table, passphrase, salts)
      invariant forall j | 0 <= j < i :: FileIs(aead.table, fs[j], passphrase, salts[j], files[j], chunkLog2, streams[j])
    {
      var stream;
      ghost var f;
      ok, stream, f := EncryptNext(aead, files, i, passphrase, chunkLog2, salts, prefixes[i], streams, fs);
      if !ok {
        assert !Fits(passphrase, files[i], chunkLog2);
        return;
      }
      streams, fs, i := streams + [stream], fs + [f], i + 1;
    }
    ok := true;
    forall j | 0 <= j < |files| ensures Decrypt(aead.table, passphrase, streams[j]) == Ok(files[j]) {
      RoundTrip(aead.table, fs[j], files[j], chunkLog2);
    }
  }

  /**
   With the key store that the files leave behind, any stream Decrypt accepts,
   under any passphrase, is that of one of the files up to the two exponent
   bytes, and yields that file: nothing can be cut, mixed or put together.
   */
  lemma {:induction false} ArchiveAuthentic(table: Table, fs: seq<File>, passphrase: bytes, salts: seq<bytes>, files: seq<bytes>, chunkLog2: nat, streams: seq<bytes>, other: bytes, stream: bytes)
    returns (j: nat)
    requires |fs| == |salts| == |files| == |streams| && Covered(table, passphrase, salts)
    requires forall i | 0 <= i < |fs| :: FileIs(table, fs[i], passphrase, salts[i], files[i], chunkLog2, streams[i])
    requires Decrypt(table, other, stream).Ok?
    ensures j < |files| && other == passphrase && Decrypt(table, other, stream) == Ok(files[j])
    ensures |stream| == |streams[j]| && stream[..6] == streams[j][..6] && stream[8..] == streams[j][8..]
  {
    var (e, salt, prefix) := DecodeHeader(stream).value;
    FirstChunkOpened(table, other, salt, prefix, Pow2(e), stream[HEADER_SIZE..]);
    var slot :| slot in table && slot.passphrase == other && slot.salt == salt;
    assert UnderSome(slot, passphrase, salts);
    j :| 0 <= j < |salts| && slot.salt == salts[j];
    AcceptedUnderSalt(table, fs[j], files[j], chunkLog2, stream);
  }
}
