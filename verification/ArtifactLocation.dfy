/**
 Where an artifact lies in a bucket: the display location its producer records
 (internal/backupmeta/location.go:9-27), and the key prefix that cleanup makes
 of it (internal/backupmeta/cleanup.go:84-94,
 cmd/bloodraven/artifact_cleanup.go:386-435).
 */
module ArtifactLocation {
  import opened Wrappers
  import opened Text

  datatype StorageType = S3 | PVC | Unknown(name: string)

  datatype LocationError = NoOutput | NoBucketForEncrypted | UnknownStorage

  const SCHEME := "s3://"

  function EncryptedUrl(bucket: string, output: string): (r: string)
  {
    SCHEME + (bucket + "/" + (TrimSlash(output) + "/"))
  }

  /** DisplayLocation. */
  function DisplayLocation(storage: StorageType, bucket: string, output: string, encrypted: bool): (r: Result<string, LocationError>)
  {
    if output == "" then Err(NoOutput)
    else match storage
      case PVC => Ok(output)
      case S3 =>
        if !encrypted then Ok(output)
        else if bucket == "" then Err(NoBucketForEncrypted)
        else Ok(EncryptedUrl(bucket, output))
      case Unknown(_) => Err(UnknownStorage)
  }

  /**
   What is displayed: the output itself, but for an encrypted dump in a bucket
   the URL of it, with one slash at its end; and why there is nothing to display.
   */
  lemma {:induction false} DisplayLocationIs(storage: StorageType, bucket: string, output: string, encrypted: bool)
    ensures var r := DisplayLocation(storage, bucket, output, encrypted);
            && (r == Err(NoOutput) <==> output == "")
            && (r == Err(UnknownStorage) <==> output != "" && storage.Unknown?)
            && (r == Err(NoBucketForEncrypted) <==> output != "" && storage == S3 && encrypted && bucket == "")
            && (output != "" && (storage == PVC || (storage == S3 && !encrypted)) ==> r == Ok(output))
    ensures bucket != "" && storage == S3 && encrypted && output != "" && output[|output| - 1] != '/' ==>
            && DisplayLocation(storage, bucket, output, encrypted) == Ok("s3://" + (bucket + "/" + (output + "/")))
            && DisplayLocation(storage, bucket, output + "/", encrypted) == Ok("s3://" + (bucket + "/" + (output + "/")))
  {
    assert TrimSlash(output + "/") == output;
  }

  datatype S3Location = S3Location(bucket: string, key: string, inBucket: bool)

  /** SplitS3Location. */
  function SplitS3Location(location: string): (r: S3Location)
  {
    if !HasPrefix(location, SCHEME) then S3Location("", location, false)
    else
      var rest := location[|SCHEME|..];
      match IndexSlash(rest)
      case None => S3Location(rest, "", true)
      case Some(i) => S3Location(rest[..i], rest[i + 1..], true)
  }

  datatype PrefixError = NoBucket | CrossBucket | AbsoluteKey | BadSegments

  predicate GoodSegment(s: string) {
    s != "" && s != "." && s != ".."
  }

  /** What follows the last slash. */
  function AfterLast(s: string): (r: string)
    decreases |s|
  {
    match IndexSlash(s)
    case None => s
    case Some(i) => AfterLast(s[i + 1..])
  }

  /** path.Base. */
  function Base(s: string): (r: string)
  {
    if s == "" then "."
    else
      var t := AfterLast(TrimSlashes(s));
      if t == "" then "/" else t
  }

  /** checkArtifactSegments, true where it returns no error. */
  predicate CheckArtifactSegments(key: string, name: string) {
    key != "" && (forall i | 0 <= i < |Split(key)| :: GoodSegment(Split(key)[i])) && Base(key) == name
  }

  /** cleanupS3Prefix. */
  function CleanupS3Prefix(location: string, bucket: string, name: string): (r: Result<string, PrefixError>)
  {
    var loc := SplitS3Location(location);
    if bucket == "" then Err(NoBucket)
    else if loc.inBucket && loc.bucket != bucket then Err(CrossBucket)
    else if HasPrefix(loc.key, "/") then Err(AbsoluteKey)
    else
      var key := TrimSlashes(loc.key);
      if !CheckArtifactSegments(key, name) then Err(BadSegments) else Ok(key + "/")
  }

  // ------------------------------------------------------------ what it names

  /** What comes before it, the slash included. */
  function Parent(s: string): (r: string)
    decreases |s|
  {
    match IndexSlash(s)
    case None => ""
    case Some(i) => s[..i + 1] + Parent(s[i + 1..])
  }

  predicate IsDirectory(s: string) {
    s == "" || s[|s| - 1] == '/'
  }

  lemma {:induction false} CutAtLast(s: string)
    ensures s == Parent(s) + AfterLast(s)
    decreases |s|
  {
    match IndexSlash(s)
    case None =>
    case Some(i) =>
      var rest := s[i + 1..];
      CutAtLast(rest);
      assert s == s[..i + 1] + rest;
      ConcatAssoc(s[..i + 1], Parent(rest), AfterLast(rest));
  }

  lemma {:induction false} DirectoryJoins(head: string, rest: string)
    requires IsDirectory(head) && IsDirectory(rest)
    ensures IsDirectory(head + rest)
  {
  }

  lemma {:induction false} ParentIsDirectory(s: string)
    ensures IsDirectory(Parent(s)) && SlashFree(AfterLast(s))
    decreases |s|
  {
    match IndexSlash(s)
    case None =>
    case Some(i) =>
      var head, rest := s[..i + 1], s[i + 1..];
      ParentIsDirectory(rest);
      DirectoryJoins(head, Parent(rest));
  }

  lemma {:induction false} LastSegment(s: string)
    ensures AfterLast(s) == Split(s)[|Split(s)| - 1]
    decreases |s|
  {
    match IndexSlash(s)
    case None =>
    case Some(i) => LastSegment(s[i + 1..]);
  }

  /** For a key of good segments, the base name is the last segment. */
  lemma {:induction false} CheckedBase(key: string, name: string)
    requires CheckArtifactSegments(key, name) && key[|key| - 1] != '/'
    ensures AfterLast(key) == name && GoodSegment(name)
  {
    TrimmedOnce(key);
    LastSegment(key);
    assert GoodSegment(Split(key)[|Split(key)| - 1]);
  }

  /**
   An accepted prefix is a directory of the bucket asked for, and its last
   segment is exactly the backup's name: a parent, the name, and a slash.
   */
  lemma {:induction false} PrefixNamesTheBackup(location: string, bucket: string, name: string, p: string)
    requires CleanupS3Prefix(location, bucket, name) == Ok(p)
    ensures var loc := SplitS3Location(location);
            var parent := Parent(TrimSlashes(loc.key));
            && (loc.inBucket ==> loc.bucket == bucket)
            && p == parent + name + "/"
            && IsDirectory(parent) && !HasPrefix(p, "/") && SlashFree(name) && GoodSegment(name)
  {
    var loc := SplitS3Location(location);
    var key := TrimSlashes(loc.key);
    CheckedBase(key, name);
    CutAtLast(key);
    ParentIsDirectory(key);
    assert p[..1] == [key[0]] == loc.key[..1];
  }

  lemma {:induction false} TrimmedOnce(s: string)
    requires s != "" ==> s[|s| - 1] != '/'
    ensures TrimSlashes(s) == s
  {
  }

  /** Only slashes are cut from the end. */
  lemma {:induction false} TrimCutsSlashes(s: string)
    ensures forall i | |TrimSlashes(s)| <= i < |s| :: s[i] == '/'
  {
    if s != "" && s[|s| - 1] == '/' {
      TrimCutsSlashes(s[..|s| - 1]);
      assert forall i | 0 <= i < |s| - 1 :: s[..|s| - 1][i] == s[i];
    }
  }

  /** Every segment names something, and the last one is the name. */
  predicate NamesArtifact(segs: seq<string>, name: string) {
    |segs| > 0 && segs[|segs| - 1] == name && forall i | 0 <= i < |segs| :: segs[i] != "" && segs[i] != "." && segs[i] != ".."
  }

  /** What cleanup accepts of a bare key, the slashes at its end aside. */
  lemma {:induction false} BareAcceptedIff(key: string, bucket: string, name: string)
    requires bucket != "" && !HasPrefix(key, "s3://")
    ensures var r, t := CleanupS3Prefix(key, bucket, name), TrimSlashes(key);
            (r.Ok? <==> NamesArtifact(Split(t), name)) && (r.Ok? ==> r.value == t + "/")
  {
    KeyAcceptedIff(key, name);
  }

  /** And of a URL: the same of its key, in the bucket asked for and no other. */
  lemma {:induction false} UrlAcceptedIff(host: string, key: string, bucket: string, name: string)
    requires bucket != "" && SlashFree(host)
    ensures var r, t := CleanupS3Prefix("s3://" + (host + "/" + key), bucket, name), TrimSlashes(key);
            && (r.Ok? <==> host == bucket && NamesArtifact(Split(t), name)) && (r.Ok? ==> r.value == t + "/")
            && (r == Err(CrossBucket) <==> host != bucket)
  {
    CutAtSlash(host, key);
    SplitUrl(host + "/" + key, |host|);
    KeyAcceptedIff(key, name);
  }

  lemma {:induction false} KeyAcceptedIff(key: string, name: string)
    ensures !HasPrefix(key, "/") && CheckArtifactSegments(TrimSlashes(key), name) <==> NamesArtifact(Split(TrimSlashes(key)), name)
  {
    var t := TrimSlashes(key);
    TrimmedOnce(t);
    LastSegment(t);
    if t != "" && HasPrefix(key, "/") {
      assert t[0] == key[..1][0];
      assert Split(t)[0] == "";
    } else if t == "" {
      assert Split(t) == [""];
    }
  }

  /** Artifacts of two names under one parent share no key, "backup-1" and "backup-10" included. */
  lemma {:induction false} NamesShareNoKey(parent: string, name: string, other: string, key: string)
    requires SlashFree(name) && SlashFree(other) && name != other
    requires HasPrefix(key, parent + name + "/")
    ensures !HasPrefix(key, parent + other + "/")
  {
    if HasPrefix(key, parent + other + "/") {
      var p, q := parent + name + "/", parent + other + "/";
      var x, y := key[|p|..], key[|q|..];
      assert key == p + x && key == q + y;
      assert key[|parent|..] == name + "/" + x;
      assert key[|parent|..] == other + "/" + y;
      SplitsOnce(name, x, other, y);
      assert false;
    }
  }

  // ----------------------------------------- plain and encrypted display alike

  lemma {:induction false} TrimsAlike(s: string)
    ensures TrimSlashes(TrimSlash(s) + "/") == TrimSlashes(s)
  {
    var t := TrimSlash(s) + "/";
    assert t[..|t| - 1] == TrimSlash(s);
    assert s == "" ==> TrimSlashes(s) == "" && t == "/" && TrimSlashes("/") == TrimSlashes("");
  }

  lemma {:induction false} EncryptedSplits(bucket: string, output: string)
    requires SlashFree(bucket)
    ensures SplitS3Location(EncryptedUrl(bucket, output)) == S3Location(bucket, TrimSlash(output) + "/", true)
  {
    var key := TrimSlash(output) + "/";
    CutAtSlash(bucket, key);
    SplitUrl(bucket + "/" + key, |bucket|);
  }

  lemma {:induction false} SplitUrl(rest: string, i: nat)
    requires IndexSlash(rest) == Some(i)
    ensures SplitS3Location(SCHEME + rest) == S3Location(rest[..i], rest[i + 1..], true)
  {
    CutAfter(SCHEME, rest);
  }

  lemma {:induction false} EncryptedPrefix(bucket: string, output: string, name: string)
    requires bucket != "" && SlashFree(bucket)
    ensures CleanupS3Prefix(EncryptedUrl(bucket, output), bucket, name) ==
            if HasPrefix(TrimSlash(output) + "/", "/") then Err(AbsoluteKey)
            else if !CheckArtifactSegments(TrimSlashes(output), name) then Err(BadSegments)
            else Ok(TrimSlashes(output) + "/")
  {
    EncryptedSplits(bucket, output);
    TrimsAlike(output);
  }

  /** An output that is not itself a URL is cleaned up under the same prefix whether the dump was encrypted or not. */
  lemma {:induction false} PlainAndEncryptedAlike(bucket: string, output: string, name: string)
    requires bucket != "" && SlashFree(bucket) && output != ""
    requires !HasPrefix(output, SCHEME)
    ensures var plain, encrypted := DisplayLocation(S3, bucket, output, false), DisplayLocation(S3, bucket, output, true);
            plain.Ok? && encrypted.Ok? &&
            CleanupS3Prefix(plain.value, bucket, name) == CleanupS3Prefix(encrypted.value, bucket, name)
  {
    EncryptedPrefix(bucket, output, name);
    var key := TrimSlash(output) + "/";
    assert key[0] == output[0];
    assert HasPrefix(key, "/") <==> HasPrefix(output, "/") by {
      assert key[..1] == [key[0]] && output[..1] == [output[0]];
    }
  }

  /** An output that is a URL and names an artifact when the dump is plain names none when it is encrypted. */
  lemma {:induction false} UrlOutputDiffers(bucket: string, output: string, name: string)
    requires bucket != "" && SlashFree(bucket) && HasPrefix(output, SCHEME)
    requires CleanupS3Prefix(output, bucket, name).Ok?
    ensures CleanupS3Prefix(EncryptedUrl(bucket, output), bucket, name).Err?
  {
    EncryptedPrefix(bucket, output, name);
    var after := UrlTrim(output);
    SchemeSegments(after);
    BadSegment(TrimSlashes(output), name, 1);
  }

  /** Where cleanup accepts the plain location, it reads the encrypted one alike exactly when the output is no URL. */
  lemma {:induction false} CleanedAlikeIff(bucket: string, output: string, name: string)
    requires bucket != "" && SlashFree(bucket) && output != "" && CleanupS3Prefix(output, bucket, name).Ok?
    ensures CleanupS3Prefix(EncryptedUrl(bucket, output), bucket, name) == CleanupS3Prefix(output, bucket, name)
            <==> !HasPrefix(output, SCHEME)
  {
    if HasPrefix(output, SCHEME) {
      UrlOutputDiffers(bucket, output, name);
    } else {
      PlainAndEncryptedAlike(bucket, output, name);
    }
  }

  lemma {:induction false} BadSegment(key: string, name: string, i: nat)
    requires i < |Split(key)| && !GoodSegment(Split(key)[i])
    ensures !CheckArtifactSegments(key, name)
  {
  }

  lemma {:induction false} UrlTrim(output: string) returns (after: string)
    requires HasPrefix(output, SCHEME) && TrimSlashes(SplitS3Location(output).key) != ""
    ensures TrimSlashes(output) == SCHEME + after
  {
    var rest := output[|SCHEME|..];
    var i := IndexSlash(rest).value;
    assert output == SCHEME + rest;
    assert rest == rest[..i + 1] + rest[i + 1..];
    ConcatAssoc(SCHEME, rest[..i + 1], rest[i + 1..]);
    TrimKeeps(output, SCHEME + rest[..i + 1], rest[i + 1..]);
    after := rest[..i + 1] + TrimSlashes(rest[i + 1..]);
    ConcatAssoc(SCHEME, rest[..i + 1], TrimSlashes(rest[i + 1..]));
  }

  lemma {:induction false} SchemeSegments(after: string)
    ensures Split(SCHEME + after) == ["s3:"] + ([""] + Split(after))
  {
    var mid := "/" + after;
    assert "" + "/" + after == mid;
    SplitAfter("", after);
    assert SCHEME == "s3:" + "/" + "/";
    ConcatAssoc("s3:" + "/", "/", after);
    SplitAfter("s3:", mid);
  }

  /** Trimming stops at the last character that is no slash, wherever the text is cut before it. */
  lemma {:induction false} TrimKeeps(s: string, a: string, b: string)
    requires s == a + b && TrimSlashes(b) != ""
    ensures TrimSlashes(s) == a + TrimSlashes(b)
    decreases |b|
  {
    if b[|b| - 1] == '/' {
      var n := |b| - 1;
      assert s[..|s| - 1] == a + b[..n];
      TrimKeeps(s[..|s| - 1], a, b[..n]);
    }
  }

  /** An output that is a URL of the bucket: the plain dump is cleaned up under "n/", the encrypted one never. */
  lemma {:induction false} UrlOutputExample()
    ensures CleanupS3Prefix("s3://b/n", "b", "n") == Ok("n/")
    ensures CleanupS3Prefix(EncryptedUrl("b", "s3://b/n"), "b", "n").Err?
  {
    UrlSplits();
    PlainName();
    UrlOutputDiffers("b", "s3://b/n", "n");
  }

  lemma {:induction false} UrlSplits()
    ensures SplitS3Location("s3://b/n") == S3Location("b", "n", true) && HasPrefix("s3://b/n", SCHEME)
  {
    var rest := "b" + "/" + "n";
    CutAtSlash("b", "n");
    SplitUrl(rest, 1);
    assert "s3://b/n" == SCHEME + rest;
  }

  lemma {:induction false} PlainName()
    ensures TrimSlashes("n") == "n" && CheckArtifactSegments("n", "n") && !HasPrefix("n", "/") && "n" + "/" == "n/"
  {
    assert "n"[..1] == "n";
    assert TrimSlashes("n") == "n";
    assert Split("n") == ["n"] && AfterLast("n") == "n";
  }
}
