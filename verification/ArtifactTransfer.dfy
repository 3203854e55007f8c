/**
 encrypt-upload and decrypt-download of a dump
 (cmd/bloodraven/encrypt_upload.go:158-181, 290-368, 507-581, 593-672, 680-710)
 through a store that returns what was put. An object is the plaintext it
 seals, as the stream codec guarantees of its own round trip; a digest is the
 content it is the digest of.
 */
module ArtifactTransfer {
  import opened Wrappers
  import opened Text
  import opened ArtifactLocation
  import opened Paths
  import opened Sorting
  import opened Restoring

  const MANIFEST := "BLOODRAVEN_ENCRYPTION.json"
  const DUMP_META := "BLOODRAVEN_DUMP_META.json"

  /** Uploads of one file are tried three times. */
  const UPLOAD_RETRIES := 2

  datatype Object = Sealed(plain: Content) | Manifest(digests: map<string, Content>)

  type Objects = map<string, Object>

  /** Files by their path under the staging directory, as the walk yields them. */
  type Dump = map<string, Content>

  ghost predicate Good(files: Dump) {
    forall rel | rel in files :: GoodRel(rel)
  }

  /** No file's path is a directory of another's. */
  ghost predicate NoClash(files: Dump) {
    forall a, b | a in files && b in files :: !Under(a, b)
  }

  /** What a walk of a directory yields. */
  ghost predicate Walked(dump: Dump) {
    Good(dump) && NoClash(dump)
  }

  /** What encrypt-upload sends: the dump metadata file stays behind, whatever directory it is in. */
  function Sent(dump: Dump): (r: Dump)
  {
    map rel | rel in dump && AfterLast(rel) != DUMP_META :: dump[rel]
  }

  /** What a restore gets back: the manifest takes the place of a dump file of its name. */
  function Restorable(dump: Dump): (r: Dump)
  {
    map rel | rel in dump && AfterLast(rel) != DUMP_META && rel != MANIFEST :: dump[rel]
  }

  function KeyOf(prefix: string, rel: string): (k: string)
  {
    PathJoin(prefix, rel)
  }

  // -------------------------------------------------------------------- upload

  /** `after` holds `files` beside what was there, each under its key. */
  ghost predicate Holds(before: Objects, after: Objects, prefix: string, files: Dump) {
    (forall rel | rel in files :: HoldsFile(after, prefix, rel, files[rel])) &&
    (forall k | k in after :: (k in before && after[k] == before[k]) || IsKey(prefix, files, k)) &&
    (forall k | k in before :: (k in after && after[k] == before[k]) || IsKey(prefix, files, k))
  }

  ghost predicate HoldsFile(objects: Objects, prefix: string, rel: string, c: Content) {
    KeyOf(prefix, rel) in objects && objects[KeyOf(prefix, rel)] == Sealed(c)
  }

  ghost predicate IsKey(prefix: string, files: Dump, k: string) {
    exists rel | rel in files :: KeyOf(prefix, rel) == k
  }

  /** Paths a walk yields never meet on one key, whatever the prefix. */
  lemma {:induction false} KeysInjective(prefix: string, a: string, b: string)
    requires GoodRel(a) && GoodRel(b) && KeyOf(prefix, a) == KeyOf(prefix, b)
    ensures a == b
  {
    GoodNotEmpty(a);
    GoodNotEmpty(b);
    if prefix == "" {
      UnrootedRel(a);
      UnrootedRel(b);
    } else {
      JoinResolves(prefix, a);
      JoinResolves(prefix, b);
      var r := Resolve(Split(prefix), Rooted(prefix));
      SplitSlashFree(prefix);
      ResolveSlashFree(Split(prefix), Rooted(prefix));
      SameSegments(r, a, b, Rooted(prefix));
    }
  }

  lemma {:induction false} SameSegments(r: Segments, a: string, b: string, rooted: bool)
    requires SlashFrees(r) && Rebuilt(r + Split(a), rooted) == Rebuilt(r + Split(b), rooted)
    ensures a == b
  {
    var root := if rooted then "/" else "";
    CutAfter(root, JoinSegments(r + Split(a)));
    CutAfter(root, JoinSegments(r + Split(b)));
    SplitSlashFree(a);
    SplitSlashFree(b);
    SplitJoin(r + Split(a));
    SplitJoin(r + Split(b));
    assert (r + Split(a))[|r|..] == Split(a) && (r + Split(b))[|r|..] == Split(b);
    JoinSplit(a);
    JoinSplit(b);
  }

  lemma {:induction false} GoodNotEmpty(rel: string)
    requires GoodRel(rel)
    ensures rel != ""
  {
    assert Split("") == [""];
    assert GoodSegment(Split(rel)[0]);
  }

  lemma {:induction false} HoldsOneMore(before: Objects, objects: Objects, prefix: string, files: Dump, rel: string, c: Content)
    requires Holds(before, objects, prefix, files) && Good(files) && GoodRel(rel) && rel !in files
    ensures Holds(before, objects[KeyOf(prefix, rel) := Sealed(c)], prefix, files[rel := c])
  {
    var after, more := objects[KeyOf(prefix, rel) := Sealed(c)], files[rel := c];
    forall r | r in more ensures HoldsFile(after, prefix, r, more[r]) {
      if r != rel {
        assert HoldsFile(objects, prefix, r, files[r]);
        if KeyOf(prefix, r) == KeyOf(prefix, rel) {
          KeysInjective(prefix, r, rel);
        }
      }
    }
    forall k | k in after ensures (k in before && after[k] == before[k]) || IsKey(prefix, more, k) {
      if k == KeyOf(prefix, rel) {
        assert rel in more;
      } else if IsKey(prefix, files, k) {
        var r :| r in files && KeyOf(prefix, r) == k;
        assert r in more;
      }
    }
    forall k | k in before ensures (k in after && after[k] == before[k]) || IsKey(prefix, more, k) {
      if k == KeyOf(prefix, rel) {
        assert rel in more;
      } else if IsKey(prefix, files, k) {
        var r :| r in files && KeyOf(prefix, r) == k;
        assert r in more;
      }
    }
  }

  class Store {
    var objects: Objects
    ghost var faults: nat

    constructor (objects: Objects)
      ensures this.objects == objects && faults == 0
    {
      this.objects, faults := objects, 0;
    }

    /** One upload, given up when it failed three times; a failed attempt may have landed. */
    method PutFile(key: string, o: Object) returns (ok: bool)
      modifies this
      ensures ok ==> objects == old(objects)[key := o]
      ensures !ok ==> objects == old(objects) || objects == old(objects)[key := o]
      ensures if ok then old(faults) <= faults < old(faults) + 3 else faults == old(faults) + 3
    {
      var attempt := 0;
      while attempt <= UPLOAD_RETRIES
        invariant objects == old(objects) || objects == old(objects)[key := o]
        invariant attempt <= 3 && faults == old(faults) + attempt
      {
        var fails: bool := *;
        var lands: bool := *;
        if lands || !fails {
          objects := objects[key := o];
        }
        if !fails {
          return true;
        }
        faults := faults + 1;
        attempt := attempt + 1;
      }
      return false;
    }
  }

  ghost predicate SubDump(part: Dump, dump: Dump) {
    forall rel | rel in part :: rel in dump && part[rel] == dump[rel]
  }

  /**
   encryptAndUpload: every file but the dump metadata under its key, and the
   digests of what was sent. An upload that fails has sent some of them.
   */
  method EncryptAndUpload(store: Store, prefix: string, dump: Dump) returns (r: Option<map<string, Content>>, ghost part: Dump)
    requires Walked(dump)
    modifies store
    ensures SubDump(part, Sent(dump)) && Good(part) && Holds(old(store.objects), store.objects, prefix, part)
    ensures if r.Some? then r.value == part == Sent(dump) && store.faults >= old(store.faults)
            else store.faults >= old(store.faults) + 3
  {
    var sent := Sent(dump);
    var todo := sent.Keys;
    var digests: map<string, Content> := map[];
    ghost var before := store.objects;
    while todo != {}
      invariant todo <= sent.Keys && digests.Keys == sent.Keys - todo
      invariant SubDump(digests, sent) && Good(digests)
      invariant Holds(before, store.objects, prefix, digests) && store.faults >= old(store.faults)
      decreases todo
    {
      var rel :| rel in todo;
      ghost var objects := store.objects;
      HoldsOneMore(before, store.objects, prefix, digests, rel, sent[rel]);
      var ok := store.PutFile(KeyOf(prefix, rel), Sealed(sent[rel]));
      if !ok {
        part := if store.objects == objects then digests else digests[rel := sent[rel]];
        return None, part;
      }
      digests := digests[rel := sent[rel]];
      todo := todo - {rel};
    }
    assert digests == sent;
    return Some(digests), digests;
  }

  // ------------------------------------------------------------------ download

  /** strings.TrimPrefix. */
  function TrimPrefix(s: string, prefix: string): (r: string)
  {
    if HasPrefix(s, prefix) then s[|prefix|..] else s
  }

  function RelOf(prefix: string, key: string): (rel: string)
  {
    TrimPrefix(TrimPrefix(key, prefix), "/")
  }

  /** Neither a directory placeholder nor the manifest. */
  predicate Wanted(prefix: string, key: string) {
    RelOf(prefix, key) != "" && !(key != "" && key[|key| - 1] == '/') && RelOf(prefix, key) != MANIFEST
  }

  predicate Printable(rel: string) {
    forall i | 0 <= i < |rel| :: rel[i] as int >= 0x20 || rel[i] == '\t'
  }

  /** safeJoinUnderRoot, as a path under the root; the root itself is no file. */
  function SafeJoin(rel: string): (r: Option<string>)
  {
    if !Printable(rel) then None
    else
      var cleaned := Clean(rel);
      if Rooted(cleaned) || cleaned == "." || cleaned == ".." || HasPrefix(cleaned, "../") then None
      else Some(cleaned)
  }

  /** NAME_MAX: the longest temporary name of a file must fit a directory entry. */
  const NAME_MAX := 255

  predicate ShortName(p: string) {
    |AfterLast(p)| + |PART + PART| <= NAME_MAX
  }

  /** The object restores content c at path p; None where the download stops with an error. */
  function Restored(objects: Objects, digests: map<string, Content>, prefix: string, key: string): (r: Option<(string, Content)>)
    requires key in objects
  {
    var rel := RelOf(prefix, key);
    if SafeJoin(rel).None? || !objects[key].Sealed? then None
    else if !ShortName(SafeJoin(rel).value) || (rel in digests && digests[rel] != objects[key].plain) then None
    else Some((SafeJoin(rel).value, objects[key].plain))
  }

  function Listed(objects: Objects, prefix: string): (ks: set<string>)
  {
    set k | k in objects && HasPrefix(k, prefix + "/")
  }

  /** loadEncryptionManifest: no digests when there is no manifest. */
  function DigestsOf(objects: Objects, prefix: string): (d: map<string, Content>)
  {
    var key := KeyOf(prefix, MANIFEST);
    if key in objects && objects[key].Manifest? then objects[key].digests else map[]
  }

  /** The key loop over keys in this order; None where it stops with an error. */
  function Replay(objects: Objects, digests: map<string, Content>, prefix: string, order: seq<string>): (r: Option<Dump>)
    requires forall k | k in order :: k in objects
  {
    if order == [] then Some(map[])
    else
      var n := |order| - 1;
      match Replay(objects, digests, prefix, order[..n])
      case None => None
      case Some(out) =>
        if !Wanted(prefix, order[n]) then Some(out)
        else match Restored(objects, digests, prefix, order[n])
          case None => None
          case Some(file) => Place(out, file)
  }

  /** The key loop of decrypt-download. */
  method DownloadInOrder(store: Store, prefix: string, order: seq<string>) returns (r: Option<Dump>)
    requires forall k | k in order :: k in store.objects
    ensures r == Replay(store.objects, DigestsOf(store.objects, prefix), prefix, order)
  {
    var digests := DigestsOf(store.objects, prefix);
    var out: Dump := map[];
    var i := 0;
    while i < |order|
      invariant 0 <= i <= |order| && Replay(store.objects, digests, prefix, order[..i]) == Some(out)
    {
      var key := order[i];
      assert order[..i + 1][..i] == order[..i];
      i := i + 1;
      if !Wanted(prefix, key) {
        continue;
      }
      var file := Restored(store.objects, digests, prefix, key);
      if file.None? || Place(out, file.value).None? {
        FailsFor(store.objects, digests, prefix, order, i);
        return None;
      }
      out := Place(out, file.value).value;
    }
    assert order[..i] == order;
    return Some(out);
  }

  lemma {:induction false} FailsFor(objects: Objects, digests: map<string, Content>, prefix: string, order: seq<string>, i: nat)
    requires (forall k | k in order :: k in objects) && i <= |order| && Replay(objects, digests, prefix, order[..i]).None?
    ensures Replay(objects, digests, prefix, order).None?
    decreases |order| - i
  {
    if i < |order| {
      assert order[..i + 1][..i] == order[..i];
      FailsFor(objects, digests, prefix, order, i + 1);
    } else {
      assert order[..i] == order;
    }
  }

  /** The keys of the order that are files. */
  function WantedOf(prefix: string, order: seq<string>): (ks: seq<string>)
  {
    if order == [] then []
    else WantedOf(prefix, order[..|order| - 1]) + if Wanted(prefix, order[|order| - 1]) then [order[|order| - 1]] else []
  }

  ghost predicate AllRestore(objects: Objects, digests: map<string, Content>, prefix: string, ks: seq<string>) {
    forall k | k in ks :: k in objects && Restored(objects, digests, prefix, k).Some?
  }

  function FilesOf(objects: Objects, digests: map<string, Content>, prefix: string, ks: seq<string>): (fs: seq<Placement>)
    requires AllRestore(objects, digests, prefix, ks)
    ensures |fs| == |ks|
  {
    seq(|ks|, i requires 0 <= i < |ks| => Restored(objects, digests, prefix, ks[i]).value)
  }

  lemma {:induction false} WantedMembers(prefix: string, order: seq<string>, k: string)
    ensures k in WantedOf(prefix, order) <==> k in order && Wanted(prefix, k)
  {
    if order != [] {
      var n := |order| - 1;
      WantedMembers(prefix, order[..n], k);
      assert order == order[..n] + [order[n]];
    }
  }

  /** The loop is the placing of the wanted files in turn, or fails for one that cannot be restored. */
  lemma {:induction false} ReplayIsPlaceAll(objects: Objects, digests: map<string, Content>, prefix: string, order: seq<string>)
    requires forall k | k in order :: k in objects
    ensures var ks := WantedOf(prefix, order);
            Replay(objects, digests, prefix, order) ==
              if AllRestore(objects, digests, prefix, ks) then PlaceAll(FilesOf(objects, digests, prefix, ks)) else None
  {
    if order != [] {
      var n := |order| - 1;
      var start, key := order[..n], order[n];
      ReplayIsPlaceAll(objects, digests, prefix, start);
      if Wanted(prefix, key) {
        OneMoreWanted(objects, digests, prefix, WantedOf(prefix, start), key);
      } else {
        assert WantedOf(prefix, order) == WantedOf(prefix, start);
      }
    }
  }

  lemma {:induction false} OneMoreWanted(objects: Objects, digests: map<string, Content>, prefix: string, ks: seq<string>, key: string)
    requires key in objects
    ensures AllRestore(objects, digests, prefix, ks + [key]) <==>
            AllRestore(objects, digests, prefix, ks) && Restored(objects, digests, prefix, key).Some?
    ensures AllRestore(objects, digests, prefix, ks + [key]) ==>
            PlaceAll(FilesOf(objects, digests, prefix, ks + [key])) ==
            match PlaceAll(FilesOf(objects, digests, prefix, ks))
            case None => None
            case Some(out) => Place(out, Restored(objects, digests, prefix, key).value)
  {
    RestoreOneMore(objects, digests, prefix, ks, key);
    if AllRestore(objects, digests, prefix, ks + [key]) {
      FilesSnoc(objects, digests, prefix, ks, key);
      var fs, f := FilesOf(objects, digests, prefix, ks), Restored(objects, digests, prefix, key).value;
      assert (fs + [f])[..|fs|] == fs;
    }
  }

  lemma {:induction false} RestoreOneMore(objects: Objects, digests: map<string, Content>, prefix: string, ks: seq<string>, key: string)
    requires key in objects
    ensures AllRestore(objects, digests, prefix, ks + [key]) <==>
            AllRestore(objects, digests, prefix, ks) && Restored(objects, digests, prefix, key).Some?
  {
    assert key in ks + [key];
    assert forall k | k in ks :: k in ks + [key];
  }

  lemma {:induction false} FilesSnoc(objects: Objects, digests: map<string, Content>, prefix: string, ks: seq<string>, key: string)
    requires AllRestore(objects, digests, prefix, ks) && key in objects && Restored(objects, digests, prefix, key).Some?
    requires AllRestore(objects, digests, prefix, ks + [key])
    ensures FilesOf(objects, digests, prefix, ks + [key]) ==
            FilesOf(objects, digests, prefix, ks) + [Restored(objects, digests, prefix, key).value]
  {
  }

  /**
   Any listing whose wanted keys all restore, to different paths: the loop gives
   all of them exactly when no file is in the way of a later one, nor lies where
   a later one puts its temporary files.
   */
  lemma {:induction false} ReplayGivesAllIff(objects: Objects, digests: map<string, Content>, prefix: string, order: seq<string>)
    requires (forall k | k in order :: k in objects) && AllRestore(objects, digests, prefix, WantedOf(prefix, order))
    requires DistinctPaths(FilesOf(objects, digests, prefix, WantedOf(prefix, order)))
    ensures var fs := FilesOf(objects, digests, prefix, WantedOf(prefix, order));
            Replay(objects, digests, prefix, order) == Some(TreeOf(fs)) <==> Tidy(fs)
  {
    ReplayIsPlaceAll(objects, digests, prefix, order);
    AllArriveIff(FilesOf(objects, digests, prefix, WantedOf(prefix, order)));
  }

  // ---------------------------------------------------------------- round trip

  lemma {:induction false} ManifestSlashFree()
    ensures SlashFree(MANIFEST)
  {
  }

  lemma {:induction false} ManifestIsGood()
    ensures GoodRel(MANIFEST)
  {
    ManifestSlashFree();
    SplitNone(MANIFEST);
    LongIsGood(MANIFEST);
  }

  lemma {:induction false} LongIsGood(s: string)
    requires |s| > 2
    ensures GoodSegment(s)
  {
  }

  /** Under a prefix that joining keeps, a key is the prefix, a slash and the path. */
  lemma {:induction false} RelOfKey(prefix: string, rel: string)
    requires KeepsPrefix(prefix) && GoodRel(rel)
    ensures KeyOf(prefix, rel) == prefix + "/" + rel && RelOf(prefix, KeyOf(prefix, rel)) == rel
    ensures Wanted(prefix, KeyOf(prefix, rel)) <==> rel != MANIFEST
  {
    GoodNotEmpty(rel);
    KeptKey(prefix, rel);
    RelOfJoined(prefix, rel);
    NoSlashAtEnd(rel);
  }

  lemma {:induction false} RelOfJoined(prefix: string, rel: string)
    requires rel != ""
    ensures var key := prefix + "/" + rel;
            RelOf(prefix, key) == rel && key != "" && key[|key| - 1] == rel[|rel| - 1]
  {
    ConcatAssoc(prefix, "/", rel);
    CutAfter(prefix, "/" + rel);
    CutAfter("/", rel);
  }

  lemma {:induction false} NoSlashAtEnd(rel: string)
    requires GoodRel(rel) && rel != ""
    ensures rel[|rel| - 1] != '/'
  {
    LastSegment(rel);
    CutAtLast(rel);
    ParentIsDirectory(rel);
    var last := AfterLast(rel);
    assert GoodSegment(Split(rel)[|Split(rel)| - 1]);
    assert last[|last| - 1] == rel[|rel| - 1];
    assert last[|last| - 1] in last;
  }

  lemma {:induction false} SafeJoinGood(rel: string)
    requires GoodRel(rel)
    ensures SafeJoin(rel) == if Printable(rel) then Some(rel) else None
  {
    GoodNotEmpty(rel);
    UnrootedRel(rel);
    NoDotDot(rel);
  }

  lemma {:induction false} NoDotDot(rel: string)
    requires GoodRel(rel)
    ensures rel != "." && rel != ".." && !HasPrefix(rel, "../")
  {
    assert GoodSegment(Split(rel)[0]);
    SplitNone(".");
    SplitNone("..");
    if HasPrefix(rel, "../") {
      FirstIsDotDot(rel);
    }
  }

  lemma {:induction false} FirstIsDotDot(rel: string)
    requires HasPrefix(rel, "../")
    ensures Split(rel)[0] == ".."
  {
    assert rel == ".." + "/" + rel[3..];
    SplitAfter("..", rel[3..]);
  }

  /** All that is listed under the prefix are these files, sealed under their keys, and perhaps a manifest. */
  ghost predicate Leftover(objects: Objects, prefix: string, files: Dump) {
    (forall rel | rel in files && rel != MANIFEST :: HoldsFile(objects, prefix, rel, files[rel])) &&
    (forall k | k in Listed(objects, prefix) :: IsKey(prefix, files, k) || k == KeyOf(prefix, MANIFEST))
  }

  ghost predicate DigestsAgree(objects: Objects, prefix: string, files: Dump) {
    SubDump(DigestsOf(objects, prefix), files)
  }

  /** An upload, whole or not, over what earlier ones left: the new files beside or over the old ones. */
  lemma {:induction false} UploadLeaves(before: Objects, after: Objects, prefix: string, was: Dump, part: Dump)
    requires Good(was) && Good(part) && Leftover(before, prefix, was) && Holds(before, after, prefix, part)
    ensures Good(was + part) && Leftover(after, prefix, was + part)
  {
    var files := was + part;
    forall rel | rel in files && rel != MANIFEST ensures HoldsFile(after, prefix, rel, files[rel]) {
      if rel in part {
        assert HoldsFile(after, prefix, rel, part[rel]);
      } else {
        assert HoldsFile(before, prefix, rel, was[rel]);
        NotAmong(prefix, part, rel);
      }
    }
    forall k | k in Listed(after, prefix) ensures IsKey(prefix, files, k) || k == KeyOf(prefix, MANIFEST) {
      if IsKey(prefix, part, k) {
        var rel :| rel in part && KeyOf(prefix, rel) == k;
        assert rel in files;
      } else {
        assert k in Listed(before, prefix);
        if k != KeyOf(prefix, MANIFEST) {
          var rel :| rel in was && KeyOf(prefix, rel) == k;
          assert rel in files;
        }
      }
    }
  }

  lemma {:induction false} NotAmong(prefix: string, files: Dump, rel: string)
    requires Good(files) && GoodRel(rel) && rel !in files
    ensures !IsKey(prefix, files, KeyOf(prefix, rel))
  {
    forall r | r in files ensures KeyOf(prefix, r) != KeyOf(prefix, rel) {
      if KeyOf(prefix, r) == KeyOf(prefix, rel) {
        KeysInjective(prefix, r, rel);
      }
    }
  }

  /** The manifest over whatever had its key. */
  lemma {:induction false} ManifestLeaves(objects: Objects, prefix: string, files: Dump, digests: map<string, Content>)
    requires Good(files) && Leftover(objects, prefix, files)
    ensures Leftover(objects[KeyOf(prefix, MANIFEST) := Manifest(digests)], prefix, files)
    ensures DigestsOf(objects[KeyOf(prefix, MANIFEST) := Manifest(digests)], prefix) == digests
  {
    var after := objects[KeyOf(prefix, MANIFEST) := Manifest(digests)];
    ManifestIsGood();
    forall rel | rel in files && rel != MANIFEST ensures HoldsFile(after, prefix, rel, files[rel]) {
      assert HoldsFile(objects, prefix, rel, files[rel]);
      if KeyOf(prefix, rel) == KeyOf(prefix, MANIFEST) {
        KeysInjective(prefix, rel, MANIFEST);
      }
    }
    forall k | k in Listed(after, prefix) ensures IsKey(prefix, files, k) || k == KeyOf(prefix, MANIFEST) {
      if k != KeyOf(prefix, MANIFEST) {
        assert k in Listed(objects, prefix);
      }
    }
  }

  /** Nothing of an upload is listed under a prefix that joining changes. */
  lemma {:induction false} NothingListed(objects: Objects, prefix: string, files: Dump)
    requires Good(files) && Leftover(objects, prefix, files) && !KeepsPrefix(prefix)
    ensures Listed(objects, prefix) == {}
  {
    forall k | k in Listed(objects, prefix) ensures false {
      var rel := RelFor(objects, prefix, files, k);
      GoodNotEmpty(rel);
      ListedIff(prefix, rel);
    }
  }

  lemma {:induction false} RelFor(objects: Objects, prefix: string, files: Dump, k: string) returns (rel: string)
    requires Good(files) && Leftover(objects, prefix, files) && k in Listed(objects, prefix)
    ensures GoodRel(rel) && k == KeyOf(prefix, rel) && (rel in files || rel == MANIFEST)
  {
    ManifestIsGood();
    if k == KeyOf(prefix, MANIFEST) {
      rel := MANIFEST;
    } else {
      rel :| rel in files && KeyOf(prefix, rel) == k;
    }
  }

  /** A name that the download can restore. */
  predicate Placeable(rel: string) {
    Printable(rel) && ShortName(rel)
  }

  /** What each key of a file restores: the file, where its name is placeable. */
  lemma {:induction false} KeyRestores(objects: Objects, prefix: string, files: Dump, rel: string)
    requires Good(files) && Leftover(objects, prefix, files) && DigestsAgree(objects, prefix, files) && KeepsPrefix(prefix)
    requires rel in files && rel != MANIFEST
    ensures var k := KeyOf(prefix, rel);
            && k in Listed(objects, prefix) && Wanted(prefix, k)
            && Restored(objects, DigestsOf(objects, prefix), prefix, k) == if Placeable(rel) then Some((rel, files[rel])) else None
  {
    var k := KeyOf(prefix, rel);
    RelOfKey(prefix, rel);
    SafeJoinGood(rel);
    assert HoldsFile(objects, prefix, rel, files[rel]);
    CutAfter(prefix + "/", rel);
    assert k in Listed(objects, prefix);
  }

  lemma {:induction false} WantedIsFile(objects: Objects, prefix: string, files: Dump, k: string) returns (rel: string)
    requires Good(files) && Leftover(objects, prefix, files) && KeepsPrefix(prefix)
    requires k in Listed(objects, prefix) && Wanted(prefix, k)
    ensures rel in files && rel != MANIFEST && k == KeyOf(prefix, rel)
  {
    rel := RelFor(objects, prefix, files, k);
    RelOfKey(prefix, rel);
  }

  /** Keys in strictly ascending order. */
  ghost predicate Ascending(ks: seq<string>) {
    forall i, j | 0 <= i < j < |ks| :: AtMost(ks[i], ks[j]) && ks[i] != ks[j]
  }

  lemma {:induction false} WantedAscending(prefix: string, order: seq<string>)
    requires Ascending(order)
    ensures Ascending(WantedOf(prefix, order))
  {
    if order != [] {
      var n := |order| - 1;
      var start, key, ks := order[..n], order[n], WantedOf(prefix, order[..n]);
      assert forall i | 0 <= i < n :: start[i] == order[i];
      WantedAscending(prefix, start);
      forall i | 0 <= i < |ks| ensures AtMost(ks[i], key) && ks[i] != key {
        WantedMembers(prefix, start, ks[i]);
        var j :| 0 <= j < n && start[j] == ks[i];
      }
    }
  }

  lemma {:induction false} SortedAscending(order: seq<string>, keys: set<string>)
    requires Sorted(order) && Lists(order, keys)
    ensures Ascending(order)
  {
    forall i, j | 0 <= i < j < |order| ensures AtMost(order[i], order[j]) && order[i] != order[j] {
      SortedAscends(order, i, j);
    }
  }

  lemma {:induction false} LongerIsLater(prefix: string, a: string, b: string, suffix: string)
    requires AtMost(prefix + "/" + a, prefix + "/" + b) && suffix != ""
    ensures a != b + suffix
  {
    if a == b + suffix {
      var key := prefix + "/" + b;
      ConcatAssoc(prefix + "/", b, suffix);
      PrefixFirst(key, suffix);
      AtMostTotal(key, key + suffix);
    }
  }

  /** An earlier key's path is nowhere a later one puts a temporary file. */
  lemma {:induction false} EarlierUnhit(prefix: string, a: string, b: string)
    requires AtMost(prefix + "/" + a, prefix + "/" + b)
    ensures !Hit(a, b)
  {
    forall t | t in Temporaries(b) ensures a != t && !Under(a, t) {
      var suffix := TemporarySuffix(b, t);
      LongerIsLater(prefix, a, b, suffix);
      if Under(a, t) {
        var rest := a[|t|..];
        assert a == t + rest;
        ConcatAssoc(b, suffix, rest);
        LongerIsLater(prefix, a, b, suffix + rest);
      }
    }
  }

  lemma {:induction false} TemporarySuffix(p: string, t: string) returns (suffix: string)
    requires t in Temporaries(p)
    ensures t == p + suffix && suffix != ""
  {
    ConcatAssoc(p, PART, PART);
    suffix := if t == p + PART then PART else if t == p + DECPART then DECPART else PART + PART;
  }

  function Unreserved(files: Dump): (r: Dump)
  {
    files - {MANIFEST}
  }

  /** The wanted keys in lexical order: the files themselves, none of them where a later one puts a temporary file. */
  lemma {:induction false} SortedFiles(objects: Objects, prefix: string, files: Dump, order: seq<string>)
    requires Good(files) && Leftover(objects, prefix, files) && DigestsAgree(objects, prefix, files) && KeepsPrefix(prefix)
    requires Lists(order, Listed(objects, prefix)) && Sorted(order)
    ensures var ks, digests := WantedOf(prefix, order), DigestsOf(objects, prefix);
            && (AllRestore(objects, digests, prefix, ks) <==> forall rel | rel in Unreserved(files) :: Placeable(rel))
            && (AllRestore(objects, digests, prefix, ks) ==>
                  var fs := FilesOf(objects, digests, prefix, ks);
                  DistinctPaths(fs) && Unhit(fs) && TreeOf(fs) == Unreserved(files))
  {
    var ks, digests := WantedOf(prefix, order), DigestsOf(objects, prefix);
    SortedAscending(order, Listed(objects, prefix));
    WantedAscending(prefix, order);
    WantedAreFiles(objects, prefix, files, order);
    RestoreIff(objects, prefix, files, ks);
    if AllRestore(objects, digests, prefix, ks) {
      FilesInOrder(objects, prefix, files, ks);
      FilesAreTree(objects, prefix, files, ks);
    }
  }

  ghost predicate AreKeys(prefix: string, files: Dump, ks: seq<string>) {
    (forall rel | rel in files :: KeyOf(prefix, rel) in ks) && (forall k | k in ks :: IsKey(prefix, files, k))
  }

  /** The wanted keys are those of the files. */
  lemma {:induction false} WantedAreFiles(objects: Objects, prefix: string, files: Dump, order: seq<string>)
    requires Good(files) && Leftover(objects, prefix, files) && DigestsAgree(objects, prefix, files) && KeepsPrefix(prefix)
    requires Lists(order, Listed(objects, prefix))
    ensures AreKeys(prefix, Unreserved(files), WantedOf(prefix, order))
  {
    forall rel | rel in Unreserved(files) ensures KeyOf(prefix, rel) in WantedOf(prefix, order) {
      KeyRestores(objects, prefix, files, rel);
      WantedMembers(prefix, order, KeyOf(prefix, rel));
    }
    forall k | k in WantedOf(prefix, order) ensures IsKey(prefix, Unreserved(files), k) {
      WantedMembers(prefix, order, k);
      var rel := WantedIsFile(objects, prefix, files, k);
      assert rel in Unreserved(files);
    }
  }

  lemma {:induction false} RestoreIff(objects: Objects, prefix: string, files: Dump, ks: seq<string>)
    requires Good(files) && Leftover(objects, prefix, files) && DigestsAgree(objects, prefix, files) && KeepsPrefix(prefix)
    requires AreKeys(prefix, Unreserved(files), ks)
    ensures AllRestore(objects, DigestsOf(objects, prefix), prefix, ks) <==> forall rel | rel in Unreserved(files) :: Placeable(rel)
  {
    var digests := DigestsOf(objects, prefix);
    if AllRestore(objects, digests, prefix, ks) {
      forall rel | rel in Unreserved(files) ensures Placeable(rel) {
        KeyRestores(objects, prefix, files, rel);
        assert Restored(objects, digests, prefix, KeyOf(prefix, rel)).Some?;
      }
    }
    if forall rel | rel in Unreserved(files) :: Placeable(rel) {
      forall k | k in ks ensures k in objects && Restored(objects, digests, prefix, k).Some? {
        var rel :| rel in Unreserved(files) && KeyOf(prefix, rel) == k;
        KeyRestores(objects, prefix, files, rel);
      }
    }
  }

  lemma {:induction false} FileAt(objects: Objects, prefix: string, files: Dump, ks: seq<string>, i: nat) returns (rel: string)
    requires Good(files) && Leftover(objects, prefix, files) && DigestsAgree(objects, prefix, files) && KeepsPrefix(prefix)
    requires AreKeys(prefix, Unreserved(files), ks) && AllRestore(objects, DigestsOf(objects, prefix), prefix, ks) && i < |ks|
    ensures rel in Unreserved(files) && ks[i] == KeyOf(prefix, rel) == prefix + "/" + rel
    ensures FilesOf(objects, DigestsOf(objects, prefix), prefix, ks)[i] == (rel, files[rel])
  {
    assert ks[i] in ks;
    rel :| rel in Unreserved(files) && KeyOf(prefix, rel) == ks[i];
    KeyRestores(objects, prefix, files, rel);
    RelOfKey(prefix, rel);
  }

  lemma {:induction false} FilesInOrder(objects: Objects, prefix: string, files: Dump, ks: seq<string>)
    requires Good(files) && Leftover(objects, prefix, files) && DigestsAgree(objects, prefix, files) && KeepsPrefix(prefix)
    requires AreKeys(prefix, Unreserved(files), ks) && AllRestore(objects, DigestsOf(objects, prefix), prefix, ks) && Ascending(ks)
    ensures var fs := FilesOf(objects, DigestsOf(objects, prefix), prefix, ks); DistinctPaths(fs) && Unhit(fs)
  {
    var fs := FilesOf(objects, DigestsOf(objects, prefix), prefix, ks);
    forall i, j | 0 <= i < j < |fs| ensures fs[i].0 != fs[j].0 && !Hit(fs[i].0, fs[j].0) {
      var a := FileAt(objects, prefix, files, ks, i);
      var b := FileAt(objects, prefix, files, ks, j);
      EarlierUnhit(prefix, a, b);
    }
  }

  lemma {:induction false} FilesAreTree(objects: Objects, prefix: string, files: Dump, ks: seq<string>)
    requires Good(files) && Leftover(objects, prefix, files) && DigestsAgree(objects, prefix, files) && KeepsPrefix(prefix)
    requires AreKeys(prefix, Unreserved(files), ks) && AllRestore(objects, DigestsOf(objects, prefix), prefix, ks)
    requires DistinctPaths(FilesOf(objects, DigestsOf(objects, prefix), prefix, ks))
    ensures TreeOf(FilesOf(objects, DigestsOf(objects, prefix), prefix, ks)) == Unreserved(files)
  {
    var fs := FilesOf(objects, DigestsOf(objects, prefix), prefix, ks);
    forall p | p in TreeOf(fs) ensures p in Unreserved(files) && TreeOf(fs)[p] == Unreserved(files)[p] {
      InTree(fs, p);
      var i :| 0 <= i < |fs| && fs[i].0 == p;
      var rel := FileAt(objects, prefix, files, ks, i);
      TreeHolds(fs, i);
    }
    forall rel | rel in Unreserved(files) ensures rel in TreeOf(fs) {
      var i :| 0 <= i < |ks| && ks[i] == KeyOf(prefix, rel);
      var same := FileAt(objects, prefix, files, ks, i);
      KeysInjective(prefix, rel, same);
      TreeHolds(fs, i);
    }
    SameMap(TreeOf(fs), Unreserved(files));
  }

  lemma {:induction false} SameMap(a: Dump, b: Dump)
    requires forall p | p in a :: p in b && a[p] == b[p]
    requires forall p | p in b :: p in a
    ensures a == b
  {
  }

  /** Placements of the files that no later one destroys are tidy exactly when no file is a directory of another. */
  lemma {:induction false} TidyIff(fs: seq<Placement>)
    requires DistinctPaths(fs) && Unhit(fs)
    ensures Tidy(fs) <==> NoClash(TreeOf(fs))
  {
    if Tidy(fs) {
      forall a, b | a in TreeOf(fs) && b in TreeOf(fs) ensures !Under(a, b) {
        InTree(fs, a);
        InTree(fs, b);
        var i :| 0 <= i < |fs| && fs[i].0 == a;
        var j :| 0 <= j < |fs| && fs[j].0 == b;
        assert i < j ==> !Clash(fs[i].0, fs[j].0);
        assert j < i ==> !Clash(fs[j].0, fs[i].0);
      }
    }
    if NoClash(TreeOf(fs)) {
      forall i, j | 0 <= i < j < |fs| ensures !Clash(fs[i].0, fs[j].0) && !Hit(fs[i].0, fs[j].0) {
        TreeHolds(fs, i);
        TreeHolds(fs, j);
      }
    }
  }

  /** decrypt-download: the keys in the store's lexical order. */
  method DecryptDownload(store: Store, prefix: string) returns (r: Option<Dump>, order: seq<string>)
    ensures Lists(order, Listed(store.objects, prefix)) && Sorted(order)
    ensures r == Replay(store.objects, DigestsOf(store.objects, prefix), prefix, order)
  {
    order := SortSet(Listed(store.objects, prefix));
    r := DownloadInOrder(store, prefix, order);
  }

  /**
   encrypt-upload and then decrypt-download, over what crashed attempts of the
   backup left (`was`, nothing for the first one). Under a prefix that joining
   keeps, the download succeeds exactly when every name is placeable and none
   is a directory of another, and then gives back the dump but for the reserved names, and beside it every leftover
   that the dump does not overwrite. Under any other prefix it succeeds and
   gives back nothing.
   */
  method Transfer(store: Store, prefix: string, dump: Dump, ghost was: Dump) returns (uploaded: bool, r: Option<Dump>)
    requires Walked(dump) && Good(was) && Leftover(store.objects, prefix, was)
    modifies store
    ensures !uploaded ==> store.faults >= old(store.faults) + 3
    ensures uploaded && KeepsPrefix(prefix) ==>
      var all := Unreserved(was) + Restorable(dump);
      (r.Some? <==> (forall rel | rel in all :: Placeable(rel)) && NoClash(all)) && (r.Some? ==> r.value == all)
    ensures uploaded && !KeepsPrefix(prefix) ==> r == Some(map[])
  {
    uploaded := UploadDump(store, prefix, dump, was);
    if !uploaded {
      return false, None;
    }
    ghost var order;
    r, order := DecryptDownload(store, prefix);
    TransferResult(store.objects, prefix, was, dump, order);
  }

  /** encrypt-upload: the files, then the manifest. */
  method UploadDump(store: Store, prefix: string, dump: Dump, ghost was: Dump) returns (uploaded: bool)
    requires Walked(dump) && Good(was) && Leftover(store.objects, prefix, was)
    modifies store
    ensures uploaded ==> Leftover(store.objects, prefix, was + Sent(dump)) && DigestsOf(store.objects, prefix) == Sent(dump)
    ensures !uploaded ==> store.faults >= old(store.faults) + 3
  {
    ghost var before := store.objects;
    var digests;
    ghost var part;
    digests, part := EncryptAndUpload(store, prefix, dump);
    if digests.None? {
      return false;
    }
    UploadLeaves(before, store.objects, prefix, was, part);
    ManifestLeaves(store.objects, prefix, was + part, digests.value);
    uploaded := store.PutFile(KeyOf(prefix, MANIFEST), Manifest(digests.value));
  }

  lemma {:induction false} TransferResult(objects: Objects, prefix: string, was: Dump, dump: Dump, order: seq<string>)
    requires Good(was) && Walked(dump) && Leftover(objects, prefix, was + Sent(dump)) && DigestsOf(objects, prefix) == Sent(dump)
    requires Lists(order, Listed(objects, prefix)) && Sorted(order)
    ensures var r, all := Replay(objects, DigestsOf(objects, prefix), prefix, order), Unreserved(was) + Restorable(dump);
            && (KeepsPrefix(prefix) ==>
                  (r.Some? <==> (forall rel | rel in all :: Placeable(rel)) && NoClash(all)) && (r.Some? ==> r.value == all))
            && (!KeepsPrefix(prefix) ==> r == Some(map[]))
  {
    UnionUnreserved(was, dump);
    if KeepsPrefix(prefix) {
      DownloadOfLeftover(objects, prefix, was + Sent(dump), order);
    } else {
      NothingListed(objects, prefix, was + Sent(dump));
      FirstListed(order, Listed(objects, prefix));
    }
  }

  lemma {:induction false} FirstListed(order: seq<string>, keys: set<string>)
    requires Lists(order, keys)
    ensures order != [] ==> order[0] in keys
  {
    if order != [] {
      assert order[0] in order;
    }
  }

  lemma {:induction false} UnionUnreserved(was: Dump, dump: Dump)
    requires Good(was) && Walked(dump)
    ensures Good(was + Sent(dump)) && SubDump(Sent(dump), was + Sent(dump))
    ensures Unreserved(was + Sent(dump)) == Unreserved(was) + Restorable(dump)
  {
    RestorableIsUnreserved(dump);
    UnreservedUnion(was, Sent(dump));
  }

  lemma {:induction false} RestorableIsUnreserved(dump: Dump)
    ensures Restorable(dump) == Unreserved(Sent(dump))
  {
  }

  lemma {:induction false} UnreservedUnion(a: Dump, b: Dump)
    ensures Unreserved(a + b) == Unreserved(a) + Unreserved(b)
  {
  }

  /**
   Under a prefix that joining keeps, a download in lexical order succeeds
   exactly when every name is placeable and none is a directory of another, and
   gives exactly the files there but the manifest.
   */
  lemma {:induction false} DownloadOfLeftover(objects: Objects, prefix: string, files: Dump, order: seq<string>)
    requires Good(files) && Leftover(objects, prefix, files) && DigestsAgree(objects, prefix, files) && KeepsPrefix(prefix)
    requires Lists(order, Listed(objects, prefix)) && Sorted(order)
    ensures var r := Replay(objects, DigestsOf(objects, prefix), prefix, order);
            && (r.Some? <==> (forall rel | rel in Unreserved(files) :: Placeable(rel)) && NoClash(Unreserved(files)))
            && (r.Some? ==> r.value == Unreserved(files))
  {
    var ks, digests := WantedOf(prefix, order), DigestsOf(objects, prefix);
    SortedFiles(objects, prefix, files, order);
    ReplayIsPlaceAll(objects, digests, prefix, order);
    if AllRestore(objects, digests, prefix, ks) {
      var fs := FilesOf(objects, digests, prefix, ks);
      UnhitAllOrNone(fs);
      AllArriveIff(fs);
      TidyIff(fs);
    }
  }

  /** So the dump itself comes back exactly when no leftover is a file that the dump does not have. */
  lemma {:induction false} RestoresDumpIff(was: Dump, dump: Dump)
    ensures Unreserved(was) + Restorable(dump) == Restorable(dump) <==> Unreserved(was).Keys <= Restorable(dump).Keys
  {
    assert (Unreserved(was) + Restorable(dump)).Keys == Unreserved(was).Keys + Restorable(dump).Keys;
  }

  /**
   The whole life of a backup's objects: any number of attempts that crashed
   somewhere in the upload, at a location that was empty before the first, and
   then one that went through.
   */
  method RetriedTransfer(store: Store, prefix: string, attempts: seq<Dump>, dump: Dump) returns (uploaded: bool, r: Option<Dump>, ghost was: Dump)
    requires Walked(dump) && (forall i | 0 <= i < |attempts| :: Walked(attempts[i])) && Listed(store.objects, prefix) == {}
    modifies store
    ensures forall rel | rel in was :: FromAttempt(attempts, rel, was[rel])
    ensures !uploaded ==> store.faults >= old(store.faults) + 3
    ensures uploaded && KeepsPrefix(prefix) ==>
      var all := Unreserved(was) + Restorable(dump);
      (r.Some? <==> (forall rel | rel in all :: Placeable(rel)) && NoClash(all)) &&
      (r.Some? ==> r.value == all && (r.value == Restorable(dump) <==> Unreserved(was).Keys <= Restorable(dump).Keys))
  {
    was := map[];
    var i := 0;
    while i < |attempts|
      invariant 0 <= i <= |attempts| && Good(was) && Leftover(store.objects, prefix, was)
      invariant store.faults >= old(store.faults)
      invariant forall rel | rel in was :: FromAttempt(attempts, rel, was[rel])
    {
      was := CrashedUpload(store, prefix, attempts, i, was);
      i := i + 1;
    }
    uploaded, r := Transfer(store, prefix, dump, was);
    RestoresDumpIff(was, dump);
  }

  ghost predicate FromAttempt(attempts: seq<Dump>, rel: string, c: Content) {
    exists i | 0 <= i < |attempts| :: rel in Sent(attempts[i]) && attempts[i][rel] == c
  }

  /** An attempt that ends somewhere: in its upload, or after it with or without a manifest. */
  method CrashedUpload(store: Store, prefix: string, attempts: seq<Dump>, i: nat, ghost was: Dump) returns (ghost left: Dump)
    requires i < |attempts| && Walked(attempts[i]) && Good(was) && Leftover(store.objects, prefix, was)
    requires forall rel | rel in was :: FromAttempt(attempts, rel, was[rel])
    modifies store
    ensures Good(left) && Leftover(store.objects, prefix, left) && store.faults >= old(store.faults)
    ensures forall rel | rel in left :: FromAttempt(attempts, rel, left[rel])
  {
    ghost var before := store.objects;
    var digests;
    ghost var part;
    digests, part := EncryptAndUpload(store, prefix, attempts[i]);
    left := was + part;
    UploadLeaves(before, store.objects, prefix, was, part);
    forall rel | rel in left ensures FromAttempt(attempts, rel, left[rel]) {
      if rel in part {
        assert rel in Sent(attempts[i]);
      }
    }
    var goesOn: bool := *;
    if digests.Some? && goesOn {
      ManifestLeaves(store.objects, prefix, left, digests.value);
      var ok := store.PutFile(KeyOf(prefix, MANIFEST), Manifest(digests.value));
    }
  }

  // ------------------------------------------------------------ failing inputs

  lemma {:induction false} SimpleRel(rel: string)
    requires SlashFree(rel) && GoodSegment(rel)
    ensures GoodRel(rel) && KeepsPrefix(rel)
  {
    SplitNone(rel);
    UnrootedRel(rel);
  }

  /** Two uploads under "p": one file of a crashed attempt, one of the attempt that went through, and its manifest. */
  function TwoUploads(x: string, y: string): (objects: Objects)
  {
    map[KeyOf("p", x) := Sealed("1"), KeyOf("p", y) := Sealed("2"), KeyOf("p", MANIFEST) := Manifest(map[y := "2"])]
  }

  lemma {:induction false} KeysDiffer(a: string, b: string)
    requires GoodRel(a) && GoodRel(b) && a != b
    ensures KeyOf("p", a) != KeyOf("p", b)
  {
    if KeyOf("p", a) == KeyOf("p", b) { KeysInjective("p", a, b); }
  }

  lemma {:induction false} TwoLeft(x: string, y: string)
    requires GoodRel(x) && GoodRel(y) && x != y && x != MANIFEST && y != MANIFEST
    ensures Good(map[x := "1", y := "2"]) && Leftover(TwoUploads(x, y), "p", map[x := "1", y := "2"])
    ensures DigestsOf(TwoUploads(x, y), "p") == map[y := "2"]
  {
    ManifestIsGood();
    KeysDiffer(x, y);
    KeysDiffer(x, MANIFEST);
    KeysDiffer(y, MANIFEST);
    TwoKeys(TwoUploads(x, y), KeyOf("p", x), KeyOf("p", y), KeyOf("p", MANIFEST), map[y := "2"]);
    TwoListed(x, y);
  }

  lemma {:induction false} TwoKeys(objects: Objects, a: string, b: string, m: string, digests: map<string, Content>)
    requires objects == map[a := Sealed("1"), b := Sealed("2"), m := Manifest(digests)] && a != b && a != m && b != m
    ensures a in objects && b in objects && m in objects
    ensures objects[a] == Sealed("1") && objects[b] == Sealed("2") && objects[m] == Manifest(digests)
    ensures objects.Keys == {a, b, m}
  {
  }

  lemma {:induction false} TwoListed(x: string, y: string)
    requires TwoUploads(x, y).Keys == {KeyOf("p", x), KeyOf("p", y), KeyOf("p", MANIFEST)}
    ensures forall k | k in Listed(TwoUploads(x, y), "p") :: IsKey("p", map[x := "1", y := "2"], k) || k == KeyOf("p", MANIFEST)
  {
    var files: Dump := map[x := "1", y := "2"];
    forall k | k in Listed(TwoUploads(x, y), "p") ensures IsKey("p", files, k) || k == KeyOf("p", MANIFEST) {
      assert k in TwoUploads(x, y).Keys;
      assert x in files && y in files;
    }
  }

  /**
   A leftover restored: a crashed attempt left the file "x", the attempt that
   went through sent only "y", and the download gives back both.
   */
  lemma {:induction false} LeftoverComesBack(order: seq<string>)
    requires Lists(order, Listed(TwoUploads("x", "y"), "p")) && Sorted(order)
    ensures Restorable(map["y" := "2"]) == map["y" := "2"]
    ensures Replay(TwoUploads("x", "y"), DigestsOf(TwoUploads("x", "y"), "p"), "p", order) == Some(map["x" := "1", "y" := "2"])
  {
    SimpleRel("x");
    SimpleRel("y");
    TwoLeft("x", "y");
    SimpleRel("p");
    NoReservedNames();
    DownloadOfLeftover(TwoUploads("x", "y"), "p", map["x" := "1", "y" := "2"], order);
  }

  lemma {:induction false} NoReservedNames()
    ensures Restorable(map["y" := "2"]) == map["y" := "2"]
    ensures Unreserved(map["x" := "1", "y" := "2"]) == map["x" := "1", "y" := "2"]
    ensures forall rel | rel in Unreserved(map["x" := "1", "y" := "2"]) :: Placeable(rel)
    ensures NoClash(Unreserved(map["x" := "1", "y" := "2"]))
  {
    assert AfterLast("y") == "y" && AfterLast("x") == "x";
  }

  /** Two uploaded files, one of them where the other needs a directory: the download fails whatever their names. */
  lemma {:induction false} ClashRefused(x: string, y: string, order: seq<string>)
    requires GoodRel(x) && GoodRel(y) && x != y && x != MANIFEST && y != MANIFEST && Clash(x, y)
    requires Lists(order, Listed(TwoUploads(x, y), "p")) && Sorted(order)
    ensures Replay(TwoUploads(x, y), DigestsOf(TwoUploads(x, y), "p"), "p", order) == None
  {
    SimpleRel("p");
    TwoLeft(x, y);
    var files: Dump := map[x := "1", y := "2"];
    ClashAmong(files, x, y);
    DownloadOfLeftover(TwoUploads(x, y), "p", files, order);
  }

  lemma {:induction false} ClashAmong(files: Dump, x: string, y: string)
    requires x in files && y in files && x != MANIFEST && y != MANIFEST && Clash(x, y)
    ensures !NoClash(Unreserved(files))
  {
    assert x in Unreserved(files) && y in Unreserved(files);
  }

  lemma {:induction false} OneFileWalked(rel: string, c: Content)
    requires GoodRel(rel)
    ensures Walked(map[rel := c])
  {
  }

  /**
   A file against a directory: an attempt that crashed left the file "a", the
   one that went through sent "a/b", or the other way round, and the download
   fails, although both names are placeable and each file is a dump.
   */
  lemma {:induction false} FileAgainstDirectory(x: string, y: string, order: seq<string>)
    requires (x == "a" && y == "a/b") || (x == "a/b" && y == "a")
    requires Lists(order, Listed(TwoUploads(x, y), "p")) && Sorted(order)
    ensures Walked(map[x := "1"]) && Walked(map[y := "2"]) && Placeable(x) && Placeable(y)
    ensures Replay(TwoUploads(x, y), DigestsOf(TwoUploads(x, y), "p"), "p", order) == None
  {
    NestedRel();
    OneFileWalked(x, "1");
    OneFileWalked(y, "2");
    ClashRefused(x, y, order);
  }

  lemma {:induction false} NestedRel()
    ensures GoodRel("a/b") && GoodRel("a") && Placeable("a/b") && Placeable("a") && Under("a/b", "a")
    ensures "a/b" != MANIFEST && "a" != MANIFEST
  {
    NestedGood();
    NestedPlaceable();
    assert |MANIFEST| > 3;
  }

  lemma {:induction false} NestedGood()
    ensures GoodRel("a/b") && GoodRel("a") && AfterLast("a/b") == "b" && AfterLast("a") == "a"
  {
    assert "a/b" == "a" + "/" + "b";
    SplitAfter("a", "b");
    SplitNone("b");
    SplitNone("a");
    LastSegment("a/b");
    LastSegment("a");
  }

  lemma {:induction false} NestedPlaceable()
    ensures Printable("a/b") && Printable("a") && Under("a/b", "a")
  {
    assert "a/b"[..2] == "a/";
  }

  /** A name of 250 characters: the upload takes it, and its temporary names are too long to restore it. */
  lemma {:induction false} LongNameRefused(order: seq<string>)
    requires Lists(order, Listed(TwoUploads("x", LongName()), "p")) && Sorted(order)
    ensures GoodRel(LongName()) && Printable(LongName()) && |LongName()| <= NAME_MAX
    ensures Replay(TwoUploads("x", LongName()), DigestsOf(TwoUploads("x", LongName()), "p"), "p", order) == None
  {
    LongNameGood();
    SimpleRel("x");
    UnplaceableRefused("x", LongName(), order);
  }

  lemma {:induction false} LongNameGood()
    ensures GoodRel(LongName()) && !ShortName(LongName()) && LongName() != "x" && LongName() != MANIFEST
  {
    SimpleRel(LongName());
    SplitNone(LongName());
    LastSegment(LongName());
    assert |MANIFEST| < 250;
  }

  lemma {:induction false} UnplaceableRefused(x: string, y: string, order: seq<string>)
    requires GoodRel(x) && GoodRel(y) && x != y && x != MANIFEST && y != MANIFEST && !Placeable(y)
    requires Lists(order, Listed(TwoUploads(x, y), "p")) && Sorted(order)
    ensures Replay(TwoUploads(x, y), DigestsOf(TwoUploads(x, y), "p"), "p", order) == None
  {
    SimpleRel("p");
    TwoLeft(x, y);
    var files: Dump := map[x := "1", y := "2"];
    UnplaceableAmong(files, y);
    DownloadOfLeftover(TwoUploads(x, y), "p", files, order);
  }

  lemma {:induction false} UnplaceableAmong(files: Dump, rel: string)
    requires rel in files && rel != MANIFEST && !Placeable(rel)
    ensures !forall r | r in Unreserved(files) :: Placeable(r)
  {
    assert rel in Unreserved(files);
  }

  function LongName(): (s: string)
    ensures |s| == 250 && forall i | 0 <= i < |s| :: s[i] == 'a'
  {
    seq(250, _ => 'a')
  }

  /** A name with a control character: the upload takes it and the download refuses the dump. */
  lemma {:induction false} UnprintableRefused(order: seq<string>)
    requires Lists(order, Listed(TwoUploads("x", "\n"), "p")) && Sorted(order)
    ensures GoodRel("\n") && Replay(TwoUploads("x", "\n"), DigestsOf(TwoUploads("x", "\n"), "p"), "p", order) == None
  {
    NewlineGood();
    UnplaceableRefused("x", "\n", order);
  }

  lemma {:induction false} NewlineGood()
    ensures GoodRel("x") && GoodRel("\n") && !Printable("\n") && "x" != MANIFEST && "\n" != MANIFEST
  {
    SimpleRel("x");
    SimpleRel("\n");
    assert "\n"[0] == '\n';
    assert |MANIFEST| > 1;
  }

  /** An order that is not lexical: the temporary copy of "x" takes "x.part" with it. */
  lemma {:induction false} TemporaryTakesFile()
    ensures var objects, order := TwoUploads("x.part", "x"), [KeyOf("p", "x.part"), KeyOf("p", "x")];
            && (forall k | k in order :: k in objects)
            && Replay(objects, DigestsOf(objects, "p"), "p", order) == Some(map["x" := "2"])
  {
    TakenAway();
    NamesFine();
    TwoRestored("x.part", "x");
    PlaceTwo(("x.part", "1"), ("x", "2"), map["x.part" := "1"]);
  }

  lemma {:induction false} NamesFine()
    ensures GoodRel("x") && GoodRel("x.part") && KeepsPrefix("p")
  {
    SimpleRel("x");
    SimpleRel("x.part");
    SimpleRel("p");
  }

  lemma {:induction false} TakenAway()
    ensures Place(map[], ("x.part", "1")) == Some(map["x.part" := "1"])
    ensures Place(map["x.part" := "1"], ("x", "2")) == Some(map["x" := "2"])
    ensures Placeable("x.part") && Placeable("x")
  {
    assert AfterLast("x") == "x" && AfterLast("x.part") == "x.part";
    var none: Tree, out: Tree := map[], map["x.part" := "1"];
    assert none - Temporaries("x.part") == none && none["x.part" := "1"] == out;
    assert "x" + PART == "x.part" && "x.part" in Temporaries("x");
    assert out - Temporaries("x") == none && none["x" := "2"] == map["x" := "2"];
    NotUnder("x.part", "x");
    NotUnder("x", "x.part");
  }

  lemma {:induction false} NotUnder(p: string, d: string)
    requires |p| <= |d| || p[|d|] != '/'
    ensures !Under(p, d)
  {
    assert (d + "/")[|d|] == '/';
  }

  lemma {:induction false} TwoRestored(x: string, y: string)
    requires GoodRel(x) && GoodRel(y) && x != y && x != MANIFEST && y != MANIFEST && Placeable(x) && Placeable(y) && KeepsPrefix("p")
    ensures var objects, order := TwoUploads(x, y), [KeyOf("p", x), KeyOf("p", y)];
            && (forall k | k in order :: k in objects)
            && Replay(objects, DigestsOf(objects, "p"), "p", order) == PlaceAll([(x, "1"), (y, "2")])
  {
    TwoLeft(x, y);
    var objects := TwoUploads(x, y);
    var files: Dump := map[x := "1", y := "2"];
    KeyRestores(objects, "p", files, x);
    KeyRestores(objects, "p", files, y);
    ReplayTwo(objects, "p", KeyOf("p", x), KeyOf("p", y), (x, "1"), (y, "2"));
  }

  lemma {:induction false} ReplayTwo(objects: Objects, prefix: string, first: string, second: string, a: Placement, b: Placement)
    requires first in objects && second in objects && Wanted(prefix, first) && Wanted(prefix, second)
    requires Restored(objects, DigestsOf(objects, prefix), prefix, first) == Some(a)
    requires Restored(objects, DigestsOf(objects, prefix), prefix, second) == Some(b)
    ensures Replay(objects, DigestsOf(objects, prefix), prefix, [first, second]) == PlaceAll([a, b])
  {
    var digests := DigestsOf(objects, prefix);
    assert [first][..0] == [] && [first, second][..1] == [first];
    assert [a][..0] == [] && [a, b][..1] == [a];
    assert Replay(objects, digests, prefix, []) == PlaceAll([]);
    assert Replay(objects, digests, prefix, [first]) == PlaceAll([a]);
  }

  lemma {:induction false} PlaceTwo(a: Placement, b: Placement, out: Tree)
    requires Place(map[], a) == Some(out)
    ensures PlaceAll([a, b]) == Place(out, b)
  {
    assert [a, b][..1] == [a] && [a][..0] == [];
    assert PlaceAll([]) == Some(map[]);
    assert PlaceAll([a]) == Some(out);
  }
}
