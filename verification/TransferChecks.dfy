/**
 What decrypt-download accepts of whatever objects it is given
 (cmd/bloodraven/encrypt_upload.go:512-577, 593-672, 680-710), in the paths,
 names and digests themselves.
 */
module TransferChecks {
  import opened Wrappers
  import opened Text
  import opened ArtifactLocation
  import opened Paths
  import opened Restoring
  import opened ArtifactTransfer

  /** The manifest in the store lists this path with this digest. */
  predicate ManifestSays(objects: Objects, prefix: string, rel: string, digest: Content) {
    var m := PathJoin(prefix, "BLOODRAVEN_ENCRYPTION.json");
    m in objects && objects[m].Manifest? && rel in objects[m].digests && objects[m].digests[rel] == digest
  }

  /** The path of a file: not empty, no directory placeholder, not the manifest's. */
  predicate NamesFile(rel: string) {
    rel != "" && rel[|rel| - 1] != '/' && rel != "BLOODRAVEN_ENCRYPTION.json"
  }

  /** The listed keys that are restored are those of files. */
  lemma {:induction false} WantedIff(prefix: string, rel: string)
    ensures Wanted(prefix, prefix + "/" + rel) <==> NamesFile(rel)
    ensures RelOf(prefix, prefix + "/" + rel) == rel
  {
    ConcatAssoc(prefix, "/", rel);
    CutAfter(prefix, "/" + rel);
    CutAfter("/", rel);
    var key := prefix + "/" + rel;
    assert rel != "" ==> key[|key| - 1] == rel[|rel| - 1];
  }

  /** A file is restored only as the content its manifest entry is the digest of. */
  lemma {:induction false} RestoredMatches(objects: Objects, prefix: string, rel: string, file: Placement)
    requires prefix + "/" + rel in objects
    requires Restored(objects, DigestsOf(objects, prefix), prefix, prefix + "/" + rel) == Some(file)
    ensures objects[prefix + "/" + rel] == Sealed(file.1)
    ensures forall d | ManifestSays(objects, prefix, rel, d) :: d == file.1
  {
    WantedIff(prefix, rel);
  }

  lemma {:induction false} WantedRestores(objects: Objects, digests: map<string, Content>, prefix: string, order: seq<string>, key: string)
    requires (forall k | k in order :: k in objects) && key in order && Wanted(prefix, key)
    requires Replay(objects, digests, prefix, order).Some?
    ensures Restored(objects, digests, prefix, key).Some?
  {
    ReplayIsPlaceAll(objects, digests, prefix, order);
    WantedMembers(prefix, order, key);
  }

  /**
   Whatever the objects and the order of the listing: a download that succeeds
   found every file sealed, and as the content whose digest the manifest
   records wherever the manifest lists it. One file that contradicts its
   digest, or is not sealed, and nothing is restored.
   */
  lemma {:induction false} DigestsChecked(objects: Objects, prefix: string, order: seq<string>, rel: string)
    requires (forall k | k in order :: k in objects) && prefix + "/" + rel in order && NamesFile(rel)
    ensures var r, k := Replay(objects, DigestsOf(objects, prefix), prefix, order), prefix + "/" + rel;
            && (r.Some? ==> objects[k].Sealed? && forall d | ManifestSays(objects, prefix, rel, d) :: objects[k] == Sealed(d))
            && (forall d | ManifestSays(objects, prefix, rel, d) && objects[k] != Sealed(d) :: r == None)
  {
    var r, k := Replay(objects, DigestsOf(objects, prefix), prefix, order), prefix + "/" + rel;
    WantedIff(prefix, rel);
    if r.Some? {
      WantedRestores(objects, DigestsOf(objects, prefix), prefix, order, k);
      RestoredMatches(objects, prefix, rel, Restored(objects, DigestsOf(objects, prefix), prefix, k).value);
    }
  }

  /** An object of an earlier attempt that lands late, beside the manifest of the attempt that went through. */
  function LateObject(): (objects: Objects)
  {
    map["p/y" := Sealed("1"), "p/BLOODRAVEN_ENCRYPTION.json" := Manifest(map["y" := "2"])]
  }

  /** It is refused, however the listing is ordered. */
  lemma {:induction false} LateObjectRefused(order: seq<string>)
    requires (forall k | k in order :: k in LateObject()) && "p/y" in order
    ensures Replay(LateObject(), DigestsOf(LateObject(), "p"), "p", order) == None
  {
    assert "p" + "/" + "y" == "p/y" && "p" + "/" + MANIFEST == "p/BLOODRAVEN_ENCRYPTION.json";
    SimpleRel("p");
    ManifestIsGood();
    RelOfKey("p", MANIFEST);
    assert "p/y" != "p/BLOODRAVEN_ENCRYPTION.json" by { assert |"p/y"| == 3; }
    assert ManifestSays(LateObject(), "p", "y", "2");
    DigestsChecked(LateObject(), "p", order, "y");
  }

  /** Names without control characters, a tab aside. */
  predicate PlainText(rel: string) {
    forall i | 0 <= i < |rel| :: rel[i] >= ' ' || rel[i] == '\t'
  }

  /**
   A walked path is restored to itself exactly when its object is sealed, its
   characters are printable, its longest temporary name fits 255 characters and
   the manifest does not contradict the content.
   */
  lemma {:induction false} RestoredIff(objects: Objects, prefix: string, rel: string, c: Content)
    requires GoodRel(rel) && prefix + "/" + rel in objects
    ensures Restored(objects, DigestsOf(objects, prefix), prefix, prefix + "/" + rel) == Some((rel, c)) <==>
            && objects[prefix + "/" + rel] == Sealed(c) && PlainText(rel)
            && |Split(rel)[|Split(rel)| - 1]| + |".part.part"| <= 255
            && (forall d | ManifestSays(objects, prefix, rel, d) :: d == c)
  {
    WantedIff(prefix, rel);
    SafeJoinGood(rel);
    ShortNameIff(rel);
    NotContradicted(objects, prefix, rel, c);
    RestoredAs(objects, DigestsOf(objects, prefix), prefix, rel, c);
  }

  lemma {:induction false} RestoredAs(objects: Objects, digests: map<string, Content>, prefix: string, rel: string, c: Content)
    requires prefix + "/" + rel in objects && RelOf(prefix, prefix + "/" + rel) == rel
    requires SafeJoin(rel) == if Printable(rel) then Some(rel) else None
    ensures Restored(objects, digests, prefix, prefix + "/" + rel) == Some((rel, c)) <==>
            && objects[prefix + "/" + rel] == Sealed(c) && Printable(rel) && ShortName(rel)
            && (rel in digests ==> digests[rel] == c)
  {
  }

  lemma {:induction false} ShortNameIff(rel: string)
    ensures ShortName(rel) <==> |Split(rel)[|Split(rel)| - 1]| + |".part.part"| <= 255
  {
    LastSegment(rel);
    assert PART + PART == ".part.part";
  }

  lemma {:induction false} NotContradicted(objects: Objects, prefix: string, rel: string, c: Content)
    ensures var digests := DigestsOf(objects, prefix);
            (rel in digests ==> digests[rel] == c) <==> forall d | ManifestSays(objects, prefix, rel, d) :: d == c
  {
    var digests := DigestsOf(objects, prefix);
    assert rel in digests ==> ManifestSays(objects, prefix, rel, digests[rel]);
  }

  /** Whatever the key says, a file is restored below the target: its path is one that a walk of the target could yield. */
  lemma {:induction false} SafeJoinIff(rel: string)
    ensures SafeJoin(rel).Some? <==> PlainText(rel) && GoodRel(Clean(rel))
    ensures SafeJoin(rel).Some? ==> SafeJoin(rel).value == Clean(rel)
  {
    var cleaned := Clean(rel);
    if GoodRel(cleaned) {
      GoodNotEmpty(cleaned);
      GoodUnrooted(cleaned);
      NoDotDot(cleaned);
    } else {
      CleanedForm(rel);
    }
  }

  /** A cleaned path that is no walked one is ".", starts with a slash, or goes up. */
  lemma {:induction false} CleanedForm(s: string)
    requires !GoodRel(Clean(s))
    ensures Clean(s) == "." || Clean(s) == ".." || Rooted(Clean(s)) || HasPrefix(Clean(s), "../")
  {
    var segs := Resolve(Split(s), Rooted(s));
    SplitSlashFree(s);
    ResolveSlashFree(Split(s), Rooted(s));
    ResolveIsClean(Split(s), Rooted(s));
    if !Rooted(s) && segs != [] {
      assert Rebuilt(segs, false) == JoinSegments(segs);
      NotEmpty(segs, 0);
      SplitJoin(segs);
      var i :| 0 <= i < |segs| && !GoodSegment(segs[i]);
      UpFront(segs, i);
      UpPrefix(segs);
    }
  }

  lemma {:induction false} UpFront(segs: Segments, i: nat)
    requires CleanSegments(segs, false) && i < |segs| && segs[i] == ".."
    ensures segs[0] == ".."
  {
    if i > 0 { UpFront(segs, i - 1); }
  }

  lemma {:induction false} UpPrefix(segs: Segments)
    requires segs != [] && segs[0] == ".."
    ensures JoinSegments(segs) == ".." || HasPrefix(JoinSegments(segs), "../")
  {
    if |segs| > 1 {
      ConcatAssoc("..", "/", JoinSegments(segs[1..]));
      CutAfter("../", JoinSegments(segs[1..]));
    }
  }

  // --------------------------------------------------------- names of the upload

  /** encrypt-upload sends every file but those named BLOODRAVEN_DUMP_META.json, with its content. */
  lemma {:induction false} SentIff(dump: Dump, rel: string, c: Content)
    requires GoodRel(rel)
    ensures rel in Sent(dump) && Sent(dump)[rel] == c <==>
            rel in dump && dump[rel] == c && Split(rel)[|Split(rel)| - 1] != "BLOODRAVEN_DUMP_META.json"
    ensures rel in Restorable(dump) && Restorable(dump)[rel] == c <==>
            && rel in dump && dump[rel] == c && rel != "BLOODRAVEN_ENCRYPTION.json"
            && Split(rel)[|Split(rel)| - 1] != "BLOODRAVEN_DUMP_META.json"
  {
    LastSegment(rel);
  }

  // ------------------------------------------------------------ one file placed

  /** q is one of the names that restoring p goes through. */
  predicate Scratch(q: string, p: string) {
    q == p + ".part" || q == p + ".part.part" || q == p + ".decpart"
  }

  /** The path q lies in the directory d. */
  predicate Inside(q: string, d: string) {
    |q| > |d| && q[..|d|] == d && q[|d|] == '/'
  }

  lemma {:induction false} InsideIff(q: string, d: string)
    ensures Under(q, d) <==> Inside(q, d)
  {
    if |q| > |d| {
      assert q[..|d| + 1] == q[..|d|] + [q[|d|]];
      assert Under(q, d) ==> q[..|d| + 1][..|d|] == d && (d + "/")[|d|] == '/' && (d + "/")[..|d|] == d;
    }
  }

  lemma {:induction false} ScratchIff(q: string, p: string)
    ensures q in Temporaries(p) <==> Scratch(q, p)
  {
    assert p + PART + PART == p + ".part.part" by {
      ConcatAssoc(p, PART, PART);
      assert PART + PART == ".part.part";
    }
  }

  /**
   A file cannot be placed exactly when what is there holds a file inside its
   path, or on the way to it, or inside one of its scratch names.
   */
  lemma {:induction false} PlacedIff(out: Tree, p: string, c: Content)
    ensures Place(out, (p, c)).None? <==>
            exists q | q in out :: Inside(q, p) || Inside(p, q) || (!Scratch(q, p) && exists t :: Scratch(t, p) && Inside(q, t))
  {
    forall q ensures (Clash(q, p) || (q !in Temporaries(p) && Hit(q, p))) <==>
                     (Inside(q, p) || Inside(p, q) || (!Scratch(q, p) && exists t :: Scratch(t, p) && Inside(q, t)))
    {
      BlocksIff(q, p);
    }
  }

  lemma {:induction false} BlocksIff(q: string, p: string)
    ensures (Clash(q, p) || (q !in Temporaries(p) && Hit(q, p))) <==>
            (Inside(q, p) || Inside(p, q) || (!Scratch(q, p) && exists t :: Scratch(t, p) && Inside(q, t)))
  {
    InsideIff(q, p);
    InsideIff(p, q);
    ScratchIff(q, p);
    forall t ensures t in Temporaries(p) <==> Scratch(t, p) { ScratchIff(t, p); }
    forall t ensures Under(q, t) <==> Inside(q, t) { InsideIff(q, t); }
  }

  /** A placed file leaves everything else as it was, except files of its scratch names, which are gone. */
  lemma {:induction false} PlacedLeaves(out: Tree, p: string, c: Content, q: string)
    requires Place(out, (p, c)).Some?
    ensures var after := Place(out, (p, c)).value;
            if q == p then q in after && after[q] == c
            else if Scratch(q, p) then q !in after
            else (q in after <==> q in out) && (q in out ==> after[q] == out[q])
  {
    ScratchIff(q, p);
  }
}
