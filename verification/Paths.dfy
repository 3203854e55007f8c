/**
 Go's path.Clean and path.Join on slash-separated keys, by segments: which
 prefixes a joined key keeps as they were written.
 */
module Paths {
  import opened Wrappers
  import opened Text
  import opened ArtifactLocation

  type Segments = seq<string>

  function JoinSegments(segs: Segments): (s: string)
  {
    if segs == [] then ""
    else if |segs| == 1 then segs[0]
    else segs[0] + ("/" + JoinSegments(segs[1..]))
  }

  /** One segment after those already resolved. */
  function Push(done: Segments, seg: string, rooted: bool): (r: Segments)
  {
    if seg == "" || seg == "." then done
    else if seg != ".." then done + [seg]
    else if done != [] && done[|done| - 1] != ".." then done[..|done| - 1]
    else if rooted then done
    else done + [seg]
  }

  function Resolve(segs: Segments, rooted: bool): (r: Segments)
  {
    if segs == [] then []
    else Push(Resolve(segs[..|segs| - 1], rooted), segs[|segs| - 1], rooted)
  }

  predicate Rooted(s: string) {
    s != "" && s[0] == '/'
  }

  function Rebuilt(segs: Segments, rooted: bool): (s: string)
  {
    (if rooted then "/" else "") + JoinSegments(segs)
  }

  /** path.Clean. */
  function Clean(s: string): (r: string)
  {
    var t := Rebuilt(Resolve(Split(s), Rooted(s)), Rooted(s));
    if t == "" then "." else t
  }

  /** path.Join of two elements. */
  function PathJoin(prefix: string, rel: string): (r: string)
  {
    if prefix == "" && rel == "" then ""
    else if prefix == "" then Clean(rel)
    else if rel == "" then Clean(prefix)
    else Clean(prefix + "/" + rel)
  }

  /** A relative path as a directory walk yields it. */
  predicate GoodRel(rel: string) {
    forall i | 0 <= i < |Split(rel)| :: GoodSegment(Split(rel)[i])
  }

  // ----------------------------------------------------------- split and join

  predicate SlashFrees(segs: Segments) {
    forall i | 0 <= i < |segs| :: SlashFree(segs[i])
  }

  lemma {:induction false} SplitSlashFree(s: string)
    ensures SlashFrees(Split(s))
    decreases |s|
  {
    match IndexSlash(s)
    case None =>
    case Some(i) => SplitSlashFree(s[i + 1..]);
  }

  lemma {:induction false} JoinCons(head: string, tail: Segments)
    requires tail != []
    ensures JoinSegments([head] + tail) == head + ("/" + JoinSegments(tail))
  {
    assert ([head] + tail)[1..] == tail;
  }

  lemma {:induction false} JoinSplit(s: string)
    ensures JoinSegments(Split(s)) == s
    decreases |s|
  {
    match IndexSlash(s)
    case None =>
    case Some(i) =>
      var tail := s[i + 1..];
      JoinSplit(tail);
      JoinCons(s[..i], Split(tail));
      assert s == s[..i] + ("/" + tail);
  }

  lemma {:induction false} SplitNone(s: string)
    requires SlashFree(s)
    ensures Split(s) == [s]
  {
  }

  lemma {:induction false} SplitCons(head: string, rest: string)
    requires SlashFree(head)
    ensures Split(head + ("/" + rest)) == [head] + Split(rest)
  {
    ConcatAssoc(head, "/", rest);
    SplitAfter(head, rest);
  }

  lemma {:induction false} SplitJoin(segs: Segments)
    requires segs != [] && SlashFrees(segs)
    ensures Split(JoinSegments(segs)) == segs
  {
    var head, tail := segs[0], segs[1..];
    if tail == [] {
      SplitNone(head);
      assert segs == [head];
    } else {
      assert forall i | 0 <= i < |tail| :: tail[i] == segs[i + 1];
      SplitJoin(tail);
      SplitCons(head, JoinSegments(tail));
      assert segs == [head] + tail;
    }
  }

  lemma {:induction false} JoinConcat(a: Segments, b: Segments)
    requires a != [] && b != []
    ensures JoinSegments(a + b) == JoinSegments(a) + ("/" + JoinSegments(b))
  {
    if |a| == 1 {
      assert (a + b)[1..] == b;
    } else {
      JoinConcat(a[1..], b);
      assert (a + b)[1..] == a[1..] + b;
      ConcatAssoc(a[0], "/" + JoinSegments(a[1..]), "/" + JoinSegments(b));
      ConcatAssoc("/", JoinSegments(a[1..]), "/" + JoinSegments(b));
    }
  }

  lemma {:induction false} SplitConcat(a: string, b: string)
    ensures Split(a + "/" + b) == Split(a) + Split(b)
  {
    SplitSlashFree(a);
    SplitSlashFree(b);
    JoinSplit(a);
    JoinSplit(b);
    JoinConcat(Split(a), Split(b));
    ConcatAssoc(a, "/", b);
    SplitJoin(Split(a) + Split(b));
  }

  // ------------------------------------------------------------ cleaned lists

  /** No empty or "." segment, and ".." only at the front of an unrooted path. */
  predicate CleanSegments(segs: Segments, rooted: bool) {
    (forall i | 0 <= i < |segs| :: segs[i] != "" && segs[i] != ".") &&
    (forall i | 0 <= i < |segs| && segs[i] == ".." :: !rooted && (i > 0 ==> segs[i - 1] == ".."))
  }

  lemma {:induction false} ResolveIsClean(segs: Segments, rooted: bool)
    ensures CleanSegments(Resolve(segs, rooted), rooted)
  {
    if segs != [] {
      ResolveIsClean(segs[..|segs| - 1], rooted);
    }
  }

  lemma {:induction false} ResolveSnoc(a: Segments, x: string, rooted: bool)
    ensures Resolve(a + [x], rooted) == Push(Resolve(a, rooted), x, rooted)
  {
    assert (a + [x])[..|a|] == a;
  }

  lemma {:induction false} CleanResolves(segs: Segments, rooted: bool)
    requires CleanSegments(segs, rooted)
    ensures Resolve(segs, rooted) == segs
  {
    if segs != [] {
      var n := |segs| - 1;
      var start := segs[..n];
      assert segs == start + [segs[n]];
      CleanStart(start, [segs[n]], rooted);
      CleanResolves(start, rooted);
      ResolveSnoc(start, segs[n], rooted);
      assert n > 0 ==> start[n - 1] == segs[n - 1];
    }
  }

  lemma {:induction false} ResolveThenGood(a: Segments, b: Segments, rooted: bool)
    requires forall i | 0 <= i < |b| :: GoodSegment(b[i])
    ensures Resolve(a + b, rooted) == Resolve(a, rooted) + b
  {
    if b == [] {
      assert a + b == a;
    } else {
      var n := |b| - 1;
      var start, last := b[..n], b[n];
      ResolveThenGood(a, start, rooted);
      assert b == start + [last];
      ListAssoc(a, start, [last]);
      ResolveSnoc(a + start, last, rooted);
      ListAssoc(Resolve(a, rooted), start, [last]);
    }
  }

  lemma {:induction false} GoodResolves(segs: Segments, rooted: bool)
    requires forall i | 0 <= i < |segs| :: GoodSegment(segs[i])
    ensures Resolve(segs, rooted) == segs
  {
    ResolveThenGood([], segs, rooted);
    assert [] + segs == segs;
  }

  lemma {:induction false} ResolveSlashFree(segs: Segments, rooted: bool)
    requires SlashFrees(segs)
    ensures SlashFrees(Resolve(segs, rooted))
  {
    if segs != [] {
      ResolveSlashFree(segs[..|segs| - 1], rooted);
    }
  }

  lemma {:induction false} ResolveAfterEmpty(segs: Segments, rooted: bool)
    ensures Resolve([""] + segs, rooted) == Resolve(segs, rooted)
  {
    if segs == [] {
      assert [""] + segs == [""];
      assert Resolve([], rooted) == [];
    } else {
      var n := |segs| - 1;
      ResolveAfterEmpty(segs[..n], rooted);
      assert ([""] + segs)[..|segs|] == [""] + segs[..n];
    }
  }

  /** Slashes at the end of a path change nothing of what it resolves to. */
  lemma {:induction false} ResolveTrimmed(s: string, rooted: bool)
    ensures Resolve(Split(s), rooted) == Resolve(Split(TrimSlashes(s)), rooted)
  {
    if s != "" && s[|s| - 1] == '/' {
      var t := s[..|s| - 1];
      assert TrimSlashes(s) == TrimSlashes(t);
      ResolveTrimmed(t, rooted);
      assert s == t + "/";
      ResolveSlash(t, rooted);
    }
  }

  lemma {:induction false} ResolveSlash(t: string, rooted: bool)
    ensures Resolve(Split(t + "/"), rooted) == Resolve(Split(t), rooted)
  {
    assert t + "/" == t + "/" + "";
    SplitConcat(t, "");
    SplitNone("");
    ResolveSnoc(Split(t), "", rooted);
  }

  // -------------------------------------------------------- cleaned path names

  lemma {:induction false} ResolveAfter(a: Segments, a': Segments, b: Segments, rooted: bool)
    requires Resolve(a, rooted) == Resolve(a', rooted)
    ensures Resolve(a + b, rooted) == Resolve(a' + b, rooted)
  {
    if b == [] {
      assert a + b == a && a' + b == a';
    } else {
      var start, last := b[..|b| - 1], b[|b| - 1];
      ResolveAfter(a, a', start, rooted);
      assert b == start + [last];
      ListAssoc(a, start, [last]);
      ListAssoc(a', start, [last]);
      ResolveSnoc(a + start, last, rooted);
      ResolveSnoc(a' + start, last, rooted);
    }
  }

  /** Two starts of a path that resolve alike make the whole clean to the same. */
  lemma {:induction false} CleanAfter(p: string, p': string, q: string)
    requires p != "" && p' != "" && p[0] == p'[0] && Resolve(Split(p), Rooted(p)) == Resolve(Split(p'), Rooted(p))
    ensures Clean(p + "/" + q) == Clean(p' + "/" + q)
  {
    SplitConcat(p, q);
    SplitConcat(p', q);
    ResolveAfter(Split(p), Split(p'), Split(q), Rooted(p));
    assert (p + "/" + q)[0] == p[0] && (p' + "/" + q)[0] == p'[0];
  }

  lemma {:induction false} ResolveNext(p: string, seg: string, rooted: bool)
    requires SlashFree(seg)
    ensures Resolve(Split(p + "/" + seg), rooted) == Push(Resolve(Split(p), rooted), seg, rooted)
  {
    SplitConcat(p, seg);
    SplitNone(seg);
    ResolveSnoc(Split(p), seg, rooted);
  }

  /** Cleaning drops a "." and an empty segment, wherever they are. */
  lemma {:induction false} CleanDropsOne(p: string, seg: string, q: string)
    requires p != "" && (seg == "" || seg == ".")
    ensures Clean(p + "/" + seg + "/" + q) == Clean(p + "/" + q)
  {
    var start := p + "/" + seg;
    ResolveNext(p, seg, Rooted(p));
    assert start[0] == p[0];
    CleanAfter(start, p, q);
  }

  /** And it drops a ".." with the name before it. */
  lemma {:induction false} CleanDropsPair(p: string, x: string, q: string)
    requires p != "" && SlashFree(x) && GoodSegment(x)
    ensures Clean(p + "/" + x + "/" + ".." + "/" + q) == Clean(p + "/" + q)
  {
    var start := p + "/" + x;
    var up := start + "/" + "..";
    ResolveNext(p, x, Rooted(p));
    ResolveNext(start, "..", Rooted(p));
    PushPops(Resolve(Split(p), Rooted(p)), x, Rooted(p));
    assert start[0] == p[0] && up[0] == start[0];
    CleanAfter(up, p, q);
  }

  lemma {:induction false} PushPops(segs: Segments, x: string, rooted: bool)
    requires GoodSegment(x)
    ensures Push(Push(segs, x, rooted), "..", rooted) == segs
  {
    assert (segs + [x])[..|segs|] == segs;
  }

  /** A rooted path does not go above its root. */
  lemma {:induction false} CleanAtRoot(q: string)
    ensures Clean("/" + ".." + "/" + q) == Clean("/" + q)
  {
    assert "/" + ".." + "/" + q == "" + "/" + ".." + "/" + q;
    assert "/" + q == "" + "/" + q;
    SplitNone("");
    SplitNone("..");
    SplitConcat("", "..");
    SplitConcat("" + "/" + "..", q);
    SplitConcat("", q);
    assert Resolve([], true) == [] && Resolve([""], true) == [];
    ResolveSnoc([""], "..", true);
    ResolveAfter([""] + [".."], [""], Split(q), true);
  }

  /** A cleaned path stays as it is. */
  lemma {:induction false} CleanTwice(s: string)
    ensures Clean(Clean(s)) == Clean(s)
  {
    var rooted := Rooted(s);
    var segs := Resolve(Split(s), rooted);
    SplitSlashFree(s);
    ResolveSlashFree(Split(s), rooted);
    ResolveIsClean(Split(s), rooted);
    if segs != [] {
      CleanRebuilt(segs, rooted);
    } else {
      CleanDot();
      assert Clean(s) == "/" || Clean(s) == ".";
    }
  }

  lemma {:induction false} CleanDot()
    ensures Clean(".") == "." && Clean("/") == "/"
  {
    SplitNone(".");
    SplitNone("");
    assert "/" == "" + "/" + "";
    SplitConcat("", "");
    assert Resolve([], true) == [] && Resolve([], false) == [];
    ResolveSnoc([], ".", false);
    ResolveSnoc([], "", true);
    ResolveSnoc([""], "", true);
    assert [] + ["."] == ["."] && [] + [""] == [""];
  }

  lemma {:induction false} CleanRebuilt(segs: Segments, rooted: bool)
    requires segs != [] && SlashFrees(segs) && CleanSegments(segs, rooted)
    ensures Clean(Rebuilt(segs, rooted)) == Rebuilt(segs, rooted)
  {
    var t := Rebuilt(segs, rooted);
    NotEmpty(segs, 0);
    assert t != "";
    RebuiltResolves(segs, rooted);
  }

  lemma {:induction false} RebuiltResolves(segs: Segments, rooted: bool)
    requires segs != [] && SlashFrees(segs) && CleanSegments(segs, rooted)
    ensures var t := Rebuilt(segs, rooted); Rooted(t) == rooted && Resolve(Split(t), rooted) == segs
  {
    var body := JoinSegments(segs);
    SplitJoin(segs);
    CleanResolves(segs, rooted);
    if rooted {
      SplitAtRoot(body);
      ResolveAfterEmpty(segs, true);
    } else {
      assert Rebuilt(segs, false) == body;
      RootedSplit(body);
    }
  }

  lemma {:induction false} SplitAtRoot(body: string)
    ensures Split("/" + body) == [""] + Split(body) && Rooted("/" + body)
  {
    assert "/" + body == "" + "/" + body;
    SplitAfter("", body);
  }

  // ------------------------------------------------------------- joined keys

  /** A key prefix that joining leaves as it is. */
  predicate KeepsPrefix(prefix: string) {
    Clean(prefix) == prefix && prefix != "." && prefix != "/"
  }

  /** What joining a walked path to any prefix gives. */
  lemma {:induction false} JoinResolves(prefix: string, rel: string)
    requires prefix != "" && rel != "" && GoodRel(rel)
    ensures PathJoin(prefix, rel) == Rebuilt(Resolve(Split(prefix), Rooted(prefix)) + Split(rel), Rooted(prefix))
  {
    var s := prefix + "/" + rel;
    assert s[0] == prefix[0];
    SplitConcat(prefix, rel);
    ResolveThenGood(Split(prefix), Split(rel), Rooted(prefix));
    var segs := Resolve(Split(prefix), Rooted(prefix)) + Split(rel);
    NotEmpty(segs, |segs| - 1);
  }

  lemma {:induction false} NotEmpty(segs: Segments, i: nat)
    requires i < |segs| && segs[i] != ""
    ensures JoinSegments(segs) != ""
  {
    if |segs| > 1 && i > 0 {
      assert segs[1..][i - 1] == segs[i];
    }
  }

  lemma {:induction false} KeptKey(prefix: string, rel: string)
    requires KeepsPrefix(prefix) && rel != "" && GoodRel(rel)
    ensures PathJoin(prefix, rel) == prefix + "/" + rel
  {
    JoinResolves(prefix, rel);
    var rooted := Rooted(prefix);
    var r := Resolve(Split(prefix), rooted);
    assert r != [];
    JoinConcat(r, Split(rel));
    JoinSplit(rel);
    var root := if rooted then "/" else "";
    assert prefix == root + JoinSegments(r);
    ConcatAssoc(root, JoinSegments(r), "/" + rel);
    ConcatAssoc(prefix, "/", rel);
  }

  lemma {:induction false} CleanStart(a: Segments, b: Segments, rooted: bool)
    requires CleanSegments(a + b, rooted)
    ensures CleanSegments(a, rooted)
  {
    assert forall i | 0 <= i < |a| :: (a + b)[i] == a[i];
  }

  lemma {:induction false} CleanThenGood(a: Segments, b: Segments, rooted: bool)
    requires CleanSegments(a, rooted) && forall i | 0 <= i < |b| :: GoodSegment(b[i])
    ensures CleanSegments(a + b, rooted)
  {
    assert forall i | 0 <= i < |a| :: (a + b)[i] == a[i];
    assert forall i | |a| <= i < |a + b| :: (a + b)[i] == b[i - |a|];
  }

  lemma {:induction false} ListedUnrooted(prefix: string, segs: Segments, x: string)
    requires prefix != "" && !Rooted(prefix) && segs != [] && SlashFrees(segs) && CleanSegments(segs, false)
    requires JoinSegments(segs) == prefix + "/" + x
    ensures KeepsPrefix(prefix)
  {
    SplitJoin(segs);
    SplitConcat(prefix, x);
    CleanStart(Split(prefix), Split(x), false);
    CleanResolves(Split(prefix), false);
    JoinSplit(prefix);
    assert prefix == "." ==> Split(prefix) == ["."];
  }

  lemma {:induction false} ListedRooted(rest: string, segs: Segments, x: string)
    requires segs != [] && SlashFrees(segs) && CleanSegments(segs, true)
    requires JoinSegments(segs) == rest + "/" + x
    ensures KeepsPrefix("/" + rest)
  {
    SplitJoin(segs);
    SplitConcat(rest, x);
    CleanStart(Split(rest), Split(x), true);
    CleanResolves(Split(rest), true);
    JoinSplit(rest);
    assert "" + "/" + rest == "/" + rest;
    SplitAfter("", rest);
    ResolveAfterEmpty(Split(rest), true);
    assert Split(rest)[0] != "";
    assert Split("") == [""];
  }

  /** A joined key is found under the prefix it was joined to exactly when joining keeps the prefix. */
  lemma {:induction false} ListedIff(prefix: string, rel: string)
    requires rel != "" && GoodRel(rel)
    ensures HasPrefix(PathJoin(prefix, rel), prefix + "/") <==> KeepsPrefix(prefix)
  {
    if KeepsPrefix(prefix) {
      KeptKey(prefix, rel);
      CutAfter(prefix + "/", rel);
    } else if prefix == "" {
      UnrootedRel(rel);
    } else if HasPrefix(PathJoin(prefix, rel), prefix + "/") {
      ListedKeeps(prefix, rel);
    }
  }

  lemma {:induction false} UnrootedRel(rel: string)
    requires rel != "" && GoodRel(rel)
    ensures Clean(rel) == rel && !Rooted(rel) && !HasPrefix(rel, "/")
  {
    GoodUnrooted(rel);
    GoodResolves(Split(rel), false);
    UnrootedRebuilt(rel);
  }

  lemma {:induction false} UnrootedRebuilt(s: string)
    ensures Rebuilt(Split(s), false) == s
  {
    JoinSplit(s);
    assert "" + JoinSegments(Split(s)) == JoinSegments(Split(s));
  }

  lemma {:induction false} GoodUnrooted(rel: string)
    requires rel != "" && GoodRel(rel)
    ensures !Rooted(rel) && !HasPrefix(rel, "/")
  {
    RootedSplit(rel);
    assert GoodSegment(Split(rel)[0]);
    assert rel[..1] == [rel[0]];
  }

  lemma {:induction false} RootedSplit(s: string)
    ensures Rooted(s) ==> Split(s)[0] == ""
  {
  }

  lemma {:induction false} KeySegments(prefix: string, rel: string) returns (segs: Segments)
    requires prefix != "" && rel != "" && GoodRel(rel)
    ensures segs != [] && SlashFrees(segs) && CleanSegments(segs, Rooted(prefix))
    ensures PathJoin(prefix, rel) == Rebuilt(segs, Rooted(prefix))
  {
    JoinResolves(prefix, rel);
    var rooted := Rooted(prefix);
    var r := Resolve(Split(prefix), rooted);
    segs := r + Split(rel);
    SplitSlashFree(prefix);
    SplitSlashFree(rel);
    ResolveSlashFree(Split(prefix), rooted);
    ResolveIsClean(Split(prefix), rooted);
    CleanThenGood(r, Split(rel), rooted);
  }

  lemma {:induction false} ListedKeeps(prefix: string, rel: string)
    requires prefix != "" && rel != "" && GoodRel(rel) && HasPrefix(PathJoin(prefix, rel), prefix + "/")
    ensures KeepsPrefix(prefix)
  {
    var segs := KeySegments(prefix, rel);
    var key := PathJoin(prefix, rel);
    var x := key[|prefix| + 1..];
    assert key == prefix + "/" + x;
    if Rooted(prefix) {
      var rest := prefix[1..];
      assert prefix == "/" + rest;
      CutAfter("/", JoinSegments(segs));
      assert key[1..] == rest + "/" + x;
      ListedRooted(rest, segs, x);
    } else {
      assert "" + JoinSegments(segs) == JoinSegments(segs);
      ListedUnrooted(prefix, segs, x);
    }
  }

  lemma {:induction false} KeyUnder(prefix: string, kept: string, rel: string)
    requires kept != "" && GoodRel(kept) && TrimSlashes(prefix) == kept && rel != "" && GoodRel(rel)
    ensures PathJoin(prefix, rel) == kept + ("/" + rel)
  {
    UnrootedRel(kept);
    assert prefix[0] == kept[0];
    JoinResolves(prefix, rel);
    ResolveTrimmed(prefix, false);
    GoodResolves(Split(kept), false);
    JoinConcat(Split(kept), Split(rel));
    JoinSplit(kept);
    JoinSplit(rel);
  }

  /** Whatever output cleanup accepts, the prefix it deletes under is the one every key was written under. */
  lemma {:induction false} CleanupFindsKeys(bucket: string, output: string, name: string, p: string, rel: string)
    requires bucket != "" && SlashFree(bucket) && rel != "" && GoodRel(rel)
    requires CleanupS3Prefix(EncryptedUrl(bucket, output), bucket, name) == Ok(p)
    ensures PathJoin(TrimSlash(output), rel) == p + rel
  {
    EncryptedPrefix(bucket, output, name);
    var kept := TrimSlashes(output);
    KeyUnder(TrimSlash(output), kept, rel);
    ConcatAssoc(kept, "/", rel);
  }

  /** The output "a//" leaves the key prefix "a/", which joining does not keep: "f" goes to "a/f", and "a//" lists nothing. */
  lemma {:induction false} DoubleSlashLoses()
    ensures TrimSlash("a//") == "a/" && !KeepsPrefix("a/")
    ensures PathJoin("a/", "f") == "a/f" && !HasPrefix("a/f", "a/" + "/")
  {
    SplitNone("a");
    SplitNone("f");
    assert TrimSlash("a//") == "a/";
    assert TrimSlashes("a") == "a" && "a/"[..1] == "a";
    assert TrimSlashes("a/") == "a";
    KeyUnder("a/", "a", "f");
    assert "a" + ("/" + "f") == "a/f";
    ListedIff("a/", "f");
  }
}
