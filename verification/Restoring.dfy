/**
 Files put one after another into an empty directory tree, each through
 temporary names beside its target, as decrypt-download does
 (cmd/bloodraven/encrypt_upload.go:552-559, 593-672,
 internal/sidecar/binlog_storage.go:330-350). A tree is the map of its files;
 its directories are those on the way to them.
 */
module Restoring {
  import opened Wrappers
  import opened Text

  type Content = string

  type Tree = map<string, Content>

  /** A file and where it goes. */
  type Placement = (string, Content)

  // dst + ".part" is downloaded through its own ".part", and decrypted into dst + ".decpart".
  const PART := ".part"
  const DECPART := ".decpart"

  function Temporaries(p: string): (names: set<string>)
  {
    {p + PART, p + PART + PART, p + DECPART}
  }

  /** d is a directory on the way to p. */
  predicate Under(p: string, d: string) {
    HasPrefix(p, d + "/")
  }

  /** One of the two is a directory of the other: no tree holds both as files. */
  predicate Clash(a: string, b: string) {
    Under(a, b) || Under(b, a)
  }

  /** The file q lies where the placing of p puts a temporary file, or below it. */
  predicate Hit(q: string, p: string) {
    exists t | t in Temporaries(p) :: q == t || Under(q, t)
  }

  /** The directory of p or a name needed for p is taken by what is there. */
  predicate Blocked(out: Tree, p: string) {
    exists q | q in out :: Clash(q, p) || (q !in Temporaries(p) && Hit(q, p))
  }

  /** One file; None where making its directory, a temporary file or the rename fails. Files under the temporary names are gone. */
  function Place(out: Tree, f: Placement): (r: Option<Tree>)
  {
    if Blocked(out, f.0) then None else Some((out - Temporaries(f.0))[f.0 := f.1])
  }

  function PlaceAll(fs: seq<Placement>): (r: Option<Tree>)
  {
    if fs == [] then Some(map[])
    else match PlaceAll(fs[..|fs| - 1])
      case None => None
      case Some(out) => Place(out, fs[|fs| - 1])
  }

  /** The files, a later one over an earlier one of the same path. */
  function TreeOf(fs: seq<Placement>): (t: Tree)
  {
    if fs == [] then map[] else TreeOf(fs[..|fs| - 1])[fs[|fs| - 1].0 := fs[|fs| - 1].1]
  }

  // ------------------------------------------------------- when all files arrive

  ghost predicate DistinctPaths(fs: seq<Placement>) {
    forall i, j | 0 <= i < j < |fs| :: fs[i].0 != fs[j].0
  }

  /** No file is in the way of a later one, nor destroyed by it. */
  ghost predicate Tidy(fs: seq<Placement>) {
    forall i, j | 0 <= i < j < |fs| :: !Clash(fs[i].0, fs[j].0) && !Hit(fs[i].0, fs[j].0)
  }

  ghost predicate Unhit(fs: seq<Placement>) {
    forall i, j | 0 <= i < j < |fs| :: !Hit(fs[i].0, fs[j].0)
  }

  lemma {:induction false} InTree(fs: seq<Placement>, p: string)
    ensures p in TreeOf(fs) <==> exists i | 0 <= i < |fs| :: fs[i].0 == p
  {
    if fs != [] {
      var n := |fs| - 1;
      InTree(fs[..n], p);
      if p in TreeOf(fs[..n]) {
        var i :| 0 <= i < n && fs[..n][i].0 == p;
        assert fs[i].0 == p;
      }
      if i :| 0 <= i < |fs| && fs[i].0 == p {
        if i < n { assert fs[..n][i].0 == p; }
      }
    }
  }

  /** What is placed is of the files. */
  lemma {:induction false} PlacedIsOfThem(fs: seq<Placement>)
    ensures PlaceAll(fs).Some? ==>
      forall p | p in PlaceAll(fs).value :: p in TreeOf(fs) && PlaceAll(fs).value[p] == TreeOf(fs)[p]
  {
    if fs != [] {
      PlacedIsOfThem(fs[..|fs| - 1]);
    }
  }

  lemma {:induction false} TidyStart(fs: seq<Placement>)
    requires fs != []
    ensures DistinctPaths(fs) ==> DistinctPaths(fs[..|fs| - 1]) && fs[|fs| - 1].0 !in TreeOf(fs[..|fs| - 1])
    ensures Tidy(fs) ==> Tidy(fs[..|fs| - 1])
    ensures Unhit(fs) ==> Unhit(fs[..|fs| - 1])
  {
    var n := |fs| - 1;
    var start := fs[..n];
    assert forall i | 0 <= i < n :: start[i] == fs[i];
    InTree(start, fs[n].0);
  }

  lemma {:induction false} TidyArrives(fs: seq<Placement>)
    requires DistinctPaths(fs) && Tidy(fs)
    ensures PlaceAll(fs) == Some(TreeOf(fs))
  {
    if fs != [] {
      var n := |fs| - 1;
      TidyStart(fs);
      TidyArrives(fs[..n]);
      assert forall i | 0 <= i < n :: fs[..n][i] == fs[i];
      NotInTheWay(fs[..n], fs[n]);
    }
  }

  lemma {:induction false} ArrivedTidy(fs: seq<Placement>)
    requires DistinctPaths(fs) && PlaceAll(fs) == Some(TreeOf(fs))
    ensures Tidy(fs)
  {
    if fs != [] {
      var n := |fs| - 1;
      var start, f := fs[..n], fs[n];
      assert fs == start + [f];
      DistinctStart(start, f);
      ArrivedBefore(start, f);
      ArrivedTidy(start);
      TidyOneMore(start, f);
    }
  }

  lemma {:induction false} DistinctStart(start: seq<Placement>, f: Placement)
    requires DistinctPaths(start + [f])
    ensures DistinctPaths(start) && f.0 !in TreeOf(start)
  {
    TidyStart(start + [f]);
    assert (start + [f])[..|start|] == start;
  }

  lemma {:induction false} ArrivedBefore(start: seq<Placement>, f: Placement)
    requires f.0 !in TreeOf(start) && PlaceAll(start).Some? && Place(PlaceAll(start).value, f) == Some(TreeOf(start)[f.0 := f.1])
    ensures PlaceAll(start) == Some(TreeOf(start)) && forall q | q in TreeOf(start) :: !Clash(q, f.0) && !Hit(q, f.0)
  {
    PlacedIsOfThem(start);
    LastKeepsAll(start, f, PlaceAll(start).value);
  }

  /** Whatever the order: all the files arrive exactly when none is in the way of a later one or destroyed by it. */
  lemma {:induction false} AllArriveIff(fs: seq<Placement>)
    requires DistinctPaths(fs)
    ensures PlaceAll(fs) == Some(TreeOf(fs)) <==> Tidy(fs)
  {
    if Tidy(fs) { TidyArrives(fs); }
    if PlaceAll(fs) == Some(TreeOf(fs)) { ArrivedTidy(fs); }
  }

  lemma {:induction false} TreeHolds(fs: seq<Placement>, i: nat)
    requires DistinctPaths(fs) && i < |fs|
    ensures fs[i].0 in TreeOf(fs) && TreeOf(fs)[fs[i].0] == fs[i].1
  {
    var n := |fs| - 1;
    if i < n {
      TidyStart(fs);
      TreeHolds(fs[..n], i);
    }
  }

  /** A tidy last file joins the tree of the others. */
  lemma {:induction false} NotInTheWay(start: seq<Placement>, f: Placement)
    requires forall i | 0 <= i < |start| :: !Clash(start[i].0, f.0) && !Hit(start[i].0, f.0)
    ensures Place(TreeOf(start), f) == Some(TreeOf(start)[f.0 := f.1])
  {
    var out := TreeOf(start);
    forall q | q in out ensures !Clash(q, f.0) && !Hit(q, f.0) && q !in Temporaries(f.0) {
      InTree(start, q);
      var i :| 0 <= i < |start| && start[i].0 == q;
      assert !Hit(start[i].0, f.0);
    }
    assert out - Temporaries(f.0) == out;
  }

  /** A last file after which all are there found all the others there, and touched none. */
  lemma {:induction false} LastKeepsAll(start: seq<Placement>, f: Placement, out: Tree)
    requires f.0 !in TreeOf(start) && Place(out, f) == Some(TreeOf(start)[f.0 := f.1])
    requires forall p | p in out :: p in TreeOf(start) && out[p] == TreeOf(start)[p]
    ensures out == TreeOf(start) && forall q | q in TreeOf(start) :: !Clash(q, f.0) && !Hit(q, f.0)
  {
    var all := TreeOf(start);
    forall q | q in all ensures q in out && q !in Temporaries(f.0) {
      assert q in all[f.0 := f.1];
      assert q in (out - Temporaries(f.0))[f.0 := f.1];
    }
    assert out == all;
    forall q | q in all ensures !Clash(q, f.0) && !Hit(q, f.0) {
      assert q in out;
    }
  }

  lemma {:induction false} TidyOneMore(start: seq<Placement>, f: Placement)
    requires Tidy(start) && forall q | q in TreeOf(start) :: !Clash(q, f.0) && !Hit(q, f.0)
    ensures Tidy(start + [f])
  {
    var fs := start + [f];
    forall i, j | 0 <= i < j < |fs| ensures !Clash(fs[i].0, fs[j].0) && !Hit(fs[i].0, fs[j].0) {
      if j == |start| {
        InTree(start, start[i].0);
      }
    }
  }

  /** Where no file is destroyed by a later one, the loop gives all of them or fails. */
  lemma {:induction false} UnhitAllOrNone(fs: seq<Placement>)
    requires DistinctPaths(fs) && Unhit(fs)
    ensures PlaceAll(fs).Some? ==> PlaceAll(fs).value == TreeOf(fs)
  {
    if fs != [] && PlaceAll(fs).Some? {
      var n := |fs| - 1;
      var start, f := fs[..n], fs[n];
      TidyStart(fs);
      UnhitAllOrNone(start);
      forall q | q in TreeOf(start) ensures q !in Temporaries(f.0) {
        InTree(start, q);
        var i :| 0 <= i < n && start[i].0 == q;
        assert start[i] == fs[i] && !Hit(fs[i].0, fs[n].0);
        assert !Hit(q, f.0);
      }
      assert TreeOf(start) - Temporaries(f.0) == TreeOf(start);
    }
  }
}
