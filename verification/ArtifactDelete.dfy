/**
 S3 cleanup (cmd/bloodraven/artifact_cleanup.go:444-519): the objects under a
 prefix are listed page by page and deleted by concurrent workers, and the
 prefix is listed again before the cleanup is called complete.
 */
module ArtifactDelete {
  import opened Wrappers
  import opened Text
  import opened ArtifactLocation

  /** cleanupDeleteWorkers. */
  const WORKERS := 16

  datatype CleanupError = Rejected | Transient

  /** The bucket. `removed` counts the deletes that were answered with success, `faults` the calls that were not. */
  class Store {
    var keys: set<string>
    ghost var removed: nat
    ghost var faults: nat

    constructor (keys: set<string>)
      ensures this.keys == keys && removed == 0 && faults == 0
    {
      this.keys := keys;
      removed, faults := 0, 0;
    }

    /** A delete may fail, and may land and its answer be lost. */
    method Delete(key: string) returns (ok: bool)
      modifies this
      ensures keys == old(keys) || keys == old(keys) - {key}
      ensures ok ==> key !in keys
      ensures removed == old(removed) + if ok then 1 else 0
      ensures faults == old(faults) + if ok then 0 else 1
    {
      var lands: bool := *;
      var lost: bool := *;
      if lands {
        keys := keys - {key};
      }
      ok := lands && !lost;
      removed := if ok then removed + 1 else removed;
      faults := if ok then faults else faults + 1;
    }

    /** A complete listing, or an error. */
    method List(prefix: string) returns (r: Result<set<string>, ()>)
      modifies this`faults
      ensures r.Ok? ==> r.value == set k | k in keys && HasPrefix(k, prefix)
      ensures faults == old(faults) + if r.Ok? then 0 else 1
    {
      var fails: bool := *;
      if fails {
        faults := faults + 1;
        return Err(());
      }
      return Ok(set k | k in keys && HasPrefix(k, prefix));
    }
  }

  // ---------------------------------------------------------------- the workers

  /** A worker waits for a key, holds one, or has its answer still to record. */
  datatype Worker = Idle | Holding(key: string) | Answered(ok: bool)

  function Count(ws: seq<Worker>, w: Worker): (n: nat)
  {
    multiset(ws)[w]
  }

  function Busy(ws: seq<Worker>): (n: int)
  {
    |ws| - Count(ws, Idle)
  }

  lemma {:induction false} CountUpdate(ws: seq<Worker>, i: nat, w: Worker)
    requires i < |ws|
    ensures forall v: Worker ::
      Count(ws[i := w], v) == Count(ws, v) - (if ws[i] == v then 1 else 0) + if w == v then 1 else 0
  {
    assert multiset(ws[i := w]) == multiset(ws) - multiset{ws[i]} + multiset{w};
    assert ws[i] in multiset(ws);
  }

  lemma {:induction false} AnsweredAreBusy(ws: seq<Worker>)
    ensures Count(ws, Answered(true)) + Count(ws, Answered(false)) <= Busy(ws)
  {
    if ws != [] {
      AnsweredAreBusy(ws[1..]);
      assert ws == [ws[0]] + ws[1..];
      assert multiset(ws) == multiset{ws[0]} + multiset(ws[1..]);
    }
  }

  predicate AnyBusy(ws: seq<Worker>) {
    exists i | 0 <= i < |ws| :: ws[i] != Idle
  }

  lemma {:induction false} AllIdle(ws: seq<Worker>)
    requires !AnyBusy(ws)
    ensures Busy(ws) == 0 && forall w: Worker | w != Idle :: Count(ws, w) == 0
  {
    assert forall w | w in ws :: w == Idle;
    if ws != [] {
      AllIdle(ws[1..]);
      assert ws == [ws[0]] + ws[1..];
      assert multiset(ws) == multiset{ws[0]} + multiset(ws[1..]);
    }
  }

  /** Where each worker is, the keys handed out, and the answers recorded under the mutex; the first error is the one reported. */
  datatype Pool = Pool(workers: seq<Worker>, next: nat, deleted: nat, failed: nat)

  /** Unless some delete failed, every key handed out is gone or still held. */
  ghost predicate Accounted(p: Pool, keys: seq<string>, present: set<string>)
    requires p.next <= |keys|
  {
    p.failed + Count(p.workers, Answered(false)) == 0 ==>
      forall j | 0 <= j < p.next && keys[j] in present :: Holding(keys[j]) in p.workers
  }

  ghost predicate Sound(p: Pool, keys: seq<string>, present: set<string>, removed: int) {
    && p.next <= |keys|
    && p.deleted + p.failed + Busy(p.workers) == p.next
    && p.deleted + Count(p.workers, Answered(true)) == removed
    && (forall i | 0 <= i < |p.workers| :: p.workers[i].Holding? ==> p.workers[i].key in keys)
    && Accounted(p, keys, present)
  }

  /** The deletes that were answered without success, recorded or not. */
  function Faults(p: Pool): (n: nat)
  {
    p.failed + Count(p.workers, Answered(false))
  }

  function Left(p: Pool, keys: seq<string>): (n: int)
  {
    3 * (|keys| - p.next) + 2 * Busy(p.workers) - Count(p.workers, Answered(true)) - Count(p.workers, Answered(false))
  }

  lemma {:induction false} HandOut(p: Pool, keys: seq<string>, present: set<string>, removed: int, i: nat)
    requires Sound(p, keys, present, removed) && i < |p.workers| && p.workers[i] == Idle && p.next < |keys|
    ensures var p' := p.(workers := p.workers[i := Holding(keys[p.next])], next := p.next + 1);
            Sound(p', keys, present, removed) && Left(p', keys) < Left(p, keys) && Faults(p') == Faults(p)
  {
    var ws := p.workers[i := Holding(keys[p.next])];
    CountUpdate(p.workers, i, Holding(keys[p.next]));
    assert ws[i] == Holding(keys[p.next]);
    forall w | w in p.workers && w != Idle ensures w in ws {
      var j :| 0 <= j < |p.workers| && p.workers[j] == w;
      assert ws[j] == w;
    }
  }

  lemma {:induction false} DeleteAnswered(p: Pool, keys: seq<string>, present: set<string>, removed: int, i: nat, ok: bool, present': set<string>)
    requires Sound(p, keys, present, removed) && i < |p.workers| && p.workers[i].Holding?
    requires present' == present || present' == present - {p.workers[i].key}
    requires ok ==> p.workers[i].key !in present'
    ensures var p' := p.(workers := p.workers[i := Answered(ok)]);
            && Sound(p', keys, present', removed + if ok then 1 else 0) && Left(p', keys) < Left(p, keys)
            && Faults(p') == Faults(p) + if ok then 0 else 1
  {
    var ws := p.workers[i := Answered(ok)];
    CountUpdate(p.workers, i, Answered(ok));
    forall w | w in p.workers && w != p.workers[i] ensures w in ws {
      var j :| 0 <= j < |p.workers| && p.workers[j] == w;
      assert ws[j] == w;
    }
  }

  lemma {:induction false} Record(p: Pool, keys: seq<string>, present: set<string>, removed: int, i: nat)
    requires Sound(p, keys, present, removed) && i < |p.workers| && p.workers[i].Answered?
    ensures var p' := Recorded(p, i);
            Sound(p', keys, present, removed) && Left(p', keys) < Left(p, keys) && Faults(p') == Faults(p)
  {
    var ws := p.workers[i := Idle];
    CountUpdate(p.workers, i, Idle);
    forall w | w in p.workers && w.Holding? ensures w in ws {
      var j :| 0 <= j < |p.workers| && p.workers[j] == w;
      assert ws[j] == w;
    }
  }

  function Recorded(p: Pool, i: nat): (p': Pool)
    requires i < |p.workers| && p.workers[i].Answered?
  {
    var q := p.(workers := p.workers[i := Idle]);
    if p.workers[i].ok then q.(deleted := p.deleted + 1) else q.(failed := p.failed + 1)
  }

  /** One step of one worker, whichever the scheduler picks: it takes a key, deletes it, or records the answer. */
  method WorkerStep(store: Store, keys: seq<string>, p: Pool, ghost start: int, ghost faults: int) returns (p': Pool)
    requires Sound(p, keys, store.keys, store.removed - start) && p.workers != [] && Faults(p) == store.faults - faults
    requires p.next < |keys| || AnyBusy(p.workers)
    modifies store
    ensures Sound(p', keys, store.keys, store.removed - start) && |p'.workers| == |p.workers|
    ensures Faults(p') == store.faults - faults
    ensures Left(p', keys) < Left(p, keys)
    ensures store.keys <= old(store.keys) && forall k | k in old(store.keys) && k !in keys :: k in store.keys
  {
    var i: nat :| i < |p.workers| && (p.workers[i] != Idle || p.next < |keys|);
    match p.workers[i] {
      case Idle =>
        HandOut(p, keys, store.keys, store.removed - start, i);
        p' := p.(workers := p.workers[i := Holding(keys[p.next])], next := p.next + 1);
      case Holding(key) =>
        ghost var present, removed := store.keys, store.removed;
        var ok := store.Delete(key);
        DeleteAnswered(p, keys, present, removed - start, i, ok, store.keys);
        p' := p.(workers := p.workers[i := Answered(ok)]);
      case Answered(ok) =>
        Record(p, keys, store.keys, store.removed - start, i);
        p' := Recorded(p, i);
    }
  }

  /**
   deleteKeys, under every schedule of its workers: the count is that of the
   deletes answered with success, there is no error exactly when all of them
   were, and no other key is touched.
   */
  method DeleteKeys(store: Store, keys: seq<string>) returns (deleted: nat, failed: bool)
    modifies store
    ensures deleted == store.removed - old(store.removed) && deleted <= |keys|
    ensures !failed <==> deleted == |keys|
    ensures deleted + (store.faults - old(store.faults)) == |keys|
    ensures store.keys <= old(store.keys) && forall k | k in old(store.keys) && k !in keys :: k in store.keys
    ensures !failed ==> forall k | k in keys :: k !in store.keys
  {
    var n := if |keys| < WORKERS then |keys| else WORKERS;
    var p := Pool(seq(n, _ => Idle), 0, 0, 0);
    AllIdle(p.workers);
    ghost var start, before, faults := store.removed, store.keys, store.faults;
    while p.next < |keys| || AnyBusy(p.workers)
      invariant Sound(p, keys, store.keys, store.removed - start) && |p.workers| == n
      invariant Faults(p) == store.faults - faults
      invariant store.keys <= before && forall k | k in before && k !in keys :: k in store.keys
      decreases Left(p, keys)
    {
      AnsweredAreBusy(p.workers);
      p := WorkerStep(store, keys, p, start, faults);
    }
    AllIdle(p.workers);
    NoneHeld(p, keys, store.keys);
    return p.deleted, p.failed > 0;
  }

  lemma {:induction false} NoneHeld(p: Pool, keys: seq<string>, present: set<string>)
    requires p.next == |keys| && !AnyBusy(p.workers) && Accounted(p, keys, present) && Count(p.workers, Answered(false)) == 0
    ensures p.failed == 0 ==> forall k | k in keys :: k !in present
  {
    assert forall w | w in p.workers :: w == Idle;
  }

  // ---------------------------------------------------------------- the cleanup

  /**
   cleanupS3. The pages are whatever the store hands over, also keys outside
   the prefix or a part of those under it; still only keys under the prefix
   are deleted, and success means that none is left.
   */
  method CleanupS3(store: Store, prefix: string, pages: seq<seq<string>>) returns (r: Result<nat, CleanupError>)
    modifies store
    ensures store.keys <= old(store.keys)
    ensures forall k | k in old(store.keys) && !HasPrefix(k, prefix) :: k in store.keys
    ensures r.Ok? ==> (forall k | k in store.keys :: !HasPrefix(k, prefix)) && r.value == store.removed - old(store.removed)
    ensures r == Err(Rejected) ==> exists i, k | 0 <= i < |pages| && k in pages[i] :: !HasPrefix(k, prefix)
    ensures r == Err(Transient) ==> store.faults > old(store.faults) || exists k | k in store.keys :: HasPrefix(k, prefix)
    ensures r.Ok? ==> store.faults == old(store.faults) && forall i, k | 0 <= i < |pages| && k in pages[i] :: HasPrefix(k, prefix)
  {
    ghost var before, start := store.keys, store.removed;
    var deleted := 0;
    var i := 0;
    while i < |pages|
      invariant 0 <= i <= |pages| && deleted == store.removed - start && store.faults == old(store.faults)
      invariant forall j, k | 0 <= j < i && k in pages[j] :: HasPrefix(k, prefix)
      invariant store.keys <= before && forall k | k in before && !HasPrefix(k, prefix) :: k in store.keys
    {
      if !AllUnder(pages[i], prefix) {
        return Err(Rejected);
      }
      var n, failed := DeleteKeys(store, pages[i]);
      deleted := deleted + n;
      if failed {
        return Err(Transient);
      }
      i := i + 1;
    }
    var remaining := store.List(prefix);
    if remaining.Err? || remaining.value != {} {
      return Err(Transient);
    }
    assert forall k | k in store.keys && HasPrefix(k, prefix) :: k in remaining.value;
    return Ok(deleted);
  }

  predicate AllUnder(keys: seq<string>, prefix: string) {
    forall k | k in keys :: HasPrefix(k, prefix)
  }

  /** StampSuffix. */
  const STAMP_SUFFIX := ".bloodraven-backup.json"

  /** StampKey. */
  function StampKey(location: string): (k: string)
  {
    TrimSlashes(location) + STAMP_SUFFIX
  }

  lemma {:induction false} StampKeyOf(parent: string, name: string)
    requires SlashFree(name) && name != ""
    ensures StampKey(parent + name + "/") == parent + name + STAMP_SUFFIX
  {
    var key := parent + name;
    assert (key + "/")[..|key|] == key;
    assert key[|key| - 1] == name[|name| - 1] && name[|name| - 1] in name;
    TrimmedOnce(key);
  }

  /** The stamp of one name is neither an object nor the stamp of another. */
  lemma {:induction false} StampApart(parent: string, name: string, other: string)
    requires SlashFree(name) && SlashFree(other)
    ensures !HasPrefix(parent + name + STAMP_SUFFIX, parent + other + "/")
    ensures name != other ==> parent + name + STAMP_SUFFIX != parent + other + STAMP_SUFFIX
  {
    var own := name + STAMP_SUFFIX;
    ConcatAssoc(parent, name, STAMP_SUFFIX);
    ConcatAssoc(parent, other, STAMP_SUFFIX);
    CutAfter(parent, own);
    CutAfter(parent, other + STAMP_SUFFIX);
    if parent + own == parent + (other + STAMP_SUFFIX) {
      SameSuffix(name, other, STAMP_SUFFIX);
    }
    SuffixSlashFree(name);
    SlashInside(parent, own, other);
  }

  lemma {:induction false} SameSuffix(a: string, b: string, suffix: string)
    requires a + suffix == b + suffix
    ensures a == b
  {
    assert |a| == |b|;
    assert (a + suffix)[..|a|] == a && (b + suffix)[..|b|] == b;
  }

  lemma {:induction false} SuffixSlashFree(name: string)
    requires SlashFree(name)
    ensures SlashFree(name + STAMP_SUFFIX)
  {
    assert SlashFree(STAMP_SUFFIX);
  }

  lemma {:induction false} SlashInside(parent: string, own: string, other: string)
    requires SlashFree(own)
    ensures !HasPrefix(parent + own, parent + other + "/")
  {
    var p := parent + other + "/";
    assert p[|p| - 1] == '/';
    assert |own| > |other| ==> (parent + own)[|p| - 1] == own[|other|] && own[|other|] in own;
  }

  /**
   Cleanup of the backup `name` by its recorded location, its stamp last: the
   artifacts and stamps of every other name under the same parent are left as
   they were.
   */
  method CleanupArtifact(store: Store, location: string, bucket: string, name: string, pages: seq<seq<string>>)
    returns (r: Result<nat, CleanupError>)
    modifies store
    ensures var parent := Parent(TrimSlashes(SplitS3Location(location).key));
            && (r.Ok? ==> (forall k | k in store.keys :: !HasPrefix(k, parent + name + "/")) && parent + name + ".bloodraven-backup.json" !in store.keys)
            && (forall k, other | k in old(store.keys) && SlashFree(other) && other != name && OfName(k, parent, other) :: k in store.keys)
    ensures CleanupS3Prefix(location, bucket, name).Err? ==> r == Err(Rejected) && store.keys == old(store.keys)
    ensures var prefix := CleanupS3Prefix(location, bucket, name);
            && (r == Err(Rejected) && prefix.Ok? ==> exists i, k | 0 <= i < |pages| && k in pages[i] :: !HasPrefix(k, prefix.value))
            && (r == Err(Transient) ==> store.faults > old(store.faults) || exists k | k in store.keys :: HasPrefix(k, prefix.value))
  {
    var prefix := CleanupS3Prefix(location, bucket, name);
    if prefix.Err? {
      return Err(Rejected);
    }
    PrefixNamesTheBackup(location, bucket, name, prefix.value);
    ghost var parent, before := Parent(TrimSlashes(SplitS3Location(location).key)), store.keys;
    StampKeyOf(parent, name);
    r := CleanupS3(store, prefix.value, pages);
    ghost var between := store.keys;
    if r.Ok? {
      var ok := store.Delete(StampKey(prefix.value));
      if !ok {
        r := Err(Transient);
      }
    }
    forall k, other | k in before && SlashFree(other) && other != name && OfName(k, parent, other) ensures k in store.keys {
      OthersKept(parent, name, other, k);
    }
  }

  /** An object or the stamp of this name. */
  predicate OfName(k: string, parent: string, name: string) {
    HasPrefix(k, parent + name + "/") || k == parent + name + STAMP_SUFFIX
  }

  lemma {:induction false} OthersKept(parent: string, name: string, other: string, k: string)
    requires SlashFree(name) && SlashFree(other) && other != name && OfName(k, parent, other)
    ensures !OfName(k, parent, name)
  {
    StampApart(parent, name, other);
    StampApart(parent, other, name);
    if HasPrefix(k, parent + other + "/") {
      NamesShareNoKey(parent, other, name, k);
    }
  }
}
