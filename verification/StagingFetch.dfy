/**
 rowFetcher (cmd/bloodraven/pitr_download.go:506-604, 675-885): rows are teed
 into a bounded cache while they are indexed, unplanned ones are then dropped,
 and the plan is staged beside what is left. Every answer of the store and the
 file system is arbitrary. `peak` is the most the staging volume ever held.
 */
module StagingFetch {
  import opened Wrappers
  import opened Staging

  /** len(pitrFetchBackoff): the retries of a transient store error. */
  const RETRIES := 5

  datatype FetchError = Transient | Refused | Failed

  /** One read of the store's stream, whether writing it to the copy fails, and how much of it was then written. */
  datatype Piece = Piece(bytes: nat, fails: bool, wrote: nat)

  /**
   What the store and the file system answer in one attempt. The stream brings
   `brings` bytes, or the whole object when that is shorter, cut as in pieces
   and then in one more; removes is whether a dropped copy can be removed.
   */
  datatype Answers = Answers(
    opens: bool, transient: bool, aboveFloor: int, creates: bool, brings: nat, pieces: seq<Piece>,
    streamFails: bool, refused: bool, closes: bool, removes: bool)

  /** The store's error is one that a retry may mend. */
  predicate FailsTransiently(a: Answers) {
    a.transient && (!a.opens || a.streamFails)
  }

  /** The object of `size` bytes is read to its end, is authentic, and has the size claimed. */
  predicate Complete(a: Answers, claim: Claim, size: FileSize) {
    a.opens && !a.streamFails && !a.refused && a.brings >= size && claim == size
  }

  /** Every byte read can be written to the copy. */
  predicate WritesWell(pieces: seq<Piece>) {
    forall i | 0 <= i < |pieces| :: !pieces[i].fails
  }

  predicate ReadsWell(a: Answers, size: FileSize) {
    a.opens && a.creates && !a.streamFails && a.brings >= size && WritesWell(a.pieces)
  }

  /** What the store and the file system answer in one download beside a staged path. */
  datatype Download = Download(
    opens: bool, transient: bool, brings: nat, pieces: seq<nat>, streamFails: bool, writeFails: bool, digestMatches: bool, removes: bool)

  predicate DownloadFailsTransiently(a: Download) {
    a.transient && (!a.opens || a.streamFails)
  }

  predicate DownloadComplete(a: Download, size: FileSize) {
    a.opens && !a.streamFails && !a.writeFails && a.digestMatches && a.brings >= size
  }

  /** What staging one plan file meets: its downloads in turn, up to the one after which it is cancelled. */
  datatype StageEnv = StageEnv(renames: bool, chmods: bool, belowFloor: bool, downloads: seq<Download>)

  /** Parts on disk that no cached row names any more. */
  ghost function Leaked(files: Files, cached: Cached): (r: Files)
  {
    map p | p in files && p.Part? && !Names(cached, p) :: files[p]
  }

  ghost predicate Names(cached: Cached, p: Path) {
    exists r | r in cached :: cached[r].path == p
  }

  /** Each cached row has its own part on disk. */
  ghost predicate Backed(files: Files, cached: Cached) {
    && (forall r | r in cached :: Holds(files, cached[r]))
    && (forall r, s | r in cached && s in cached && r != s :: cached[r].path != cached[s].path)
  }

  ghost predicate Holds(files: Files, c: CachedRow) {
    c.path.Part? && c.path in files && files[c.path] == c.size
  }

  /** The counter and the parts on disk agree, but for the parts that could not be removed. */
  ghost predicate Consistent(files: Files, cached: Cached, cachedBytes: int, parts: nat, stuckBytes: int) {
    && Backed(files, cached)
    && (forall p | p in files && p.Part? :: p.number <= parts)
    && cachedBytes + stuckBytes == Usage(Parts(files))
  }

  /** What leaked: copies whose removal failed, and copies that a later one of their row replaced. */
  ghost predicate LeaksAre(files: Files, cached: Cached, stuck: Files, replaced: Files) {
    Leaked(files, cached) == stuck + replaced && stuck.Keys !! replaced.Keys
  }

  /** Nothing about the cache depends on the other files of the volume. */
  lemma {:induction false} SameParts(files: Files, files': Files, cached: Cached)
    requires Parts(files) == Parts(files')
    ensures Leaked(files, cached) == Leaked(files', cached)
    ensures forall bytes, parts, more :: Consistent(files, cached, bytes, parts, more) ==> Consistent(files', cached, bytes, parts, more)
  {
    assert forall p: Path | p.Part? :: (p in files <==> p in Parts(files)) && (p in files' <==> p in Parts(files'));
    assert forall p: Path | p.Part? && p in files :: files[p] == Parts(files)[p] == files'[p];
    if Backed(files, cached) {
      assert forall r | r in cached :: Holds(files, cached[r]) && Holds(files', cached[r]);
    }
  }

  lemma {:induction false} PartsKept(files: Files, p: Path, n: FileSize)
    requires !p.Part?
    ensures Parts(files - {p}) == Parts(files) == Parts(files[p := n])
  {
  }

  /** Two volumes that differ in one file at most are the same once it is rewritten. */
  lemma {:induction false} Rewritten(files: Files, before: Files, p: Path, n: FileSize)
    requires files - {p} == before - {p}
    ensures files[p := n] == before[p := n] && before[p := n] - {p} == before - {p}
  {
    assert forall q | q in files && q != p :: q in files - {p};
    assert forall q | q in before && q != p :: q in before - {p};
    assert forall q | q in files && q != p :: files[q] == (files - {p})[q] == before[q];
  }

  /** The parts on disk are the cached rows and what has leaked. */
  lemma {:induction false} PartsAccounted(files: Files, cached: Cached)
    requires Backed(files, cached)
    ensures Usage(Parts(files)) == CachedTotal(cached) + Usage(Leaked(files, cached))
    decreases |cached|
  {
    if cached == map[] {
      assert Leaked(files, cached) == Parts(files);
    } else {
      var r :| r in cached;
      DropRow(files, cached, r);
      PartsAccounted(files - {cached[r].path}, cached - {r});
      CachedWithout(cached, r);
    }
  }

  /** A row leaves the cache with its part: nothing leaks, and its blocks are freed. */
  lemma {:induction false} DropRow(files: Files, cached: Cached, r: Row)
    requires Backed(files, cached) && r in cached
    ensures var files', cached' := files - {cached[r].path}, cached - {r};
            && Backed(files', cached')
            && Leaked(files', cached') == Leaked(files, cached)
            && Usage(Parts(files)) == Blocks(cached[r].size) + Usage(Parts(files'))
            && NotParts(files') == NotParts(files)
  {
    var p := cached[r].path;
    var files', cached' := files - {p}, cached - {r};
    assert Holds(files, cached[r]);
    assert Parts(files') == Parts(files) - {p};
    UsageWithout(Parts(files), p);
    forall q | q != p ensures Names(cached', q) <==> Names(cached, q) {
      if Names(cached, q) {
        var s :| s in cached && cached[s].path == q;
        assert s in cached';
      }
    }
    assert Names(cached, p);
    assert forall s | s in cached' :: Holds(files, cached[s]) && Holds(files', cached'[s]);
  }

  /** A row enters the cache: it leaks the part of the same row cached before, and nothing else. */
  ghost predicate RowAdded(files: Files, cached: Cached, row: Row, c: CachedRow, files': Files, cached': Cached) {
    && cached' == cached[row := c]
    && files' == files[c.path := c.size]
    && Leaked(files', cached') ==
         (if row in cached then Leaked(files, cached)[cached[row].path := cached[row].size] else Leaked(files, cached))
  }

  /**
   What a fetch does: the row is cached with the size claimed, or nothing is;
   only a copy of the same row cached before is replaced; and copies that could
   not be removed stay.
   */
  ghost predicate Fetched(cached: Cached, stuck: Files, replaced: Files, row: Row, claim: Claim, cached': Cached, stuck': Files, replaced': Files) {
    && Grew(stuck, stuck')
    && ((cached' == cached && replaced' == replaced) ||
        (&& row in cached' && cached'[row].size == claim && cached' == cached[row := cached'[row]]
         && replaced' == Replacing(cached, replaced, row)))
  }

  lemma {:induction false} AddRow(files: Files, cached: Cached, row: Row, c: CachedRow)
    requires Backed(files, cached) && c.path.Part? && c.path !in files
    ensures var files', cached' := files[c.path := c.size], cached[row := c];
            && Backed(files', cached') && RowAdded(files, cached, row, c, files', cached')
            && Usage(Parts(files')) == Usage(Parts(files)) + Blocks(c.size)
  {
    var files', cached' := files[c.path := c.size], cached[row := c];
    UsageWith(Parts(files), c.path, c.size);
    assert Parts(files') == Parts(files)[c.path := c.size] && Parts(files) - {c.path} == Parts(files);
    assert forall r | r in cached' && r != row :: Holds(files, cached[r]) && Holds(files', cached'[r]);
    AddRowLeaks(files, cached, row, c);
  }

  lemma {:induction false} AddRowLeaks(files: Files, cached: Cached, row: Row, c: CachedRow)
    requires Backed(files, cached) && c.path.Part? && c.path !in files
    ensures Leaked(files[c.path := c.size], cached[row := c]) ==
         (if row in cached then Leaked(files, cached)[cached[row].path := cached[row].size] else Leaked(files, cached))
  {
    var files', cached' := files[c.path := c.size], cached[row := c];
    NamesAfter(cached, row, c);
    assert forall r | r in cached :: Holds(files, cached[r]);
    assert forall r | r in cached :: cached[r].path != c.path;
    assert row in cached' && cached'[row].path == c.path;
    if row in cached {
      assert Names(cached, cached[row].path);
      OnlyNames(files, cached, row);
      assert Leaked(files', cached') == Leaked(files, cached)[cached[row].path := cached[row].size];
    } else {
      assert cached - {row} == cached;
      assert Leaked(files', cached') == Leaked(files, cached);
    }
  }

  /**
   One more row: cachedBytes, which grows by the row's blocks, stays the total
   of the cached rows exactly when the row was not cached before or its earlier
   copy was empty. (AddRow: that copy then stays on the volume.)
   */
  lemma {:induction false} RecachedRowStaysCounted(cached: Cached, row: Row, c: CachedRow, bytes: int)
    requires bytes == CachedTotal(cached)
    ensures bytes + Blocks(c.size) == CachedTotal(cached[row := c]) <==> (row in cached ==> cached[row].size == 0)
  {
    CachedWith(cached, row, c);
    if row in cached {
      BlocksRounds(cached[row].size);
      CachedWithout(cached, row);
    } else {
      assert cached - {row} == cached;
    }
  }

  lemma {:induction false} StuckOnDisk(files: Files, cached: Cached, stuck: Files, replaced: Files)
    requires LeaksAre(files, cached, stuck, replaced)
    ensures forall p | p in stuck :: p in files && files[p] == stuck[p]
    ensures forall p | p in replaced :: p in files
  {
    forall p | p in stuck ensures p in files && files[p] == stuck[p] {
      assert p in stuck + replaced && (stuck + replaced)[p] == stuck[p];
      assert p in Leaked(files, cached);
    }
    forall p | p in replaced ensures p in files {
      assert p in stuck + replaced;
      assert p in Leaked(files, cached);
    }
  }

  /** A copy that could not be removed: it stays on the volume and is not counted. */
  lemma {:induction false} AddStuck(files: Files, cached: Cached, bytes: int, parts: nat, stuck: Files, replaced: Files, p: Path, n: FileSize)
    requires Consistent(files, cached, bytes, parts, Usage(stuck)) && LeaksAre(files, cached, stuck, replaced)
    requires p.Part? && p !in files && p.number <= parts
    ensures Consistent(files[p := n], cached, bytes, parts, Usage(stuck[p := n])) && LeaksAre(files[p := n], cached, stuck[p := n], replaced)
  {
    StuckOnDisk(files, cached, stuck, replaced);
    StuckLeaks(files, cached, stuck, replaced, p, n);
    StuckUsage(files, stuck, p, n);
    StillBacked(files, cached, p, n);
  }

  lemma {:induction false} StillBacked(files: Files, cached: Cached, p: Path, n: FileSize)
    requires Backed(files, cached) && p !in files
    ensures Backed(files[p := n], cached)
  {
    assert forall r | r in cached :: Holds(files, cached[r]) && Holds(files[p := n], cached[r]);
  }

  ghost predicate Grew(stuck: Files, stuck': Files) {
    forall p | p in stuck :: p in stuck' && stuck'[p] == stuck[p]
  }

  lemma {:induction false} GrewTwice(a: Files, b: Files, c: Files)
    requires Grew(a, b) && Grew(b, c)
    ensures Grew(a, c)
  {
  }

  lemma {:induction false} MergeTwice(files: Files, stuck: Files, stuck': Files)
    requires Grew(stuck, stuck')
    ensures (files + stuck) + stuck' == files + stuck'
  {
  }

  ghost function Stick(files: Files, p: Path, left: Option<FileSize>): (r: Files)
  {
    if left.None? then files else files[p := left.value]
  }

  /** After a copy was dropped, stuck or not. */
  lemma {:induction false} DroppedSettles(before: Files, cached: Cached, bytes: int, parts: nat, stuck: Files, replaced: Files, p: Path, left: Option<FileSize>)
    requires Consistent(before, cached, bytes, parts, Usage(stuck)) && LeaksAre(before, cached, stuck, replaced) && Parts(before) == before
    requires left.Some? ==> p.Part? && p !in before && p.number <= parts
    ensures var files, stuck' := Stick(before, p, left), Stick(stuck, p, left);
            && Consistent(files, cached, bytes, parts, Usage(stuck')) && LeaksAre(files, cached, stuck', replaced) && Parts(files) == files
            && files == before + stuck' && Usage(stuck) <= Usage(stuck') && Grew(stuck, stuck')
  {
    StuckOnDisk(before, cached, stuck, replaced);
    if left.Some? {
      AddStuck(before, cached, bytes, parts, stuck, replaced, p, left.value);
      StuckUsage(before, stuck, p, left.value);
      BlocksRounds(left.value);
    }
    StickMerges(before, stuck, p, left);
  }

  lemma {:induction false} StickMerges(before: Files, stuck: Files, p: Path, left: Option<FileSize>)
    requires forall q | q in stuck :: q in before && before[q] == stuck[q]
    requires left.Some? ==> p.Part? && p !in before
    requires Parts(before) == before
    ensures Stick(before, p, left) == before + Stick(stuck, p, left)
    ensures Parts(Stick(before, p, left)) == Stick(before, p, left) && Grew(stuck, Stick(stuck, p, left))
  {
    assert forall q | q in before :: q in Parts(before);
  }

  lemma {:induction false} StuckUsage(files: Files, stuck: Files, p: Path, n: FileSize)
    requires p.Part? && p !in files && p !in stuck
    ensures Usage(stuck[p := n]) == Usage(stuck) + Blocks(n)
    ensures Usage(Parts(files[p := n])) == Usage(Parts(files)) + Blocks(n)
  {
    UsageWith(stuck, p, n);
    UsageWith(Parts(files), p, n);
    assert stuck - {p} == stuck && Parts(files) - {p} == Parts(files) && Parts(files[p := n]) == Parts(files)[p := n];
  }

  lemma {:induction false} StuckLeaks(files: Files, cached: Cached, stuck: Files, replaced: Files, p: Path, n: FileSize)
    requires Backed(files, cached) && LeaksAre(files, cached, stuck, replaced)
    requires p.Part? && p !in files && p !in stuck && p !in replaced
    ensures LeaksAre(files[p := n], cached, stuck[p := n], replaced)
  {
    LeakedMore(files, cached, p, n);
    assert stuck[p := n] + replaced == (stuck + replaced)[p := n];
  }

  lemma {:induction false} LeakedMore(files: Files, cached: Cached, p: Path, n: FileSize)
    requires Backed(files, cached) && p.Part? && p !in files
    ensures Leaked(files[p := n], cached) == Leaked(files, cached)[p := n]
  {
    assert forall r | r in cached :: Holds(files, cached[r]);
    assert forall r | r in cached :: cached[r].path != p;
    assert !Names(cached, p);
  }

  lemma {:induction false} AddReplaced(files: Files, cached: Cached, stuck: Files, replaced: Files, row: Row, c: CachedRow)
    requires Backed(files, cached) && LeaksAre(files, cached, stuck, replaced) && c.path.Part? && c.path !in files
    ensures LeaksAre(files[c.path := c.size], cached[row := c], stuck, Replacing(cached, replaced, row))
  {
    AddRowLeaks(files, cached, row, c);
    if row in cached {
      var p, n := cached[row].path, cached[row].size;
      assert Names(cached, p);
      assert p !in Leaked(files, cached);
      assert p !in stuck + replaced;
      assert p !in stuck;
      assert stuck + replaced[p := n] == (stuck + replaced)[p := n];
    }
  }

  ghost function Replacing(cached: Cached, replaced: Files, row: Row): (r: Files)
  {
    if row in cached then replaced[cached[row].path := cached[row].size] else replaced
  }

  lemma {:induction false} CopyKept(files: Files, cached: Cached, bytes: int, parts: nat, stuckBytes: int, stuck: Files, replaced: Files, row: Row, c: CachedRow)
    requires Consistent(files, cached, bytes, parts, stuckBytes) && LeaksAre(files, cached, stuck, replaced) && Parts(files) == files
    requires c.path.Part? && c.path !in files && c.path.number <= parts
    ensures var files', cached', replaced' := files[c.path := c.size], cached[row := c], Replacing(cached, replaced, row);
            && Consistent(files', cached', bytes + Blocks(c.size), parts, stuckBytes)
            && LeaksAre(files', cached', stuck, replaced') && Parts(files') == files'
            && Fetched(cached, stuck, replaced, row, c.size, cached', stuck, replaced')
  {
    AddRow(files, cached, row, c);
    AddReplaced(files, cached, stuck, replaced, row, c);
    assert forall p | p in files :: p in Parts(files);
  }

  /** cachedBytes is what the cache uses exactly when no part that holds anything is stuck. */
  lemma {:induction false} CountedIff(files: Files, cached: Cached, bytes: int, parts: nat, stuck: Files)
    requires Consistent(files, cached, bytes, parts, Usage(stuck))
    ensures bytes == Usage(Parts(files)) <==> forall p | p in stuck :: stuck[p] == 0
  {
    UsageZeroIff(stuck);
  }

  /**
   A stuck part is enough to pass the room: with a limit of the reserve and one
   block, the counter still allows a whole block beside the one that is stuck.
   */
  lemma {:induction false} StuckPartOverfills(limit: int)
    requires limit == RESERVE + BLOCK
    ensures var stuck: Files := map[Part(1) := BLOCK];
            var files: Files := map[Part(1) := BLOCK, Part(2) := BLOCK];
            && Consistent(stuck, map[], 0, 1, Usage(stuck)) && LeaksAre(stuck, map[], stuck, map[])
            && Blocks(BLOCK) <= limit - 0 - RESERVE && Usage(files) == 2 * BLOCK > limit - RESERVE
  {
    var none: Files, cached: Cached := map[], map[];
    var stuck: Files := map[Part(1) := BLOCK];
    UsageWith(none, Part(1), BLOCK);
    UsageWith(stuck, Part(2), BLOCK);
    assert none[Part(1) := BLOCK] == stuck && none - {Part(1)} == none && stuck - {Part(2)} == stuck;
    assert map[Part(1) := BLOCK, Part(2) := BLOCK] == stuck[Part(2) := BLOCK];
    assert Parts(stuck) == stuck && Leaked(stuck, cached) == stuck && stuck + none == stuck;
    assert Usage(none) == 0 && Blocks(BLOCK) == BLOCK;
  }

  /** A row cached twice, for real: the first part stays on the volume and no row names it. */
  lemma {:induction false} RowCachedTwice()
    ensures var once: Cached := map["r" := CachedRow(Part(1), 5)];
            var files: Files := map[Part(1) := 5];
            var again := CachedRow(Part(2), 5);
            && Backed(files, once)
            && Leaked(files[Part(2) := 5], once["r" := again]) == map[Part(1) := 5]
            && Blocks(5) + Blocks(5) > CachedTotal(once["r" := again])
  {
    var once: Cached, files: Files := map["r" := CachedRow(Part(1), 5)], map[Part(1) := 5];
    var again, none: Cached := CachedRow(Part(2), 5), map[];
    assert Holds(files, once["r"]);
    assert "r" in once && once["r"].path == Part(1);
    assert Leaked(files, once) == map[];
    AddRowLeaks(files, once, "r", again);
    CachedWith(once, "r", again);
    assert once - {"r"} == none;
  }

  lemma {:induction false} NamesAfter(cached: Cached, row: Row, c: CachedRow)
    ensures forall p :: Names(cached[row := c], p) <==> p == c.path || Names(cached - {row}, p)
  {
    var more := cached[row := c];
    forall p ensures Names(more, p) <==> p == c.path || Names(cached - {row}, p) {
      if p == c.path { assert row in more && more[row].path == p; }
      if Names(cached - {row}, p) {
        var r :| r in cached - {row} && (cached - {row})[r].path == p;
        assert r in more && more[r].path == p;
      }
      if Names(more, p) && p != c.path {
        var r :| r in more && more[r].path == p;
        assert r in cached - {row};
      }
    }
  }

  lemma {:induction false} OnlyNames(files: Files, cached: Cached, row: Row)
    requires Backed(files, cached) && row in cached
    ensures forall p :: Names(cached - {row}, p) <==> Names(cached, p) && p != cached[row].path
  {
    forall p ensures Names(cached - {row}, p) <==> Names(cached, p) && p != cached[row].path {
      if Names(cached, p) && p != cached[row].path {
        var r :| r in cached && cached[r].path == p;
        assert r in cached - {row};
      }
      if Names(cached - {row}, p) {
        var r :| r in cached - {row} && (cached - {row})[r].path == p;
        assert r in cached && r != row;
      }
    }
  }

  /** cacheTee: `copying` stands for its open file. */
  class CacheTee {
    const part: Path
    const allow: int
    var copying: bool
    var written: FileSize
    /** The size of a dropped copy that could not be removed. */
    ghost var stuck: Option<FileSize>

    constructor (part: Path, allow: int, copying: bool)
      ensures this.part == part && this.allow == allow && this.copying == copying && written == 0 && stuck == None
    {
      this.part, this.allow, this.copying := part, allow, copying;
      written, stuck := 0, None;
    }
  }

  class RowFetcher {
    const limit: int
    var cached: Cached
    var cachedBytes: int
    var parts: nat
    var files: Files
    ghost var peak: int
    ghost var stuck: Files
    ghost var stuckBytes: int
    ghost var replaced: Files

    constructor (limit: int)
      ensures this.limit == limit && cachedBytes == 0 && parts == 0 && files == map[] && cached == map[] && stuck == map[] && replaced == map[] && Fetching() && peak == 0
    {
      this.limit := limit;
      cached, cachedBytes, parts, files, peak := map[], 0, 0, map[], 0;
      stuck, stuckBytes, replaced := map[], 0, map[];
      new;
      assert Parts(files) == map[] && Leaked(files, cached) == map[] && stuck + replaced == map[];
    }

    /** cachedBytes is what the parts on disk use, whatever was cached, re-cached or dropped, but for the stuck ones. */
    ghost predicate Valid()
      reads this
    {
      Consistent(files, cached, cachedBytes, parts, stuckBytes) && Usage(files) <= peak
    }

    // ------------------------------------------------------------ the volume

    method Put(p: Path, n: FileSize)
      modifies this`files, this`peak
      ensures files == old(files)[p := n]
      ensures peak == if Usage(files) > old(peak) then Usage(files) else old(peak)
    {
      files := files[p := n];
      peak := if Usage(files) > peak then Usage(files) else peak;
    }

    // ------------------------------------------------------------- the fetch

    /** The most the cache may use. */
    ghost function CacheRoom(): (n: int)
    {
      if limit > RESERVE then limit - RESERVE else 0
    }

    /** Before staging: only the cache is on the volume, and it never passed its room by more than what is stuck. */
    ghost predicate Fetching()
      reads this
    {
      && Valid() && LeaksAre(files, cached, stuck, replaced) && stuckBytes == Usage(stuck)
      && Parts(files) == files && (limit > 0 ==> peak <= CacheRoom() + stuckBytes)
    }

    /** The sizeLimit, and not the node, is what bounds the cache, and it has room for the claim. */
    ghost predicate RoomFor(claim: Claim, aboveFloor: int)
      reads this
    {
      limit > 0 && 0 < limit - cachedBytes - RESERVE <= aboveFloor && limit - cachedBytes - RESERVE <= MAX_INT64 &&
      Blocks(claim) <= limit - cachedBytes - RESERVE
    }

    /** cacheAllowance, with the free bytes above the node's floor given by the file system. */
    method CacheAllowance(claim: Claim, aboveFloor: int) returns (allow: int)
      ensures limit > 0 && allow > 0 ==> allow <= limit - cachedBytes - 0x10_0000
      ensures allow > 0 ==> allow <= aboveFloor
      ensures allow > 0 ==> Blocks(claim) <= allow
      ensures RoomFor(claim, aboveFloor) ==> allow == limit - cachedBytes - RESERVE
      ensures Blocks(claim) <= aboveFloor <= MAX_INT64 && (limit > 0 ==> aboveFloor <= limit - cachedBytes - 0x10_0000) ==> allow == aboveFloor
    {
      allow := MAX_INT64;
      if limit > 0 {
        allow := limit - cachedBytes - RESERVE;
      }
      allow := if aboveFloor < allow then aboveFloor else allow;
      if Blocks(claim) > allow {
        return 0;
      }
    }

    /** What the volume holds beside `before` once the tee has stopped copying: nothing, or a copy that is stuck. */
    ghost predicate Dropped(tee: CacheTee, before: Files)
      reads this, tee
    {
      !tee.copying &&
      match tee.stuck
      case None => files == before
      case Some(n) => tee.part !in before && files == before[tee.part := n]
    }

    /** While a tee is at work: its copy is whole and within its allowance, or it has been dropped. */
    ghost predicate Teeing(tee: CacheTee, before: Files, read: FileSize)
      reads this, tee
    {
      && (limit > 0 ==> peak <= CacheRoom() + stuckBytes && (tee.copying ==> Usage(before) + tee.allow <= CacheRoom() + stuckBytes))
      && (tee.copying ==> tee.stuck == None && tee.part !in before && tee.written == read && Blocks(read) <= tee.allow && files == before[tee.part := read])
      && (!tee.copying ==> Dropped(tee, before))
      && Usage(files) <= peak
    }

    /** cacheTee.Read of n more bytes: copied, or the copy dropped. A failed write may have written some of them. */
    method TeeRead(tee: CacheTee, n: nat, piece: Piece, removes: bool, ghost before: Files, ghost read: FileSize)
      requires Teeing(tee, before, read) && Usage(before) <= peak && read + n <= MAX_INT64 - BLOCK + 1
      modifies this`files, this`peak, tee
      ensures Teeing(tee, before, read + n) && peak >= old(peak)
      ensures old(tee.copying) && Blocks(read + n) <= tee.allow && !piece.fails ==> tee.copying
    {
      if n > 0 && tee.copying {
        assert files - {tee.part} == before;
        tee.written := tee.written + n;
        if Blocks(tee.written) > tee.allow {
          Drop(tee, removes, before, read);
          UsageBounds(before, tee.part, read);
        } else {
          TeeWrite(tee, n, piece, removes, before);
        }
      }
    }

    /** The write of n more bytes that the allowance has room for. */
    method TeeWrite(tee: CacheTee, n: nat, piece: Piece, removes: bool, ghost before: Files)
      requires tee.copying && tee.stuck == None && tee.part !in before && files - {tee.part} == before
      requires n <= tee.written && Blocks(tee.written) <= tee.allow && Usage(before) <= peak
      requires limit > 0 ==> peak <= CacheRoom() + stuckBytes && Usage(before) + tee.allow <= CacheRoom() + stuckBytes
      modifies this`files, this`peak, tee`copying, tee`stuck
      ensures Teeing(tee, before, tee.written) && peak >= old(peak) && (!piece.fails ==> tee.copying)
    {
      if piece.fails {
        var some := if piece.wrote < n then piece.wrote else n;
        WritePart(tee, tee.written - n + some, tee.written, before);
        Drop(tee, removes, before, tee.written - n + some);
      } else {
        WritePart(tee, tee.written, tee.written, before);
      }
    }

    /** The copy now holds n bytes, of at most `most` that its allowance has room for. */
    method WritePart(tee: CacheTee, n: FileSize, ghost most: FileSize, ghost before: Files)
      requires tee.part !in before && files - {tee.part} == before && n <= most && Blocks(most) <= tee.allow
      modifies this`files, this`peak
      ensures files == before[tee.part := n] && Usage(files) <= peak && peak >= old(peak)
      ensures peak <= Larger(old(peak), Usage(before) + tee.allow)
    {
      UsageWith(files, tee.part, n);
      BlocksMonotone(n, most);
      assert files[tee.part := n] == before[tee.part := n];
      Put(tee.part, n);
    }

    /** Opens the tee of one attempt: a new part, if the claimed size may be cached. */
    method OpenTee(claim: Claim, mayStage: bool, aboveFloor: int, creates: bool) returns (tee: CacheTee)
      requires Fetching()
      modifies this`files, this`peak, this`parts
      ensures fresh(tee) && Teeing(tee, old(files), 0) && peak >= old(peak)
      ensures tee.part == Part(parts) && Consistent(old(files), cached, cachedBytes, parts, stuckBytes)
      ensures mayStage && creates && RoomFor(claim, aboveFloor) ==>
        tee.copying && tee.allow == limit - cachedBytes - RESERVE && parts == old(parts) + 1
    {
      var allow := 0;
      if mayStage {
        allow := CacheAllowance(claim, aboveFloor);
      }
      if allow <= 0 {
        tee := new CacheTee(Part(parts), 0, false);
        return;
      }
      parts := parts + 1;
      tee := new CacheTee(Part(parts), allow, creates);
      if creates {
        ghost var before := files;
        assert files - {tee.part} == before;
        WritePart(tee, 0, 0, before);
      }
    }

    /** cacheTee.drop: the error of the removal is ignored. */
    method Drop(tee: CacheTee, removes: bool, ghost before: Files, ghost n: FileSize)
      requires tee.copying ==> tee.stuck == None && tee.part !in before && files == before[tee.part := n]
      requires !tee.copying ==> Dropped(tee, before)
      modifies this`files, tee`copying, tee`stuck
      ensures Dropped(tee, before) && (files == old(files) || files == before)
      ensures files == Stick(before, tee.part, tee.stuck)
      ensures old(tee.copying) ==> tee.stuck == if removes then None else Some(n)
    {
      if tee.copying {
        tee.copying := false;
        if removes {
          files := files - {tee.part};
          assert files == before;
        } else {
          tee.stuck := Some(n);
        }
      }
    }

    /** The index pass and the copy to EOF: an object of `size` bytes is read in any pieces, perhaps not to its end. */
    method ReadAll(tee: CacheTee, size: FileSize, brings: nat, pieces: seq<Piece>, removes: bool, ghost before: Files) returns (read: FileSize)
      requires Teeing(tee, before, 0) && Usage(before) <= peak
      modifies this`files, this`peak, tee
      ensures Teeing(tee, before, read) && Usage(before) <= peak && peak >= old(peak)
      ensures read == if brings < size then brings else size
      ensures old(tee.copying) && WritesWell(pieces) && Blocks(read) <= tee.allow ==> tee.copying
    {
      var end: FileSize := if brings < size then brings else size;
      read := 0;
      var i := 0;
      while i < |pieces|
        invariant 0 <= i <= |pieces| && Teeing(tee, before, read) && read <= end && Usage(before) <= peak && peak >= old(peak)
        invariant old(tee.copying) && WritesWell(pieces) && Blocks(end) <= tee.allow ==> tee.copying
      {
        read := ReadPiece(tee, read, end, pieces[i], removes, before);
        i := i + 1;
      }
      read := ReadPiece(tee, read, end, Piece(end - read, false, 0), removes, before);
    }

    /** One read of the object, as much of it as there still is. */
    method ReadPiece(tee: CacheTee, read: FileSize, size: FileSize, piece: Piece, removes: bool, ghost before: Files) returns (more: FileSize)
      requires Teeing(tee, before, read) && read <= size && Usage(before) <= peak
      modifies this`files, this`peak, tee
      ensures Teeing(tee, before, more) && peak >= old(peak)
      ensures more == if read + piece.bytes < size then read + piece.bytes else size
      ensures old(tee.copying) && Blocks(size) <= tee.allow && !piece.fails ==> tee.copying
    {
      var n := if piece.bytes < size - read then piece.bytes else size - read;
      TeeRead(tee, n, piece, removes, before, read);
      more := read + n;
      BlocksMonotone(more, size);
    }

    /**
     fetchOnce: one download of an object of `size` bytes, whatever size the
     manifest claims. Only a complete, authentic download of the claimed size
     stays in the cache; a failed one leaves at most a copy that could not be
     removed.
     */
    method FetchOnce(row: Row, claim: Claim, size: FileSize, mayStage: bool, a: Answers) returns (r: Result<FileSize, FetchError>)
      requires Fetching()
      modifies this
      ensures Fetching() && Fetched(old(cached), old(stuck), old(replaced), row, claim, cached, stuck, replaced)
      ensures r.Ok? <==> Complete(a, claim, size)
      ensures r.Ok? ==> r.value == size == claim
      ensures r == Err(Transient) <==> FailsTransiently(a)
      ensures r.Err? ==> cached == old(cached) && replaced == old(replaced) && files == old(files) + stuck
      ensures old(RoomFor(size, a.aboveFloor)) && mayStage && claim == size && ReadsWell(a, size) ==>
        && parts == old(parts) + 1
        && (!a.refused && a.closes ==>
              cached == old(cached)[row := CachedRow(Part(parts), size)] && cachedBytes == old(cachedBytes) + Blocks(size) && stuck == old(stuck))
        && (a.refused && !a.removes ==>
              stuck == old(stuck)[Part(parts) := size] && cached == old(cached) && cachedBytes == old(cachedBytes))
        && ((!a.refused && a.closes) || (a.refused && !a.removes) ==> files == old(files)[Part(parts) := size])
    {
      if !a.opens {
        NothingNew();
        return Err(if a.transient then Transient else Failed);
      }
      var tee := OpenTee(claim, mayStage, a.aboveFloor, a.creates);
      ghost var before := old(files);
      var read := ReadAll(tee, size, a.brings, a.pieces, a.removes, before);
      r := EndAttempt(row, claim, size, tee, read, a, before);
    }

    /** What follows the reading of the object. */
    method EndAttempt(row: Row, claim: Claim, size: FileSize, tee: CacheTee, read: FileSize, a: Answers, ghost before: Files) returns (r: Result<FileSize, FetchError>)
      requires Teeing(tee, before, read) && tee.part.Part? && tee.part.number <= parts && Parts(before) == before && Usage(before) <= peak && read <= size
      requires Consistent(before, cached, cachedBytes, parts, stuckBytes) && LeaksAre(before, cached, stuck, replaced) && stuckBytes == Usage(stuck)
      modifies this`files, this`stuck, this`stuckBytes, this`cached, this`cachedBytes, this`replaced, tee`copying, tee`stuck
      ensures Fetching() && Fetched(old(cached), old(stuck), old(replaced), row, claim, cached, stuck, replaced)
      ensures r.Ok? <==> !a.streamFails && !a.refused && read == size == claim
      ensures r.Ok? ==> r.value == size == claim
      ensures r == Err(Transient) <==> a.streamFails && a.transient
      ensures r.Err? ==> cached == old(cached) && replaced == old(replaced) && files == before + stuck
      ensures old(tee.copying) && read == size == claim && !a.streamFails && !a.refused && a.closes ==>
        cached == old(cached)[row := CachedRow(tee.part, size)] && cachedBytes == old(cachedBytes) + Blocks(size) &&
        files == old(files) && stuck == old(stuck)
      ensures old(tee.copying) && read == size && a.refused && !a.removes ==>
        cached == old(cached) && cachedBytes == old(cachedBytes) &&
        files == before[tee.part := size] && stuck == old(stuck)[tee.part := size]
    {
      if a.streamFails || read < size || a.refused || read != claim {
        DropForGood(tee, a.removes, before, read);
        return Err(if !a.streamFails then Refused else if a.transient then Transient else Failed);
      }
      KeepOrDrop(row, tee, read, a.closes, a.removes, before);
      return Ok(read);
    }

    /** The end of a complete download: its copy is kept, if there is one and its file closes. */
    method KeepOrDrop(row: Row, tee: CacheTee, read: FileSize, closes: bool, removes: bool, ghost before: Files)
      requires Teeing(tee, before, read) && tee.part.Part? && tee.part.number <= parts && Parts(before) == before && Usage(before) <= peak
      requires Consistent(before, cached, cachedBytes, parts, stuckBytes) && LeaksAre(before, cached, stuck, replaced) && stuckBytes == Usage(stuck)
      modifies this`files, this`stuck, this`stuckBytes, this`cached, this`cachedBytes, this`replaced, tee`copying, tee`stuck
      ensures Fetching() && Fetched(old(cached), old(stuck), old(replaced), row, read, cached, stuck, replaced)
      ensures old(tee.copying) && closes ==>
        cached == old(cached)[row := CachedRow(tee.part, read)] && cachedBytes == old(cachedBytes) + Blocks(read) &&
        files == old(files) && stuck == old(stuck)
    {
      if tee.copying && closes {
        KeepCopy(row, tee, read, before);
      } else {
        DropForGood(tee, removes, before, read);
      }
    }

    /** The end of an attempt that caches nothing: its copy is dropped, and accounted for if it is stuck. */
    method DropForGood(tee: CacheTee, removes: bool, ghost before: Files, ghost read: FileSize)
      requires Teeing(tee, before, read) && tee.part.Part? && tee.part.number <= parts && Parts(before) == before && Usage(before) <= peak
      requires Consistent(before, cached, cachedBytes, parts, stuckBytes) && LeaksAre(before, cached, stuck, replaced) && stuckBytes == Usage(stuck)
      modifies this`files, this`stuck, this`stuckBytes, tee`copying, tee`stuck
      ensures Fetching() && files == before + stuck
      ensures files == Stick(before, tee.part, tee.stuck) && stuck == Stick(old(stuck), tee.part, tee.stuck) && Grew(old(stuck), stuck)
      ensures old(tee.copying) ==> tee.stuck == if removes then None else Some(read)
    {
      Drop(tee, removes, before, read);
      ghost var more := Stick(stuck, tee.part, tee.stuck);
      DroppedSettles(before, cached, cachedBytes, parts, stuck, replaced, tee.part, tee.stuck);
      stuck, stuckBytes := more, Usage(more);
    }

    /** A finished copy enters the cache. */
    method KeepCopy(row: Row, tee: CacheTee, read: FileSize, ghost before: Files)
      requires tee.part.Part? && tee.part !in before && files == before[tee.part := read] && Parts(before) == before
      requires Consistent(before, cached, cachedBytes, parts, stuckBytes) && LeaksAre(before, cached, stuck, replaced)
      requires tee.part.number <= parts && Usage(files) <= peak && stuckBytes == Usage(stuck) && (limit > 0 ==> peak <= CacheRoom() + stuckBytes)
      modifies this`cached, this`cachedBytes, this`replaced
      ensures Fetching() && Fetched(old(cached), stuck, old(replaced), row, read, cached, stuck, replaced)
      ensures cached == old(cached)[row := CachedRow(tee.part, read)] && cachedBytes == old(cachedBytes) + Blocks(read)
    {
      var c := CachedRow(tee.part, read);
      CopyKept(before, cached, cachedBytes, parts, stuckBytes, stuck, replaced, row, c);
      replaced := Replacing(cached, replaced, row);
      cached := cached[row := c];
      cachedBytes := cachedBytes + Blocks(read);
    }

    /** What is stuck is on the volume already. */
    lemma NothingNew()
      requires LeaksAre(files, cached, stuck, replaced)
      ensures files == files + stuck
    {
      StuckOnDisk(files, cached, stuck, replaced);
    }

    /**
     FetchForPlan: transient errors are retried until the sixth attempt or the
     cancellation; a failed fetch leaves only what could not be removed.
     `answers` is what the attempts meet, up to the one after which the wait is
     cancelled.
     */
    method FetchForPlan(row: Row, claim: Claim, size: FileSize, mayStage: bool, answers: seq<Answers>)
      returns (r: Result<FileSize, FetchError>, attempts: nat)
      requires Fetching() && answers != []
      modifies this
      ensures Fetching() && 1 <= attempts <= 6 && attempts <= |answers|
      ensures forall i | 0 <= i < attempts - 1 :: FailsTransiently(answers[i])
      ensures r.Ok? <==> Complete(answers[attempts - 1], claim, size)
      ensures r == Err(Transient) <==> FailsTransiently(answers[attempts - 1])
      ensures r == Err(Transient) ==> attempts == 6 || attempts == |answers|
      ensures Fetched(old(cached), old(stuck), old(replaced), row, claim, cached, stuck, replaced)
      ensures r.Ok? ==> r.value == size == claim
      ensures r.Err? ==> cached == old(cached) && replaced == old(replaced) && files == old(files) + stuck
    {
      NothingNew();
      r, attempts := FetchInTurn(row, claim, size, mayStage, answers, files, cached, stuck, replaced);
    }

    /** The attempts, from a fetcher that has gained nothing but stuck copies since files0, cached0, stuck0 and replaced0. */
    method FetchInTurn(row: Row, claim: Claim, size: FileSize, mayStage: bool, answers: seq<Answers>,
        ghost files0: Files, ghost cached0: Cached, ghost stuck0: Files, ghost replaced0: Files)
      returns (r: Result<FileSize, FetchError>, attempts: nat)
      requires Fetching() && answers != [] && cached == cached0 && replaced == replaced0 && files == files0 + stuck && Grew(stuck0, stuck)
      modifies this
      ensures Fetching() && 1 <= attempts <= 6 && attempts <= |answers|
      ensures forall i | 0 <= i < attempts - 1 :: FailsTransiently(answers[i])
      ensures r.Ok? <==> Complete(answers[attempts - 1], claim, size)
      ensures r == Err(Transient) <==> FailsTransiently(answers[attempts - 1])
      ensures r == Err(Transient) ==> attempts == 6 || attempts == |answers|
      ensures Fetched(cached0, stuck0, replaced0, row, claim, cached, stuck, replaced)
      ensures r.Ok? ==> r.value == size == claim
      ensures r.Err? ==> cached == cached0 && replaced == replaced0 && files == files0 + stuck
    {
      attempts := 1;
      ghost var a := answers[0];
      r := FetchAgain(row, claim, size, mayStage, answers[0], files0, cached0, stuck0, replaced0);
      while r == Err(Transient) && attempts <= RETRIES && attempts < |answers|
        invariant Fetching() && 1 <= attempts <= RETRIES + 1 && attempts <= |answers| && Grew(stuck0, stuck)
        invariant Fetched(cached0, stuck0, replaced0, row, claim, cached, stuck, replaced)
        invariant forall i | 0 <= i < attempts - 1 :: FailsTransiently(answers[i])
        invariant a == answers[attempts - 1] && (r.Ok? <==> Complete(a, claim, size))
        invariant r.Ok? ==> r.value == size == claim
        invariant r == Err(Transient) <==> FailsTransiently(a)
        invariant r.Err? ==> cached == cached0 && replaced == replaced0 && files == files0 + stuck
        decreases RETRIES - attempts
      {
        a := answers[attempts];
        r := FetchAgain(row, claim, size, mayStage, answers[attempts], files0, cached0, stuck0, replaced0);
        attempts := attempts + 1;
      }
    }

    /** One attempt of several: it caches the row, or leaves nothing but what is stuck. */
    method FetchAgain(row: Row, claim: Claim, size: FileSize, mayStage: bool, a: Answers,
        ghost files0: Files, ghost cached0: Cached, ghost stuck0: Files, ghost replaced0: Files)
      returns (r: Result<FileSize, FetchError>)
      requires Fetching() && cached == cached0 && replaced == replaced0 && files == files0 + stuck && Grew(stuck0, stuck)
      modifies this
      ensures Fetching() && Grew(stuck0, stuck)
      ensures Fetched(cached0, stuck0, replaced0, row, claim, cached, stuck, replaced)
      ensures r.Ok? <==> Complete(a, claim, size)
      ensures r.Ok? ==> r.value == size == claim
      ensures r == Err(Transient) <==> FailsTransiently(a)
      ensures r.Err? ==> cached == cached0 && replaced == replaced0 && files == files0 + stuck
    {
      ghost var stuck1 := stuck;
      r := FetchOnce(row, claim, size, mayStage, a);
      GrewTwice(stuck0, stuck1, stuck);
      if r.Err? {
        MergeTwice(files0, stuck1, stuck);
      }
    }

    // ----------------------------------------------------------- the staging

    /** Removes the cached rows the plan does not stage, in any order; those of `fast` cannot be removed. */
    method DropUnplanned(keep: set<Row>, fast: set<Row>) returns (ok: bool)
      requires Valid()
      modifies this`files, this`cached, this`cachedBytes
      ensures Valid() && NotParts(files) == NotParts(old(files)) && Leaked(files, cached) == Leaked(old(files), old(cached))
      ensures ok <==> forall row | row in old(cached) && row !in keep :: row !in fast
      ensures ok ==> cached == Restrict(old(cached), keep)
    {
      var rows := cached.Keys;
      ghost var before, others, leaked := cached, NotParts(files), Leaked(files, cached);
      assert cached == Restrict(before, rows + keep);
      while rows != {}
        invariant Valid() && NotParts(files) == others && Leaked(files, cached) == leaked
        invariant rows <= before.Keys && cached == Restrict(before, rows + keep)
        invariant forall row | row in before && row !in rows && row !in keep :: row !in fast
        decreases rows
      {
        var row :| row in rows;
        RestrictWithout(before, rows, keep, row);
        rows := rows - {row};
        if row !in keep {
          if row in fast {
            return false;
          }
          RemoveRow(row);
        }
      }
      assert {} + keep == keep;
      return true;
    }

    /** The part of a cached row is deleted. */
    method RemoveRow(row: Row)
      requires Valid() && row in cached
      modifies this`files, this`cached, this`cachedBytes
      ensures Valid() && NotParts(files) == NotParts(old(files)) && Leaked(files, cached) == Leaked(old(files), old(cached))
      ensures cached == old(cached) - {row} && Usage(files) <= Usage(old(files))
    {
      var c := cached[row];
      DropRow(files, cached, row);
      UsageSplits(files);
      files := files - {c.path};
      UsageSplits(files);
      BlocksRounds(c.size);
      cachedBytes := cachedBytes - Blocks(c.size);
      cached := cached - {row};
    }

    /**
     prepareStaging: it succeeds exactly when every unplanned copy can be
     removed, the plan with coverage.json fits, and the node has room; what is
     cached is then planned.
     */
    method PrepareStaging(plan: seq<PlanFile>, coverageBytes: FileSize, fast: set<Row>, belowFloor: bool)
      returns (r: Result<(), FetchError>)
      requires Valid()
      modifies this`files, this`cached, this`cachedBytes
      ensures Valid() && NotParts(files) == NotParts(old(files)) && Leaked(files, cached) == Leaked(old(files), old(cached))
      ensures r.Ok? ==> cached == Restrict(old(cached), Rows(plan))
      ensures r.Ok? <==>
        && (forall row | row in old(cached) && row !in Rows(plan) :: row !in fast) && !belowFloor
        && (limit > 0 ==> Total(plan) + Blocks(coverageBytes) + 0x10_0000 <= limit)
      ensures r == Err(Failed) <==> exists row | row in old(cached) && row !in Rows(plan) :: row in fast
    {
      var ok := DropUnplanned(Rows(plan), fast);
      if !ok {
        return Err(Failed);
      }
      var staged, i := 0, 0;
      while i < |plan|
        invariant 0 <= i <= |plan| && staged + Total(plan[i..]) == Total(plan)
      {
        staged := staged + Blocks(plan[i].size);
        i := i + 1;
      }
      var need := staged + Blocks(coverageBytes) + RESERVE;
      if limit > 0 && need > limit {
        return Err(Refused);
      }
      return if belowFloor then Err(Refused) else Ok(());
    }

    /** stageOnce: one download of an object of `size` bytes beside its staged path; a failed one may stay there. */
    method StageOnce(f: PlanFile, size: FileSize, a: Download) returns (r: Result<(), FetchError>)
      requires Valid()
      modifies this`files, this`peak
      ensures Valid() && Parts(files) == Parts(old(files))
      ensures r.Ok? <==> DownloadComplete(a, size)
      ensures r == Err(Transient) <==> DownloadFailsTransiently(a)
      ensures r.Ok? ==> files == (old(files) - {StagedPart(f.row)})[Staged(f.row) := size]
      ensures r.Err? ==> files - {StagedPart(f.row)} == old(files) - {StagedPart(f.row)}
      ensures old(peak) <= peak <= Larger(old(peak), Usage(old(files) - {StagedPart(f.row)}) + Blocks(size))
    {
      if !a.opens {
        return Err(if a.transient then Transient else Failed);
      }
      ghost var before := files;
      var read := CopyAll(f, size, a.brings, a.pieces);
      Rewritten(before, before, StagedPart(f.row), read);
      if a.streamFails || a.writeFails || read < size || !a.digestMatches {
        if a.removes {
          Remove(StagedPart(f.row));
        }
        return Err(if a.streamFails && a.transient then Transient else Failed);
      }
      Rename(StagedPart(f.row), Staged(f.row));
      return Ok(());
    }

    /** The copy of the download into its temporary file, in any pieces and perhaps not to the end. */
    method CopyAll(f: PlanFile, size: FileSize, brings: nat, pieces: seq<nat>) returns (read: FileSize)
      requires Valid()
      modifies this`files, this`peak
      ensures Valid() && Parts(files) == Parts(old(files)) && read == if brings < size then brings else size
      ensures files == old(files)[StagedPart(f.row) := read]
      ensures old(peak) <= peak <= Larger(old(peak), Usage(old(files) - {StagedPart(f.row)}) + Blocks(size))
    {
      ghost var before, start, parts := files, peak, Parts(files);
      ghost var most := Usage(files - {StagedPart(f.row)}) + Blocks(size);
      var end: FileSize := if brings < size then brings else size;
      read := 0;
      PutTemporary(f, read, size, before, most);
      var i := 0;
      while i < |pieces|
        invariant 0 <= i <= |pieces| && Valid() && Parts(files) == parts && read <= end
        invariant files == before[StagedPart(f.row) := read] && start <= peak <= Larger(start, most)
      {
        read := CopyPiece(f, read, end, size, pieces[i], before, most);
        i := i + 1;
      }
      read := CopyPiece(f, read, end, size, end - read, before, most);
    }

    /** One read of the download, as much of it as the object still has. */
    method CopyPiece(f: PlanFile, read: FileSize, end: FileSize, ghost size: FileSize, bytes: nat, ghost before: Files, ghost most: int) returns (more: FileSize)
      requires Valid() && read <= end <= size && files == before[StagedPart(f.row) := read]
      requires most == Usage(before - {StagedPart(f.row)}) + Blocks(size)
      modifies this`files, this`peak
      ensures Valid() && Parts(files) == Parts(old(files)) && files == before[StagedPart(f.row) := more]
      ensures more == if read + bytes < end then read + bytes else end
      ensures old(peak) <= peak <= Larger(old(peak), most)
    {
      more := if read + bytes < end then read + bytes else end;
      Rewritten(before, before, StagedPart(f.row), read);
      PutTemporary(f, more, size, before, most);
    }

    method PutTemporary(f: PlanFile, read: FileSize, ghost size: FileSize, ghost before: Files, ghost most: int)
      requires Valid() && read <= size && files - {StagedPart(f.row)} == before - {StagedPart(f.row)}
      requires most == Usage(before - {StagedPart(f.row)}) + Blocks(size)
      modifies this`files, this`peak
      ensures Valid() && Parts(files) == Parts(old(files)) && files == before[StagedPart(f.row) := read]
      ensures old(peak) <= peak <= Larger(old(peak), most)
    {
      ghost var tmp := StagedPart(f.row);
      UsageWith(before, tmp, read);
      BlocksMonotone(read, size);
      Rewritten(files, before, tmp, read);
      PartsKept(files, tmp, read);
      SameParts(files, files[tmp := read], cached);
      Put(StagedPart(f.row), read);
    }

    method Remove(p: Path)
      requires Valid() && !p.Part?
      modifies this`files
      ensures Valid() && Parts(files) == Parts(old(files)) && files == old(files) - {p}
    {
      UsageBounds(files, p, 0);
      PartsKept(files, p, 0);
      SameParts(files, files - {p}, cached);
      files := files - {p};
    }

    /** os.Rename of a file that is not in the cache. */
    method Rename(p: Path, q: Path)
      requires Valid() && p in files && !p.Part? && !q.Part?
      modifies this`files
      ensures Valid() && Parts(files) == Parts(old(files)) && files == (old(files) - {p})[q := old(files)[p]]
    {
      var n := files[p];
      UsageBounds(files - {p}, q, n);
      UsageWithout(files, p);
      PartsKept(files, p, n);
      PartsKept(files - {p}, q, n);
      SameParts(files, (files - {p})[q := n], cached);
      files := (files - {p})[q := n];
    }

    /** A cached row becomes its staged file. */
    method RenameCached(row: Row)
      requires Valid() && row in cached
      modifies this`files, this`cached, this`cachedBytes
      ensures Valid() && cached == old(cached) - {row} && Leaked(files, cached) == Leaked(old(files), old(cached))
      ensures NotParts(files) == NotParts(old(files))[Staged(row) := old(cached)[row].size]
    {
      var c := cached[row];
      ghost var before := files;
      DropRow(files, cached, row);
      UsageBounds(files - {c.path}, Staged(row), c.size);
      UsageWithout(files, c.path);
      files := (files - {c.path})[Staged(row) := c.size];
      cachedBytes := cachedBytes - Blocks(c.size);
      cached := cached - {row};
      StagedBesideParts(before - {c.path}, cached, row, c.size);
      assert NotParts(files) == NotParts(before)[Staged(row) := c.size];
    }

    /** The download of a plan file that is not cached: transient errors are retried until the sixth attempt or the cancellation. */
    method StageDownload(f: PlanFile, size: FileSize, downloads: seq<Download>) returns (r: Result<(), FetchError>, attempts: nat)
      requires Valid() && downloads != []
      modifies this`files, this`peak
      ensures Valid() && Parts(files) == Parts(old(files)) && 1 <= attempts <= 6 && attempts <= |downloads|
      ensures OnlyTransient(downloads, attempts - 1)
      ensures r.Ok? <==> DownloadComplete(downloads[attempts - 1], size)
      ensures r == Err(Transient) <==> DownloadFailsTransiently(downloads[attempts - 1])
      ensures r == Err(Transient) ==> attempts == 6 || attempts == |downloads|
      ensures r.Ok? ==> files == (old(files) - {StagedPart(f.row)})[Staged(f.row) := size]
      ensures old(peak) <= peak <= Larger(old(peak), Usage(old(files) - {StagedPart(f.row)}) + Blocks(size))
    {
      ghost var rest, parts, start := files - {StagedPart(f.row)}, Parts(files), peak;
      ghost var most := Larger(start, Usage(rest) + Blocks(size));
      attempts := 1;
      ghost var a := downloads[0];
      r := StageAgain(f, size, downloads[0], rest, most);
      while r == Err(Transient) && attempts <= RETRIES && attempts < |downloads|
        invariant Valid() && Parts(files) == parts && 1 <= attempts <= RETRIES + 1 && attempts <= |downloads|
        invariant if r.Ok? then files == rest[Staged(f.row) := size] else files - {StagedPart(f.row)} == rest
        invariant OnlyTransient(downloads, attempts - 1)
        invariant a == downloads[attempts - 1] && (r.Ok? <==> DownloadComplete(a, size))
        invariant r == Err(Transient) <==> DownloadFailsTransiently(a)
        invariant start <= peak <= most
        decreases RETRIES - attempts
      {
        a := downloads[attempts];
        r := StageAgain(f, size, downloads[attempts], rest, most);
        attempts := attempts + 1;
      }
    }

    method StageAgain(f: PlanFile, size: FileSize, a: Download, ghost rest: Files, ghost most: int) returns (r: Result<(), FetchError>)
      requires Valid() && files - {StagedPart(f.row)} == rest && peak <= most && Usage(rest) + Blocks(size) <= most
      modifies this`files, this`peak
      ensures Valid() && Parts(files) == Parts(old(files)) && old(peak) <= peak <= most
      ensures r.Ok? <==> DownloadComplete(a, size)
      ensures r == Err(Transient) <==> DownloadFailsTransiently(a)
      ensures if r.Ok? then files == rest[Staged(f.row) := size] else files - {StagedPart(f.row)} == rest
    {
      r := StageOnce(f, size, a);
    }

    /** stage: from the cache, or downloaded again, six times at most. */
    method Stage(f: PlanFile, size: FileSize, env: StageEnv) returns (r: Result<(), FetchError>)
      requires Valid() && env.downloads != []
      modifies this`files, this`cached, this`cachedBytes, this`peak
      ensures Valid() && Leaked(files, cached) == Leaked(old(files), old(cached))
      ensures r.Ok? ==> StagedAs(old(files), old(cached), f.row, size, files, cached)
      ensures f.row in old(cached) ==> (r.Ok? <==> env.renames && env.chmods)
      ensures f.row !in old(cached) ==> (r.Ok? <==> !env.belowFloor && Downloads(env.downloads, size))
      ensures old(peak) <= peak
      ensures peak <= if f.row in old(cached) then old(peak) else Larger(old(peak), Usage(old(files) - {StagedPart(f.row)}) + Blocks(size))
    {
      if f.row in cached {
        if !env.renames {
          return Err(Failed);
        }
        RenameCached(f.row);
        return if env.chmods then Ok(()) else Err(Failed);
      }
      if env.belowFloor {
        return Err(Refused);
      }
      ghost var before := files;
      var attempts;
      r, attempts := StageDownload(f, size, env.downloads);
      DownloadsIff(env.downloads, size, attempts);
      SameParts(before, files, cached);
    }
  }

  /** Some attempt of the first six downloads the file, and until then every error is transient. */
  ghost predicate Downloads(downloads: seq<Download>, size: FileSize) {
    exists n | 0 <= n < 6 && n < |downloads| :: DownloadComplete(downloads[n], size) && OnlyTransient(downloads, n)
  }

  ghost predicate OnlyTransient(downloads: seq<Download>, n: int) {
    n <= |downloads| && forall i | 0 <= i < n :: DownloadFailsTransiently(downloads[i])
  }

  /** The attempt at which the retries end decides. */
  lemma {:induction false} DownloadsIff(downloads: seq<Download>, size: FileSize, attempts: nat)
    requires 1 <= attempts <= 6 && attempts <= |downloads| && OnlyTransient(downloads, attempts - 1)
    requires DownloadFailsTransiently(downloads[attempts - 1]) ==> attempts == 6 || attempts == |downloads|
    ensures Downloads(downloads, size) <==> DownloadComplete(downloads[attempts - 1], size)
  {
    var last := attempts - 1;
    forall n | 0 <= n < 6 && n < |downloads| && DownloadComplete(downloads[n], size) && OnlyTransient(downloads, n) ensures n == last {
      TransientAt(downloads, last, n);
      TransientAt(downloads, n, last);
    }
  }

  lemma {:induction false} TransientAt(downloads: seq<Download>, n: nat, i: nat)
    requires OnlyTransient(downloads, n) && i < |downloads|
    ensures i < n ==> DownloadFailsTransiently(downloads[i])
  {
  }

  function Larger(a: int, b: int): (m: int)
  {
    if a > b then a else b
  }

  /** A plan file is staged: out of the cache, or beside it from a download of `size` bytes. */
  ghost predicate StagedAs(files: Files, cached: Cached, row: Row, size: FileSize, files': Files, cached': Cached) {
    if row in cached
    then cached' == cached - {row} && NotParts(files') == NotParts(files)[Staged(row) := cached[row].size]
    else cached' == cached && files' == (files - {StagedPart(row)})[Staged(row) := size]
  }

  lemma {:induction false} StagedBesideParts(files: Files, cached: Cached, row: Row, n: FileSize)
    ensures Parts(files[Staged(row) := n]) == Parts(files) && NotParts(files[Staged(row) := n]) == NotParts(files)[Staged(row) := n]
    ensures Leaked(files[Staged(row) := n], cached) == Leaked(files, cached)
    ensures Backed(files, cached) ==> Backed(files[Staged(row) := n], cached)
  {
    if Backed(files, cached) {
      assert forall r | r in cached :: Holds(files, cached[r]) && Holds(files[Staged(row) := n], cached[r]);
    }
  }

  function Restrict(cached: Cached, rows: set<Row>): (r: Cached)
  {
    map row | row in cached && row in rows :: cached[row]
  }

  lemma {:induction false} RestrictWithout(cached: Cached, rows: set<Row>, keep: set<Row>, row: Row)
    requires row in rows && rows <= cached.Keys
    ensures row in Restrict(cached, rows + keep)
    ensures Restrict(cached, rows - {row} + keep) ==
            if row in keep then Restrict(cached, rows + keep) else Restrict(cached, rows + keep) - {row}
  {
  }

  function Rows(plan: seq<PlanFile>): (rows: set<Row>)
  {
    set i | 0 <= i < |plan| :: plan[i].row
  }

  // ------------------------------------------------------------ failing runs

  /** A state a run reaches. */
  ghost predicate Reached(fetcher: RowFetcher, files: Files, cached: Cached, bytes: int, parts: nat)
    reads fetcher
  {
    fetcher.files == files && fetcher.cached == cached && fetcher.cachedBytes == bytes && fetcher.parts == parts
  }

  lemma {:induction false} OneBlock()
    ensures Blocks(BLOCK) == BLOCK && Blocks(5) == BLOCK
  {
  }

  method FetchRefused() returns (fetcher: RowFetcher)
    ensures fresh(fetcher) && fetcher.Fetching() && fetcher.limit == RESERVE + BLOCK
    ensures Reached(fetcher, map[Part(1) := BLOCK], map[], 0, 1)
  {
    fetcher := new RowFetcher(RESERVE + BLOCK);
    OneBlock();
    var a := Answers(true, false, MAX_INT64, true, BLOCK, [Piece(BLOCK, false, 0)], false, true, true, false);
    var r := fetcher.FetchOnce("r", BLOCK, BLOCK, true, a);
    assert fetcher.files == map[Part(1) := BLOCK];
  }

  /** Two fetches of a block each on a volume with room for one: the first is refused and its copy stuck, the second is cached beside it. */
  method OverfilledByStuckPart() returns (fetcher: RowFetcher)
    ensures fresh(fetcher) && fetcher.Fetching() && fetcher.limit == RESERVE + BLOCK
    ensures fetcher.cachedBytes == BLOCK && Usage(fetcher.files) == 2 * BLOCK > fetcher.CacheRoom()
  {
    fetcher := FetchRefused();
    OneBlock();
    var a := Answers(true, false, MAX_INT64, true, BLOCK, [Piece(BLOCK, false, 0)], false, false, true, false);
    var r := fetcher.FetchOnce("s", BLOCK, BLOCK, true, a);
    StuckPartOverfills(fetcher.limit);
    assert fetcher.files == map[Part(1) := BLOCK, Part(2) := BLOCK];
  }

  /** A fetch of a row of five bytes that goes well. */
  method FetchFive(fetcher: RowFetcher)
    requires fetcher.Fetching() && fetcher.limit == RESERVE + 2 * BLOCK && 0 <= fetcher.cachedBytes <= BLOCK
    modifies fetcher
    ensures fetcher.Fetching()
    ensures Reached(fetcher, old(fetcher.files)[Part(old(fetcher.parts) + 1) := 5],
                    old(fetcher.cached)["r" := CachedRow(Part(old(fetcher.parts) + 1), 5)],
                    old(fetcher.cachedBytes) + BLOCK, old(fetcher.parts) + 1)
  {
    OneBlock();
    var a := Answers(true, false, MAX_INT64, true, 5, [Piece(5, false, 0)], false, false, true, false);
    var r := fetcher.FetchOnce("r", 5, 5, true, a);
  }

  /** The same row fetched twice: its first part stays, named by no row, and is counted as if it were cached. */
  method RowFetchedTwice() returns (fetcher: RowFetcher)
    ensures fresh(fetcher) && fetcher.Fetching()
    ensures Leaked(fetcher.files, fetcher.cached) == map[Part(1) := 5] && fetcher.cachedBytes > CachedTotal(fetcher.cached)
  {
    fetcher := FetchOneFive();
    FetchFive(fetcher);
    OneBlock();
    TwiceCached(fetcher.files, fetcher.cached);
  }

  method FetchOneFive() returns (fetcher: RowFetcher)
    ensures fresh(fetcher) && fetcher.Fetching() && fetcher.limit == RESERVE + 2 * BLOCK
    ensures var files: Files, cached: Cached := map[], map[];
            Reached(fetcher, files[Part(1) := 5], cached["r" := CachedRow(Part(1), 5)], BLOCK, 1)
  {
    fetcher := new RowFetcher(RESERVE + 2 * BLOCK);
    FetchFive(fetcher);
  }

  lemma {:induction false} TwiceCached(files: Files, cached: Cached)
    requires var none: Files := map[]; files == none[Part(1) := 5][Part(2) := 5]
    requires var none: Cached := map[]; cached == none["r" := CachedRow(Part(1), 5)]["r" := CachedRow(Part(2), 5)]
    ensures Leaked(files, cached) == map[Part(1) := 5] && 2 * BLOCK > CachedTotal(cached)
  {
    RowCachedTwice();
    OneBlock();
    var once: Cached, first: Files := map["r" := CachedRow(Part(1), 5)], map[Part(1) := 5];
    assert cached == once["r" := CachedRow(Part(2), 5)] && files == first[Part(2) := 5];
  }
}
