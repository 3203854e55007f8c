/**
 A whole PITR download (cmd/bloodraven/pitr_download.go:945-1066): any fetches
 in any order, then prepareStaging, then one stage call per plan file. The
 volume stays under its sizeLimit throughout.
 */
module StagingRun {
  import opened Wrappers
  import opened Staging
  import opened StagingFetch

  /** One FetchForPlan call: the size the manifest claims and the size the object has. */
  datatype Fetch = Fetch(row: Row, claim: Claim, size: FileSize, mayStage: bool)

  ghost predicate Distinct(fetches: seq<Fetch>) {
    forall i, j | 0 <= i < j < |fetches| :: fetches[i].row != fetches[j].row
  }

  /** The plan gives each row the size its manifest row claims. */
  ghost predicate SizesAgree(fetches: seq<Fetch>, plan: seq<PlanFile>) {
    forall i, j | 0 <= i < |fetches| && 0 <= j < |plan| && fetches[i].row == plan[j].row :: fetches[i].claim == plan[j].size
  }

  /** No download of the staging brings more bytes than planned. */
  ghost predicate DownloadsFit(plan: seq<PlanFile>, sizes: seq<FileSize>) {
    |sizes| == |plan| && forall i | 0 <= i < |plan| :: sizes[i] <= plan[i].size
  }

  /** Each cached row was fetched, with the size it was claimed to have. */
  ghost predicate FromFetches(cached: Cached, fetches: seq<Fetch>) {
    forall r | r in cached :: Claimed(r, cached[r].size, fetches)
  }

  ghost predicate Claimed(row: Row, size: FileSize, fetches: seq<Fetch>) {
    exists i | 0 <= i < |fetches| :: fetches[i].row == row && fetches[i].claim == size
  }

  // ------------------------------------------------------------ one plan file

  ghost predicate Sized(cached: Cached, plan: seq<PlanFile>) {
    forall i | 0 <= i < |plan| :: plan[i].row in cached ==> cached[plan[i].row].size == plan[i].size
  }

  /** Staging has reached plan[i]: what is staged is within the plan so far, what is cached is of the rest. */
  ghost predicate Ready(files: Files, cached: Cached, plan: seq<PlanFile>, i: nat) {
    && i <= |plan|
    && Backed(files, cached)
    && cached.Keys <= Rows(plan[i..])
    && Sized(cached, plan[i..])
    && Usage(NotParts(files)) + Total(plan[i..]) <= Total(plan)
  }

  lemma {:induction false} SizedIsPlanned(cached: Cached, plan: seq<PlanFile>)
    requires cached.Keys <= Rows(plan) && Sized(cached, plan)
    ensures Planned(cached, plan)
  {
    forall r | r in cached ensures exists i | 0 <= i < |plan| :: plan[i].row == r && plan[i].size == cached[r].size {
      assert r in Rows(plan);
    }
  }

  /** A row that is not cached is planned by the rest of the plan alone. */
  lemma {:induction false} RestCovers(cached: Cached, plan: seq<PlanFile>)
    requires plan != [] && cached.Keys <= Rows(plan) && Sized(cached, plan) && plan[0].row !in cached
    ensures cached.Keys <= Rows(plan[1..]) && Sized(cached, plan[1..])
  {
    forall r | r in cached ensures r in Rows(plan[1..]) {
      var i :| 0 <= i < |plan| && plan[i].row == r;
      assert plan[1..][i - 1] == plan[i];
    }
  }

  /** At every point of the staging, the volume holds no more than the plan and what has leaked; a download still to come fits beside it. */
  lemma {:induction false} ReadyBound(files: Files, cached: Cached, plan: seq<PlanFile>, i: nat)
    requires Ready(files, cached, plan, i)
    ensures Usage(files) <= Usage(Leaked(files, cached)) + Total(plan)
    ensures i < |plan| && plan[i].row !in cached ==>
            Usage(files) + Blocks(plan[i].size) <= Usage(Leaked(files, cached)) + Total(plan)
  {
    UsageSplits(files);
    PartsAccounted(files, cached);
    var rest := plan[i..];
    SizedIsPlanned(cached, rest);
    CachedWithinPlan(cached, rest);
    if i < |plan| && plan[i].row !in cached {
      RestCovers(cached, rest);
      SizedIsPlanned(cached, rest[1..]);
      CachedWithinPlan(cached, rest[1..]);
    }
  }

  lemma {:induction false} ReadyNext(files: Files, cached: Cached, plan: seq<PlanFile>, i: nat, size: FileSize, files': Files, cached': Cached)
    requires Ready(files, cached, plan, i) && i < |plan| && Backed(files', cached')
    requires StagedAs(files, cached, plan[i].row, size, files', cached') && size <= plan[i].size
    ensures Ready(files', cached', plan, i + 1)
  {
    var f, rest := plan[i], plan[i..];
    assert rest[1..] == plan[i + 1..] && rest[0] == f;
    StagedUses(files, cached, f, size, files', cached');
    SmallerCovers(cached, cached', rest);
    RestCovers(cached', rest);
  }

  /** A staged file adds at most its planned blocks to what is not in the cache. */
  lemma {:induction false} StagedUses(files: Files, cached: Cached, f: PlanFile, size: FileSize, files': Files, cached': Cached)
    requires StagedAs(files, cached, f.row, size, files', cached') && size <= f.size
    requires f.row in cached ==> cached[f.row].size == f.size
    ensures Usage(NotParts(files')) <= Usage(NotParts(files)) + Blocks(f.size)
  {
    if f.row in cached {
      UsageBounds(NotParts(files), Staged(f.row), f.size);
    } else {
      BlocksMonotone(size, f.size);
      UsageBounds(NotParts(files), StagedPart(f.row), size);
      UsageBounds(NotParts(files) - {StagedPart(f.row)}, Staged(f.row), size);
      assert NotParts(files') == (NotParts(files) - {StagedPart(f.row)})[Staged(f.row) := size];
    }
  }

  lemma {:induction false} SmallerCovers(cached: Cached, cached': Cached, plan: seq<PlanFile>)
    requires cached.Keys <= Rows(plan) && Sized(cached, plan) && cached'.Keys <= cached.Keys
    requires forall r | r in cached' :: cached'[r] == cached[r]
    ensures cached'.Keys <= Rows(plan) && Sized(cached', plan)
  {
  }

  // ------------------------------------------------------------- the whole run

  /** All that is cached was fetched, with the size claimed for it. */
  lemma {:induction false} FetchClaims(cached: Cached, stuck: Files, replaced: Files, fetches: seq<Fetch>, i: nat, cached': Cached, stuck': Files, replaced': Files)
    requires i < |fetches| && FromFetches(cached, fetches[..i])
    requires Fetched(cached, stuck, replaced, fetches[i].row, fetches[i].claim, cached', stuck', replaced')
    ensures FromFetches(cached', fetches[..i + 1])
  {
    var more := fetches[..i + 1];
    assert more[i] == fetches[i];
    forall r | r in cached ensures Claimed(r, cached[r].size, more) {
      var k :| 0 <= k < i && fetches[..i][k].row == r && fetches[..i][k].claim == cached[r].size;
      assert more[k] == fetches[k];
    }
    if cached' != cached {
      assert Claimed(fetches[i].row, cached'[fetches[i].row].size, more);
    }
  }

  /** No copy is replaced while no row is fetched twice. */
  lemma {:induction false} FetchReplacesNone(cached: Cached, stuck: Files, replaced: Files, fetches: seq<Fetch>, i: nat, cached': Cached, stuck': Files, replaced': Files)
    requires i < |fetches| && Distinct(fetches) && FromFetches(cached, fetches[..i])
    requires Fetched(cached, stuck, replaced, fetches[i].row, fetches[i].claim, cached', stuck', replaced')
    ensures replaced' == replaced
  {
    forall r | r in cached ensures r != fetches[i].row {
      var k :| 0 <= k < i && fetches[..i][k].row == r && fetches[..i][k].claim == cached[r].size;
      assert fetches[..i][k] == fetches[k];
    }
  }

  method FetchNext(fetcher: RowFetcher, fetches: seq<Fetch>, i: nat)
    requires i < |fetches| && fetcher.Fetching() && FromFetches(fetcher.cached, fetches[..i])
    modifies fetcher
    ensures fetcher.Fetching() && FromFetches(fetcher.cached, fetches[..i + 1])
    ensures Distinct(fetches) ==> fetcher.replaced == old(fetcher.replaced)
  {
    ghost var cached, stuck, replaced := fetcher.cached, fetcher.stuck, fetcher.replaced;
    var f := fetches[i];
    var first: Answers := *;
    var others: seq<Answers> := *;
    var r, attempts := fetcher.FetchForPlan(f.row, f.claim, f.size, f.mayStage, [first] + others);
    FetchClaims(cached, stuck, replaced, fetches, i, fetcher.cached, fetcher.stuck, fetcher.replaced);
    if Distinct(fetches) {
      FetchReplacesNone(cached, stuck, replaced, fetches, i, fetcher.cached, fetcher.stuck, fetcher.replaced);
    }
  }

  /** The planner fetches rows, any of them any number of times, until it has its plan or gives up. */
  method FetchRows(fetcher: RowFetcher, fetches: seq<Fetch>)
    requires fetcher.Fetching() && fetcher.cached == map[] && fetcher.replaced == map[]
    modifies fetcher
    ensures fetcher.Fetching() && FromFetches(fetcher.cached, fetches)
    ensures Distinct(fetches) ==> fetcher.replaced == map[]
  {
    var i := 0;
    while i < |fetches|
      invariant 0 <= i <= |fetches| && fetcher.Fetching() && FromFetches(fetcher.cached, fetches[..i])
      invariant Distinct(fetches) ==> fetcher.replaced == map[]
    {
      FetchNext(fetcher, fetches, i);
      i := i + 1;
    }
    assert fetches[..i] == fetches;
  }

  /** Staging goes on within `top`, which has room for the plan and for what has leaked. */
  ghost predicate Going(files: Files, cached: Cached, peak: int, plan: seq<PlanFile>, i: nat, top: int) {
    Ready(files, cached, plan, i) && peak <= top && Usage(Leaked(files, cached)) + Total(plan) <= top
  }

  /** Staging a plan file fails for want of none of these: the node's room, a rename, or a first download that is complete. */
  predicate Smooth(env: StageEnv, size: FileSize) {
    env.downloads != [] && env.renames && env.chmods && !env.belowFloor && DownloadComplete(env.downloads[0], size)
  }

  ghost predicate AllSmooth(envs: seq<StageEnv>, sizes: seq<FileSize>)
    requires |envs| == |sizes|
  {
    forall i | 0 <= i < |sizes| :: Smooth(envs[i], sizes[i])
  }

  /** Each plan file that is not cached is tried at least once. */
  ghost predicate AllTried(envs: seq<StageEnv>) {
    forall i | 0 <= i < |envs| :: envs[i].downloads != []
  }

  /** The plan files before number i are on the volume under their own names. */
  ghost predicate StagedUpTo(files: Files, plan: seq<PlanFile>, i: nat) {
    i <= |plan| && forall j | 0 <= j < i :: Staged(plan[j].row) in files
  }

  lemma {:induction false} StagedStays(files: Files, cached: Cached, row: Row, size: FileSize, files': Files, cached': Cached, other: Row)
    requires StagedAs(files, cached, row, size, files', cached')
    ensures Staged(row) in files' && (Staged(other) in files ==> Staged(other) in files')
  {
    if row in cached {
      assert Staged(row) in NotParts(files');
      assert Staged(other) in files ==> Staged(other) in NotParts(files');
    }
  }

  lemma {:induction false} OneMoreStaged(files: Files, cached: Cached, plan: seq<PlanFile>, i: nat, size: FileSize, files': Files, cached': Cached)
    requires i < |plan| && StagedUpTo(files, plan, i) && StagedAs(files, cached, plan[i].row, size, files', cached')
    ensures StagedUpTo(files', plan, i + 1)
  {
    forall j | 0 <= j < i + 1 ensures Staged(plan[j].row) in files' {
      StagedStays(files, cached, plan[i].row, size, files', cached', plan[j].row);
    }
  }

  /** One stage call within the bound: the volume stays under `top`, and a file that is staged leaves room for the rest. */
  lemma {:induction false} StageKeeps(files: Files, cached: Cached, peak: int, plan: seq<PlanFile>, i: nat, size: FileSize, top: int, peak': int)
    requires Going(files, cached, peak, plan, i, top) && i < |plan| && size <= plan[i].size
    requires peak' <= if plan[i].row in cached then peak else Larger(peak, Usage(files - {StagedPart(plan[i].row)}) + Blocks(size))
    ensures peak' <= top
  {
    ReadyBound(files, cached, plan, i);
    UsageBounds(files, StagedPart(plan[i].row), 0);
    BlocksMonotone(size, plan[i].size);
  }

  method StageNext(fetcher: RowFetcher, plan: seq<PlanFile>, i: nat, size: FileSize, env: StageEnv, ghost top: int)
    returns (r: Result<(), FetchError>)
    requires fetcher.Valid() && i < |plan| && env.downloads != []
    modifies fetcher`files, fetcher`cached, fetcher`cachedBytes, fetcher`peak
    ensures fetcher.Valid()
    ensures Going(old(fetcher.files), old(fetcher.cached), old(fetcher.peak), plan, i, top) && size <= plan[i].size ==>
      fetcher.peak <= top && (r.Ok? ==> Going(fetcher.files, fetcher.cached, fetcher.peak, plan, i + 1, top))
    ensures r.Ok? && StagedUpTo(old(fetcher.files), plan, i) ==> StagedUpTo(fetcher.files, plan, i + 1)
    ensures Smooth(env, size) ==> r.Ok?
  {
    ghost var files, cached, peak := fetcher.files, fetcher.cached, fetcher.peak;
    r := fetcher.Stage(plan[i], size, env);
    if Smooth(env, size) {
      SmoothDownloads(env, size);
    }
    if r.Ok? && StagedUpTo(files, plan, i) {
      OneMoreStaged(files, cached, plan, i, size, fetcher.files, fetcher.cached);
    }
    if Going(files, cached, peak, plan, i, top) && size <= plan[i].size {
      StageKeeps(files, cached, peak, plan, i, size, top, fetcher.peak);
      if r.Ok? {
        ReadyNext(files, cached, plan, i, size, fetcher.files, fetcher.cached);
      }
    }
  }

  lemma {:induction false} SmoothDownloads(env: StageEnv, size: FileSize)
    requires Smooth(env, size)
    ensures Downloads(env.downloads, size)
  {
    assert OnlyTransient(env.downloads, 0);
  }

  /** The stage calls, in plan order: the volume never holds more than the plan and what has leaked. */
  method StagePlan(fetcher: RowFetcher, plan: seq<PlanFile>, sizes: seq<FileSize>, envs: seq<StageEnv>, ghost top: int)
    returns (r: Result<(), FetchError>)
    requires fetcher.Valid() && |sizes| == |plan| == |envs| && AllTried(envs)
    modifies fetcher`files, fetcher`cached, fetcher`cachedBytes, fetcher`peak
    ensures fetcher.Valid()
    ensures Going(old(fetcher.files), old(fetcher.cached), old(fetcher.peak), plan, 0, top) && DownloadsFit(plan, sizes) ==>
      fetcher.peak <= top && (r.Ok? ==> Ready(fetcher.files, fetcher.cached, plan, |plan|))
    ensures r.Ok? ==> StagedUpTo(fetcher.files, plan, |plan|)
    ensures AllSmooth(envs, sizes) ==> r.Ok?
  {
    ghost var fits := Going(fetcher.files, fetcher.cached, fetcher.peak, plan, 0, top) && DownloadsFit(plan, sizes);
    r := StageInOrder(fetcher, plan, sizes, envs, top, fits);
  }

  method StageInOrder(fetcher: RowFetcher, plan: seq<PlanFile>, sizes: seq<FileSize>, envs: seq<StageEnv>, ghost top: int, ghost fits: bool)
    returns (r: Result<(), FetchError>)
    requires fetcher.Valid() && |sizes| == |plan| == |envs| && AllTried(envs)
    requires fits ==> Going(fetcher.files, fetcher.cached, fetcher.peak, plan, 0, top) && DownloadsFit(plan, sizes)
    modifies fetcher`files, fetcher`cached, fetcher`cachedBytes, fetcher`peak
    ensures fetcher.Valid() && (fits ==> fetcher.peak <= top)
    ensures r.Ok? && fits ==> Going(fetcher.files, fetcher.cached, fetcher.peak, plan, |plan|, top)
    ensures r.Ok? ==> StagedUpTo(fetcher.files, plan, |plan|)
    ensures AllSmooth(envs, sizes) ==> r.Ok?
  {
    ghost var smooth := AllSmooth(envs, sizes);
    var i := 0;
    r := Ok(());
    while i < |plan| && r.Ok?
      invariant 0 <= i <= |plan| && fetcher.Valid() && (smooth ==> r.Ok?)
      invariant r.Ok? ==> StagedUpTo(fetcher.files, plan, i)
      invariant fits ==> fetcher.peak <= top
      invariant fits && r.Ok? ==> Going(fetcher.files, fetcher.cached, fetcher.peak, plan, i, top)
    {
      var env := envs[i];
      assert smooth ==> Smooth(env, sizes[i]);
      r := StageInTurn(fetcher, plan, i, sizes[i], env, top, fits);
      i := i + 1;
    }
  }

  method StageInTurn(fetcher: RowFetcher, plan: seq<PlanFile>, i: nat, size: FileSize, env: StageEnv, ghost top: int, ghost fits: bool)
    returns (r: Result<(), FetchError>)
    requires fetcher.Valid() && i < |plan| && env.downloads != [] && StagedUpTo(fetcher.files, plan, i)
    requires fits ==> Going(fetcher.files, fetcher.cached, fetcher.peak, plan, i, top) && size <= plan[i].size
    modifies fetcher`files, fetcher`cached, fetcher`cachedBytes, fetcher`peak
    ensures fetcher.Valid() && (fits ==> fetcher.peak <= top)
    ensures r.Ok? ==> StagedUpTo(fetcher.files, plan, i + 1)
    ensures r.Ok? && fits ==> Going(fetcher.files, fetcher.cached, fetcher.peak, plan, i + 1, top)
    ensures Smooth(env, size) ==> r.Ok?
  {
    r := StageNext(fetcher, plan, i, size, env, top);
  }

  /**
   planAndStage: with a sizeLimit, the cache never passes the limit less the
   reserve by more than the copies that could not be removed (`cachePeak`),
   whatever sizes the manifests claim and however often a row is fetched; and
   once prepareStaging succeeds the cached and staged files with coverage.json
   and the reserve stay within the limit, those copies and the copies that a
   later one of their row replaced, provided the staging downloads are what was
   planned. No copy is replaced while no row is cached twice, and so none while
   no row is fetched twice. On success every plan file is in its place; and
   success follows where the removals succeed, the node has room, the plan fits
   and each file is renamed or downloaded at the first attempt.
   */
  method PlanAndStage(fetcher: RowFetcher, fetches: seq<Fetch>, plan: seq<PlanFile>, sizes: seq<FileSize>, coverageBytes: FileSize,
      fast: set<Row>, belowFloor: bool, envs: seq<StageEnv>)
    returns (r: Result<(), FetchError>, prepared: bool, ghost cachePeak: int)
    requires fetcher.Fetching() && fetcher.cached == map[] && fetcher.replaced == map[] && |sizes| == |plan| == |envs| && AllTried(envs)
    modifies fetcher
    ensures fetcher.Valid() && (r.Ok? ==> prepared && StagedUpTo(fetcher.files, plan, |plan|))
    ensures prepared ==> !belowFloor && (fetcher.limit > 0 ==> Total(plan) + Blocks(coverageBytes) + 0x10_0000 <= fetcher.limit)
    ensures fast == {} && !belowFloor && (fetcher.limit > 0 ==> Total(plan) + Blocks(coverageBytes) + 0x10_0000 <= fetcher.limit) ==>
      prepared && (AllSmooth(envs, sizes) ==> r.Ok?)
    ensures fetcher.stuckBytes == Usage(fetcher.stuck) && (Distinct(fetches) ==> fetcher.replaced == map[])
    ensures fetcher.limit > 0 ==> cachePeak <= fetcher.CacheRoom() + fetcher.stuckBytes
    ensures fetcher.limit > 0 && prepared && SizesAgree(fetches, plan) && DownloadsFit(plan, sizes) ==>
      fetcher.peak + Blocks(coverageBytes) + RESERVE <= fetcher.limit + fetcher.stuckBytes + Usage(fetcher.replaced)
    ensures fetcher.limit > 0 && prepared && SizesAgree(fetches, plan) && DownloadsFit(plan, sizes) && fetcher.replaced == map[] ==>
      fetcher.peak + Blocks(coverageBytes) + RESERVE <= fetcher.limit + fetcher.stuckBytes
  {
    ghost var top;
    r, cachePeak, top := FetchAndPrepare(fetcher, fetches, plan, coverageBytes, fast, belowFloor);
    if r.Err? {
      return r, false, cachePeak;
    }
    prepared := true;
    r := StagePlan(fetcher, plan, sizes, envs, top);
  }

  /** Up to prepareStaging; `peak` starts anew once it has succeeded. */
  method FetchAndPrepare(fetcher: RowFetcher, fetches: seq<Fetch>, plan: seq<PlanFile>, coverageBytes: FileSize,
      fast: set<Row>, belowFloor: bool)
    returns (r: Result<(), FetchError>, ghost cachePeak: int, ghost top: int)
    requires fetcher.Fetching() && fetcher.cached == map[] && fetcher.replaced == map[]
    modifies fetcher
    ensures fetcher.Valid() && fetcher.stuckBytes == Usage(fetcher.stuck) && (Distinct(fetches) ==> fetcher.replaced == map[])
    ensures fetcher.limit > 0 ==> cachePeak <= fetcher.CacheRoom() + fetcher.stuckBytes
    ensures top == fetcher.limit + fetcher.stuckBytes + Usage(fetcher.replaced) - RESERVE - Blocks(coverageBytes)
    ensures r.Ok? && fetcher.limit > 0 && SizesAgree(fetches, plan) ==>
      Going(fetcher.files, fetcher.cached, fetcher.peak, plan, 0, top)
    ensures r.Ok? ==> !belowFloor && (fetcher.limit > 0 ==> Total(plan) + Blocks(coverageBytes) + 0x10_0000 <= fetcher.limit)
    ensures fast == {} && !belowFloor && (fetcher.limit > 0 ==> Total(plan) + Blocks(coverageBytes) + 0x10_0000 <= fetcher.limit) ==> r.Ok?
  {
    FetchRows(fetcher, fetches);
    cachePeak := fetcher.peak;
    top := fetcher.limit + fetcher.stuckBytes + Usage(fetcher.replaced) - RESERVE - Blocks(coverageBytes);
    r := PrepareFor(fetcher, fetches, plan, coverageBytes, fast, belowFloor, top);
  }

  method PrepareFor(fetcher: RowFetcher, fetches: seq<Fetch>, plan: seq<PlanFile>, coverageBytes: FileSize,
      fast: set<Row>, belowFloor: bool, ghost top: int)
    returns (r: Result<(), FetchError>)
    requires fetcher.Fetching() && FromFetches(fetcher.cached, fetches)
    requires top == fetcher.limit + fetcher.stuckBytes + Usage(fetcher.replaced) - RESERVE - Blocks(coverageBytes)
    modifies fetcher`files, fetcher`cached, fetcher`cachedBytes, fetcher`peak
    ensures fetcher.Valid()
    ensures r.Ok? && fetcher.limit > 0 && SizesAgree(fetches, plan) ==>
      Going(fetcher.files, fetcher.cached, fetcher.peak, plan, 0, top)
    ensures r.Ok? ==> !belowFloor && (fetcher.limit > 0 ==> Total(plan) + Blocks(coverageBytes) + 0x10_0000 <= fetcher.limit)
    ensures fast == {} && !belowFloor && (fetcher.limit > 0 ==> Total(plan) + Blocks(coverageBytes) + 0x10_0000 <= fetcher.limit) ==> r.Ok?
  {
    ghost var cached := fetcher.cached;
    LeaksUse(fetcher.files, fetcher.cached, fetcher.stuck, fetcher.replaced);
    r := fetcher.PrepareStaging(plan, coverageBytes, fast, belowFloor);
    if r.Ok? {
      fetcher.peak := Usage(fetcher.files);
      if fetcher.limit > 0 && SizesAgree(fetches, plan) {
        StartsWithin(fetcher.files, cached, fetcher.cached, fetches, plan, top);
      }
    }
  }

  /** What leaked uses what the stuck and the replaced copies use. */
  lemma {:induction false} LeaksUse(files: Files, cached: Cached, stuck: Files, replaced: Files)
    requires LeaksAre(files, cached, stuck, replaced)
    ensures Usage(Leaked(files, cached)) == Usage(stuck) + Usage(replaced)
  {
    UsageUnion(stuck, replaced);
  }

  lemma {:induction false} StartsWithin(files: Files, before: Cached, cached: Cached, fetches: seq<Fetch>, plan: seq<PlanFile>, top: int)
    requires Backed(files, cached) && NotParts(files) == map[]
    requires FromFetches(before, fetches) && SizesAgree(fetches, plan) && cached == Restrict(before, Rows(plan))
    requires Usage(Leaked(files, cached)) + Total(plan) <= top
    ensures Going(files, cached, Usage(files), plan, 0, top)
  {
    PreparedIsReady(files, before, cached, fetches, plan);
  }

  lemma {:induction false} PreparedIsReady(files: Files, before: Cached, cached: Cached, fetches: seq<Fetch>, plan: seq<PlanFile>)
    requires Backed(files, cached) && NotParts(files) == map[]
    requires FromFetches(before, fetches) && SizesAgree(fetches, plan) && cached == Restrict(before, Rows(plan))
    ensures Ready(files, cached, plan, 0) && Usage(files) <= Usage(Leaked(files, cached)) + Total(plan)
  {
    assert plan[0..] == plan;
    forall i | 0 <= i < |plan| && plan[i].row in cached ensures cached[plan[i].row].size == plan[i].size {
      assert Claimed(plan[i].row, before[plan[i].row].size, fetches);
    }
    ReadyBound(files, cached, plan, 0);
  }
}
