/**
 The staging volume of a PITR download (cmd/bloodraven/pitr_download.go:506-885):
 block-rounded sizes in int64, the files on the volume, and how much of it
 they use.
 */
module Staging {
  import opened Wrappers

  /** stagingBlock and stagingReserve. */
  const BLOCK := 4096
  const RESERVE := 0x10_0000

  /** A size the manifest claims: any int64. */
  type Claim = n: int | -MAX_INT64 - 1 <= n <= MAX_INT64

  /** A size a file can have: block rounding it stays an int64. */
  type FileSize = n: int | 0 <= n <= MAX_INT64 - BLOCK + 1

  type Row = string

  // ------------------------------------------------------------------ sizes

  /** int64 addition wraps around. */
  function Wrap(n: int): (r: int)
    ensures -MAX_INT64 - 1 <= r <= MAX_INT64
    ensures -MAX_INT64 - 1 <= n <= MAX_INT64 ==> r == n
  {
    (n + MAX_INT64 + 1) % (2 * MAX_INT64 + 2) - MAX_INT64 - 1
  }

  /** blocks: int64 division truncates towards zero. */
  function Blocks(n: int): (r: int)
  {
    var sum := Wrap(n + BLOCK - 1);
    if sum >= 0 then sum / BLOCK * BLOCK else -(-sum / BLOCK * BLOCK)
  }

  /** Rounding is up to the next whole block for every size a file can have. */
  lemma BlocksRounds(n: FileSize)
    ensures n <= Blocks(n) < n + 4096 && Blocks(n) % 4096 == 0
  {
  }

  lemma BlocksMonotone(n: FileSize, m: FileSize)
    requires n <= m
    ensures Blocks(n) <= Blocks(m)
  {
  }

  /** A claim is rounded down, below zero even, exactly when it is too large for any file. */
  lemma ClaimCoversIff(n: Claim)
    ensures Blocks(n) >= n <==> n <= MAX_INT64 - BLOCK + 1
    ensures n > MAX_INT64 - BLOCK + 1 ==> Blocks(n) < 0
  {
  }

  // ------------------------------------------------------------------ files

  /** Cache parts are numbered; staged files and their temporary copies are named by row. */
  datatype Path = Part(number: nat) | Staged(row: Row) | StagedPart(row: Row) | Coverage

  type Files = map<Path, FileSize>

  /** What the kubelet measures: whole blocks. */
  ghost function Usage(files: Files): (u: int)
    ensures u >= 0
  {
    if files == map[] then 0
    else
      var p :| p in files;
      BlocksRounds(files[p]);
      Blocks(files[p]) + Usage(files - {p})
  }

  lemma {:induction false} UsageWithout(files: Files, p: Path)
    requires p in files
    ensures Usage(files) == Blocks(files[p]) + Usage(files - {p})
    decreases |files|
  {
    var q :| q in files && Usage(files) == Blocks(files[q]) + Usage(files - {q});
    if q != p {
      UsageWithout(files - {q}, p);
      UsageWithout(files - {p}, q);
      assert files - {q} - {p} == files - {p} - {q};
    }
  }

  lemma {:induction false} UsageWith(files: Files, p: Path, n: FileSize)
    ensures Usage(files[p := n]) == Blocks(n) + Usage(files - {p})
  {
    var more := files[p := n];
    UsageWithout(more, p);
    assert more - {p} == files - {p};
  }

  /** Removing a file frees its blocks; replacing one costs at most the new one's. */
  lemma {:induction false} UsageBounds(files: Files, p: Path, n: FileSize)
    ensures Usage(files - {p}) <= Usage(files) && Usage(files[p := n]) <= Usage(files) + Blocks(n)
  {
    UsageWith(files, p, n);
    if p in files {
      BlocksRounds(files[p]);
      UsageWithout(files, p);
    } else {
      assert files - {p} == files;
    }
  }

  lemma {:induction false} UsageUnion(a: Files, b: Files)
    requires a.Keys !! b.Keys
    ensures Usage(a + b) == Usage(a) + Usage(b)
    decreases |b|
  {
    if b == map[] {
      assert a + b == a;
    } else {
      var p :| p in b;
      UnionWithout(a, b, p);
      UsageUnion(a, b - {p});
      UsageWithout(b, p);
      UsageWithout(a + b, p);
    }
  }

  lemma {:induction false} UnionWithout(a: Files, b: Files, p: Path)
    requires a.Keys !! b.Keys && p in b
    ensures p in a + b && (a + b)[p] == b[p] && (a + b) - {p} == a + (b - {p}) && a.Keys !! (b - {p}).Keys
  {
  }

  /** Files use nothing exactly when all of them are empty. */
  lemma {:induction false} UsageZeroIff(files: Files)
    ensures Usage(files) == 0 <==> forall p | p in files :: files[p] == 0
    decreases |files|
  {
    if files != map[] {
      var p :| p in files;
      UsageWithout(files, p);
      BlocksRounds(files[p]);
      UsageZeroIff(files - {p});
      assert forall q | q in files :: q == p || q in files - {p};
    }
  }

  function Parts(files: Files): (r: Files)
  {
    map p | p in files && p.Part? :: files[p]
  }

  function NotParts(files: Files): (r: Files)
  {
    map p | p in files && !p.Part? :: files[p]
  }

  lemma {:induction false} UsageSplits(files: Files)
    ensures Usage(files) == Usage(Parts(files)) + Usage(NotParts(files))
    decreases |files|
  {
    if files != map[] {
      var p :| p in files;
      var rest := files - {p};
      UsageSplits(rest);
      UsageWithout(files, p);
      SplitWithout(files, p);
      UsageWithout(if p.Part? then Parts(files) else NotParts(files), p);
    }
  }

  lemma {:induction false} SplitWithout(files: Files, p: Path)
    requires p in files
    ensures if p.Part? then p in Parts(files) && Parts(files - {p}) == Parts(files) - {p} && NotParts(files - {p}) == NotParts(files)
            else p in NotParts(files) && NotParts(files - {p}) == NotParts(files) - {p} && Parts(files - {p}) == Parts(files)
  {
  }

  // ---------------------------------------------------------------- the plan

  datatype PlanFile = PlanFile(row: Row, size: FileSize)

  /** The block-rounded total of a plan. */
  function Total(plan: seq<PlanFile>): (t: int)
    ensures t >= 0
  {
    if plan == [] then 0 else BlocksRounds(plan[0].size); Blocks(plan[0].size) + Total(plan[1..])
  }

  datatype CachedRow = CachedRow(path: Path, size: FileSize)

  type Cached = map<Row, CachedRow>

  /** The block-rounded total of the rows in the cache. */
  ghost function CachedTotal(cached: Cached): (t: int)
    ensures t >= 0
  {
    if cached == map[] then 0
    else
      var r :| r in cached;
      BlocksRounds(cached[r].size);
      Blocks(cached[r].size) + CachedTotal(cached - {r})
  }

  lemma {:induction false} CachedWithout(cached: Cached, r: Row)
    requires r in cached
    ensures CachedTotal(cached) == Blocks(cached[r].size) + CachedTotal(cached - {r})
    decreases |cached|
  {
    var q :| q in cached && CachedTotal(cached) == Blocks(cached[q].size) + CachedTotal(cached - {q});
    if q != r {
      CachedWithout(cached - {q}, r);
      CachedWithout(cached - {r}, q);
      assert cached - {q} - {r} == cached - {r} - {q};
    }
  }

  lemma {:induction false} CachedWith(cached: Cached, r: Row, c: CachedRow)
    ensures CachedTotal(cached[r := c]) == Blocks(c.size) + CachedTotal(cached - {r})
  {
    var more := cached[r := c];
    CachedWithout(more, r);
    assert more - {r} == cached - {r};
  }

  /** Every cached row is a row of the plan, of the size the plan gives it. */
  ghost predicate Planned(cached: Cached, plan: seq<PlanFile>) {
    forall r | r in cached :: exists i | 0 <= i < |plan| :: plan[i].row == r && plan[i].size == cached[r].size
  }

  /** Rows of the plan that are cached take no more than the plan does. */
  lemma {:induction false} CachedWithinPlan(cached: Cached, plan: seq<PlanFile>)
    requires Planned(cached, plan)
    ensures CachedTotal(cached) <= Total(plan)
    decreases |plan|
  {
    if plan == [] {
      assert cached == map[];
    } else {
      var f := plan[0];
      var rest := if f.row in cached && cached[f.row].size == f.size then cached - {f.row} else cached;
      forall r | r in rest ensures exists i | 0 <= i < |plan[1..]| :: plan[1..][i].row == r && plan[1..][i].size == rest[r].size {
        var i :| 0 <= i < |plan| && plan[i].row == r && plan[i].size == cached[r].size;
        assert plan[1..][i - 1] == plan[i];
      }
      CachedWithinPlan(rest, plan[1..]);
      BlocksRounds(f.size);
      if rest != cached {
        CachedWithout(cached, f.row);
      }
    }
  }
}
