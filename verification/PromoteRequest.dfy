/**
 annotatePlannedFailover (cmd/kubectl-bloodraven/promote.go:118-160) against an
 API server that other clients edit at any time: the baseline the wait starts
 from is that of the very version the request was written over.
 */
module PromoteRequest {
  import opened Wrappers
  import opened PromoteWait
  import opened PromoteSafety

  datatype ApiError = NotFound | Conflict | Unavailable

  datatype RequestError = GroupNotFound | GetError | SiteNotDefined | AnnotateError(cause: ApiError)

  /** The failover group on the API server; `landed` records what each patch of this client was applied to. */
  class Server {
    var group: Option<Group>
    var version: nat
    ghost var landed: seq<Group>
    ghost var gets: nat
    ghost var patches: nat
    ghost var faults: nat

    constructor (group: Option<Group>)
      ensures this.group == group && landed == [] && gets == 0 && patches == 0 && faults == 0
    {
      this.group, version := group, 0;
      landed, gets, patches, faults := [], 0, 0, 0;
    }

    /** What other clients do between two calls: any edit, and each edit is a new version. */
    method Interfere()
      modifies this
      ensures version >= old(version) && (version == old(version) ==> group == old(group))
      ensures landed == old(landed) && gets == old(gets) && patches == old(patches) && faults == old(faults)
    {
      var edited: Option<Group> := *;
      var edits: nat := *;
      if edits > 0 {
        group, version := edited, version + edits;
      }
    }

    method Get() returns (r: Result<(Group, nat), ApiError>)
      modifies this
      ensures landed == old(landed) && gets == old(gets) + 1 && patches == old(patches)
      ensures version >= old(version) && faults >= old(faults)
      ensures r.Ok? ==> group == Some(r.value.0) && version == r.value.1
      ensures r.Err? ==> (r.error == NotFound && group.None?) || (r.error == Unavailable && faults > old(faults))
    {
      Interfere();
      gets := gets + 1;
      var fails: bool := *;
      if fails {
        faults := faults + 1;
        return Err(Unavailable);
      }
      return if group.None? then Err(NotFound) else Ok((group.value, version));
    }

    /**
     A patch of the request annotation that carries the version it was made
     from. It may land and its answer be lost.
     */
    method Patch(value: string, from: nat) returns (r: Result<(), ApiError>)
      modifies this
      ensures gets == old(gets) && patches == old(patches) + 1
      ensures landed == old(landed) ||
              (from >= old(version) && (from == old(version) ==> old(group).Some? && landed == old(landed) + [old(group).value]))
      ensures landed != old(landed) ==>
              |landed| == |old(landed)| + 1 && landed[..|old(landed)|] == old(landed) &&
              group == Some(landed[|landed| - 1].(request := Some(value))) && version == from + 1
      ensures r.Ok? ==> landed != old(landed)
      ensures version >= old(version) && faults >= old(faults)
      ensures r == Err(Conflict) ==> landed == old(landed) && version != from
      ensures r == Err(NotFound) ==> landed == old(landed) && group.None?
      ensures r == Err(Unavailable) ==> faults > old(faults)
    {
      Interfere();
      patches := patches + 1;
      var lost: bool := *;
      var unreachable: bool := *;
      if unreachable {
        faults := faults + 1;
        return Err(Unavailable);
      }
      if group.None? {
        return Err(NotFound);
      }
      if version != from {
        return Err(Conflict);
      }
      landed := landed + [group.value];
      group, version := Some(group.value.(request := Some(value))), version + 1;
      if lost {
        faults := faults + 1;
        return Err(Unavailable);
      }
      return Ok(());
    }
  }

  /** Why the request was not written: by the group last seen, the failed calls and the edits of others. */
  predicate Explained(e: RequestError, group: Option<Group>, site: string, faults: int, edits: int) {
    && (e == GroupNotFound || e == AnnotateError(NotFound) ==> group.None?)
    && (e == SiteNotDefined ==> group.Some? && site !in group.value.sites)
    && (e == GetError || e == AnnotateError(Unavailable) ==> faults > 0)
    && (e == AnnotateError(Conflict) ==> edits >= 5)
  }

  /**
   Whatever other clients do: on success exactly one patch landed, over a
   version that defines the site and whose baseline is the one returned; at
   most five reads and patches are made. Every failure has its reason: the
   group or the site is missing, the API server failed, or the group was edited
   under each of five patches, and then nothing was written.
   */
  method AnnotatePlannedFailover(server: Server, site: string, value: string, wait: bool)
    returns (r: Result<Baseline, RequestError>)
    modifies server
    ensures server.gets - old(server.gets) <= 5 && server.patches - old(server.patches) <= 5
    ensures r.Ok? ==>
      exists over: Group ::
        && server.landed == old(server.landed) + [over]
        && site in over.sites
        && server.group == Some(over.(request := Some(value)))
        && r.value == (if wait then NewBaseline(over, site) else Baseline(site, "", false, "", false, ZERO))
    ensures server.landed == old(server.landed) || (exists over: Group :: server.landed == old(server.landed) + [over])
    ensures r.Err? && r.error != AnnotateError(Unavailable) ==> server.landed == old(server.landed)
    ensures r.Err? ==> Explained(r.error, server.group, site, server.faults - old(server.faults), server.version - old(server.version))
    ensures r == Err(AnnotateError(Conflict)) ==> server.patches - old(server.patches) == 5
  {
    var attempt := 1;
    while true
      invariant 1 <= attempt <= CONFLICT_RETRIES
      invariant server.landed == old(server.landed)
      invariant server.gets - old(server.gets) == attempt - 1
      invariant server.patches - old(server.patches) == attempt - 1
      invariant server.version >= old(server.version) + attempt - 1 && server.faults >= old(server.faults)
      decreases CONFLICT_RETRIES - attempt
    {
      var got := server.Get();
      if got.Err? {
        return Err(if got.error == NotFound then GroupNotFound else GetError);
      }
      var (fg, version) := got.value;
      if site !in fg.sites {
        return Err(SiteNotDefined);
      }
      var baseline := Baseline(site, "", false, "", false, ZERO);
      if wait {
        baseline := NewBaseline(fg, site);
      }
      var done := server.Patch(value, version);
      if done.Ok? {
        assert server.landed == old(server.landed) + [fg];
        return Ok(baseline);
      }
      if done.error == Conflict && attempt < CONFLICT_RETRIES {
        attempt := attempt + 1;
        continue;
      }
      assert server.landed == old(server.landed) || server.landed == old(server.landed) + [fg];
      return Err(AnnotateError(done.error));
    }
  }

  /**
   The whole command with --wait: a result it reports is that of the request's
   own run, judged from the very version the request was written over, unless
   the operator writes runs without names.
   */
  method Promote(server: Server, site: string, value: string, turns: seq<Turn>)
    returns (r: Result<Option<Report>, RequestError>, n: nat)
    modifies server
    ensures n <= |turns| && (r.Err? ==> n == 0)
    ensures r.Err? ==> Explained(r.error, server.group, site, server.faults - old(server.faults), server.version - old(server.version))
    ensures r.Ok? ==>
      exists over: Group ::
        && server.landed == old(server.landed) + [over]
        && (if r.value.Some? then n > 0 && Answer(NewBaseline(over, site), turns[..n]) == r.value else n == |turns|)
        && (forall i | 0 < i < n :: Answer(NewBaseline(over, site), turns[..i]).None?)
        && (r.value.Some? && r.value.value.Ended? ==>
              TrackOf(NewBaseline(over, site), Groups(turns[..n])) == Legacy ||
              OwnResult(over, site, turns[..n], r.value.value.verdict))
  {
    var baseline := AnnotatePlannedFailover(server, site, value, true);
    if baseline.Err? {
      return Err(baseline.error), 0;
    }
    var report;
    report, n := WaitForPlannedFailover(baseline.value, turns);
    ghost var over :| server.landed == old(server.landed) + [over] && baseline.value == NewBaseline(over, site);
    if report.Some? && report.value.Ended? && TrackOf(baseline.value, Groups(turns[..n])) != Legacy {
      OnlyOwnRunReported(over, site, turns[..n], report.value.verdict);
    }
    return Ok(report), n;
  }
}
