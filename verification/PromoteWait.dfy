/**
 `promote --wait` (cmd/kubectl-bloodraven/promote.go:118-237, 339-538): the
 request is annotated over one version of the failover group, and the group is
 then watched until the run that carries the request ends.
 */
module PromoteWait {
  import opened Wrappers

  type Time = int

  /** The zero metav1.Time. */
  const ZERO: Time := 0

  /** maxWaitGetFailures, promoteConflictRetries and refusalEventWait (in seconds). */
  const MAX_GET_FAILURES := 6
  const CONFLICT_RETRIES := 5
  const REFUSAL_EVENT_WAIT := 10

  datatype Phase = Admitting | Deferred | Succeeded | Failed | Working(name: string)

  datatype Outcome = OutcomeSucceeded | OutcomeNotStarted | OutcomeOther(name: string)

  datatype RunResult = RunResult(outcome: Outcome, reason: string)

  /** status.plannedFailover. A run of an operator older than the plugin has the empty runId. */
  datatype Block = Block(
    runId: string, targetSite: string, phase: Phase, startTime: Time, result: Option<RunResult>)

  /** The terminal marker annotation, once parsed. */
  datatype Marker = Marker(runId: string, result: RunResult)

  /** The parts of a failover group that the plugin reads. */
  datatype Group = Group(
    sites: set<string>, request: Option<string>, block: Option<Block>, marker: Option<Marker>)

  datatype Baseline = Baseline(
    site: string, runId: string, follow: bool, deferredFor: string, hadBlock: bool, startTime: Time)

  const ALREADY_ACTIVE := "AlreadyActive"

  // --------------------------------------------------------------- decisions

  /** plannedTerminalMarker: the marker counts only when it names the current run. */
  function TerminalMarker(g: Group): (r: Option<RunResult>)
  {
    if g.block.None? || g.block.value.runId == "" || g.marker.None? || g.marker.value.runId != g.block.value.runId
    then None
    else Some(g.marker.value.result)
  }

  function NewBaseline(g: Group, site: string): (b: Baseline)
  {
    match g.block
    case None => Baseline(site, "", false, "", false, ZERO)
    case Some(pf) =>
      var unmarked := pf.runId != "" && TerminalMarker(g).None?;
      var follow := unmarked && ((pf.phase == Admitting && pf.targetSite == site) || pf.phase == Deferred);
      Baseline(site, pf.runId, follow, if follow && pf.targetSite != site then pf.targetSite else "", true, pf.startTime)
  }

  predicate Ours(b: Baseline, block: Option<Block>) {
    block.Some? && block.value.runId != "" &&
    (if block.value.runId != b.runId then block.value.targetSite == b.site else b.follow)
  }

  predicate LegacyRun(b: Baseline, block: Option<Block>) {
    block.Some? && block.value.runId == "" && block.value.startTime != ZERO &&
    (!b.hadBlock || block.value.startTime != b.startTime)
  }

  predicate AlreadyActive(r: RunResult) {
    r.outcome == OutcomeNotStarted && r.reason == ALREADY_ACTIVE
  }

  // ----------------------------------------------------- observations, reports

  datatype Event = Event(skipped: bool, message: string)

  /**
   One turn of the wait. `expired` says that the wait's own deadline had
   passed when a read failed, `stop` that the deadline is met before the next
   tick, `event` what looking for a new refusal Event finds.
   */
  datatype Turn =
    | GetFailed(notFound: bool, expired: bool, stop: bool)
    | Seen(group: Group, now: Time, event: Option<Event>, stop: bool)

  datatype Verdict = RunSucceeded | RunSkipped | RunFailed | RunDeferred

  datatype Report =
    | Ended(verdict: Verdict)
    | Replaced
    | RequestSkipped
    | RequestRefused
    | NoRefusalFound
    | Disappeared
    | GaveUp
    | TimedOut

  /** What a run's block, or its marker, says of how the run ended; None while it goes on. */
  function VerdictOf(g: Group): (v: Option<Verdict>)
    requires g.block.Some?
  {
    match TerminalMarker(g)
    case Some(r) => Some(if r.outcome == OutcomeSucceeded then RunSucceeded else if AlreadyActive(r) then RunSkipped else RunFailed)
    case None =>
      match g.block.value.phase
      case Succeeded => Some(RunSucceeded)
      case Failed =>
        Some(if g.block.value.result.Some? && AlreadyActive(g.block.value.result.value) then RunSkipped else RunFailed)
      case Deferred => Some(RunDeferred)
      case _ => None
  }

  /** The run is over for the operator, not merely put off. */
  predicate Over(g: Group) {
    g.block.Some? && (TerminalMarker(g).Some? || g.block.value.phase == Succeeded || g.block.value.phase == Failed)
  }

  // ------------------------------------------------------- whom the wait follows

  datatype Track = Nobody | Run(id: string) | Legacy | Lost

  /** How one observed group moves the wait from run to run. */
  function Next(b: Baseline, t: Track, g: Group): (t': Track)
  {
    match t
    case Lost => Lost
    case Legacy => if LegacyRun(b, g.block) then Legacy else Lost
    case Run(id) =>
      if g.block.Some? && g.block.value.runId == id then t
      else if id == b.runId && Ours(b, g.block) then Run(g.block.value.runId)
      else Lost
    case Nobody =>
      if Ours(b, g.block) then Run(g.block.value.runId)
      else if LegacyRun(b, g.block) then Legacy
      else Nobody
  }

  function TrackOf(b: Baseline, gs: seq<Group>): (t: Track)
  {
    if gs == [] then Nobody else Next(b, TrackOf(b, gs[..|gs| - 1]), gs[|gs| - 1])
  }

  /** The groups that were read. */
  function Groups(turns: seq<Turn>): (gs: seq<Group>)
  {
    if turns == [] then []
    else
      var last := turns[|turns| - 1];
      Groups(turns[..|turns| - 1]) + if last.Seen? then [last.group] else []
  }

  /** When the request was first seen gone without a run, None while it was not. */
  function ConsumedAt(b: Baseline, turns: seq<Turn>): (t: Option<Time>)
  {
    if turns == [] then None
    else
      var before, last := turns[..|turns| - 1], turns[|turns| - 1];
      var earlier := ConsumedAt(b, before);
      if earlier.None? && last.Seen? && TrackOf(b, Groups(turns)) == Nobody && last.group.request.None?
      then Some(last.now) else earlier
  }

  /** How many reads failed in a row, up to now. */
  function FailuresInARow(turns: seq<Turn>): (n: nat)
  {
    if turns == [] || turns[|turns| - 1].Seen? then 0 else 1 + FailuresInARow(turns[..|turns| - 1])
  }

  /** What the wait answers after these turns; None while it goes on. */
  function Answer(b: Baseline, turns: seq<Turn>): (r: Option<Report>)
    requires turns != []
  {
    AnswerTo(b, TrackOf(b, Groups(turns)), ConsumedAt(b, turns), FailuresInARow(turns), turns[|turns| - 1])
  }

  function AnswerTo(b: Baseline, track: Track, consumed: Option<Time>, failures: nat, last: Turn): (r: Option<Report>)
  {
    var later := if last.stop then Some(TimedOut) else None;
    match last
    case GetFailed(notFound, expired, _) =>
      if notFound then Some(Disappeared)
      else if expired then Some(TimedOut)
      else if failures >= MAX_GET_FAILURES then Some(GaveUp)
      else later
    case Seen(g, now, event, _) =>
      match track
      case Lost => Some(Replaced)
      case Nobody =>
        if g.request.Some? then later
        else if event.Some? then Some(if event.value.skipped then RequestSkipped else RequestRefused)
        else if consumed.Some? && now - consumed.value >= REFUSAL_EVENT_WAIT then Some(NoRefusalFound)
        else later
      case Legacy => Reported(g, later)
      case Run(id) => if id == b.runId && g.request.Some? && Over(g) then later else Reported(g, later)
  }

  function Reported(g: Group, later: Option<Report>): (r: Option<Report>)
  {
    if g.block.Some? && VerdictOf(g).Some? then Some(Ended(VerdictOf(g).value)) else later
  }

  // ------------------------------------------------------------------- the wait

  /** The track that the loop's variables stand for. */
  function Following(adopted: string, legacy: bool): (t: Track)
  {
    if legacy then Legacy else if adopted != "" then Run(adopted) else Nobody
  }

  lemma {:induction false} OneMoreTurn(b: Baseline, turns: seq<Turn>, n: nat)
    requires n < |turns|
    ensures var before, after, turn := turns[..n], turns[..n + 1], turns[n];
            && TrackOf(b, Groups(after)) ==
                 (if turn.Seen? then Next(b, TrackOf(b, Groups(before)), turn.group) else TrackOf(b, Groups(before)))
            && FailuresInARow(after) == (if turn.Seen? then 0 else 1 + FailuresInARow(before))
            && ConsumedAt(b, after) ==
                 (if ConsumedAt(b, before).None? && turn.Seen? && TrackOf(b, Groups(after)) == Nobody && turn.group.request.None?
                  then Some(turn.now) else ConsumedAt(b, before))
            && after != [] && after[|after| - 1] == turn
  {
    var before, after, turn := turns[..n], turns[..n + 1], turns[n];
    assert after[..|after| - 1] == before;
    if turn.Seen? {
      assert Groups(after) == Groups(before) + [turn.group];
      assert Groups(after)[..|Groups(after)| - 1] == Groups(before);
    } else {
      assert Groups(after) == Groups(before);
    }
  }

  /** The switch that decides whose run the observed block is. */
  method Adopt(b: Baseline, g: Group, adopted: string, legacy: bool) returns (adopted': string, legacy': bool, lost: bool)
    ensures Next(b, Following(adopted, legacy), g) == if lost then Lost else Following(adopted', legacy')
    ensures !lost && (legacy' || adopted' != "") ==> g.block.Some?
  {
    var pf := g.block;
    adopted', legacy', lost := adopted, legacy, false;
    if legacy {
      lost := !LegacyRun(b, pf);
    } else if adopted != "" && adopted == b.runId && pf.Some? && pf.value.runId != adopted && Ours(b, pf) {
      adopted' := pf.value.runId;
    } else if adopted != "" {
      lost := pf.None? || pf.value.runId != adopted;
    } else if Ours(b, pf) {
      adopted' := pf.value.runId;
    } else if LegacyRun(b, pf) {
      legacy' := true;
    }
  }

  /** The end of the loop body: a followed run is reported, once the request it joined is gone. */
  method ReportRun(b: Baseline, g: Group, adopted: string, legacy: bool, stop: bool) returns (r: Option<Report>)
    requires g.block.Some? && (legacy || adopted != "")
    ensures forall now, event ::
      r == AnswerTo(b, Following(adopted, legacy), None, 0, Seen(g, now, event, stop))
  {
    var pf, marked := g.block.value, TerminalMarker(g);
    if !legacy && adopted == b.runId && g.request.Some? && (marked.Some? || pf.phase == Succeeded || pf.phase == Failed) {
      return if stop then Some(TimedOut) else None;
    }
    if marked.Some? {
      if marked.value.outcome == OutcomeSucceeded {
        return Some(Ended(RunSucceeded));
      }
      if AlreadyActive(marked.value) {
        return Some(Ended(RunSkipped));
      }
      return Some(Ended(RunFailed));
    }
    match pf.phase {
      case Succeeded => return Some(Ended(RunSucceeded));
      case Failed =>
        if pf.result.Some? && AlreadyActive(pf.result.value) {
          return Some(Ended(RunSkipped));
        }
        return Some(Ended(RunFailed));
      case Deferred => return Some(Ended(RunDeferred));
      case _ => return if stop then Some(TimedOut) else None;
    }
  }

  /**
   waitForPlannedFailover over the turns it is given: the first answer, and
   the number of turns it took; None when every turn is used up waiting.
   */
  method WaitForPlannedFailover(b: Baseline, turns: seq<Turn>) returns (r: Option<Report>, n: nat)
    ensures n <= |turns| && (r.Some? ==> n > 0 && Answer(b, turns[..n]) == r) && (r.None? ==> n == |turns|)
    ensures forall i | 0 < i <= n :: (i == n && r.Some?) || Answer(b, turns[..i]).None?
  {
    var adopted, legacy := "", false;
    var consumedAt: Option<Time> := None;
    var failures := 0;
    n := 0;
    while n < |turns|
      invariant n <= |turns|
      invariant forall i | 0 < i <= n :: Answer(b, turns[..i]).None?
      invariant TrackOf(b, Groups(turns[..n])) == Following(adopted, legacy)
      invariant ConsumedAt(b, turns[..n]) == consumedAt
      invariant FailuresInARow(turns[..n]) == failures
    {
      var turn := turns[n];
      OneMoreTurn(b, turns, n);
      n := n + 1;
      if turn.GetFailed? {
        if turn.notFound {
          return Some(Disappeared), n;
        }
        if turn.expired {
          return Some(TimedOut), n;
        }
        failures := failures + 1;
        if failures >= MAX_GET_FAILURES {
          return Some(GaveUp), n;
        }
        if turn.stop {
          return Some(TimedOut), n;
        }
        continue;
      }
      failures := 0;
      var lost;
      adopted, legacy, lost := Adopt(b, turn.group, adopted, legacy);
      if lost {
        return Some(Replaced), n;
      }
      if !legacy && adopted == "" {
        if turn.group.request.None? {
          if consumedAt.None? {
            consumedAt := Some(turn.now);
          }
          if turn.event.Some? {
            return Some(if turn.event.value.skipped then RequestSkipped else RequestRefused), n;
          }
          if turn.now - consumedAt.value >= REFUSAL_EVENT_WAIT {
            return Some(NoRefusalFound), n;
          }
        }
        if turn.stop {
          return Some(TimedOut), n;
        }
        continue;
      }
      r := ReportRun(b, turn.group, adopted, legacy, turn.stop);
      if r.Some? {
        return r, n;
      }
    }
    return None, n;
  }
}
