/**
 When the wait of `promote --wait` gives each of its answers, over every
 sequence of turns and in the fields of what was read
 (cmd/kubectl-bloodraven/promote.go:192-237, 370-569).
 */
module PromoteReports {
  import opened Wrappers
  import opened PromoteWait
  import opened PromoteSafety

  // ---------------------------------------------------------- whose run it is

  /** The terminal marker names the run that the group's block shows. */
  predicate Marked(g: Group) {
    && g.block.Some? && g.block.value.runId != ""
    && g.marker.Some? && g.marker.value.runId == g.block.value.runId
  }

  lemma {:induction false} MarkerIff(g: Group)
    ensures TerminalMarker(g) == if Marked(g) then Some(g.marker.value.result) else None
  {
  }

  /**
   Which runs count as the request's, by the version it was written over: a
   run other than the one in status there must target the site, and the one in
   status must have been waiting, unended, to be admitted for that site or to
   resume for any.
   */
  lemma {:induction false} OursIff(over: Group, site: string, block: Option<Block>)
    ensures Ours(NewBaseline(over, site), block) <==>
            && block.Some? && block.value.runId != ""
            && (if over.block.Some? && over.block.value.runId == block.value.runId
                then !Marked(over) && (over.block.value.phase == Deferred ||
                                       (over.block.value.phase == Admitting && over.block.value.targetSite == site))
                else block.value.targetSite == site)
  {
  }

  /** A nameless run counts as the request's when it has a start time that the version written over did not show. */
  lemma {:induction false} LegacyRunIff(over: Group, site: string, block: Option<Block>)
    ensures LegacyRun(NewBaseline(over, site), block) <==>
            && block.Some? && block.value.runId == "" && block.value.startTime != 0
            && (over.block.Some? ==> over.block.value.startTime != block.value.startTime)
  {
  }

  /** The wait announces another target exactly when the request joins a run put off for another site. */
  lemma {:induction false} DeferredForIff(over: Group, site: string)
    requires site != ""
    ensures NewBaseline(over, site).deferredFor ==
            if over.block.Some? && over.block.value.runId != "" && !Marked(over)
               && over.block.value.phase == Deferred && over.block.value.targetSite != site
            then over.block.value.targetSite else ""
  {
  }

  // --------------------------------------------------------------- how it ended

  /** The target already was the active primary. */
  predicate NeverNeeded(r: RunResult) {
    r.outcome == OutcomeNotStarted && r.reason == "AlreadyActive"
  }

  /** A named run that the request joined has ended, and the request is still set. */
  predicate HeldBack(b: Baseline, g: Group) {
    && g.block.Some? && g.block.value.runId != "" && g.block.value.runId == b.runId && g.request.Some?
    && (Marked(g) || g.block.value.phase == Succeeded || g.block.value.phase == Failed)
  }

  /** The last turn read a group, the wait follows a run by then, and it need not wait for the request to go. */
  ghost predicate Reports(b: Baseline, turns: seq<Turn>)
    requires turns != []
  {
    var gs, last := Groups(turns), turns[|turns| - 1];
    && last.Seen? && last.group.block.Some? && !HeldBack(b, last.group)
    && ((exists k, m, id :: Story(b, gs, k, m, id)) || (exists k :: LegacyStory(b, gs, k)))
  }

  /** The wait has a run to follow and the last read shows it. */
  lemma {:induction false} FollowedShows(b: Baseline, turns: seq<Turn>)
    requires turns != [] && turns[|turns| - 1].Seen?
    ensures var track, gs, g := TrackOf(b, Groups(turns)), Groups(turns), turns[|turns| - 1].group;
            && ((exists k, m, id :: Story(b, gs, k, m, id)) <==> track.Run?)
            && ((exists k :: LegacyStory(b, gs, k)) <==> track.Legacy?)
            && (track.Run? ==> Shows(g, track.id) && track.id != "")
            && (track.Legacy? ==> g.block.Some? && g.block.value.runId == "")
  {
    var track, gs := TrackOf(b, Groups(turns)), Groups(turns);
    LastGroup(turns);
    FollowsLegacyIff(b, gs);
    if track.Run? {
      var k, m := FindStory(b, gs);
    }
    forall k, m, id | Story(b, gs, k, m, id) ensures track.Run? {
      StoryDecides(b, gs, k, m, id);
    }
  }

  /** The answer of a turn that reports: what the marker says when there is one, else what the phase says. */
  lemma {:induction false} EndedIff(b: Baseline, turns: seq<Turn>, v: Verdict)
    requires turns != []
    ensures Answer(b, turns) == Some(Ended(v)) <==> Reports(b, turns) && VerdictOf(turns[|turns| - 1].group) == Some(v)
  {
    var track, last := TrackOf(b, Groups(turns)), turns[|turns| - 1];
    if last.Seen? {
      FollowedShows(b, turns);
      MarkerIff(last.group);
    }
  }

  /** The wait reports a success exactly when the marker of the run records one, or there is no such marker and the run is in phase Succeeded. */
  lemma {:induction false} SucceededIff(b: Baseline, turns: seq<Turn>)
    requires turns != []
    ensures Answer(b, turns) == Some(Ended(RunSucceeded)) <==>
            && Reports(b, turns)
            && var g := turns[|turns| - 1].group;
               if Marked(g) then g.marker.value.result.outcome == OutcomeSucceeded else g.block.value.phase == Succeeded
  {
    EndedIff(b, turns, RunSucceeded);
    BlockShown(b, turns);
  }

  /** It reports a run as skipped exactly when the run ended because its site already was the active primary. */
  lemma {:induction false} SkippedIff(b: Baseline, turns: seq<Turn>)
    requires turns != []
    ensures Answer(b, turns) == Some(Ended(RunSkipped)) <==>
            && Reports(b, turns)
            && var g := turns[|turns| - 1].group;
               if Marked(g) then NeverNeeded(g.marker.value.result)
               else g.block.value.phase == Failed && g.block.value.result.Some? && NeverNeeded(g.block.value.result.value)
  {
    EndedIff(b, turns, RunSkipped);
    BlockShown(b, turns);
  }

  /** It reports a failure exactly when the run ended in any other way. */
  lemma {:induction false} FailedIff(b: Baseline, turns: seq<Turn>)
    requires turns != []
    ensures Answer(b, turns) == Some(Ended(RunFailed)) <==>
            && Reports(b, turns)
            && var g := turns[|turns| - 1].group;
               if Marked(g) then g.marker.value.result.outcome != OutcomeSucceeded && !NeverNeeded(g.marker.value.result)
               else g.block.value.phase == Failed && (g.block.value.result.Some? ==> !NeverNeeded(g.block.value.result.value))
  {
    EndedIff(b, turns, RunFailed);
    BlockShown(b, turns);
  }

  /** It reports a deferral exactly when no marker ended the run and the run is put off. */
  lemma {:induction false} DeferredIff(b: Baseline, turns: seq<Turn>)
    requires turns != []
    ensures Answer(b, turns) == Some(Ended(RunDeferred)) <==>
            && Reports(b, turns) && !Marked(turns[|turns| - 1].group) && turns[|turns| - 1].group.block.value.phase == Deferred
  {
    EndedIff(b, turns, RunDeferred);
    BlockShown(b, turns);
  }

  lemma {:induction false} BlockShown(b: Baseline, turns: seq<Turn>)
    requires turns != []
    ensures Reports(b, turns) ==> turns[|turns| - 1].group.block.Some?
    ensures turns[|turns| - 1].Seen? ==> MarkerSays(turns[|turns| - 1].group)
  {
    if turns[|turns| - 1].Seen? {
      FollowedShows(b, turns);
      MarkerIff(turns[|turns| - 1].group);
    }
  }

  ghost predicate MarkerSays(g: Group) {
    TerminalMarker(g) == if Marked(g) then Some(g.marker.value.result) else None
  }

  // ------------------------------------------------------ answers without a run

  /** No read showed a run of the request, and the last one found the request gone. */
  ghost predicate GoneUnclaimed(b: Baseline, turns: seq<Turn>)
    requires turns != []
  {
    var gs, last := Groups(turns), turns[|turns| - 1];
    && last.Seen? && last.group.request.None?
    && forall i | 0 <= i < |gs| :: Unclaimed(b, gs[i])
  }

  /** A refusal is reported exactly when one is found for a request that is gone and started nothing; it says which kind. */
  lemma {:induction false} RefusedIff(b: Baseline, turns: seq<Turn>)
    requires turns != []
    ensures Answer(b, turns) == Some(RequestSkipped) <==>
            GoneUnclaimed(b, turns) && turns[|turns| - 1].event.Some? && turns[|turns| - 1].event.value.skipped
    ensures Answer(b, turns) == Some(RequestRefused) <==>
            GoneUnclaimed(b, turns) && turns[|turns| - 1].event.Some? && !turns[|turns| - 1].event.value.skipped
  {
    NobodyIff(b, Groups(turns));
  }

  /** Turn i is the first read that found the request gone. */
  predicate FirstGone(turns: seq<Turn>, i: nat) {
    && i < |turns| && turns[i].Seen? && turns[i].group.request.None?
    && forall j | 0 <= j < i :: turns[j].Seen? ==> turns[j].group.request.Some?
  }

  /** The search for a refusal is given up exactly when the request was first seen gone ten seconds ago or more. */
  lemma {:induction false} NoRefusalFoundIff(b: Baseline, turns: seq<Turn>)
    requires turns != []
    ensures Answer(b, turns) == Some(NoRefusalFound) <==>
            && GoneUnclaimed(b, turns) && turns[|turns| - 1].event.None?
            && exists i: nat :: FirstGone(turns, i) && turns[|turns| - 1].now - turns[i].now >= 10
  {
    NobodyIff(b, Groups(turns));
    if GoneUnclaimed(b, turns) && turns[|turns| - 1].event.None? {
      var i := GoneSince(b, turns);
      assert FirstGone(turns, i) && ConsumedAt(b, turns) == Some(turns[i].now) by { GoneIsSome(b, turns, i); }
      forall j: nat | FirstGone(turns, j) ensures j == i {
      }
    }
  }

  lemma {:induction false} GoneIsSome(b: Baseline, turns: seq<Turn>, i: nat)
    requires turns != [] && GoneUnclaimed(b, turns)
    requires match ConsumedAt(b, turns)
             case Some(t) => FirstGone(turns, i) && t == turns[i].now
             case None => forall j | 0 <= j < |turns| :: turns[j].Seen? ==> turns[j].group.request.Some?
    ensures FirstGone(turns, i) && ConsumedAt(b, turns) == Some(turns[i].now)
  {
    var last := turns[|turns| - 1];
    assert last.Seen? && last.group.request.None?;
  }

  lemma {:induction false} UnclaimedBefore(b: Baseline, turns: seq<Turn>)
    requires turns != [] && TrackOf(b, Groups(turns)) == Nobody
    ensures TrackOf(b, Groups(turns[..|turns| - 1])) == Nobody
  {
    var before, last := turns[..|turns| - 1], turns[|turns| - 1];
    if last.Seen? {
      assert Groups(turns)[..|Groups(turns)| - 1] == Groups(before);
    } else {
      assert Groups(turns) == Groups(before);
    }
  }

  lemma {:induction false} GoneSince(b: Baseline, turns: seq<Turn>) returns (i: nat)
    requires TrackOf(b, Groups(turns)) == Nobody
    ensures match ConsumedAt(b, turns)
            case Some(t) => FirstGone(turns, i) && t == turns[i].now
            case None => forall j | 0 <= j < |turns| :: turns[j].Seen? ==> turns[j].group.request.Some?
  {
    i := 0;
    if turns != [] {
      UnclaimedBefore(b, turns);
      i := GoneSince(b, turns[..|turns| - 1]);
      if ConsumedAt(b, turns[..|turns| - 1]).None? {
        i := |turns| - 1;
        forall j | 0 <= j < i ensures turns[j].Seen? ==> turns[j].group.request.Some? {
          assert turns[..|turns| - 1][j] == turns[j];
        }
      }
    }
  }

  /** The run was replaced: some read showed a run of the request, and the reads tell of no run followed to the end. */
  lemma {:induction false} ReplacedIff(b: Baseline, turns: seq<Turn>)
    requires turns != []
    ensures Answer(b, turns) == Some(Replaced) <==>
            && turns[|turns| - 1].Seen?
            && (exists i :: 0 <= i < |Groups(turns)| && !Unclaimed(b, Groups(turns)[i]))
            && (forall k, m, id :: !Story(b, Groups(turns), k, m, id))
            && (forall k :: !LegacyStory(b, Groups(turns), k))
  {
    NobodyIff(b, Groups(turns));
    if turns[|turns| - 1].Seen? {
      FollowedShows(b, turns);
    }
  }

  // ----------------------------------------------------------- failing reads

  lemma {:induction false} FailuresAre(turns: seq<Turn>, n: nat)
    requires n <= |turns|
    ensures FailuresInARow(turns) >= n <==> forall i | |turns| - n <= i < |turns| :: turns[i].GetFailed?
  {
    if n > 0 {
      var before := turns[..|turns| - 1];
      FailuresAre(before, n - 1);
      assert forall i | 0 <= i < |turns| - 1 :: before[i] == turns[i];
    }
  }

  lemma {:induction false} FailuresAtMost(turns: seq<Turn>)
    ensures FailuresInARow(turns) <= |turns|
  {
    if turns != [] { FailuresAtMost(turns[..|turns| - 1]); }
  }

  /** The wait gives up exactly after six failed reads in a row, while it has time left; a missing group and a passed deadline come first. */
  lemma {:induction false} FailingReads(b: Baseline, turns: seq<Turn>)
    requires turns != []
    ensures var last := turns[|turns| - 1];
            && (Answer(b, turns) == Some(Disappeared) <==> last.GetFailed? && last.notFound)
            && (Answer(b, turns) == Some(GaveUp) <==>
                && last.GetFailed? && !last.notFound && !last.expired
                && |turns| >= 6 && forall i | |turns| - 6 <= i < |turns| :: turns[i].GetFailed?)
  {
    FailuresAtMost(turns);
    if |turns| >= 6 { FailuresAre(turns, 6); }
    ReadFails(b, TrackOf(b, Groups(turns)), ConsumedAt(b, turns), FailuresInARow(turns), turns[|turns| - 1]);
  }

  lemma {:induction false} ReadFails(b: Baseline, track: Track, consumed: Option<Time>, failures: nat, last: Turn)
    ensures var r := AnswerTo(b, track, consumed, failures, last);
            && (r == Some(Disappeared) <==> last.GetFailed? && last.notFound)
            && (r == Some(GaveUp) <==> last.GetFailed? && !last.notFound && !last.expired && failures >= 6)
  {
  }

  lemma {:induction false} Deadline(b: Baseline, track: Track, consumed: Option<Time>, failures: nat, last: Turn)
    ensures var r := AnswerTo(b, track, consumed, failures, last);
            && (r == Some(TimedOut) ==> last.stop || (last.GetFailed? && last.expired))
            && (r.None? ==> !last.stop)
            && (last.GetFailed? && last.expired ==> r == Some(if last.notFound then Disappeared else TimedOut))
  {
  }

  /** The wait times out only at its deadline, and never waits past it. */
  lemma {:induction false} TimedOutAtDeadline(b: Baseline, turns: seq<Turn>)
    requires turns != []
    ensures Answer(b, turns) == Some(TimedOut) ==>
            var last := turns[|turns| - 1]; last.stop || (last.GetFailed? && last.expired)
    ensures Answer(b, turns).None? ==> !turns[|turns| - 1].stop
    ensures turns[|turns| - 1].GetFailed? && turns[|turns| - 1].expired ==>
            Answer(b, turns) == Some(if turns[|turns| - 1].notFound then Disappeared else TimedOut)
  {
    Deadline(b, TrackOf(b, Groups(turns)), ConsumedAt(b, turns), FailuresInARow(turns), turns[|turns| - 1]);
  }

  /** A followed run that has ended is answered at once, unless the request that joined it is still set. */
  lemma {:induction false} EndedRunIsReported(b: Baseline, turns: seq<Turn>)
    requires turns != [] && Reports(b, turns)
    requires var g := turns[|turns| - 1].group;
             Marked(g) || g.block.value.phase in {Succeeded, Failed, Deferred}
    ensures Answer(b, turns).Some? && Answer(b, turns).value.Ended?
  {
    BlockShown(b, turns);
    EndedIff(b, turns, VerdictOf(turns[|turns| - 1].group).value);
  }
}
