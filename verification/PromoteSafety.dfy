/**
 What `promote --wait` may report, over every sequence of turns: the history
 behind each answer, and which run's result it can be.
 */
module PromoteSafety {
  import opened Wrappers
  import opened PromoteWait

  // ------------------------------------------------------------- the history

  predicate Unclaimed(b: Baseline, g: Group) {
    !Ours(b, g.block) && !LegacyRun(b, g.block)
  }

  predicate Shows(g: Group, id: string) {
    g.block.Some? && g.block.value.runId == id
  }

  /**
   No group before k shows a run of the request; the one at k does; from there
   to m the joined run stays in status, and from m on the run `id` does, which
   was the request's when it first appeared. With k == m only one run appears.
   */
  ghost predicate Story(b: Baseline, gs: seq<Group>, k: nat, m: nat, id: string) {
    k <= m < |gs| &&
    (forall i | 0 <= i < k :: Unclaimed(b, gs[i])) &&
    Ours(b, gs[k].block) && Ours(b, gs[m].block) &&
    (forall i | k <= i < m :: Shows(gs[i], b.runId)) &&
    (forall i | m <= i < |gs| :: Shows(gs[i], id)) &&
    (k < m ==> id != b.runId)
  }

  ghost predicate LegacyStory(b: Baseline, gs: seq<Group>, k: nat) {
    k < |gs| &&
    (forall i | 0 <= i < k :: Unclaimed(b, gs[i])) &&
    (forall i | k <= i < |gs| :: LegacyRun(b, gs[i].block))
  }

  lemma {:induction false} NobodyIff(b: Baseline, gs: seq<Group>)
    ensures TrackOf(b, gs) == Nobody <==> forall i | 0 <= i < |gs| :: Unclaimed(b, gs[i])
  {
    if gs != [] {
      var n := |gs| - 1;
      NobodyIff(b, gs[..n]);
      assert forall i | 0 <= i < n :: gs[..n][i] == gs[i];
    }
  }

  lemma {:induction false} FindStory(b: Baseline, gs: seq<Group>) returns (k: nat, m: nat)
    requires TrackOf(b, gs).Run?
    ensures Story(b, gs, k, m, TrackOf(b, gs).id)
  {
    var n := |gs| - 1;
    var before := TrackOf(b, gs[..n]);
    if before == Nobody {
      NobodyIff(b, gs[..n]);
      assert forall i | 0 <= i < n :: gs[..n][i] == gs[i];
      k, m := n, n;
    } else {
      k, m := FindStory(b, gs[..n]);
      if before.id != TrackOf(b, gs).id {
        m := n;
      }
    }
  }

  lemma {:induction false} StoryDecides(b: Baseline, gs: seq<Group>, k: nat, m: nat, id: string)
    requires Story(b, gs, k, m, id)
    ensures TrackOf(b, gs) == Run(id)
  {
    var n := |gs| - 1;
    if m < n {
      StoryDecides(b, gs[..n], k, m, id);
    } else if k < n {
      assert Story(b, gs[..n], k, k, b.runId);
      StoryDecides(b, gs[..n], k, k, b.runId);
    } else {
      NobodyIff(b, gs[..n]);
    }
  }

  /** The run followed is exactly the one the history of observed groups singles out. */
  lemma {:induction false} FollowsIff(b: Baseline, gs: seq<Group>, id: string)
    ensures TrackOf(b, gs) == Run(id) <==> exists k, m :: Story(b, gs, k, m, id)
  {
    if TrackOf(b, gs) == Run(id) {
      var k, m := FindStory(b, gs);
    }
    forall k, m | Story(b, gs, k, m, id) ensures TrackOf(b, gs) == Run(id) {
      StoryDecides(b, gs, k, m, id);
    }
  }

  /** A run without a runId is followed exactly when the first run to appear was one and none but such runs came after. */
  lemma {:induction false} FollowsLegacyIff(b: Baseline, gs: seq<Group>)
    ensures TrackOf(b, gs) == Legacy <==> exists k :: LegacyStory(b, gs, k)
  {
    if gs != [] {
      var n := |gs| - 1;
      FollowsLegacyIff(b, gs[..n]);
      NobodyIff(b, gs[..n]);
      if TrackOf(b, gs) == Legacy {
        if TrackOf(b, gs[..n]) == Nobody {
          assert LegacyStory(b, gs, n);
        } else {
          var k :| LegacyStory(b, gs[..n], k);
          assert LegacyStory(b, gs, k);
        }
      }
      forall k: nat | LegacyStory(b, gs, k) ensures TrackOf(b, gs) == Legacy {
        if k < n {
          assert LegacyStory(b, gs[..n], k);
        }
      }
    }
  }

  // ------------------------------------------------- which runs are followed

  lemma {:induction false} TrackMoves(b: Baseline, gs: seq<Group>, i: nat)
    requires i <= |gs| && TrackOf(b, gs[..i]).Run? && TrackOf(b, gs).Run?
    ensures var x, y := TrackOf(b, gs[..i]).id, TrackOf(b, gs).id;
            x != y ==> x == b.runId && b.follow
    decreases |gs|
  {
    var k, m := FindStory(b, gs[..i]);
    if i < |gs| {
      var n := |gs| - 1;
      assert gs[..n][..i] == gs[..i];
      if TrackOf(b, gs[..n]).Run? {
        TrackMoves(b, gs[..n], i);
      } else {
        NobodyIff(b, gs[..n]);
      }
    } else {
      assert gs[..i] == gs;
    }
  }

  /**
   Over one wait at most two runs are followed: when the run changes, the
   earlier one is the run the request joined and the later is not.
   */
  lemma {:induction false} AtMostTwoRuns(b: Baseline, gs: seq<Group>, i: nat, j: nat)
    requires i <= j <= |gs| && TrackOf(b, gs[..i]).Run? && TrackOf(b, gs[..j]).Run?
    requires TrackOf(b, gs[..i]) != TrackOf(b, gs[..j])
    ensures b.follow && TrackOf(b, gs[..i]) == Run(b.runId) != TrackOf(b, gs[..j])
  {
    assert gs[..j][..i] == gs[..i];
    TrackMoves(b, gs[..j], i);
  }

  // -------------------------------------------------------- what is reported

  /** The request, written over this group, is taken by the run already in status. */
  predicate Joins(over: Group, site: string) {
    over.block.Some? && over.block.value.runId != "" && TerminalMarker(over).None? &&
    (over.block.value.phase == Deferred ||
     (over.block.value.phase == Admitting && over.block.value.targetSite == site))
  }

  /**
   v is what the last observed group says of the run followed, and that run is
   the request's: the run in status before the request only if the request
   joined it, and then only a deferral or a result read after the request was
   taken; any other run only if it targeted the requested site when it appeared.
   */
  ghost predicate OwnResultOf(over: Group, site: string, turns: seq<Turn>, v: Verdict, k: nat, m: nat, id: string)
    requires turns != []
  {
    var gs, last := Groups(turns), turns[|turns| - 1];
    && Story(NewBaseline(over, site), gs, k, m, id)
    && last.Seen? && Shows(last.group, id) && VerdictOf(last.group) == Some(v)
    && (Shows(over, id) ==> Joins(over, site) && (v == RunDeferred || last.group.request.None?))
    && (!Shows(over, id) ==> gs[m].block.value.targetSite == site)
  }

  ghost predicate OwnResult(over: Group, site: string, turns: seq<Turn>, v: Verdict) {
    turns != [] && exists k, m, id :: OwnResultOf(over, site, turns, v, k, m, id)
  }

  /** Every reported result of a named run is the request's own. */
  lemma {:induction false} OnlyOwnRunReported(over: Group, site: string, turns: seq<Turn>, v: Verdict)
    requires turns != [] && Answer(NewBaseline(over, site), turns) == Some(Ended(v))
    requires TrackOf(NewBaseline(over, site), Groups(turns)) != Legacy
    ensures OwnResult(over, site, turns, v)
  {
    var b, gs := NewBaseline(over, site), Groups(turns);
    ReportedRun(b, turns, v);
    var k, m := FindStory(b, gs);
    var id := TrackOf(b, gs).id;
    assert Shows(gs[m], id) && Shows(gs[|gs| - 1], id);
    JoinsIff(over, site);
    assert OwnResultOf(over, site, turns, v, k, m, id);
  }

  lemma {:induction false} ReportedRun(b: Baseline, turns: seq<Turn>, v: Verdict)
    requires turns != [] && Answer(b, turns) == Some(Ended(v)) && TrackOf(b, Groups(turns)) != Legacy
    ensures var track, last := TrackOf(b, Groups(turns)), turns[|turns| - 1];
            && track.Run? && last.Seen? && last.group.block.Some? && VerdictOf(last.group) == Some(v)
            && Groups(turns) != [] && Groups(turns)[|Groups(turns)| - 1] == last.group
            && (track.id == b.runId ==> v == RunDeferred || last.group.request.None?)
  {
    EndedAnswer(b, TrackOf(b, Groups(turns)), ConsumedAt(b, turns), FailuresInARow(turns), turns[|turns| - 1], v);
    LastGroup(turns);
  }

  lemma {:induction false} EndedAnswer(b: Baseline, track: Track, consumed: Option<Time>, failures: nat, last: Turn, v: Verdict)
    requires AnswerTo(b, track, consumed, failures, last) == Some(Ended(v)) && track != Legacy
    ensures track.Run? && last.Seen? && last.group.block.Some? && VerdictOf(last.group) == Some(v)
    ensures track.id == b.runId ==> v == RunDeferred || last.group.request.None?
  {
  }

  lemma {:induction false} LastGroup(turns: seq<Turn>)
    requires turns != [] && turns[|turns| - 1].Seen?
    ensures Groups(turns) != [] && Groups(turns)[|Groups(turns)| - 1] == turns[|turns| - 1].group
  {
  }

  lemma {:induction false} JoinsIff(over: Group, site: string)
    ensures var b := NewBaseline(over, site);
            && b.site == site && (b.follow <==> Joins(over, site))
            && (forall id | id != "" :: Shows(over, id) <==> id == b.runId)
  {
  }

  /** The run waits out its cooldown: neither its phase nor a marker has ended it. */
  predicate PutOff(g: Group) {
    g.block.Some? && g.block.value.phase == Deferred && TerminalMarker(g).None?
  }

  /** While the request is still set, a joined run is reported only as deferred, and always then. */
  lemma {:induction false} JoinedRunWhilePending(b: Baseline, turns: seq<Turn>, v: Verdict)
    requires turns != [] && turns[|turns| - 1].Seen? && turns[|turns| - 1].group.request.Some?
    requires TrackOf(b, Groups(turns)) == Run(b.runId)
    ensures Answer(b, turns) == Some(Ended(v)) <==> v == RunDeferred && PutOff(turns[|turns| - 1].group)
  {
    JoinedAnswer(b, ConsumedAt(b, turns), FailuresInARow(turns), turns[|turns| - 1], v);
  }

  lemma {:induction false} JoinedAnswer(b: Baseline, consumed: Option<Time>, failures: nat, last: Turn, v: Verdict)
    requires last.Seen? && last.group.request.Some?
    ensures AnswerTo(b, Run(b.runId), consumed, failures, last) == Some(Ended(v)) <==> v == RunDeferred && PutOff(last.group)
  {
  }

  /** That happens: a request for "b" joins a run deferred for "a", and the first read, with the request still set, ends the wait. */
  lemma {:induction false} DeferredReportedWhilePending()
    ensures var over := Group({"a", "b"}, None, Some(Block("r", "a", Deferred, 1, None)), None);
            var turns := [Seen(over.(request := Some("b")), 0, None, false)];
            && Joins(over, "b") && turns[0].group.request.Some?
            && Answer(NewBaseline(over, "b"), turns) == Some(Ended(RunDeferred))
  {
    var over := Group({"a", "b"}, None, Some(Block("r", "a", Deferred, 1, None)), None);
    var g := over.(request := Some("b"));
    FirstTurn(NewBaseline(over, "b"), g, "r");
    JoinedRunWhilePending(NewBaseline(over, "b"), [Seen(g, 0, None, false)], RunDeferred);
  }

  lemma {:induction false} FirstTurn(b: Baseline, g: Group, id: string)
    requires Ours(b, g.block) && Shows(g, id)
    ensures TrackOf(b, Groups([Seen(g, 0, None, false)])) == Run(id)
  {
    var turn := Seen(g, 0, None, false);
    assert [turn][..0] == [] && [g][..0] == [];
    assert Groups([]) == [] && Groups([turn]) == [g];
    assert TrackOf(b, []) == Nobody;
  }

  /** A refusal is reported only when no read of the whole wait showed a run of the request, and the request is gone. */
  lemma {:induction false} RefusedMeansNoRun(b: Baseline, turns: seq<Turn>)
    requires turns != [] && Answer(b, turns).Some?
    requires Answer(b, turns).value in {RequestSkipped, RequestRefused, NoRefusalFound}
    ensures forall i | 0 <= i < |Groups(turns)| :: Unclaimed(b, Groups(turns)[i])
    ensures turns[|turns| - 1].Seen? && turns[|turns| - 1].group.request.None?
  {
    NobodyIff(b, Groups(turns));
  }

  /** Every run keeps the site it was admitted for. */
  ghost predicate KeepTargets(gs: seq<Group>) {
    forall i, j | 0 <= i < |gs| && 0 <= j < |gs| :: SameTarget(gs[i], gs[j])
  }

  predicate SameTarget(g: Group, h: Group) {
    g.block.Some? && h.block.Some? && g.block.value.runId == h.block.value.runId ==>
      g.block.value.targetSite == h.block.value.targetSite
  }

  /** With every run keeping its site, a new run that is reported targets the requested one. */
  lemma {:induction false} ReportedRunTargetsSite(over: Group, site: string, turns: seq<Turn>, v: Verdict)
    requires OwnResult(over, site, turns, v) && KeepTargets(Groups(turns))
    ensures var g := turns[|turns| - 1].group;
            g.block.Some? && (g.block.value.targetSite == site || (Joins(over, site) && Shows(over, g.block.value.runId)))
  {
    var k: nat, m: nat, id :| OwnResultOf(over, site, turns, v, k, m, id);
    var gs := Groups(turns);
    assert gs[|gs| - 1] == turns[|turns| - 1].group;
    assert SameTarget(gs[m], gs[|gs| - 1]);
    assert Shows(gs[m], id);
  }

  // ----------------------------------------------- operators without run names

  /**
   The exception: a run without a runId is followed whatever site it targets,
   and from one such run to the next. The request for site "b" is answered
   with the success of a later run for site "a".
   */
  lemma {:induction false} LegacyRunOfAnotherSite() returns (turns: seq<Turn>, b: Baseline)
    ensures b == NewBaseline(Group({"a", "b"}, None, None, None), "b")
    ensures |turns| == 2 && Answer(b, turns[..1]) == None && Answer(b, turns) == Some(Ended(RunSucceeded))
    ensures forall i | 0 <= i < 2 :: turns[i].Seen? && turns[i].group.block.Some? && turns[i].group.block.value.targetSite == "a"
    ensures turns[0].group.block.value.startTime != turns[1].group.block.value.startTime
  {
    var g0 := Group({"a", "b"}, None, Some(Block("", "a", Working("Promoting"), 1, None)), None);
    var g1 := Group({"a", "b"}, None, Some(Block("", "a", Succeeded, 2, None)), None);
    b := NewBaseline(Group({"a", "b"}, None, None, None), "b");
    turns := [Seen(g0, 0, None, false), Seen(g1, 2, None, false)];
    assert turns[..1] == [turns[0]];
    assert Groups([]) == [];
    assert Groups(turns[..1]) == [g0];
    assert Groups(turns) == [g0, g1];
    assert [g0, g1][..1] == [g0];
    assert TrackOf(b, []) == Nobody;
    assert TrackOf(b, [g0]) == Legacy;
    assert TrackOf(b, [g0, g1]) == Legacy;
  }

  /** Where the operator names every run it writes, that exception never arises. */
  lemma {:induction false} NamedRunsNeverLegacy(b: Baseline, gs: seq<Group>)
    requires forall i | 0 <= i < |gs| :: gs[i].block.Some? ==> gs[i].block.value.runId != ""
    ensures TrackOf(b, gs) != Legacy
  {
    FollowsLegacyIff(b, gs);
  }
}
