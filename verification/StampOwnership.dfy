/**
 Safety of the ownership protocol over every interleaving, and what abandoned
 cleanup may conclude from its verdicts.
 */
module StampOwnership {
  import opened Wrappers
  import opened BackupStamp
  import opened StampProtocol

  /** A backup's own move from one phase to another, given what the new phase claims. */
  lemma MoveKeepsInv(s: State, u: Uid, p: Phase)
    requires InvBut(s, u) && u in s.backups
    requires !s.backups[u].phase.Gone?
    requires PhaseInv(s.stamp, s.objects, u, s.backups[u].(phase := p))
    ensures Inv(s.At(u, p))
  {
    var t := s.At(u, p);
    assert t.backups.Keys == s.backups.Keys;
    forall v | v in t.backups
      ensures PhaseInv(t.stamp, t.objects, v, t.backups[v])
    {
    }
    assert NamesUnique(t);
  }

  /** A backup of u's namespace and name other than u is gone. */
  lemma AbandonedOwnerGone(s: State, u: Uid, desired: Stamp)
    requires Inv(s) && u in s.backups && !s.backups[u].phase.Gone?
    requires s.stamp.Some? && AbandonedStampOf(s.stamp.value, desired)
    requires desired.Identity() == s.backups[u].template
    ensures s.stamp.value.backup.uid in s.backups && s.backups[s.stamp.value.backup.uid].phase.Gone?
  {
    var w := s.stamp.value.backup.uid;
    assert s.backups[w].template.backup == s.stamp.value.backup;
    assert desired.backup == s.backups[u].template.backup;
  }

  /** Nobody but u relies on a stamp that u may remove: it names u, or a gone backup of u's name. */
  lemma StampRemovable(s: State, u: Uid)
    requires Inv(s) && u in s.backups && !s.backups[u].phase.Gone?
    requires s.stamp.Some? && SameName(s.stamp.value.backup, s.backups[u].template.backup)
    requires s.stamp.value.backup.uid == u || s.backups[s.stamp.value.backup.uid].phase.Gone?
    requires s.objects == map[]
    ensures InvBut(s.(stamp := None), u)
  {
    var t := s.(stamp := None);
    forall v | v in t.backups && v != u
      ensures PhaseInv(t.stamp, t.objects, v, t.backups[v])
    {
      assert PhaseInv(s.stamp, s.objects, v, s.backups[v]);
      assert NamesUnique(s);
    }
  }

  lemma NothingWhileCreating(s: State, u: Uid, desired: Stamp)
    requires Inv(s) && s.In(u, Creating(desired)) && s.stamp.None?
    ensures s.objects == map[]
  {
    assert s.objects.Keys == {};
  }

  /** An atomic create lands on a location that holds nothing. */
  lemma CreateKeepsOthers(s: State, u: Uid, desired: Stamp)
    requires Inv(s) && s.In(u, Creating(desired)) && s.stamp.None?
    ensures s.objects == map[]
    ensures InvBut(s.(stamp := Some(desired)), u)
  {
    NothingWhileCreating(s, u, desired);
    assert desired.backup.uid == u;
    var t := s.(stamp := Some(desired));
    forall v | v in t.backups && v != u
      ensures PhaseInv(t.stamp, t.objects, v, t.backups[v])
    {
      assert PhaseInv(s.stamp, s.objects, v, s.backups[v]);
    }
  }

  /** u's own stamp gains its end: no other backup relies on the stamp's bytes. */
  lemma EndKeepsOthers(s: State, u: Uid, next: Stamp)
    requires Inv(s) && u in s.backups && !s.backups[u].phase.Gone?
    requires Names(s.stamp, u) && next.Identity() == s.stamp.value.Identity() && next.Valid()
    ensures InvBut(s.(stamp := Some(next)), u)
  {
    var t := s.(stamp := Some(next));
    assert next.backup == s.stamp.value.backup;
    forall v | v in t.backups && v != u
      ensures PhaseInv(t.stamp, t.objects, v, t.backups[v])
    {
      assert PhaseInv(s.stamp, s.objects, v, s.backups[v]);
      assert NamesUnique(s);
    }
  }

  /** A dump writes only where its own stamp is. */
  lemma WriteKeepsInv(s: State, u: Uid, key: string)
    requires Inv(s) && u in s.backups && s.backups[u].phase.Dumping?
    ensures Inv(s.(objects := s.objects[key := By(u)]))
  {
    var t := s.(objects := s.objects[key := By(u)]);
    assert s.stamp.value.backup.uid == u;
    forall v | v in t.backups
      ensures PhaseInv(t.stamp, t.objects, v, t.backups[v])
    {
      assert PhaseInv(s.stamp, s.objects, v, s.backups[v]);
      assert NamesUnique(s);
    }
  }

  /** Objects may disappear at any time. */
  lemma ShrinkKeepsInv(s: State, key: string)
    requires Inv(s)
    ensures Inv(s.(objects := s.objects - {key}))
  {
    var t := s.(objects := s.objects - {key});
    forall v | v in t.backups
      ensures PhaseInv(t.stamp, t.objects, v, t.backups[v])
    {
      assert PhaseInv(s.stamp, s.objects, v, s.backups[v]);
      assert s.objects == map[] ==> t.objects == map[];
    }
  }

  lemma {:induction false} ReadBackMove(s: State, u: Uid, e: Event)
    requires s.stamp.Some? ==> s.stamp.value.Valid()
    requires u in s.backups && e.ReadBack? && ApplyStart(s, u, e).Some?
    requires PhaseInv(s.stamp, s.objects, u, s.backups[u])
    ensures var t := ApplyStart(s, u, e).value;
            && t.stamp == s.stamp && t.objects == s.objects
            && u in t.backups && t == s.At(u, t.backups[u].phase)
            && PhaseInv(s.stamp, s.objects, u, s.backups[u].(phase := t.backups[u].phase))
  {
    var t := ApplyStart(s, u, e).value;
    if t == s { assert s.At(u, s.backups[u].phase) == s; }
  }

  /** A start event that leaves the location alone only moves u, to a phase whose claim holds. */
  lemma StartMove(s: State, u: Uid, e: Event)
    requires s.stamp.Some? ==> s.stamp.value.Valid()
    requires u in s.backups && ApplyStart(s, u, e).Some?
    requires s.backups[u].template == s.backups[u].template.Identity()
    requires PhaseInv(s.stamp, s.objects, u, s.backups[u])
    requires !e.DeleteAbandoned? && !e.PutIfAbsent?
    ensures var t := ApplyStart(s, u, e).value;
            && t.stamp == s.stamp && t.objects == s.objects
            && u in t.backups && t == s.At(u, t.backups[u].phase)
            && PhaseInv(s.stamp, s.objects, u, s.backups[u].(phase := t.backups[u].phase))
  {
    if e.ReadBack? {
      ReadBackMove(s, u, e);
    } else {
      var t := ApplyStart(s, u, e).value;
      if t == s { assert s.At(u, s.backups[u].phase) == s; }
    }
  }

  lemma StartKeepsInv(s: State, u: Uid, e: Event)
    requires Inv(s) && u in s.backups && ApplyStart(s, u, e).Some?
    ensures Inv(ApplyStart(s, u, e).value)
  {
    var t := ApplyStart(s, u, e).value;
    var b := s.backups[u];
    assert PhaseInv(s.stamp, s.objects, u, b);
    if e.DeleteAbandoned? {
      AbandonedOwnerGone(s, u, b.phase.desired);
      if e.lands { StampRemovable(s, u); }
      MoveKeepsInv(if e.lands then s.(stamp := None) else s, u, t.backups[u].phase);
    } else if e.PutIfAbsent? {
      if e.lands { CreateKeepsOthers(s, u, b.phase.desired); }
      MoveKeepsInv(if e.lands then s.(stamp := Some(b.phase.desired)) else s, u, t.backups[u].phase);
    } else {
      StartMove(s, u, e);
      MoveKeepsInv(s, u, t.backups[u].phase);
    }
  }

  lemma DumpMove(s: State, u: Uid, e: Event)
    requires s.stamp.Some? ==> s.stamp.value.Valid()
    requires u in s.backups && ApplyDump(s, u, e).Some?
    requires s.backups[u].template == s.backups[u].template.Identity()
    requires PhaseInv(s.stamp, s.objects, u, s.backups[u])
    requires !e.WriteObject? && !e.PutEnd?
    ensures var t := ApplyDump(s, u, e).value;
            && t.stamp == s.stamp && t.objects == s.objects
            && u in t.backups && t == s.At(u, t.backups[u].phase)
            && PhaseInv(s.stamp, s.objects, u, s.backups[u].(phase := t.backups[u].phase))
  {
    var t := ApplyDump(s, u, e).value;
    if t == s { assert s.At(u, s.backups[u].phase) == s; }
  }

  lemma PutEndKeepsInv(s: State, u: Uid)
    requires Inv(s) && u in s.backups && s.backups[u].phase.Finishing?
    ensures Inv(s.(stamp := Some(s.backups[u].phase.next)))
  {
    var b := s.backups[u];
    var t := s.(stamp := Some(b.phase.next));
    assert PhaseInv(s.stamp, s.objects, u, b);
    assert b.phase.prev.backup == b.template.backup && b.phase.next.backup == b.template.backup;
    EndKeepsOthers(s, u, b.phase.next);
    MoveKeepsInv(t, u, b.phase);
    assert t.At(u, b.phase) == t;
  }

  lemma DumpKeepsInv(s: State, u: Uid, e: Event)
    requires Inv(s) && u in s.backups && ApplyDump(s, u, e).Some?
    ensures Inv(ApplyDump(s, u, e).value)
  {
    if e.WriteObject? {
      WriteKeepsInv(s, u, e.key);
    } else if e.PutEnd? {
      if ApplyDump(s, u, e).value != s { PutEndKeepsInv(s, u); }
    } else {
      DumpMove(s, u, e);
      MoveKeepsInv(s, u, ApplyDump(s, u, e).value.backups[u].phase);
    }
  }

  lemma CleanupMove(s: State, u: Uid, e: Event)
    requires u in s.backups && ApplyCleanup(s, u, e).Some?
    requires Ownership(s) && PhaseInv(s.stamp, s.objects, u, s.backups[u])
    requires !e.CleanupDelete? && !e.CleanupDeleteStamp?
    ensures var t := ApplyCleanup(s, u, e).value;
            && t.stamp == s.stamp && t.objects == s.objects
            && u in t.backups && t == s.At(u, t.backups[u].phase)
            && PhaseInv(s.stamp, s.objects, u, s.backups[u].(phase := t.backups[u].phase))
  {
    var t := ApplyCleanup(s, u, e).value;
    if t == s { assert s.At(u, s.backups[u].phase) == s; }
  }

  lemma CleanupKeepsInv(s: State, u: Uid, e: Event)
    requires Inv(s) && u in s.backups && ApplyCleanup(s, u, e).Some?
    ensures Inv(ApplyCleanup(s, u, e).value)
  {
    var t := ApplyCleanup(s, u, e).value;
    assert PhaseInv(s.stamp, s.objects, u, s.backups[u]);
    if e.CleanupDelete? {
      if e.lands { ShrinkKeepsInv(s, e.key); }
      MoveKeepsInv(if e.lands then s.(objects := s.objects - {e.key}) else s, u, t.backups[u].phase);
    } else if e.CleanupDeleteStamp? {
      if e.lands { StampRemovable(s, u); }
      MoveKeepsInv(if e.lands then s.(stamp := None) else s, u, t.backups[u].phase);
    } else {
      CleanupMove(s, u, e);
      MoveKeepsInv(s, u, t.backups[u].phase);
    }
  }

  lemma CreateBackupKeepsInv(s: State, u: Uid, template: Stamp)
    requires Inv(s) && ApplyEnvironment(s, u, Create(template)).Some?
    ensures Inv(ApplyEnvironment(s, u, Create(template)).value)
  {
    var t := ApplyEnvironment(s, u, Create(template)).value;
    forall v | v in t.backups
      ensures PhaseInv(t.stamp, t.objects, v, t.backups[v])
    {
      if v != u { assert t.backups[v] == s.backups[v]; }
    }
    forall v, w | v in t.backups && w in t.backups && v != w
      ensures t.backups[v].phase.Gone? || t.backups[w].phase.Gone? || !SameName(t.backups[v].template.backup, t.backups[w].template.backup)
    {
    }
  }

  lemma StepKeepsInv(s: State, u: Uid, e: Event)
    requires Inv(s) && Apply(s, u, e).Some?
    ensures Inv(Apply(s, u, e).value)
  {
    var t := Apply(s, u, e).value;
    if e.Create? {
      CreateBackupKeepsInv(s, u, e.template);
    } else if e.ForeignVanish? {
      ShrinkKeepsInv(s, e.key);
    } else if EnvironmentEvent(e) {
      MoveKeepsInv(s, u, t.backups[u].phase);
    } else if CleanupEvent(e) {
      CleanupKeepsInv(s, u, e);
    } else if DumpEvent(e) {
      DumpKeepsInv(s, u, e);
    } else {
      StartKeepsInv(s, u, e);
    }
  }

  lemma {:induction false} RunKeepsInv(s: State, actions: seq<Action>)
    requires Inv(s) && Run(s, actions).Some?
    ensures Inv(Run(s, actions).value)
    decreases |actions|
  {
    if actions != [] {
      StepKeepsInv(s, actions[0].0, actions[0].1);
      RunKeepsInv(Apply(s, actions[0].0, actions[0].1).value, actions[1..]);
    }
  }

  lemma ReachableInv(s: State)
    requires Reachable(s)
    ensures Inv(s)
  {
    var init, actions :| Initial(init) && Run(init, actions) == Some(s);
    RunKeepsInv(init, actions);
  }

  /** A backup whose start step succeeded and whose Job has not ended. */
  predicate PastStart(p: Phase) {
    p.Started? || p.Dumping? || p.Finishing? || p.Succeeded?
  }

  /**
   In every reachable state the stamp tells whose objects the location holds:
   with a stamp all of them are its backup's, without one none is any backup's;
   and every backup past its start step still owns the stamp.
   */
  lemma OwnershipInEveryState(s: State)
    requires Reachable(s)
    ensures s.stamp.Some? ==> forall k | k in s.objects :: s.objects[k] == By(s.stamp.value.backup.uid)
    ensures s.stamp.None? ==> forall k | k in s.objects :: s.objects[k] == Foreign
    ensures forall u | u in s.backups && PastStart(s.backups[u].phase) ::
              s.stamp.Some? && s.stamp.value.Identity() == s.backups[u].template && s.stamp.value.backup.uid == u
    ensures forall u, v | u in s.backups && v in s.backups && PastStart(s.backups[u].phase) && PastStart(s.backups[v].phase) :: u == v
  {
    ReachableInv(s);
    forall u | u in s.backups && PastStart(s.backups[u].phase)
      ensures s.stamp.Some? && s.stamp.value.Identity() == s.backups[u].template && s.stamp.value.backup.uid == u
    {
      assert PhaseInv(s.stamp, s.objects, u, s.backups[u]);
      assert s.stamp.value.backup == s.stamp.value.Identity().backup;
    }
  }

  /** A step of u moves only u, and an ended backup stays ended. */
  predicate Framed(s: State, t: State, u: Uid, w: Uid)
    requires w in s.backups
  {
    && w in t.backups && t.backups[w].template == s.backups[w].template
    && (w != u ==> t.backups[w] == s.backups[w])
    && (s.backups[w].phase.Over() ==> t.backups[w].phase.Over())
  }

  lemma StartFrame(s: State, u: Uid, e: Event, w: Uid)
    requires u in s.backups && w in s.backups && ApplyStart(s, u, e).Some?
    ensures Framed(s, ApplyStart(s, u, e).value, u, w)
  {
  }

  lemma DumpFrame(s: State, u: Uid, e: Event, w: Uid)
    requires u in s.backups && w in s.backups && ApplyDump(s, u, e).Some?
    ensures Framed(s, ApplyDump(s, u, e).value, u, w)
  {
  }

  lemma StepFrame(s: State, u: Uid, e: Event, w: Uid)
    requires Apply(s, u, e).Some? && w in s.backups
    ensures Framed(s, Apply(s, u, e).value, u, w)
  {
    if !EnvironmentEvent(e) && !CleanupEvent(e) {
      if DumpEvent(e) { DumpFrame(s, u, e, w); } else { StartFrame(s, u, e, w); }
    }
  }

  /** The only events that touch the objects, and what each does. */
  lemma ObjectsFrame(s: State, u: Uid, e: Event)
    requires Apply(s, u, e).Some?
    ensures var t := Apply(s, u, e).value;
            match e
            case WriteObject(key) => u in s.backups && s.backups[u].phase.Dumping? && t.objects == s.objects[key := By(u)]
            case CleanupDelete(key, lands, _) =>
              u in s.backups && s.backups[u].phase.Deleting? && (t.objects == s.objects || t.objects == s.objects - {key})
            case ForeignVanish(key) => key in s.objects && s.objects[key] == Foreign && t.objects == s.objects - {key}
            case _ => t.objects == s.objects
  {
  }

  /** The only events that touch the stamp, and what each does. */
  lemma StampFrame(s: State, u: Uid, e: Event)
    requires Apply(s, u, e).Some?
    ensures var t := Apply(s, u, e).value;
            match e
            case DeleteAbandoned(_, _) => u in s.backups && s.backups[u].phase.Removing? && (t.stamp == s.stamp || t.stamp == None)
            case PutIfAbsent(_, _) =>
              && u in s.backups && s.backups[u].phase.Creating?
              && (t.stamp == s.stamp || (s.stamp.None? && t.stamp == Some(s.backups[u].phase.desired)))
            case PutEnd(_) =>
              && u in s.backups && s.backups[u].phase.Finishing?
              && (t.stamp == s.stamp || t.stamp == Some(s.backups[u].phase.next))
            case CleanupDeleteStamp(_, _) => u in s.backups && s.backups[u].phase.Unstamping? && (t.stamp == s.stamp || t.stamp == None)
            case _ => t.stamp == s.stamp
  {
  }

  /**
   What one step may do to the objects: a dump adds its own, a foreign object
   may expire, and abandoned cleanup deletes only what its own backup wrote.
   No step ever changes who wrote an object that stays.
   */
  lemma OnlyOwnObjectsDeleted(s: State, u: Uid, e: Event, k: string)
    requires Reachable(s) && Apply(s, u, e).Some?
    ensures var t := Apply(s, u, e).value;
            && (k in s.objects && k !in t.objects ==>
                  (e.CleanupDelete? && s.objects[k] == By(u)) || (e.ForeignVanish? && s.objects[k] == Foreign))
            && (k in s.objects && k in t.objects ==> t.objects[k] == s.objects[k])
            && (k !in s.objects && k in t.objects ==> t.objects[k] == By(u) && Names(s.stamp, u))
  {
    ReachableInv(s);
    ObjectsFrame(s, u, e);
    if u in s.backups { assert PhaseInv(s.stamp, s.objects, u, s.backups[u]); }
  }

  // ------------------------------------------------------- cleanup verdicts

  lemma OverStep(s: State, v: Uid, u: Uid, e: Event)
    requires Inv(s) && u in s.backups && s.backups[u].phase.Over() && Apply(s, v, e).Some?
    ensures var t := Apply(s, v, e).value;
            && u in t.backups && t.backups[u].phase.Over()
            && (NoneBy(s.objects, u) ==> NoneBy(t.objects, u))
            && (!Names(s.stamp, u) ==> !Names(t.stamp, u))
  {
    StepFrame(s, v, e, u);
    if NoneBy(s.objects, u) { OverObjects(s, v, u, e); }
    if !Names(s.stamp, u) { OverStamp(s, v, u, e); }
  }

  lemma {:induction false} OverObjects(s: State, v: Uid, u: Uid, e: Event)
    requires u in s.backups && s.backups[u].phase.Over() && Apply(s, v, e).Some? && NoneBy(s.objects, u)
    ensures NoneBy(Apply(s, v, e).value.objects, u)
  {
    ObjectsFrame(s, v, e);
  }

  lemma {:induction false} OverStamp(s: State, v: Uid, u: Uid, e: Event)
    requires Inv(s) && u in s.backups && s.backups[u].phase.Over() && Apply(s, v, e).Some? && !Names(s.stamp, u)
    ensures !Names(Apply(s, v, e).value.stamp, u)
  {
    StampFrame(s, v, e);
    if v in s.backups { assert PhaseInv(s.stamp, s.objects, v, s.backups[v]); }
  }

  /** Once a Job is over its backup writes neither objects nor a stamp again. */
  lemma {:induction false} OverForever(s: State, u: Uid, actions: seq<Action>)
    requires Inv(s) && u in s.backups && s.backups[u].phase.Over() && Run(s, actions).Some?
    ensures var t := Run(s, actions).value;
            && u in t.backups && t.backups[u].phase.Over()
            && (NoneBy(s.objects, u) ==> NoneBy(t.objects, u))
            && (!Names(s.stamp, u) ==> !Names(t.stamp, u))
    decreases |actions|
  {
    if actions != [] {
      var (v, e) := actions[0];
      OverStep(s, v, u, e);
      StepKeepsInv(s, v, e);
      OverForever(Apply(s, v, e).value, u, actions[1..]);
    }
  }

  /**
   A verdict of abandoned cleanup is final: from the state that reports it, no
   run brings back an object of that backup, whichever of the three ways the
   verdict was reached and wherever earlier cleanup pods crashed.
   */
  lemma VerdictMeansNothingRemains(s: State, u: Uid, actions: seq<Action>)
    requires Reachable(s) && u in s.backups && s.backups[u].phase.Done?
    requires Run(s, actions).Some?
    ensures NoneBy(Run(s, actions).value.objects, u)
  {
    ReachableInv(s);
    assert PhaseInv(s.stamp, s.objects, u, s.backups[u]);
    OverForever(s, u, actions);
  }

  /** The dump goes before the stamp: while any object of u remains, so does the stamp that proves it. */
  lemma ProofOutlivesDump(s: State, u: Uid, k: string)
    requires Reachable(s) && k in s.objects && s.objects[k] == By(u)
    ensures Names(s.stamp, u)
  {
    ReachableInv(s);
  }

  // --------------------------------------------------------- stamp lifecycle

  /** How u's stamp in s relates to a later state t. */
  predicate StampKept(s: State, t: State, u: Uid) {
    Names(s.stamp, u) ==>
      || (&& Names(t.stamp, u)
          && t.stamp.value.(end := None) == s.stamp.value.(end := None)
          && (s.stamp.value.Complete() ==> t.stamp == s.stamp))
      || (u in t.backups && t.backups[u].phase.Over() && !Names(t.stamp, u))
  }

  lemma StampKeptStep(s: State, v: Uid, u: Uid, e: Event)
    requires Inv(s) && Apply(s, v, e).Some?
    ensures StampKept(s, Apply(s, v, e).value, u)
  {
    StampFrame(s, v, e);
    if v in s.backups {
      assert PhaseInv(s.stamp, s.objects, v, s.backups[v]);
      StepFrame(s, v, e, v);
      if s.backups[v].phase.Removing? && e.DeleteAbandoned? {
        AbandonedOwnerGone(s, v, s.backups[v].phase.desired);
      }
    }
  }

  /**
   Over every run: a backup's stamp keeps its start, identity and creation time
   for as long as it is stored, a finished stamp keeps all of its bytes, and a
   stamp once removed is never written again for that backup.
   */
  lemma {:induction false} StampLifecycle(s: State, u: Uid, actions: seq<Action>)
    requires Inv(s) && Run(s, actions).Some?
    ensures StampKept(s, Run(s, actions).value, u)
    decreases |actions|
  {
    if actions != [] {
      var (v, e) := actions[0];
      var s1 := Apply(s, v, e).value;
      StampKeptStep(s, v, u, e);
      StepKeepsInv(s, v, e);
      StampLifecycle(s1, u, actions[1..]);
      if u in s1.backups && s1.backups[u].phase.Over() {
        OverForever(s1, u, actions[1..]);
      }
    }
  }

  /** Only its own backup's cleanup removes a finished stamp, and nothing rewrites one. */
  lemma FinishedStampOnlyCleanedUp(s: State, v: Uid, e: Event)
    requires Reachable(s) && Apply(s, v, e).Some?
    requires s.stamp.Some? && s.stamp.value.Complete() && Apply(s, v, e).value.stamp != s.stamp
    ensures e.CleanupDeleteStamp? && v == s.stamp.value.backup.uid && s.objects == map[]
    ensures Apply(s, v, e).value.stamp == None
  {
    ReachableInv(s);
    StampFrame(s, v, e);
    if v in s.backups { assert PhaseInv(s.stamp, s.objects, v, s.backups[v]); }
  }

  // ------------------------------------------------------- when a start works

  /** The call u's pod makes next, answered by a store that neither fails nor loses responses. */
  function NextCall(s: State, u: Uid): (e: Option<Event>)
    requires u in s.backups
  {
    match s.backups[u].phase
    case Loading(_) => Some(Load(false))
    case Listing(_, _) => Some(ListLocation(false))
    case Removing(_, _) => Some(DeleteAbandoned(true, true))
    case Creating(_) => Some(PutIfAbsent(s.stamp.None?, if s.stamp.None? then Created else Exists))
    case ReadingBack(_, _) => Some(ReadBack(false, false))
    case _ => None
  }

  /** Up to n calls of u's start step, nobody else acting. */
  function AloneFrom(s: State, u: Uid, n: nat): (t: State)
    requires u in s.backups
    decreases n
  {
    if n == 0 || NextCall(s, u).None? then s
    else match Apply(s, u, NextCall(s, u).value)
      case Some(s1) => if u in s1.backups then AloneFrom(s1, u, n - 1) else s
      case None => s
  }

  /**
   The location is usable for desired: it holds its own unfinished stamp, or no
   object and no stamp but an unfinished one of an earlier backup of its name.
   */
  predicate Usable(s: State, desired: Stamp) {
    Resumes(s, desired) || (s.objects == map[] && (s.stamp.None? || Replaces(s.stamp.value, desired)))
  }

  predicate Resumes(s: State, desired: Stamp) {
    s.stamp.Some? && SameDump(s.stamp.value, desired) && s.stamp.value.end.None?
  }

  predicate Replaces(existing: Stamp, desired: Stamp) {
    && existing.end.None? && existing.backup.uid != desired.backup.uid
    && existing.backup.namespace == desired.backup.namespace && existing.backup.name == desired.backup.name
  }

  /**
   The start step, run without failures or rivals, succeeds exactly when the
   location is usable; it then holds the adopted or the new stamp. Otherwise
   the pod fails and the location is as it was.
   */
  lemma StartSucceedsIff(s: State, u: Uid, desired: Stamp)
    requires s.In(u, Loading(desired)) && !desired.Complete()
    ensures var t := AloneFrom(s, u, 5);
            && u in t.backups
            && (Usable(s, desired) <==> t.backups[u].phase.Started?)
            && (Usable(s, desired) ==> t.stamp == Some(if Resumes(s, desired) then s.stamp.value else desired))
            && (!Usable(s, desired) ==> t.backups[u].phase == Idle && t.stamp == s.stamp && t.objects == s.objects)
  {
    var s1 := Apply(s, u, Load(false)).value;
    assert AloneFrom(s, u, 5) == AloneFrom(s1, u, 4);
    if s1.backups[u].phase.Listing? {
      ListAlone(s1, u, desired, s1.backups[u].phase.abandoned);
    } else {
      assert NextCall(s1, u).None?;
    }
  }

  lemma ListAlone(s: State, u: Uid, desired: Stamp, abandoned: Option<Stamp>)
    requires s.In(u, Listing(desired, abandoned)) && (abandoned.None? ==> s.stamp.None?)
    ensures var t := AloneFrom(s, u, 4);
            if s.objects == map[] then t.In(u, Started(desired)) && t.stamp == Some(desired)
            else t == s.At(u, Idle)
  {
    var s1 := Apply(s, u, ListLocation(false)).value;
    assert AloneFrom(s, u, 4) == AloneFrom(s1, u, 3);
    if s1.backups[u].phase.Removing? {
      var s2 := Apply(s1, u, DeleteAbandoned(true, true)).value;
      assert AloneFrom(s1, u, 3) == AloneFrom(s2, u, 2);
      CreateAlone(s2, u, desired, 2);
    } else if s1.backups[u].phase.Creating? {
      CreateAlone(s1, u, desired, 3);
    } else {
      assert NextCall(s1, u).None?;
    }
  }

  lemma CreateAlone(s: State, u: Uid, desired: Stamp, n: nat)
    requires s.In(u, Creating(desired)) && s.stamp.None? && n >= 2
    ensures var t := AloneFrom(s, u, n); t.In(u, Started(desired)) && t.stamp == Some(desired)
  {
    var s1 := Apply(s, u, PutIfAbsent(true, Created)).value;
    assert AloneFrom(s, u, n) == AloneFrom(s1, u, n - 1);
    ReadBackAlone(s1, u, desired, n - 1);
  }

  lemma {:induction false} ReadBackAlone(s: State, u: Uid, desired: Stamp, n: nat)
    requires s.In(u, ReadingBack(desired, Created)) && s.stamp == Some(desired) && n >= 1
    ensures var t := AloneFrom(s, u, n); t.In(u, Started(desired)) && t.stamp == Some(desired)
  {
    var s1 := Apply(s, u, ReadBack(false, false)).value;
    assert AloneFrom(s, u, n) == AloneFrom(s1, u, n - 1);
    assert NextCall(s1, u).None?;
  }
}
