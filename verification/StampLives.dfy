/**
 What the steps of a backup achieve when nothing fails and no rival acts: when
 a Job begins, ends and is cleaned up, and whole lives from an empty cluster.
 */
module StampLives {
  import opened Wrappers
  import opened BackupStamp
  import opened StampProtocol
  import opened StampOwnership

  // ---------------------------------------------------------------- the Job begins

  /** A pod starts exactly when its stamp would be filled in; the stamp it wants is the template with the two times. */
  lemma {:induction false} PodStartsIff(s: State, u: Uid, start: Time, createdAt: Time)
    requires s.In(u, Idle)
    ensures var desired := s.backups[u].template.(start := Some(start), end := None, createdAt := Some(createdAt));
            Apply(s, u, StartPod(start, createdAt)) == if Filled(desired) then Some(s.At(u, Loading(desired))) else None
  {
  }

  /** The start step from its first call: exactly on a usable location, and else leaving all as it was. */
  lemma {:induction false} JobBeginsIff(s: State, u: Uid, start: Time, createdAt: Time)
    requires s.In(u, Idle)
    requires Filled(s.backups[u].template.(start := Some(start), end := None, createdAt := Some(createdAt)))
    ensures var desired := s.backups[u].template.(start := Some(start), end := None, createdAt := Some(createdAt));
            var t := AloneFrom(Apply(s, u, StartPod(start, createdAt)).value, u, 5);
            && u in t.backups
            && (Usable(s, desired) ==>
                  t.backups[u].phase.Started? && t.stamp == Some(if Resumes(s, desired) then s.stamp.value else desired))
            && (!Usable(s, desired) ==> t.backups[u].phase == Idle && t.stamp == s.stamp && t.objects == s.objects)
  {
    var desired := s.backups[u].template.(start := Some(start), end := None, createdAt := Some(createdAt));
    PodStartsIff(s, u, start, createdAt);
    StartSucceedsIff(s.At(u, Loading(desired)), u, desired);
  }

  /** A started backup goes on to its dump exactly when its own unfinished stamp is there. */
  lemma {:induction false} DumpBeginsIff(s: State, u: Uid, own: Stamp)
    requires s.In(u, Started(own))
    ensures Apply(s, u, CheckOwner(false)) ==
            Some(s.At(u, if s.stamp.Some? && SameDump(s.stamp.value, s.backups[u].template) && s.stamp.value.end.None?
                         then Dumping(s.stamp.value) else Idle))
  {
  }

  // ------------------------------------------------------------------ the Job ends

  /** The end step: load, write, read back, with a store that neither fails nor loses responses. */
  function EndAlone(s: State, u: Uid, end: Time): (t: State)
    requires u in s.backups
  {
    match Apply(s, u, LoadForEnd(end, false))
    case None => s
    case Some(s1) =>
      match Apply(s1, u, PutEnd(true))
      case None => s1
      case Some(s2) => match Apply(s2, u, ReadEnd(false, false)) case None => s2 case Some(s3) => s3
  }

  /** From a running dump the end step succeeds exactly when the end is no earlier than the start; else the stamp stays unfinished. */
  lemma {:induction false} EndSucceedsIff(s: State, u: Uid, own: Stamp, end: Time)
    requires Reachable(s) && s.In(u, Dumping(own))
    ensures own.start.Some? && s.stamp == Some(own) && own.end.None?
    ensures var t := EndAlone(s, u, end);
            if own.start.value <= end
            then t.In(u, Succeeded(own.(end := Some(end)))) && t.stamp == Some(own.(end := Some(end))) && t.objects == s.objects
            else t == s.At(u, Idle)
  {
    ReachableInv(s);
    assert PhaseInv(s.stamp, s.objects, u, s.backups[u]);
    EndRefusedIff(own, end);
    if own.start.value <= end {
      var s1, s2, s3 := EndWrites(s, u, own, end);
    }
  }

  lemma {:induction false} EndWrites(s: State, u: Uid, own: Stamp, end: Time) returns (s1: State, s2: State, s3: State)
    requires s.In(u, Dumping(own)) && s.stamp == Some(own) && own.Identity() == s.backups[u].template && own.end.None?
    requires CheckStampEndRewrite(own, own.(end := Some(end))).Ok?
    ensures Apply(s, u, LoadForEnd(end, false)) == Some(s1) && Apply(s1, u, PutEnd(true)) == Some(s2)
    ensures Apply(s2, u, ReadEnd(false, false)) == Some(s3) && EndAlone(s, u, end) == s3
    ensures s3.In(u, Succeeded(own.(end := Some(end)))) && s3.stamp == Some(own.(end := Some(end))) && s3.objects == s.objects
  {
    var next := own.(end := Some(end));
    assert own.Identity().Identity() == own.Identity();
    s1 := s.At(u, Finishing(own, next));
    s2 := s1.(stamp := Some(next));
    s3 := s2.At(u, Succeeded(next));
  }

  // -------------------------------------------------------------- the dump's writes

  /** The dump writes these keys, in any order. */
  function Writes(u: Uid, keys: seq<string>): (actions: seq<Action>)
  {
    if keys == [] then [] else [(u, WriteObject(keys[0]))] + Writes(u, keys[1..])
  }

  lemma {:induction false} DumpWrites(s: State, u: Uid, keys: seq<string>)
    requires u in s.backups && s.backups[u].phase.Dumping?
    ensures var r := Run(s, Writes(u, keys));
            && r.Some? && r.value.stamp == s.stamp && r.value.backups == s.backups
            && (forall k :: k in r.value.objects <==> k in s.objects || k in keys)
            && (forall k | k in keys :: r.value.objects[k] == By(u))
            && (forall k | k in s.objects && k !in keys :: r.value.objects[k] == s.objects[k])
    decreases |keys|
  {
    if keys != [] {
      var s1 := s.(objects := s.objects[keys[0] := By(u)]);
      var w := Writes(u, keys);
      assert w[0] == (u, WriteObject(keys[0])) && w[1..] == Writes(u, keys[1..]);
      assert Apply(s, u, WriteObject(keys[0])) == Some(s1);
      DumpWrites(s1, u, keys[1..]);
      assert keys == [keys[0]] + keys[1..];
    }
  }

  // ------------------------------------------------------------------- the cleanup

  /** The deletes of every key that is there, each landing and answered. */
  function Deletes(s: State, u: Uid, todo: set<string>): (t: State)
    requires s.In(u, Deleting(todo, false))
  {
    s.(objects := map k | k in s.objects && k !in todo :: s.objects[k]).At(u, Deleting({}, false))
  }

  /** Deleting in any order gets there. */
  lemma {:induction false} DeletesRun(s: State, u: Uid, todo: set<string>) returns (actions: seq<Action>)
    requires s.In(u, Deleting(todo, false))
    ensures Run(s, actions) == Some(Deletes(s, u, todo))
    ensures forall i | 0 <= i < |actions| :: actions[i].0 == u && actions[i].1.CleanupDelete?
    decreases todo
  {
    if todo == {} {
      actions := [];
      assert Deletes(s, u, todo) == s;
    } else {
      var k :| k in todo;
      var s1 := DeleteOne(s, u, todo, k);
      var rest := DeletesRun(s1, u, todo - {k});
      actions := [(u, CleanupDelete(k, true, true))] + rest;
      assert actions[1..] == rest;
    }
  }

  lemma {:induction false} DeleteOne(s: State, u: Uid, todo: set<string>, k: string) returns (s1: State)
    requires s.In(u, Deleting(todo, false)) && k in todo
    ensures Apply(s, u, CleanupDelete(k, true, true)) == Some(s1) && s1.In(u, Deleting(todo - {k}, false))
    ensures Deletes(s1, u, todo - {k}) == Deletes(s, u, todo)
  {
    s1 := s.(objects := s.objects - {k}).At(u, Deleting(todo - {k}, false));
    AtTwice(s, u, Deleting(todo - {k}, false), Deleting({}, false));
  }

  /** What abandoned cleanup does to the location, and what it concludes. */
  function CleanedUp(s: State, u: Uid): (t: State)
    requires u in s.backups
  {
    if s.stamp.Some? && s.stamp.value.backup.uid == u then s.(stamp := None, objects := map[]).At(u, Done(CleanupComplete))
    else if s.stamp.None? && s.objects != map[] then s.At(u, Done(CleanupSkipped))
    else s.At(u, Done(CleanupComplete))
  }

  /**
   Abandoned cleanup without failures or rivals always gets to its verdict: a
   location whose stamp names the backup ends up empty; any other is left as it
   is, and is complete unless it holds objects and no stamp.
   */
  lemma {:induction false} CleanupCompletes(s: State, u: Uid) returns (actions: seq<Action>)
    requires s.In(u, Stopped)
    ensures Run(s, actions) == Some(CleanedUp(s, u))
    ensures forall i | 0 <= i < |actions| :: actions[i].0 == u && CleanupEvent(actions[i].1)
  {
    if s.stamp.None? {
      actions := [(u, CleanupGet(false)), (u, CleanupListUnstamped(false))];
      AtTwice(s, u, CheckingUnstamped, CleanedUp(s, u).backups[u].phase);
      RunTwo(s, actions[0], s.At(u, CheckingUnstamped), actions[1], CleanedUp(s, u));
    } else if s.stamp.value.backup.uid != u {
      actions := [(u, CleanupGet(false))];
      assert actions[1..] == [];
    } else {
      actions := OwnCleanup(s, u);
    }
  }

  lemma {:induction false} AtTwice(s: State, u: Uid, p: Phase, q: Phase)
    requires u in s.backups
    ensures s.At(u, p).At(u, q) == s.At(u, q)
  {
    assert s.At(u, p).At(u, q).backups == s.At(u, q).backups;
  }

  lemma {:induction false} RunTwo(s: State, a: Action, s1: State, b: Action, s2: State)
    requires Apply(s, a.0, a.1) == Some(s1) && Apply(s1, b.0, b.1) == Some(s2)
    ensures Run(s, [a, b]) == Some(s2)
  {
    assert [a, b][1..] == [b] && [b][1..] == [];
    assert Run(s2, []) == Some(s2) && Run(s1, [b]) == Some(s2);
  }

  lemma {:induction false} OwnCleanup(s: State, u: Uid) returns (actions: seq<Action>)
    requires s.In(u, Stopped) && s.stamp.Some? && s.stamp.value.backup.uid == u
    ensures Run(s, actions) == Some(CleanedUp(s, u))
    ensures forall i | 0 <= i < |actions| :: actions[i].0 == u && CleanupEvent(actions[i].1)
  {
    var before, emptied := EmptyRun(s, u);
    var after := UnstampRun(emptied, u);
    RunJoins(s, before, after);
    actions := before + after;
    assert emptied.(stamp := None).At(u, Done(CleanupComplete)).backups == CleanedUp(s, u).backups;
  }

  /** The stamp is read, all objects are listed, and they are deleted one after another. */
  lemma {:induction false} EmptyRun(s: State, u: Uid) returns (actions: seq<Action>, emptied: State)
    requires s.In(u, Stopped) && s.stamp.Some? && s.stamp.value.backup.uid == u
    ensures emptied == s.At(u, Deleting({}, false)).(objects := map[]) && Run(s, actions) == Some(emptied)
    ensures forall i | 0 <= i < |actions| :: actions[i].0 == u && CleanupEvent(actions[i].1)
  {
    var before := ListRun(s, u);
    var keys := s.objects.Keys;
    var listed := s.At(u, Deleting(keys, false));
    var deletes := DeletesRun(listed, u, keys);
    emptied := Deletes(listed, u, keys);
    AtTwice(s, u, Deleting(keys, false), Deleting({}, false));
    RunJoins(s, before, deletes);
    actions := before + deletes;
  }

  lemma {:induction false} ListRun(s: State, u: Uid) returns (actions: seq<Action>)
    requires s.In(u, Stopped) && s.stamp.Some? && s.stamp.value.backup.uid == u
    ensures Run(s, actions) == Some(s.At(u, Deleting(s.objects.Keys, false)))
    ensures forall i | 0 <= i < |actions| :: actions[i].0 == u && CleanupEvent(actions[i].1)
  {
    var keys := s.objects.Keys;
    actions := [(u, CleanupGet(false)), (u, CleanupPage(keys))];
    AtTwice(s, u, Deleting({}, false), Deleting(keys, false));
    assert {} + keys == keys;
    RunTwo(s, actions[0], s.At(u, Deleting({}, false)), actions[1], s.At(u, Deleting(keys, false)));
  }

  lemma {:induction false} UnstampRun(s: State, u: Uid) returns (actions: seq<Action>)
    requires s.In(u, Deleting({}, false)) && s.objects == map[]
    ensures Run(s, actions) == Some(s.(stamp := None).At(u, Done(CleanupComplete)))
    ensures forall i | 0 <= i < |actions| :: actions[i].0 == u && CleanupEvent(actions[i].1)
  {
    actions := [(u, CleanupRelist(false)), (u, CleanupDeleteStamp(true, true))];
    AtTwice(s.(stamp := None), u, Unstamping, Done(CleanupComplete));
    RunTwo(s, actions[0], s.At(u, Unstamping), actions[1], s.(stamp := None).At(u, Done(CleanupComplete)));
  }

  lemma {:induction false} RunJoins(s: State, a: seq<Action>, b: seq<Action>)
    requires Run(s, a).Some?
    ensures Run(s, a + b) == Run(Run(s, a).value, b)
    decreases |a|
  {
    if a == [] {
      assert a + b == b;
    } else {
      assert (a + b)[1..] == a[1..] + b;
      RunJoins(Apply(s, a[0].0, a[0].1).value, a[1..], b);
    }
  }

  // ------------------------------------------------------------------ whole lives

  /** A new backup exists exactly when its uid is new and nothing that exists has its name. */
  lemma {:induction false} CreatesIff(s: State, u: Uid, template: Stamp)
    requires template.backup.uid == u && template == template.Identity()
    ensures Apply(s, u, Create(template)) ==
            if u !in s.backups && (forall v | v in s.backups ::
                 s.backups[v].phase.Gone? || s.backups[v].template.backup.namespace != template.backup.namespace ||
                 s.backups[v].template.backup.name != template.backup.name)
            then Some(s.(backups := s.backups[u := Backup(template, Idle)])) else None
  {
  }

  /**
   From an empty cluster every backup can run through: created, started,
   dumping any objects, ended no earlier than it started, with exactly its
   objects and its finished stamp at the location.
   */
  lemma {:induction false} BackupRunsThrough(template: Stamp, start: Time, createdAt: Time, keys: seq<string>, end: Time) returns (s: State)
    requires template == template.Identity() && start <= end
    requires Filled(template.(start := Some(start), createdAt := Some(createdAt)))
    ensures Reachable(s) && s.stamp == Some(template.(start := Some(start), end := Some(end), createdAt := Some(createdAt)))
    ensures s.In(template.backup.uid, Succeeded(s.stamp.value))
    ensures forall k :: k in s.objects <==> k in keys
    ensures forall k | k in keys :: s.objects[k] == By(template.backup.uid)
  {
    var u := template.backup.uid;
    var own := template.(start := Some(start), end := None, createdAt := Some(createdAt));
    var s1 := DumpReached(template, start, createdAt);
    DumpWrites(s1, u, keys);
    ReachablePlus(s1, Writes(u, keys));
    var s2 := Run(s1, Writes(u, keys)).value;
    EndReached(s2, u, own, end);
    s := EndAlone(s2, u, end);
  }

  lemma {:induction false} ReachablePlus(s: State, actions: seq<Action>)
    requires Reachable(s) && Run(s, actions).Some?
    ensures Reachable(Run(s, actions).value)
  {
    var init, before :| Initial(init) && Run(init, before) == Some(s);
    RunJoins(init, before, actions);
    assert Run(init, before + actions) == Some(Run(s, actions).value);
  }

  lemma {:induction false} OneMore(s: State, u: Uid, e: Event)
    requires Reachable(s) && Apply(s, u, e).Some?
    ensures Reachable(Apply(s, u, e).value)
  {
    assert [(u, e)][1..] == [];
    assert Run(s, [(u, e)]) == Apply(s, u, e);
    ReachablePlus(s, [(u, e)]);
  }

  lemma {:induction false} EndReached(s: State, u: Uid, own: Stamp, end: Time)
    requires Reachable(s) && s.In(u, Dumping(own)) && own.start.Some? && own.start.value <= end
    ensures var t := EndAlone(s, u, end);
            Reachable(t) && t.In(u, Succeeded(own.(end := Some(end)))) && t.stamp == Some(own.(end := Some(end))) && t.objects == s.objects
  {
    EndAllowed(s, u, own, end);
    var s1, s2, s3 := EndWrites(s, u, own, end);
    OneMore(s, u, LoadForEnd(end, false));
    OneMore(s1, u, PutEnd(true));
    OneMore(s2, u, ReadEnd(false, false));
  }

  lemma {:induction false} EndAllowed(s: State, u: Uid, own: Stamp, end: Time)
    requires Reachable(s) && s.In(u, Dumping(own)) && own.start.Some? && own.start.value <= end
    ensures s.stamp == Some(own) && own.Identity() == s.backups[u].template && own.end.None?
    ensures CheckStampEndRewrite(own, own.(end := Some(end))).Ok?
  {
    ReachableInv(s);
    assert PhaseInv(s.stamp, s.objects, u, s.backups[u]);
    EndRefusedIff(own, end);
  }

  /** The start of such a life, up to the running dump. */
  lemma {:induction false} DumpReached(template: Stamp, start: Time, createdAt: Time) returns (s: State)
    requires template == template.Identity() && Filled(template.(start := Some(start), createdAt := Some(createdAt)))
    ensures var own := template.(start := Some(start), end := None, createdAt := Some(createdAt));
            Reachable(s) && s.In(template.backup.uid, Dumping(own)) && s.stamp == Some(own) && s.objects == map[]
  {
    var u := template.backup.uid;
    var own := template.(start := Some(start), end := None, createdAt := Some(createdAt));
    var s1 := StartedReached(template, start, createdAt);
    OwnCheckPasses(s1, u, template, own);
    OneMore(s1, u, CheckOwner(false));
    s := s1.At(u, Dumping(own));
  }

  lemma {:induction false} StartedReached(template: Stamp, start: Time, createdAt: Time) returns (s: State)
    requires template == template.Identity() && Filled(template.(start := Some(start), createdAt := Some(createdAt)))
    ensures var own := template.(start := Some(start), end := None, createdAt := Some(createdAt));
            && Reachable(s) && s.In(template.backup.uid, Started(own)) && s.stamp == Some(own) && s.objects == map[]
            && s.backups[template.backup.uid].template == template
  {
    var u := template.backup.uid;
    var own := template.(start := Some(start), end := None, createdAt := Some(createdAt));
    var s1 := LoadReached(template, start, createdAt);
    StartReached(s1, u, 5);
    StartSucceedsIff(s1, u, own);
    s := AloneFrom(s1, u, 5);
    StartedOwns(s, u);
  }

  lemma {:induction false} StartedOwns(s: State, u: Uid)
    requires Reachable(s) && u in s.backups && s.backups[u].phase.Started?
    ensures s.stamp == Some(s.backups[u].phase.own)
  {
    ReachableInv(s);
    assert PhaseInv(s.stamp, s.objects, u, s.backups[u]);
  }

  lemma {:induction false} LoadReached(template: Stamp, start: Time, createdAt: Time) returns (s: State)
    requires template == template.Identity() && Filled(template.(start := Some(start), createdAt := Some(createdAt)))
    ensures Reachable(s) && s.stamp == None && s.objects == map[]
    ensures s.backups == map[template.backup.uid := Backup(template, Loading(template.(start := Some(start), end := None, createdAt := Some(createdAt))))]
  {
    var u := template.backup.uid;
    var own := template.(start := Some(start), end := None, createdAt := Some(createdAt));
    var empty := State(None, map[], map[]);
    assert Initial(empty) && Run(empty, []) == Some(empty);
    CreatesIff(empty, u, template);
    OneMore(empty, u, Create(template));
    var s1 := empty.(backups := map[u := Backup(template, Idle)]);
    assert Apply(empty, u, Create(template)) == Some(s1);
    PodStartsIff(s1, u, start, createdAt);
    OneMore(s1, u, StartPod(start, createdAt));
    s := s1.At(u, Loading(own));
    assert s.backups == map[u := Backup(template, Loading(own))];
  }

  lemma {:induction false} OwnCheckPasses(s: State, u: Uid, template: Stamp, own: Stamp)
    requires s.In(u, Started(own)) && s.backups[u].template == template && s.stamp == Some(own)
    requires SameDump(own, template) && own.end.None?
    ensures Apply(s, u, CheckOwner(false)) == Some(s.At(u, Dumping(own)))
  {
    DumpBeginsIff(s, u, own);
  }

  lemma {:induction false} StartReached(s: State, u: Uid, n: nat)
    requires Reachable(s) && u in s.backups && s.objects == map[]
    ensures Reachable(AloneFrom(s, u, n)) && AloneFrom(s, u, n).objects == map[]
    ensures u in AloneFrom(s, u, n).backups && AloneFrom(s, u, n).backups[u].template == s.backups[u].template
    decreases n
  {
    if n > 0 && NextCall(s, u).Some? && Apply(s, u, NextCall(s, u).value).Some? {
      StartCallReached(s, u, NextCall(s, u).value);
      StartReached(Apply(s, u, NextCall(s, u).value).value, u, n - 1);
    }
  }

  lemma {:induction false} StartCallReached(s: State, u: Uid, e: Event)
    requires Reachable(s) && u in s.backups && s.objects == map[] && NextCall(s, u) == Some(e) && Apply(s, u, e).Some?
    ensures var t := Apply(s, u, e).value;
            Reachable(t) && t.objects == map[] && u in t.backups && t.backups[u].template == s.backups[u].template
  {
    OneMore(s, u, e);
    StepFrame(s, u, e, u);
    ObjectsFrame(s, u, e);
  }

  /**
   And a life that breaks off: the dump's pod crashes after some writes, the
   Job ends, and cleanup leaves the location as it was before the backup, free
   for the next one of the name once the object is gone.
   */
  lemma {:induction false} CrashedBackupCleanedUp(template: Stamp, start: Time, createdAt: Time, keys: seq<string>) returns (s: State)
    requires template == template.Identity() && Filled(template.(start := Some(start), createdAt := Some(createdAt)))
    ensures Reachable(s) && s.stamp == None && s.objects == map[] && s.In(template.backup.uid, Gone)
  {
    var u := template.backup.uid;
    var s1 := CrashReached(template, start, createdAt, keys);
    s := CleanedUpReached(s1, u);
  }

  lemma {:induction false} CleanedUpReached(s: State, u: Uid) returns (t: State)
    requires Reachable(s) && s.In(u, Stopped) && s.stamp.Some? && s.stamp.value.backup.uid == u
    ensures Reachable(t) && t.stamp == None && t.objects == map[] && t.In(u, Gone)
  {
    var cleanup := CleanupCompletes(s, u);
    ReachablePlus(s, cleanup);
    OneMore(CleanedUp(s, u), u, Remove);
    t := CleanedUp(s, u).At(u, Gone);
  }

  lemma {:induction false} CrashReached(template: Stamp, start: Time, createdAt: Time, keys: seq<string>) returns (s: State)
    requires template == template.Identity() && Filled(template.(start := Some(start), createdAt := Some(createdAt)))
    ensures Reachable(s) && s.In(template.backup.uid, Stopped) && s.stamp.Some? && s.stamp.value.backup.uid == template.backup.uid
    ensures forall k :: k in s.objects <==> k in keys
  {
    var u := template.backup.uid;
    var s1 := DumpReached(template, start, createdAt);
    DumpWrites(s1, u, keys);
    ReachablePlus(s1, Writes(u, keys));
    s := CrashStops(Run(s1, Writes(u, keys)).value, u);
  }

  lemma {:induction false} CrashStops(s: State, u: Uid) returns (t: State)
    requires Reachable(s) && u in s.backups && s.backups[u].phase.Dumping?
    ensures Reachable(t) && t.In(u, Stopped) && t.stamp == s.stamp && t.objects == s.objects
  {
    OneMore(s, u, Crash);
    OneMore(s.At(u, Idle), u, StopJob);
    t := s.At(u, Idle).At(u, Stopped);
  }
}
