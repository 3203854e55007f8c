/**
 The start step, the end step and abandoned cleanup as the code runs them, call by call,
 against a location on which every other backup may act between two calls
 (writeBackupStamp, finishBackupStamp, runAbandonedCleanup).
 Each store call is one event of StampProtocol, so the code's control flow is
 checked against the protocol's phases and inherits its invariant.
 */
module StampSteps {
  import opened Wrappers
  import opened BackupStamp
  import opened StampProtocol
  import opened StampOwnership

  lemma {:induction false} RunExtends(s: State, actions: seq<Action>, a: Action)
    requires Run(s, actions).Some? && Apply(Run(s, actions).value, a.0, a.1).Some?
    ensures Run(s, actions + [a]) == Apply(Run(s, actions).value, a.0, a.1)
    decreases |actions|
  {
    if actions == [] {
      assert [a][1..] == [];
    } else {
      assert (actions + [a])[1..] == actions[1..] + [a];
      RunExtends(Apply(s, actions[0].0, actions[0].1).value, actions[1..], a);
    }
  }

  lemma ReachableStep(s: State, u: Uid, e: Event)
    requires Reachable(s) && Apply(s, u, e).Some?
    ensures Reachable(Apply(s, u, e).value)
  {
    var init, actions :| Initial(init) && Run(init, actions) == Some(s);
    RunExtends(init, actions, (u, e));
  }

  /** Where the start step goes after reading found at its key. */
  function AfterLoad(desired: Stamp, found: Option<Stamp>): (p: Phase)
  {
    if found.None? then Listing(desired, None)
    else if AdoptExistingStamp(found.value, desired).Ok? then Started(found.value)
    else if AbandonedStampOf(found.value, desired) then Listing(desired, found)
    else Idle
  }

  /** Where the start step goes after reading found back. */
  function AfterReadBack(p: Phase, found: Option<Stamp>, retry: bool): (q: Phase)
    requires p.ReadingBack?
  {
    if found == Some(p.desired) then Started(p.desired)
    else if p.response.Created? && found.None? && retry then p
    else if p.response.Exists? && found.Some? && AdoptExistingStamp(found.value, p.desired).Ok? then Started(found.value)
    else Idle
  }

  /** Where abandoned cleanup of u goes after reading found at its key. */
  function AfterGet(u: Uid, found: Option<Stamp>): (p: Phase)
  {
    if found.None? then CheckingUnstamped
    else if found.value.backup.uid == u then Deleting({}, false)
    else Done(CleanupComplete)
  }

  /** t is reached from s by steps of other backups and by foreign objects that expire. */
  ghost predicate OthersRan(s: State, t: State, u: Uid) {
    exists actions :: Run(s, actions) == Some(t) && OfOthers(actions, u)
  }

  ghost predicate OfOthers(actions: seq<Action>, u: Uid) {
    forall i | 0 <= i < |actions| :: actions[i].0 != u || actions[i].1.ForeignVanish?
  }

  /** What others do never touches the stamp of a backup that is finishing. */
  lemma {:induction false} FinishingStands(s: State, actions: seq<Action>, u: Uid)
    requires Inv(s) && u in s.backups && s.backups[u].phase.Finishing? && Run(s, actions).Some? && OfOthers(actions, u)
    ensures Run(s, actions).value.stamp == s.stamp
    decreases |actions|
  {
    if actions != [] {
      var (v, e) := actions[0];
      var t := Apply(s, v, e).value;
      assert actions[0] == (v, e);
      OtherStep(s, u, v, e);
      StepKeepsInv(s, v, e);
      assert forall i | 0 <= i < |actions[1..]| :: actions[1..][i] == actions[i + 1];
      FinishingStands(t, actions[1..], u);
    }
  }

  lemma {:induction false} OtherStep(s: State, u: Uid, v: Uid, e: Event)
    requires Inv(s) && u in s.backups && s.backups[u].phase.Finishing? && Apply(s, v, e).Some? && (v != u || e.ForeignVanish?)
    ensures var t := Apply(s, v, e).value; t.stamp == s.stamp && u in t.backups && t.backups[u] == s.backups[u]
  {
    if !e.ForeignVanish? {
      StepFrame(s, v, e, u);
      StampFrame(s, v, e);
      assert PhaseInv(s.stamp, s.objects, u, s.backups[u]);
      if v in s.backups {
        assert PhaseInv(s.stamp, s.objects, v, s.backups[v]);
        assert NamesUnique(s);
      }
    }
  }

  /** The shared location, as the pods of every backup see it. */
  class Location {
    var state: State
    /** How many calls of the pod failed, were answered with a conflict, or lost their effect or their answer. */
    ghost var faults: nat

    constructor (objects: map<string, Writer>)
      requires forall k | k in objects :: objects[k].Foreign?
      ensures Reachable(state) && faults == 0
    {
      state := State(None, objects, map[]);
      faults := 0;
      new;
      assert Initial(state) && Run(state, []) == Some(state);
    }

    /** No fault is forgotten, and this one, if it is one, is counted. */
    ghost predicate Counts(before: nat, fault: bool)
      reads this
    {
      before <= faults && (fault ==> before < faults)
    }

    /** Anything the other backups and the environment can do between two calls of u's pod. */
    method Interfere(u: Uid)
      requires Reachable(state) && u in state.backups
      modifies this
      ensures Reachable(state) && u in state.backups && state.backups[u] == old(state.backups[u])
      ensures OthersRan(old(state), state, u) && faults == old(faults)
    {
      assert Run(state, []) == Some(state);
    }

    /** One store call of u's pod. */
    method Do(u: Uid, e: Event)
      requires Reachable(state) && Apply(state, u, e).Some?
      modifies this`state
      ensures Apply(old(state), u, e) == Some(state)
      ensures Reachable(state)
    {
      ReachableStep(state, u, e);
      state := Apply(state, u, e).value;
    }

    /** loadBackupStamp by a pod about to decide on what it finds. */
    method Load(u: Uid) returns (r: Result<Option<Stamp>, StampError>)
      requires Reachable(state) && u in state.backups && state.backups[u].phase.Loading?
      modifies this
      ensures Reachable(state)
      ensures r.Err? ==> state.In(u, Idle)
      ensures r.Ok? ==> state.In(u, AfterLoad(old(state.backups[u].phase.desired), r.value))
      ensures Counts(old(faults), r == Err(StoreError)) && (r.Err? ==> r.error == StoreError) && (r.Ok? ==> r.value == state.stamp)
    {
      var fail: bool := *;
      r := if fail then Err(StoreError) else Ok(state.stamp);
      faults := if fail then faults + 1 else faults;
      Do(u, StampProtocol.Load(fail));
    }

    /** checkDumpLocationEmpty: refuses a location that holds any object. */
    method CheckEmpty(u: Uid) returns (r: Result<(), StampError>)
      requires Reachable(state) && u in state.backups && state.backups[u].phase.Listing?
      modifies this
      ensures Reachable(state) && u in state.backups
      ensures var p := old(state.backups[u].phase);
              r.Ok? ==> state.In(u, if p.abandoned.None? then Creating(p.desired) else Removing(p.desired, p.abandoned.value))
      ensures r.Err? ==> state.In(u, Idle)
      ensures Counts(old(faults), r == Err(StoreError)) && (r.Err? ==> r.error == StoreError || (r.error == StampConflict && state.objects != map[]))
    {
      var fail: bool := *;
      r := if fail then Err(StoreError) else if state.objects == map[] then Ok(()) else Err(StampConflict);
      faults := if fail then faults + 1 else faults;
      Do(u, ListLocation(fail));
    }

    /** Delete of an abandoned stamp; the delete may land and still report an error. */
    method DeleteAbandonedStamp(u: Uid) returns (r: Result<(), StampError>)
      requires Reachable(state) && u in state.backups && state.backups[u].phase.Removing?
      modifies this
      ensures Reachable(state)
      ensures r.Ok? ==> state.In(u, Creating(old(state.backups[u].phase.desired)))
      ensures r.Err? ==> state.In(u, Idle)
      ensures Counts(old(faults), r.Err?) && (r.Err? ==> r.error == StoreError)
    {
      var lands: bool := *;
      var lost: bool := *;
      var ok := lands && !lost;
      r := if ok then Ok(()) else Err(StoreError);
      faults := if ok then faults else faults + 1;
      Do(u, DeleteAbandoned(lands, ok));
    }

    /** The atomic create, with every answer a store with atomic create can give. */
    method CreateStamp(u: Uid) returns (response: CreateResponse)
      requires Reachable(state) && u in state.backups && state.backups[u].phase.Creating?
      modifies this
      ensures Reachable(state)
      ensures response.Conflict? ==> state.In(u, Idle)
      ensures !response.Conflict? ==> state.In(u, ReadingBack(old(state.backups[u].phase.desired), response))
      ensures Counts(old(faults), response.Conflict? || response.Failed?)
    {
      var lands: bool := *;
      response := *;
      lands := lands && state.stamp.None?;
      if (response.Created? && !lands) || (response.Exists? && state.stamp.None? && !lands) {
        response := Failed;
      }
      faults := if response.Created? || response.Exists? then faults else faults + 1;
      Do(u, PutIfAbsent(lands, response));
    }

    /** One read after a create; a failed read may be retried after Created only. */
    method ReadStampBack(u: Uid, retry: bool) returns (r: Result<Option<Stamp>, StampError>)
      requires Reachable(state) && u in state.backups && state.backups[u].phase.ReadingBack?
      modifies this
      ensures Reachable(state)
      ensures var p := old(state.backups[u].phase);
              state.In(u, if r.Err? then (if retry && p.response.Created? then p else Idle) else AfterReadBack(p, r.value, retry))
      ensures Counts(old(faults), r == Err(StoreError)) && (r.Err? ==> r.error == StoreError)
      ensures state.stamp == old(state.stamp) && (r.Ok? ==> r.value == state.stamp)
    {
      var fail: bool := *;
      r := if fail then Err(StoreError) else Ok(state.stamp);
      faults := if fail then faults + 1 else faults;
      Do(u, ReadBack(fail, retry));
    }

    /** loadOwnStamp and CheckStampEndRewrite by the pod whose dump is over. */
    method LoadForFinish(u: Uid, end: Time) returns (r: Result<Stamp, StampError>)
      requires Reachable(state) && u in state.backups && state.backups[u].phase.Dumping?
      modifies this
      ensures Reachable(state) && state.stamp == old(state.stamp)
      ensures r.Ok? ==> old(state.stamp) == Some(r.value) && state.In(u, Finishing(r.value, r.value.(end := Some(end))))
      ensures r.Ok? ==> CheckStampEndRewrite(r.value, r.value.(end := Some(end))).Ok?
      ensures r == Err(StampConflict) ==> !OwnStamp(old(state), old(state.backups[u].template))
      ensures r.Err? ==> state.In(u, Idle)
      ensures Counts(old(faults), r == Err(StoreError))
      ensures r.Err? && r.error != StoreError && r.error != StampConflict ==>
        old(state.stamp).Some? && CheckStampEndRewrite(old(state.stamp).value, old(state.stamp).value.(end := Some(end))) == Err(r.error)
    {
      var fail: bool := *;
      var template := state.backups[u].template;
      if fail {
        r := Err(StoreError);
      } else if !OwnStamp(state, template) {
        r := Err(StampConflict);
      } else {
        var prev := state.stamp.value;
        var checked := CheckStampEndRewrite(prev, prev.(end := Some(end)));
        r := if checked.Ok? then Ok(prev) else Err(checked.error);
      }
      faults := if fail then faults + 1 else faults;
      Do(u, StampProtocol.LoadForEnd(end, fail));
    }

    /** One write of the finished stamp; it may land or not, and may report an error either way. */
    method PutFinished(u: Uid) returns (ok: bool)
      requires Reachable(state) && u in state.backups && state.backups[u].phase.Finishing?
      modifies this
      ensures Reachable(state) && state.In(u, old(state.backups[u].phase))
      ensures var p := old(state.backups[u].phase); Counts(old(faults), p.prev != p.next && state.stamp != Some(p.next))
    {
      var lands: bool := *;
      var lost: bool := *;
      ok := lands && !lost;
      faults := if ok then faults else faults + 1;
      Do(u, StampProtocol.PutEnd(lands));
    }

    /** One read-back; retry says whether the pod goes on after a read that did not settle it. */
    method ReadFinished(u: Uid, retry: bool) returns (r: Result<Option<Stamp>, StampError>)
      requires Reachable(state) && u in state.backups && state.backups[u].phase.Finishing?
      modifies this
      ensures Reachable(state) && state.stamp == old(state.stamp) && (r.Ok? ==> r.value == state.stamp)
      ensures r.Err? ==> r.error == StoreError
      ensures var p := old(state.backups[u].phase);
              state.In(u, if r.Ok? && r.value == Some(p.next) then Succeeded(p.next)
                          else if (r.Err? || r.value == Some(p.prev)) && retry then p else Idle)
      ensures Counts(old(faults), r.Err?)
    {
      var fail: bool := *;
      r := if fail then Err(StoreError) else Ok(state.stamp);
      faults := if fail then faults + 1 else faults;
      Do(u, StampProtocol.ReadEnd(fail, retry));
    }

    /** The cleanup pod reads whose stamp is at the key. */
    method GetStamp(u: Uid) returns (r: Result<Option<Stamp>, StampError>)
      requires Reachable(state) && state.In(u, Stopped)
      modifies this
      ensures Reachable(state)
      ensures state.In(u, if r.Err? then Stopped else AfterGet(u, r.value))
      ensures Counts(old(faults), r.Err?) && (r.Ok? ==> r.value == state.stamp)
    {
      var fail: bool := *;
      r := if fail then Err(StoreError) else Ok(state.stamp);
      faults := if fail then faults + 1 else faults;
      Do(u, CleanupGet(fail));
    }

    /** One page of the dump's keys: any of those there now. */
    method ListPage(u: Uid) returns (keys: set<string>)
      requires Reachable(state) && u in state.backups && state.backups[u].phase.Deleting?
      modifies this
      ensures Reachable(state)
      ensures var p := old(state.backups[u].phase); state.In(u, Deleting(p.todo + keys, p.failed))
      ensures faults == old(faults)
    {
      keys := *;
      keys := keys * state.objects.Keys;
      Do(u, CleanupPage(keys));
    }

    /** One delete of a listed key; it may land and still report an error. */
    method DeleteKey(u: Uid, key: string) returns (ok: bool)
      requires Reachable(state) && u in state.backups && state.backups[u].phase.Deleting? && key in state.backups[u].phase.todo
      modifies this
      ensures Reachable(state)
      ensures var p := old(state.backups[u].phase); state.In(u, Deleting(p.todo - {key}, p.failed || !ok))
      ensures Counts(old(faults), !ok)
    {
      var lands: bool := *;
      var lost: bool := *;
      ok := lands && !lost;
      faults := if ok then faults else faults + 1;
      Do(u, CleanupDelete(key, lands, ok));
    }

    /** The second listing, after every delete was answered. */
    method Relist(u: Uid) returns (ok: bool)
      requires Reachable(state) && state.In(u, Deleting({}, false))
      modifies this
      ensures Reachable(state)
      ensures state.In(u, if ok then Unstamping else Stopped)
      ensures Counts(old(faults), !ok && state.objects == map[])
    {
      var fail: bool := *;
      ok := !fail && state.objects == map[];
      faults := if fail then faults + 1 else faults;
      Do(u, CleanupRelist(fail));
    }

    /** The cleanup pod ends without having finished. */
    method GiveUp(u: Uid)
      requires Reachable(state) && u in state.backups && state.backups[u].phase.Deleting?
      modifies this
      ensures Reachable(state) && state.In(u, Stopped)
      ensures faults == old(faults)
    {
      Do(u, Crash);
    }

    /** abandonedUnstampedS3. */
    method ListUnstamped(u: Uid) returns (r: Result<bool, StampError>)
      requires Reachable(state) && state.In(u, CheckingUnstamped)
      modifies this
      ensures Reachable(state)
      ensures r.Err? ==> state.In(u, Stopped)
      ensures r.Ok? ==> state.In(u, Done(if r.value then CleanupComplete else CleanupSkipped)) && r.value == (state.objects == map[])
      ensures Counts(old(faults), r.Err?)
    {
      var fail: bool := *;
      r := if fail then Err(StoreError) else Ok(state.objects == map[]);
      faults := if fail then faults + 1 else faults;
      Do(u, CleanupListUnstamped(fail));
    }

    method DeleteOwnStamp(u: Uid) returns (ok: bool)
      requires Reachable(state) && state.In(u, Unstamping)
      modifies this
      ensures Reachable(state)
      ensures state.In(u, if ok then Done(CleanupComplete) else Stopped)
      ensures Counts(old(faults), !ok)
    {
      var lands: bool := *;
      var lost: bool := *;
      ok := lands && !lost;
      faults := if ok then faults else faults + 1;
      Do(u, CleanupDeleteStamp(lands, ok));
    }
  }

  /**
   Why a start step that had `faults` faults was refused: a fault, objects at
   the location, or a stamp there that it may neither adopt nor replace. A stamp
   that is gone when it is read back is the one other reason.
   */
  ghost predicate StartRefused(s: State, desired: Stamp, error: StampError, faults: int) {
    faults > 0 ||
    (error == StampConflict && (s.objects != map[] || (s.stamp.Some? && !Resumes(s, desired)))) ||
    (error == StoreError && s.stamp.None?)
  }

  /** settleBackupStamp after a create that reported success: read until the stamp shows, at most SETTLE_ATTEMPTS times. */
  method SettleCreated(loc: Location, u: Uid, desired: Stamp) returns (r: Result<(), StampError>)
    requires Reachable(loc.state) && loc.state.In(u, ReadingBack(desired, Created))
    modifies loc
    ensures Reachable(loc.state)
    ensures r.Ok? ==> loc.state.In(u, Started(desired))
    ensures r.Err? ==> loc.state.In(u, Idle)
    ensures loc.Counts(old(loc.faults), r.Err?) && (r.Err? ==> r.error == StoreError)
  {
    var attempt := 1;
    while true
      invariant 1 <= attempt <= SETTLE_ATTEMPTS
      invariant Reachable(loc.state) && loc.state.In(u, ReadingBack(desired, Created))
      invariant loc.Counts(old(loc.faults), attempt > 1)
      decreases SETTLE_ATTEMPTS - attempt
    {
      loc.Interfere(u);
      CreatedStands(loc.state, u, desired);
      var got := loc.ReadStampBack(u, attempt < SETTLE_ATTEMPTS);
      if got.Ok? && got.value == Some(desired) {
        return Ok(());
      }
      if got.Ok? && got.value.Some? {
        return Err(StampConflict);
      }
      if attempt >= SETTLE_ATTEMPTS {
        return Err(StoreError);
      }
      attempt := attempt + 1;
    }
  }

  /** A stamp just created is what every read shows until its pod goes on. */
  lemma {:induction false} CreatedStands(s: State, u: Uid, desired: Stamp)
    requires Reachable(s) && s.In(u, ReadingBack(desired, Created))
    ensures s.stamp == Some(desired)
  {
    ReachableInv(s);
    assert PhaseInv(s.stamp, s.objects, u, s.backups[u]);
  }

  /** removeAbandonedStamp: only once nothing remains under the location. */
  method RemoveAbandonedStamp(loc: Location, u: Uid, desired: Stamp, existing: Stamp) returns (r: Result<(), StampError>)
    requires Reachable(loc.state) && loc.state.In(u, Listing(desired, Some(existing)))
    modifies loc
    ensures Reachable(loc.state)
    ensures r.Ok? ==> loc.state.In(u, Creating(desired))
    ensures r.Err? ==> loc.state.In(u, Idle) && r.error != StampInvalid
    ensures r.Err? ==> StartRefused(loc.state, desired, r.error, loc.faults - old(loc.faults))
    ensures loc.Counts(old(loc.faults), false)
  {
    r := loc.CheckEmpty(u);
    if r.Ok? {
      loc.Interfere(u);
      r := loc.DeleteAbandonedStamp(u);
    }
  }

  /** What follows the create: its response decides what the read-back must show. */
  method ConfirmCreate(loc: Location, u: Uid, desired: Stamp, response: CreateResponse)
    returns (r: Result<(Stamp, bool), StampError>)
    requires Reachable(loc.state) && loc.state.In(u, ReadingBack(desired, response)) && !response.Conflict?
    modifies loc
    ensures Reachable(loc.state)
    ensures r.Ok? ==> loc.state.In(u, Started(r.value.0)) && (r.value.1 <==> r.value.0 != desired)
    ensures r.Err? ==> loc.state.In(u, Idle)
    ensures r.Err? ==> r.error != StampInvalid
    ensures r.Err? && !response.Failed? ==> StartRefused(loc.state, desired, r.error, loc.faults - old(loc.faults))
    ensures loc.Counts(old(loc.faults), false)
  {
    if response.Created? {
      var settled := SettleCreated(loc, u, desired);
      return if settled.Ok? then Ok((desired, false)) else Err(settled.error);
    }
    loc.Interfere(u);
    var got := loc.ReadStampBack(u, false);
    if got.Err? || got.value.None? {
      return Err(StoreError);
    }
    var existing := got.value.value;
    if existing == desired {
      return Ok((existing, false));
    }
    if response.Failed? {
      return Err(StoreError);
    }
    AdoptsIff(existing, desired);
    var adopted := AdoptExistingStamp(existing, desired);
    return if adopted.Ok? then Ok((adopted.value, true)) else Err(adopted.error);
  }

  /**
   writeBackupStamp, under any interference: success means the location holds
   exactly the returned stamp, it is this backup's and unfinished, it is the one
   asked for unless an earlier one is reported as adopted, and nothing under the
   location was written by anyone else. A refusal has its reason: a stamp that
   would lack a field, or one of StartRefused.
   */
  method WriteBackupStamp(loc: Location, u: Uid, start: Time, createdAt: Time)
    returns (r: Result<(Stamp, bool), StampError>)
    requires Reachable(loc.state) && loc.state.In(u, Idle)
    modifies loc
    ensures Reachable(loc.state)
    ensures r.Ok? ==>
      && loc.state.In(u, Started(r.value.0))
      && loc.state.stamp == Some(r.value.0)
      && r.value.0.Identity() == loc.state.backups[u].template && !r.value.0.Complete()
      && (!r.value.1 ==> r.value.0.start == Some(start) && r.value.0.createdAt == Some(createdAt))
      && forall k | k in loc.state.objects :: loc.state.objects[k] == By(u)
    ensures r.Err? ==> loc.state.In(u, Idle)
    ensures var desired := old(loc.state.backups[u].template).(start := Some(start), end := None, createdAt := Some(createdAt));
            && (r == Err(StampInvalid) <==> !Filled(desired))
            && (r.Err? && Filled(desired) ==> StartRefused(loc.state, desired, r.error, loc.faults - old(loc.faults)))
  {
    var desired := loc.state.backups[u].template.(start := Some(start), end := None, createdAt := Some(createdAt));
    ValidIff(desired);
    if !desired.Valid() {
      return Err(StampInvalid);
    }
    loc.Do(u, StartPod(start, createdAt));
    r := StartFromLoad(loc, u, desired);
    if r.Ok? {
      OwnershipInEveryState(loc.state);
      ReachableInv(loc.state);
      assert PhaseInv(loc.state.stamp, loc.state.objects, u, loc.state.backups[u]);
    }
  }

  /** writeBackupStamp from its first read on. */
  method StartFromLoad(loc: Location, u: Uid, desired: Stamp) returns (r: Result<(Stamp, bool), StampError>)
    requires Reachable(loc.state) && loc.state.In(u, Loading(desired))
    modifies loc
    ensures Reachable(loc.state)
    ensures r.Ok? ==> loc.state.In(u, Started(r.value.0)) && (!r.value.1 ==> r.value.0 == desired)
    ensures r.Err? ==> loc.state.In(u, Idle) && r.error != StampInvalid
    ensures r.Err? ==> StartRefused(loc.state, desired, r.error, loc.faults - old(loc.faults))
  {
    loc.Interfere(u);
    var loaded := loc.Load(u);
    if loaded.Err? {
      return Err(loaded.error);
    }
    if loaded.value.Some? {
      var existing := loaded.value.value;
      AdoptsIff(existing, desired);
      var adopted := AdoptExistingStamp(existing, desired);
      if adopted.Ok? || !AbandonedStampOf(existing, desired) {
        return if adopted.Ok? then Ok((adopted.value, true)) else Err(adopted.error);
      }
    }
    r := StartCreating(loc, u, desired, loaded.value);
  }

  /** writeBackupStamp once no stamp of its own is there: the location is cleared of an abandoned stamp, and the new one created. */
  method StartCreating(loc: Location, u: Uid, desired: Stamp, abandoned: Option<Stamp>) returns (r: Result<(Stamp, bool), StampError>)
    requires Reachable(loc.state) && loc.state.In(u, Listing(desired, abandoned))
    modifies loc
    ensures Reachable(loc.state)
    ensures r.Ok? ==> loc.state.In(u, Started(r.value.0)) && (!r.value.1 ==> r.value.0 == desired)
    ensures r.Err? ==> loc.state.In(u, Idle) && r.error != StampInvalid
    ensures r.Err? ==> StartRefused(loc.state, desired, r.error, loc.faults - old(loc.faults))
    ensures loc.Counts(old(loc.faults), false)
  {
    loc.Interfere(u);
    var cleared: Result<(), StampError>;
    if abandoned.Some? {
      cleared := RemoveAbandonedStamp(loc, u, desired, abandoned.value);
    } else {
      cleared := loc.CheckEmpty(u);
    }
    if cleared.Err? {
      return Err(cleared.error);
    }
    loc.Interfere(u);
    var response := loc.CreateStamp(u);
    if response.Conflict? {
      return Err(StampConflict);
    }
    r := ConfirmCreate(loc, u, desired, response);
  }

  // ------------------------------------------------------------ the end step

  /** The location holds the backup's stamp, as it was or with the end added. */
  ghost predicate Ending(s: State, own: Stamp, end: Time) {
    s.stamp == Some(own) || s.stamp == Some(own.(end := Some(end)))
  }

  /** settleBackupStamp under finishBackupStamp: written again only after a read that proved the earlier stamp. */
  method SettleFinished(loc: Location, u: Uid, own: Stamp, end: Time) returns (r: Result<(), StampError>)
    requires Reachable(loc.state) && loc.state.In(u, Finishing(own, own.(end := Some(end))))
    modifies loc
    ensures Reachable(loc.state) && Ending(loc.state, own, end)
    ensures r.Ok? ==> loc.state.In(u, Succeeded(own.(end := Some(end)))) && loc.state.stamp == Some(own.(end := Some(end)))
    ensures r.Err? ==> r.error == StoreError && loc.state.In(u, Idle)
    ensures loc.Counts(old(loc.faults), r.Err?)
  {
    var next := own.(end := Some(end));
    var write := own != next;
    FinishingHolds(loc.state, u, own, next);
    if write {
      loc.Interfere(u);
      var sent := loc.PutFinished(u);
    }
    var attempt := 1;
    while true
      invariant 1 <= attempt <= SETTLE_ATTEMPTS
      invariant Reachable(loc.state) && loc.state.In(u, Finishing(own, next))
      invariant loc.Counts(old(loc.faults), loc.state.stamp != Some(next) || attempt > 1)
      decreases SETTLE_ATTEMPTS - attempt
    {
      InterfereFinishing(loc, u);
      FinishingHolds(loc.state, u, own, next);
      var got := loc.ReadFinished(u, attempt < SETTLE_ATTEMPTS);
      if got.Ok? && got.value == Some(next) {
        return Ok(());
      }
      if attempt >= SETTLE_ATTEMPTS {
        return Err(StoreError);
      }
      if write && got.Ok? {
        loc.Interfere(u);
        var sent := loc.PutFinished(u);
      }
      attempt := attempt + 1;
    }
  }

  method InterfereFinishing(loc: Location, u: Uid)
    requires Reachable(loc.state) && u in loc.state.backups && loc.state.backups[u].phase.Finishing?
    modifies loc
    ensures Reachable(loc.state) && u in loc.state.backups && loc.state.backups[u] == old(loc.state.backups[u])
    ensures loc.state.stamp == old(loc.state.stamp) && loc.faults == old(loc.faults)
  {
    ghost var before := loc.state;
    loc.Interfere(u);
    ghost var actions :| Run(before, actions) == Some(loc.state) && OfOthers(actions, u);
    ReachableInv(before);
    FinishingStands(before, actions, u);
  }

  /** While a pod finishes, nobody else touches its stamp: a read shows the earlier or the finished one. */
  lemma {:induction false} FinishingHolds(s: State, u: Uid, prev: Stamp, next: Stamp)
    requires Reachable(s) && s.In(u, Finishing(prev, next))
    ensures s.stamp == Some(prev) || s.stamp == Some(next)
  {
    ReachableInv(s);
    assert PhaseInv(s.stamp, s.objects, u, s.backups[u]);
  }

  /**
   finishBackupStamp under any interference, on a key that is not exclusive by
   decree but owned by protocol: success means the location holds this backup's
   stamp with the end added, and nobody else's object; every other end leaves
   the stamp as it was or with the end added. Without a fault it succeeds exactly
   when the end is no earlier than the start.
   */
  method FinishBackupStamp(loc: Location, u: Uid, end: Time) returns (r: Result<Stamp, StampError>)
    requires Reachable(loc.state) && u in loc.state.backups && loc.state.backups[u].phase.Dumping?
    modifies loc
    ensures var own := old(loc.state.backups[u].phase.own);
            && Reachable(loc.state) && Ending(loc.state, own, end)
            && (r.Ok? ==> r.value == own.(end := Some(end)) && loc.state.stamp == Some(r.value) && loc.state.In(u, Succeeded(r.value)))
            && (r.Ok? ==> forall k | k in loc.state.objects :: loc.state.objects[k] == By(u))
            && (r.Err? ==> loc.state.In(u, Idle))
            && own.start.Some? && (r.Err? ==> loc.faults > old(loc.faults) || (r.error == StampInvalid && end < own.start.value))
            && (r.Ok? ==> own.start.value <= end)
  {
    ghost var own := loc.state.backups[u].phase.own;
    loc.Interfere(u);
    DumpingHolds(loc.state, u, own);
    EndRefusedIff(own, end);
    var loaded := loc.LoadForFinish(u, end);
    if loaded.Err? {
      return Err(loaded.error);
    }
    var settled := SettleFinished(loc, u, loaded.value, end);
    if settled.Err? {
      return Err(settled.error);
    }
    OwnershipInEveryState(loc.state);
    return Ok(loaded.value.(end := Some(end)));
  }

  lemma {:induction false} DumpingHolds(s: State, u: Uid, own: Stamp)
    requires Reachable(s) && s.In(u, Dumping(own))
    ensures s.stamp == Some(own) && OwnStamp(s, s.backups[u].template) && !own.Complete() && Filled(own)
  {
    ReachableInv(s);
    assert PhaseInv(s.stamp, s.objects, u, s.backups[u]);
  }

  // ------------------------------------------------------- abandoned cleanup

  datatype CleanupResult = Complete(objects: nat) | Skipped | Transient(objects: nat)

  /**
   cleanupS3: list page by page, delete every listed key, then list again. The
   workers' deletes land in any order, so each round takes any listed key.
   Success means the location held no object when it was listed last.
   */
  method CleanupDump(loc: Location, u: Uid, pages: nat) returns (deleted: nat, ok: bool)
    requires Reachable(loc.state) && loc.state.In(u, Deleting({}, false))
    modifies loc
    ensures Reachable(loc.state)
    ensures loc.state.In(u, if ok then Unstamping else Stopped)
    ensures loc.Counts(old(loc.faults), !ok && loc.state.objects == map[])
  {
    deleted := 0;
    for page := 0 to pages
      invariant Reachable(loc.state) && loc.state.In(u, Deleting({}, false)) && loc.Counts(old(loc.faults), false)
    {
      var n, failed := DeletePage(loc, u);
      deleted := deleted + n;
      if failed {
        loc.GiveUp(u);
        return deleted, false;
      }
    }
    loc.Interfere(u);
    ok := loc.Relist(u);
  }

  /** One page: every listed key is deleted, also after a delete that failed. */
  method DeletePage(loc: Location, u: Uid) returns (deleted: nat, failed: bool)
    requires Reachable(loc.state) && loc.state.In(u, Deleting({}, false))
    modifies loc
    ensures Reachable(loc.state) && loc.state.In(u, Deleting({}, failed))
    ensures loc.Counts(old(loc.faults), failed)
  {
    deleted, failed := 0, false;
    loc.Interfere(u);
    var todo := loc.ListPage(u);
    assert {} + todo == todo;
    while todo != {}
      invariant Reachable(loc.state) && loc.state.In(u, Deleting(todo, failed)) && loc.Counts(old(loc.faults), failed)
      decreases |todo|
    {
      var key :| key in todo;
      loc.Interfere(u);
      var ok := loc.DeleteKey(u, key);
      todo := todo - {key};
      if ok { deleted := deleted + 1; } else { failed := true; }
    }
  }

  /**
   runAbandonedCleanup on S3, under any interference. A complete verdict leaves
   no object of this backup; every other end leaves the stamp that proves
   whose objects remain.
   */
  method RunAbandonedCleanup(loc: Location, u: Uid, pages: nat) returns (r: CleanupResult)
    requires Reachable(loc.state) && loc.state.In(u, Stopped)
    modifies loc
    ensures Reachable(loc.state) && u in loc.state.backups
    ensures r.Complete? ==> loc.state.In(u, Done(CleanupComplete))
    ensures r.Skipped? ==> loc.state.In(u, Done(CleanupSkipped)) && loc.state.objects != map[]
    ensures r.Transient? ==> loc.state.In(u, Stopped)
    ensures !r.Transient? ==> NoneBy(loc.state.objects, u)
    ensures r.Transient? && !NoneBy(loc.state.objects, u) ==> Names(loc.state.stamp, u)
    ensures r.Transient? ==> loc.faults > old(loc.faults) || loc.state.objects != map[]
  {
    r := CleanupFromGet(loc, u, pages);
    CleanupLeaves(loc.state, u);
  }

  /** After a verdict no object of the backup is left; before one, an object implies the stamp. */
  lemma {:induction false} CleanupLeaves(s: State, u: Uid)
    requires Reachable(s) && u in s.backups
    ensures s.backups[u].phase.Done? ==> NoneBy(s.objects, u)
    ensures !NoneBy(s.objects, u) ==> Names(s.stamp, u)
  {
    ReachableInv(s);
    assert PhaseInv(s.stamp, s.objects, u, s.backups[u]);
  }

  method CleanupFromGet(loc: Location, u: Uid, pages: nat) returns (r: CleanupResult)
    requires Reachable(loc.state) && loc.state.In(u, Stopped)
    modifies loc
    ensures Reachable(loc.state)
    ensures r.Complete? ==> loc.state.In(u, Done(CleanupComplete))
    ensures r.Skipped? ==> loc.state.In(u, Done(CleanupSkipped)) && loc.state.objects != map[]
    ensures r.Transient? ==> loc.state.In(u, Stopped)
    ensures r.Transient? ==> loc.faults > old(loc.faults) || loc.state.objects != map[]
  {
    loc.Interfere(u);
    var found := loc.GetStamp(u);
    if found.Err? {
      return Transient(0);
    }
    if found.value.None? {
      loc.Interfere(u);
      var empty := loc.ListUnstamped(u);
      return if empty.Err? then Transient(0) else if empty.value then Complete(0) else Skipped;
    }
    if found.value.value.backup.uid != u {
      return Complete(0);
    }
    var n, dumpGone := CleanupDump(loc, u, pages);
    if !dumpGone {
      return Transient(n);
    }
    loc.Interfere(u);
    var stampGone := loc.DeleteOwnStamp(u);
    r := if stampGone then Complete(n) else Transient(n);
  }
}
