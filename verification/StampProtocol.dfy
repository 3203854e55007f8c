/**
 The backup-stamp ownership protocol as a transition system over one dump
 location (cmd/bloodraven/backup_stamp.go, cmd/bloodraven/artifact_cleanup.go).

 Any number of backups share the location: earlier incarnations of a name and
 same-name backups of other namespaces. Every store call is one event, and the
 events of different backups interleave freely. An event carries the choices
 the store makes: whether a call fails, whether a write landed although its
 response was lost.

 Environment, as the code's comments state it: names are unique among existing
 objects of a namespace; one pod at a time runs for a backup; a backup's Job
 has stopped before its cleanup runs; stamps are removed by the protocol only;
 the store creates atomically; objects without a stamp can only disappear.
 */
module StampProtocol {
  import opened Wrappers
  import opened BackupStamp

  type Uid = string

  datatype Writer = Foreign | By(uid: Uid)

  datatype CreateResponse = Created | Exists | Conflict | Failed

  datatype Verdict = CleanupComplete | CleanupSkipped

  /** Where a backup is: which call its pod makes next, and what it already read. */
  datatype Phase =
    // The backup exists and no pod runs.
    | Idle
    // The start step.
    | Loading(desired: Stamp)
    | Listing(desired: Stamp, abandoned: Option<Stamp>)
    | Removing(desired: Stamp, earlier: Stamp)
    | Creating(desired: Stamp)
    | ReadingBack(desired: Stamp, response: CreateResponse)
    | Started(own: Stamp)
    // The dump and the end step.
    | Dumping(own: Stamp)
    | Finishing(prev: Stamp, next: Stamp)
    | Succeeded(own: Stamp)
    // The Job is over without success; its finalizer may run abandoned cleanup.
    | Stopped
    | CheckingUnstamped
    | Deleting(todo: set<string>, failed: bool)
    | Unstamping
    | Done(verdict: Verdict)
    // The object is gone; its name may be used again.
    | Gone
  {
    predicate Over() {
      Stopped? || CheckingUnstamped? || Deleting? || Unstamping? || Done? || Gone?
    }
  }

  datatype Backup = Backup(template: Stamp, phase: Phase)

  datatype State = State(stamp: Option<Stamp>, objects: map<string, Writer>, backups: map<Uid, Backup>)
  {
    function At(u: Uid, p: Phase): (s: State)
      requires u in backups
    {
      this.(backups := backups[u := backups[u].(phase := p)])
    }

    predicate In(u: Uid, p: Phase) {
      u in backups && backups[u].phase == p
    }
  }

  datatype Event =
    | Create(template: Stamp)
    | StartPod(start: Time, createdAt: Time)
    | Crash
    | Load(fail: bool)
    | ListLocation(fail: bool)
    | DeleteAbandoned(lands: bool, ok: bool)
    | PutIfAbsent(lands: bool, response: CreateResponse)
    | ReadBack(fail: bool, retry: bool)
    | CheckOwner(fail: bool)
    | WriteObject(key: string)
    | LoadForEnd(end: Time, fail: bool)
    | PutEnd(lands: bool)
    | ReadEnd(fail: bool, retry: bool)
    | StopJob
    | CleanupGet(fail: bool)
    | CleanupListUnstamped(fail: bool)
    | CleanupPage(keys: set<string>)
    | CleanupDelete(key: string, lands: bool, ok: bool)
    | CleanupRelist(fail: bool)
    | CleanupDeleteStamp(lands: bool, ok: bool)
    | CleanupAgain
    | Remove
    | ForeignVanish(key: string)

  /** The start step: load, list, delete an abandoned stamp, create, read back. */
  function ApplyStart(s: State, u: Uid, e: Event): (r: Option<State>)
    requires u in s.backups
  {
    var b := s.backups[u];
    match (b.phase, e)
    case (Idle, StartPod(start, createdAt)) =>
      var desired := b.template.(start := Some(start), end := None, createdAt := Some(createdAt));
      if desired.Valid() then Some(s.At(u, Loading(desired))) else None
    case (Loading(desired), Load(fail)) =>
      if fail then Some(s.At(u, Idle))
      else if s.stamp.None? then Some(s.At(u, Listing(desired, None)))
      else if AdoptExistingStamp(s.stamp.value, desired).Ok? then Some(s.At(u, Started(s.stamp.value)))
      else if AbandonedStampOf(s.stamp.value, desired) then Some(s.At(u, Listing(desired, s.stamp)))
      else Some(s.At(u, Idle))
    case (Listing(desired, abandoned), ListLocation(fail)) =>
      if fail || s.objects != map[] then Some(s.At(u, Idle))
      else if abandoned.None? then Some(s.At(u, Creating(desired)))
      else Some(s.At(u, Removing(desired, abandoned.value)))
    case (Removing(desired, _), DeleteAbandoned(lands, ok)) =>
      if ok && !lands then None
      else
        var s1 := if lands then s.(stamp := None) else s;
        Some(s1.At(u, if ok then Creating(desired) else Idle))
    case (Creating(desired), PutIfAbsent(lands, response)) =>
      if (lands && s.stamp.Some?) || (response.Created? && !lands) then None
      else
        var s1 := if lands then s.(stamp := Some(desired)) else s;
        if response.Exists? && s1.stamp.None? then None
        else Some(s1.At(u, if response.Conflict? then Idle else ReadingBack(desired, response)))
    case (ReadingBack(desired, response), ReadBack(fail, retry)) =>
      if fail then Some(s.At(u, if retry && response.Created? then b.phase else Idle))
      else if s.stamp == Some(desired) then Some(s.At(u, Started(desired)))
      else if response.Created? && s.stamp.None? && retry then Some(s)
      else if response.Exists? && s.stamp.Some? && AdoptExistingStamp(s.stamp.value, desired).Ok? then
        Some(s.At(u, Started(s.stamp.value)))
      else Some(s.At(u, Idle))
    case _ => None
  }

  /** A stamp read by a step that needs its own: identity equal to the template's. */
  predicate OwnStamp(s: State, template: Stamp) {
    s.stamp.Some? && s.stamp.value.Identity() == template.Identity()
  }

  /** The dump's writes and the end step. */
  function ApplyDump(s: State, u: Uid, e: Event): (r: Option<State>)
    requires u in s.backups
  {
    var b := s.backups[u];
    match (b.phase, e)
    case (Started(_), CheckOwner(fail)) =>
      if !fail && OwnStamp(s, b.template) && !s.stamp.value.Complete()
      then Some(s.At(u, Dumping(s.stamp.value))) else Some(s.At(u, Idle))
    case (Dumping(_), WriteObject(key)) =>
      Some(s.(objects := s.objects[key := By(u)]))
    case (Dumping(_), LoadForEnd(end, fail)) =>
      if !fail && OwnStamp(s, b.template) then
        var prev := s.stamp.value;
        var next := prev.(end := Some(end));
        if CheckStampEndRewrite(prev, next).Ok? then Some(s.At(u, Finishing(prev, next)))
        else Some(s.At(u, Idle))
      else Some(s.At(u, Idle))
    case (Finishing(prev, next), PutEnd(lands)) =>
      if lands && prev != next then Some(s.(stamp := Some(next))) else Some(s)
    case (Finishing(prev, next), ReadEnd(fail, retry)) =>
      if !fail && s.stamp == Some(next) then Some(s.At(u, Succeeded(next)))
      else if (fail || s.stamp == Some(prev)) && retry then Some(s)
      else Some(s.At(u, Idle))
    case _ => None
  }

  /** Abandoned cleanup: read the stamp, delete the dump, list again, delete the stamp. */
  function ApplyCleanup(s: State, u: Uid, e: Event): (r: Option<State>)
    requires u in s.backups
  {
    match (s.backups[u].phase, e)
    case (Stopped, CleanupGet(fail)) =>
      if fail then Some(s)
      else if s.stamp.None? then Some(s.At(u, CheckingUnstamped))
      else if s.stamp.value.backup.uid == u then Some(s.At(u, Deleting({}, false)))
      else Some(s.At(u, Done(CleanupComplete)))
    case (CheckingUnstamped, CleanupListUnstamped(fail)) =>
      if fail then Some(s.At(u, Stopped))
      else Some(s.At(u, Done(if s.objects == map[] then CleanupComplete else CleanupSkipped)))
    case (Deleting(todo, failed), CleanupPage(keys)) =>
      if keys <= s.objects.Keys then Some(s.At(u, Deleting(todo + keys, failed))) else None
    case (Deleting(todo, failed), CleanupDelete(key, lands, ok)) =>
      if key !in todo || (ok && !lands) then None
      else
        var s1 := if lands then s.(objects := s.objects - {key}) else s;
        Some(s1.At(u, Deleting(todo - {key}, failed || !ok)))
    case (Deleting(todo, failed), CleanupRelist(fail)) =>
      if todo != {} then None
      else if failed || fail || s.objects != map[] then Some(s.At(u, Stopped))
      else Some(s.At(u, Unstamping))
    case (Unstamping, CleanupDeleteStamp(lands, ok)) =>
      if ok && !lands then None
      else
        var s1 := if lands then s.(stamp := None) else s;
        Some(s1.At(u, if ok then Done(CleanupComplete) else Stopped))
    case (Done(_), CleanupAgain) => Some(s.At(u, Stopped))
    case _ => None
  }

  /** Creation, pod death, the end of a Job, removal, and foreign objects expiring. */
  function ApplyEnvironment(s: State, u: Uid, e: Event): (r: Option<State>)
  {
    match e
    case Create(template) =>
      if u !in s.backups && template.backup.uid == u && template == template.Identity() && NameFree(s, template.backup)
      then Some(s.(backups := s.backups[u := Backup(template, Idle)])) else None
    case Crash =>
      if u in s.backups && !s.backups[u].phase.Gone? && !s.backups[u].phase.Succeeded? && !s.backups[u].phase.Done?
      then Some(s.At(u, if s.backups[u].phase.Over() then Stopped else Idle)) else None
    case StopJob =>
      if u in s.backups && s.backups[u].phase.Idle? then Some(s.At(u, Stopped)) else None
    case Remove =>
      if u in s.backups && (s.backups[u].phase.Done? || s.backups[u].phase.Stopped?) then Some(s.At(u, Gone)) else None
    case ForeignVanish(key) =>
      if key in s.objects && s.objects[key].Foreign? then Some(s.(objects := s.objects - {key})) else None
    case _ => None
  }

  /** No existing object of the namespace has the name. */
  predicate NameFree(s: State, ref: ObjectRef) {
    forall v | v in s.backups ::
      s.backups[v].phase.Gone? || !SameName(s.backups[v].template.backup, ref)
  }

  predicate SameName(a: ObjectRef, b: ObjectRef) {
    a.namespace == b.namespace && a.name == b.name
  }

  predicate EnvironmentEvent(e: Event) {
    e.Create? || e.Crash? || e.StopJob? || e.Remove? || e.ForeignVanish?
  }

  predicate CleanupEvent(e: Event) {
    || e.CleanupGet? || e.CleanupListUnstamped? || e.CleanupPage? || e.CleanupDelete?
    || e.CleanupRelist? || e.CleanupDeleteStamp? || e.CleanupAgain?
  }

  predicate DumpEvent(e: Event) {
    e.CheckOwner? || e.WriteObject? || e.LoadForEnd? || e.PutEnd? || e.ReadEnd?
  }

  /** One step of backup u, or None when the event is not possible. */
  function Apply(s: State, u: Uid, e: Event): (r: Option<State>)
  {
    if EnvironmentEvent(e) then ApplyEnvironment(s, u, e)
    else if u !in s.backups then None
    else if CleanupEvent(e) then ApplyCleanup(s, u, e)
    else if DumpEvent(e) then ApplyDump(s, u, e)
    else ApplyStart(s, u, e)
  }

  type Action = (Uid, Event)

  /** Before any backup: no stamp, and any objects are someone else's. */
  predicate Initial(s: State) {
    && s.stamp.None?
    && s.backups == map[]
    && forall k | k in s.objects :: s.objects[k].Foreign?
  }

  function Run(s: State, actions: seq<Action>): (r: Option<State>)
    decreases |actions|
  {
    if actions == [] then Some(s)
    else match Apply(s, actions[0].0, actions[0].1)
      case None => None
      case Some(s1) => Run(s1, actions[1..])
  }

  ghost predicate Reachable(s: State) {
    exists init, actions :: Initial(init) && Run(init, actions) == Some(s)
  }

  // ---------------------------------------------------------------- invariant

  type Objects = map<string, Writer>

  /** Every object was written by the backup the stamp names; without a stamp, by no backup. */
  predicate Ownership(s: State) {
    forall k | k in s.objects ::
      s.objects[k] == (if s.stamp.Some? then By(s.stamp.value.backup.uid) else Foreign)
  }

  predicate NoForeign(objects: Objects) {
    forall k | k in objects :: !objects[k].Foreign?
  }

  predicate NoneBy(objects: Objects, u: Uid) {
    forall k | k in objects :: objects[k] != By(u)
  }

  predicate Names(stamp: Option<Stamp>, u: Uid) {
    stamp.Some? && stamp.value.backup.uid == u
  }

  predicate Owns(stamp: Option<Stamp>, template: Stamp, own: Stamp) {
    stamp == Some(own) && own.Identity() == template && own.Valid() && !own.Complete()
  }

  predicate Desired(template: Stamp, desired: Stamp) {
    desired.Identity() == template && desired.Valid() && !desired.Complete()
  }

  /** What each phase of backup u knows about the shared location. */
  predicate PhaseInv(stamp: Option<Stamp>, objects: Objects, u: Uid, b: Backup) {
    match b.phase
    case Loading(desired) => Desired(b.template, desired)
    case Listing(desired, abandoned) =>
      Desired(b.template, desired) && (abandoned.Some? ==> stamp == abandoned && AbandonedStampOf(abandoned.value, desired))
    case Removing(desired, earlier) =>
      Desired(b.template, desired) && stamp == Some(earlier) && AbandonedStampOf(earlier, desired) && objects == map[]
    case Creating(desired) => Desired(b.template, desired) && NoForeign(objects)
    case ReadingBack(desired, response) =>
      Desired(b.template, desired) && (response.Created? ==> stamp == Some(desired))
    case Started(own) => Owns(stamp, b.template, own)
    case Dumping(own) => Owns(stamp, b.template, own)
    case Finishing(prev, next) =>
      && (stamp == Some(prev) || stamp == Some(next))
      && prev.Identity() == b.template
      && prev.(end := None) == next.(end := None)
      && next.Complete() && next.Valid() && (prev.Complete() ==> prev == next)
    case Succeeded(own) => stamp == Some(own) && own.Identity() == b.template && own.Complete()
    case Deleting(_, _) => Names(stamp, u)
    case Unstamping => Names(stamp, u) && objects == map[]
    case CheckingUnstamped => NoneBy(objects, u)
    case Done(_) => NoneBy(objects, u)
    case _ => true
  }

  /** Among existing objects a namespace and name belong to one backup. */
  predicate NamesUnique(s: State) {
    forall u, v | u in s.backups && v in s.backups && u != v ::
      || s.backups[u].phase.Gone? || s.backups[v].phase.Gone?
      || !SameName(s.backups[u].template.backup, s.backups[v].template.backup)
  }

  predicate StampKnown(s: State) {
    s.stamp.Some? ==>
      var x := s.stamp.value;
      x.backup.uid in s.backups && x.Identity() == s.backups[x.backup.uid].template && x.Valid()
  }

  predicate TemplatesKnown(s: State) {
    forall u | u in s.backups ::
      s.backups[u].template.backup.uid == u && s.backups[u].template == s.backups[u].template.Identity()
  }

  /** Every backup but u knows what its phase says. */
  predicate OthersKnown(s: State, u: Uid) {
    forall v | v in s.backups && v != u :: PhaseInv(s.stamp, s.objects, v, s.backups[v])
  }

  /** The invariant, leaving out what u's own phase says. */
  predicate InvBut(s: State, u: Uid) {
    Ownership(s) && StampKnown(s) && TemplatesKnown(s) && NamesUnique(s) && OthersKnown(s, u)
  }

  predicate Inv(s: State) {
    && Ownership(s) && StampKnown(s) && TemplatesKnown(s) && NamesUnique(s)
    && forall u | u in s.backups :: PhaseInv(s.stamp, s.objects, u, s.backups[u])
  }
}
