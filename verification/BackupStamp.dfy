/**
 The backup stamp: the writer-stamped identity of one dump, and the pure
 decisions the start and end steps take about a stamp found at their key
 (internal/backupmeta/stamp.go, cmd/bloodraven/backup_stamp.go).

 Two stamps are the same stamp exactly when their canonical bytes are equal, so
 equality of canonical bytes is datatype equality here. Times are microseconds;
 an unset time is None.
 */
module BackupStamp {
  import opened Wrappers

  type Time = int

  /** stampSettleAttempts. */
  const SETTLE_ATTEMPTS := 5

  datatype ObjectRef = ObjectRef(namespace: string, name: string, uid: string) {
    predicate Complete() {
      namespace != "" && name != "" && uid != ""
    }
  }

  datatype Stamp = Stamp(
    backup: ObjectRef,
    source: ObjectRef,
    pitrArchiveID: string,
    site: string,
    serverID: nat,
    includeSchemas: seq<string>,
    excludeSchemas: seq<string>,
    start: Option<Time>,
    end: Option<Time>,
    createdAt: Option<Time>)
  {
    /** The dump finished: serverClock.end is set. */
    predicate Complete() {
      end.Some?
    }

    /** What every stored stamp carries, whether or not the dump has finished. */
    predicate Valid() {
      && backup.Complete()
      && source.Complete()
      && site != ""
      && serverID != 0
      && start.Some?
      && (end.Some? ==> start.value <= end.value)
      && createdAt.Some?
    }

    /** The stamp without its clock and creation time: what a retry must agree on. */
    function Identity(): (id: Stamp)
    {
      this.(start := None, end := None, createdAt := None)
    }
  }

  datatype StampError =
    | StampInvalid
    | StampConflict
    | RewriteConflict
    | StoreError

  /** What a start step does with a stamp already at its key. */
  function AdoptExistingStamp(existing: Stamp, desired: Stamp): (r: Result<Stamp, StampError>)
  {
    if existing.Identity() != desired.Identity() then Err(StampConflict)
    else if existing.Complete() then Err(StampConflict)
    else Ok(existing)
  }

  /** The unfinished stamp of an earlier backup of desired's namespace and name. */
  predicate AbandonedStampOf(existing: Stamp, desired: Stamp)
  {
    && existing.backup.namespace == desired.backup.namespace
    && existing.backup.name == desired.backup.name
    && existing.backup.uid != desired.backup.uid
    && !existing.Complete()
  }

  /** Whether next may replace prev at the stamp key. */
  function CheckStampEndRewrite(prev: Stamp, next: Stamp): (r: Result<(), StampError>)
  {
    if !next.Valid() then Err(StampInvalid)
    else if !next.Complete() then Err(RewriteConflict)
    else if prev.Complete() && prev.end != next.end then Err(RewriteConflict)
    else if prev.(end := None) != next.(end := None) then Err(RewriteConflict)
    else Ok(())
  }

  // ------------------------------------------------------- in the stamp's fields

  /** The fields that say which dump of which server it is. */
  predicate SameDump(a: Stamp, b: Stamp) {
    && a.backup == b.backup && a.source == b.source && a.pitrArchiveID == b.pitrArchiveID
    && a.site == b.site && a.serverID == b.serverID
    && a.includeSchemas == b.includeSchemas && a.excludeSchemas == b.excludeSchemas
  }

  /** Every field a stored stamp needs is set. */
  predicate Filled(s: Stamp) {
    && s.backup.namespace != "" && s.backup.name != "" && s.backup.uid != ""
    && s.source.namespace != "" && s.source.name != "" && s.source.uid != ""
    && s.site != "" && s.serverID != 0 && s.start.Some? && s.createdAt.Some?
  }

  lemma {:induction false} ValidIff(s: Stamp)
    ensures s.Valid() <==> Filled(s) && (s.end.Some? ==> s.start.value <= s.end.value)
  {
  }

  /** An existing stamp is adopted, as it is, exactly when it is of the same dump and unfinished. */
  lemma {:induction false} AdoptsIff(existing: Stamp, desired: Stamp)
    ensures AdoptExistingStamp(existing, desired) ==
            if SameDump(existing, desired) && existing.end.None? then Ok(existing) else Err(StampConflict)
  {
  }

  /** A stamp is abandoned exactly when it is unfinished and of another backup of the same namespace and name. */
  lemma {:induction false} AbandonedIff(existing: Stamp, desired: Stamp)
    ensures AbandonedStampOf(existing, desired) <==>
            && existing.end.None? && existing.backup.uid != desired.backup.uid
            && existing.backup.namespace == desired.backup.namespace && existing.backup.name == desired.backup.name
  {
  }

  /**
   A rewrite is allowed exactly when it sets an end no earlier than the start,
   the end is new or the one already there, and nothing else changes.
   */
  lemma {:induction false} RewriteAllowedIff(prev: Stamp, next: Stamp)
    ensures CheckStampEndRewrite(prev, next).Ok? <==>
            && Filled(next) && next.end.Some? && next.start.value <= next.end.value
            && (prev.end.None? || prev.end == next.end)
            && SameDump(prev, next) && prev.start == next.start && prev.createdAt == next.createdAt
    ensures CheckStampEndRewrite(prev, next) == Err(StampInvalid) <==>
            !Filled(next) || (next.end.Some? && next.end.value < next.start.value)
  {
  }

  /** So adding an end to a stored stamp fails for one of two reasons. */
  lemma {:induction false} EndRefusedIff(own: Stamp, end: Time)
    requires Filled(own)
    ensures CheckStampEndRewrite(own, own.(end := Some(end))) ==
            if end < own.start.value then Err(StampInvalid)
            else if own.end.Some? && own.end.value != end then Err(RewriteConflict)
            else Ok(())
  {
  }
}
