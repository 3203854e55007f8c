/**
 The end step and the write-and-confirm loop under it (finishBackupStamp,
 settleBackupStamp): a store whose writes may land although they report an
 error, and whose reads may fail.

 The loop's discipline is the store's typestate: its calls require what must
 have been seen before them. A write is allowed as the first call, or directly
 after a read that returned the earlier value; after a read that showed
 anything else no call is allowed.
 */
module StampSettle {
  import opened Wrappers
  import opened BackupStamp

  type Loaded = Result<Option<Stamp>, StampError>

  /** The last call the store served since the session began. */
  datatype LastCall = Nothing | Wrote | Read(result: Loaded)
  {
    /** A read that proved prev is stored. */
    predicate Showed(prev: Option<Stamp>) {
      Read? && result.Ok? && result.value == prev
    }

    /** A read that failed, or that proved prev is still stored. */
    predicate Undecided(prev: Option<Stamp>) {
      Showed(prev) || (Read? && result.Err? && result.error == StoreError)
    }
  }

  class StampStore {
    var held: Option<Stamp>
    var last: LastCall
    var gets: nat
    var puts: nat
    /** How many reads failed. */
    ghost var failed: nat
    /** Nobody else writes this key. */
    const exclusive: bool

    constructor (held: Option<Stamp>, exclusive: bool)
      ensures this.held == held && this.exclusive == exclusive
      ensures last == Nothing && gets == 0 && puts == 0 && failed == 0
    {
      this.held := held;
      this.exclusive := exclusive;
      last, gets, puts := Nothing, 0, 0;
      failed := 0;
    }

    /** A new session: no call has been served in it. */
    method Begin()
      modifies this`last, this`gets, this`puts, this`failed
      ensures last == Nothing && gets == 0 && puts == 0 && failed == 0
    {
      last, gets, puts := Nothing, 0, 0;
      failed := 0;
    }

    /** What other writers do to the key between two calls. */
    method Others()
      modifies this`held
      ensures exclusive ==> held == old(held)
    {
    }

    /** A write over prev: it may land or not, and may report an error either way. */
    method Put(stamp: Stamp, ghost prev: Option<Stamp>) returns (ok: bool)
      requires last.Nothing? || last.Showed(prev)
      modifies this`held, this`last, this`puts
      ensures held == old(held) || held == Some(stamp)
      ensures ok ==> held == Some(stamp)
      ensures last == Wrote && puts == old(puts) + 1
    {
      var lands: bool := *;
      var lost: bool := *;
      if lands { held := Some(stamp); }
      ok := lands && !lost;
      last, puts := Wrote, puts + 1;
    }

    /** loadBackupStamp: the stamp, a transient error, or another writer's unreadable bytes. */
    method Get(ghost prev: Option<Stamp>) returns (r: Loaded)
      requires last.Nothing? || last.Wrote? || last.Undecided(prev)
      modifies this`last, this`gets, this`failed
      ensures failed == old(failed) + if r.Err? then 1 else 0
      ensures r.Ok? ==> r.value == held
      ensures r.Err? ==> r.error == StoreError || (r.error == StampConflict && !exclusive)
      ensures last == Read(r) && gets == old(gets) + 1
    {
      var fail: bool := *;
      var unreadable: bool := *;
      r := if fail then Err(StoreError) else if unreadable && !exclusive then Err(StampConflict) else Ok(held);
      last, gets := Read(r), gets + 1;
      failed := if r.Err? then failed + 1 else failed;
    }
  }

  /** What the key may hold once only prev was there and only want was written. */
  predicate Settled(held: Option<Stamp>, prev: Option<Stamp>, want: Stamp) {
    held == prev || held == Some(want)
  }

  /** What one read-back decides; None when the write has to be tried or read again. */
  function Judge(got: Loaded, prev: Option<Stamp>, want: Stamp): (v: Option<Result<(), StampError>>)
  {
    if got.Err? then (if got.error == StampConflict then Some(Err(StampConflict)) else None)
    else if got.value == Some(want) then Some(Ok(()))
    else if got.value != prev then Some(Err(StampConflict))
    else None
  }

  /**
   settleBackupStamp. write says whether the caller gave a write; prev is what
   the key held before. Success means the last read showed want; a conflict is
   reported only for someone else's stamp, whose read was the last call; on a
   key only this caller writes, every end leaves prev or want. It gives up only
   after its last attempt or once it is cancelled, having written once, and again
   after every read that did not fail. `patience` says after which attempt the
   wait for the next one is cancelled.
   */
  method Settle(store: StampStore, prev: Option<Stamp>, want: Stamp, write: bool, patience: nat) returns (r: Result<(), StampError>)
    modifies store
    ensures store.gets <= 5 && store.puts <= (if write then 5 else 0)
    ensures store.last.Read?
    ensures r.Err? ==> !store.last.Showed(Some(want))
    ensures r == Err(StoreError) ==> store.gets == 5 || store.gets >= patience
    ensures write ==> store.puts >= 1 && store.puts + store.failed >= store.gets
    ensures r.Ok? ==> store.last.Showed(Some(want)) && (store.exclusive ==> store.held == Some(want))
    ensures r.Err? && r.error == StampConflict ==> !store.last.Undecided(prev) && !store.last.Showed(Some(want))
    ensures r.Err? && r.error != StampConflict ==> r.error == StoreError && store.last.Undecided(prev)
    ensures store.exclusive && Settled(old(store.held), prev, want) ==>
              Settled(store.held, prev, want) && (r.Err? ==> r.error == StoreError)
    ensures store.exclusive ==> store.held == old(store.held) || (write && store.held == Some(want))
  {
    store.Begin();
    if write {
      var sent := store.Put(want, prev);
    }
    var attempt := 1;
    while true
      invariant 1 <= attempt <= SETTLE_ATTEMPTS
      invariant store.gets == attempt - 1 && store.puts <= (if write then attempt else 0)
      invariant write ==> store.puts >= 1 && store.puts + store.failed >= attempt
      invariant store.last.Nothing? || store.last.Wrote? || store.last.Undecided(prev)
      invariant store.exclusive ==> store.held == old(store.held) || (write && store.held == Some(want))
      decreases SETTLE_ATTEMPTS - attempt
    {
      store.Others();
      var got := store.Get(prev);
      var verdict := Judge(got, prev, want);
      var cancelled := attempt >= patience;
      if verdict.Some? {
        return verdict.value;
      }
      if attempt >= SETTLE_ATTEMPTS || cancelled {
        return Err(StoreError);
      }
      store.Others();
      if write && got.Ok? {
        var sent := store.Put(want, prev);
      }
      attempt := attempt + 1;
    }
  }

  /** loadOwnStamp: the stamp at the key, which must be template's. */
  method LoadOwnStamp(store: StampStore, template: Stamp) returns (r: Result<Stamp, StampError>)
    modifies store`last, store`gets, store`puts, store`failed
    ensures r.Ok? ==> store.held == Some(r.value) && SameDump(r.value, template) && r.value.Identity() == template.Identity()
    ensures r == Err(StoreError) ==> store.failed > 0
    ensures r == Err(StampConflict) && store.exclusive ==> store.held.None? || !SameDump(store.held.value, template)
    ensures r.Err? ==> r.error == StoreError || r.error == StampConflict
    ensures store.held.None? || store.held.value.Identity() != template.Identity() ==> r.Err?
  {
    store.Begin();
    var got := store.Get(None);
    if got.Err? {
      return Err(got.error);
    }
    if got.value.None? || got.value.value.Identity() != template.Identity() {
      return Err(StampConflict);
    }
    r := Ok(got.value.value);
  }

  /**
   finishBackupStamp: success means the last read showed the returned stamp,
   which is template's, with the end set. On a key only this backup writes the
   key then holds it; whatever is returned, it holds the earlier stamp or that
   stamp with the end added, and a finished stamp is never changed. Each refusal
   has its reason in the stamp that was there.
   */
  method FinishBackupStamp(store: StampStore, template: Stamp, end: Time, patience: nat) returns (r: Result<Stamp, StampError>)
    modifies store
    ensures r == Err(RewriteConflict) ==>
      old(store.held).Some? && old(store.held.value).end.Some? && old(store.held.value).end != Some(end)
    ensures r == Err(StampInvalid) ==>
      old(store.held).Some? && (!Filled(old(store.held.value)) || end < old(store.held.value).start.value)
    ensures r == Err(StampConflict) && store.exclusive ==> old(store.held).None? || !SameDump(old(store.held.value), template)
    ensures r == Err(StoreError) ==> store.failed > 0 || store.gets == 5 || store.gets >= patience
    ensures r.Ok? ==>
      && store.last.Showed(Some(r.value)) && r.value.end == Some(end) && r.value.Valid()
      && r.value.Identity() == template.Identity()
      && old(store.held).Some? && r.value.(end := None) == old(store.held.value).(end := None)
    ensures r.Ok? && store.exclusive ==> store.held == Some(r.value)
    ensures store.exclusive ==>
      store.held == old(store.held) ||
      (old(store.held).Some? && store.held == Some(old(store.held.value).(end := Some(end))))
    ensures store.exclusive && old(store.held).Some? && old(store.held.value).Complete() ==> store.held == old(store.held)
    ensures old(store.held).Some? && old(store.held.value).Complete() && old(store.held.value).end != Some(end) ==> r.Err?
  {
    var loaded := LoadOwnStamp(store, template);
    if loaded.Err? {
      return Err(loaded.error);
    }
    var prev := loaded.value;
    var next := prev.(end := Some(end));
    RewriteAllowedIff(prev, next);
    var checked := CheckStampEndRewrite(prev, next);
    if checked.Err? {
      return Err(checked.error);
    }
    var settled := Settle(store, Some(prev), next, prev != next, patience);
    r := if settled.Ok? then Ok(next) else Err(settled.error);
  }
}
