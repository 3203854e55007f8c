/**
 The binlog retention cutoff (cmd/bloodraven/pitr_retention.go:24-99): one
 pass over the backups of a namespace, which fails closed. The answer is
 characterised without reference to the pass, and shown to depend on the
 multiset of backups alone.
 */
module Retention {
  import opened Wrappers
  import opened Text
  import opened Sorting

  type Time = int

  /** The zero time.Time. */
  const ZERO: Time := 0

  datatype Phase = Pending | Running | Succeeded | Failed | Other(name: string)

  /**
   One listed backup. `gtid` is the canonical text of its executed GTID set, or
   None when the set is malformed or empty; `readCheck` is what asking the API
   server whether a verification still reads the backup answers.
   */
  datatype Backup = Backup(
    group: string, deleting: bool, held: bool, readCheck: Result<bool, string>,
    phase: Phase, gtid: Option<string>, start: Option<Time>)

  datatype Reason = BackupInFlight | BackupMetadataUnknown | NoRetainedBackups

  datatype Answer = Deferred(reason: Reason) | Cutoff(time: Time, retainedGtids: seq<string>)

  // --------------------------------------------------------- what a backup says

  /** A backup being deleted asks the API server, unless it is known to be held or never was readable. */
  predicate Asks(b: Backup, group: string) {
    b.group == group && b.deleting && b.phase == Succeeded && !b.held
  }

  /** The backup's group is the one asked for and its artifact is kept, or may still be. */
  predicate Kept(b: Backup, group: string) {
    b.group == group &&
    (b.deleting ==> b.phase == Succeeded && (b.held || b.readCheck == Ok(true)))
  }

  predicate InFlight(b: Backup, group: string) {
    Kept(b, group) && b.phase != Succeeded && b.phase != Failed
  }

  /** A kept dump whose position is known. */
  predicate Retained(b: Backup, group: string) {
    Kept(b, group) && b.phase == Succeeded && b.gtid.Some? && b.start.Some? && b.start.value != ZERO
  }

  predicate Unknown(b: Backup, group: string) {
    Kept(b, group) && b.phase == Succeeded && !Retained(b, group)
  }

  ghost predicate CheckFails(list: seq<Backup>, group: string) {
    exists b | b in list :: Asks(b, group) && b.readCheck.Err?
  }

  /** The GTID sets of the retained backups, in list order. */
  function Gtids(list: seq<Backup>, group: string): (g: seq<string>)
  {
    if list == [] then [] else GtidOf(list[0], group) + Gtids(list[1..], group)
  }

  function GtidOf(b: Backup, group: string): (g: seq<string>)
  {
    if Retained(b, group) then [b.gtid.value] else []
  }

  /** The answer the retention rules call for. */
  ghost predicate IsAnswer(list: seq<Backup>, group: string, a: Answer) {
    match a
    case Deferred(BackupInFlight) => exists b | b in list :: InFlight(b, group)
    case Deferred(BackupMetadataUnknown) =>
      (forall b | b in list :: !InFlight(b, group)) && exists b | b in list :: Unknown(b, group)
    case Deferred(NoRetainedBackups) =>
      forall b | b in list :: !InFlight(b, group) && !Unknown(b, group) && !Retained(b, group)
    case Cutoff(t, gtids) =>
      (forall b | b in list :: !InFlight(b, group) && !Unknown(b, group)) &&
      Earliest(list, group, t) && Sorted(gtids) && multiset(gtids) == multiset(Gtids(list, group))
  }

  ghost predicate Earliest(list: seq<Backup>, group: string, t: Time) {
    (exists b | b in list :: Retained(b, group) && b.start == Some(t)) &&
    forall b | b in list :: Retained(b, group) ==> t <= b.start.value
  }

  // ------------------------------------------------------------------- the pass

  /** The variables of the pass. */
  datatype Tally = Tally(cutoff: Option<Time>, retained: seq<string>, unknown: bool, inFlight: bool)

  /** What the pass knows of the backups seen so far. */
  ghost predicate Counts(t: Tally, list: seq<Backup>, group: string) {
    !CheckFails(list, group) &&
    (t.inFlight <==> exists b | b in list :: InFlight(b, group)) &&
    (t.unknown <==> exists b | b in list :: Unknown(b, group)) &&
    (t.cutoff.None? ==> forall b | b in list :: !Retained(b, group)) &&
    (t.cutoff.Some? ==> Earliest(list, group, t.cutoff.value)) &&
    t.retained == Gtids(list, group)
  }

  /** The body of the loop. */
  method Examine(b: Backup, group: string, t: Tally) returns (r: Result<Tally, string>)
    ensures r.Err? <==> Asks(b, group) && b.readCheck.Err?
    ensures r.Ok? && Retained(b, group) ==>
      r.value.cutoff == (if t.cutoff.Some? && t.cutoff.value <= b.start.value then t.cutoff else b.start) &&
      r.value.retained == t.retained + [b.gtid.value]
    ensures r.Ok? && !Retained(b, group) ==> r.value.cutoff == t.cutoff && r.value.retained == t.retained
    ensures r.Ok? ==> (r.value.unknown <==> t.unknown || Unknown(b, group))
    ensures r.Ok? ==> (r.value.inFlight <==> t.inFlight || InFlight(b, group))
  {
    if b.group != group {
      return Ok(t);
    }
    if b.deleting && b.phase != Succeeded {
      return Ok(t);
    }
    if b.deleting && !b.held {
      if b.readCheck.Err? {
        return Err(b.readCheck.error);
      }
      if !b.readCheck.value {
        return Ok(t);
      }
    }
    if b.phase == Failed {
      return Ok(t);
    }
    if b.phase != Succeeded {
      return Ok(t.(inFlight := true));
    }
    if b.gtid.None? || b.start.None? || b.start.value == ZERO {
      return Ok(t.(unknown := true));
    }
    var cutoff := t.cutoff;
    if cutoff.None? || b.start.value < cutoff.value {
      cutoff := Some(b.start.value);
    }
    return Ok(t.(retained := t.retained + [b.gtid.value], cutoff := cutoff));
  }

  /** The switch after the loop. */
  function Verdict(t: Tally): (a: Answer)
  {
    if t.inFlight then Deferred(BackupInFlight)
    else if t.unknown then Deferred(BackupMetadataUnknown)
    else if t.cutoff.None? then Deferred(NoRetainedBackups)
    else Cutoff(t.cutoff.value, SortStrings(t.retained))
  }

  lemma {:induction false} TallyDecides(t: Tally, list: seq<Backup>, group: string)
    requires Counts(t, list, group)
    ensures IsAnswer(list, group, Verdict(t))
  {
    if !t.inFlight && !t.unknown && t.cutoff.Some? {
      assert IsAnswer(list, group, Cutoff(t.cutoff.value, SortStrings(t.retained)));
    }
  }

  lemma {:induction false} GtidsConcat(a: seq<Backup>, b: seq<Backup>, group: string)
    ensures Gtids(a + b, group) == Gtids(a, group) + Gtids(b, group)
  {
    if a == [] {
      assert a + b == b;
      assert Gtids(a, group) == [];
    } else {
      var tail := a[1..];
      GtidsConcat(tail, b, group);
      assert (a + b)[1..] == tail + b && (a + b)[0] == a[0];
      ListAssoc(GtidOf(a[0], group), Gtids(tail, group), Gtids(b, group));
    }
  }

  lemma {:induction false} CountsOneMore(t: Tally, list: seq<Backup>, b: Backup, group: string, t': Tally)
    requires Counts(t, list, group) && !(Asks(b, group) && b.readCheck.Err?)
    requires Retained(b, group) ==>
      t'.cutoff == (if t.cutoff.Some? && t.cutoff.value <= b.start.value then t.cutoff else b.start) &&
      t'.retained == t.retained + [b.gtid.value]
    requires !Retained(b, group) ==> t'.cutoff == t.cutoff && t'.retained == t.retained
    requires t'.unknown <==> t.unknown || Unknown(b, group)
    requires t'.inFlight <==> t.inFlight || InFlight(b, group)
    ensures Counts(t', list + [b], group)
  {
    var all := list + [b];
    GtidsConcat(list, [b], group);
    assert Gtids([b], group) == GtidOf(b, group);
    assert forall x :: x in all <==> x in list || x == b;
  }

  /** One round of the pass: the tally of one more backup, or the failure of its reader check. */
  method CountNext(list: seq<Backup>, i: nat, group: string, t: Tally) returns (r: Result<Tally, string>)
    requires i < |list| && Counts(t, list[..i], group)
    ensures r.Ok? ==> Counts(r.value, list[..i + 1], group)
    ensures r.Err? ==> CheckFails(list, group)
  {
    r := Examine(list[i], group, t);
    if r.Ok? {
      CountsOneMore(t, list[..i], list[i], group, r.value);
      assert list[..i + 1] == list[..i] + [list[i]];
    } else {
      assert list[i] in list;
    }
  }

  method ResolveCutoff(list: seq<Backup>, group: string) returns (r: Result<Answer, string>)
    ensures r.Err? <==>
      exists b | b in list :: b.group == group && b.deleting && b.phase == Succeeded && !b.held && b.readCheck.Err?
    ensures r.Ok? ==> IsAnswer(list, group, r.value)
  {
    var t := Tally(None, [], false, false);
    var i := 0;
    while i < |list|
      invariant 0 <= i <= |list|
      invariant Counts(t, list[..i], group)
    {
      var next := CountNext(list, i, group, t);
      if next.Err? {
        return Err(next.error);
      }
      t, i := next.value, i + 1;
    }
    assert list[..i] == list;
    TallyDecides(t, list, group);
    return Ok(Verdict(t));
  }

  // ------------------------------------------------------------------ the claims

  /** A dump of the group that a restore or a verification may still read: one under deletion only while it is held or being read. */
  predicate MayBeRead(b: Backup, group: string) {
    b.group == group && b.phase == Succeeded && (b.deleting ==> b.held || b.readCheck == Ok(true))
  }

  /**
   What a cutoff promises. Every dump that may still be read began at it or
   later and has its GTID set among the retained ones, a held dump under
   deletion like any other; one of them began right at it; no other set is
   retained; and no backup of the group is still being made.
   */
  lemma {:induction false} CutoffKeepsDumps(list: seq<Backup>, group: string, a: Answer)
    requires IsAnswer(list, group, a) && a.Cutoff?
    ensures forall b | b in list && MayBeRead(b, group) ::
              && b.start.Some? && b.start.value != 0 && a.time <= b.start.value
              && b.gtid.Some? && b.gtid.value in a.retainedGtids
    ensures exists b | b in list :: MayBeRead(b, group) && b.start == Some(a.time)
    ensures forall g | g in a.retainedGtids :: exists b | b in list :: MayBeRead(b, group) && b.gtid == Some(g)
    ensures forall b | b in list && b.group == group && !b.deleting :: b.phase == Succeeded || b.phase == Failed
  {
    forall b | b in list && MayBeRead(b, group) ensures Retained(b, group) && b.gtid.value in a.retainedGtids {
      assert Kept(b, group);
      GtidListed(list, group, b);
      assert b.gtid.value in multiset(a.retainedGtids);
    }
    forall g | g in a.retainedGtids ensures exists b | b in list :: MayBeRead(b, group) && b.gtid == Some(g) {
      assert g in multiset(a.retainedGtids);
      var b := GtidOfSome(list, group, g);
    }
    forall b | b in list && b.group == group && !b.deleting ensures b.phase == Succeeded || b.phase == Failed {
      assert !InFlight(b, group);
    }
  }

  lemma {:induction false} GtidListed(list: seq<Backup>, group: string, b: Backup)
    requires b in list
    ensures Retained(b, group) ==> b.gtid.value in Gtids(list, group)
  {
    if list[0] != b { GtidListed(list[1..], group, b); }
  }

  lemma {:induction false} GtidOfSome(list: seq<Backup>, group: string, g: string) returns (b: Backup)
    requires g in Gtids(list, group)
    ensures b in list && Retained(b, group) && b.gtid == Some(g)
  {
    if g in GtidOf(list[0], group) {
      b := list[0];
    } else {
      b := GtidOfSome(list[1..], group, g);
    }
  }

  /** A backup of the group, not under deletion, that has neither succeeded nor failed, whatever its phase is called. */
  predicate BeingMade(b: Backup, group: string) {
    b.group == group && !b.deleting && b.phase != Succeeded && b.phase != Failed
  }

  /** A dump that may be read and lacks its GTID set or its start time. */
  predicate Incomplete(b: Backup, group: string) {
    MayBeRead(b, group) && (b.gtid.None? || b.start.None? || b.start == Some(0))
  }

  /** Each deferral has its one reason, and a backup being made comes before one that is incomplete. */
  lemma {:induction false} DeferralReasons(list: seq<Backup>, group: string, a: Answer)
    requires IsAnswer(list, group, a)
    ensures a == Deferred(BackupInFlight) <==> exists b | b in list :: BeingMade(b, group)
    ensures a == Deferred(BackupMetadataUnknown) <==>
            (forall b | b in list :: !BeingMade(b, group)) && exists b | b in list :: Incomplete(b, group)
    ensures a == Deferred(NoRetainedBackups) <==>
            forall b | b in list :: !BeingMade(b, group) && !MayBeRead(b, group)
  {
    forall b ensures InFlight(b, group) <==> BeingMade(b, group) {}
    forall b ensures Unknown(b, group) <==> Incomplete(b, group) {}
    forall b ensures Retained(b, group) <==> MayBeRead(b, group) && !Incomplete(b, group) {}
  }

  lemma {:induction false} GtidsWithout(list: seq<Backup>, k: nat, group: string)
    requires k < |list|
    ensures multiset(Gtids(list, group)) == multiset(Gtids(Without(list, k), group)) + multiset(GtidOf(list[k], group))
  {
    var l, x, r := list[..k], list[k], list[k + 1..];
    GtidsConcat(l, r, group);
    GtidsConcat(l, [x] + r, group);
    assert list == l + ([x] + r);
    assert ([x] + r)[1..] == r;
    CountsSwap(Gtids(l, group), GtidOf(x, group), Gtids(r, group));
  }

  lemma {:induction false} CountsSwap(a: seq<string>, b: seq<string>, c: seq<string>)
    ensures multiset(a + (b + c)) == multiset(a + c) + multiset(b)
  {
  }

  /** The answer does not depend on the order in which the API server lists the backups. */
  lemma {:induction false} OrderIndependent(a: seq<Backup>, b: seq<Backup>, group: string, x: Answer, y: Answer)
    requires multiset(a) == multiset(b)
    requires IsAnswer(a, group, x) && IsAnswer(b, group, y)
    ensures x == y
  {
    SameMembers(a, b);
    SameMembers(b, a);
    if x.Cutoff? && y.Cutoff? {
      GtidsMonotone(a, b, group);
      GtidsMonotone(b, a, group);
      SortedUnique(x.retainedGtids, y.retainedGtids);
    }
  }

  lemma {:induction false} SameMembers(a: seq<Backup>, b: seq<Backup>)
    requires multiset(a) <= multiset(b)
    ensures forall x | x in a :: x in b
  {
    forall x | x in a ensures x in b {
      assert x in multiset(a);
      assert x in multiset(b);
    }
  }

  /** A cutoff is answered exactly when nothing is in flight, nothing is unknown and something is retained. */
  lemma {:induction false} CutoffIff(list: seq<Backup>, group: string, a: Answer)
    requires IsAnswer(list, group, a)
    ensures a.Cutoff? <==>
      (forall b | b in list :: !InFlight(b, group) && !Unknown(b, group)) && (exists b | b in list :: Retained(b, group))
  {
  }

  /**
   Backups that appear can only hold the cutoff back: where both lists get a
   cutoff, it is no later and covers every GTID set the smaller list retained;
   and where the larger list gets one, the smaller deferred only for want of a
   retained backup.
   */
  lemma {:induction false} MoreBackupsNeverLater(few: seq<Backup>, many: seq<Backup>, group: string, x: Answer, y: Answer)
    requires multiset(few) <= multiset(many)
    requires IsAnswer(few, group, x) && IsAnswer(many, group, y) && y.Cutoff?
    ensures x == Deferred(NoRetainedBackups) ||
            (x.Cutoff? && y.time <= x.time && multiset(x.retainedGtids) <= multiset(y.retainedGtids))
  {
    SameMembers(few, many);
    GtidsMonotone(few, many, group);
    if x.Deferred? {
      assert x.reason != BackupInFlight && x.reason != BackupMetadataUnknown;
    }
  }

  /** Retained GTID sets are counted whatever the order of the lists. */
  lemma {:induction false} GtidsMonotone(few: seq<Backup>, many: seq<Backup>, group: string)
    requires multiset(few) <= multiset(many)
    ensures multiset(Gtids(few, group)) <= multiset(Gtids(many, group))
    decreases |few|
  {
    if few != [] {
      var x := few[0];
      assert x in multiset(many);
      var k :| 0 <= k < |many| && many[k] == x;
      WithoutCounts(few, 0);
      WithoutCounts(many, k);
      Cancel(multiset(Without(few, 0)), multiset(Without(many, k)), multiset{x});
      GtidsMonotone(Without(few, 0), Without(many, k), group);
      GtidsWithout(few, 0, group);
      GtidsWithout(many, k, group);
    }
  }
}
