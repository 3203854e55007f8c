/**
 The PITR cutoff endpoint's per-caller limiter
 (cmd/bloodraven/pitr_cutoff_admission.go:63-109). The caller's host is given
 already normalised; the clock is passed in and never goes back.

 Go iterates a map in any order, so the eviction scan is modelled over every
 order of the keys.
 */
module CallerLimiter {
  import opened Wrappers

  type Host = string
  type Time = int
  type Callers = map<Host, Time>

  /** maxPITRCutoffCallers. */
  const MAX_CALLERS := 1024

  /** The callers whose last admission is younger than ttl. */
  function Live(callers: Callers, now: Time, ttl: int): (live: Callers)
    ensures live.Keys <= callers.Keys
  {
    map h | h in callers && now - callers[h] < ttl :: callers[h]
  }

  /** The eviction scan's oldest caller and its time; "" stands for "none yet", also when it is a key. */
  function Scan(order: seq<Host>, at: Callers): (r: (Host, Time))
    requires forall k | k in order :: k in at
    ensures order != [] ==> r.0 in order && r.1 == at[r.0]
    decreases |order|
  {
    if order == [] then ("", 0)
    else
      var n := |order| - 1;
      var (oldest, oldestAt) := Scan(order[..n], at);
      var k := order[n];
      if oldest == "" || at[k] < oldestAt then (k, at[k]) else (oldest, oldestAt)
  }

  /** Each live caller once, in some order. */
  ghost predicate OrderOf(order: seq<Host>, at: Callers) {
    && (forall i, j | 0 <= i < j < |order| :: order[i] != order[j])
    && (forall h :: h in order <==> h in at)
  }

  predicate IsOldest(at: Callers, h: Host) {
    h in at && forall k | k in at :: at[h] <= at[k]
  }

  /** What a request may do: refuse, record, or record over an evicted caller. */
  ghost predicate Admits(before: Callers, host: Host, now: Time, ttl: int, ok: bool, after: Callers) {
    if host in before && now - before[host] < ttl then !ok && after == before
    else if |before| < MAX_CALLERS then ok && after == before[host := now]
    else
      var live := Live(before, now, ttl);
      && ok
      && if |live| < MAX_CALLERS then after == live[host := now]
         else exists order :: OrderOf(order, live) && after == (live - {Scan(order, live).0})[host := now]
  }

  class Limiter {
    const ttl: int
    var callers: Callers

    constructor (ttl: int)
      ensures this.ttl == ttl && callers == map[]
    {
      this.ttl := ttl;
      callers := map[];
    }

    /** admit. */
    method Admit(host: Host, now: Time) returns (ok: bool)
      modifies this
      ensures Admits(old(callers), host, now, ttl, ok, callers)
    {
      if host in callers && now - callers[host] < ttl {
        return false;
      }
      if |callers| >= MAX_CALLERS {
        var oldest := PurgeAndFindOldest(now);
        if |callers| >= MAX_CALLERS {
          callers := callers - {oldest};
        }
      }
      callers := callers[host := now];
      return true;
    }

    /** The scan: drops expired callers and remembers the oldest of the others. */
    method PurgeAndFindOldest(now: Time) returns (oldest: Host)
      modifies this
      ensures callers == Live(old(callers), now, ttl)
      ensures exists order :: OrderOf(order, callers) && oldest == Scan(order, callers).0
    {
      var live := Live(callers, now, ttl);
      var keys := callers.Keys;
      var oldestAt := 0;
      oldest := "";
      ghost var order: seq<Host> := [];
      while keys != {}
        invariant keys <= callers.Keys
        invariant callers.Keys == keys + live.Keys
        invariant forall h | h in callers :: h in old(callers) && callers[h] == old(callers)[h]
        invariant Scanned(order, keys, live) && (oldest, oldestAt) == Scan(order, live)
        decreases keys
      {
        var key :| key in keys;
        ScannedOneMore(order, keys, live, key);
        keys := keys - {key};
        var at := callers[key];
        if now - at >= ttl {
          callers := callers - {key};
        } else {
          if oldest == "" || at < oldestAt {
            oldest, oldestAt := key, at;
          }
          order := order + [key];
        }
      }
      assert callers.Keys == live.Keys;
      assert callers == live;
      ScannedAll(order, live);
    }
  }

  /** The scan has met, in this order, the live callers that it need not meet again. */
  ghost predicate Scanned(order: seq<Host>, keys: set<Host>, live: Callers) {
    (forall h | h in order :: h in live && h !in keys) &&
    (forall h | h in live :: h in keys || h in order) &&
    (forall i, j | 0 <= i < j < |order| :: order[i] != order[j])
  }

  lemma {:induction false} ScannedOneMore(order: seq<Host>, keys: set<Host>, live: Callers, key: Host)
    requires Scanned(order, keys, live) && key in keys
    ensures key !in live ==> Scanned(order, keys - {key}, live)
    ensures key in live ==> Scanned(order + [key], keys - {key}, live) && (order + [key])[..|order|] == order
  {
  }

  lemma {:induction false} ScannedAll(order: seq<Host>, live: Callers)
    requires Scanned(order, {}, live)
    ensures OrderOf(order, live)
  {
  }

  // ------------------------------------------------- which caller is evicted

  /** What a scan knows after a prefix: only callers younger than "" may have been overlooked. */
  lemma {:induction false} ScanPrefix(order: seq<Host>, at: Callers)
    requires forall k | k in order :: k in at
    requires forall i, j | 0 <= i < j < |order| :: order[i] != order[j]
    ensures var (o, _) := Scan(order, at);
            forall k | k in order && k != "" ::
              || (o != "" && at[o] <= at[k])
              || ("" in order && at[""] < at[k])
    decreases |order|
  {
    if order != [] {
      var n := |order| - 1;
      var before := order[..n];
      ScanPrefix(before, at);
      assert order[n] !in before;
      assert forall k :: k in order <==> k in before || k == order[n];
    }
  }

  /** "" is tracked and strictly older than every other caller. */
  predicate EmptyHostIsOldest(at: Callers) {
    "" in at && (exists k :: k in at && k != "") && forall k | k in at && k != "" :: at[""] < at[k]
  }

  lemma {:induction false} ScanFindsOldest(order: seq<Host>, at: Callers)
    requires OrderOf(order, at) && at != map[] && !EmptyHostIsOldest(at)
    ensures IsOldest(at, Scan(order, at).0)
  {
    ScanPrefix(order, at);
    var o := Scan(order, at).0;
    assert at.Keys != {};
    var first :| first in at.Keys;
    assert first in order;
    if "" in at {
      if k0 :| k0 in at && k0 != "" && at[k0] <= at[""] {
        assert k0 in order;
      } else {
        assert at.Keys == {""};
      }
    }
    forall k | k in at ensures at[o] <= at[k] { assert k in order; }
  }

  /** After another key the scan never returns to "". */
  lemma {:induction false} ScanSkipsEmpty(order: seq<Host>, at: Callers)
    requires forall k | k in order :: k in at
    requires |order| >= 2 && order[0] == "" && forall i | 1 <= i < |order| :: order[i] != ""
    ensures Scan(order, at).0 != ""
    decreases |order|
  {
    var n := |order| - 1;
    if n > 1 {
      ScanSkipsEmpty(order[..n], at);
    } else {
      assert order[..n] == [""];
      assert Scan([""], at).0 == "";
    }
  }

  lemma {:induction false} SomeOrder(keys: set<Host>) returns (order: seq<Host>)
    ensures forall i, j | 0 <= i < j < |order| :: order[i] != order[j]
    ensures forall h :: h in order <==> h in keys
    decreases keys
  {
    if keys == {} {
      order := [];
    } else {
      var k :| k in keys;
      var rest := SomeOrder(keys - {k});
      order := [k] + rest;
    }
  }

  /**
   A full map evicts its oldest caller, whatever order the scan takes, exactly
   when the empty host is not tracked as strictly the oldest of several.
   */
  lemma {:induction false} EvictsOldestIff(at: Callers)
    requires at != map[]
    ensures (forall order | OrderOf(order, at) :: IsOldest(at, Scan(order, at).0)) <==> !EmptyHostIsOldest(at)
  {
    if EmptyHostIsOldest(at) {
      var rest := SomeOrder(at.Keys - {""});
      var order := [""] + rest;
      assert OrderOf(order, at);
      var k :| k in at && k != "";
      assert k in rest;
      ScanSkipsEmpty(order, at);
      assert !IsOldest(at, Scan(order, at).0);
    } else {
      forall order | OrderOf(order, at) ensures IsOldest(at, Scan(order, at).0) {
        ScanFindsOldest(order, at);
      }
    }
  }

  /** And where it is, the scan can settle on any other caller, the youngest included: no order of the map is excluded. */
  lemma {:induction false} AnyCallerEvictable(at: Callers, h: Host) returns (order: seq<Host>)
    requires EmptyHostIsOldest(at) && h in at && h != ""
    ensures OrderOf(order, at) && Scan(order, at).0 == h
  {
    var rest := SomeOrder(at.Keys - {"", h});
    var start := rest + [""];
    order := start + [h];
    assert order[..|order| - 1] == start && start[..|start| - 1] == rest;
    assert Scan(start, at).0 == "" by {
      if rest != [] { assert Scan(rest, at).0 in rest; }
    }
  }

  // ------------------------------------------------------------- whole runs

  datatype Request = Request(host: Host, now: Time)

  /** A run: the requests, their answers, and the map before each of them and after the last. */
  datatype Trace = Trace(requests: seq<Request>, answers: seq<bool>, maps: seq<Callers>)

  /** Every step is an admit call, from an empty map, on a clock that never goes back. */
  ghost predicate RunOf(t: Trace, ttl: int) {
    && |t.answers| == |t.requests| && |t.maps| == |t.requests| + 1 && t.maps[0] == map[]
    && (forall i | 0 <= i < |t.requests| ::
          Admits(t.maps[i], t.requests[i].host, t.requests[i].now, ttl, t.answers[i], t.maps[i + 1]))
    && (forall i, j | 0 <= i <= j < |t.requests| :: t.requests[i].now <= t.requests[j].now)
  }

  /** Request k was admitted for host h at time at. */
  ghost predicate AdmittedAt(t: Trace, k: nat, h: Host, at: Time)
    requires |t.answers| == |t.requests|
  {
    k < |t.requests| && t.answers[k] && t.requests[k] == Request(h, at)
  }

  lemma {:induction false} LiveSmaller(before: Callers, now: Time, ttl: int)
    ensures |Live(before, now, ttl)| <= |before|
  {
    SubsetSize(Live(before, now, ttl).Keys, before.Keys);
  }

  /** One step keeps the map within its bound. */
  lemma {:induction false} AdmitBounded(before: Callers, host: Host, now: Time, ttl: int, ok: bool, after: Callers)
    requires Admits(before, host, now, ttl, ok, after) && |before| <= MAX_CALLERS
    ensures |after| <= MAX_CALLERS
  {
    if ok && |before| >= MAX_CALLERS {
      var live := Live(before, now, ttl);
      LiveSmaller(before, now, ttl);
      if |live| >= MAX_CALLERS {
        var order :| OrderOf(order, live) && after == (live - {Scan(order, live).0})[host := now];
        EvictionMakesRoom(order, live, host, now);
      } else {
        GrowsByOne(live, host, now);
      }
    } else if ok {
      GrowsByOne(before, host, now);
    }
  }

  lemma {:induction false} EvictionMakesRoom(order: seq<Host>, live: Callers, host: Host, now: Time)
    requires OrderOf(order, live) && live != map[]
    ensures |(live - {Scan(order, live).0})[host := now]| <= |live|
  {
    var o := Scan(order, live).0;
    EvictedIsLive(order, live);
    assert (live - {o}).Keys == live.Keys - {o};
    GrowsByOne(live - {o}, host, now);
  }

  lemma {:induction false} GrowsByOne(m: Callers, host: Host, now: Time)
    ensures |m[host := now]| <= |m| + 1
  {
    assert m[host := now].Keys == m.Keys + {host};
  }

  lemma {:induction false} EvictedIsLive(order: seq<Host>, live: Callers)
    requires OrderOf(order, live) && live != map[]
    ensures Scan(order, live).0 in live
  {
    assert live.Keys != {};
    var first :| first in live.Keys;
    assert first in order;
  }

  lemma {:induction false} TracksAtMost(t: Trace, ttl: int, i: nat)
    requires RunOf(t, ttl) && i <= |t.requests|
    ensures |t.maps[i]| <= 1024
  {
    if i > 0 {
      TracksAtMost(t, ttl, i - 1);
      var r := t.requests[i - 1];
      AdmitBounded(t.maps[i - 1], r.host, r.now, ttl, t.answers[i - 1], t.maps[i]);
    }
  }

  /** Entries after a step are earlier entries or the admitted caller's. */
  lemma {:induction false} AdmitEntries(before: Callers, host: Host, now: Time, ttl: int, ok: bool, after: Callers, h: Host)
    requires Admits(before, host, now, ttl, ok, after) && h in after
    ensures (ok && h == host && after[h] == now) || (h in before && after[h] == before[h] && (ok ==> h != host))
  {
    if ok && |before| >= MAX_CALLERS && |Live(before, now, ttl)| >= MAX_CALLERS {
      var live := Live(before, now, ttl);
      var order :| OrderOf(order, live) && after == (live - {Scan(order, live).0})[host := now];
    }
  }

  /** Every tracked caller was admitted at its recorded time. */
  lemma {:induction false} TrackedWereAdmitted(t: Trace, ttl: int, i: nat, h: Host)
    requires RunOf(t, ttl) && i <= |t.requests| && h in t.maps[i]
    ensures exists k: nat :: k < i && AdmittedAt(t, k, h, t.maps[i][h])
  {
    if i > 0 {
      var r := t.requests[i - 1];
      AdmitEntries(t.maps[i - 1], r.host, r.now, ttl, t.answers[i - 1], t.maps[i], h);
      if t.answers[i - 1] && h == r.host {
        assert AdmittedAt(t, i - 1, h, t.maps[i][h]);
      } else {
        TrackedWereAdmitted(t, ttl, i - 1, h);
        var k: nat :| k < i - 1 && AdmittedAt(t, k, h, t.maps[i - 1][h]);
        assert AdmittedAt(t, k, h, t.maps[i][h]);
      }
    }
  }

  /** A caller whose every earlier admission is at least its ttl ago is admitted: nobody is refused for longer. */
  lemma {:induction false} ExpiredCallerAdmitted(t: Trace, ttl: int, i: nat)
    requires RunOf(t, ttl) && i < |t.requests|
    requires forall k | 0 <= k < i && t.answers[k] && t.requests[k].host == t.requests[i].host ::
               t.requests[i].now - t.requests[k].now >= ttl
    ensures t.answers[i]
  {
    var h := t.requests[i].host;
    assert Admits(t.maps[i], h, t.requests[i].now, ttl, t.answers[i], t.maps[i + 1]);
    if h in t.maps[i] {
      TrackedWereAdmitted(t, ttl, i, h);
      var k: nat :| k < i && AdmittedAt(t, k, h, t.maps[i][h]);
      assert t.requests[i].now - t.maps[i][h] >= ttl;
    }
  }

  /** So a caller never admitted before is always admitted. */
  lemma {:induction false} NewCallerAdmitted(t: Trace, ttl: int, i: nat)
    requires RunOf(t, ttl) && i < |t.requests|
    requires forall k | 0 <= k < i && t.answers[k] :: t.requests[k].host != t.requests[i].host
    ensures t.answers[i]
  {
    ExpiredCallerAdmitted(t, ttl, i);
  }

  /** A caller that is still tracked is refused exactly until its ttl has passed since the recorded admission. */
  lemma {:induction false} TrackedRefusedIff(t: Trace, ttl: int, i: nat)
    requires RunOf(t, ttl) && i < |t.requests| && t.requests[i].host in t.maps[i]
    ensures t.answers[i] <==> t.requests[i].now - t.maps[i][t.requests[i].host] >= ttl
  {
    assert Admits(t.maps[i], t.requests[i].host, t.requests[i].now, ttl, t.answers[i], t.maps[i + 1]);
  }

  function YoungHosts(callers: Callers, now: Time, ttl: int): (hosts: set<Host>)
  {
    set h | h in callers && now - callers[h] < ttl
  }

  /**
   What one request does to the others' entries. A refused one touches nothing,
   and neither does an admitted one while fewer than 1024 callers are tracked.
   At 1024 it drops every entry at least ttl old, and of the younger ones at
   most one, and that only when they are 1024 themselves.
   */
  lemma {:induction false} AdmitEffect(t: Trace, ttl: int, i: nat) returns (gone: Host)
    requires RunOf(t, ttl) && i < |t.requests|
    ensures var (r, before, after) := (t.requests[i], t.maps[i], t.maps[i + 1]);
            var young := YoungHosts(before, r.now, ttl);
            if !t.answers[i] then after == before
            else
              && r.host in after && after[r.host] == r.now
              && (forall h | h in after && h != r.host :: h in before && after[h] == before[h])
              && (|before| < 1024 ==> forall h | h in before :: h in after)
              && (|before| >= 1024 ==>
                    && (forall h | h in after && h != r.host :: h in young)
                    && (forall h | h in young && h != gone :: h in after)
                    && (|young| < 1024 ==> forall h | h in young :: h in after))
  {
    var (r, before, after) := (t.requests[i], t.maps[i], t.maps[i + 1]);
    gone := StepEffect(before, r.host, r.now, ttl, t.answers[i], after);
  }

  lemma {:induction false} StepEffect(before: Callers, host: Host, now: Time, ttl: int, ok: bool, after: Callers) returns (gone: Host)
    requires Admits(before, host, now, ttl, ok, after)
    ensures var young := YoungHosts(before, now, ttl);
            if !ok then after == before
            else
              && host in after && after[host] == now
              && (forall h | h in after && h != host :: h in before && after[h] == before[h])
              && (|before| < 1024 ==> forall h | h in before :: h in after)
              && (|before| >= 1024 ==>
                    && (forall h | h in after && h != host :: h in young)
                    && (forall h | h in young && h != gone :: h in after)
                    && (|young| < 1024 ==> forall h | h in young :: h in after))
  {
    gone := "";
    var live := Live(before, now, ttl);
    assert live.Keys == YoungHosts(before, now, ttl);
    if ok && |before| >= MAX_CALLERS && |live| >= MAX_CALLERS {
      var order :| OrderOf(order, live) && after == (live - {Scan(order, live).0})[host := now];
      gone := Scan(order, live).0;
    }
  }

  // ------------------------------------------------------------ re-admission

  /** One step that drops a live caller: the map was full of live callers, none older than it. */
  lemma {:induction false} DroppedAsOldest(before: Callers, host: Host, now: Time, ttl: int, ok: bool, after: Callers, h: Host)
    requires Admits(before, host, now, ttl, ok, after)
    requires h == "" || |Live(before, now, ttl)| < MAX_CALLERS || !EmptyHostIsOldest(Live(before, now, ttl))
    requires h in before && now - before[h] < ttl && h !in after
    ensures var live := Live(before, now, ttl);
            && ok && host !in live && h != host && |live| >= MAX_CALLERS && IsOldest(live, h)
  {
    var live := Live(before, now, ttl);
    assert h in live && live != map[];
    assert |before| >= MAX_CALLERS && |live| >= MAX_CALLERS;
    var order :| OrderOf(order, live) && after == (live - {Scan(order, live).0})[host := now];
    if !EmptyHostIsOldest(live) {
      ScanFindsOldest(order, live);
    }
  }

  /** From one admission of h to the next, its entry stands until a step drops it. */
  lemma {:induction false} StandsUntilDropped(t: Trace, ttl: int, i: nat, m: nat) returns (k: nat)
    requires RunOf(t, ttl) && i < m < |t.maps|
    requires t.answers[i]
    requires forall k | i < k < m && t.answers[k] :: t.requests[k].host != t.requests[i].host
    ensures i < k <= m && Stands(t, i, k) && (k < m ==> t.requests[i].host !in t.maps[k + 1])
    decreases m
  {
    var h := t.requests[i].host;
    if m == i + 1 {
      k := m;
    } else {
      k := StandsUntilDropped(t, ttl, i, m - 1);
      if k == m - 1 && h in t.maps[m] {
        var r := t.requests[m - 1];
        AdmitEntries(t.maps[m - 1], r.host, r.now, ttl, t.answers[m - 1], t.maps[m], h);
        k := m;
      }
    }
  }

  /** The admission of request i is on record before request k. */
  ghost predicate Stands(t: Trace, i: nat, k: nat)
    requires i < |t.requests| && k < |t.maps|
  {
    var h := t.requests[i].host;
    h in t.maps[k] && t.maps[k][h] == t.requests[i].now
  }

  /** The hosts admitted by request j at the latest, no earlier than since. */
  ghost predicate AllAdmittedSince(t: Trace, hosts: set<Host>, since: Time, j: nat)
    requires |t.answers| == |t.requests| && j < |t.requests|
  {
    forall g | g in hosts :: exists k: nat, at :: k <= j && since <= at <= t.requests[j].now && AdmittedAt(t, k, g, at)
  }

  /** Request m does not evict for want of room while the empty host is strictly the oldest caller. */
  ghost predicate FairAt(t: Trace, ttl: int, m: nat)
    requires m < |t.requests| && m < |t.maps|
  {
    var live := Live(t.maps[m], t.requests[m].now, ttl);
    |live| < MAX_CALLERS || !EmptyHostIsOldest(live)
  }

  /** The step that dropped h names MAX_CALLERS other hosts. */
  lemma {:induction false} DropNeedsOthers(t: Trace, ttl: int, m: nat, h: Host) returns (others: set<Host>)
    requires RunOf(t, ttl) && m < |t.requests|
    requires h == "" || FairAt(t, ttl, m)
    requires h in t.maps[m] && t.requests[m].now - t.maps[m][h] < ttl && h !in t.maps[m + 1]
    ensures |others| >= MAX_CALLERS && h !in others && AllAdmittedSince(t, others, t.maps[m][h], m)
  {
    var r, before := t.requests[m], t.maps[m];
    DroppedAsOldest(before, r.host, r.now, ttl, t.answers[m], t.maps[m + 1], h);
    var live := Live(before, r.now, ttl);
    others := live.Keys - {h} + {r.host};
    assert |live.Keys - {h}| == |live.Keys| - 1;
    assert r.host !in live.Keys - {h};
    forall g | g in others
      ensures exists k: nat, at :: k <= m && before[h] <= at <= r.now && AdmittedAt(t, k, g, at)
    {
      TrackedNoLater(t, ttl, m, h);
      if g == r.host {
        assert AdmittedAt(t, m, g, r.now);
      } else {
        TrackedSince(t, ttl, m, g, before[h]);
      }
    }
  }

  lemma {:induction false} TrackedSince(t: Trace, ttl: int, m: nat, g: Host, since: Time)
    requires RunOf(t, ttl) && m < |t.requests| && g in t.maps[m] && since <= t.maps[m][g]
    ensures exists k: nat, at :: k <= m && since <= at <= t.requests[m].now && AdmittedAt(t, k, g, at)
  {
    TrackedWereAdmitted(t, ttl, m, g);
    TrackedNoLater(t, ttl, m, g);
    var k: nat :| k < m && AdmittedAt(t, k, g, t.maps[m][g]);
  }

  /** Recorded times never lie ahead of the clock. */
  lemma {:induction false} TrackedNoLater(t: Trace, ttl: int, m: nat, g: Host)
    requires RunOf(t, ttl) && m < |t.requests| && g in t.maps[m]
    ensures t.maps[m][g] <= t.requests[m].now
  {
    TrackedWereAdmitted(t, ttl, m, g);
    var k: nat :| k < m && AdmittedAt(t, k, g, t.maps[m][g]);
    assert t.requests[k].now <= t.requests[m].now;
  }

  lemma {:induction false} Widen(t: Trace, ttl: int, hosts: set<Host>, since: Time, m: nat, since': Time, j: nat)
    requires RunOf(t, ttl) && m <= j < |t.requests| && since' <= since && AllAdmittedSince(t, hosts, since, m)
    ensures AllAdmittedSince(t, hosts, since', j)
  {
    assert t.requests[m].now <= t.requests[j].now;
    forall g | g in hosts
      ensures exists k: nat, at :: k <= j && since' <= at <= t.requests[j].now && AdmittedAt(t, k, g, at)
    {
      var k: nat, at :| k <= m && since <= at <= t.requests[m].now && AdmittedAt(t, k, g, at);
    }
  }

  /** Between two admissions of a host with no third in between, a step dropped it. */
  lemma {:induction false} DroppedBetween(t: Trace, ttl: int, i: nat, j: nat) returns (m: nat)
    requires RunOf(t, ttl) && i < j < |t.requests|
    requires t.answers[i] && t.answers[j] && t.requests[i].host == t.requests[j].host
    requires t.requests[j].now < t.requests[i].now + ttl
    requires forall k | i < k < j && t.answers[k] :: t.requests[k].host != t.requests[i].host
    ensures i < m < j && t.requests[i].host in t.maps[m] && t.requests[i].host !in t.maps[m + 1]
    ensures t.maps[m][t.requests[i].host] == t.requests[i].now && t.requests[m].now - t.requests[i].now < ttl
  {
    var h := t.requests[i].host;
    m := StandsUntilDropped(t, ttl, i, j);
    assert Admits(t.maps[j], h, t.requests[j].now, ttl, true, t.maps[j + 1]);
    assert m < j;
    assert t.requests[m].now <= t.requests[j].now;
  }

  /**
   A host admitted at t1 and again at t2 before its ttl ran out needs at least
   1024 other hosts admitted in [t1, t2]: nobody is let in early while
   fewer callers compete. The condition is the guard of the branch that fails,
   on the evictions in between alone.
   */
  lemma {:induction false} EarlyReadmissionNeedsCrowd(t: Trace, ttl: int, i: nat, j: nat) returns (others: set<Host>)
    requires RunOf(t, ttl) && i < j < |t.requests|
    requires t.requests[i].host == "" || forall m | i < m < j :: FairAt(t, ttl, m)
    requires t.answers[i] && t.answers[j] && t.requests[i].host == t.requests[j].host
    requires t.requests[j].now < t.requests[i].now + ttl
    ensures |others| >= 1024 && t.requests[i].host !in others
    ensures AllAdmittedSince(t, others, t.requests[i].now, j)
    decreases j - i
  {
    var h := t.requests[i].host;
    if k :| i < k < j && t.answers[k] && t.requests[k].host == h {
      assert t.requests[i].now <= t.requests[k].now;
      others := EarlyReadmissionNeedsCrowd(t, ttl, k, j);
      Widen(t, ttl, others, t.requests[k].now, j, t.requests[i].now, j);
    } else {
      var m := DroppedBetween(t, ttl, i, j);
      others := DropNeedsOthers(t, ttl, m, h);
      Widen(t, ttl, others, t.requests[i].now, m, t.requests[i].now, j);
    }
  }

  // ------------------------------------------------- a run that breaks the rule

  /** The first callers: the empty host at time 0, then strings of a's at time 1. */
  function Filler(i: nat): (h: Host)
    ensures |h| == i && forall k | 0 <= k < i :: h[k] == 'a'
  {
    seq(i, _ => 'a')
  }

  function Filled(n: nat): (m: Callers)
  {
    if n == 0 then map[] else Filled(n - 1)[Filler(n - 1) := if n == 1 then 0 else 1]
  }

  lemma {:induction false} FilledHolds(n: nat)
    ensures |Filled(n)| == n
    ensures forall h | h in Filled(n) :: |h| < n && h == Filler(|h|) && Filled(n)[h] == if h == "" then 0 else 1
    ensures n > 0 ==> "" in Filled(n)
  {
    if n > 0 {
      FilledHolds(n - 1);
      var before := Filled(n - 1);
      assert Filler(n - 1) !in before;
      assert Filled(n).Keys == before.Keys + {Filler(n - 1)};
    }
  }

  lemma {:induction false} NoFiller(h: Host, n: nat)
    requires h != "" && h[0] != 'a'
    ensures h !in Filled(n)
  {
    FilledHolds(n);
    assert Filler(|h|)[0] == 'a';
  }

  function RequestAt(i: nat): (r: Request)
  {
    if i == 0 then Request("", 0)
    else if i < MAX_CALLERS - 1 then Request(Filler(i), 1)
    else if i == MAX_CALLERS - 1 then Request("h", 5)
    else if i == MAX_CALLERS then Request("n", 6)
    else Request("h", 7)
  }

  /** Full: the fillers and the caller of time 5. */
  function FullMap(): (m: Callers)
  {
    Filled(MAX_CALLERS - 1)["h" := 5]
  }

  lemma {:induction false} FullMapHolds()
    ensures |FullMap()| == MAX_CALLERS && EmptyHostIsOldest(FullMap())
    ensures forall h | h in FullMap() :: 0 <= FullMap()[h] <= 5
    ensures "n" !in FullMap() && FullMap()["h"] == 5 && "" in FullMap()
  {
    FilledHolds(MAX_CALLERS - 1);
    var m := Filled(MAX_CALLERS - 1);
    NoFiller("h", MAX_CALLERS - 1);
    NoFiller("n", MAX_CALLERS - 1);
    assert FullMap().Keys == m.Keys + {"h"};
    assert "h" in FullMap();
  }

  /** A scan of a full map that evicts the youngest caller, of time 5, and keeps the empty host of time 0. */
  lemma {:induction false} EmptyHostMisleadsScan() returns (order: seq<Host>)
    ensures |FullMap()| == MAX_CALLERS && OrderOf(order, FullMap()) && Scan(order, FullMap()).0 == "h"
    ensures IsOldest(FullMap(), "") && FullMap()[""] == 0 && FullMap()["h"] == 5
  {
    FullMapHolds();
    FilledHolds(MAX_CALLERS - 1);
    order := AnyCallerEvictable(FullMap(), "h");
  }

  function Evicted(): (m: Callers)
  {
    (FullMap() - {"h"})["n" := 6]
  }

  function MapAt(i: nat, last: Callers): (m: Callers)
  {
    if i < MAX_CALLERS then Filled(i)
    else if i == MAX_CALLERS then FullMap()
    else if i == MAX_CALLERS + 1 then Evicted()
    else last
  }

  function TraceTo(last: Callers): (t: Trace)
  {
    Trace(seq(MAX_CALLERS + 2, i requires i >= 0 => RequestAt(i)), seq(MAX_CALLERS + 2, _ => true),
          seq(MAX_CALLERS + 3, i requires i >= 0 => MapAt(i, last)))
  }

  lemma {:induction false} AllLive(m: Callers, now: Time)
    requires forall h | h in m :: now - m[h] < 100
    ensures Live(m, now, 100) == m
  {
  }

  lemma {:induction false} FillStep(i: nat)
    requires i < MAX_CALLERS - 1
    ensures Admits(Filled(i), RequestAt(i).host, RequestAt(i).now, 100, true, Filled(i + 1))
  {
    FilledHolds(i);
    assert Filler(0) == "";
    assert RequestAt(i).host == Filler(i);
  }

  lemma {:induction false} LastFillStep()
    ensures Admits(Filled(MAX_CALLERS - 1), "h", 5, 100, true, FullMap())
  {
    FilledHolds(MAX_CALLERS - 1);
    FullMapHolds();
    NoFiller("h", MAX_CALLERS - 1);
  }

  lemma {:induction false} EvictingStep()
    ensures Admits(FullMap(), "n", 6, 100, true, Evicted())
  {
    FullMapHolds();
    AllLive(FullMap(), 6);
    var order := EmptyHostMisleadsScan();
    assert OrderOf(order, FullMap()) && Evicted() == (FullMap() - {Scan(order, FullMap()).0})["n" := 6];
  }

  lemma {:induction false} EarlyStep() returns (last: Callers)
    ensures Admits(Evicted(), "h", 7, 100, true, last)
  {
    FullMapHolds();
    var m := Evicted();
    assert m.Keys == FullMap().Keys - {"h"} + {"n"};
    assert |m| == MAX_CALLERS;
    AllLive(m, 7);
    var order := SomeOrder(m.Keys);
    assert OrderOf(order, m);
    last := (m - {Scan(order, m).0})["h" := 7];
  }

  lemma {:induction false} StepAt(k: nat, last: Callers)
    requires k < MAX_CALLERS + 2 && Admits(Evicted(), "h", 7, 100, true, last)
    ensures Admits(MapAt(k, last), RequestAt(k).host, RequestAt(k).now, 100, true, MapAt(k + 1, last))
  {
    if k < MAX_CALLERS - 1 {
      FillStep(k);
    } else if k == MAX_CALLERS - 1 {
      LastFillStep();
    } else if k == MAX_CALLERS {
      EvictingStep();
    }
  }

  lemma {:induction false} TraceRuns(last: Callers)
    requires Admits(Evicted(), "h", 7, 100, true, last)
    ensures RunOf(TraceTo(last), 100)
  {
    var t := TraceTo(last);
    assert t.maps[0] == MapAt(0, last);
    assert MapAt(0, last) == map[];
    forall k | 0 <= k < |t.requests|
      ensures Admits(t.maps[k], t.requests[k].host, t.requests[k].now, 100, t.answers[k], t.maps[k + 1])
    {
      TraceStep(k, last);
    }
    forall k, l | 0 <= k <= l < |t.requests| ensures t.requests[k].now <= t.requests[l].now {
      TraceClock(k, l, last);
    }
  }

  lemma {:induction false} TraceStep(k: nat, last: Callers)
    requires k < MAX_CALLERS + 2 && Admits(Evicted(), "h", 7, 100, true, last)
    ensures var t := TraceTo(last); Admits(t.maps[k], t.requests[k].host, t.requests[k].now, 100, t.answers[k], t.maps[k + 1])
  {
    StepAt(k, last);
    TraceEntries(k, last);
  }

  lemma {:induction false} TraceEntries(k: nat, last: Callers)
    requires k < MAX_CALLERS + 2
    ensures var t := TraceTo(last);
            && t.maps[k] == MapAt(k, last) && t.maps[k + 1] == MapAt(k + 1, last)
            && t.requests[k] == RequestAt(k) && t.answers[k] == true
  {
  }

  lemma {:induction false} TraceClock(k: nat, l: nat, last: Callers)
    requires k <= l < MAX_CALLERS + 2
    ensures TraceTo(last).requests[k].now <= TraceTo(last).requests[l].now
  {
    assert TraceTo(last).requests[k] == RequestAt(k) && TraceTo(last).requests[l] == RequestAt(l);
  }

  /**
   A whole run on which the rule fails: the caller "h" is admitted at 5 and
   again at 7, long before its ttl of 100 has passed, and one other host at
   most was admitted in between.
   */
  lemma {:induction false} EmptyHostLetsCallerInEarly() returns (t: Trace, i: nat, j: nat)
    ensures RunOf(t, 100) && i < j < |t.requests| && t.answers[i] && t.answers[j]
    ensures t.requests[i] == Request("h", 5) && t.requests[j] == Request("h", 7)
    ensures forall others | AllAdmittedSince(t, others, 5, j) && "h" !in others :: others <= {"n"}
  {
    var last := EarlyStep();
    TraceRuns(last);
    t, i, j := TraceTo(last), MAX_CALLERS - 1, MAX_CALLERS + 1;
    assert t.requests[i] == RequestAt(i) && t.requests[j] == RequestAt(j);
    forall others | AllAdmittedSince(t, others, 5, j) && "h" !in others ensures others <= {"n"} {
      OnlyOneOther(last, others);
    }
  }

  lemma {:induction false} OnlyOneOther(last: Callers, others: set<Host>)
    requires AllAdmittedSince(TraceTo(last), others, 5, MAX_CALLERS + 1) && "h" !in others
    ensures others <= {"n"}
  {
    var t := TraceTo(last);
    forall g | g in others ensures g == "n" {
      var k: nat, at :| k <= MAX_CALLERS + 1 && 5 <= at <= t.requests[MAX_CALLERS + 1].now && AdmittedAt(t, k, g, at);
      assert t.requests[k] == RequestAt(k);
    }
  }
}
