/**
 The cache of safe retention deferrals
 (cmd/bloodraven/pitr_cutoff_admission.go:10-61), and its refinement: whatever
 it saturates or purges, it answers as an unbounded map with the same ttl
 would, or not at all.
 */
module CutoffCache {
  import opened Wrappers
  import opened Text

  type Time = int

  /** pitrCutoffCacheMaxEntries. */
  const MAX_ENTRIES := 1024

  datatype Entry<V> = Entry(value: Option<V>, at: Time)

  type Data<V> = map<string, Entry<V>>

  /** The stored key of a namespace, group and archive. */
  function Key(ns: string, group: string, archive: string): (k: string)
  {
    ns + "/" + group + "/" + archive
  }

  /** get: a nil value and an expired entry are misses. */
  function Get<V>(data: Data<V>, key: string, now: Time, ttl: int): (r: Option<V>)
  {
    if key !in data || now - data[key].at > ttl then None else data[key].value
  }

  function Unexpired<V>(data: Data<V>, now: Time, ttl: int): (r: Data<V>)
  {
    map k | k in data && now - data[k].at <= ttl :: data[k]
  }

  /** set: a full cache drops expired entries first, and then may skip the new one. */
  function Set<V>(data: Data<V>, key: string, value: Option<V>, now: Time, ttl: int): (r: Data<V>)
  {
    var e := Entry(value, now);
    if key in data || |data| < MAX_ENTRIES then data[key := e]
    else
      var kept := Unexpired(data, now, ttl);
      if |kept| >= MAX_ENTRIES then kept else kept[key := e]
  }

  class Cache<V(==)> {
    const ttl: int
    var data: Data<V>

    constructor (ttl: int)
      ensures this.ttl == ttl && data == map[]
    {
      this.ttl := ttl;
      data := map[];
    }

    method Lookup(ns: string, group: string, archive: string, now: Time) returns (r: Option<V>)
      ensures r == Get(data, Key(ns, group, archive), now, ttl)
    {
      var key := Key(ns, group, archive);
      if key !in data || data[key].value.None? || now - data[key].at > ttl {
        return None;
      }
      return data[key].value;
    }

    method Store(ns: string, group: string, archive: string, value: Option<V>, now: Time)
      modifies this
      ensures data == Set(old(data), Key(ns, group, archive), value, now, ttl)
    {
      var key := Key(ns, group, archive);
      if key !in data && |data| >= MAX_ENTRIES {
        Purge(now);
        if |data| >= MAX_ENTRIES {
          return;
        }
      }
      data := data[key := Entry(value, now)];
    }

    /** Deletes expired entries while ranging over the map, in any order. */
    method Purge(now: Time)
      modifies this
      ensures data == Unexpired(old(data), now, ttl)
    {
      var keys := data.Keys;
      while keys != {}
        invariant keys <= data.Keys <= old(data).Keys
        invariant forall k | k in data :: data[k] == old(data)[k]
        invariant forall k | k in old(data) && k !in keys :: k in data <==> now - old(data)[k].at <= ttl
        decreases keys
      {
        var k :| k in keys;
        keys := keys - {k};
        if now - data[k].at > ttl {
          data := data - {k};
        }
      }
    }
  }

  // -------------------------------------------------------------- refinement

  datatype Op<V> = SetOp(key: string, value: Option<V>, now: Time)

  function Bounded<V>(ops: seq<Op<V>>, ttl: int): (d: Data<V>)
  {
    if ops == [] then map[]
    else var o := ops[|ops| - 1]; Set(Bounded(ops[..|ops| - 1], ttl), o.key, o.value, o.now, ttl)
  }

  /** The ideal map: every write is remembered. */
  function Ideal<V>(ops: seq<Op<V>>): (d: Data<V>)
  {
    if ops == [] then map[]
    else var o := ops[|ops| - 1]; Ideal(ops[..|ops| - 1])[o.key := Entry(o.value, o.now)]
  }

  /** What is stored is what the ideal map remembers. */
  lemma {:induction false} StoredIsIdeal<V>(ops: seq<Op<V>>, ttl: int, k: string)
    requires k in Bounded(ops, ttl)
    ensures k in Ideal(ops) && Ideal(ops)[k] == Bounded(ops, ttl)[k]
  {
    var n := |ops| - 1;
    if k in Bounded(ops[..n], ttl) && k != ops[n].key {
      StoredIsIdeal(ops[..n], ttl, k);
    }
  }

  lemma {:induction false} SubmapSize<V>(a: Data<V>, b: Data<V>)
    requires a.Keys <= b.Keys
    ensures |a| <= |b|
  {
    SubsetSize(a.Keys, b.Keys);
  }

  /** The cache never holds more than 1024 entries. */
  lemma {:induction false} HoldsAtMost<V>(ops: seq<Op<V>>, ttl: int)
    ensures |Bounded(ops, ttl)| <= 1024
  {
    if ops != [] {
      var n := |ops| - 1;
      var before, o := Bounded(ops[..n], ttl), ops[n];
      HoldsAtMost(ops[..n], ttl);
      var kept := Unexpired(before, o.now, ttl);
      SubmapSize(kept, before);
      assert before[o.key := Entry(o.value, o.now)].Keys == before.Keys + {o.key};
      assert kept[o.key := Entry(o.value, o.now)].Keys == kept.Keys + {o.key};
    }
  }

  /**
   After any writes, at any later time: a hit is the ideal map's answer, and
   bounding the cache turns hits into misses only.
   */
  lemma {:induction false} HitsAreIdeal<V>(ops: seq<Op<V>>, ttl: int, key: string, now: Time)
    ensures Get(Bounded(ops, ttl), key, now, ttl).Some? ==> Get(Bounded(ops, ttl), key, now, ttl) == Get(Ideal(ops), key, now, ttl)
    ensures Get(Ideal(ops), key, now, ttl).None? ==> Get(Bounded(ops, ttl), key, now, ttl).None?
  {
    if key in Bounded(ops, ttl) { StoredIsIdeal(ops, ttl, key); }
  }

  /** Write i is the last one of the key. */
  predicate LastWrite<V(==)>(ops: seq<Op<V>>, i: nat, key: string) {
    i < |ops| && ops[i].key == key && forall j | i < j < |ops| :: ops[j].key != key
  }

  lemma {:induction false} IdealIsLast<V>(ops: seq<Op<V>>, key: string) returns (i: nat)
    ensures key in Ideal(ops) ==> LastWrite(ops, i, key) && Ideal(ops)[key] == Entry(ops[i].value, ops[i].now)
    ensures forall j | LastWrite(ops, j, key) :: key in Ideal(ops) && j == i
  {
    i := 0;
    if ops != [] {
      var n := |ops| - 1;
      if ops[n].key == key {
        i := n;
      } else {
        i := IdealIsLast(ops[..n], key);
        forall j: nat | LastWrite(ops, j, key) ensures key in Ideal(ops) && j == i {
          assert LastWrite(ops[..n], j, key);
        }
      }
    }
  }

  /**
   A hit is the value of the last write to the key, made at most ttl ago; and
   where no write was skipped for want of room, every such write is a hit.
   */
  lemma {:induction false} HitIsLastWrite<V>(ops: seq<Op<V>>, ttl: int, key: string, now: Time, v: V)
    ensures Get(Bounded(ops, ttl), key, now, ttl) == Some(v) ==>
            exists i: nat :: LastWrite(ops, i, key) && ops[i].value == Some(v) && now - ops[i].now <= ttl
    ensures Unskipped(ops, ttl) && (forall i | 0 <= i < |ops| :: ops[i].now <= now) &&
            (exists i: nat :: LastWrite(ops, i, key) && ops[i].value == Some(v) && now - ops[i].now <= ttl) ==>
            Get(Bounded(ops, ttl), key, now, ttl) == Some(v)
  {
    var i := IdealIsLast(ops, key);
    HitsAreIdeal(ops, ttl, key, now);
    if Unskipped(ops, ttl) && forall i | 0 <= i < |ops| :: ops[i].now <= now {
      UnsaturatedIsIdeal(ops, ttl, key, now);
    }
  }

  /** The write at hand meets a cache full of other entries younger than ttl. */
  predicate Full<V>(data: Data<V>, key: string, now: Time, ttl: int) {
    key !in data && |Unexpired(data, now, ttl)| >= 1024
  }

  /** No write of the run was skipped for want of room. */
  ghost predicate Unskipped<V>(ops: seq<Op<V>>, ttl: int) {
    ops != [] ==>
      var n := |ops| - 1;
      Unskipped(ops[..n], ttl) && !Full(Bounded(ops[..n], ttl), ops[n].key, ops[n].now, ttl)
  }

  /** Without saturation the cache loses no answer at all: purging alone never costs a hit. */
  lemma {:induction false} UnsaturatedIsIdeal<V>(ops: seq<Op<V>>, ttl: int, key: string, now: Time)
    requires Unskipped(ops, ttl)
    requires forall i | 0 <= i < |ops| :: ops[i].now <= now
    ensures Get(Bounded(ops, ttl), key, now, ttl) == Get(Ideal(ops), key, now, ttl)
  {
    if ops != [] {
      var n := |ops| - 1;
      UnsaturatedIsIdeal(ops[..n], ttl, key, now);
    }
  }

  /** A fresh answer is readable back exactly when the cache was not full of other fresh answers. */
  lemma {:induction false} WriteKeptIff<V>(data: Data<V>, key: string, v: V, now: Time, ttl: int)
    requires ttl >= 0 && |data| <= 1024
    ensures Get(Set(data, key, Some(v), now, ttl), key, now, ttl) == if Full(data, key, now, ttl) then None else Some(v)
  {
    SubmapSize(Unexpired(data, now, ttl), data);
  }

  // ------------------------------------------------------------------- keys

  /** Kubernetes names hold no slash, so distinct triples never share an entry. */
  lemma {:induction false} KeyInjective(ns: string, group: string, archive: string, ns': string, group': string, archive': string)
    requires SlashFree(ns) && SlashFree(group) && SlashFree(ns') && SlashFree(group')
    requires Key(ns, group, archive) == Key(ns', group', archive')
    ensures ns == ns' && group == group' && archive == archive'
  {
    assert Key(ns, group, archive) == ns + "/" + (group + "/" + archive);
    assert Key(ns', group', archive') == ns' + "/" + (group' + "/" + archive');
    SplitsOnce(ns, group + "/" + archive, ns', group' + "/" + archive');
    SplitsOnce(group, archive, group', archive');
  }
}
