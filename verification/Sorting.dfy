/** sort.Strings: the order of byte strings, and the one sorted list of a multiset of them. */
module Sorting {
  /** sort.Strings: the order of byte strings. */
  predicate AtMost(a: string, b: string) {
    a == [] || (b != [] && (a[0] < b[0] || (a[0] == b[0] && AtMost(a[1..], b[1..]))))
  }

  predicate Sorted(s: seq<string>) {
    |s| >= 2 ==> AtMost(s[0], s[1]) && Sorted(s[1..])
  }

  lemma {:induction false} AtMostTotal(a: string, b: string)
    ensures AtMost(a, b) || AtMost(b, a)
    ensures AtMost(a, b) && AtMost(b, a) ==> a == b
  {
    if a != [] && b != [] {
      AtMostTotal(a[1..], b[1..]);
      if a[0] == b[0] && a[1..] == b[1..] {
        assert a == [a[0]] + a[1..] && b == [b[0]] + b[1..];
      }
    }
  }

  lemma {:induction false} AtMostTransitive(a: string, b: string, c: string)
    requires AtMost(a, b) && AtMost(b, c)
    ensures AtMost(a, c)
  {
    if a != [] && a[0] == b[0] == c[0] {
      AtMostTransitive(a[1..], b[1..], c[1..]);
    }
  }

  /** The texts agree up to i, and there a ends or has the smaller byte. */
  predicate ComesFirstAt(a: string, b: string, i: nat) {
    i <= |a| && i <= |b| && a[..i] == b[..i] && (i == |a| || (i < |b| && a[i] < b[i]))
  }

  lemma {:induction false} SameStart(a: string, b: string, i: nat)
    requires ComesFirstAt(a, b, i)
    ensures i > 0 ==> a[0] == b[0]
  {
    if i > 0 { assert a[0] == a[..i][0] && b[0] == b[..i][0]; }
  }

  lemma {:induction false} AtMostIff(a: string, b: string)
    ensures AtMost(a, b) <==> exists i: nat :: ComesFirstAt(a, b, i)
  {
    if a == [] {
      assert ComesFirstAt(a, b, 0);
    } else if b != [] && a[0] == b[0] {
      AtMostIff(a[1..], b[1..]);
      assert a == [a[0]] + a[1..] && b == [b[0]] + b[1..];
      if i: nat :| ComesFirstAt(a[1..], b[1..], i) {
        assert a[..i + 1] == [a[0]] + a[1..][..i] && b[..i + 1] == [b[0]] + b[1..][..i];
        assert ComesFirstAt(a, b, i + 1);
      }
      if i: nat :| ComesFirstAt(a, b, i) {
        assert i > 0;
        assert a[1..][..i - 1] == a[..i][1..] && b[1..][..i - 1] == b[..i][1..];
        assert ComesFirstAt(a[1..], b[1..], i - 1);
      }
    } else if b != [] {
      assert a[0] < b[0] ==> ComesFirstAt(a, b, 0);
      if i: nat :| ComesFirstAt(a, b, i) {
        SameStart(a, b, i);
      }
    }
  }

  function Insert(x: string, s: seq<string>): (r: seq<string>)
    requires Sorted(s)
    ensures Sorted(r) && multiset(r) == multiset(s) + multiset{x}
    ensures r != [] && (r[0] == x || (s != [] && r[0] == s[0]))
  {
    if s == [] then [x]
    else
      assert s == [s[0]] + s[1..];
      AtMostTotal(x, s[0]);
      if AtMost(x, s[0]) then [x] + s else [s[0]] + Insert(x, s[1..])
  }

  function SortStrings(s: seq<string>): (r: seq<string>)
    ensures Sorted(r) && multiset(r) == multiset(s)
  {
    if s == [] then []
    else
      assert s == [s[0]] + s[1..];
      Insert(s[0], SortStrings(s[1..]))
  }

  lemma {:induction false} HeadIsLeast(s: seq<string>, x: string)
    requires Sorted(s) && x in s
    ensures AtMost(s[0], x)
  {
    if x == s[0] {
      AtMostTotal(x, x);
    } else {
      HeadIsLeast(s[1..], x);
      AtMostTransitive(s[0], s[1], x);
    }
  }

  /** A sequence without its element at k. */
  function Without<T>(s: seq<T>, k: nat): (r: seq<T>)
    requires k < |s|
  {
    s[..k] + s[k + 1..]
  }

  lemma {:induction false} WithoutCounts<T>(s: seq<T>, k: nat)
    requires k < |s|
    ensures multiset(s) == multiset(Without(s, k)) + multiset{s[k]}
  {
    assert s == s[..k] + ([s[k]] + s[k + 1..]);
  }

  lemma {:induction false} Cancel<T>(a: multiset<T>, b: multiset<T>, m: multiset<T>)
    requires a + m <= b + m
    ensures a <= b
  {
    forall x: T ensures a[x] <= b[x] {
      assert (a + m)[x] <= (b + m)[x];
    }
  }

  lemma {:induction false} SortedUnique(s: seq<string>, t: seq<string>)
    requires Sorted(s) && Sorted(t) && multiset(s) == multiset(t)
    ensures s == t
  {
    if s == [] || t == [] {
      assert |s| == |multiset(s)| && |t| == |multiset(t)|;
    } else {
      SameHead(s, t);
      SameTails(s, t);
      SortedUnique(s[1..], t[1..]);
      assert s == [s[0]] + s[1..] && t == [t[0]] + t[1..];
    }
  }

  lemma {:induction false} SameTails(s: seq<string>, t: seq<string>)
    requires multiset(s) == multiset(t) && s != [] && t != [] && s[0] == t[0]
    ensures multiset(s[1..]) == multiset(t[1..])
  {
    WithoutCounts(s, 0);
    WithoutCounts(t, 0);
    assert Without(s, 0) == s[1..] && Without(t, 0) == t[1..];
    Cancel(multiset(s[1..]), multiset(t[1..]), multiset{s[0]});
    Cancel(multiset(t[1..]), multiset(s[1..]), multiset{s[0]});
  }

  lemma {:induction false} SameHead(s: seq<string>, t: seq<string>)
    requires Sorted(s) && Sorted(t) && multiset(s) == multiset(t) && s != [] && t != []
    ensures s[0] == t[0]
  {
    assert s[0] in multiset(t) && t[0] in multiset(s);
    HeadIsLeast(s, t[0]);
    HeadIsLeast(t, s[0]);
    AtMostTotal(s[0], t[0]);
  }

  /** Sorted is ordered throughout, not only between neighbours. */
  lemma {:induction false} SortedAscends(s: seq<string>, i: nat, j: nat)
    requires Sorted(s) && i <= j < |s|
    ensures AtMost(s[i], s[j])
    decreases i
  {
    if i == 0 {
      HeadIsLeast(s, s[j]);
    } else {
      SortedAscends(s[1..], i - 1, j - 1);
    }
  }

  /** A text comes before what it is the beginning of. */
  lemma {:induction false} PrefixFirst(a: string, b: string)
    ensures AtMost(a, a + b)
  {
    if a != [] {
      PrefixFirst(a[1..], b);
      assert (a + b)[1..] == a[1..] + b;
    }
  }

  /** Each member of a set once, in ascending order. */
  ghost predicate Lists(order: seq<string>, keys: set<string>) {
    (forall k :: k in order <==> k in keys) && forall i, j | 0 <= i < j < |order| :: order[i] != order[j]
  }

  method SortSet(keys: set<string>) returns (order: seq<string>)
    ensures Lists(order, keys) && Sorted(order)
  {
    var todo := keys;
    var some: seq<string> := [];
    while todo != {}
      invariant todo <= keys && multiset(some) == multiset(keys - todo)
      decreases todo
    {
      var k :| k in todo;
      assert keys - (todo - {k}) == keys - todo + {k};
      todo := todo - {k};
      some := some + [k];
    }
    assert keys - todo == keys;
    order := SortStrings(some);
    OnceEach(order, keys);
  }

  lemma {:induction false} OnceEach(order: seq<string>, keys: set<string>)
    requires multiset(order) == multiset(keys)
    ensures Lists(order, keys)
  {
    forall k ensures k in order <==> k in keys {
      assert k in order <==> k in multiset(order);
    }
    forall i, j | 0 <= i < j < |order| ensures order[i] != order[j] {
      if order[i] == order[j] {
        TwiceCounts(order, i, j);
      }
    }
  }

  lemma {:induction false} TwiceCounts(s: seq<string>, i: nat, j: nat)
    requires i < j < |s| && s[i] == s[j]
    ensures multiset(s)[s[i]] >= 2
  {
    WithoutCounts(s, j);
    assert s[i] in s[..j];
  }
}
