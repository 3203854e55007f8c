/** The string operations of the Go standard library that the model needs. */
module Text {
  import opened Wrappers

  /** strings.HasPrefix. */
  predicate HasPrefix(s: string, prefix: string) {
    |prefix| <= |s| && s[..|prefix|] == prefix
  }

  predicate SlashFree(s: string) {
    '/' !in s
  }

  /** strings.TrimSuffix(s, "/"). */
  function TrimSlash(s: string): (r: string)
  {
    if s != "" && s[|s| - 1] == '/' then s[..|s| - 1] else s
  }

  /** strings.TrimRight(s, "/"). */
  function TrimSlashes(s: string): (r: string)
    ensures |r| <= |s| && r == s[..|r|]
    ensures r != "" ==> r[|r| - 1] != '/'
  {
    if s != "" && s[|s| - 1] == '/' then TrimSlashes(s[..|s| - 1]) else s
  }

  /** strings.Index(s, "/"), None where Go answers -1. */
  function IndexSlash(s: string): (r: Option<nat>)
    ensures r.None? <==> SlashFree(s)
    ensures r.Some? ==> r.value < |s| && s[r.value] == '/' && SlashFree(s[..r.value])
  {
    if s == "" then None
    else if s[0] == '/' then Some(0)
    else
      assert s == [s[0]] + s[1..];
      match IndexSlash(s[1..])
      case None => None
      case Some(i) => assert s[..i + 1] == [s[0]] + s[1..][..i]; Some(i + 1)
  }

  /** strings.Split(s, "/"). */
  function Split(s: string): (parts: seq<string>)
    ensures parts != []
    decreases |s|
  {
    match IndexSlash(s)
    case None => [s]
    case Some(i) => [s[..i]] + Split(s[i + 1..])
  }

  /** A text is cut at its first slash in one way only. */
  lemma {:induction false} SplitsOnce(a: string, b: string, x: string, y: string)
    requires SlashFree(a) && SlashFree(x) && a + "/" + b == x + "/" + y
    ensures a == x && b == y
  {
    assert (a + "/" + b)[0] == (x + "/" + y)[0];
    if a == [] || x == [] {
      assert (a + "/" + b)[1..] == (x + "/" + y)[1..];
      assert a == x;
      assert (a + "/" + b)[1..] == b && (x + "/" + y)[1..] == y;
    } else {
      assert (a + "/" + b)[0] == a[0] && (x + "/" + y)[0] == x[0];
      assert (a + "/" + b)[1..] == a[1..] + "/" + b && (x + "/" + y)[1..] == x[1..] + "/" + y;
      SplitsOnce(a[1..], b, x[1..], y);
    }
  }

  lemma {:induction false} SplitAfter(a: string, rest: string)
    requires SlashFree(a)
    ensures Split(a + "/" + rest) == [a] + Split(rest)
    ensures IndexSlash(a + "/" + rest) == Some(|a|)
  {
    var s := a + "/" + rest;
    assert s[|a|] == '/';
    var i := IndexSlash(s).value;
    assert s == s[..i] + "/" + s[i + 1..];
    SplitsOnce(a, rest, s[..i], s[i + 1..]);
  }

  lemma {:induction false} CutAfter(a: string, b: string)
    ensures HasPrefix(a + b, a) && (a + b)[|a|..] == b
  {
  }

  lemma {:induction false} CutAtSlash(a: string, b: string)
    requires SlashFree(a)
    ensures var s := a + "/" + b; IndexSlash(s) == Some(|a|) && s[..|a|] == a && s[|a| + 1..] == b
  {
    SplitAfter(a, b);
  }

  lemma {:induction false} ConcatAssoc(a: string, b: string, c: string)
    ensures (a + b) + c == a + (b + c)
  {
  }

  lemma {:induction false} ListAssoc(a: seq<string>, b: seq<string>, c: seq<string>)
    ensures (a + b) + c == a + (b + c)
  {
  }
}
