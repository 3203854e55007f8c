/**
 The dump-completion line (internal/backupmeta/completion.go:12-117), from the
 producer's record to the operator's. A Go string is a sequence of bytes: here
 a string of characters below 256.
 */
module Completion {
  import opened Wrappers
  import opened Text

  predicate Bytes(s: string) {
    forall i | 0 <= i < |s| :: s[i] as int < 256
  }

  // ------------------------------------------------------------------ escaping

  predicate Safe(c: char) {
    'a' <= c <= 'z' || 'A' <= c <= 'Z' || '0' <= c <= '9' || c in "-._~/:,@"
  }

  function HexDigit(n: int): (c: char)
    requires 0 <= n < 16
  {
    if n < 10 then '0' + n as char else 'A' + (n - 10) as char
  }

  /** Either case is read, as url.PathUnescape does. */
  function HexValue(c: char): (n: Option<int>)
    ensures n.Some? ==> 0 <= n.value < 16
  {
    if '0' <= c <= '9' then Some(c as int - '0' as int)
    else if 'a' <= c <= 'f' then Some(c as int - 'a' as int + 10)
    else if 'A' <= c <= 'F' then Some(c as int - 'A' as int + 10)
    else None
  }

  function EscapeByte(c: char): (r: string)
    requires c as int < 256
  {
    if Safe(c) then [c] else ['%', HexDigit(c as int / 16), HexDigit(c as int % 16)]
  }

  function Escaped(value: string): (r: string)
    requires Bytes(value)
  {
    if value == "" then "" else EscapeByte(value[0]) + Escaped(value[1..])
  }

  /** EscapeValue. */
  method EscapeValue(value: string) returns (out: string)
    requires Bytes(value)
    ensures out == Escaped(value)
  {
    out := "";
    var i := 0;
    while i < |value|
      invariant 0 <= i <= |value| && out + Escaped(value[i..]) == Escaped(value)
    {
      var c := value[i];
      ghost var before, tail := out, Escaped(value[i + 1..]);
      assert value[i..][1..] == value[i + 1..];
      if Safe(c) {
        out := out + [c];
      } else {
        out := out + ['%', HexDigit(c as int / 16), HexDigit(c as int % 16)];
      }
      ConcatAssoc(before, EscapeByte(c), tail);
      i := i + 1;
    }
  }

  /** url.PathUnescape. */
  function Unescape(s: string): (r: Option<string>)
  {
    if s == "" then Some("")
    else if s[0] != '%' then
      (match Unescape(s[1..]) case None => None case Some(t) => Some([s[0]] + t))
    else if |s| < 3 || HexValue(s[1]).None? || HexValue(s[2]).None? then None
    else
      match Unescape(s[3..])
      case None => None
      case Some(t) => Some([(16 * HexValue(s[1]).value + HexValue(s[2]).value) as char] + t)
  }

  lemma {:induction false} HexPair(n: int)
    requires 0 <= n < 256
    ensures HexValue(HexDigit(n / 16)) == Some(n / 16) && HexValue(HexDigit(n % 16)) == Some(n % 16)
  {
  }

  lemma {:induction false} UnescapeByte(c: char, rest: string)
    requires c as int < 256 && Unescape(rest).Some?
    ensures Unescape(EscapeByte(c) + rest) == Some([c] + Unescape(rest).value)
  {
    var s := EscapeByte(c) + rest;
    if Safe(c) {
      assert s[0] == c && s[1..] == rest;
    } else {
      HexPair(c as int);
      assert s[0] == '%' && s[1] == HexDigit(c as int / 16) && s[2] == HexDigit(c as int % 16);
      assert s[3..] == rest;
    }
  }

  /** Percent-decoding undoes the escaping of every byte string (section 2.1 of RFC 3986). */
  lemma {:induction false} UnescapeEscaped(value: string)
    requires Bytes(value)
    ensures Unescape(Escaped(value)) == Some(value)
  {
    if value != "" {
      UnescapeEscaped(value[1..]);
      UnescapeByte(value[0], Escaped(value[1..]));
      assert value == [value[0]] + value[1..];
    }
  }

  predicate IsSpace(c: char) {
    c == ' ' || '\t' <= c <= '\r'
  }

  predicate Plain(c: char) {
    !IsSpace(c) && c as int < 0x80
  }

  /** A token never breaks the line: no white space, no '=', nothing but ASCII. */
  predicate Token(s: string) {
    forall i | 0 <= i < |s| :: Plain(s[i]) && s[i] != '='
  }

  lemma {:induction false} EscapedIsToken(value: string)
    requires Bytes(value)
    ensures Token(Escaped(value))
  {
    if value != "" {
      EscapedIsToken(value[1..]);
    }
  }

  // ------------------------------------------------------------------- numbers

  predicate Int64(n: int) {
    -MAX_INT64 - 1 <= n <= MAX_INT64
  }

  function Digits(n: nat): (r: string)
    ensures r != ""
  {
    (if n < 10 then "" else Digits(n / 10)) + ['0' + (n % 10) as char]
  }

  /** The %d verb. */
  function FormatInt(n: int): (r: string)
  {
    if n < 0 then "-" + Digits(0 - n) else Digits(n)
  }

  predicate Digit(c: char) {
    '0' <= c <= '9'
  }

  function ParseDigits(s: string): (r: Option<nat>)
  {
    if s == "" then Some(0)
    else
      var n := |s| - 1;
      if !Digit(s[n]) then None
      else match ParseDigits(s[..n])
        case None => None
        case Some(k) => Some(10 * k + (s[n] as int - '0' as int))
  }

  /** strconv.ParseInt(s, 10, 64), None where it returns an error. */
  function ParseInt(s: string): (r: Option<int>)
  {
    var signed := s != "" && (s[0] == '-' || s[0] == '+');
    var digits := if signed then s[1..] else s;
    if digits == "" then None
    else match ParseDigits(digits)
      case None => None
      case Some(k) =>
        var n: int := if signed && s[0] == '-' then 0 - k else k;
        if Int64(n) then Some(n) else None
  }

  lemma {:induction false} ParseDigitsOf(n: nat)
    ensures ParseDigits(Digits(n)) == Some(n) && Digit(Digits(n)[0])
  {
    var s := Digits(n);
    if n >= 10 {
      ParseDigitsOf(n / 10);
      assert s[..|s| - 1] == Digits(n / 10);
    } else {
      assert s[..|s| - 1] == "";
    }
  }

  lemma {:induction false} ParseSigned(digits: string, k: nat, negative: bool)
    requires digits != "" && Digit(digits[0]) && ParseDigits(digits) == Some(k) && Int64(if negative then 0 - k else k)
    ensures ParseInt(if negative then "-" + digits else digits) == Some(if negative then 0 - k else k)
  {
    assert ("-" + digits)[1..] == digits;
  }

  lemma {:induction false} ParseIntFormatted(n: int)
    requires Int64(n)
    ensures ParseInt(FormatInt(n)) == Some(n)
  {
    var k: nat := if n < 0 then 0 - n else n;
    ParseDigitsOf(k);
    ParseSigned(Digits(k), k, n < 0);
  }

  lemma {:induction false} DigitsPlain(n: nat)
    ensures forall i | 0 <= i < |Digits(n)| :: Digit(Digits(n)[i])
  {
    if n >= 10 { DigitsPlain(n / 10); }
  }

  lemma {:induction false} UnescapePlain(s: string)
    requires forall i | 0 <= i < |s| :: s[i] != '%'
    ensures Unescape(s) == Some(s)
  {
    if s != "" {
      var tail := s[1..];
      UnescapePlain(tail);
      assert s[0] != '%';
      assert Unescape(s) == Some([s[0]] + tail);
      assert s == [s[0]] + tail;
    }
  }

  lemma {:induction false} FormatIntPlain(n: int)
    ensures Token(FormatInt(n)) && Unescape(FormatInt(n)) == Some(FormatInt(n))
  {
    DigitsPlain(if n < 0 then -n else n);
    UnescapePlain(FormatInt(n));
  }
}
