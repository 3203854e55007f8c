/**
 What a completion line says, token by token, for lines that this version of
 the producer did not write as well (internal/backupmeta/completion.go:34-117).
 */
module CompletionReads {
  import opened Wrappers
  import opened Text
  import opened Completion
  import opened CompletionLine

  // -------------------------------------------------------------------- tokens

  /** The field is a key, a first equals sign and a value. */
  predicate Gives(field: string, k: string, v: string) {
    k != "" && '=' !in k && field == k + ("=" + v)
  }

  lemma {:induction false} CutIff(field: string, k: string, v: string)
    ensures CutEquals(field) == Some(Pair(k, v)) <==> '=' !in k && field == k + ("=" + v)
  {
    if '=' !in k && field == k + ("=" + v) {
      CutField(Pair(k, v));
    }
    if CutEquals(field) == Some(Pair(k, v)) {
      CutParts(field);
    }
  }

  lemma {:induction false} CutParts(field: string)
    ensures CutEquals(field).Some? ==> var p := CutEquals(field).value; '=' !in p.key && field == p.key + ("=" + p.value)
  {
    if field != "" && field[0] != '=' && CutEquals(field[1..]).Some? {
      CutParts(field[1..]);
      var p := CutEquals(field[1..]).value;
      ConcatAssoc([field[0]], p.key, "=" + p.value);
      assert field == [field[0]] + field[1..];
    } else if field != "" {
      assert field == [field[0]] + field[1..];
    }
  }

  ghost predicate Said(fields: seq<string>, k: string, v: string) {
    exists i | 0 <= i < |fields| :: Gives(fields[i], k, v)
  }

  /** Some key is given by two fields. */
  ghost predicate Twice(fields: seq<string>) {
    exists i, j, k, v, v' :: 0 <= i < j < |fields| && Gives(fields[i], k, v) && Gives(fields[j], k, v')
  }

  lemma {:induction false} OneValue(field: string, k: string, v: string, k': string, v': string)
    requires Gives(field, k, v) && Gives(field, k', v')
    ensures k == k' && v == v'
  {
    CutIff(field, k, v);
    CutIff(field, k', v');
  }

  /** The map holds exactly what the fields say, and reading it fails exactly for a key given twice. */
  lemma {:induction false} TokensSaid(fields: seq<string>)
    ensures AddTokens(fields, map[]).None? <==> Twice(fields)
    ensures AddTokens(fields, map[]).Some? ==>
            var t := AddTokens(fields, map[]).value; forall k, v :: (k in t && t[k] == v) <==> Said(fields, k, v)
  {
    AddSaid([], fields, map[]);
    assert [] + fields == fields;
  }

  ghost predicate Holds(t: Tokens, fields: seq<string>) {
    !Twice(fields) && forall k, v :: (k in t && t[k] == v) <==> Said(fields, k, v)
  }

  lemma {:induction false} AddSaid(read: seq<string>, fields: seq<string>, tokens: Tokens)
    requires Holds(tokens, read)
    ensures match AddTokens(fields, tokens)
            case None => Twice(read + fields)
            case Some(t) => Holds(t, read + fields)
    decreases |fields|
  {
    if fields == [] {
      assert read + fields == read;
    } else {
      var field, rest := fields[0], fields[1..];
      assert read + fields == (read + [field]) + rest;
      var cut := CutEquals(field);
      if cut.Some? && cut.value.key != "" {
        var p := cut.value;
        CutIff(field, p.key, p.value);
        if p.key in tokens {
          GivenAgain(read, field, rest, p.key, tokens[p.key], p.value);
        } else {
          OneMoreToken(tokens, read, field, p);
          AddSaid(read + [field], rest, tokens[p.key := p.value]);
        }
      } else {
        NoToken(tokens, read, field);
        AddSaid(read + [field], rest, tokens);
      }
    }
  }

  lemma {:induction false} GivenAgain(read: seq<string>, field: string, rest: seq<string>, k: string, v: string, v': string)
    requires Said(read, k, v) && Gives(field, k, v')
    ensures Twice(read + [field] + rest)
  {
    var i :| 0 <= i < |read| && Gives(read[i], k, v);
    var all := read + [field] + rest;
    assert Gives(all[i], k, v) && Gives(all[|read|], k, v');
  }

  lemma {:induction false} SaidMore(read: seq<string>, field: string, k: string, v: string)
    ensures Said(read + [field], k, v) <==> Said(read, k, v) || Gives(field, k, v)
  {
    var more := read + [field];
    if Said(read, k, v) {
      var i :| 0 <= i < |read| && Gives(read[i], k, v);
      assert Gives(more[i], k, v);
    }
    if Gives(field, k, v) {
      assert Gives(more[|read|], k, v);
    }
    if Said(more, k, v) {
      var i :| 0 <= i < |more| && Gives(more[i], k, v);
      if i < |read| { assert Gives(read[i], k, v); }
    }
  }

  lemma {:induction false} TwiceMore(read: seq<string>, field: string)
    requires !Twice(read) && forall k, v, v' :: Gives(field, k, v') ==> !Said(read, k, v)
    ensures !Twice(read + [field])
  {
    if Twice(read + [field]) {
      var k, v, v' := TwiceCases(read, field);
    }
  }

  lemma {:induction false} TwiceCases(read: seq<string>, field: string) returns (k: string, v: string, v': string)
    requires Twice(read + [field])
    ensures Twice(read) || (Said(read, k, v) && Gives(field, k, v'))
  {
    var more := read + [field];
    var i, j;
    i, j, k, v, v' :| 0 <= i < j < |more| && Gives(more[i], k, v) && Gives(more[j], k, v');
    assert Gives(read[i], k, v);
    if j < |read| {
      assert Gives(read[j], k, v');
    }
  }

  lemma {:induction false} TokenSaid(tokens: Tokens, fields: seq<string>, k: string)
    requires forall k, v :: (k in tokens && tokens[k] == v) <==> Said(fields, k, v)
    ensures k in tokens ==> exists v :: Said(fields, k, v)
  {
    if k in tokens {
      assert Said(fields, k, tokens[k]);
    }
  }

  lemma {:induction false} OneMoreToken(tokens: Tokens, read: seq<string>, field: string, p: Pair)
    requires Holds(tokens, read) && Gives(field, p.key, p.value) && p.key !in tokens
    ensures Holds(tokens[p.key := p.value], read + [field])
  {
    var more := tokens[p.key := p.value];
    forall k, v, v' | Gives(field, k, v') ensures !Said(read, k, v) {
      OneValue(field, k, v', p.key, p.value);
      assert Said(read, k, v) ==> k in tokens;
    }
    TwiceMore(read, field);
    forall k, v ensures (k in more && more[k] == v) <==> Said(read + [field], k, v) {
      SaidMore(read, field, k, v);
      if Gives(field, k, v) { OneValue(field, k, v, p.key, p.value); }
      assert (k in tokens && tokens[k] == v) <==> Said(read, k, v);
    }
  }

  lemma {:induction false} NoToken(tokens: Tokens, read: seq<string>, field: string)
    requires Holds(tokens, read) && (CutEquals(field).Some? ==> CutEquals(field).value.key == "")
    ensures Holds(tokens, read + [field])
  {
    forall k, v ensures !Gives(field, k, v) {
      CutIff(field, k, v);
    }
    TwiceMore(read, field);
    forall k, v ensures (k in tokens && tokens[k] == v) <==> Said(read + [field], k, v) {
      SaidMore(read, field, k, v);
    }
  }

  // ------------------------------------------------------------------ versions

  /** The line's first word is the prefix. */
  ghost predicate Opens(line: string, prefix: string) {
    Fields(line) != [] && Fields(line)[0] == prefix
  }

  /** A line of another prefix, and one that gives a key twice, says nothing. */
  lemma {:induction false} LineRefused(line: string, prefix: string)
    ensures !Opens(line, prefix) || Twice(Fields(line)[1..]) ==> TokensOf(line, prefix) == None
  {
    if Opens(line, prefix) { TokensSaid(Fields(line)[1..]); }
  }

  /** Without a version every token is what the line says, letter by letter. */
  lemma {:induction false} LegacyTokens(line: string, prefix: string)
    requires Opens(line, prefix) && !Twice(Fields(line)[1..]) && forall v :: !Said(Fields(line)[1..], "v", v)
    ensures TokensOf(line, prefix).Some?
    ensures var t := TokensOf(line, prefix).value;
            "v" !in t && forall k, v :: (k in t && t[k] == v) <==> Said(Fields(line)[1..], k, v)
  {
    var fields := Fields(line)[1..];
    TokensSaid(fields);
    var t := AddTokens(fields, map[]).value;
    TokenSaid(t, fields, "v");
  }

  /** With a version the line is read exactly when that is 2 and every value decodes; the tokens are the decoded values. */
  lemma {:induction false} VersionedTokens(line: string, prefix: string, version: string)
    requires Opens(line, prefix) && !Twice(Fields(line)[1..]) && Said(Fields(line)[1..], "v", version)
    ensures TokensOf(line, prefix).Some? <==>
            version == "2" && forall k, v :: Said(Fields(line)[1..], k, v) ==> Unescape(v).Some?
    ensures TokensOf(line, prefix).Some? ==>
            forall k, v :: Said(Fields(line)[1..], k, v) ==>
              k in TokensOf(line, prefix).value && Some(TokensOf(line, prefix).value[k]) == Unescape(v)
  {
    var fields := Fields(line)[1..];
    TokensSaid(fields);
    var t := AddTokens(fields, map[]).value;
    assert "v" in t && t["v"] == version;
    assert forall k | k in t :: Said(fields, k, t[k]);
    if version == "2" && forall k, v :: Said(fields, k, v) ==> Unescape(v).Some? {
      assert AllDecode(t);
    }
    if AllDecode(t) {
      forall k, v | Said(fields, k, v) ensures Unescape(v).Some? {
        assert k in t && t[k] == v;
      }
    }
  }

  // ------------------------------------------------------------ older producers

  /** The record of a line without a version: identities are literal, and an underscore of the size stands for a blank. */
  lemma {:induction false} LegacyRecord(line: string, k: string, v: string)
    requires Opens(line, "BLOODRAVEN_DUMP_COMPLETE") && !Twice(Fields(line)[1..])
    requires (forall w :: !Said(Fields(line)[1..], "v", w)) && Said(Fields(line)[1..], k, v)
    ensures ParseDumpComplete(line).Some?
    ensures var m := ParseDumpComplete(line).value;
            && (k == "location" ==> m.location == v) && (k == "gtidExecuted" ==> m.gtidExecuted == v)
            && (k == "binlogFile" ==> m.binlogFile == v) && (k == "algorithm" ==> m.algorithm == v)
            && (k == "size" ==> |m.size| == |v| && forall i | 0 <= i < |v| :: m.size[i] == if v[i] == '_' then ' ' else v[i])
            && (k == "encrypted" ==> (m.encrypted <==> v == "true" || v == "1"))
  {
    LegacyTokens(line, PREFIX);
    var t := TokensOf(line, PREFIX).value;
    assert k in t && t[k] == v;
  }

  /** White space before a word, and between words, is of any kind and any amount. */
  lemma {:induction false} SpaceSkipped(c: char, word: string, rest: string)
    requires c in " \t\r\n" && (word == "" || Word(word))
    ensures Fields([c] + rest) == Fields(rest)
    ensures word != "" ==> Fields(word + ([c] + rest)) == [word] + Fields(rest)
  {
    var s := [c] + rest;
    assert s[0] == c && s[1..] == rest;
    assert SpaceLength(s) == 1;
    if word != "" { FieldsOfWord(word, s); }
  }

  // ------------------------------------------------------------- escapes, numbers

  const UPPER_HEX := "0123456789ABCDEF"
  const LOWER_HEX := "0123456789abcdef"

  /** A byte is kept when it is a letter, a digit or one of eight signs, and is otherwise two upper-case digits. */
  lemma {:induction false} EscapedByte(c: char)
    requires c as int < 256
    ensures var kept := 'a' <= c <= 'z' || 'A' <= c <= 'Z' || '0' <= c <= '9' ||
                        c == '-' || c == '.' || c == '_' || c == '~' || c == '/' || c == ':' || c == ',' || c == '@';
            Escaped([c]) == if kept then [c] else ['%', UPPER_HEX[c as int / 16], UPPER_HEX[c as int % 16]]
  {
    assert [c][1..] == "" && Escaped("") == "";
    HexUpper(c as int / 16);
    HexUpper(c as int % 16);
  }

  lemma {:induction false} HexUpper(n: int)
    requires 0 <= n < 16
    ensures HexDigit(n) == UPPER_HEX[n]
  {
  }

  lemma {:induction false} HexRead(n: int)
    requires 0 <= n < 16
    ensures HexValue(UPPER_HEX[n]) == Some(n) && HexValue(LOWER_HEX[n]) == Some(n)
  {
    if n >= 10 {
      assert LOWER_HEX[n] == 'a' + (n - 10) as char && UPPER_HEX[n] == 'A' + (n - 10) as char;
    } else {
      assert LOWER_HEX[n] == '0' + n as char && UPPER_HEX[n] == '0' + n as char;
    }
  }

  /** An escape is read in either case, and what follows it is read on. */
  lemma {:induction false} EscapeRead(high: int, low: int, lower: bool, rest: string)
    requires 0 <= high < 16 && 0 <= low < 16
    ensures var hex := if lower then LOWER_HEX else UPPER_HEX;
            Unescape(['%', hex[high], hex[low]] + rest) ==
            if Unescape(rest).None? then None else Some([(16 * high + low) as char] + Unescape(rest).value)
  {
    HexRead(high);
    HexRead(low);
    var hex := if lower then LOWER_HEX else UPPER_HEX;
    var s := ['%', hex[high], hex[low]] + rest;
    assert s[0] == '%' && s[1] == hex[high] && s[2] == hex[low] && s[3..] == rest;
  }

  predicate Hex(c: char) {
    '0' <= c <= '9' || 'a' <= c <= 'f' || 'A' <= c <= 'F'
  }

  /** A percent sign without two hexadecimal digits after it fails the whole value. */
  lemma {:induction false} BadEscape(plain: string, rest: string)
    requires (forall i | 0 <= i < |plain| :: plain[i] != '%')
    requires rest != "" && rest[0] == '%' && (|rest| < 3 || !Hex(rest[1]) || !Hex(rest[2]))
    ensures Unescape(plain + rest) == None
  {
    var s := plain + rest;
    if plain == "" {
      assert s == rest;
    } else {
      BadEscape(plain[1..], rest);
      assert s[0] == plain[0] && s[1..] == plain[1..] + rest;
    }
  }

  /** Numbers beyond 64 bits are refused, and a plus sign is allowed. */
  lemma {:induction false} ParseIntRange(n: int)
    ensures ParseInt(FormatInt(n)) == if -0x8000_0000_0000_0000 <= n <= 0x7fff_ffff_ffff_ffff then Some(n) else None
    ensures n >= 0 ==> ParseInt("+" + FormatInt(n)) == ParseInt(FormatInt(n))
  {
    var k: nat := if n < 0 then 0 - n else n;
    ParseDigitsOf(k);
    assert ("-" + Digits(k))[1..] == Digits(k) && ("+" + Digits(k))[1..] == Digits(k);
  }

  lemma {:induction false} ParseDigitsOnly(s: string)
    ensures ParseDigits(s).Some? <==> forall i | 0 <= i < |s| :: '0' <= s[i] <= '9'
  {
    if s != "" {
      var n := |s| - 1;
      ParseDigitsOnly(s[..n]);
      assert forall i | 0 <= i < n :: s[..n][i] == s[i];
    }
  }

  /** A number is digits after an optional sign, and nothing else. */
  lemma {:induction false} ParseIntDigits(s: string)
    ensures ParseInt(s).Some? ==>
            && s != "" && ('0' <= s[0] <= '9' || (|s| > 1 && (s[0] == '-' || s[0] == '+')))
            && forall i | 1 <= i < |s| :: '0' <= s[i] <= '9'
  {
    ParseDigitsOnly(s);
    if s != "" {
      ParseDigitsOnly(s[1..]);
      assert forall i | 1 <= i < |s| :: s[1..][i - 1] == s[i];
    }
  }
}
