/**
 ParseTokens, FormatDumpComplete and ParseDumpComplete
 (internal/backupmeta/completion.go:12-14, 34-117) and their round trip.
 */
module CompletionLine {
  import opened Wrappers
  import opened Completion

  const PREFIX := "BLOODRAVEN_DUMP_COMPLETE"

  type Tokens = map<string, string>

  // -------------------------------------------------------------------- fields

  function At(s: string, i: nat): (c: int)
  {
    if i < |s| then s[i] as int else 0
  }

  /**
   The bytes of the white space at the start of s, 0 for none: the ASCII ones,
   and the UTF-8 encodings of U+0085, U+00A0, U+1680, U+2000 to U+200A, U+2028,
   U+2029, U+202F, U+205F and U+3000. None of them starts inside another rune.
   */
  function SpaceLength(s: string): (n: nat)
    ensures n <= |s| && (s != "" && At(s, 0) < 0x80 ==> (n == 1 <==> IsSpace(s[0])) && n <= 1)
  {
    var a, b, c := At(s, 0), At(s, 1), At(s, 2);
    if s == "" then 0
    else if IsSpace(s[0]) then 1
    else if a == 0xC2 && (b == 0x85 || b == 0xA0) then 2
    else if a == 0xE1 && b == 0x9A && c == 0x80 then 3
    else if a == 0xE2 && b == 0x80 && (0x80 <= c <= 0x8A || c == 0xA8 || c == 0xA9 || c == 0xAF) then 3
    else if a == 0xE2 && b == 0x81 && c == 0x9F then 3
    else if a == 0xE3 && b == 0x80 && c == 0x80 then 3
    else 0
  }

  function WordLength(s: string): (n: nat)
    ensures n <= |s| && (n == 0 <==> s == "" || SpaceLength(s) > 0)
  {
    if s == "" || SpaceLength(s) > 0 then 0 else 1 + WordLength(s[1..])
  }

  /** strings.Fields. */
  function Fields(s: string): (fields: seq<string>)
    decreases |s|
  {
    if s == "" then []
    else if SpaceLength(s) > 0 then Fields(s[SpaceLength(s)..])
    else [s[..WordLength(s)]] + Fields(s[WordLength(s)..])
  }

  predicate Word(s: string) {
    s != "" && forall i | 0 <= i < |s| :: Plain(s[i])
  }

  function Join(words: seq<string>): (line: string)
  {
    if words == [] then ""
    else if |words| == 1 then words[0]
    else words[0] + (" " + Join(words[1..]))
  }

  lemma {:induction false} WordEnds(w: string, rest: string)
    requires (forall i | 0 <= i < |w| :: Plain(w[i])) && (rest == "" || IsSpace(rest[0]))
    ensures WordLength(w + rest) == |w|
  {
    var s := w + rest;
    if w == "" {
      assert s == rest;
    } else {
      assert s[0] == w[0] && s[1..] == w[1..] + rest;
      WordEnds(w[1..], rest);
    }
  }

  lemma {:induction false} FieldsOfWord(w: string, rest: string)
    requires Word(w) && (rest == "" || IsSpace(rest[0]))
    ensures Fields(w + rest) == [w] + Fields(rest)
  {
    var s := w + rest;
    WordEnds(w, rest);
    assert s[0] == w[0];
    assert s[..|w|] == w && s[|w|..] == rest;
  }

  /** The fields of a line joined by blanks are its words. */
  lemma {:induction false} FieldsOfJoin(words: seq<string>)
    requires forall i | 0 <= i < |words| :: Word(words[i])
    ensures Fields(Join(words)) == words
  {
    if |words| == 1 {
      FieldsOfWord(words[0], "");
      assert words[0] + "" == words[0];
      assert words == [words[0]];
    } else if words != [] {
      FieldsOfJoin(words[1..]);
      FieldsOfWord(words[0], " " + Join(words[1..]));
      assert (" " + Join(words[1..]))[1..] == Join(words[1..]);
      assert words == [words[0]] + words[1..];
    }
  }

  // -------------------------------------------------------------------- tokens

  datatype Pair = Pair(key: string, value: string)

  /** strings.Cut(field, "="), None without the sign. */
  function CutEquals(field: string): (r: Option<Pair>)
  {
    if field == "" then None
    else if field[0] == '=' then Some(Pair("", field[1..]))
    else match CutEquals(field[1..])
      case None => None
      case Some(p) => Some(Pair([field[0]] + p.key, p.value))
  }

  /** The tokens of the fields, added to what was read before; None for a key given twice. */
  function AddTokens(fields: seq<string>, tokens: Tokens): (r: Option<Tokens>)
  {
    if fields == [] then Some(tokens)
    else match CutEquals(fields[0])
      case None => AddTokens(fields[1..], tokens)
      case Some(p) =>
        if p.key == "" then AddTokens(fields[1..], tokens)
        else if p.key in tokens then None
        else AddTokens(fields[1..], tokens[p.key := p.value])
  }

  predicate AllDecode(tokens: Tokens) {
    forall k | k in tokens :: Unescape(tokens[k]).Some?
  }

  function Decoded(tokens: Tokens): (r: Tokens)
    requires AllDecode(tokens)
  {
    map k | k in tokens :: Unescape(tokens[k]).value
  }

  function TokensOf(line: string, prefix: string): (r: Option<Tokens>)
  {
    var fields := Fields(line);
    if fields == [] || fields[0] != prefix then None
    else match AddTokens(fields[1..], map[])
      case None => None
      case Some(tokens) =>
        if "v" !in tokens then Some(tokens)
        else if tokens["v"] != "2" || !AllDecode(tokens) then None
        else Some(Decoded(tokens))
  }

  /** ParseTokens: fills the map field by field, then decodes a version-2 line in place. */
  method ParseTokens(line: string, prefix: string) returns (r: Option<Tokens>)
    ensures r == TokensOf(line, prefix)
  {
    var fields := Fields(line);
    if fields == [] || fields[0] != prefix {
      return None;
    }
    var tokens: Tokens := map[];
    var i := 1;
    while i < |fields|
      invariant 1 <= i <= |fields|
      invariant AddTokens(fields[1..], map[]) == AddTokens(fields[i..], tokens)
    {
      var cut := CutEquals(fields[i]);
      assert fields[i..][1..] == fields[i + 1..];
      if cut.Some? && cut.value.key != "" {
        if cut.value.key in tokens {
          return None;
        }
        tokens := tokens[cut.value.key := cut.value.value];
      }
      i := i + 1;
    }
    if "v" !in tokens {
      return Some(tokens);
    }
    if tokens["v"] != "2" {
      return None;
    }
    r := DecodeAll(tokens);
  }

  /** The decoding loop ranges over the map it rewrites, in any order. */
  method DecodeAll(read: Tokens) returns (r: Option<Tokens>)
    ensures r == if AllDecode(read) then Some(Decoded(read)) else None
  {
    var tokens, keys := read, read.Keys;
    while keys != {}
      invariant keys <= read.Keys == tokens.Keys
      invariant forall k | k in keys :: tokens[k] == read[k]
      invariant forall k | k in read && k !in keys :: Unescape(read[k]) == Some(tokens[k])
      decreases keys
    {
      var k :| k in keys;
      keys := keys - {k};
      var decoded := Unescape(tokens[k]);
      if decoded.None? {
        return None;
      }
      tokens := tokens[k := decoded.value];
    }
    assert tokens == Decoded(read);
    return Some(tokens);
  }

  function Field(p: Pair): (r: string)
  {
    p.key + ("=" + p.value)
  }

  predicate KeyText(k: string) {
    Word(k) && '=' !in k
  }

  lemma {:induction false} CutField(p: Pair)
    requires '=' !in p.key
    ensures CutEquals(Field(p)) == Some(p)
    decreases |p.key|
  {
    var field := Field(p);
    if p.key == "" {
      assert field[1..] == p.value;
    } else {
      CutField(Pair(p.key[1..], p.value));
      assert field[0] == p.key[0] && field[1..] == Field(Pair(p.key[1..], p.value));
      assert p.key == [p.key[0]] + p.key[1..];
    }
  }

  ghost predicate DistinctKeys(ps: seq<Pair>) {
    forall i, j | 0 <= i < j < |ps| :: ps[i].key != ps[j].key
  }

  function FieldsOf(ps: seq<Pair>): (r: seq<string>)
    ensures |r| == |ps|
  {
    seq(|ps|, i requires 0 <= i < |ps| => Field(ps[i]))
  }

  function TokensFrom(ps: seq<Pair>, tokens: Tokens): (r: Tokens)
  {
    if ps == [] then tokens else TokensFrom(ps[1..], tokens[ps[0].key := ps[0].value])
  }

  /** Distinct keys are read back as the map they came from. */
  lemma {:induction false} AddsFields(ps: seq<Pair>, tokens: Tokens)
    requires DistinctKeys(ps) && forall i | 0 <= i < |ps| :: KeyText(ps[i].key) && ps[i].key !in tokens
    ensures AddTokens(FieldsOf(ps), tokens) == Some(TokensFrom(ps, tokens))
    decreases |ps|
  {
    if ps != [] {
      CutField(ps[0]);
      var more := tokens[ps[0].key := ps[0].value];
      assert FieldsOf(ps)[1..] == FieldsOf(ps[1..]);
      assert forall i | 0 <= i < |ps[1..]| :: ps[1..][i] == ps[i + 1];
      AddsFields(ps[1..], more);
    }
  }

  lemma {:induction false} LooksUp(ps: seq<Pair>, tokens: Tokens)
    requires DistinctKeys(ps) && forall i | 0 <= i < |ps| :: ps[i].key !in tokens
    ensures forall k | k in tokens :: k in TokensFrom(ps, tokens) && TokensFrom(ps, tokens)[k] == tokens[k]
    ensures forall i | 0 <= i < |ps| :: ps[i].key in TokensFrom(ps, tokens) && TokensFrom(ps, tokens)[ps[i].key] == ps[i].value
    ensures forall k | k in TokensFrom(ps, tokens) :: k in tokens || exists i | 0 <= i < |ps| :: ps[i].key == k
    decreases |ps|
  {
    if ps != [] {
      var more := tokens[ps[0].key := ps[0].value];
      assert forall i | 0 <= i < |ps[1..]| :: ps[1..][i] == ps[i + 1];
      LooksUp(ps[1..], more);
      assert TokensFrom(ps, tokens) == TokensFrom(ps[1..], more);
      forall i | 0 <= i < |ps| ensures ps[i].key in TokensFrom(ps, tokens) && TokensFrom(ps, tokens)[ps[i].key] == ps[i].value {
        if i > 0 { assert ps[1..][i - 1] == ps[i]; }
      }
      forall k | k in TokensFrom(ps, tokens) && k !in tokens ensures exists i | 0 <= i < |ps| :: ps[i].key == k {
        if k in more {
          assert ps[0].key == k;
        } else {
          var i :| 0 <= i < |ps[1..]| && ps[1..][i].key == k;
          assert ps[i + 1].key == k;
        }
      }
    }
  }

  // --------------------------------------------------------------- the record

  datatype DumpComplete = DumpComplete(
    location: string, size: string, sizeBytes: int, gtidExecuted: string, binlogFile: string, binlogPos: int,
    encrypted: bool, algorithm: string, ciphertextBytes: int, files: int)

  /** The values the Go record can hold. */
  ghost predicate Typed(m: DumpComplete) {
    Bytes(m.location) && Bytes(m.size) && Bytes(m.gtidExecuted) && Bytes(m.binlogFile) && Bytes(m.algorithm) &&
    Int64(m.sizeBytes) && Int64(m.binlogPos) && Int64(m.ciphertextBytes) && Int64(m.files)
  }

  function PlainPairs(m: DumpComplete): (ps: seq<Pair>)
    requires Bytes(m.location) && Bytes(m.size) && Bytes(m.gtidExecuted) && Bytes(m.binlogFile)
  {
    [Pair("v", "2"), Pair("location", Escaped(m.location)), Pair("sizeBytes", FormatInt(m.sizeBytes)),
     Pair("size", Escaped(m.size)), Pair("gtidExecuted", Escaped(m.gtidExecuted)),
     Pair("binlogFile", Escaped(m.binlogFile)), Pair("binlogPos", FormatInt(m.binlogPos))]
  }

  function EncryptedPairs(m: DumpComplete): (ps: seq<Pair>)
    requires Bytes(m.algorithm)
  {
    [Pair("ciphertextBytes", FormatInt(m.ciphertextBytes)), Pair("files", FormatInt(m.files)),
     Pair("encrypted", "true"), Pair("algorithm", Escaped(m.algorithm))]
  }

  function Pairs(m: DumpComplete): (ps: seq<Pair>)
    requires Typed(m)
  {
    PlainPairs(m) + if m.encrypted then EncryptedPairs(m) else []
  }

  /** FormatDumpComplete. */
  function FormatDumpComplete(m: DumpComplete): (line: string)
    requires Typed(m)
  {
    Join([PREFIX] + FieldsOf(Pairs(m)))
  }

  function Get(tokens: Tokens, key: string): (v: string)
  {
    if key in tokens then tokens[key] else ""
  }

  function GetInt(tokens: Tokens, key: string): (n: int)
  {
    var n := ParseInt(Get(tokens, key));
    if n.Some? then n.value else 0
  }

  /** strings.ReplaceAll(s, "_", " "). */
  function Spaced(s: string): (r: string)
  {
    seq(|s|, i requires 0 <= i < |s| => if s[i] == '_' then ' ' else s[i])
  }

  /** ParseDumpComplete. */
  function ParseDumpComplete(line: string): (r: Option<DumpComplete>)
  {
    match TokensOf(line, PREFIX)
    case None => None
    case Some(tokens) =>
      Some(DumpComplete(
        Get(tokens, "location"),
        if Get(tokens, "v") == "" then Spaced(Get(tokens, "size")) else Get(tokens, "size"),
        GetInt(tokens, "sizeBytes"), Get(tokens, "gtidExecuted"), Get(tokens, "binlogFile"), GetInt(tokens, "binlogPos"),
        Get(tokens, "encrypted") == "true" || Get(tokens, "encrypted") == "1",
        Get(tokens, "algorithm"), GetInt(tokens, "ciphertextBytes"), GetInt(tokens, "files")))
  }

  /** What a reader can know of the record: a plain dump says nothing of the encryption. */
  function Observable(m: DumpComplete): (r: DumpComplete)
  {
    if m.encrypted then m else m.(algorithm := "", ciphertextBytes := 0, files := 0)
  }

  // ---------------------------------------------------------------- round trip

  /** What each token says once it is decoded. */
  function PlainTexts(m: DumpComplete): (ds: seq<Pair>)
  {
    [Pair("v", "2"), Pair("location", m.location), Pair("sizeBytes", FormatInt(m.sizeBytes)), Pair("size", m.size),
     Pair("gtidExecuted", m.gtidExecuted), Pair("binlogFile", m.binlogFile), Pair("binlogPos", FormatInt(m.binlogPos))]
  }

  function EncryptedTexts(m: DumpComplete): (ds: seq<Pair>)
  {
    [Pair("ciphertextBytes", FormatInt(m.ciphertextBytes)), Pair("files", FormatInt(m.files)),
     Pair("encrypted", "true"), Pair("algorithm", m.algorithm)]
  }

  /** The token is a word of the line, and decodes to the text. */
  ghost predicate Encodes(p: Pair, d: Pair) {
    p.key == d.key && KeyText(p.key) && Token(p.value) && Unescape(p.value) == Some(d.value)
  }

  ghost predicate AllEncode(ps: seq<Pair>, ds: seq<Pair>) {
    |ps| == |ds| && forall i | 0 <= i < |ps| :: Encodes(ps[i], ds[i])
  }

  lemma {:induction false} EscapedEncodes(key: string, value: string)
    requires KeyText(key) && Bytes(value)
    ensures Encodes(Pair(key, Escaped(value)), Pair(key, value))
  {
    EscapedIsToken(value);
    UnescapeEscaped(value);
  }

  lemma {:induction false} NumberEncodes(key: string, n: int)
    requires KeyText(key)
    ensures Encodes(Pair(key, FormatInt(n)), Pair(key, FormatInt(n)))
  {
    FormatIntPlain(n);
  }

  lemma {:induction false} LiteralEncodes(key: string, value: string)
    requires KeyText(key) && Token(value) && '%' !in value
    ensures Encodes(Pair(key, value), Pair(key, value))
  {
    UnescapePlain(value);
  }

  lemma {:induction false} KeyTexts()
    ensures KeyText("v") && KeyText("location") && KeyText("size") && KeyText("files")
  {
  }

  lemma {:induction false} ByteKeyTexts()
    ensures KeyText("sizeBytes") && KeyText("ciphertextBytes")
  {
  }

  lemma {:induction false} BinlogKeyTexts()
    ensures KeyText("gtidExecuted") && KeyText("binlogFile") && KeyText("binlogPos")
  {
  }

  lemma {:induction false} EncryptionKeyTexts()
    ensures KeyText("encrypted") && KeyText("algorithm")
  {
  }

  lemma {:induction false} PlainEncode(m: DumpComplete)
    requires Typed(m)
    ensures AllEncode(PlainPairs(m), PlainTexts(m))
  {
    KeyTexts();
    ByteKeyTexts();
    BinlogKeyTexts();
    LiteralEncodes("v", "2");
    EscapedEncodes("location", m.location);
    NumberEncodes("sizeBytes", m.sizeBytes);
    EscapedEncodes("size", m.size);
    EscapedEncodes("gtidExecuted", m.gtidExecuted);
    EscapedEncodes("binlogFile", m.binlogFile);
    NumberEncodes("binlogPos", m.binlogPos);
  }

  lemma {:induction false} EncryptedEncode(m: DumpComplete)
    requires Typed(m)
    ensures AllEncode(EncryptedPairs(m), EncryptedTexts(m))
  {
    KeyTexts();
    ByteKeyTexts();
    EncryptionKeyTexts();
    NumberEncodes("ciphertextBytes", m.ciphertextBytes);
    NumberEncodes("files", m.files);
    LiteralEncodes("encrypted", "true");
    EscapedEncodes("algorithm", m.algorithm);
  }

  /** Length and first letter tell the keys of the line apart. */
  function Mark(key: string): (n: int)
    requires key != ""
  {
    1000 * |key| + key[0] as int
  }

  const MARKS := [1118, 8108, 9115, 4115, 12103, 10098, 9098, 15099, 5102, 9101, 9097]

  predicate Marked(p: Pair, i: nat) {
    i < |MARKS| && p.key != "" && Mark(p.key) == MARKS[i]
  }

  lemma {:induction false} PlainMarks(m: DumpComplete)
    requires Typed(m)
    ensures forall i | 0 <= i < 7 :: Marked(PlainPairs(m)[i], i)
  {
  }

  lemma {:induction false} EncryptedMarks(m: DumpComplete)
    requires Typed(m)
    ensures forall i | 0 <= i < 4 :: Marked(EncryptedPairs(m)[i], 7 + i)
  {
  }

  lemma {:induction false} MarksDiffer()
    ensures forall i, j | 0 <= i < j < |MARKS| :: MARKS[i] != MARKS[j]
  {
  }

  lemma {:induction false} MarkedDistinct(ps: seq<Pair>)
    requires |ps| <= |MARKS| && forall i | 0 <= i < |ps| :: Marked(ps[i], i)
    ensures DistinctKeys(ps)
  {
    MarksDiffer();
    forall i, j | 0 <= i < j < |ps| ensures ps[i].key != ps[j].key {
      assert Marked(ps[i], i) && Marked(ps[j], j);
    }
  }

  lemma {:induction false} KeysDiffer(m: DumpComplete)
    requires Typed(m)
    ensures DistinctKeys(PlainPairs(m) + EncryptedPairs(m)) && DistinctKeys(PlainPairs(m))
  {
    var ps := PlainPairs(m) + EncryptedPairs(m);
    PlainMarks(m);
    EncryptedMarks(m);
    forall i | 0 <= i < 11 ensures Marked(ps[i], i) {
      if i >= 7 { assert ps[i] == EncryptedPairs(m)[i - 7]; } else { assert ps[i] == PlainPairs(m)[i]; }
    }
    MarkedDistinct(ps);
    MarkedDistinct(PlainPairs(m));
  }

  /** A line of tokens that encode texts is read as those texts. */
  lemma {:induction false} TokensRead(ps: seq<Pair>, ds: seq<Pair>)
    requires AllEncode(ps, ds) && DistinctKeys(ps) && |ps| > 0 && ps[0] == Pair("v", "2")
    ensures var r := TokensOf(Join([PREFIX] + FieldsOf(ps)), PREFIX);
            && r.Some?
            && (forall i | 0 <= i < |ps| :: ds[i].key in r.value && r.value[ds[i].key] == ds[i].value)
            && (forall k | k in r.value :: exists i | 0 <= i < |ps| :: ps[i].key == k)
  {
    LineFields(ps, ds);
    assert forall i | 0 <= i < |ps| :: Encodes(ps[i], ds[i]) && KeyText(ps[i].key);
    AddsFields(ps, map[]);
    LooksUp(ps, map[]);
    var tokens := TokensFrom(ps, map[]);
    assert ps[0].key in tokens && tokens["v"] == "2";
    forall k | k in tokens ensures Unescape(tokens[k]).Some? {
      var i :| 0 <= i < |ps| && ps[i].key == k;
      assert Encodes(ps[i], ds[i]);
    }
  }

  lemma {:induction false} PrefixIsWord()
    ensures Word(PREFIX)
  {
  }

  lemma {:induction false} LineFields(ps: seq<Pair>, ds: seq<Pair>)
    requires AllEncode(ps, ds)
    ensures var fields := Fields(Join([PREFIX] + FieldsOf(ps))); fields != [] && fields[0] == PREFIX && fields[1..] == FieldsOf(ps)
  {
    var words := [PREFIX] + FieldsOf(ps);
    PrefixIsWord();
    forall i | 0 <= i < |words| ensures Word(words[i]) {
      if i > 0 {
        assert Encodes(ps[i - 1], ds[i - 1]);
        FieldIsWord(ps[i - 1]);
      }
    }
    FieldsOfJoin(words);
    assert words[1..] == FieldsOf(ps);
  }

  lemma {:induction false} FieldIsWord(p: Pair)
    requires KeyText(p.key) && Token(p.value)
    ensures Word(Field(p))
  {
  }

  ghost predicate Says(tokens: Tokens, d: Pair) {
    d.key in tokens && tokens[d.key] == d.value
  }

  /** The tokens read back from a record's line. */
  lemma {:induction false} RecordRead(m: DumpComplete)
    requires Typed(m)
    ensures var r := TokensOf(FormatDumpComplete(m), PREFIX);
            && r.Some?
            && (forall i | 0 <= i < 7 :: Says(r.value, PlainTexts(m)[i]))
            && (m.encrypted ==> forall i | 0 <= i < 4 :: Says(r.value, EncryptedTexts(m)[i]))
            && (!m.encrypted ==> forall i | 0 <= i < 4 :: EncryptedTexts(m)[i].key !in r.value)
  {
    var ps := Pairs(m);
    var ds := PlainTexts(m) + if m.encrypted then EncryptedTexts(m) else [];
    KeysDiffer(m);
    PlainEncode(m);
    EncryptedEncode(m);
    assert forall i | 0 <= i < 7 :: ps[i] == PlainPairs(m)[i] && ds[i] == PlainTexts(m)[i];
    if m.encrypted {
      assert forall i | 0 <= i < 4 :: ps[7 + i] == EncryptedPairs(m)[i] && ds[7 + i] == EncryptedTexts(m)[i];
      assert forall i | 7 <= i < 11 :: ps[i] == EncryptedPairs(m)[i - 7] && ds[i] == EncryptedTexts(m)[i - 7];
    } else {
      assert ps == PlainPairs(m);
    }
    TokensRead(ps, ds);
    var tokens := TokensOf(FormatDumpComplete(m), PREFIX).value;
    assert forall i | 0 <= i < |ps| :: Says(tokens, ds[i]);
    if !m.encrypted {
      forall i | 0 <= i < 4 ensures EncryptedTexts(m)[i].key !in tokens {
        EncryptedKeyAbsent(m, i);
      }
    }
  }

  lemma {:induction false} EncryptedKeyAbsent(m: DumpComplete, i: nat)
    requires Typed(m) && i < 4
    ensures forall j | 0 <= j < 7 :: PlainPairs(m)[j].key != EncryptedTexts(m)[i].key
  {
    KeysDiffer(m);
    var all := PlainPairs(m) + EncryptedPairs(m);
    assert EncryptedTexts(m)[i].key == EncryptedPairs(m)[i].key == all[7 + i].key;
    assert forall j | 0 <= j < 7 :: all[j] == PlainPairs(m)[j];
  }

  /** A whole record survives the line, but for the encryption fields of a plain dump, which the line leaves out. */
  lemma {:induction false} RoundTrip(m: DumpComplete)
    requires Typed(m)
    ensures ParseDumpComplete(FormatDumpComplete(m)) == Some(Observable(m))
  {
    RecordRead(m);
    var tokens := TokensOf(FormatDumpComplete(m), PREFIX).value;
    PlainFields(m, tokens);
    EncryptedFields(m, tokens);
  }

  lemma {:induction false} PlainFields(m: DumpComplete, tokens: Tokens)
    requires Typed(m) && forall i | 0 <= i < 7 :: Says(tokens, PlainTexts(m)[i])
    ensures Get(tokens, "v") == "2" && Get(tokens, "location") == m.location && Get(tokens, "size") == m.size
    ensures Get(tokens, "gtidExecuted") == m.gtidExecuted && Get(tokens, "binlogFile") == m.binlogFile
    ensures GetInt(tokens, "sizeBytes") == m.sizeBytes && GetInt(tokens, "binlogPos") == m.binlogPos
  {
    var ds := PlainTexts(m);
    assert Says(tokens, ds[0]) && Says(tokens, ds[1]) && Says(tokens, ds[2]) && Says(tokens, ds[3]);
    assert Says(tokens, ds[4]) && Says(tokens, ds[5]) && Says(tokens, ds[6]);
    ParseIntFormatted(m.sizeBytes);
    ParseIntFormatted(m.binlogPos);
  }

  lemma {:induction false} EncryptedFields(m: DumpComplete, tokens: Tokens)
    requires Typed(m)
    requires m.encrypted ==> forall i | 0 <= i < 4 :: Says(tokens, EncryptedTexts(m)[i])
    requires !m.encrypted ==> forall i | 0 <= i < 4 :: EncryptedTexts(m)[i].key !in tokens
    ensures Get(tokens, "encrypted") == if m.encrypted then "true" else ""
    ensures Get(tokens, "algorithm") == Observable(m).algorithm
    ensures GetInt(tokens, "ciphertextBytes") == Observable(m).ciphertextBytes && GetInt(tokens, "files") == Observable(m).files
  {
    var ds := EncryptedTexts(m);
    if m.encrypted {
      assert Says(tokens, ds[0]) && Says(tokens, ds[1]) && Says(tokens, ds[2]) && Says(tokens, ds[3]);
      ParseIntFormatted(m.ciphertextBytes);
      ParseIntFormatted(m.files);
    } else {
      assert ds[0].key !in tokens && ds[1].key !in tokens && ds[2].key !in tokens && ds[3].key !in tokens;
    }
  }
}
