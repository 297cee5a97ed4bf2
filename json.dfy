/**
 * The JSON values the program exchanges with `json.loads` and `json.dump`,
 * Python dict semantics on objects, a compact encoder and a decoder that
 * follows the grammar Python's `json` module accepts (integers only).
 */
module Json {
  import opened Wrappers

  datatype Json =
    | JNull
    | JBool(b: bool)
    | JNum(n: int)
    | JStr(s: string)
    | JArr(items: seq<Json>)
    | JObj(members: seq<Member>)

  /** One key/value entry of an object, in insertion order. */
  datatype Member = Member(key: string, value: Json)

  // ---------------------------------------------------------------------
  // Objects as Python dicts

  /** Python's `d.get(k)`: the value of the entry with key `k`. */
  function Get(ms: seq<Member>, k: string): (r: Option<Json>)
    ensures r.None? <==> forall i :: 0 <= i < |ms| ==> ms[i].key != k
    ensures r.Some? ==> exists i :: 0 <= i < |ms| && ms[i] == Member(k, r.value) && forall j :: 0 <= j < i ==> ms[j].key != k
  {
    if ms == [] then None
    else if ms[0].key == k then Some(ms[0].value)
    else
      var r := Get(ms[1..], k);
      assert r.Some? ==> exists i :: 1 <= i < |ms| && ms[i] == Member(k, r.value) && forall j :: 1 <= j < i ==> ms[j].key != k;
      r
  }

  predicate DistinctKeys(ms: seq<Member>) {
    forall i, j :: 0 <= i < j < |ms| ==> ms[i].key != ms[j].key
  }

  /**
   * Python's `d[k] = v`: a present key keeps its position and takes the new
   * value; an absent key is appended.
   */
  function Put(ms: seq<Member>, k: string, v: Json): (r: seq<Member>)
    ensures |r| == |ms| || r == ms + [Member(k, v)]
  {
    if ms == [] then [Member(k, v)]
    else if ms[0].key == k then [Member(k, v)] + ms[1..]
    else [ms[0]] + Put(ms[1..], k, v)
  }

  /** Every entry after `d[k] = v` is the new one or an old one. */
  lemma {:induction false} PutFrom(ms: seq<Member>, k: string, v: Json)
    ensures forall i :: 0 <= i < |Put(ms, k, v)| ==> Put(ms, k, v)[i] == Member(k, v) || Put(ms, k, v)[i] in ms
  {
    if ms != [] && ms[0].key != k {
      PutFrom(ms[1..], k, v);
      var r := Put(ms, k, v);
      assert forall i :: 0 < i < |r| ==> r[i] == Put(ms[1..], k, v)[i - 1];
      assert forall x :: x in ms[1..] ==> x in ms;
    }
  }

  /** After `d[k] = v`, `d[k]` is `v` and every other key reads as before. */
  lemma {:induction false} PutGet(ms: seq<Member>, k: string, v: Json, k': string)
    ensures Get(Put(ms, k, v), k') == if k' == k then Some(v) else Get(ms, k')
  {
    if ms != [] && ms[0].key != k {
      PutGet(ms[1..], k, v, k');
    }
  }

  /** `d[k] = v` appends exactly when `k` is new, and otherwise keeps every key where it was. */
  lemma {:induction false} PutShape(ms: seq<Member>, k: string, v: Json)
    ensures Get(ms, k).None? ==> Put(ms, k, v) == ms + [Member(k, v)]
    ensures Get(ms, k).Some? ==> |Put(ms, k, v)| == |ms| && forall i :: 0 <= i < |ms| ==> Put(ms, k, v)[i].key == ms[i].key
  {
    if ms != [] && ms[0].key != k {
      PutShape(ms[1..], k, v);
      assert Get(ms, k) == Get(ms[1..], k);
      var r := Put(ms, k, v);
      assert r == [ms[0]] + Put(ms[1..], k, v);
      if Get(ms, k).None? {
        assert [ms[0]] + (ms[1..] + [Member(k, v)]) == ms + [Member(k, v)];
      } else {
        assert forall i :: 1 <= i < |ms| ==> r[i] == Put(ms[1..], k, v)[i - 1];
      }
    }
  }

  lemma PutDistinct(ms: seq<Member>, k: string, v: Json)
    requires DistinctKeys(ms)
    ensures DistinctKeys(Put(ms, k, v))
  {
    PutShape(ms, k, v);
  }

  /** Python's `dict(pairs)` continued from `acc`: later pairs overwrite earlier ones. */
  function DictFrom(acc: seq<Member>, pairs: seq<Member>): (r: seq<Member>)
    requires DistinctKeys(acc)
    ensures DistinctKeys(r)
    ensures forall i :: 0 <= i < |r| ==> r[i] in acc || r[i] in pairs
    decreases |pairs|
  {
    if pairs == [] then acc
    else
      PutDistinct(acc, pairs[0].key, pairs[0].value);
      PutFrom(acc, pairs[0].key, pairs[0].value);
      var r := DictFrom(Put(acc, pairs[0].key, pairs[0].value), pairs[1..]);
      assert forall x :: x in pairs[1..] ==> x in pairs;
      r
  }

  /** Python's `dict(pairs)`, which is how `json.loads` builds an object. */
  function Dict(pairs: seq<Member>): (r: seq<Member>)
    ensures DistinctKeys(r)
    ensures forall i :: 0 <= i < |r| ==> r[i] in pairs
  {
    DictFrom([], pairs)
  }

  /** Building a dict from pairs with distinct keys keeps them all, in order. */
  lemma {:induction false} DictFromDistinct(acc: seq<Member>, pairs: seq<Member>)
    requires DistinctKeys(acc + pairs)
    ensures DistinctKeys(acc) && DictFrom(acc, pairs) == acc + pairs
    decreases |pairs|
  {
    assert forall i :: 0 <= i < |acc| ==> acc[i] == (acc + pairs)[i];
    if pairs != [] {
      var p := pairs[0];
      assert forall i :: 0 <= i < |acc| ==> acc[i].key != p.key by {
        forall i | 0 <= i < |acc| ensures acc[i].key != p.key {
          assert (acc + pairs)[|acc|] == p;
        }
      }
      PutShape(acc, p.key, p.value);
      assert Put(acc, p.key, p.value) == acc + [p];
      assert acc + [p] + pairs[1..] == acc + pairs;
      DictFromDistinct(acc + [p], pairs[1..]);
    }
  }

  // ---------------------------------------------------------------------
  // Well-formed values: what `json.loads` can return

  /** `d[k] = v` keeps a well-formed dict well-formed. */
  lemma PutWellFormed(ms: seq<Member>, k: string, v: Json)
    requires WellFormed(JObj(ms)) && WellFormed(v)
    ensures WellFormed(JObj(Put(ms, k, v)))
  {
    PutDistinct(ms, k, v);
    PutFrom(ms, k, v);
    var r := Put(ms, k, v);
    forall i | 0 <= i < |r| ensures WellFormed(r[i].value) {
      if r[i] != Member(k, v) {
        var j :| 0 <= j < |ms| && ms[j] == r[i];
      }
    }
  }

  /** Every object, at any depth, has distinct keys. */
  predicate WellFormed(v: Json) {
    match v
    case JArr(items) => forall i :: 0 <= i < |items| ==> WellFormed(items[i])
    case JObj(ms) => DistinctKeys(ms) && forall i :: 0 <= i < |ms| ==> WellFormed(ms[i].value)
    case _ => true
  }

  // ---------------------------------------------------------------------
  // Encoding (json.dump without indentation)

  function DigitChar(d: nat): char
    requires d < 10
  {
    ('0' as int + d) as char
  }

  /** The decimal digits of `n`, most significant first, without leading zeros. */
  function NatDigits(n: nat): (r: string)
    ensures r != [] && forall i :: 0 <= i < |r| ==> IsDigit(r[i])
    ensures r[0] == '0' ==> n == 0 && r == "0"
  {
    if n < 10 then [DigitChar(n)]
    else
      var r := NatDigits(n / 10) + [DigitChar(n % 10)];
      assert r[0] == NatDigits(n / 10)[0];
      r
  }

  function EncodeInt(n: int): string {
    if n < 0 then "-" + NatDigits(-n) else NatDigits(n)
  }

  function HexDigit(d: nat): char
    requires d < 16
  {
    if d < 10 then DigitChar(d) else ('a' as int + d - 10) as char
  }

  /** How Python's encoder writes one character of a string (ensure_ascii=False). */
  function EscapeChar(c: char): string {
    if c == '"' then "\\\""
    else if c == '\\' then "\\\\"
    else if c == '\n' then "\\n"
    else if c == '\r' then "\\r"
    else if c == '\t' then "\\t"
    else if c == '\U{8}' then "\\b"
    else if c == '\U{c}' then "\\f"
    else if c < ' ' then "\\u00" + [HexDigit(c as int / 16), HexDigit(c as int % 16)]
    else [c]
  }

  function Escape(s: string): string {
    if s == [] then "" else EscapeChar(s[0]) + Escape(s[1..])
  }

  function Quote(s: string): string {
    "\"" + Escape(s) + "\""
  }

  /**
   * `json.dumps` of a value: never empty, and its first character tells the
   * decoder which kind of value follows.
   */
  function Encode(v: Json): (r: string)
    ensures r != [] && IsStartChar(r[0]) && IsEndChar(r[|r| - 1])
    ensures v.JStr? <==> r[0] == '"'
    ensures v.JArr? <==> r[0] == '['
    ensures v.JObj? <==> r[0] == '{'
    ensures v.JNum? <==> r[0] == '-' || IsDigit(r[0])
  {
    match v
    case JNull => "null"
    case JBool(b) => if b then "true" else "false"
    case JNum(n) =>
      assert n < 0 ==> EncodeInt(n) == "-" + NatDigits(-n);
      EncodeInt(n)
    case JStr(s) => Quote(s)
    case JArr(items) => "[" + EncodeItems(items) + "]"
    case JObj(ms) => "{" + EncodeMembers(ms) + "}"
  }

  /** The items of a list, comma-separated: empty exactly for the empty list. */
  function EncodeItems(items: seq<Json>): (r: string)
    ensures r == [] <==> items == []
  {
    if items == [] then ""
    else if |items| == 1 then Encode(items[0])
    else Encode(items[0]) + "," + EncodeItems(items[1..])
  }

  /** The `"key":value` pairs of an object, comma-separated: empty exactly for the empty object. */
  function EncodeMembers(ms: seq<Member>): (r: string)
    ensures r == [] <==> ms == []
  {
    if ms == [] then ""
    else if |ms| == 1 then Quote(ms[0].key) + ":" + Encode(ms[0].value)
    else Quote(ms[0].key) + ":" + Encode(ms[0].value) + "," + EncodeMembers(ms[1..])
  }

  // ---------------------------------------------------------------------
  // Decoding (json.loads)

  /** The whitespace the JSON grammar allows between tokens. */
  predicate IsWs(c: char) {
    c == ' ' || c == '\t' || c == '\n' || c == '\r'
  }

  predicate IsDigit(c: char) {
    '0' <= c <= '9'
  }

  function SkipWs(s: string): (r: string)
    ensures |r| <= |s|
    ensures r == [] || !IsWs(r[0])
  {
    if s != [] && IsWs(s[0]) then SkipWs(s[1..]) else s
  }

  /** Python's `json.loads(s)`: one value, surrounded only by whitespace. */
  function Decode(s: string): (r: Option<Json>)
    ensures r.Some? ==> WellFormed(r.value)
  {
    match ParseValue(s)
    case Some((v, rest)) => if SkipWs(rest) == [] then Some(v) else None
    case None => None
  }

  /** A value after optional whitespace, and the text after it. */
  function ParseValue(s: string): (r: Option<(Json, string)>)
    ensures r.Some? ==> |r.value.1| < |s| && WellFormed(r.value.0)
    decreases |s|, 0
  {
    var t := SkipWs(s);
    if t == [] then None
    else if t[0] == '{' then ParseObject(t[1..])
    else if t[0] == '[' then ParseArray(t[1..])
    else if t[0] == '"' then
      match ParseString(t[1..])
      case Some((str, rest)) => Some((JStr(str), rest))
      case None => None
    else if t[0] == '-' || IsDigit(t[0]) then ParseNumber(t)
    else if |t| >= 4 && t[..4] == "null" then Some((JNull, t[4..]))
    else if |t| >= 4 && t[..4] == "true" then Some((JBool(true), t[4..]))
    else if |t| >= 5 && t[..5] == "false" then Some((JBool(false), t[5..]))
    else None
  }

  /** The rest of an array after its `[`. */
  function ParseArray(s: string): (r: Option<(Json, string)>)
    ensures r.Some? ==> |r.value.1| < |s| && WellFormed(r.value.0) && r.value.0.JArr?
    decreases |s|, 2
  {
    var t := SkipWs(s);
    if t != [] && t[0] == ']' then Some((JArr([]), t[1..]))
    else
      match ParseElements(t)
      case Some((items, rest)) => Some((JArr(items), rest))
      case None => None
  }

  /** One or more comma-separated values and the closing `]`. */
  function ParseElements(s: string): (r: Option<(seq<Json>, string)>)
    ensures r.Some? ==> |r.value.1| < |s|
    ensures r.Some? ==> forall i :: 0 <= i < |r.value.0| ==> WellFormed(r.value.0[i])
    decreases |s|, 1
  {
    match ParseValue(s)
    case None => None
    case Some((v, rest)) => ElementsAfter(v, rest)
  }

  /** What follows the value `v` in a list: more values after a comma, or the closing `]`. */
  function ElementsAfter(v: Json, s: string): (r: Option<(seq<Json>, string)>)
    requires WellFormed(v)
    ensures r.Some? ==> |r.value.1| < |s|
    ensures r.Some? ==> forall i :: 0 <= i < |r.value.0| ==> WellFormed(r.value.0[i])
    decreases |s|, 2
  {
    var u := SkipWs(s);
    if u != [] && u[0] == ',' then
      match ParseElements(u[1..])
      case Some((vs, rest)) => Some(([v] + vs, rest))
      case None => None
    else if u != [] && u[0] == ']' then Some(([v], u[1..]))
    else None
  }

  /** The rest of an object after its `{`. */
  function ParseObject(s: string): (r: Option<(Json, string)>)
    ensures r.Some? ==> |r.value.1| < |s| && WellFormed(r.value.0) && r.value.0.JObj?
    decreases |s|, 2
  {
    var t := SkipWs(s);
    if t != [] && t[0] == '}' then Some((JObj([]), t[1..]))
    else
      match ParseMembers(t)
      case Some((pairs, rest)) => Some((JObj(Dict(pairs)), rest))
      case None => None
  }

  /** One or more `"key": value` pairs separated by commas, and the closing `}`. */
  function ParseMembers(s: string): (r: Option<(seq<Member>, string)>)
    ensures r.Some? ==> |r.value.1| < |s|
    ensures r.Some? ==> forall i :: 0 <= i < |r.value.0| ==> WellFormed(r.value.0[i].value)
    decreases |s|, 1
  {
    var t := SkipWs(s);
    if t == [] || t[0] != '"' then None
    else
      match ParseString(t[1..])
      case None => None
      case Some((k, rest)) =>
        var u := SkipWs(rest);
        if u == [] || u[0] != ':' then None
        else
          match ParseValue(u[1..])
          case None => None
          case Some((v, rest')) => MembersAfter(k, v, rest')
  }

  /** What follows the pair `k: v`: more pairs after a comma, or the closing `}`. */
  function MembersAfter(k: string, v: Json, s: string): (r: Option<(seq<Member>, string)>)
    requires WellFormed(v)
    ensures r.Some? ==> |r.value.1| < |s|
    ensures r.Some? ==> forall i :: 0 <= i < |r.value.0| ==> WellFormed(r.value.0[i].value)
    decreases |s|, 2
  {
    var w := SkipWs(s);
    if w != [] && w[0] == ',' then
      match ParseMembers(w[1..])
      case Some((ms, rest)) => Some(([Member(k, v)] + ms, rest))
      case None => None
    else if w != [] && w[0] == '}' then Some(([Member(k, v)], w[1..]))
    else None
  }

  /** The rest of a string after its opening quote: its characters and the text after the closing quote. */
  function ParseString(s: string): (r: Option<(string, string)>)
    ensures r.Some? ==> |r.value.1| < |s|
    decreases |s|
  {
    if s == [] then None
    else if s[0] == '"' then Some(("", s[1..]))
    else if s[0] == '\\' then
      match ParseEscape(s[1..])
      case None => None
      case Some((c, rest)) =>
        match ParseString(rest)
        case Some((str, rest')) => Some(([c] + str, rest'))
        case None => None
    else if s[0] < ' ' then None
    else
      match ParseString(s[1..])
      case Some((str, rest)) => Some(([s[0]] + str, rest))
      case None => None
  }

  /** The character an escape sequence stands for, given the text after its backslash. */
  function ParseEscape(s: string): (r: Option<(char, string)>)
    ensures r.Some? ==> |r.value.1| < |s|
  {
    if s == [] then None
    else if s[0] == '"' then Some(('"', s[1..]))
    else if s[0] == '\\' then Some(('\\', s[1..]))
    else if s[0] == '/' then Some(('/', s[1..]))
    else if s[0] == 'b' then Some(('\U{8}', s[1..]))
    else if s[0] == 'f' then Some(('\U{c}', s[1..]))
    else if s[0] == 'n' then Some(('\n', s[1..]))
    else if s[0] == 'r' then Some(('\r', s[1..]))
    else if s[0] == 't' then Some(('\t', s[1..]))
    else if s[0] == 'u' then ParseUnicode(s[1..])
    else None
  }

  predicate IsHex(c: char) {
    '0' <= c <= '9' || 'a' <= c <= 'f' || 'A' <= c <= 'F'
  }

  function HexValue(c: char): (d: nat)
    requires IsHex(c)
    ensures d < 16
  {
    if '0' <= c <= '9' then c as int - '0' as int
    else if 'a' <= c <= 'f' then c as int - 'a' as int + 10
    else c as int - 'A' as int + 10
  }

  /** The value of four hex digits at the start of `s`, if they are there. */
  function Hex4(s: string): (r: Option<nat>)
    ensures r.Some? ==> r.value < 0x10000
  {
    if |s| >= 4 && IsHex(s[0]) && IsHex(s[1]) && IsHex(s[2]) && IsHex(s[3]) then
      Some(((HexValue(s[0]) * 16 + HexValue(s[1])) * 16 + HexValue(s[2])) * 16 + HexValue(s[3]))
    else None
  }

  /** A `\uXXXX` escape after its `u`; a high surrogate joins a following `\uXXXX` low surrogate. */
  function ParseUnicode(s: string): (r: Option<(char, string)>)
    ensures r.Some? ==> |r.value.1| < |s|
  {
    match Hex4(s)
    case None => None
    case Some(u) =>
      if 0xD800 <= u <= 0xDBFF && |s| >= 6 && s[4..6] == "\\u" && Hex4(s[6..]).Some? && 0xDC00 <= Hex4(s[6..]).value <= 0xDFFF then
        var c := 0x10000 + (u - 0xD800) * 0x400 + (Hex4(s[6..]).value - 0xDC00);
        Some((c as char, s[10..]))
      else if 0xD800 <= u <= 0xDFFF then None
      else Some((u as char, s[4..]))
  }

  /** The leading decimal digits of `s`. */
  function DigitRun(s: string): (n: nat)
    ensures n <= |s| && forall i :: 0 <= i < n ==> IsDigit(s[i])
    ensures n < |s| ==> !IsDigit(s[n])
  {
    if s != [] && IsDigit(s[0]) then 1 + DigitRun(s[1..]) else 0
  }

  /** The number a string of decimal digits denotes. */
  function DigitsValue(ds: string): nat
    requires forall i :: 0 <= i < |ds| ==> IsDigit(ds[i])
  {
    if ds == [] then 0
    else
      assert IsDigit(ds[|ds| - 1]);
      DigitsValue(ds[..|ds| - 1]) * 10 + (ds[|ds| - 1] as int - '0' as int)
  }

  /**
   * The digits `0|[1-9][0-9]*` of an integer and the text after them. A
   * fraction or exponent after them would make Python return a float, which
   * this model does not represent: the parse fails instead.
   */
  function ParseNat(t: string): (r: Option<(nat, string)>)
    ensures r.Some? ==> |r.value.1| < |t|
  {
    if t == [] || !IsDigit(t[0]) then None
    else
      var len := if t[0] == '0' then 1 else DigitRun(t);
      var rest := t[len..];
      if rest != [] && (rest[0] == '.' || rest[0] == 'e' || rest[0] == 'E') then None
      else Some((DigitsValue(t[..len]), rest))
  }

  /** An integer `-?(0|[1-9][0-9]*)` and the text after it. */
  function ParseNumber(s: string): (r: Option<(Json, string)>)
    requires s != []
    ensures r.Some? ==> |r.value.1| < |s| && r.value.0.JNum?
  {
    if s[0] == '-' then
      match ParseNat(s[1..])
      case Some((m, rest)) => Some((JNum(-(m as int)), rest))
      case None => None
    else
      match ParseNat(s)
      case Some((m, rest)) => Some((JNum(m), rest))
      case None => None
  }

  // ---------------------------------------------------------------------
  // Round trip: decoding what the encoder wrote gives the value back

  /** Text that may follow a number without changing how it reads. */
  predicate Follows(rest: string) {
    rest == [] || !(IsDigit(rest[0]) || rest[0] == '.' || rest[0] == 'e' || rest[0] == 'E')
  }

  /** The characters an encoding can begin with. */
  predicate IsStartChar(c: char) {
    c == 'n' || c == 't' || c == 'f' || c == '-' || IsDigit(c) || c == '"' || c == '[' || c == '{'
  }

  /** The characters an encoding can end with. */
  predicate IsEndChar(c: char) {
    c == 'l' || c == 'e' || IsDigit(c) || c == '"' || c == ']' || c == '}'
  }

  lemma {:induction false} DigitsValueOf(n: nat)
    ensures DigitsValue(NatDigits(n)) == n
  {
    if n >= 10 {
      var ds := NatDigits(n);
      assert ds[..|ds| - 1] == NatDigits(n / 10);
      DigitsValueOf(n / 10);
    }
  }

  lemma {:induction false} DigitRunOf(ds: string, rest: string)
    requires forall i :: 0 <= i < |ds| ==> IsDigit(ds[i])
    requires rest == [] || !IsDigit(rest[0])
    ensures DigitRun(ds + rest) == |ds|
  {
    if ds != [] {
      assert (ds + rest)[1..] == ds[1..] + rest;
      DigitRunOf(ds[1..], rest);
    } else {
      assert ds + rest == rest;
    }
  }

  lemma ParseNatRoundTrip(n: nat, rest: string)
    requires Follows(rest)
    ensures ParseNat(NatDigits(n) + rest) == Some((n, rest))
  {
    var ds := NatDigits(n);
    var t := ds + rest;
    assert t[0] == ds[0];
    DigitsValueOf(n);
    if t[0] == '0' {
      assert t[..1] == "0" && t[1..] == rest;
    } else {
      DigitRunOf(ds, rest);
      assert t[..|ds|] == ds && t[|ds|..] == rest;
    }
  }

  /** A minus sign in front of a natural number negates it. */
  lemma ParseNumberNegative(x: string, m: nat, rest: string)
    requires ParseNat(x) == Some((m, rest))
    ensures ParseNumber("-" + x) == Some((JNum(-(m as int)), rest))
  {
    assert ("-" + x)[1..] == x;
  }

  lemma ParseNumberRoundTrip(n: int, rest: string)
    requires Follows(rest)
    ensures ParseNumber(EncodeInt(n) + rest) == Some((JNum(n), rest))
  {
    if n < 0 {
      ParseNegativeRoundTrip(-n, rest);
    } else {
      ParseNatRoundTrip(n, rest);
      assert (NatDigits(n) + rest)[0] != '-';
    }
  }

  lemma ParseNegativeRoundTrip(m: nat, rest: string)
    requires m > 0 && Follows(rest)
    ensures ParseNumber(EncodeInt(-(m as int)) + rest) == Some((JNum(-(m as int)), rest))
  {
    var x := NatDigits(m) + rest;
    var n: int := -(m as int);
    assert -n == m;
    assert EncodeInt(n) == "-" + NatDigits(m);
    assert EncodeInt(n) + rest == "-" + x;
    ParseNatRoundTrip(m, rest);
    ParseNumberNegative(x, m, rest);
  }

  lemma HexRoundTrip(d: nat)
    requires d < 16
    ensures IsHex(HexDigit(d)) && HexValue(HexDigit(d)) == d
  {
  }

  /** What decoding the text after one escaped character gives once that character is put in front. */
  function Prepend(c: char, r: Option<(string, string)>): Option<(string, string)> {
    match r
    case Some((str, rest)) => Some(([c] + str, rest))
    case None => None
  }

  /** Decoding one escaped character consumes exactly its escape. */
  lemma ParseStringStep(c: char, x: string)
    ensures ParseString(EscapeChar(c) + x) == Prepend(c, ParseString(x))
  {
    if c == '"' || c == '\\' || c == '\n' || c == '\r' || c == '\t' || c == '\U{8}' || c == '\U{c}' {
      ParseStringShort(c, x);
    } else if c < ' ' {
      ParseStringHex(c, x);
    } else {
      assert EscapeChar(c) == [c];
      assert ([c] + x)[1..] == x;
    }
  }

  lemma ParseStringShort(c: char, x: string)
    requires c == '"' || c == '\\' || c == '\n' || c == '\r' || c == '\t' || c == '\U{8}' || c == '\U{c}'
    ensures ParseString(EscapeChar(c) + x) == Prepend(c, ParseString(x))
  {
    var e := EscapeChar(c);
    assert |e| == 2 && e[0] == '\\';
    var s := e + x;
    assert s[0] == '\\' && s[2..] == x;
    assert s[1..] == [e[1]] + x;
    assert ParseEscape(s[1..]) == Some((c, x));
  }

  lemma ParseStringHex(c: char, x: string)
    requires c < ' ' && c != '\n' && c != '\r' && c != '\t' && c != '\U{8}' && c != '\U{c}'
    ensures ParseString(EscapeChar(c) + x) == Prepend(c, ParseString(x))
  {
    var h1, h2 := HexDigit(c as int / 16), HexDigit(c as int % 16);
    HexRoundTrip(c as int / 16);
    HexRoundTrip(c as int % 16);
    var s := EscapeChar(c) + x;
    assert s == "\\u00" + [h1, h2] + x;
    assert s[1..] == "u00" + [h1, h2] + x;
    var u := s[2..];
    assert u == "00" + [h1, h2] + x;
    assert Hex4(u) == Some(c as int);
    assert u[4..] == x;
  }

  lemma {:induction false} ParseStringRoundTrip(str: string, rest: string)
    ensures ParseString(Escape(str) + "\"" + rest) == Some((str, rest))
  {
    if str == [] {
      assert Escape(str) + "\"" + rest == "\"" + rest;
    } else {
      var x := Escape(str[1..]) + "\"" + rest;
      assert Escape(str) + "\"" + rest == EscapeChar(str[0]) + x;
      ParseStringStep(str[0], x);
      ParseStringRoundTrip(str[1..], rest);
      assert [str[0]] + str[1..] == str;
    }
  }

  lemma SkipWsStart(s: string)
    requires s != [] && !IsWs(s[0])
    ensures SkipWs(s) == s
  {
  }

  lemma ParseValueNumber(s: string)
    requires s != [] && (s[0] == '-' || IsDigit(s[0]))
    ensures ParseValue(s) == ParseNumber(s)
  {
    SkipWsStart(s);
  }

  lemma ParseValueString(s: string)
    requires s != [] && s[0] == '"'
    ensures ParseValue(s) == match ParseString(s[1..]) case Some((str, rest)) => Some((JStr(str), rest)) case None => None
  {
    SkipWsStart(s);
  }

  lemma ParseValueArray(s: string)
    requires s != [] && s[0] == '['
    ensures ParseValue(s) == ParseArray(s[1..])
  {
    SkipWsStart(s);
  }

  lemma ParseValueObject(s: string)
    requires s != [] && s[0] == '{'
    ensures ParseValue(s) == ParseObject(s[1..])
  {
    SkipWsStart(s);
  }

  lemma ParseValueLiteral(lit: string, v: Json, rest: string)
    requires (lit, v) in {("null", JNull), ("true", JBool(true)), ("false", JBool(false))}
    ensures ParseValue(lit + rest) == Some((v, rest))
  {
    var s := lit + rest;
    SkipWsStart(s);
    assert s[..|lit|] == lit && s[|lit|..] == rest;
  }

  lemma {:induction false} ParseValueRoundTrip(v: Json, rest: string)
    requires WellFormed(v) && Follows(rest)
    ensures ParseValue(Encode(v) + rest) == Some((v, rest))
    decreases v, 2
  {
    match v
    case JNull => ParseValueLiteral("null", v, rest);
    case JBool(b) => if b { ParseValueLiteral("true", v, rest); } else { ParseValueLiteral("false", v, rest); }
    case JNum(n) =>
      ParseValueNumber(Encode(v) + rest);
      ParseNumberRoundTrip(n, rest);
    case JStr(str) =>
      var s := Encode(v) + rest;
      assert s == "\"" + (Escape(str) + "\"" + rest);
      ParseValueString(s);
      ParseStringRoundTrip(str, rest);
    case JArr(items) => ArrayRoundTrip(items, rest);
    case JObj(ms) => ObjectRoundTrip(ms, rest);
  }

  lemma {:induction false} ArrayRoundTrip(items: seq<Json>, rest: string)
    requires WellFormed(JArr(items))
    ensures ParseValue(Encode(JArr(items)) + rest) == Some((JArr(items), rest))
    decreases JArr(items), 1
  {
    var e := EncodeItems(items);
    var t := e + ("]" + rest);
    assert Encode(JArr(items)) == "[" + e + "]";
    Enclosed("[", e, "]", rest);
    ParseValueArray(Encode(JArr(items)) + rest);
    if items == [] {
      assert t == "]" + rest;
      EmptyArrayRoundTrip(rest);
    } else {
      EncodeItemsFirst(items, "]" + rest);
      SkipWsStart(t);
      ParseElementsRoundTrip(items, rest);
    }
  }

  /** The encoding of a non-empty list body, split at its first item. */
  lemma EncodeItemsFirst(items: seq<Json>, x: string)
    requires items != []
    ensures |items| == 1 ==> EncodeItems(items) + x == Encode(items[0]) + x
    ensures |items| > 1 ==> EncodeItems(items) + x == Encode(items[0]) + ("," + (EncodeItems(items[1..]) + x))
    ensures Encode(items[0]) != [] ==> (EncodeItems(items) + x)[0] == Encode(items[0])[0]
  {
    var b := Encode(items[0]);
    if |items| > 1 {
      var c := EncodeItems(items[1..]);
      assert EncodeItems(items) == b + "," + c;
      ItemText(b, c, x);
    }
  }

  lemma ItemText(b: string, c: string, x: string)
    ensures b + "," + c + x == b + ("," + (c + x))
    ensures b != [] ==> (b + "," + c + x)[0] == b[0]
  {
  }

  lemma ParseObjectOf(t: string, ms: seq<Member>, rest: string)
    requires t != [] && t[0] == '"' && ParseMembers(t) == Some((ms, rest))
    ensures ParseObject(t) == Some((JObj(Dict(ms)), rest))
  {
    SkipWsStart(t);
  }

  lemma {:induction false} ObjectRoundTrip(ms: seq<Member>, rest: string)
    requires WellFormed(JObj(ms))
    ensures ParseValue(Encode(JObj(ms)) + rest) == Some((JObj(ms), rest))
    decreases JObj(ms), 1
  {
    var e := EncodeMembers(ms);
    var t := e + ("}" + rest);
    assert Encode(JObj(ms)) == "{" + e + "}";
    Enclosed("{", e, "}", rest);
    ParseValueObject(Encode(JObj(ms)) + rest);
    if ms == [] {
      assert t == "}" + rest;
      EmptyObjectRoundTrip(rest);
    } else {
      EncodeMembersFirst(ms, "}" + rest);
      ParseMembersRoundTrip(ms, rest);
      ParseObjectOf(t, ms, rest);
      DictOfDistinct(ms);
    }
  }

  lemma EmptyObjectRoundTrip(rest: string)
    ensures ParseObject("}" + rest) == Some((JObj([]), rest))
  {
    assert ("}" + rest)[1..] == rest;
  }

  lemma EmptyArrayRoundTrip(rest: string)
    ensures ParseArray("]" + rest) == Some((JArr([]), rest))
  {
    assert ("]" + rest)[1..] == rest;
  }

  /** Concatenation facts about a bracketed encoding, kept apart from the encoder's definitions. */
  lemma Enclosed(o: string, e: string, c: string, rest: string)
    requires |o| == 1
    ensures (o + e + c + rest) != [] && (o + e + c + rest)[0] == o[0] && (o + e + c + rest)[1..] == e + (c + rest)
  {
  }

  lemma DictOfDistinct(ms: seq<Member>)
    requires DistinctKeys(ms)
    ensures Dict(ms) == ms
  {
    assert [] + ms == ms;
    DictFromDistinct([], ms);
  }

  /** The encoding of a non-empty object body, split at its first member. */
  lemma EncodeMembersFirst(ms: seq<Member>, x: string)
    requires ms != []
    ensures |ms| == 1 ==> EncodeMembers(ms) + x == "\"" + (Escape(ms[0].key) + "\"" + (":" + (Encode(ms[0].value) + x)))
    ensures |ms| > 1 ==> EncodeMembers(ms) + x == "\"" + (Escape(ms[0].key) + "\"" + (":" + (Encode(ms[0].value) + ("," + (EncodeMembers(ms[1..]) + x)))))
    ensures (EncodeMembers(ms) + x)[0] == '"'
  {
    var a, b := Escape(ms[0].key), Encode(ms[0].value);
    if |ms| == 1 {
      assert EncodeMembers(ms) == "\"" + a + "\"" + ":" + b;
      MemberText(a, b, "", x);
    } else {
      var c := EncodeMembers(ms[1..]);
      assert EncodeMembers(ms) == "\"" + a + "\"" + ":" + b + "," + c;
      MemberText(a, b, c, x);
    }
  }

  lemma MemberText(a: string, b: string, c: string, x: string)
    ensures "\"" + a + "\"" + ":" + b + x == "\"" + (a + "\"" + (":" + (b + x)))
    ensures "\"" + a + "\"" + ":" + b + "," + c + x == "\"" + (a + "\"" + (":" + (b + ("," + (c + x)))))
  {
  }

  lemma ElementsAfterLast(v: Json, rest: string)
    requires WellFormed(v)
    ensures ElementsAfter(v, "]" + rest) == Some(([v], rest))
  {
    assert ("]" + rest)[1..] == rest;
  }

  lemma ElementsAfterMore(v: Json, tail: string, vs: seq<Json>, rest: string)
    requires WellFormed(v) && ParseElements(tail) == Some((vs, rest))
    ensures ElementsAfter(v, "," + tail) == Some(([v] + vs, rest))
  {
    assert ("," + tail)[1..] == tail;
  }

  lemma {:induction false} ParseElementsRoundTrip(items: seq<Json>, rest: string)
    requires items != [] && forall i :: 0 <= i < |items| ==> WellFormed(items[i])
    ensures ParseElements(EncodeItems(items) + ("]" + rest)) == Some((items, rest))
    decreases items, 1
  {
    var v := items[0];
    assert WellFormed(v);
    FirstItemRoundTrip(items, "]" + rest);
    if |items| == 1 {
      ElementsAfterLast(v, rest);
      assert [v] == items;
    } else {
      assert forall i :: 0 <= i < |items[1..]| ==> items[1..][i] == items[i + 1];
      ParseElementsRoundTrip(items[1..], rest);
      ElementsAfterMore(v, EncodeItems(items[1..]) + ("]" + rest), items[1..], rest);
      assert [v] + items[1..] == items;
    }
  }

  /** The first item of an encoded list body decodes, leaving the rest of the body. */
  lemma FirstItemRoundTrip(items: seq<Json>, x: string)
    requires items != [] && WellFormed(items[0]) && Follows(x)
    ensures |items| == 1 ==> ParseElements(EncodeItems(items) + x) == ElementsAfter(items[0], x)
    ensures |items| > 1 ==> ParseElements(EncodeItems(items) + x) == ElementsAfter(items[0], "," + (EncodeItems(items[1..]) + x))
    decreases items, 0
  {
    EncodeItemsFirst(items, x);
    if |items| == 1 {
      ParseValueRoundTrip(items[0], x);
    } else {
      ParseValueRoundTrip(items[0], "," + (EncodeItems(items[1..]) + x));
    }
  }

  /** One encoded `"key":value` pair decodes to its key and value, leaving what follows. */
  lemma MemberRoundTrip(m: Member, after: string)
    requires WellFormed(m.value) && Follows(after)
    ensures ParseMembers("\"" + (Escape(m.key) + "\"" + (":" + (Encode(m.value) + after)))) == MembersAfter(m.key, m.value, after)
    decreases m, 0
  {
    var valueText := Encode(m.value) + after;
    var s := "\"" + (Escape(m.key) + "\"" + (":" + valueText));
    SkipWsStart(s);
    assert s[1..] == Escape(m.key) + "\"" + (":" + valueText);
    ParseStringRoundTrip(m.key, ":" + valueText);
    assert (":" + valueText)[1..] == valueText;
    ParseValueRoundTrip(m.value, after);
  }

  lemma {:induction false} ParseMembersRoundTrip(ms: seq<Member>, rest: string)
    requires ms != [] && forall i :: 0 <= i < |ms| ==> WellFormed(ms[i].value)
    ensures ParseMembers(EncodeMembers(ms) + ("}" + rest)) == Some((ms, rest))
    decreases ms, 1
  {
    var m := ms[0];
    assert WellFormed(m.value);
    FirstMemberRoundTrip(ms, "}" + rest);
    if |ms| == 1 {
      MembersAfterLast(m.key, m.value, rest);
      assert [m] == ms;
    } else {
      assert forall i :: 0 <= i < |ms[1..]| ==> ms[1..][i] == ms[i + 1];
      ParseMembersRoundTrip(ms[1..], rest);
      MembersAfterMore(m.key, m.value, EncodeMembers(ms[1..]) + ("}" + rest), ms[1..], rest);
      assert [m] + ms[1..] == ms;
    }
  }

  /** The first pair of an encoded object body decodes, leaving the rest of the body. */
  lemma FirstMemberRoundTrip(ms: seq<Member>, x: string)
    requires ms != [] && WellFormed(ms[0].value) && Follows(x)
    ensures |ms| == 1 ==> ParseMembers(EncodeMembers(ms) + x) == MembersAfter(ms[0].key, ms[0].value, x)
    ensures |ms| > 1 ==> ParseMembers(EncodeMembers(ms) + x) == MembersAfter(ms[0].key, ms[0].value, "," + (EncodeMembers(ms[1..]) + x))
    decreases ms, 0
  {
    EncodeMembersFirst(ms, x);
    if |ms| == 1 {
      MemberRoundTrip(ms[0], x);
    } else {
      MemberRoundTrip(ms[0], "," + (EncodeMembers(ms[1..]) + x));
    }
  }

  lemma MembersAfterLast(k: string, v: Json, rest: string)
    requires WellFormed(v)
    ensures MembersAfter(k, v, "}" + rest) == Some(([Member(k, v)], rest))
  {
    assert ("}" + rest)[1..] == rest;
  }

  lemma MembersAfterMore(k: string, v: Json, tail: string, ms: seq<Member>, rest: string)
    requires WellFormed(v) && ParseMembers(tail) == Some((ms, rest))
    ensures MembersAfter(k, v, "," + tail) == Some(([Member(k, v)] + ms, rest))
  {
    assert ("," + tail)[1..] == tail;
  }

  /** `json.loads(json.dumps(v)) == v` for every value `json.loads` can produce. */
  lemma DecodeEncode(v: Json)
    requires WellFormed(v)
    ensures Decode(Encode(v)) == Some(v)
  {
    ParseValueRoundTrip(v, "");
    assert Encode(v) + "" == Encode(v);
  }

  /** A text that starts with `[` decodes, if at all, to a list. */
  lemma DecodeBracket(s: string)
    requires s != [] && s[0] == '['
    ensures Decode(s).Some? ==> Decode(s).value.JArr?
  {
    SkipWsStart(s);
  }

  /** A text that starts with `{` decodes, if at all, to an object. */
  lemma DecodeBrace(s: string)
    requires s != [] && s[0] == '{'
    ensures Decode(s).Some? ==> Decode(s).value.JObj?
  {
    SkipWsStart(s);
  }
}
