/**
 * The two parsers that turn a language model's free-text reply into data
 * (services/utils.py): `parse_json_output`, which digs a JSON value out of
 * a reply that may wrap it in a Markdown code fence or in prose, and
 * `parse_list_output`, which reads a list of tags written either as a JSON
 * list or as comma-separated words.
 */
module Utils {
  import opened Wrappers
  import opened Text
  import opened Json

  // ---------------------------------------------------------------------
  // Code fences

  const Fence: string := "```"
  const JsonFence: string := "```json"

  /**
   * A match of the pattern `open(.*?)```` (with DOTALL) that starts at `i`
   * and whose closing fence starts at `k`.
   */
  predicate MatchAt(s: string, open: string, i: nat, k: nat) {
    OccursAt(s, open, i) && i + |open| <= k && OccursAt(s, Fence, k)
  }

  /** The start of the first closing fence at or after `from`. */
  function CloseFrom(s: string, from: nat): (r: Option<nat>)
    requires from <= |s|
    ensures r.Some? ==> from <= r.value && OccursAt(s, Fence, r.value)
    ensures r.Some? ==> forall k: nat :: from <= k < r.value ==> !OccursAt(s, Fence, k)
    ensures r.None? ==> forall k: nat :: from <= k ==> !OccursAt(s, Fence, k)
  {
    var after := s[from..];
    assert forall k: nat :: from <= k ==> (OccursAt(s, Fence, k) <==> OccursAt(after, Fence, k - from)) by {
      forall k: nat | from <= k ensures OccursAt(s, Fence, k) <==> OccursAt(after, Fence, k - from) {
        if k + |Fence| <= |s| {
          assert after[k - from..k - from + |Fence|] == s[k..k + |Fence|];
        }
      }
    }
    match Find(after, Fence)
    case None => None
    case Some(j) => Some(from + j)
  }

  /** The outcome of a regular-expression search: where the match starts and where its closing fence starts. */
  datatype Search = NotFound | Found(start: nat, close: nat)

  /**
   * `re.search(open + "(.*?)```", s, re.DOTALL)`: the first occurrence of
   * `open` and the first closing fence after it, as (start, closing start).
   */
  function FenceMatch(s: string, open: string): (r: Search)
    ensures r.Found? ==> MatchAt(s, open, r.start, r.close)
  {
    match Find(s, open)
    case None => NotFound
    case Some(i) =>
      match CloseFrom(s, i + |open|)
      case None => NotFound
      case Some(k) => Found(i, k)
  }

  /**
   * The match `FenceMatch` finds is the one a regular-expression search
   * reports: no match starts earlier, and of those that start where it does
   * none closes earlier (the lazy `.*?`). When it finds none, there is none.
   */
  lemma FenceMatchLeftmostShortest(s: string, open: string, i: nat, k: nat)
    requires MatchAt(s, open, i, k)
    ensures FenceMatch(s, open).Found?
    ensures FenceMatch(s, open).start <= i
    ensures FenceMatch(s, open).start == i ==> FenceMatch(s, open).close <= k
  {
    var i0 := Find(s, open).value;
    assert i0 <= i;
    assert CloseFrom(s, i0 + |open|).Some?;
  }

  /** What the fenced block holds: `match.group(1)` when there is a match, the whole text otherwise. */
  function FenceBody(s: string, open: string): (r: string)
    ensures FenceMatch(s, open).NotFound? ==> r == s
  {
    match FenceMatch(s, open)
    case Found(i, k) => s[i + |open|..k]
    case NotFound => s
  }

  /**
   * Step 1 of `parse_json_output`: prefer a "```json" block, else any "```"
   * block; a text with neither, or whose fence is never closed, is kept.
   */
  function ExtractFenced(s: string): (r: string)
    ensures !Contains(s, Fence) ==> r == s
  {
    if Contains(s, JsonFence) then
      assert OccursAt(s, Fence, Find(s, JsonFence).value) by {
        var i := Find(s, JsonFence).value;
        assert s[i..i + 3] == s[i..i + 7][..3];
      }
      FenceBody(s, JsonFence)
    else if Contains(s, Fence) then FenceBody(s, Fence)
    else s
  }

  // ---------------------------------------------------------------------
  // First-to-last spans

  /**
   * `s[s.find(open):s.rfind(close) + 1]` when both characters occur, which is
   * empty when the last `close` comes before the first `open`; `None` when
   * either is missing.
   */
  function Span(s: string, open: char, close: char): (r: Option<string>)
    ensures r.None? <==> open !in s || close !in s
    ensures r.Some? && r.value != [] ==> r.value[0] == open && r.value[|r.value| - 1] == close
    ensures r.Some? ==> exists i, j :: 0 <= i <= j <= |s| && r.value == s[i..j]
  {
    match (FindChar(s, open), RFindChar(s, close))
    case (Some(a), Some(b)) => if a <= b then Some(s[a..b + 1]) else assert s[a..a] == []; Some([])
    case _ => None
  }

  /** The span runs from the first `open` to the last `close`. */
  lemma SpanAt(s: string, open: char, close: char, a: nat, b: nat)
    requires a <= b < |s| && s[a] == open && s[b] == close
    requires forall j :: 0 <= j < a ==> s[j] != open
    requires forall j :: b < j < |s| ==> s[j] != close
    ensures Span(s, open, close) == Some(s[a..b + 1])
  {
    FindCharAt(s, open, a);
    RFindCharAt(s, close, b);
  }

  /** When the last `close` comes before the first `open`, the span is empty rather than missing. */
  lemma SpanCrossed(s: string, open: char, close: char, a: nat, b: nat)
    requires b < a < |s| && s[a] == open && s[b] == close
    requires forall j :: 0 <= j < a ==> s[j] != open
    requires forall j :: b < j < |s| ==> s[j] != close
    ensures Span(s, open, close) == Some([])
  {
    FindCharAt(s, open, a);
    RFindCharAt(s, close, b);
  }

  // ---------------------------------------------------------------------
  // parse_json_output

  /** `{"error": message}`. */
  function ErrorObject(message: string): (r: Json)
    ensures WellFormed(r) && r.JObj? && Get(r.members, "error") == Some(JStr(message))
  {
    JObj([Member("error", JStr(message))])
  }

  /** `{"error": "Failed to parse JSON", "raw": raw}`. */
  function FailedObject(raw: string): (r: Json)
    ensures WellFormed(r)
    ensures r.JObj? && Get(r.members, "error") == Some(JStr("Failed to parse JSON")) && Get(r.members, "raw") == Some(JStr(raw))
  {
    var ms := [Member("error", JStr("Failed to parse JSON")), Member("raw", JStr(raw))];
    assert ms[0].key != ms[1].key;
    JObj(ms)
  }

  /**
   * The text `parse_json_output` hands to `json.loads`: a stretch of the
   * stripped, unfenced reply, running from its first `{` to its last `}`
   * when it has both, and the whole stripped reply otherwise.
   */
  function JsonCandidate(response: string): (r: string)
    ensures var t := Strip(ExtractFenced(response));
      exists i, j :: 0 <= i <= j <= |t| && r == t[i..j]
    ensures var t := Strip(ExtractFenced(response));
      '{' !in t || '}' !in t ==> r == t
    ensures var t := Strip(ExtractFenced(response));
      '{' in t && '}' in t && r != [] ==> r[0] == '{' && r[|r| - 1] == '}'
  {
    var stripped := Strip(ExtractFenced(response));
    assert stripped == stripped[0..|stripped|];
    Span(stripped, '{', '}').GetOr(stripped)
  }

  /**
   * `parse_json_output`: the decoded candidate text, or an error object —
   * `{"error": "Empty response"}` for an empty reply, and
   * `{"error": "Failed to parse JSON", "raw": candidate}` when the candidate
   * does not decode.
   */
  function ParseJsonOutput(response: string): (r: Json)
    ensures WellFormed(r)
    ensures response == [] ==> r == ErrorObject("Empty response")
    ensures response != [] && Decode(JsonCandidate(response)).Some? ==> r == Decode(JsonCandidate(response)).value
    ensures response != [] && Decode(JsonCandidate(response)).None? ==>
      r == FailedObject(JsonCandidate(response))
  {
    if response == [] then ErrorObject("Empty response")
    else
      var candidate := JsonCandidate(response);
      match Decode(candidate)
      case Some(v) => v
      case None => FailedObject(candidate)
  }

  /** A braced text is its own brace span. */
  lemma BracedSpan(m: string)
    ensures Span("{" + m + "}", '{', '}') == Some("{" + m + "}")
  {
    var e := "{" + m + "}";
    SpanAt(e, '{', '}', 0, |e| - 1);
    assert e[0..|e|] == e;
  }

  /** The body of the first "```json" … "```" block, when nothing before it has a backtick. */
  lemma FencedBody(pre: string, body: string, post: string)
    requires '`' !in pre && '`' !in body
    ensures ExtractFenced(pre + JsonFence + body + Fence + post) == body
  {
    var s := pre + JsonFence + body + Fence + post;
    FencedMatch(pre, body, post);
    assert Contains(s, JsonFence);
    assert s[|pre| + |JsonFence|..|pre| + |JsonFence| + |body|] == body;
  }

  lemma FencedMatch(pre: string, body: string, post: string)
    requires '`' !in pre && '`' !in body
    ensures FenceMatch(pre + JsonFence + body + Fence + post, JsonFence) == Found(|pre|, |pre| + |JsonFence| + |body|)
  {
    var after := body + Fence + post;
    var s := pre + JsonFence + after;
    assert s == pre + JsonFence + body + Fence + post;
    FirstAfter(pre, JsonFence, after);
    CloseFromSuffix(s, |pre| + |JsonFence|, body, post);
  }

  /** When the text from `from` on is `body + Fence + post`, with no backtick in `body`, the closing fence follows `body`. */
  lemma CloseFromSuffix(s: string, from: nat, body: string, post: string)
    requires from <= |s| && s[from..] == body + Fence + post && '`' !in body
    ensures CloseFrom(s, from) == Some(from + |body|)
  {
    var after := s[from..];
    assert after[|body|..|body| + |Fence|] == Fence;
    assert after[..|body|] == body;
    FindAt(after, Fence, |body|);
  }

  /** In `pre + pat + rest`, where `pre` has no backtick, the first `pat` (which starts with one) follows `pre`. */
  lemma FirstAfter(pre: string, pat: string, rest: string)
    requires '`' !in pre && pat != [] && pat[0] == '`'
    ensures Find(pre + pat + rest, pat) == Some(|pre|)
    ensures (pre + pat + rest)[|pre| + |pat|..] == rest
  {
    var s := pre + pat + rest;
    assert s[|pre|..|pre| + |pat|] == pat;
    assert s[..|pre|] == pre;
    FindAt(s, pat, |pre|);
  }

  /**
   * A reply that fences an encoded object in "```json" … "```", with any
   * whitespace inside the fence and any text before (without backticks) or
   * after it, parses to that object.
   */
  lemma ParseJsonOutputFenced(pre: string, body: string, post: string, v: Json)
    requires v.JObj? && WellFormed(v)
    requires '`' !in pre && '`' !in body && Strip(body) == Encode(v)
    ensures ParseJsonOutput(pre + JsonFence + body + Fence + post) == v
  {
    var s := pre + JsonFence + body + Fence + post;
    FencedBody(pre, body, post);
    var m := EncodeMembers(v.members);
    assert Encode(v) == "{" + m + "}";
    BracedSpan(m);
    assert JsonCandidate(s) == Encode(v);
    DecodeEncode(v);
  }

  /** In a text whose braced part has no `{` before it and no `}` after it, the brace span is that part. */
  lemma SpanInProse(pre: string, m: string, post: string)
    requires '{' !in pre && '}' !in post
    ensures Span(Strip(pre + ("{" + m + "}") + post), '{', '}') == Some("{" + m + "}")
  {
    var e := "{" + m + "}";
    var s := pre + e + post;
    var a, b := |pre|, |pre| + |e| - 1;
    assert s[a] == '{' && s[b] == '}';
    assert forall j :: 0 <= j < a ==> s[j] == pre[j];
    assert forall j :: b < j < |s| ==> s[j] == post[j - b - 1];
    BraceSpanStrip(s, a, b);
    assert s[a..b + 1] == e;
  }

  /** `strip()` keeps the first `{` and the last `}` and all between them. */
  lemma BraceSpanStrip(s: string, a: nat, b: nat)
    requires a <= b < |s| && s[a] == '{' && s[b] == '}'
    requires forall j :: 0 <= j < a ==> s[j] != '{'
    requires forall j :: b < j < |s| ==> s[j] != '}'
    ensures Span(Strip(s), '{', '}') == Some(s[a..b + 1])
  {
    StripWindow(s, a, b);
    var r, n := Strip(s), Lead(s);
    assert forall j :: 0 <= j < |r| ==> r[j] == s[n + j] by {
      forall j | 0 <= j < |r| ensures r[j] == s[n + j] {
        assert r[j] == s[n..n + |r|][j];
      }
    }
    SpanShifted(s, '{', '}', a, b, Strip(s), Lead(s));
  }

  /** A span that lies inside a window `r` of `s` is also the span of `r`. */
  lemma SpanShifted(s: string, open: char, close: char, a: nat, b: nat, r: string, n: nat)
    requires a <= b < |s| && s[a] == open && s[b] == close
    requires forall j :: 0 <= j < a ==> s[j] != open
    requires forall j :: b < j < |s| ==> s[j] != close
    requires n <= a && b < n + |r| && n + |r| <= |s|
    requires forall j :: 0 <= j < |r| ==> r[j] == s[n + j]
    ensures Span(r, open, close) == Some(s[a..b + 1])
  {
    SpanAt(r, open, close, a - n, b - n);
    assert r[a - n..b - n + 1] == s[a..b + 1];
  }

  /**
   * A reply without backticks that holds an encoded object between text
   * with no `{` before it and no `}` after it parses to that object: the
   * surrounding prose and whitespace are cut away.
   */
  lemma ParseJsonOutputInProse(pre: string, post: string, v: Json)
    requires v.JObj? && WellFormed(v)
    requires '`' !in pre + Encode(v) + post
    requires '{' !in pre && '}' !in post
    ensures ParseJsonOutput(pre + Encode(v) + post) == v
  {
    var s := pre + Encode(v) + post;
    ContainsNot(s, Fence);
    var m := EncodeMembers(v.members);
    assert Encode(v) == "{" + m + "}";
    SpanInProse(pre, m, post);
    assert JsonCandidate(s) == Encode(v);
    DecodeEncode(v);
  }

  // ---------------------------------------------------------------------
  // parse_list_output

  /** The characters the fallback deletes before splitting. */
  predicate IsQuoteOrBracket(c: char) {
    c == '[' || c == ']' || c == '"' || c == '\''
  }

  /** No brackets or quotes. */
  predicate Unquoted(t: string) {
    '[' !in t && ']' !in t && '"' !in t && '\'' !in t
  }

  /** A bracket or quote is dropped and any other character kept, one at a time and in order. */
  function Unquote(s: string): (r: string)
    ensures Unquoted(r) && |r| <= |s|
  {
    if s == [] then [] else (if IsQuoteOrBracket(s[0]) then [] else [s[0]]) + Unquote(s[1..])
  }

  /**
   * `.replace("[", "").replace("]", "").replace('"', '').replace("'", "")`:
   * exactly the brackets and quotes are deleted, and every other character
   * is kept, in its order.
   */
  function CleanText(s: string): (r: string)
    ensures r == Unquote(s)
  {
    ReplacesUnquote(s);
    RemoveChar(RemoveChar(RemoveChar(RemoveChar(s, '['), ']'), '"'), '\'')
  }

  /** The four `replace` calls, one after the other, delete the brackets and quotes. */
  lemma {:induction false} ReplacesUnquote(s: string)
    ensures RemoveChar(RemoveChar(RemoveChar(RemoveChar(s, '['), ']'), '"'), '\'') == Unquote(s)
  {
    if s != [] {
      var x, rest := s[0], s[1..];
      assert s == [x] + rest;
      RemoveCharAppend([x], rest, '[');
      var a1, b1 := RemoveChar([x], '['), RemoveChar(rest, '[');
      RemoveCharAppend(a1, b1, ']');
      var a2, b2 := RemoveChar(a1, ']'), RemoveChar(b1, ']');
      RemoveCharAppend(a2, b2, '"');
      var a3, b3 := RemoveChar(a2, '"'), RemoveChar(b2, '"');
      RemoveCharAppend(a3, b3, '\'');
      RemoveCharOne(x, '[');
      RemoveCharOne(x, ']');
      RemoveCharOne(x, '"');
      RemoveCharOne(x, '\'');
      assert RemoveChar([], ']') == [] && RemoveChar([], '"') == [] && RemoveChar([], '\'') == [];
      ReplacesUnquote(rest);
    }
  }

  /** Cleaning a concatenation cleans each part in turn. */
  lemma {:induction false} UnquoteAppend(a: string, b: string)
    ensures Unquote(a + b) == Unquote(a) + Unquote(b)
  {
    if a == [] {
      assert a + b == b;
    } else {
      var head := if IsQuoteOrBracket(a[0]) then [] else [a[0]];
      calc {
        Unquote(a + b);
        { assert a + b != [] && (a + b)[0] == a[0] && (a + b)[1..] == a[1..] + b; }
        head + Unquote(a[1..] + b);
        { UnquoteAppend(a[1..], b); }
        head + (Unquote(a[1..]) + Unquote(b));
        (head + Unquote(a[1..])) + Unquote(b);
        Unquote(a) + Unquote(b);
      }
    }
  }

  /** One character: a bracket or quote is deleted, anything else kept. */
  lemma UnquoteOne(x: char)
    ensures Unquote([x]) == if IsQuoteOrBracket(x) then [] else [x]
  {
    assert [x][1..] == [];
  }

  /** A character that is not a bracket or a quote survives cleaning exactly when it was there. */
  lemma {:induction false} UnquoteKeeps(s: string, c: char)
    requires !IsQuoteOrBracket(c)
    ensures c in Unquote(s) <==> c in s
  {
    if s != [] {
      UnquoteKeeps(s[1..], c);
      assert c in s <==> s[0] == c || c in s[1..];
    }
  }

  /** Cleaning keeps the number of each character that is not a bracket or a quote. */
  lemma {:induction false} UnquoteCount(s: string, c: char)
    requires !IsQuoteOrBracket(c)
    ensures Count(Unquote(s), c) == Count(s, c)
  {
    if s != [] {
      var head := if IsQuoteOrBracket(s[0]) then [] else [s[0]];
      CountAppend(head, Unquote(s[1..]), c);
      UnquoteCount(s[1..], c);
    }
  }

  /** Text without brackets or quotes is left as it is. */
  lemma {:induction false} UnquoteSelf(s: string)
    requires Unquoted(s)
    ensures Unquote(s) == s
  {
    if s != [] {
      assert s[0] in s;
      assert forall c :: c in s[1..] ==> c in s;
      UnquoteSelf(s[1..]);
    }
  }

  /** Each piece cleaned on its own. */
  function CleanPieces(parts: seq<string>): (r: seq<string>)
    ensures |r| == |parts| && forall i :: 0 <= i < |r| ==> r[i] == CleanText(parts[i])
  {
    seq(|parts|, i requires 0 <= i < |parts| => CleanText(parts[i]))
  }

  /** Cleaning a comma-joined text cleans every piece and keeps the commas where they were. */
  lemma {:induction false} CleanJoin(parts: seq<string>)
    ensures CleanText(Join(parts, ',')) == Join(CleanPieces(parts), ',')
  {
    if parts == [] {
      assert CleanText([]) == [];
    } else if |parts| > 1 {
      var p, rest := parts[0], parts[1..];
      var cs := CleanPieces(parts);
      assert cs[1..] == CleanPieces(rest);
      calc {
        CleanText(Join(parts, ','));
        CleanText(p + [','] + Join(rest, ','));
        { UnquoteAppend(p + [','], Join(rest, ',')); }
        CleanText(p + [',']) + CleanText(Join(rest, ','));
        { UnquoteAppend(p, [',']); UnquoteOne(','); }
        CleanText(p) + [','] + CleanText(Join(rest, ','));
        { CleanJoin(rest); }
        cs[0] + [','] + Join(cs[1..], ',');
        Join(cs, ',');
      }
    }
  }

  /** A tag the fallback can return: non-empty, stripped, and free of commas, brackets and quotes. */
  predicate IsTag(t: string) {
    t != [] && Trimmed(t) && ',' !in t && Unquoted(t)
  }

  /** `[p.strip() for p in parts if p.strip()]`. */
  function Keep(parts: seq<string>): (r: seq<string>)
    ensures |r| <= |parts|
    ensures forall i :: 0 <= i < |r| ==> r[i] != [] && Trimmed(r[i])
    ensures forall i, c :: 0 <= i < |r| && c in r[i] ==> exists j :: 0 <= j < |parts| && c in parts[j]
  {
    if parts == [] then []
    else
      var t := Strip(parts[0]);
      var rest := Keep(parts[1..]);
      assert forall c :: c in t ==> c in parts[0] by {
        forall c | c in t ensures c in parts[0] {
          StripKeeps(parts[0], c);
        }
      }
      assert forall j :: 0 <= j < |parts| - 1 ==> parts[1..][j] == parts[j + 1];
      if t == [] then rest else [t] + rest
  }

  /** The comprehension keeps order: the tags of two runs of pieces are the tags of each, in turn. */
  lemma {:induction false} KeepAppend(a: seq<string>, b: seq<string>)
    ensures Keep(a + b) == Keep(a) + Keep(b)
  {
    if a == [] {
      assert a + b == b;
    } else {
      assert (a + b)[0] == a[0] && (a + b)[1..] == a[1..] + b;
      KeepAppend(a[1..], b);
    }
  }

  /**
   * The comma-separated fallback of `parse_list_output`: every tag it yields
   * is a clean tag, and there is at most one more than there are commas.
   */
  function SplitTags(s: string): (r: seq<string>)
    ensures |r| <= Count(s, ',') + 1
    ensures forall i :: 0 <= i < |r| ==> IsTag(r[i])
  {
    var t := CleanText(s);
    UnquoteCount(s, ',');
    var parts := Split(t, ',');
    PiecesFree(parts, ',', '[');
    PiecesFree(parts, ',', ']');
    PiecesFree(parts, ',', '"');
    PiecesFree(parts, ',', '\'');
    KeepFree(parts, ',');
    KeepFree(parts, '[');
    KeepFree(parts, ']');
    KeepFree(parts, '"');
    KeepFree(parts, '\'');
    Keep(parts)
  }

  /** No piece of a joined text holds a character the text lacks. */
  lemma PiecesFree(parts: seq<string>, sep: char, c: char)
    requires c !in Join(parts, sep)
    ensures forall j :: 0 <= j < |parts| ==> c !in parts[j]
  {
    forall j | 0 <= j < |parts| ensures c !in parts[j] {
      if c in parts[j] {
        JoinHolds(parts, sep, j, c);
      }
    }
  }

  /** Stripping and dropping pieces brings in no new character. */
  lemma {:induction false} KeepFree(parts: seq<string>, c: char)
    requires forall j :: 0 <= j < |parts| ==> c !in parts[j]
    ensures forall i :: 0 <= i < |Keep(parts)| ==> c !in Keep(parts)[i]
  {
    if parts != [] {
      KeepFree(parts[1..], c);
      if c in Strip(parts[0]) {
        StripKeeps(parts[0], c);
      }
    }
  }

  /** A character of one piece is a character of the joined text. */
  lemma {:induction false} JoinHolds(parts: seq<string>, sep: char, j: nat, c: char)
    requires j < |parts| && c in parts[j]
    ensures c in Join(parts, sep)
  {
    if |parts| > 1 && j > 0 {
      JoinHolds(parts[1..], sep, j - 1, c);
    }
  }

  /** The JSON path of `parse_list_output`: the items of the bracket span when it decodes. */
  function JsonList(s: string): (r: Option<seq<Json>>)
    ensures r.Some? ==> Span(s, '[', ']').Some? && Decode(Span(s, '[', ']').value) == Some(JArr(r.value))
  {
    match Span(s, '[', ']')
    case None => None
    case Some(t) =>
      match Decode(t)
      case Some(JArr(items)) => Some(items)
      case _ => None
  }

  /** A bracket span that decodes at all decodes to a list, so the JSON path fails only when decoding does. */
  lemma JsonListFails(s: string)
    requires Span(s, '[', ']').Some?
    ensures JsonList(s).None? <==> Decode(Span(s, '[', ']').value).None?
  {
    var t := Span(s, '[', ']').value;
    if t != [] {
      DecodeBracket(t);
    }
  }

  /**
   * `parse_list_output`: `[]` for an empty reply; the decoded list when the
   * reply holds both brackets and the span between them decodes; otherwise
   * the comma-separated fallback, as strings.
   */
  function ParseListOutput(response: string): (r: seq<Json>)
    ensures WellFormed(JArr(r))
    ensures response == [] ==> r == []
    ensures response != [] && JsonList(response).Some? ==> r == JsonList(response).value
    ensures response != [] && JsonList(response).None? ==>
      |r| == |SplitTags(response)| && forall i :: 0 <= i < |r| ==> r[i] == JStr(SplitTags(response)[i])
  {
    if response == [] then []
    else
      match JsonList(response)
      case Some(items) => items
      case None => Strings(SplitTags(response))
  }

  function Strings(ts: seq<string>): (r: seq<Json>)
    ensures |r| == |ts| && forall i :: 0 <= i < |r| ==> r[i] == JStr(ts[i])
  {
    seq(|ts|, i requires 0 <= i < |ts| => JStr(ts[i]))
  }

  /** A reply holding an encoded list between text with no `[` before it and no `]` after it yields that list's items. */
  lemma ParseListOutputJson(pre: string, items: seq<Json>, post: string)
    requires WellFormed(JArr(items))
    requires '[' !in pre && ']' !in post
    ensures ParseListOutput(pre + Encode(JArr(items)) + post) == items
  {
    var e := Encode(JArr(items));
    var s := pre + e + post;
    assert e == "[" + EncodeItems(items) + "]";
    var a, b := |pre|, |pre| + |e| - 1;
    assert s[a] == '[' && s[b] == ']' && s[a..b + 1] == e;
    assert s[..a] == pre && s[b + 1..] == post;
    SpanAt(s, '[', ']', a, b);
    DecodeEncode(JArr(items));
  }

  /**
   * Comma-separated pieces without brackets or quotes come back as their
   * stripped, non-empty pieces, in order: the fallback undoes `", ".join`.
   */
  lemma ParseListOutputSplit(parts: seq<string>)
    requires parts != [] && Join(parts, ',') != []
    requires forall i :: 0 <= i < |parts| ==> ',' !in parts[i] && Unquoted(parts[i])
    ensures ParseListOutput(Join(parts, ',')) == Strings(Keep(parts))
  {
    var s := Join(parts, ',');
    JoinUnquoted(parts);
    CleanTextUnquoted(s);
    SplitJoin(parts, ',');
  }

  lemma JoinUnquoted(parts: seq<string>)
    requires forall i :: 0 <= i < |parts| ==> Unquoted(parts[i])
    ensures Unquoted(Join(parts, ','))
  {
    JoinFree(parts, ',');
  }

  lemma CleanTextUnquoted(s: string)
    requires Unquoted(s)
    ensures CleanText(s) == s
  {
    UnquoteSelf(s);
  }

  /** A joined text holds no character that none of its pieces holds, besides the separator. */
  lemma {:induction false} JoinFree(parts: seq<string>, sep: char)
    ensures forall c :: c != sep && c in Join(parts, sep) ==> exists j :: 0 <= j < |parts| && c in parts[j]
  {
    if |parts| > 1 {
      JoinFree(parts[1..], sep);
      forall c | c != sep && c in Join(parts, sep)
        ensures exists j :: 0 <= j < |parts| && c in parts[j]
      {
        assert Join(parts, sep) == parts[0] + [sep] + Join(parts[1..], sep);
        if c !in parts[0] {
          var j :| 0 <= j < |parts[1..]| && c in parts[1..][j];
          assert c in parts[j + 1];
        }
      }
    }
  }

  /**
   * The fallback for any reply made of comma-separated pieces: when the
   * bracket span does not decode, the tags are the pieces with their
   * brackets and quotes deleted, stripped, the empty ones dropped, in the
   * order of the reply.
   */
  lemma ParseListOutputFallback(parts: seq<string>)
    requires parts != [] && Join(parts, ',') != []
    requires forall i :: 0 <= i < |parts| ==> ',' !in parts[i]
    requires JsonList(Join(parts, ',')).None?
    ensures ParseListOutput(Join(parts, ',')) == Strings(Keep(CleanPieces(parts)))
  {
    var s, cleaned := Join(parts, ','), CleanPieces(parts);
    forall i | 0 <= i < |cleaned| ensures ',' !in cleaned[i] {
      UnquoteKeeps(parts[i], ',');
    }
    calc {
      ParseListOutput(s);
      Strings(SplitTags(s));
      Strings(Keep(Split(CleanText(s), ',')));
      { CleanJoin(parts); }
      Strings(Keep(Split(Join(cleaned, ','), ',')));
      { SplitJoin(cleaned, ','); }
      Strings(Keep(cleaned));
    }
  }

  /** A list whose first item opens with a single quote is not JSON. */
  lemma DecodeSingleQuoted(rest: string)
    ensures Decode("['" + rest).None?
  {
    var s := "['" + rest;
    assert s[1..] == "'" + rest;
    assert SkipWs(s) == s;
    assert SkipWs(s[1..]) == s[1..];
    assert ParseValue(s[1..]).None?;
    assert ParseElements(s[1..]).None?;
    assert ParseArray(s[1..]).None?;
    assert ParseValue(s).None?;
  }

  /** Python-style quoted tags, `['a', 'b']`, fail to decode and come back through the fallback as `a` and `b`. */
  lemma QuotedTags(a: char, b: char)
    requires !IsSpace(a) && !IsSpace(b) && a != ',' && b != ','
    requires !IsQuoteOrBracket(a) && !IsQuoteOrBracket(b)
    ensures ParseListOutput("['" + [a] + "', '" + [b] + "']") == [JStr([a]), JStr([b])]
  {
    var x, y := "['" + [a] + "'", " " + ("'" + [b] + "']");
    var s := "['" + [a] + "', '" + [b] + "']";
    QuotedText(a, b);
    CleanWrapped("", "['", [a], "'");
    assert "" + ("['" + [a] + "'") == x;
    CleanWrapped(" ", "'", [b], "']");
    QuotedNotJson(s);
    FallbackTwo(s, x, y, a, b);
  }

  lemma QuotedText(a: char, b: char)
    ensures ("['" + [a] + "'") + [','] + (" " + ("'" + [b] + "']")) == "['" + [a] + "', '" + [b] + "']"
  {
  }

  /** Two pieces that clean to `a` and ` b`, in a reply that is not a JSON list, give the tags `a` and `b`. */
  lemma FallbackTwo(s: string, x: string, y: string, a: char, b: char)
    requires s == x + [','] + y
    requires !IsSpace(a) && !IsSpace(b) && a != ',' && b != ','
    requires CleanText(x) == [a] && CleanText(y) == [' ', b]
    requires JsonList(s).None?
    ensures ParseListOutput(s) == [JStr([a]), JStr([b])]
  {
    UnquoteKeeps(x, ',');
    UnquoteKeeps(y, ',');
    calc {
      ParseListOutput(s);
      { FallbackPair(x, y); }
      Strings(Keep(CleanPieces([x, y])));
      { CleanPair(x, y); }
      Strings(Keep([CleanText(x), CleanText(y)]));
      Strings(Keep([[a], [' ', b]]));
      { KeptTwo(a, b); }
      Strings([[a], [b]]);
      { StringsTwo([a], [b]); }
      [JStr([a]), JStr([b])];
    }
  }

  /** The fallback for a reply of two comma-free pieces. */
  lemma FallbackPair(x: string, y: string)
    requires ',' !in x && ',' !in y
    requires JsonList(x + [','] + y).None?
    ensures ParseListOutput(x + [','] + y) == Strings(Keep(CleanPieces([x, y])))
  {
    JoinTwo(x, y, ',');
    ParseListOutputFallback([x, y]);
  }

  lemma CleanPair(x: string, y: string)
    ensures CleanPieces([x, y]) == [CleanText(x), CleanText(y)]
  {
  }

  lemma StringsTwo(u: string, v: string)
    ensures Strings([u, v]) == [JStr(u), JStr(v)]
  {
  }

  /** A text from a `['` to its last character `]` is not JSON, so the list path fails. */
  lemma QuotedNotJson(s: string)
    requires |s| >= 3 && s[0] == '[' && s[1] == '\'' && s[|s| - 1] == ']'
    ensures JsonList(s).None?
  {
    assert s == "['" + s[2..];
    DecodeSingleQuoted(s[2..]);
    SpanAt(s, '[', ']', 0, |s| - 1);
    assert s[0..|s|] == s;
  }

  lemma JoinTwo(x: string, y: string, sep: char)
    ensures Join([x, y], sep) == x + [sep] + y
  {
    assert [x, y][1..] == [y];
  }

  /** A list cut short before its `]`, `["a", "b"`, has no bracket span and comes back through the fallback as `a` and `b`. */
  lemma TruncatedTags(a: char, b: char)
    requires !IsSpace(a) && !IsSpace(b) && a != ',' && b != ','
    requires !IsQuoteOrBracket(a) && !IsQuoteOrBracket(b)
    ensures ParseListOutput("[\"" + [a] + "\", \"" + [b] + "\"") == [JStr([a]), JStr([b])]
  {
    var x, y := "[\"" + [a] + "\"", " " + ("\"" + [b] + "\"");
    var s := "[\"" + [a] + "\", \"" + [b] + "\"";
    TruncatedText(a, b);
    CleanWrapped("", "[\"", [a], "\"");
    assert "" + ("[\"" + [a] + "\"") == x;
    CleanWrapped(" ", "\"", [b], "\"");
    assert ']' !in s;
    FallbackTwo(s, x, y, a, b);
  }

  lemma TruncatedText(a: char, b: char)
    ensures ("[\"" + [a] + "\"") + [','] + (" " + ("\"" + [b] + "\"")) == "[\"" + [a] + "\", \"" + [b] + "\""
  {
  }

  /** Nothing but brackets and quotes. */
  predicate AllQuotes(s: string) {
    forall i :: 0 <= i < |s| ==> IsQuoteOrBracket(s[i])
  }

  /** Cleaning deletes a run of brackets and quotes entirely. */
  lemma {:induction false} CleanQuotes(s: string)
    requires AllQuotes(s)
    ensures CleanText(s) == []
  {
    if s != [] {
      assert s == [s[0]] + s[1..];
      UnquoteAppend([s[0]], s[1..]);
      UnquoteOne(s[0]);
      CleanQuotes(s[1..]);
    }
  }

  /** A clean text wrapped in brackets and quotes, after a clean lead, cleans to the lead and the text. */
  lemma CleanWrapped(lead: string, pre: string, t: string, post: string)
    requires Unquoted(lead) && AllQuotes(pre) && Unquoted(t) && AllQuotes(post)
    ensures CleanText(lead + (pre + t + post)) == lead + t
  {
    UnquoteAppend(lead, pre + t + post);
    UnquoteAppend(pre + t, post);
    UnquoteAppend(pre, t);
    CleanTextUnquoted(lead);
    CleanTextUnquoted(t);
    CleanQuotes(pre);
    CleanQuotes(post);
  }

  lemma KeptTwo(a: char, b: char)
    requires !IsSpace(a) && !IsSpace(b)
    ensures Keep([[a], [' ', b]]) == [[a], [b]]
  {
    StripPadded(a);
    StripPadded(b);
    assert [[a], [' ', b]][1..] == [[' ', b]];
    assert [[' ', b]][1..] == [];
  }

  /** `['A', 'B']` reads as the tags A and B. */
  lemma ParseListOutputQuoted()
    ensures ParseListOutput("['A', 'B']") == [JStr("A"), JStr("B")]
  {
    QuotedTags('A', 'B');
    QuotedAB();
  }

  lemma QuotedAB()
    ensures "['A', 'B']" == "['" + ['A'] + "', '" + ['B'] + "']"
  {
  }


  /** "A, B, C" reads as the tags A, B and C. */
  lemma ParseListOutputExample()
    ensures ParseListOutput("A, B, C") == [JStr("A"), JStr("B"), JStr("C")]
  {
    ThreeTags('A', 'B', 'C');
    assert "A, B, C" == ['A', ',', ' ', 'B', ',', ' ', 'C'];
  }

  /** Three one-character tags after a comma and a space each come back as those tags. */
  lemma ThreeTags(a: char, b: char, c: char)
    requires !IsSpace(a) && !IsSpace(b) && !IsSpace(c)
    requires a != ',' && b != ',' && c != ','
    requires !IsQuoteOrBracket(a) && !IsQuoteOrBracket(b) && !IsQuoteOrBracket(c)
    ensures ParseListOutput([a, ',', ' ', b, ',', ' ', c]) == [JStr([a]), JStr([b]), JStr([c])]
  {
    ThreeParts(a, b, c);
    ThreeKept(a, b, c);
    var ts := [[a], [b], [c]];
    assert Strings(ts) == [JStr([a]), JStr([b]), JStr([c])];
  }

  lemma ThreeParts(a: char, b: char, c: char)
    requires a != ',' && b != ',' && c != ','
    requires !IsQuoteOrBracket(a) && !IsQuoteOrBracket(b) && !IsQuoteOrBracket(c)
    ensures ParseListOutput([a, ',', ' ', b, ',', ' ', c]) == Strings(Keep([[a], [' ', b], [' ', c]]))
  {
    var parts := [[a], [' ', b], [' ', c]];
    JoinThree([a], [' ', b], [' ', c], ',');
    assert [a] + [','] + ([' ', b] + [','] + [' ', c]) == [a, ',', ' ', b, ',', ' ', c];
    ParseListOutputSplit(parts);
  }

  lemma ThreeKept(a: char, b: char, c: char)
    requires !IsSpace(a) && !IsSpace(b) && !IsSpace(c)
    ensures Keep([[a], [' ', b], [' ', c]]) == [[a], [b], [c]]
  {
    StripPadded(a);
    StripPadded(b);
    StripPadded(c);
    KeepThree([a], [' ', b], [' ', c]);
  }

  lemma JoinThree(x: string, y: string, z: string, sep: char)
    ensures Join([x, y, z], sep) == x + [sep] + (y + [sep] + z)
  {
    assert [y, z][1..] == [z];
    assert Join([y, z], sep) == y + [sep] + z;
    assert [x, y, z][1..] == [y, z];
  }

  /** A piece that strips to something heads the comprehension's result. */
  lemma KeepCons(parts: seq<string>)
    requires parts != [] && Strip(parts[0]) != []
    ensures Keep(parts) == [Strip(parts[0])] + Keep(parts[1..])
  {
  }

  /** The comprehension over three pieces that all strip to something. */
  lemma KeepThree(x: string, y: string, z: string)
    requires Strip(x) != [] && Strip(y) != [] && Strip(z) != []
    ensures Keep([x, y, z]) == [Strip(x), Strip(y), Strip(z)]
  {
    assert [z][1..] == [];
    KeepCons([z]);
    var kz := Keep([z]);
    assert kz == [Strip(z)];
    assert [y, z][1..] == [z];
    KeepCons([y, z]);
    var kyz := Keep([y, z]);
    assert kyz == [Strip(y)] + kz;
    assert [x, y, z][1..] == [y, z];
    KeepCons([x, y, z]);
    assert Keep([x, y, z]) == [Strip(x)] + kyz;
  }

  /** A single visible character survives `strip()`, with or without a leading space. */
  lemma StripPadded(c: char)
    requires !IsSpace(c)
    ensures Strip([c]) == [c] && Strip([' ', c]) == [c]
  {
    StripTrimmed([c]);
    assert Lead([' ', c]) == 1;
    assert End([' ', c]) == 2;
  }

  /** Through the JSON path the guarantees of the fallback do not hold: '[""]' yields one empty string. */
  lemma ParseListOutputEmptyTag()
    ensures ParseListOutput("[\"\"]") == [JStr("")]
  {
    assert Encode(JArr([JStr("")])) == "[\"\"]";
    assert "" + "[\"\"]" + "" == "[\"\"]";
    ParseListOutputJson("", [JStr("")], "");
  }
}
