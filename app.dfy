/**
 * The session state of the Streamlit front end `app.py`: the inbox, the
 * prompts, the selected email, the chats and the compose flow, and the
 * handlers that change them. Emails, prompts and drafts are the JSON values
 * the payload store holds, so that a field write is a Python dict write.
 * Every reply of the language model is a parameter of the handler that asks
 * for it; the handlers return what they asked.
 */
module App {
  import opened Wrappers
  import opened Text
  import opened Json
  import opened Utils
  import opened DataManager

  const InboxFile: string := "mock_inbox.json"
  const PromptsFile: string := "prompts.json"
  const DraftsFile: string := "new_compose.json"

  // ---------------------------------------------------------------------
  // Python values

  /** Python's `bool(v)`: false exactly for `None`, `False`, `0`, `""`, `[]` and `{}`. */
  predicate Truthy(v: Json)
    ensures Truthy(v) <==> v !in {JNull, JBool(false), JNum(0), JStr(""), JArr([]), JObj([])}
  {
    match v
    case JNull => false
    case JBool(b) => b
    case JNum(n) => n != 0
    case JStr(s) => s != []
    case JArr(items) => items != []
    case JObj(ms) => ms != []
  }

  /** `v.get(k)` on a dict. */
  function Lookup(v: Json, k: string): Option<Json> {
    if v.JObj? then Get(v.members, k) else None
  }

  /** `v[k]` on a dict that holds `k`. */
  function Field(v: Json, k: string): Json
    requires Lookup(v, k).Some?
  {
    Lookup(v, k).value
  }

  /** `v.get(k)` counts as true. */
  predicate Set(v: Json, k: string) {
    Truthy(Lookup(v, k).GetOr(JNull))
  }

  /** `v[k] = x` on a dict: afterwards `k` reads `x`. */
  function SetField(v: Json, k: string, x: Json): (r: Json)
    requires v.JObj?
    ensures r.JObj? && Truthy(r)
    ensures Lookup(r, k) == Some(x)
  {
    PutGet(v.members, k, x, k);
    JObj(Put(v.members, k, x))
  }

  /** `v[k] = x` leaves every other key as it was. */
  lemma SetFieldOther(v: Json, k: string, x: Json, k': string)
    requires v.JObj? && k' != k
    ensures Lookup(SetField(v, k, x), k') == Lookup(v, k')
  {
    PutGet(v.members, k, x, k');
  }

  lemma SetFieldOthers(v: Json, k: string, x: Json)
    requires v.JObj?
    ensures forall k' :: k' != k ==> Lookup(SetField(v, k, x), k') == Lookup(v, k')
  {
    forall k' | k' != k ensures Lookup(SetField(v, k, x), k') == Lookup(v, k') {
      SetFieldOther(v, k, x, k');
    }
  }

  /** `v[k] = x` keeps a well-formed dict well-formed. */
  lemma SetFieldWellFormed(v: Json, k: string, x: Json)
    requires v.JObj? && WellFormed(v) && WellFormed(x)
    ensures WellFormed(SetField(v, k, x))
  {
    PutWellFormed(v.members, k, x);
  }

  /** How Python's `repr` writes one character of a string quoted with `q`. */
  function ReprChar(c: char, q: char): string {
    if c == q || c == '\\' then ['\\', c]
    else if c == '\t' then "\\t"
    else if c == '\n' then "\\n"
    else if c == '\r' then "\\r"
    else if c < ' ' || c == '\U{7f}' then "\\x" + [HexDigit(c as int / 16), HexDigit(c as int % 16)]
    else [c]
  }

  function ReprChars(s: string, q: char): string {
    if s == [] then "" else ReprChar(s[0], q) + ReprChars(s[1..], q)
  }

  /** Python's `repr` of a string: single quotes, unless the text holds `'` and no `"`. */
  function ReprStr(s: string): (r: string)
    ensures |r| >= 2 && r[0] == r[|r| - 1] && (r[0] == '\'' || r[0] == '"')
    ensures r[0] == '"' <==> '\'' in s && '"' !in s
  {
    var q := if '\'' in s && '"' !in s then '"' else '\'';
    [q] + ReprChars(s, q) + [q]
  }

  /**
   * Python's `repr` of a value `json.loads` can return: a list in brackets,
   * a dict in braces, a string in quotes.
   */
  function Repr(v: Json): (r: string)
    ensures r != []
    ensures v.JArr? ==> r[0] == '[' && r[|r| - 1] == ']'
    ensures v.JObj? ==> r[0] == '{' && r[|r| - 1] == '}'
    ensures v.JStr? ==> r[0] == '\'' || r[0] == '"'
  {
    match v
    case JNull => "None"
    case JBool(b) => if b then "True" else "False"
    case JNum(n) => EncodeInt(n)
    case JStr(s) => ReprStr(s)
    case JArr(items) => "[" + ReprItems(items) + "]"
    case JObj(ms) => "{" + ReprMembers(ms) + "}"
  }

  function ReprItems(items: seq<Json>): string {
    if items == [] then ""
    else if |items| == 1 then Repr(items[0])
    else Repr(items[0]) + ", " + ReprItems(items[1..])
  }

  function ReprMembers(ms: seq<Member>): string {
    if ms == [] then ""
    else if |ms| == 1 then ReprStr(ms[0].key) + ": " + Repr(ms[0].value)
    else ReprStr(ms[0].key) + ": " + Repr(ms[0].value) + ", " + ReprMembers(ms[1..])
  }

  /** Python's `str(v)`, which is what an f-string shows: a string as it is, anything else as its `repr`. */
  function Show(v: Json): (r: string)
    ensures v.JStr? ==> r == v.s
    ensures !v.JStr? ==> r == Repr(v) && r != []
  {
    if v.JStr? then v.s else Repr(v)
  }

  /** A character `repr` writes as itself inside single quotes. */
  predicate Plain(c: char) {
    ' ' <= c && c != '\\' && c != '\'' && c != '\U{7f}'
  }

  /** `repr` writes a text of plain characters between single quotes, unchanged. */
  lemma {:induction false} ReprPlain(s: string)
    requires forall i :: 0 <= i < |s| ==> Plain(s[i])
    ensures ReprStr(s) == "'" + s + "'"
  {
    assert '\'' !in s;
    ReprCharsPlain(s);
  }

  lemma {:induction false} ReprCharsPlain(s: string)
    requires forall i :: 0 <= i < |s| ==> Plain(s[i])
    ensures ReprChars(s, '\'') == s
  {
    if s != [] {
      ReprCharsPlain(s[1..]);
      assert s == [s[0]] + s[1..];
    }
  }

  /** A list of two plain tags shows the way the reply prompt lists them, as in `['Work', 'Urgent']`. */
  lemma ShowTags(a: string, b: string)
    requires forall i :: 0 <= i < |a| ==> Plain(a[i])
    requires forall i :: 0 <= i < |b| ==> Plain(b[i])
    ensures Show(JArr([JStr(a), JStr(b)])) == "['" + a + "', '" + b + "']"
  {
    var items := [JStr(a), JStr(b)];
    ReprPlain(a);
    ReprPlain(b);
    assert items[1..] == [JStr(b)];
    var ra, rb := "'" + a + "'", "'" + b + "'";
    assert Repr(items[0]) == ra;
    assert ReprItems(items[1..]) == rb;
    assert ReprItems(items) == ra + ", " + rb;
    calc {
      Show(JArr(items));
      "[" + (ra + ", " + rb) + "]";
      { assert "[" + ra == "['" + a + "'"; }
      "['" + a + "'" + ", " + rb + "]";
      { assert "'" + ", " + "'" == "', '"; }
      "['" + a + "', '" + b + "'" + "]";
      { assert "'" + "]" == "']"; }
      "['" + a + "', '" + b + "']";
    }
  }

  // ---------------------------------------------------------------------
  // The two prompt builders

  /** The five fields `format_email` reads. */
  predicate Formattable(e: Json) {
    && e.JObj?
    && Lookup(e, "name").Some?
    && Lookup(e, "sender").Some?
    && Lookup(e, "timestamp").Some?
    && Lookup(e, "subject").Some?
    && Lookup(e, "body").Some?
  }

  predicate EmailKey(k: string) {
    k == "name" || k == "sender" || k == "timestamp" || k == "subject" || k == "body"
  }

  /** `format_email(email)`, with the source's spellings. */
  function FormatEmail(e: Json): (r: string)
    requires Formattable(e)
    ensures "Sender's_name : " + Show(Field(e, "name")) + "\nSender's email : " <= r
    ensures var last := "\nBody : " + Show(Field(e, "body"));
      |last| <= |r| && r[|r| - |last|..] == last
  {
    var head := "Sender's_name : " + Show(Field(e, "name")) + "\nSender's email : ";
    var middle := Show(Field(e, "sender"))
      + "\nRecieved at : " + Show(Field(e, "timestamp"))
      + "\nSubject : " + Show(Field(e, "subject"));
    var last := "\nBody : " + Show(Field(e, "body"));
    Around(head, middle, last);
    head + middle + last
  }

  /** `format_email_for_reply(email)`: the same five lines, then the tags and the action item, with `[]` and `{}` for missing ones. */
  function FormatEmailForReply(e: Json): (r: string)
    requires Formattable(e)
    ensures FormatEmail(e) <= r
    ensures var last := "\nAction Item : " + Show(Lookup(e, "action_item").GetOr(JObj([])));
      |last| <= |r| && r[|r| - |last|..] == last
  {
    var middle := "\nTags : " + Show(Lookup(e, "tags").GetOr(JArr([])));
    var last := "\nAction Item : " + Show(Lookup(e, "action_item").GetOr(JObj([])));
    Around(FormatEmail(e), middle, last);
    FormatEmail(e) + middle + last
  }

  /** The reply prompt extends the plain one: everything `format_email` says comes first. */
  lemma FormatEmailForReplyPrefix(e: Json)
    requires Formattable(e)
    ensures FormatEmailForReply(e) == FormatEmail(e) + ("\nTags : " + Show(Lookup(e, "tags").GetOr(JArr([]))))
      + ("\nAction Item : " + Show(Lookup(e, "action_item").GetOr(JObj([]))))
  {
  }

  /** A text made of three parts starts with the first and ends with the last. */
  lemma Around(head: string, middle: string, last: string)
    ensures head <= head + middle + last
    ensures |last| <= |head + middle + last| && (head + middle + last)[|head + middle + last| - |last|..] == last
  {
    var r := head + middle + last;
    assert r[|r| - |last|..] == last;
  }

  /** Two dicts agree on the five fields `format_email` reads. */
  predicate SameFields(a: Json, b: Json) {
    && Lookup(a, "name") == Lookup(b, "name")
    && Lookup(a, "sender") == Lookup(b, "sender")
    && Lookup(a, "timestamp") == Lookup(b, "timestamp")
    && Lookup(a, "subject") == Lookup(b, "subject")
    && Lookup(a, "body") == Lookup(b, "body")
  }

  /** `format_email` reads nothing but the five fields. */
  lemma FormatEmailSame(a: Json, b: Json)
    requires Formattable(a) && b.JObj? && SameFields(a, b)
    ensures Formattable(b) && FormatEmail(b) == FormatEmail(a)
  {
  }

  /** Writing any field but the five leaves the text `format_email` builds as it was. */
  lemma FormatEmailIgnores(e: Json, k: string, x: Json)
    requires Formattable(e) && !EmailKey(k)
    ensures Formattable(SetField(e, k, x)) && FormatEmail(SetField(e, k, x)) == FormatEmail(e)
  {
    SetFieldOther(e, k, x, "name");
    SetFieldOther(e, k, x, "sender");
    SetFieldOther(e, k, x, "timestamp");
    SetFieldOther(e, k, x, "subject");
    SetFieldOther(e, k, x, "body");
    FormatEmailSame(e, SetField(e, k, x));
  }

  /** An email with neither tags nor an action item is asked about with `[]` and `{}`. */
  lemma FormatEmailForReplyUnprocessed(e: Json)
    requires Formattable(e) && Lookup(e, "tags").None? && Lookup(e, "action_item").None?
    ensures FormatEmailForReply(e) == FormatEmail(e) + "\nTags : []\nAction Item : {}"
  {
    var x, y := "\nTags : " + Show(JArr([])), "\nAction Item : " + Show(JObj([]));
    calc {
      FormatEmailForReply(e);
      { FormatEmailForReplyPrefix(e); }
      FormatEmail(e) + ("\nTags : " + Show(Lookup(e, "tags").GetOr(JArr([]))))
        + ("\nAction Item : " + Show(Lookup(e, "action_item").GetOr(JObj([]))));
      FormatEmail(e) + x + y;
      FormatEmail(e) + (x + y);
      { ShowEmpty(); EmptyLines(x, y); }
      FormatEmail(e) + "\nTags : []\nAction Item : {}";
    }
  }

  /** The empty list and the empty dict show as `[]` and `{}`. */
  lemma ShowEmpty()
    ensures Show(JArr([])) == "[]" && Show(JObj([])) == "{}"
  {
  }

  lemma EmptyLines(x: string, y: string)
    requires x == "\nTags : " + "[]" && y == "\nAction Item : " + "{}"
    ensures x + y == "\nTags : []\nAction Item : {}"
  {
  }

  // ---------------------------------------------------------------------
  // Bulk processing and marking as read, on values

  /** Every email is a dict. */
  predicate Records(es: seq<Json>) {
    forall i :: 0 <= i < |es| ==> es[i].JObj?
  }

  predicate AllWellFormed(es: seq<Json>) {
    forall i :: 0 <= i < |es| ==> WellFormed(es[i])
  }

  /** An inbox the handlers can work on: well-formed dicts. */
  predicate Inbox(es: seq<Json>) {
    Records(es) && AllWellFormed(es)
  }

  /** What "Process Emails" makes of one email given the categorisation and the action replies. */
  function Processed(e: Json, category: string, action: string): (r: Json)
    requires e.JObj?
    ensures r.JObj?
    ensures Lookup(r, "tags") == Some(JArr(ParseListOutput(category)))
    ensures Lookup(r, "action_item") == Some(ParseJsonOutput(action))
  {
    SetFieldOther(SetField(e, "tags", JArr(ParseListOutput(category))), "action_item", ParseJsonOutput(action), "tags");
    SetField(SetField(e, "tags", JArr(ParseListOutput(category))), "action_item", ParseJsonOutput(action))
  }

  /**
   * A processed email keeps every field but the tags and the action item.
   */
  lemma ProcessedFields(e: Json, category: string, action: string)
    requires e.JObj?
    ensures forall k :: k != "tags" && k != "action_item" ==> Lookup(Processed(e, category, action), k) == Lookup(e, k)
  {
    var once := SetField(e, "tags", JArr(ParseListOutput(category)));
    SetFieldOthers(e, "tags", JArr(ParseListOutput(category)));
    SetFieldOthers(once, "action_item", ParseJsonOutput(action));
  }

  /** Processing keeps an email well-formed. */
  lemma ProcessedWellFormed(e: Json, category: string, action: string)
    requires e.JObj? && WellFormed(e)
    ensures WellFormed(Processed(e, category, action))
  {
    var tags := JArr(ParseListOutput(category));
    SetFieldWellFormed(e, "tags", tags);
    SetFieldWellFormed(SetField(e, "tags", tags), "action_item", ParseJsonOutput(action));
  }

  /** Processing keeps the text `format_email` builds, so a second run asks the same questions. */
  lemma ProcessedFormat(e: Json, category: string, action: string)
    requires Formattable(e)
    ensures Formattable(Processed(e, category, action)) && FormatEmail(Processed(e, category, action)) == FormatEmail(e)
  {
    ProcessedFields(e, category, action);
    FormatEmailSame(e, Processed(e, category, action));
  }

  /** Email `j` processed with its own two replies, `replies[2 * j]` and `replies[2 * j + 1]`. */
  function ProcessedAt(es: seq<Json>, replies: seq<string>, j: nat): Json
    requires Records(es) && |replies| == 2 * |es| && j < |es|
  {
    Processed(es[j], replies[2 * j], replies[2 * j + 1])
  }

  /** All emails processed in order. */
  function ProcessAll(es: seq<Json>, replies: seq<string>): (r: seq<Json>)
    requires Records(es) && |replies| == 2 * |es|
    ensures |r| == |es| && Records(r)
  {
    seq(|es|, i requires 0 <= i < |es| => ProcessedAt(es, replies, i))
  }

  /**
   * "Process Emails" keeps the number and order of the emails: email `i`
   * holds the tags and the action item parsed from its own two replies, and
   * every other field as before.
   */
  lemma ProcessAllFields(es: seq<Json>, replies: seq<string>, i: nat)
    requires Records(es) && |replies| == 2 * |es| && i < |es|
    ensures Lookup(ProcessAll(es, replies)[i], "tags") == Some(JArr(ParseListOutput(replies[2 * i])))
    ensures Lookup(ProcessAll(es, replies)[i], "action_item") == Some(ParseJsonOutput(replies[2 * i + 1]))
    ensures forall k :: k != "tags" && k != "action_item" ==> Lookup(ProcessAll(es, replies)[i], k) == Lookup(es[i], k)
  {
    ProcessedFields(es[i], replies[2 * i], replies[2 * i + 1]);
  }

  /** Processing keeps every email well-formed. */
  lemma ProcessAllWellFormed(es: seq<Json>, replies: seq<string>)
    requires Records(es) && |replies| == 2 * |es| && AllWellFormed(es)
    ensures AllWellFormed(ProcessAll(es, replies))
  {
    forall i | 0 <= i < |es| ensures WellFormed(ProcessAll(es, replies)[i]) {
      ProcessedWellFormed(es[i], replies[2 * i], replies[2 * i + 1]);
    }
  }

  /** The text `format_email` builds for each email. */
  function Texts(es: seq<Json>): (r: seq<string>)
    requires forall i :: 0 <= i < |es| ==> Formattable(es[i])
    ensures |r| == |es|
  {
    seq(|es|, i requires 0 <= i < |es| => FormatEmail(es[i]))
  }

  /** One more element of a prefix. */
  lemma TakeNext<T>(s: seq<T>, i: nat)
    requires i < |s|
    ensures s[..i + 1] == s[..i] + [s[i]]
  {
  }

  lemma TakeAll<T>(s: seq<T>)
    ensures s[..|s|] == s
  {
  }

  /** A second write to the same key replaces the first. */
  lemma Overwrite<K, V>(m: map<K, V>, k: K, a: V, b: V)
    ensures m[k := a][k := b] == m[k := b]
  {
  }

  lemma AppendOne<T>(a: seq<T>, b: seq<T>, x: T)
    ensures a + b + [x] == a + (b + [x])
  {
  }

  lemma TakeLast<T>(s: seq<T>, i: nat)
    requires i < |s|
    ensures s[..i + 1][..i] == s[..i] && s[..i + 1][i] == s[i]
  {
  }

  /** A sequence that agrees with the target before `i`, with the source from `i`, and with both at `i`. */
  lemma KeepNext<T>(p: seq<T>, t: seq<T>, s: seq<T>, i: nat)
    requires |p| == |t| == |s| && i < |p| && p[i] == t[i]
    requires p[..i] == t[..i] && p[i..] == s[i..]
    ensures p[..i + 1] == t[..i + 1] && p[i + 1..] == s[i + 1..]
  {
    assert forall j :: 0 <= j < i ==> p[j] == p[..i][j];
  }

  /** Writing element `i` of the target into a sequence that agrees with it before `i` and with the source from `i`. */
  lemma UpdateNext<T>(p: seq<T>, t: seq<T>, s: seq<T>, i: nat, x: T)
    requires |p| == |t| == |s| && i < |p| && x == t[i]
    requires p[..i] == t[..i] && p[i..] == s[i..]
    ensures p[i := x][..i + 1] == t[..i + 1] && p[i := x][i + 1..] == s[i + 1..]
  {
    assert forall j :: 0 <= j < i ==> p[j] == p[..i][j];
    assert forall j :: i < j < |p| ==> p[j] == p[i..][j - i];
  }

  /**
   * The two questions "Process Emails" asks about each email text, in the
   * order it asks them: first with the categorisation prompt, then with the
   * action-extraction prompt.
   */
  function Questions(texts: seq<string>, category: Json, action: Json): (r: seq<Request>)
    ensures |r| == 2 * |texts|
  {
    if texts == [] then []
    else [EmailQuestion(texts[0], category), EmailQuestion(texts[0], action)] + Questions(texts[1..], category, action)
  }

  /** Question `2 * i` categorises text `i` and question `2 * i + 1` extracts its action item. */
  lemma {:induction false} QuestionsAt(texts: seq<string>, category: Json, action: Json, i: nat)
    requires i < |texts|
    ensures Questions(texts, category, action)[2 * i] == EmailQuestion(texts[i], category)
    ensures Questions(texts, category, action)[2 * i + 1] == EmailQuestion(texts[i], action)
  {
    if i > 0 {
      QuestionsAt(texts[1..], category, action, i - 1);
    }
  }

  /** Asking about one more text appends its two questions. */
  lemma {:induction false} QuestionsAppend(texts: seq<string>, t: string, category: Json, action: Json)
    ensures Questions(texts + [t], category, action) == Questions(texts, category, action) + [EmailQuestion(t, category), EmailQuestion(t, action)]
  {
    if texts != [] {
      assert (texts + [t])[1..] == texts[1..] + [t];
      QuestionsAppend(texts[1..], t, category, action);
    } else {
      assert Questions([t], category, action) == [EmailQuestion(t, category), EmailQuestion(t, action)] + Questions([], category, action);
    }
  }

  /** `prompts[k]`, which the loop reads only when there is an email to ask about. */
  function Prompt(prompts: Json, k: string): Json {
    Lookup(prompts, k).GetOr(JNull)
  }

  /**
   * The loop of "Process Emails": for each email in order, the two
   * questions about it and then the two answers stored on it.
   */
  method ProcessInbox(es: seq<Json>, prompts: Json, replies: seq<string>) returns (processed: seq<Json>, asked: seq<Request>)
    requires Records(es) && |replies| == 2 * |es|
    requires forall i :: 0 <= i < |es| ==> Formattable(es[i])
    requires es != [] ==> Lookup(prompts, "categorization").Some? && Lookup(prompts, "action_extraction").Some?
    ensures processed == ProcessAll(es, replies)
    ensures asked == Questions(Texts(es), Prompt(prompts, "categorization"), Prompt(prompts, "action_extraction"))
  {
    processed := es;
    asked := [];
    var i := 0;
    while i < |es|
      invariant 0 <= i <= |es| == |processed|
      invariant asked == Questions(Texts(es)[..i], Prompt(prompts, "categorization"), Prompt(prompts, "action_extraction"))
      invariant processed[..i] == ProcessAll(es, replies)[..i]
      invariant processed[i..] == es[i..]
    {
      var text := FormatEmail(es[i]);
      var category, action := Field(prompts, "categorization"), Field(prompts, "action_extraction");
      AskedNext(es, i, category, action);
      asked := asked + [EmailQuestion(text, category), EmailQuestion(text, action)];
      var email := Processed(es[i], replies[2 * i], replies[2 * i + 1]);
      ProcessAllAt(es, replies, i);
      UpdateNext(processed, ProcessAll(es, replies), es, i, email);
      processed := processed[i := email];
      i := i + 1;
    }
    TakeAll(processed);
    TakeAll(ProcessAll(es, replies));
    TakeAll(Texts(es));
  }

  /** One more email's two questions extend the questions about the emails before it. */
  lemma AskedNext(es: seq<Json>, i: nat, category: Json, action: Json)
    requires i < |es| && forall j :: 0 <= j < |es| ==> Formattable(es[j])
    ensures Questions(Texts(es)[..i], category, action)
              + [EmailQuestion(FormatEmail(es[i]), category), EmailQuestion(FormatEmail(es[i]), action)]
            == Questions(Texts(es)[..i + 1], category, action)
  {
    var ts := Texts(es);
    assert ts[i] == FormatEmail(es[i]);
    TakeNext(ts, i);
    QuestionsAppend(ts[..i], ts[i], category, action);
  }

  lemma ProcessAllAt(es: seq<Json>, replies: seq<string>, i: nat)
    requires Records(es) && |replies| == 2 * |es| && i < |es|
    ensures ProcessAll(es, replies)[i] == Processed(es[i], replies[2 * i], replies[2 * i + 1])
  {
    assert ProcessAll(es, replies)[i] == ProcessedAt(es, replies, i);
  }

  /** The email the loop at the inbox marks read: its id is the selected one's and `is_read` is false or missing. */
  predicate ToMark(e: Json, id: Json) {
    Lookup(e, "id") == Some(id) && !Set(e, "is_read")
  }

  function MarkOne(e: Json, id: Json): (r: Json)
    requires e.JObj?
    ensures r.JObj?
  {
    if ToMark(e, id) then SetField(e, "is_read", JBool(true)) else e
  }

  /** The inbox after the loop that marks the selected email read. */
  function MarkAll(es: seq<Json>, id: Json): (r: seq<Json>)
    requires Records(es)
    ensures |r| == |es| && Records(r)
  {
    seq(|es|, i requires 0 <= i < |es| => MarkOne(es[i], id))
  }

  /** How many emails the loop marks, which is how many times it saves the inbox. */
  function MarkCount(es: seq<Json>, id: Json): (r: nat)
    ensures r <= |es|
    ensures r == 0 <==> forall i :: 0 <= i < |es| ==> !ToMark(es[i], id)
  {
    if es == [] then 0
    else MarkCount(es[..|es| - 1], id) + (if ToMark(es[|es| - 1], id) then 1 else 0)
  }

  /**
   * Marking reads: every email with the selected id afterwards has
   * `is_read` true; every other email, and every other field, is as before.
   */
  lemma MarkAllEffect(es: seq<Json>, id: Json, i: nat)
    requires Records(es) && i < |es|
    ensures Lookup(es[i], "id") == Some(id) ==> Lookup(MarkAll(es, id)[i], "is_read") == Some(JBool(true)) || (Set(es[i], "is_read") && MarkAll(es, id)[i] == es[i])
    ensures Lookup(es[i], "id") != Some(id) ==> MarkAll(es, id)[i] == es[i]
    ensures forall k :: k != "is_read" ==> Lookup(MarkAll(es, id)[i], k) == Lookup(es[i], k)
    ensures !ToMark(MarkAll(es, id)[i], id)
  {
    if ToMark(es[i], id) {
      SetFieldOthers(es[i], "is_read", JBool(true));
    }
  }

  /** A second pass marks nothing and writes nothing: marking is idempotent. */
  lemma MarkAllIdempotent(es: seq<Json>, id: Json)
    requires Records(es)
    ensures MarkAll(MarkAll(es, id), id) == MarkAll(es, id)
    ensures MarkCount(MarkAll(es, id), id) == 0
  {
    var r := MarkAll(es, id);
    forall i | 0 <= i < |r| ensures !ToMark(r[i], id) {
      MarkAllEffect(es, id, i);
    }
    NoneToMark(r, id);
  }

  lemma {:induction false} NoneToMark(es: seq<Json>, id: Json)
    requires forall i :: 0 <= i < |es| ==> !ToMark(es[i], id)
    ensures MarkCount(es, id) == 0
  {
    if es != [] {
      NoneToMark(es[..|es| - 1], id);
    }
  }

  /** No two emails share an id. */
  predicate DistinctIds(es: seq<Json>) {
    forall i, j :: 0 <= i < j < |es| && Lookup(es[i], "id").Some? ==> Lookup(es[i], "id") != Lookup(es[j], "id")
  }

  /** With distinct ids the inbox is saved at most once per selection. */
  lemma {:induction false} MarkCountDistinct(es: seq<Json>, id: Json)
    requires DistinctIds(es)
    ensures MarkCount(es, id) <= 1
  {
    if es != [] {
      var init := es[..|es| - 1];
      assert forall i :: 0 <= i < |init| ==> init[i] == es[i];
      if ToMark(es[|es| - 1], id) {
        forall i | 0 <= i < |init| ensures !ToMark(init[i], id) {
          assert Lookup(es[|es| - 1], "id") == Some(id);
        }
        NoneToMark(init, id);
      } else {
        MarkCountDistinct(init, id);
      }
    }
  }

  lemma MarkCountNext(es: seq<Json>, id: Json, i: nat)
    requires i < |es|
    ensures MarkCount(es[..i + 1], id) == MarkCount(es[..i], id) + (if ToMark(es[i], id) then 1 else 0)
  {
    TakeLast(es, i);
  }

  /** The selected email exists and counts as true, so the inbox loop compares ids with it. */
  predicate ShownIn(es: seq<Json>, selected: Option<nat>) {
    selected.Some? && selected.value < |es| && Truthy(es[selected.value])
  }

  /** `is_selected and not email.get('is_read')` for email `i` of the inbox `r`. */
  predicate Hit(r: seq<Json>, i: nat, selected: Option<nat>)
    requires i < |r|
  {
    && selected.Some? && selected.value < |r| && Truthy(r[selected.value])
    && Lookup(r[selected.value], "id") == Lookup(r[i], "id")
    && !Set(r[i], "is_read")
  }

  /** One pass of the loop at the inbox: email `i`, if it is hit, is marked read and the inbox saved. */
  method MarkAt(store: PayloadStore, r: seq<Json>, i: nat, selected: Option<nat>) returns (r': seq<Json>)
    requires i < |r| && r[i].JObj?
    modifies store
    ensures Hit(r, i, selected) ==>
      && r' == r[i := SetField(r[i], "is_read", JBool(true))]
      && store.files == old(store.files)[InboxFile := Encode(JArr(r'))]
      && store.writes == old(store.writes) + [InboxFile]
    ensures !Hit(r, i, selected) ==> r' == r && store.files == old(store.files) && store.writes == old(store.writes)
  {
    var isSelected := selected.Some? && selected.value < |r| && Truthy(r[selected.value])
      && Lookup(r[selected.value], "id") == Lookup(r[i], "id");
    if isSelected && !Set(r[i], "is_read") {
      r' := r[i := SetField(r[i], "is_read", JBool(true))];
      store.Save(InboxFile, JArr(r'));
    } else {
      r' := r;
    }
  }

  /**
   * The loop at the inbox over the emails `es`, with `selected` the index
   * of the selected email: every email whose id is the selected email's and
   * that is not yet read is marked read, and the inbox is saved after each
   * one marked.
   */
  method MarkInbox(store: PayloadStore, es: seq<Json>, selected: Option<nat>) returns (r: seq<Json>)
    requires Records(es) && AllWellFormed(es)
    requires ShownIn(es, selected) ==> forall i :: 0 <= i < |es| ==> Lookup(es[i], "id").Some?
    modifies store
    ensures |r| == |es| && Records(r) && AllWellFormed(r)
    ensures !ShownIn(es, selected) ==> r == es && store.files == old(store.files) && store.writes == old(store.writes)
    ensures ShownIn(es, selected) ==>
      var id := Field(es[selected.value], "id");
      var n := MarkCount(es, id);
      && r == MarkAll(es, id)
      && store.writes == old(store.writes) + Repeat(InboxFile, n)
      && (n == 0 ==> store.files == old(store.files))
      && (n > 0 ==> store.files == old(store.files)[InboxFile := Encode(JArr(r))])
  {
    ghost var shown := ShownIn(es, selected);
    ghost var id := MarkId(es, selected);
    ghost var target := MarkTarget(es, selected);
    ghost var marked := 0;
    r := es;
    var i := 0;
    while i < |r|
      invariant 0 <= i <= |r| == |es| == |target|
      invariant r[..i] == target[..i] && r[i..] == es[i..]
      invariant shown ==> marked == MarkCount(es[..i], id)
      invariant !shown ==> marked == 0
      invariant store.writes == old(store.writes) + Repeat(InboxFile, marked)
      invariant marked == 0 ==> store.files == old(store.files)
      invariant marked > 0 ==> store.files == old(store.files)[InboxFile := Encode(JArr(r))]
    {
      HitIff(r, es, i, selected);
      ghost var hit := Hit(r, i, selected);
      ghost var before := store.files;
      if shown {
        MarkCountNext(es, id, i);
      }
      if hit {
        UpdateNext(r, target, es, i, SetField(r[i], "is_read", JBool(true)));
        RepeatNext(old(store.writes), InboxFile, marked);
      } else {
        KeepNext(r, target, es, i);
      }
      r := MarkAt(store, r, i, selected);
      if hit {
        if marked > 0 {
          Overwrite(old(store.files), InboxFile, before[InboxFile], Encode(JArr(r)));
        }
        marked := marked + 1;
      }
      i := i + 1;
    }
    TakeAll(r);
    TakeAll(target);
    TakeAll(es);
    MarkTargetInbox(es, selected);
  }

  /** The id the inbox loop compares with: the selected email's, when it is shown. */
  function MarkId(es: seq<Json>, selected: Option<nat>): Json
    requires ShownIn(es, selected) ==> forall i :: 0 <= i < |es| ==> Lookup(es[i], "id").Some?
  {
    if ShownIn(es, selected) then Field(es[selected.value], "id") else JNull
  }

  /** The inbox after the loop: marked when an email is shown, unchanged otherwise. */
  function MarkTarget(es: seq<Json>, selected: Option<nat>): (r: seq<Json>)
    requires Records(es)
    requires ShownIn(es, selected) ==> forall i :: 0 <= i < |es| ==> Lookup(es[i], "id").Some?
    ensures |r| == |es|
  {
    if ShownIn(es, selected) then MarkAll(es, MarkId(es, selected)) else es
  }

  lemma MarkTargetInbox(es: seq<Json>, selected: Option<nat>)
    requires Inbox(es)
    requires ShownIn(es, selected) ==> forall i :: 0 <= i < |es| ==> Lookup(es[i], "id").Some?
    ensures Inbox(MarkTarget(es, selected))
  {
    var t := MarkTarget(es, selected);
    forall i | 0 <= i < |t| ensures t[i].JObj? && WellFormed(t[i]) {
      if t[i] != es[i] {
        SetFieldWellFormed(es[i], "is_read", JBool(true));
      }
    }
  }

  /**
   * Midway through the loop, email `i` is still as it was, and it is hit
   * exactly when an email is shown and email `i` is one to mark; the loop
   * then writes what the target holds at `i`.
   */
  lemma HitIff(r: seq<Json>, es: seq<Json>, i: nat, selected: Option<nat>)
    requires Records(es)
    requires ShownIn(es, selected) ==> forall i :: 0 <= i < |es| ==> Lookup(es[i], "id").Some?
    requires |r| == |es| && i < |es|
    requires r[..i] == MarkTarget(es, selected)[..i] && r[i..] == es[i..]
    ensures r[i] == es[i]
    ensures Hit(r, i, selected) <==> ShownIn(es, selected) && ToMark(es[i], MarkId(es, selected))
    ensures Hit(r, i, selected) ==> SetField(r[i], "is_read", JBool(true)) == MarkTarget(es, selected)[i]
    ensures !Hit(r, i, selected) ==> r[i] == MarkTarget(es, selected)[i]
  {
    var t := MarkTarget(es, selected);
    assert r[i] == r[i..][0];
    if selected.Some? && selected.value < |r| {
      var s := selected.value;
      if s < i {
        assert r[s] == r[..i][s];
      } else {
        assert r[s] == r[i..][s - i];
      }
      assert r[s] == t[s] || r[s] == es[s];
      if ShownIn(es, selected) {
        var id := MarkId(es, selected);
        if ToMark(es[s], id) {
          SetFieldOther(es[s], "is_read", JBool(true), "id");
        }
        assert Truthy(r[s]) && Lookup(r[s], "id") == Some(id);
      }
    }
  }

  /** `n` writes of the file `x`. */
  function Repeat(x: string, n: nat): seq<string> {
    if n == 0 then [] else Repeat(x, n - 1) + [x]
  }

  /** One more write after `n` writes of `x`. */
  lemma RepeatNext(w: seq<string>, x: string, n: nat)
    ensures w + Repeat(x, n) + [x] == w + Repeat(x, n + 1)
  {
    AppendOne(w, Repeat(x, n), x);
  }

  // ---------------------------------------------------------------------
  // Prompts, drafts and chats

  /** Prompt save writes the three prompts of the form into the prompts dict. */
  function SavedPrompts(prompts: Json, category: string, action: string, reply: string): (r: Json)
    requires prompts.JObj?
    ensures r.JObj?
    ensures Lookup(r, "auto_reply") == Some(JStr(reply))
    ensures Lookup(r, "categorization") == Some(JStr(category))
    ensures Lookup(r, "action_extraction") == Some(JStr(action))
  {
    var p1 := SetField(prompts, "auto_reply", JStr(reply));
    var p2 := SetField(p1, "categorization", JStr(category));
    SetFieldOther(p1, "categorization", JStr(category), "auto_reply");
    SetFieldOther(p2, "action_extraction", JStr(action), "auto_reply");
    SetFieldOther(p2, "action_extraction", JStr(action), "categorization");
    SetField(SetField(SetField(prompts, "auto_reply", JStr(reply)), "categorization", JStr(category)), "action_extraction", JStr(action))
  }

  /** Every key but the three prompts is as before. */
  lemma SavedPromptsFields(prompts: Json, category: string, action: string, reply: string)
    requires prompts.JObj?
    ensures var p := SavedPrompts(prompts, category, action, reply);
      (forall k :: k != "auto_reply" && k != "categorization" && k != "action_extraction" ==> Lookup(p, k) == Lookup(prompts, k))
  {
    var p1 := SetField(prompts, "auto_reply", JStr(reply));
    var p2 := SetField(p1, "categorization", JStr(category));
    SetFieldOthers(prompts, "auto_reply", JStr(reply));
    SetFieldOthers(p1, "categorization", JStr(category));
    SetFieldOthers(p2, "action_extraction", JStr(action));
  }

  /** When all three prompts were there, saving them adds no key: the dict keeps its size and its key order. */
  lemma SavedPromptsShape(prompts: Json, category: string, action: string, reply: string)
    requires prompts.JObj?
    requires Lookup(prompts, "auto_reply").Some? && Lookup(prompts, "categorization").Some? && Lookup(prompts, "action_extraction").Some?
    ensures var p := SavedPrompts(prompts, category, action, reply);
      |p.members| == |prompts.members| && forall i :: 0 <= i < |p.members| ==> p.members[i].key == prompts.members[i].key
  {
    var ms := prompts.members;
    var p1 := Put(ms, "auto_reply", JStr(reply));
    var p2 := Put(p1, "categorization", JStr(category));
    PutShape(ms, "auto_reply", JStr(reply));
    PutGet(ms, "auto_reply", JStr(reply), "categorization");
    PutGet(ms, "auto_reply", JStr(reply), "action_extraction");
    PutShape(p1, "categorization", JStr(category));
    PutGet(p1, "categorization", JStr(category), "action_extraction");
    PutShape(p2, "action_extraction", JStr(action));
  }

  /** The inbox with `reply` written into email `s`: still a well-formed inbox. */
  function WithReply(es: seq<Json>, s: nat, reply: string): (r: seq<Json>)
    requires AllWellFormed(es) && s < |es| && es[s].JObj?
    ensures r == es[s := SetField(es[s], "reply", JStr(reply))]
    ensures AllWellFormed(r)
  {
    SetFieldWellFormed(es[s], "reply", JStr(reply));
    es[s := SetField(es[s], "reply", JStr(reply))]
  }

  /** The record "Save to Drafts" appends. */
  function DraftRecord(recipient: string, subject: string, body: string, timestamp: string): (r: Json)
    ensures WellFormed(r)
  {
    var ms := [Member("recipient", JStr(recipient)), Member("subject", JStr(subject)),
               Member("body", JStr(body)), Member("timestamp", JStr(timestamp))];
    assert DistinctKeys(ms);
    JObj(ms)
  }

  datatype Role = User | Assistant

  /** One chat message, `{"role": ..., "message": ...}`. */
  datatype Msg = Msg(role: Role, message: string)

  /** One question put to the language model, by the call that asks it. */
  datatype Request =
      /** `process_email(content, instruction)`. */
    | EmailQuestion(content: string, instruction: Json)
      /** `generate_draft(instructions, recipient, subject)`. */
    | DraftQuestion(instructions: string, recipient: string, subject: string)
      /** `process_global_query(inbox, query)`. */
    | InboxQuestion(inbox: seq<Json>, query: string)

  /** What one chat turn adds: the user's prompt and the answer, or nothing when the prompt is empty. */
  function Turn(prompt: string, response: string): (r: seq<Msg>)
    ensures prompt == [] <==> r == []
    ensures prompt != [] ==> |r| == 2 && r[0] == Msg(User, prompt) && r[1] == Msg(Assistant, response)
  {
    if prompt == [] then [] else [Msg(User, prompt), Msg(Assistant, response)]
  }

  /** Appending the two messages one at a time appends the turn. */
  lemma TurnAppend(before: seq<Msg>, prompt: string, response: string)
    requires prompt != []
    ensures before + [Msg(User, prompt)] + [Msg(Assistant, response)] == before + Turn(prompt, response)
  {
  }

  /** `for email in load_payload("mock_inbox.json")`: a list's items; the default `{}` has none. */
  function Listed(v: Json): (r: seq<Json>)
    ensures v.JArr? ==> r == v.items
    ensures !v.JArr? ==> r == []
    ensures WellFormed(v) ==> AllWellFormed(r)
  {
    if v.JArr? then v.items else []
  }

  /** The session state as one value, for saying what a handler leaves alone. */
  datatype View = View(
    emails: seq<Json>, prompts: Json, selected: Option<nat>, emailChats: map<Json, seq<Msg>>,
    globalChat: seq<Msg>, composeMode: bool, newDraftBody: Option<string>, drafts: seq<Json>)

  // ---------------------------------------------------------------------
  // The session

  class Session {
    var emails: seq<Json>
    var prompts: Json
    /** `selected_email`, an alias of one element of `emails`, kept as its index. */
    var selected: Option<nat>
    var emailChats: map<Json, seq<Msg>>
    var globalChat: seq<Msg>
    var composeMode: bool
    var newDraftBody: Option<string>
    var drafts: seq<Json>
    const store: PayloadStore

    function Snapshot(): View
      reads this
    {
      View(emails, prompts, selected, emailChats, globalChat, composeMode, newDraftBody, drafts)
    }

    ghost predicate Valid()
      reads this
    {
      && (selected.Some? ==> selected.value < |emails|)
      && AllWellFormed(emails)
      && WellFormed(prompts)
      && AllWellFormed(drafts)
    }

    /** `if st.session_state["selected_email"]`: an email is selected and it is a non-empty dict. */
    predicate Shown()
      reads this
    {
      selected.Some? && selected.value < |emails| && Truthy(emails[selected.value])
    }

    /** The first run of the script: the three payloads are loaded and everything else starts empty. */
    constructor(store: PayloadStore)
      ensures this.store == store
      ensures emails == Listed(LoadPayload(store.files, InboxFile))
      ensures prompts == LoadPayload(store.files, PromptsFile)
      ensures drafts == Listed(LoadPayload(store.files, DraftsFile))
      ensures selected.None? && emailChats == map[] && globalChat == [] && !composeMode && newDraftBody.None?
      ensures Valid()
    {
      this.store := store;
      var inbox := store.Load(InboxFile);
      var loaded := store.Load(PromptsFile);
      var composed := store.Load(DraftsFile);
      emails := Listed(inbox);
      prompts := loaded;
      selected := None;
      emailChats := map[];
      globalChat := [];
      composeMode := false;
      newDraftBody := None;
      drafts := Listed(composed);
    }

    /**
     * "Process Emails": asks for the categorisation and the action item of
     * every email in turn, stores the parsed answers on it, then saves the
     * inbox once.
     */
    method BulkProcess(replies: seq<string>) returns (asked: seq<Request>)
      requires Valid() && Records(emails)
      requires |replies| == 2 * |emails|
      requires forall i :: 0 <= i < |emails| ==> Formattable(emails[i])
      requires emails != [] ==> Lookup(prompts, "categorization").Some? && Lookup(prompts, "action_extraction").Some?
      modifies this, store
      ensures Snapshot() == old(Snapshot()).(emails := emails)
      ensures Valid()
      ensures emails == ProcessAll(old(emails), replies)
      ensures asked == Questions(Texts(old(emails)), Prompt(prompts, "categorization"), Prompt(prompts, "action_extraction"))
      ensures store.files == old(store.files)[InboxFile := Encode(JArr(emails))]
      ensures store.writes == old(store.writes) + [InboxFile]
    {
      var processed;
      processed, asked := ProcessInbox(emails, prompts, replies);
      ProcessAllWellFormed(emails, replies);
      emails := processed;
      store.Save(InboxFile, JArr(emails));
    }

    /** "Save Prompts": the three texts of the form replace the three prompts, then the prompts are saved. */
    method SavePrompts(category: string, action: string, reply: string)
      requires Valid() && prompts.JObj?
      requires Lookup(prompts, "categorization").Some? && Lookup(prompts, "action_extraction").Some? && Lookup(prompts, "auto_reply").Some?
      modifies this, store
      ensures Snapshot() == old(Snapshot()).(prompts := prompts)
      ensures Valid()
      ensures prompts == SavedPrompts(old(prompts), category, action, reply)
      ensures store.files == old(store.files)[PromptsFile := Encode(prompts)]
      ensures store.writes == old(store.writes) + [PromptsFile]
    {
      SetFieldWellFormed(prompts, "auto_reply", JStr(reply));
      prompts := SetField(prompts, "auto_reply", JStr(reply));
      SetFieldWellFormed(prompts, "categorization", JStr(category));
      prompts := SetField(prompts, "categorization", JStr(category));
      SetFieldWellFormed(prompts, "action_extraction", JStr(action));
      prompts := SetField(prompts, "action_extraction", JStr(action));
      store.Save(PromptsFile, prompts);
    }

    /** "Compose New" flips compose mode. */
    method ToggleCompose()
      requires Valid()
      modifies this
      ensures Snapshot() == old(Snapshot()).(composeMode := !old(composeMode))
      ensures Valid()
    {
      composeMode := !composeMode;
    }

    /**
     * "Generate Draft": asks for a body, and keeps the answer `draft`, only
     * when recipient, subject and instructions are all filled in.
     */
    method GenerateDraft(recipient: string, subject: string, instructions: string, draft: string) returns (asked: Option<Request>)
      requires Valid() && composeMode
      modifies this
      ensures Valid()
      ensures recipient != [] && subject != [] && instructions != [] ==>
        && Snapshot() == old(Snapshot()).(newDraftBody := Some(draft))
        && asked == Some(DraftQuestion(instructions, recipient, subject))
      ensures !(recipient != [] && subject != [] && instructions != []) ==> Snapshot() == old(Snapshot()) && asked.None?
    {
      asked := None;
      if recipient != [] && subject != [] && instructions != [] {
        asked := Some(DraftQuestion(instructions, recipient, subject));
        newDraftBody := Some(draft);
      }
    }

    /** "Save to Drafts": appends the one new record, saves the drafts, and leaves compose mode with no body. */
    method SaveDraft(recipient: string, subject: string, timestamp: string)
      requires Valid() && composeMode && newDraftBody.Some?
      modifies this, store
      ensures Snapshot() == old(Snapshot()).(drafts := drafts, composeMode := false, newDraftBody := None)
      ensures Valid()
      ensures drafts == old(drafts) + [DraftRecord(recipient, subject, old(newDraftBody).value, timestamp)]
      ensures store.files == old(store.files)[DraftsFile := Encode(JArr(drafts))]
      ensures store.writes == old(store.writes) + [DraftsFile]
    {
      var record := DraftRecord(recipient, subject, newDraftBody.value, timestamp);
      drafts := drafts + [record];
      store.Save(DraftsFile, JArr(drafts));
      composeMode := false;
      newDraftBody := None;
    }

    /** "Cancel": leaves compose mode and drops a generated body. */
    method CancelCompose()
      requires Valid()
      modifies this
      ensures Snapshot() == old(Snapshot()).(composeMode := false, newDraftBody := None)
      ensures Valid()
    {
      composeMode := false;
      if newDraftBody.Some? {
        newDraftBody := None;
      }
    }

    /** "Open": the email becomes the selected one. */
    method SelectEmail(i: nat)
      requires Valid() && i < |emails|
      modifies this
      ensures Snapshot() == old(Snapshot()).(selected := Some(i))
      ensures Valid()
    {
      selected := Some(i);
    }

    /**
     * The inbox loop at each run: every email whose id is the selected
     * email's and that is not yet read is marked read, and the inbox is saved
     * after each one marked.
     */
    method MarkSelectedRead()
      requires Valid() && Records(emails)
      requires Shown() ==> forall i :: 0 <= i < |emails| ==> Lookup(emails[i], "id").Some?
      modifies this, store
      ensures Snapshot() == old(Snapshot()).(emails := emails)
      ensures Valid()
      ensures !old(Shown()) ==> emails == old(emails) && store.files == old(store.files) && store.writes == old(store.writes)
      ensures old(Shown()) ==>
        var id := Field(old(emails)[old(selected).value], "id");
        var n := MarkCount(old(emails), id);
        && emails == MarkAll(old(emails), id)
        && store.writes == old(store.writes) + Repeat(InboxFile, n)
        && (n == 0 ==> store.files == old(store.files))
        && (n > 0 ==> store.files == old(store.files)[InboxFile := Encode(JArr(emails))])
    {
      emails := MarkInbox(store, emails, selected);
    }

    /** "Generate Reply": asks for a reply to the selected email with the auto-reply prompt, stores it on the email and saves the inbox. */
    method GenerateReply(reply: string) returns (asked: Request)
      requires Valid() && Shown() && Formattable(emails[selected.value])
      requires Lookup(prompts, "auto_reply").Some?
      modifies this, store
      ensures Snapshot() == old(Snapshot()).(emails := emails)
      ensures Valid()
      ensures var s := old(selected).value;
        && asked == EmailQuestion(FormatEmailForReply(old(emails)[s]), Field(prompts, "auto_reply"))
        && emails == old(emails)[s := SetField(old(emails)[s], "reply", JStr(reply))]
      ensures store.files == old(store.files)[InboxFile := Encode(JArr(emails))]
      ensures store.writes == old(store.writes) + [InboxFile]
    {
      var s := selected.value;
      var e := emails[s];
      asked := EmailQuestion(FormatEmailForReply(e), Field(prompts, "auto_reply"));
      emails := WithReply(emails, s, reply);
      ghost var view := Snapshot();
      assert view == old(Snapshot()).(emails := emails);
      store.Save(InboxFile, JArr(emails));
      assert Snapshot() == view;
    }

    /** "Save Draft" under a reply: the edited text replaces the reply and the inbox is saved. */
    method SaveEditedReply(edited: string)
      requires Valid() && Shown() && Set(emails[selected.value], "reply")
      modifies this, store
      ensures Snapshot() == old(Snapshot()).(emails := emails)
      ensures Valid()
      ensures var s := old(selected).value;
        emails == old(emails)[s := SetField(old(emails)[s], "reply", JStr(edited))]
      ensures store.files == old(store.files)[InboxFile := Encode(JArr(emails))]
      ensures store.writes == old(store.writes) + [InboxFile]
    {
      var s := selected.value;
      emails := WithReply(emails, s, edited);
      ghost var view := Snapshot();
      assert view == old(Snapshot()).(emails := emails);
      store.Save(InboxFile, JArr(emails));
      assert Snapshot() == view;
    }

    /**
     * The chat under the selected email: its transcript is created empty if
     * there is none, and a non-empty prompt adds the prompt and the answer,
     * asked about the email's text.
     */
    method EmailChat(prompt: string, response: string) returns (asked: Option<Request>)
      requires Valid() && Shown() && Lookup(emails[selected.value], "id").Some?
      requires prompt != [] ==> Formattable(emails[selected.value])
      modifies this
      ensures Snapshot() == old(Snapshot()).(emailChats := emailChats)
      ensures Valid()
      ensures var key := Field(emails[selected.value], "id");
        var before := if key in old(emailChats) then old(emailChats)[key] else [];
        && emailChats == old(emailChats)[key := before + Turn(prompt, response)]
        && (prompt == [] ==> asked.None?)
        && (prompt != [] ==> asked == Some(EmailQuestion(FormatEmail(emails[selected.value]), JStr(prompt))))
    {
      var key := Field(emails[selected.value], "id");
      ghost var before := if key in emailChats then emailChats[key] else [];
      if key !in emailChats {
        emailChats := emailChats[key := []];
      }
      assert emailChats == old(emailChats)[key := before];
      asked := None;
      if prompt != [] {
        emailChats := emailChats[key := emailChats[key] + [Msg(User, prompt)]];
        Overwrite(old(emailChats), key, before, before + [Msg(User, prompt)]);
        asked := Some(EmailQuestion(FormatEmail(emails[selected.value]), JStr(prompt)));
        emailChats := emailChats[key := emailChats[key] + [Msg(Assistant, response)]];
        Overwrite(old(emailChats), key, before + [Msg(User, prompt)], before + [Msg(User, prompt)] + [Msg(Assistant, response)]);
        TurnAppend(before, prompt, response);
      } else {
        assert before + Turn(prompt, response) == before;
      }
    }

    /**
     * The global agent: a non-empty prompt is asked about the whole inbox,
     * and the prompt and the answer are added to the global transcript.
     */
    method GlobalChat(prompt: string, response: string) returns (asked: Option<Request>)
      requires Valid()
      modifies this
      ensures Snapshot() == old(Snapshot()).(globalChat := globalChat)
      ensures Valid()
      ensures globalChat == old(globalChat) + Turn(prompt, response)
      ensures prompt == [] <==> asked.None?
      ensures prompt != [] ==> asked == Some(InboxQuestion(emails, prompt))
    {
      asked := None;
      if prompt != [] {
        asked := Some(InboxQuestion(emails, prompt));
        globalChat := globalChat + [Msg(User, prompt)];
        globalChat := globalChat + [Msg(Assistant, response)];
      }
    }
  }
}
