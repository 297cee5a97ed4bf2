# Email assistant: parsers, payload store and session state in Dafny

This project models the core of a Streamlit email assistant and proves
properties of the model. The assistant has three parts:

- **`services/utils.py`** holds two parsers that turn a language model's
  free-text reply into data.
  - `parse_json_output` takes the body of a Markdown code fence, strips it,
    cuts it from the first `{` to the last `}`, and decodes it. On an empty
    reply or a decoding failure it returns an error record instead.
  - `parse_list_output` tries to decode the span from the first `[` to the
    last `]`. If that fails, it falls back to comma-separated tags.
- **`services/data_manager.py`** holds the JSON payload files under the data
  directory.
  - `load_payload` reads a file, stripped and decoded. A missing, blank or
    undecodable file gives `[]` when the name contains `compose`, and `{}`
    otherwise.
  - `save_data` overwrites one file.
- **`app.py`** holds the session state: the inbox, the prompts, the selected
  email, the chats and the compose flow. Its button and chat handlers change
  that state in place and save it through the payload store.

The Dafny modules follow that structure:

- `Wrappers`: `Option`.
- `Text`: the Python `str` operations the code uses, namely `strip`,
  `find`/`rfind`, `in`, `replace` and `split`. A character count, `Count`,
  is used only to state what these keep.
- `Json`: the values `json.loads` returns, plus Python dict semantics on
  objects.
  - An object is a list of members in insertion order.
  - `d[k] = v` keeps a present key's position and appends a new key.
  - It also holds a compact encoder, a decoder for the JSON grammar, and
    the round trip `Decode(Encode(v)) == Some(v)` for every value with
    distinct keys.
- `Utils`: the two parsers.
  - Both regular-expression searches are written as first-occurrence
    searches.
  - `FenceMatchLeftmostShortest` proves the match found is the one a lazy
    `(.*?)` DOTALL search reports.
- `DataManager`: `LoadPayload` as a function of the file map, and the
  `PayloadStore` class whose `files` map `Save` overwrites.
  - The class keeps a ghost log of the names written, so the model can
    count saves.
- `App`: the prompt builders, Python's `repr`/`str` of JSON values, and
  the `Session` class.
  - Each `Session` method models one handler and states its whole new
    state through `Snapshot()`.
  - The inbox loops are module-level methods, `ProcessInbox` and
    `MarkInbox`. Each is proved against a specification function:
    `ProcessAll` and `Questions` for the first, `MarkAll` and `MarkCount`
    for the second.

The language model and the clock are input parameters.

- Every reply of the model (categorisation, action item, reply draft, chat
  answer, composed draft) is a plain string argument.
- The handlers that ask the model something return what they asked, as
  `Request` values, one kind per call: `EmailQuestion` for `process_email`
  (the text and the prompt or question it comes with), `DraftQuestion` for
  `generate_draft` and `InboxQuestion` for `process_global_query`.
- The timestamp of a saved draft is a string argument.

## Model

| member | source | states |
|---|---|---|
| Utils.ParseJsonOutput | services/utils.py:4-37 | an empty reply gives exactly `{"error": "Empty response"}`; otherwise the decoded candidate is returned unchanged, or, when it does not decode, `{"error": "Failed to parse JSON", "raw": c}` with `c` exactly the candidate text; the result is always a well-formed value |
| Utils.FailedObject | services/utils.py:37 | the failure record is a well-formed dict whose `error` reads "Failed to parse JSON" and whose `raw` reads the candidate |
| Utils.ErrorObject | services/utils.py:9 | the error record is a well-formed dict whose `error` reads the message |
| Utils.CloseFrom | services/utils.py:13-14 | the closing fence found is at or after the start, is an occurrence of three backticks, and none occurs between; `None` exactly when none follows |
| Utils.FenceMatch | services/utils.py:13-14 | a match found is a match: the opening fence at its start, the closing fence after it |
| Utils.FenceMatchLeftmostShortest | services/utils.py:13-21 | whenever any match exists one is found, no match starts earlier, and among matches starting there none closes earlier (lazy `.*?`) |
| Utils.FenceBody | services/utils.py:14-16 | with no match the text is kept as it is |
| Utils.ExtractFenced | services/utils.py:12-21 | a reply with no three backticks at all is kept unchanged |
| Utils.FencedBody | services/utils.py:12-16 | in `pre + "```json" + body + "```" + post` with no backtick in `pre` or `body`, the working text becomes exactly `body` |
| Utils.FencedMatch | services/utils.py:13-14 | the match in such a reply starts right after `pre` and closes right after `body` |
| Utils.Span | services/utils.py:27-31 | `None` exactly when one of the two characters is missing; otherwise a slice of the text, and a non-empty span starts with the opening and ends with the closing character |
| Utils.SpanCrossed | services/utils.py:27-31 | when the last closing character comes before the first opening one, the span is present and empty, as Python's slice `s[a:b+1]` with `b < a` is |
| Utils.SpanAt | services/utils.py:27-31 | the span runs from the first opening character to the last closing one, inclusive |
| Utils.BraceSpanStrip | services/utils.py:24-31 | stripping keeps the span from the first `{` to the last `}` |
| Utils.JsonCandidate | services/utils.py:23-31 | the text handed to the decoder is a slice of the stripped, unfenced reply; it is that whole text when a `{` or a `}` is missing, and otherwise, if non-empty, runs from a `{` to a `}` |
| Utils.SpanShifted | services/utils.py:24-31 | a span that lies inside a window of a text is also the window's span |
| Utils.BracedSpan | services/utils.py:27-31 | a braced text is its own brace span |
| Utils.SpanInProse | services/utils.py:24-31 | in `pre + "{…}" + post` with no `{` in `pre` and no `}` in `post`, the stripped text's span is the braced part |
| Utils.ParseJsonOutputFenced | services/utils.py:11-35 | a reply that fences an encoded object in "```json" … "```", with whitespace inside and any backtick-free text before, parses back to that object |
| Utils.ParseJsonOutputInProse | services/utils.py:23-35 | a reply with no backticks that holds an encoded object between prose with no `{` before and no `}` after parses back to that object |
| Utils.CleanText | services/utils.py:58 | the four `replace` calls give exactly `Unquote` of the text: every bracket and quote is deleted, and every other character is kept, in its order |
| Utils.Unquote | services/utils.py:58 | the reference filter leaves no bracket or quote and is never longer than its input |
| Utils.ReplacesUnquote | services/utils.py:58 | deleting `[`, `]`, `"` and `'` one after the other is the same as the one-pass filter |
| Utils.UnquoteAppend | services/utils.py:58 | cleaning keeps order: a concatenation cleans to the cleaned parts, in turn |
| Utils.UnquoteOne | services/utils.py:58 | one character is deleted exactly when it is a bracket or a quote |
| Utils.UnquoteKeeps | services/utils.py:58 | a character that is neither a bracket nor a quote is in the cleaned text exactly when it is in the text |
| Utils.UnquoteCount | services/utils.py:58 | cleaning keeps the number of each such character, commas included |
| Utils.UnquoteSelf | services/utils.py:58 | a text with no bracket or quote is left unchanged |
| Utils.CleanTextUnquoted | services/utils.py:58 | the four `replace` calls leave a text with no bracket or quote unchanged |
| Utils.CleanQuotes | services/utils.py:58 | a run of brackets and quotes cleans to nothing |
| Utils.CleanWrapped | services/utils.py:58 | a clean text between runs of brackets and quotes, after a clean lead, cleans to the lead followed by the text |
| Utils.CleanPieces | services/utils.py:58-61 | one cleaned piece per piece, each the cleaned text of that piece |
| Utils.CleanJoin | services/utils.py:58-61 | cleaning comma-joined pieces is joining the cleaned pieces |
| Utils.Keep | services/utils.py:61 | at most as many tags as pieces, each non-empty and stripped, and every character of a tag comes from a piece |
| Utils.KeepAppend | services/utils.py:61 | the comprehension keeps source order: the tags of two runs of pieces are the tags of each, in turn |
| Utils.SplitTags | services/utils.py:58-61 | every fallback tag is non-empty, stripped, and free of `,`, `[`, `]`, `"` and `'`; there is at most one more tag than commas |
| Utils.JsonList | services/utils.py:47-53 | a list is returned only when the bracket span exists and decodes to that list |
| Utils.JsonListFails | services/utils.py:50-55 | a bracket span that decodes at all decodes to a list, so the JSON path falls back exactly when decoding fails |
| Utils.ParseListOutput | services/utils.py:39-61 | an empty reply gives `[]`; when the bracket span decodes, exactly the decoded list; otherwise the fallback tags as strings, in order; the result is well-formed |
| Utils.ParseListOutputJson | services/utils.py:47-53 | a reply holding an encoded list, with no `[` before it and no `]` after it, yields that list's items unchanged |
| Utils.ParseListOutputSplit | services/utils.py:57-61 | comma-joined pieces without brackets or quotes come back as their stripped non-empty pieces, in order |
| Utils.ParseListOutputFallback | services/utils.py:57-61 | for any comma-separated pieces whose bracket span does not decode, the tags are the pieces with brackets and quotes deleted, stripped, the empty ones dropped, in the reply's order |
| Utils.FallbackPair | services/utils.py:57-61 | the same for a reply of two comma-free pieces |
| Utils.FallbackTwo | services/utils.py:57-61 | two pieces that clean to `a` and ` b`, in a reply whose list path fails, give the tags `a` and `b` |
| Utils.DecodeSingleQuoted | services/utils.py:53-55 | a list whose first item opens with a single quote does not decode |
| Utils.QuotedNotJson | services/utils.py:47-55 | a reply from `['` to a final `]` takes the fallback |
| Utils.QuotedTags | services/utils.py:47-61 | Python-style quoted tags `['a', 'b']` fail to decode and come back as the tags `a` and `b`, in that order |
| Utils.ParseListOutputQuoted | services/utils.py:47-61 | `"['A', 'B']"` yields `["A", "B"]` |
| Utils.TruncatedTags | services/utils.py:47-61 | a list cut short before its `]`, `["a", "b"`, has no bracket span and comes back as the tags `a` and `b`, in that order |
| Utils.KeptTwo | services/utils.py:61 | of the pieces `a` and ` b`, the comprehension keeps `a` and `b` |
| Utils.ParseListOutputExample | services/utils.py:47-61 | `"A, B, C"` yields `["A", "B", "C"]` |
| Utils.ThreeTags | services/utils.py:58-61 | three visible one-character tags after ", " come back as those tags |
| Utils.ParseListOutputEmptyTag | services/utils.py:47-53 | on the JSON path the fallback's guarantees do not hold: `[""]` yields one empty string |
| Text.Strip | services/utils.py:24 | Python's `strip()`: the result has no whitespace at either end, is the slice of the input starting after its leading whitespace, has only whitespace after it, and is empty exactly when the input is all whitespace |
| Text.StripTrimmed | services/data_manager.py:23 | stripping a text with no whitespace at either end gives it back |
| Text.StripKeeps | services/utils.py:61 | every character `strip()` keeps comes from its argument |
| Text.StripWindow | services/utils.py:24-28 | two non-whitespace characters, and all between them, survive `strip()` at an offset of the leading whitespace |
| Text.FindChar | services/utils.py:27 | `find` of a character: `None` exactly when it is absent, else an index holding it with none before |
| Text.RFindChar | services/utils.py:28 | `rfind` of a character: `None` exactly when it is absent, else an index holding it with none after |
| Text.Find | services/utils.py:12-17 | `find` of a substring: the result is an occurrence with none earlier, and `None` means no occurrence anywhere |
| Text.FindAt | services/utils.py:12-14 | an occurrence with no character `pat[0]` before it is the first |
| Text.ContainsNot | services/utils.py:12-17 | a text without `pat[0]` does not contain `pat` |
| Text.RemoveChar | services/utils.py:58 | `replace(c, "")`: no `c` is left, every other character and its count are kept |
| Text.RemoveCharAppend | services/utils.py:58 | `replace(c, "")` keeps order: it distributes over concatenation |
| Text.RemoveCharOne | services/utils.py:58 | one character is deleted exactly when it is `c` |
| Text.Split | services/utils.py:61 | `split(sep)`: one piece more than separators, no piece holds the separator, and joining the pieces gives the text back |
| Text.SplitJoin | services/utils.py:61 | splitting undoes joining when no piece holds the separator |
| Json.Get | app.py:157 | `d.get(k)` is `None` exactly when no entry has key `k`; otherwise it is the value of the first entry with key `k` |
| Json.Put | app.py:158 | `d[k] = v` keeps the length or appends the one new entry |
| Json.PutGet | app.py:158 | after `d[k] = v`, `k` reads `v` and every other key reads as before |
| Json.PutShape | app.py:83-85 | `d[k] = v` appends exactly when `k` is new, and otherwise keeps every key at its position |
| Json.PutFrom | app.py:158 | every entry after `d[k] = v` is the new one or an old one |
| Json.PutDistinct | app.py:158 | `d[k] = v` keeps keys distinct |
| Json.PutWellFormed | app.py:60-61 | `d[k] = v` of a well-formed value keeps a well-formed dict well-formed |
| Json.DictFrom | services/utils.py:35 | building a dict from pairs gives distinct keys, each entry from the start or from the pairs |
| Json.Dict | services/utils.py:35 | `dict(pairs)` has distinct keys and only entries from the pairs |
| Json.DictFromDistinct | services/utils.py:35 | pairs with distinct keys are all kept, in order |
| Json.Decode | services/utils.py:35 | a decoded value is well-formed: every object in it has distinct keys |
| Json.DecodeEncode | services/data_manager.py:46-48 | `json.loads` of what `json.dump` writes gives the value back, for every well-formed value |
| Json.Encode | services/data_manager.py:48 | `json.dumps` of a value is never empty, starts and ends with a character that is not whitespace, and its first character tells whether a string, list, object or number follows |
| Json.EncodeItems | services/data_manager.py:48 | the list body is empty exactly for the empty list |
| Json.EncodeMembers | services/data_manager.py:48 | the object body is empty exactly for the empty object |
| Json.DecodeBracket | services/utils.py:52-53 | a text starting with `[` decodes, if at all, to a list |
| Json.DecodeBrace | services/utils.py:31-35 | a text starting with `{` decodes, if at all, to an object |
| DataManager.DefaultFor | services/data_manager.py:26 | the default is `[]` exactly when the name contains "compose", and `{}` exactly when it does not |
| DataManager.LoadPayload | services/data_manager.py:10-31 | a missing file, a blank file and an undecodable file each give the name's default, and otherwise the decoded stripped content; the result is well-formed |
| DataManager.EncodeTrimmed | services/data_manager.py:23 | stripping a saved file's text changes nothing |
| DataManager.SaveThenLoad | services/data_manager.py:20-48 | loading a name right after saving `d` under it gives `d` back |
| DataManager.PayloadStore.constructor | services/data_manager.py:7 | the store starts with the given files and no writes |
| DataManager.PayloadStore.Load | services/data_manager.py:10-31 | the loaded value is `LoadPayload` of the current files, and the store is not changed |
| DataManager.PayloadStore.Save | services/data_manager.py:33-48 | only the one file changes, and it now holds the encoding of the data; one write is logged |
| App.SetField | app.py:158 | `v[k] = x` gives a non-empty dict in which `k` reads `x` |
| App.SetFieldOther | app.py:158 | `v[k] = x` leaves any other key as it was |
| App.SetFieldOthers | app.py:60-61 | `v[k] = x` leaves every other key as it was |
| App.SetFieldWellFormed | app.py:204 | `v[k] = x` keeps a well-formed dict well-formed |
| App.Truthy | app.py:153-156 | Python's `bool`: false exactly for `None`, `False`, `0`, `""`, `[]` and `{}` |
| App.ReprStr | app.py:15 | `repr` of a string is quoted with the same quote at both ends, and it picks `"` exactly when the text holds `'` and no `"` |
| App.Repr | app.py:15 | `repr` is never empty; a list is in brackets, a dict in braces, a string in quotes |
| App.Show | app.py:11 | an f-string shows a string as it is and any other value as its non-empty `repr` |
| App.ShowEmpty | app.py:15 | the default tags and action item show as `[]` and `{}` |
| App.FormatEmail | app.py:9-11 | the prompt opens with the sender's name line and the sender's email label, and ends with the body line |
| App.FormatEmailForReply | app.py:13-15 | the reply prompt starts with the whole plain prompt and ends with the action-item line |
| App.ReprPlain | app.py:15 | `repr` writes a text of plain characters between single quotes, unchanged |
| App.ReprCharsPlain | app.py:15 | plain characters are written as themselves |
| App.ShowTags | app.py:15 | a list of two plain tags appears in the reply prompt as `['a', 'b']` |
| App.FormatEmailForReplyPrefix | app.py:9-15 | the reply prompt is exactly the plain prompt followed by the tags line and the action-item line |
| App.FormatEmailForReplyUnprocessed | app.py:13-15 | an email with neither tags nor an action item is asked about as the plain prompt followed by `Tags : []` and `Action Item : {}` |
| App.FormatEmailSame | app.py:9-11 | `format_email` reads nothing but the five fields |
| App.FormatEmailIgnores | app.py:9-11 | writing any other field leaves the text that `format_email` builds as it was |
| App.Processed | app.py:60-61 | a processed email is a dict holding the parsed tags and the parsed action item |
| App.ProcessedFields | app.py:60-61 | a processed email keeps every other field as before |
| App.ProcessedWellFormed | app.py:60-61 | processing keeps an email well-formed |
| App.ProcessedFormat | app.py:56-61 | processing keeps the text `format_email` builds, so a second run asks the same questions |
| App.ProcessAll | app.py:56-61 | processing keeps the number of emails, and each stays a dict |
| App.ProcessAllFields | app.py:56-61 | email `i`, at the same position, holds the tags and action item parsed from its own two replies, and every other field as before |
| App.ProcessAllWellFormed | app.py:56-64 | processing keeps every email well-formed |
| App.ProcessAllAt | app.py:60-61 | email `i` of the target is email `i` processed with replies `2i` and `2i+1` |
| App.Texts | app.py:57-58 | one prompt text per email |
| App.Questions | app.py:56-58 | two questions per email |
| App.QuestionsAt | app.py:57-58 | question `2i` categorises email `i` and question `2i+1` asks for its action item |
| App.QuestionsAppend | app.py:56-58 | one more email appends exactly its two questions |
| App.AskedNext | app.py:56-58 | one pass of the loop extends the questions so far by the next email's two |
| App.ProcessInbox | app.py:56-61 | the loop's emails are exactly `ProcessAll` of the inbox, and it asks exactly `Questions` of the inbox's texts, in order |
| App.MarkOne | app.py:157-158 | marking keeps a dict a dict |
| App.MarkAll | app.py:153-158 | marking keeps the number of emails, and each stays a dict |
| App.MarkCount | app.py:153-159 | the loop saves at most once per email, and not at all exactly when no email is to be marked |
| App.MarkAllEffect | app.py:153-158 | an email with the selected id afterwards reads `is_read` true, unless it already read as true and is untouched; an email with another id is untouched; no field but `is_read` changes; nothing is left to mark |
| App.MarkAllIdempotent | app.py:157-159 | a second pass changes nothing and saves nothing |
| App.NoneToMark | app.py:157-159 | with nothing to mark there is no save |
| App.MarkCountDistinct | app.py:153-159 | with distinct ids the inbox is saved at most once |
| App.MarkCountNext | app.py:153-159 | one more email adds one save exactly when it is marked |
| App.MarkTarget | app.py:153-159 | the loop's target has as many emails as the inbox |
| App.MarkTargetInbox | app.py:153-159 | the target is a well-formed inbox |
| App.HitIff | app.py:154-157 | an email is marked exactly when an email is shown and this one has its id and is not read, even after earlier passes marked the selected email itself |
| App.MarkAt | app.py:154-159 | one pass: a hit email gets `is_read` true and the inbox is saved once; a miss changes nothing and saves nothing |
| App.MarkInbox | app.py:153-159 | with no email shown, nothing changes and nothing is saved; otherwise the inbox becomes `MarkAll` of the selected id, with one save per email marked, and the file holds the final inbox when there was at least one |
| App.RepeatNext | app.py:159 | one more save after `n` saves is `n + 1` saves |
| App.SavedPrompts | app.py:83-85 | the saved prompts are a dict in which the three prompts read the form's texts |
| App.SavedPromptsFields | app.py:83-85 | every other key is as before |
| App.SavedPromptsShape | app.py:83-85 | when all three prompts were present, no key is added and every key keeps its position |
| App.DraftRecord | app.py:129-134 | the new draft record is a well-formed dict |
| App.Turn | app.py:271-281 | an empty prompt adds nothing; a non-empty one adds exactly the user's prompt, then the answer |
| App.Listed | app.py:24-43 | iterating a loaded payload gives a list's items, and nothing for the `{}` default; a well-formed payload gives well-formed emails |
| App.WithReply | app.py:203-204 | writing a reply into one email keeps the inbox well-formed and changes only that email |
| App.Session.constructor | app.py:24-43 | the inbox, prompts and drafts are loaded from their files; nothing is selected, the chats are empty, compose mode is off and there is no draft body |
| App.Session.BulkProcess | app.py:56-64 | only the emails change, to `ProcessAll` of the old ones; the questions asked are those of the old emails in order; the inbox file holds the new emails after exactly one save |
| App.Session.SavePrompts | app.py:82-86 | only the prompts change, to `SavedPrompts` of the old ones, and the prompts file holds them after exactly one save |
| App.Session.ToggleCompose | app.py:97-98 | compose mode flips, nothing else changes, and the session invariant is kept |
| App.Session.GenerateDraft | app.py:115-121 | with all three fields filled in, `generate_draft` is asked with the instructions, recipient and subject, and only the draft body changes, to its answer; otherwise nothing is asked and nothing changes; the session invariant is kept |
| App.Session.SaveDraft | app.py:128-140 | the drafts gain exactly one record at the end, made of the recipient, the subject, the generated body and the timestamp; the drafts file holds them after exactly one save; compose mode is off and the body is gone; nothing else changes |
| App.Session.CancelCompose | app.py:142-146 | compose mode is off, the body is gone, nothing else changes, and the session invariant is kept |
| App.Session.SelectEmail | app.py:17-18 | the email becomes the selected one, nothing else changes, and the session invariant is kept |
| App.Session.MarkSelectedRead | app.py:153-159 | only the emails change; with no email shown, nothing changes and nothing is saved; otherwise the emails become `MarkAll` of the selected id, with one save per email marked |
| App.Session.GenerateReply | app.py:201-206 | the reply prompt of the selected email is asked with the auto-reply prompt; only that email changes, its `reply` set to the answer; the inbox is saved once |
| App.Session.SaveEditedReply | app.py:214-217 | only the selected email changes, its `reply` set to the edited text; the inbox is saved once |
| App.Session.EmailChat | app.py:223-244 | only the chat of the selected email's id changes: it is created empty when missing, then grows by `Turn(prompt, answer)` with the old transcript as its prefix; a non-empty prompt is asked about the email's text; the session invariant is kept |
| App.Session.GlobalChat | app.py:271-282 | only the global transcript changes: it grows by `Turn(prompt, answer)`, with the old one as its prefix; a non-empty prompt, and only that, is asked of `process_global_query` with the whole inbox; the session invariant is kept |

## Left out

- Json.Decode: numbers are integers only. A number with a fraction or an
  exponent, `NaN`, `Infinity` or `-Infinity` makes decoding fail here,
  although Python's `json.loads` accepts them. So a reply or a file holding
  one takes the error or default path in the model.
- Json.Decode: a `\u` escape of a lone surrogate makes decoding fail here. A
  Dafny `char` cannot hold one, while Python keeps it.
- Json.DecodeEncode: the file text is the compact encoding, not the
  `indent=2` layout `json.dump` writes. Every decoded value is the same
  either way.
- Equality of JSON values is structural. Python's `1 == True` and
  `1 == 1.0` do not carry over, in the id comparison at app.py:154 or in
  the chat keys at app.py:224.
- The inbox is read as a list. A file holding a dict would be iterated by
  key in Python; here it gives no emails, and a later save writes `[]`
  where Python would write `{}`.
- The drafts file is read as a list. A drafts file holding a dict makes
  `.append` fail in Python; here it gives no drafts.
- A `KeyError` is a precondition of the handler that would raise it:
  - a missing prompt, in `BulkProcess`, `SavePrompts` and `GenerateReply`;
  - a missing email field, in `format_email`, the id comparison and the
    chat key.
- The exceptions `save_data` and `load_payload` do not catch are not
  modelled: permissions, encodings, a directory that cannot be made. The
  `mkdir` at services/data_manager.py:44 is not modelled either.
- The language model is not part of this model. `services/llm_services.py`
  defines `get_llm_response` and `process_email` (lines 7 and 24);
  `generate_draft` and `process_global_query`, imported at app.py:4, are not
  defined in it, so what they send to the model is unknown. Each reply is a
  string parameter of its handler, and each call is returned as its
  arguments only:
  - `process_email`, in `BulkProcess`, `GenerateReply` and `EmailChat`;
  - `generate_draft`, in `GenerateDraft`;
  - `process_global_query`, in `GlobalChat`.
- `time.sleep`, `st.rerun`, the progress bar (a float), and every widget,
  container and markdown call of `app.py` are not modelled.
  - `time.strftime` becomes the `timestamp` argument of `SaveDraft`.
  - The form inputs become the handlers' arguments.
- Only the selected email's index is kept, not the Python alias of the list
  element. The writes at app.py:158, 204 and 215 go into `emails` at that
  index.
- `test.py` has no logic to model.
- Python's `repr` of a string escapes non-printable non-ASCII characters;
  here only ASCII control characters are escaped. This affects only how
  such text appears in the reply prompt.
- Where the source reads `prompts["categorization"]` and
  `prompts["action_extraction"]` once per email, the model reads them once
  per pass of the loop. The prompts do not change during the loop, so the
  texts asked are the same.
