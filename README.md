# Annotation session model

A Dafny model of the core of a single-page Streamlit tool for crowdsourcing
word/context annotations. A reviewer identifies themself with one of five
configured annotator ids, types a sentence, picks one of its whitespace tokens,
links the token to the sentence (the link is kept as the string
`token + " -> " + sentence`), and saves. Saving splits each pending link back
into token and sentence, inserts one row per link into a shared table, and bumps
two progress counters. Beside the word selector, the page lists every stored
context that contains the selected word.

Modules:

- `Strings`: leftmost substring search, Python's `s.split(sep)` and `sep.join`.
- `Tokenizer`: Python's `text.split()` with no argument.
- `Mappings`: the selector's value, rendering it in an f-string, and the `" -> "` encoding and decoding.
- `SqlText`: SQLite's `LIKE` without an ESCAPE clause, and `instr`.
- `AnnotationStore`: the record type, the table as an append-only sequence, and the context lookup.
- `Identity`: the allow-list gate.
- `AnnotationSession`: the session state as a class, plus the functions that specify a save.
- `AnnotationScenario`: one pass through the page (id, sentence, link, save) composed from the session's actions.

The save takes two parameters, `clock` and `commits`:

- `clock(j)` is the timestamp that `get_local_time` returns for the `j`-th insert of the save.
- `commits(j)` says whether that insert reaches its commit.

So a save that stops partway through is fully described. It stops when a link fails to unpack (the two-way unpack raises `ValueError`) or when an insert does not commit (the database call raises). Every record written is kept in the ghost field `committed` as well as in the store.

Some behaviours of the code are easy to misread; the model follows the code:

- Pending links are strings, not (token, sentence) pairs. So a sentence that itself contains `" -> "` makes the unpack fail. `ArrowBlocksSave` shows that such a link blocks every later save of the list.
- A sentence made only of whitespace passes the `if user_text:` test but has no tokens. The selector then yields `None`, and the f-string stores the word `"None"`. So a saved record's word is not always a substring of its context. `RecordShape` states the invariant the code does keep: the word is a token that occurs in the context, or it is `"None"` and the context has no tokens.
- `show_warning` is only created by the first save. The model gives it the value `false` from the start, since nothing reads it before then.
- `token_mappings` is created after the gate and `user_text` by the sentence field. The model creates both in the constructor, as `[]` and `""`, since nothing reads them earlier.

## Model

| member | source | states |
|---|---|---|
| Tokenizer.IsSpace | streamlit_app.py:83 | definition: the characters Python's `str.isspace` accepts, which `split()` with no argument treats as separators |
| Tokenizer.WordLength | streamlit_app.py:82-83 | the length of the run of non-whitespace characters at the start of the text: every character before it is non-whitespace, and the next one, if any, is whitespace |
| Tokenizer.Tokenize | streamlit_app.py:82-83 | `text.split()`: every token is non-empty and contains no Python whitespace character |
| Tokenizer.TokensInOrder | streamlit_app.py:82-83 | the tokens, concatenated left to right, are exactly the non-whitespace characters of the text in their original order |
| Tokenizer.TokenOccurs | streamlit_app.py:82-83 | every token is a substring of the text it was cut from |
| Tokenizer.SplitAtSpace | streamlit_app.py:82-83 | a whitespace character cuts the text: the tokens of the whole are the tokens of the left part followed by those of the right part |
| Tokenizer.SurroundingSpaceIgnored | streamlit_app.py:82-83 | leading and trailing whitespace do not change the tokens |
| Tokenizer.TokenizeJoin | streamlit_app.py:82-83 | joining whitespace-free words with single spaces and tokenizing again gives back the same words |
| Strings.Find | streamlit_app.py:123 | the leftmost occurrence of the pattern, with no occurrence before it; `None` exactly when the pattern does not occur |
| Strings.Split | streamlit_app.py:123 | `s.split(sep)`: at least one part; exactly one part if and only if `sep` does not occur; no part contains `sep`; every cut but the last is at the leftmost occurrence, since no occurrence of `sep` starts inside a part (with `SplitJoin`, this fixes Python's left-to-right split even for a separator that overlaps itself) |
| Strings.SplitJoin | streamlit_app.py:123 | joining the parts of a split with the separator gives back the string |
| Mappings.Selected | streamlit_app.py:144 | the selector's value: absent exactly when the sentence has no tokens, otherwise one of its tokens |
| Mappings.Render | streamlit_app.py:151 | definition: how the f-string prints the selected value, the token itself or `"None"` for no selection |
| Mappings.Encode | streamlit_app.py:151 | definition: the mapping string `token + " -> " + sentence` |
| Mappings.Decode | streamlit_app.py:123 | the unpack fails exactly when the mapping has no `" -> "` or has another one after the first; a successful unpack cuts at the leftmost `" -> "` and gives a word and a sentence that encode back to the mapping string, neither of them containing `" -> "` |
| Mappings.OverlappingSeparator | streamlit_app.py:123 | `"x -> -> y"` unpacks to `("x", "-> y")`: the cut is at the leftmost separator even though the separator overlaps itself |
| Mappings.FirstArrowAfterToken | streamlit_app.py:151 | in a mapping string whose token has no blank, the first `" -> "` starts right after the token |
| Mappings.EncodeDecode | streamlit_app.py:123 | for a blank-free token, decoding the encoding gives back (token, sentence) when the sentence has no `" -> "`, and fails when it has one |
| Mappings.RenderedSelectionNoBlank | streamlit_app.py:144 | whatever the selector yields renders without a blank: a token or the text `"None"` |
| Mappings.LinkDecodes | streamlit_app.py:144-151 | linking the token at a given position and decoding the stored string gives back that token and the sentence unchanged, unless the sentence contains `" -> "` |
| SqlText.Like | streamlit_app.py:93 | definition: SQLite's `LIKE` without an ESCAPE clause, with `%` for any run of characters, `_` for one character, and ASCII letters compared without case |
| SqlText.LikeSelf | streamlit_app.py:93 | every string is LIKE itself |
| SqlText.LikeAnything | streamlit_app.py:93 | every string is LIKE `'%'` |
| SqlText.LikeConcat | streamlit_app.py:93 | if `s1` is LIKE `p1` and `s2` is LIKE `p2`, then `s1 + s2` is LIKE `p1 + p2` |
| SqlText.Instr | streamlit_app.py:94 | `instr(s, w)` is positive exactly when `w` occurs in `s`, and then it is the 1-based position of an occurrence |
| SqlText.InstrImpliesLike | streamlit_app.py:93-95 | `instr(s, w) > 0` implies `s LIKE '%w%'`, so the position test alone decides the query |
| AnnotationStore.ContextsContaining | streamlit_app.py:91-96 | reference meaning of the lookup: only contexts of stored rows that contain the selected word, every such context, nothing when no word is selected, and no more results than rows |
| AnnotationStore.Query | streamlit_app.py:91-96 | the `LIKE ... AND instr(...) > 0` filter over the table returns exactly `ContextsContaining` |
| AnnotationStore.Store.Insert | streamlit_app.py:68-73 | a committed insert appends exactly one row and keeps every earlier row |
| AnnotationStore.Store.FindContexts | streamlit_app.py:91-100 | the lookup returns exactly the stored contexts that contain the word, and the count shown is the number of them |
| Identity.AllowList.Ids | streamlit_app.py:14-19 | the configured ids form a five-element list |
| Identity.StoreId | streamlit_app.py:29-30 | definition: one rerun's update of the remembered id, replaced by a non-empty input and kept for an empty one |
| Identity.Admitted | streamlit_app.py:33 | definition: the gate, passed when an id is remembered and it is one of the five configured ids |
| Identity.AfterInputs | streamlit_app.py:29-30 | definition: the remembered id after a series of reruns, the update applied once per input in order |
| Identity.LastNonEmpty | streamlit_app.py:29-30 | reference definition: the last non-empty input, which is one of the inputs; absent exactly when every input is empty |
| Identity.AfterInputsSnoc | streamlit_app.py:29-30 | one more rerun updates the remembered id with that rerun's input alone |
| Identity.AfterInputsIsLastNonEmpty | streamlit_app.py:29-30 | after any sequence of reruns, the remembered id is the last non-empty input, or the earlier id if every input was empty |
| Identity.SessionGate | streamlit_app.py:29-35 | from a fresh session, the workflow is entered if and only if some non-empty id was typed and the last one typed is among the five configured ids |
| AnnotationSession.CompletedFrom | streamlit_app.py:122-126 | starting at mapping `i`, the loop gets past every mapping that decodes and commits, and stops at the first one that does not, or at the end |
| AnnotationSession.Completed | streamlit_app.py:122-126 | the number of inserts a save completes: every mapping before it decodes and commits, and the mapping at it, if any, fails |
| AnnotationSession.CompletedAt | streamlit_app.py:122-126 | a save stops exactly at the first mapping that fails |
| AnnotationSession.Persisted | streamlit_app.py:122-126 | the records written for the first `n` mappings: exactly `n` of them |
| AnnotationSession.PersistedAt | streamlit_app.py:122-126 | the `j`-th record written holds the decoded word and sentence of the `j`-th mapping, the session's id and the `j`-th timestamp |
| AnnotationSession.SaveStep | streamlit_app.py:122-126 | a mapping that decodes and commits lets the save go on past it, and adds its record after the earlier ones |
| AnnotationSession.StoppedAt | streamlit_app.py:122-129 | once the loop stops, the count is `Completed`; there is no error exactly when the end was reached; otherwise the error is that of the failing mapping |
| AnnotationSession.LinkDecode | streamlit_app.py:144-151 | a link made by the link action decodes to its rendered word and its sentence, unless the sentence contains `" -> "`; this extends `Mappings.LinkDecodes` to the empty selection rendered as `"None"` |
| AnnotationSession.LinkedRecordShape | streamlit_app.py:123-126 | a record saved from a link has a token for its word that occurs in the context, or the word `"None"` and a context without tokens |
| AnnotationSession.PersistedShapes | streamlit_app.py:59-78 | every record a save writes from links carries the session's id and has the shape of `RecordShape` |
| AnnotationSession.EncodeAll | streamlit_app.py:151 | the mapping strings of a list of links, one per link, in order |
| AnnotationSession.SavedRecordsOfLinks | streamlit_app.py:122-126 | the `j`-th record a save writes holds the `j`-th linked word as rendered, its sentence, the session's id and the `j`-th timestamp |
| AnnotationSession.SaveOfCleanLinks | streamlit_app.py:122-129 | when no linked sentence contains `" -> "` and every insert commits, the save writes every link |
| AnnotationSession.ArrowBlocksSave | streamlit_app.py:122-129 | a linked sentence containing `" -> "` stops every save at or before its link, whatever the store does |
| AnnotationSession.Session.constructor | streamlit_app.py:8-39 | the initialisations at lines 8-11, 22-23 and 38-39 (and 135-136 for the sentence): a fresh session has no id, no mappings, both counters at zero and an empty sentence, and satisfies the session invariant |
| AnnotationSession.Session.SubmitId | streamlit_app.py:26-35 | a non-empty input replaces the remembered id and an empty one keeps it; the workflow proceeds if and only if the remembered id is configured |
| AnnotationSession.Session.EnterSentence | streamlit_app.py:139 | typing sets the sentence field and keeps the session invariant |
| AnnotationSession.Session.Link | streamlit_app.py:141-151 | appends one mapping `selected + " -> " + sentence` after all earlier ones, which stay unchanged, and keeps every mapping the encoding of a link it made (it decodes back unless its sentence contains `" -> "`, `LinkDecode`) |
| AnnotationSession.Session.Save | streamlit_app.py:113-129 | with no mappings, only the warning is raised: no record, the counters and the list unchanged. Otherwise the warning is lowered; the first `k = Completed(Unpacked(mappings))` mappings are written in list order with the session's id and their timestamps; both counters go up by `k`; the list is emptied when `k` covers it all and kept as it was otherwise, with the error of mapping `k` reported |
| AnnotationSession.Session.SaveMappings | streamlit_app.py:122-126 | the loop writes exactly the records of the completed mappings in order, bumps both counters by their number, and reports where and why it stopped |
| AnnotationSession.Session.SaveNext | streamlit_app.py:123-126 | one pass of the loop: a mapping that unpacks and whose insert commits adds its record (the unpacked word and sentence, the id, the timestamp) and bumps both counters by one; otherwise nothing changes and the error says whether the unpack or the insert failed |
| AnnotationSession.Session.SaveAnnotation | streamlit_app.py:59-78 | the insert carries the word, the context, the remembered id and the timestamp; the counters move by one only after a commit; a failed insert changes nothing |
| AnnotationSession.Session.ClearText | streamlit_app.py:165-166 | the sentence field becomes empty, nothing else changes, and the session invariant is kept |
| AnnotationScenario.SingleLinkSaved | streamlit_app.py:122-126 | a single link of a token of a sentence without `" -> "` is saved completely when its insert commits, as one record holding that token, the sentence, the id and the first timestamp |
| AnnotationScenario.LinkAndSave | streamlit_app.py:139-161 | from a fresh session, entering a configured id, typing whitespace-free words joined by single spaces whose sentence contains no `" -> "`, linking one of them and saving adds exactly one record (that word, the sentence, the id, the first timestamp) to the table, leaves both counters at one and the pending list empty, and shows no warning |

## Left out

- Streamlit rendering: the text inputs, selector, buttons, messages, the RTL style at lines 171-178, and the rerun-from-the-top execution model. Each user action is one method call, and `st.stop()` is modelled only as "the workflow is not entered".
- `get_db_connection`: the remote connection, `USE DATABASE`, and the foreign-key pragma. The table is an abstract append-only sequence of records.
- `get_local_time` (clock, time zone, `strftime`): timestamps are opaque strings supplied by the `clock` parameter.
- `st.secrets`: the five ids are the `AllowList` parameter.
- Connection release on error paths, and a `conn.close()` that fails after a commit. An insert either commits, with its counter bumps, or changes nothing.
- Several sessions writing the shared table at once.
- A failing context lookup. The model takes the query at lines 91-96 to succeed. In the code, that query runs at line 147 in the same rerun before the link button (line 150) and the save button (line 160), so a raising query aborts that rerun and its click neither links nor saves. `FindContexts` always succeeds in the model, and `Link` and `Save` do not depend on it.
- AnnotationStore.Query: the SQL has no `ORDER BY`, but the model returns rows in table order; `ContextsContaining` itself promises only which contexts appear.
