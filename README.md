# PII-masking retail assistant: a Dafny model of its core

The system is a chat assistant for a coffee-shop chain. On each turn it:

1. reads the customer's record and the nearest store from a database;
2. masks the phone numbers and e-mail addresses in the message and in the record, replacing
   them with placeholders such as `[PHONE_1]` and `[EMAIL_1]`;
3. retrieves documents for the masked message from a vector store;
4. builds a prompt from masked data only and sends it to a language model;
5. puts the original values back into the model's reply.

The project models four parts of that core and proves what each one promises.

- **Masking** (`masking.dfy`, `context.dfy`, with `pattern.dfy`, `text.dfy`, `table.dfy`):
  - `mask_text` runs its five phone patterns in turn, then the e-mail pattern. It numbers
    placeholders with one shared phone counter and replaces only the first occurrence of each
    literal. E-mails are not de-duplicated.
  - `unmask_text` replaces every occurrence of every placeholder.
  - `mask_customer_context` masks the `phone` and `email` fields and merges their tables with
    `dict.update`.
  - The regular expressions are modelled as sequences of greedy character-class repeats and
    word boundaries, matched by a backtracking matcher and scanned left to right like
    `re.findall`.
  - `roundtrip.dfy` and `pieces.dfy` prove that unmasking the masked text with its own table
    gives back the original.
  - `placement.dfy` proves that every placeholder of the table occurs exactly once in the
    masked text, that a repeated phone keeps its later occurrences, and that a repeated e-mail
    gets one placeholder per match.
- **Nearest store** (`stores.dfy`): the linear scan with a strict `<`, the fallback to the
  first store at distance 50, and the empty result. The distance is a parameter.
- **Prompt and turn** (`prompt.dfy`, `pipeline.dfy`, `records.dfy`): `build_prompt` line by
  line, and `process_message` as the sequence mask → merge tables → retrieve → prompt →
  model → unmask.
  - Exceptions are modelled as a `Result`.
  - The database reads, the retrieval and the model are parameters.
- **Vector store** (`rag.dfy`): the store is a class whose field maps collection names to
  stored chunks.
  - `build_vector_store` is modelled as a method: sample documents when the folder is empty,
    loading that skips files that fail, an early return that keeps the old collection, then
    delete, re-create and add in batches of 100 with ids `doc_<position>`.
  - Also modelled: `retrieve` with its fallback to no documents, and the `get_rag_system`
    singleton.

Dictionaries are sequences of entries kept in insertion order, as Python keeps them. Where the
source loops and mutates, the model does too, and each method is proved equal to a function,
about which the lemmas below are proved.

## Model

| member | source | states |
|---|---|---|
| Masking.MaskText | masking.py:11-59 | The two loops return exactly `Mask(text)`: the five phone passes in pattern order, then the e-mail pass over the text as phone masking left it |
| Masking.MaskPhones | masking.py:41-48 | One pattern's inner loop ends in the state `PhoneRun` gives for that pattern's matches in the current text (text, table and next counter) |
| Masking.UnmaskText | masking.py:62-78 | The loop over the table returns `Unmask(text, mapping)`; with an empty table the text comes back unchanged |
| Masking.PlaceholdersDistinct | masking.py:45-55 | Different counters give different `[PHONE_n]` placeholders and different `[EMAIL_n]` placeholders; a phone placeholder never equals an e-mail placeholder |
| Masking.PhoneStepTable | masking.py:44-48 | One match keeps the phone table's shape: keys `[PHONE_1]`…`[PHONE_n]` with the counter one past the last, values not blank and pairwise different. Old entries stay as they were, a non-blank literal is a value afterwards, and any new entry holds that literal |
| Masking.PhoneRunTable | masking.py:42-48 | Over all matches of one pattern the table keeps that shape and only grows at its end |
| Masking.PhoneRunValues | masking.py:42-48 | After a pattern's matches every non-blank match is a value of the table, so a repeated literal gets no second placeholder; every new value is one of the matches |
| Masking.PhonePassesTable | masking.py:39-48 | Over all five passes the table keeps its shape and its earlier entries; every new value was matched by one of the patterns |
| Masking.EmailTableAppends | masking.py:51-57 | The e-mail loop appends one entry per match, in match order, with no de-duplication |
| Masking.EmailEntriesAt | masking.py:54-56 | The j-th e-mail entry maps `[EMAIL_(i+j)]` to the j-th match |
| Masking.MaskTable | masking.py:27-59 | The final table is the phone table followed by one e-mail entry per e-mail match. Its phone values are each matched by a phone pattern |
| Masking.MaskEmailValues | masking.py:51-57 | Every e-mail value in the final table has the e-mail pattern's shape |
| Masking.PhonePassesNoMatch | masking.py:39-48 | Patterns that match nothing leave the text, table and counter unchanged |
| Masking.MaskNoMatch | masking.py:27-59 | Text in which no pattern matches comes back unchanged with an empty table |
| Masking.MaskPlainText | masking.py:27-59 | Text with no digit and no `@` comes back unchanged with an empty table |
| Pattern.FindAll | masking.py:41-52 | Every substring `findall` returns has the pattern's shape: made only of the pattern's classes, with each required part present |
| Pattern.MatchLength | masking.py:31-37 | A match is at least the pattern's minimum length long, and at most its maximum when every repeat is bounded |
| Pattern.MatchShaped | masking.py:31-51 | What the backtracking matcher accepts is made of the pattern's classes and holds every required part |
| Pattern.FindAllCount | masking.py:41-52 | The number of matches times the minimum match length is at most the length of the text scanned |
| Pattern.FindAllNeedsClass | masking.py:41-52 | A text without any character of a required class yields no match |
| Text.Replace1Parts | masking.py:47 | `str.replace(old, new, 1)` replaces only the first occurrence, and leaves a text without `old` unchanged |
| Text.FindFirst | masking.py:47 | `find` returns the first occurrence, or nothing when there is none |
| Text.ReplaceAllAbsent | masking.py:76 | Replacing a placeholder that does not occur leaves the text unchanged |
| Text.StripEmptyIffAllSpace | masking.py:44 | `phone.strip()` is empty exactly when the literal is all whitespace |
| Text.NatToStringInjective | masking.py:45-55 | Different counters print differently |
| Table.Put | masking.py:46 | `mapping[k] = v`: `k` maps to `v` and other keys are unchanged. A new key is appended at the end; an existing key keeps its place |
| Table.UpdateGet | masking.py:100-106 | `dict.update(u)`: a key of `u` takes `u`'s value (later wins), any other key keeps its old one |
| Table.UpdateIntoEmpty | masking.py:94-106 | Updating with a table whose keys are all new appends it |
| Pieces.UnmaskPieces | masking.py:73-78 | Unmasking a text that is a rendering of plain pieces and placeholder tokens expands each token to its value |
| Pieces.ReplaceAllPieces | masking.py:76 | Replacing one placeholder in such a rendering replaces exactly that token's pieces |
| Pieces.SafeAvoids | masking.py:44-57 | A matched phone or e-mail literal never occurs inside a placeholder with fewer than ten digits |
| Pieces.Cut | masking.py:47 | An occurrence of such a literal in the masked text lies wholly in unmasked text, so the text splits around it into pieces |
| Pieces.Step | masking.py:45-47 | Replacing the first occurrence of a literal by a fresh placeholder keeps the round-trip invariant with the entry added |
| RoundTrip.PhonePatternsSafe | masking.py:31-37 | Every match of each of the five phone patterns is a safe literal: not empty, no brackets, and either all digits and at least ten long, or holding a character no placeholder can hold (neither a letter, a digit, `_` nor a bracket, such as `-`, `.`, `(` or a space) |
| RoundTrip.EmailSafe | masking.py:51 | Every e-mail match is a safe literal |
| RoundTrip.PassesKeep | masking.py:39-48 | The phone passes keep the invariant while the counter stays below 10^9; each pass at most triples the text |
| RoundTrip.EmailRunKeeps | masking.py:54-57 | The e-mail loop keeps the invariant while placeholders stay below `[EMAIL_1000000000]` |
| RoundTrip.RoundTrip | masking.py:11-78 | `unmask_text(*mask_text(t)) == t` for every text without `[` of at most ten million characters |
| Placement.CountZero | masking.py:47 | `Count(s, k)`, the number of positions at which `k` occurs in `s`, is zero exactly when `k` occurs nowhere |
| Placement.CountOne | masking.py:47 | `Count(s, k)` is one exactly when `k` occurs at one position and at no other |
| Placement.CountRender | masking.py:45-57 | In a rendering of plain pieces and placeholder tokens, a placeholder occurs exactly as many times as its token appears among the pieces |
| Placement.FindAllLaid | masking.py:41 | `findall`'s matches lie in the text in order and without overlap, each after the end of the one before |
| Placement.InsertOnce | masking.py:45-47 | Replacing the first occurrence of the next match by a fresh placeholder leaves every placeholder, old and new, occurring exactly once, and the remaining matches still lie in the text in order |
| Placement.PhoneRunOnce | masking.py:42-48 | Over one pattern's matches every placeholder of the table occurs exactly once in the text |
| Placement.PassesOnce | masking.py:40-48 | Over the five phone passes every placeholder of the table occurs exactly once in the text |
| Placement.EmailRunOnce | masking.py:54-57 | Over the e-mail matches every placeholder of the table occurs exactly once in the text |
| Placement.MaskPlacesEachKeyOnce | masking.py:27-59 | Every key of `mask_text`'s table is a placeholder that occurs exactly once in the masked text, for texts without `[` of at most ten million characters |
| Placement.RepeatedPhoneKept | masking.py:42-48 | A phone literal matched twice gets one placeholder: its first occurrence is replaced, the second match is skipped, and a later occurrence stays in the text, shifted by the length difference |
| Placement.RepeatedEmailsPlaced | masking.py:51-57 | An e-mail matched twice gets two different placeholders, both mapping to it, each occurring exactly once in the masked text, for texts without `[` of at most ten million characters |
| ContextMasking.MaskContext | masking.py:93-108 | Only `phone` and `email` change; no field is added or removed; a text field becomes its masked text; a present non-text field raises the `TypeError` of `re.findall` |
| ContextMasking.ContextTable | masking.py:100-106 | In the merged table a placeholder held by both fields takes the e-mail field's value |
| ContextMasking.MaskCustomerContext | masking.py:81-108 | The copy-and-assign method returns `MaskContext(context)` |
| Stores.FirstNearest | database.py:340-354 | The chosen store is at least as near as every store and strictly nearer than every earlier one, so ties go to the first |
| Stores.WithDistance | database.py:323-352 | The result is the store's fields unchanged plus `distance_m` |
| Stores.NearestStoreForCustomer | database.py:297-354 | No stores gives `{}` in both branches. A missing customer, or a latitude or longitude that is NULL or 0.0, gives the first store at distance 50. Otherwise the scan returns the first nearest store with its distance |
| Stores.NearestStoreForDemo | database.py:357-379 | The first store at distance 50, or `{}` exactly when there are no stores |
| Prompt.BuildPrompt | streamlit_app.py:48-128 | The appending code returns the constant system prompt and the newline-join of `UserLines`, or the error a row raises |
| Prompt.AppendRows | streamlit_app.py:93-101 | The row loop returns `Render(rows, line)` |
| Prompt.RenderOk | streamlit_app.py:93-101 | Rendered rows give one line per row, in row order |
| Prompt.RenderErr | streamlit_app.py:93-101 | Rendering raises exactly when some row raises, and then with the first such row's error |
| Prompt.RenderErrSticks | streamlit_app.py:93-101 | Once a prefix of the rows raises, the whole loop raises the same error |
| Prompt.Shown | streamlit_app.py:90-100 | The orders listed are the first three (or all when fewer); every coupon is listed |
| Prompt.Block | streamlit_app.py:90-101 | A falsy value gives no lines; a truthy value that is not a list raises `TypeError` |
| Prompt.BlockRows | streamlit_app.py:90-101 | A rendered block is the heading with the total count, then one line per listed row, in order |
| Prompt.AppendBlock | streamlit_app.py:90-101 | The method returns `Block` |
| Prompt.CustomerSection | streamlit_app.py:83-103 | No lines for an empty record. Otherwise at least five lines: the four heading lines first, a blank line last |
| Prompt.CustomerDefaults | streamlit_app.py:84-87 | The heading shows a text field as it is, `Unknown` for a missing name, `None` for a missing loyalty level or preferred drink |
| Prompt.AppendCustomer | streamlit_app.py:83-103 | The method returns `CustomerSection` |
| Prompt.StoreSection | streamlit_app.py:106-112 | Present exactly when the store is not empty: the heading, four lines, a blank line |
| Prompt.StoreDefaults | streamlit_app.py:108-110 | A missing store name or address is shown as `Unknown` |
| Prompt.StoreDistanceHours | streamlit_app.py:109-111 | The distance line ends in `m away` and shows `Unknown` when the distance is missing; the hours line shows `Unknown - Unknown` when both times are missing |
| Prompt.FieldText | streamlit_app.py:85-111 | `str(d.get(k, default))` is the default for a missing key and the text itself for a text field |
| Prompt.DocsSection | streamlit_app.py:115-120 | Present exactly when there are documents: the heading, then three lines per document |
| Prompt.DocLinesAt | streamlit_app.py:117-120 | The i-th document gives `[Document i+1]`, its stripped text, and a blank line |
| Prompt.AppendDocs | streamlit_app.py:115-120 | The enumerate loop returns `DocLines(docs)` |
| Prompt.EndsWithMessage | streamlit_app.py:123-126 | Whatever the contexts, the user prompt ends with `=== CUSTOMER MESSAGE ===`, a newline and the message |
| Prompt.NoCustomerNoError | streamlit_app.py:83-126 | With an empty customer record the prompt is always built |
| Pipeline.Apology | streamlit_app.py:172-173 | The reply to a failed turn starts with `I apologize, but I encountered an error: ` followed by the error's text |
| Pipeline.ProcessMessage | streamlit_app.py:131-173 | The step-by-step turn returns `Turn(...)` |
| Pipeline.Respond | streamlit_app.py:162-168 | Build the prompt, call the model, unmask the reply; a raise gives the apology |
| Pipeline.QueriesMaskedMessage | streamlit_app.py:148-157 | Retrieval only sees the masked message: two retrievers that agree on it give the same reply |
| Pipeline.RetrievalFailureIgnored | streamlit_app.py:155-159 | A retrieval that raises gives the same reply as one that returns no documents |
| Pipeline.ReplyUnmasked | streamlit_app.py:148-168 | A successful turn unmasks the model's reply with the merged table, in which the customer record's entry wins over the message's for a shared placeholder |
| Pipeline.FailureApologises | streamlit_app.py:142-173 | A raising customer read, store read or record masking ends the turn with the apology for exactly that error, checked in that order |
| Pipeline.PromptOrModelApologises | streamlit_app.py:162-173 | Past those steps, a prompt that raises or a model call that raises gives the apology for exactly that error, so every raising step of the turn ends in the apology |
| Pipeline.StoreRetrievalInTurn | streamlit_app.py:155-159 | Over the vector store, a missing collection or a raising query gives the reply of a turn with no documents; otherwise the turn uses the query's first result list |
| Pipeline.EchoRoundTrip | streamlit_app.py:148-168 | With no customer record, a model that echoes the masked message gets the original message back, for messages without `[` of at most ten million characters |
| Rag.MatchingMembers | rag.py:51 | The files `glob("*.ext")` lists are exactly the folder's files with that extension |
| Rag.MatchingConcat | rag.py:51 | The glob of a folder made of two parts lists the first part's matches before the second's, so matches keep folder order |
| Rag.SamplesListed | rag.py:51-56 | With no `.pdf` or `.txt` file the three sample files are appended and are exactly what is listed again |
| Rag.WriteFileMembers | rag.py:182-184 | Writing a file makes it present with its content and leaves every file of another name as it was |
| Rag.WriteAllAppends | rag.py:181-185 | Writing files with distinct new names appends them in order |
| Rag.Folder.CreateSampleDocuments | rag.py:113-185 | The folder afterwards is the old one with the three samples written |
| Rag.LoadDocuments | rag.py:58-69 | The loading loop returns `Loaded(files, load)` |
| Rag.LoadedAppend | rag.py:58-69 | The documents of two runs of files are those of each run, concatenated |
| Rag.SkipsFailedFile | rag.py:58-69 | A file whose loader raises contributes nothing, and the files around it are still loaded |
| Rag.LoadedEmpty | rag.py:58-73 | No documents are loaded exactly when every file yields none |
| Rag.ChunkIdsDistinct | rag.py:97-101 | Chunks at different positions get different ids `doc_p` |
| Rag.StoredChunksFaithful | rag.py:97-102 | One stored entry per chunk, in order. Each text is the chunk's content, the ids are pairwise distinct, and the source defaults to `unknown` |
| Rag.BatchesCover | rag.py:96-98 | The batches together are the chunks in order, and each holds between 1 and 100 |
| Rag.BatchAt | rag.py:96-98 | Batch q is the slice from 100q to 100q+100, cut at the end |
| Rag.Client.DeleteCollection | rag.py:85-88 | Deleting removes the collection and reports whether it existed (the error is ignored) |
| Rag.Client.CreateCollection | rag.py:90-93 | Creating adds an empty collection |
| Rag.Client.Add | rag.py:104-109 | Adding appends one entry per id, text and source, in order |
| Rag.RagSystem.constructor | rag.py:27-34 | A new system uses the given client and the collection `retail_knowledge` |
| Rag.RagSystem.AddBatches | rag.py:95-109 | Step q of the batch loop adds batch q of `Batches`; after the loop the collection holds exactly the stored chunks, and no other collection changed |
| Rag.RagSystem.BuildVectorStore | rag.py:36-111 | Samples are written only when nothing is listed. If no documents load, the collections are unchanged; otherwise the collection holds exactly the new chunks and nothing of the old one |
| Rag.Retrieved | rag.py:198-216 | A missing collection gives `[]`; a raising query gives its error; otherwise one of the query's result lists, or `[]` |
| Rag.RagSystem.Retrieve | rag.py:187-216 | The method returns `Retrieved` over the client's collections: `[]` without a collection, the first result list, `[]` when there is none, or the query's error |
| Rag.RagHolder.GetRagSystem | rag.py:219-228 | The first call creates the instance and later calls return that same one. A missing dependency raises `ImportError` and nothing is stored |

## Left out

- Regular expressions:
  - Only the six patterns the core uses are modelled.
  - `\d` and `\w` are ASCII here; Python's are Unicode.
  - `\s` is the set of characters `str.isspace` accepts.
- RoundTrip.RoundTrip: the round trip is proved for texts without `[` and of at most ten
  million characters. A text with a placeholder-shaped substring can unmask differently. The
  length bound keeps placeholders below ten digits, so that a ten-digit number inside a long
  placeholder cannot be masked again.
- Placement.MaskPlacesEachKeyOnce: stated under the same bounds as RoundTrip.RoundTrip, for
  the same reason.
- Placement.RepeatedEmailsPlaced: stated under the same bounds as RoundTrip.RoundTrip, for
  the same reason.
- Pipeline.EchoRoundTrip: stated for messages without `[` of at most ten million characters,
  the bounds of RoundTrip.RoundTrip, for the same reason.
- A message and a customer record masked separately both number their placeholders from
  `[PHONE_1]` and `[EMAIL_1]`. The merged table keeps the record's value for a shared
  placeholder, so such a placeholder in the reply unmasks to the record's value.
  Pipeline.ReplyUnmasked states this as the behaviour; the model does not renumber.
- The `TypeError` text of `re.findall` on a non-text value is that of Python 3.11 and
  earlier. Python 3.12 and later append the type's name, and that text reaches the apology
  reply.
- Floats: Python's `repr` of floats and of lists is the `other` parameter of the prompt
  functions. Distances are `real`. NaN and infinities are not modelled.
- Database:
  - The haversine distance is the `dist` parameter.
  - SQL queries, schema and seeding are left out. Their results are the `customer` and
    `stores` parameters.
  - `SELECT * FROM stores LIMIT 1` is taken to return the first row of the full
    `SELECT * FROM stores`. Neither query has an `ORDER BY`, so SQL does not promise this.
- The language-model client, the network and the Streamlit user interface are left out. The
  model call is the `llm` parameter.
- `st.warning` on a retrieval failure is left out.
- Vector store:
  - Embeddings, similarity ranking, the PDF and text loaders and the text splitter are the
    `search`, `load` and `split` parameters.
  - The sample files' contents are the `text` parameter.
  - `glob` order is taken to be folder order.
  - `os.makedirs` and every `print` are left out.
- Rag.RagSystem.AddBatches: the chunks are added one batch at a time through
  `Client.Add`, but embeddings are not stored.
- Rag.RagHolder.GetRagSystem: the import failure is an `Option` parameter, not a module-level
  `try`.
