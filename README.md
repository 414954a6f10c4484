# Chatbot_GenAI_Backend: chunking, vector store, answer extraction and request validation in Dafny

This project models the sequential core of a retrieval-augmented chatbot
back end, a Flask service. Users upload documents. The service splits
each document into sentence-respecting chunks and stores every chunk in a
Chroma collection, with its embedding, under the document's filename. It
deletes a document from both the index and the upload folder. The store
module also offers a query scoped to the uploaded files
(`query_similar_documents`), which no route calls: `POST /query` answers
through the separate TF-IDF path in `app/core/llm_query.py`. The model
covers that scoped query function as written. It covers four parts:

- **Chunker and ingestion loop** (`process_documents.dfy`, module
  `ProcessDocuments`):
  - `split_text` first splits the text with `re.split(r'(?<=[.!?]) +')`, modelled as Python's scan.
  - It then packs the sentences greedily into a buffer and flushes the buffer when the next sentence would not fit. `SplitText` is a method with the source's loop, proved equal to a grouping function, `Chunks`. The properties are lemmas about that function.
  - `process_documents` walks the documents, mints one id per chunk and makes one store call per document. It stops at the first failure.
- **Vector-store wrapper** (`chroma_store.dfy`, module `ChromaStore`):
  - The collection is a class `Collection` whose field `entries` is the table of stored records, in insertion order.
  - The embedding service, the store's own failures and the similarity ranking are parameters.
  - The operations modelled are add, the scoped query and delete-by-filename.
- **Answer extraction** (`llm_query.dfy`, module `LlmQuery`). `extract_qa` is modelled as the regular-expression engine runs `(?i)<label>:\s*(.+)`:
  - the leftmost start, then Python's case-insensitive label match;
  - then a greedy `\s*` that may cross line feeds;
  - then `.+` up to the end of the line, backing off through the whitespace when `.+` cannot start;
  - finally `strip()`.
- **Routes** (`routes.dfy`, module `Routes`):
  - `allowed_file`;
  - the validation loop of `POST /upload`, over a class `UploadFolder` holding the set of saved file names;
  - the guards and the order of side effects of `DELETE /files/<filename>`.

Shared definitions:

- `text.dfy` (module `Text`) holds Python's `str.isspace`, `strip()` and ASCII lower-casing.
- `outcomes.dfy` (module `Outcomes`) holds `Option`, `Result` and the kinds of `ValueError` the core raises.

The model keeps the code's quirks as written:

- empty text yields `[""]`;
- a first sentence longer than the limit produces a leading `""` chunk;
- `.txt` is in the allowed extensions;
- when the unlink fails after the index deletion succeeded, the answer is 500 and the file stays on disk while its index entries are gone.

Inputs the core takes from outside are parameters of the model:

- the embedding service: `embed: string -> Option<Vector>`, where `None` means the call raised;
- success of each collection call: `storeOk`;
- the index's similarity order: `rank`;
- the upload folder listing: `liveFiles`;
- `uuid4`: an injective `mint`;
- Werkzeug's `secure_filename`: `secure`;
- whether `unlink` succeeds: `unlinkOk`.

## Model

| member | source | states |
|---|---|---|
| Text.IsSpace | app/core/llm_query.py:58-62 | the characters Python's `str.isspace()` and the regular-expression class `\s` accept |
| Text.Strip | app/core/llm_query.py:61-62 | `strip()` returns a contiguous part `s[i..j]` of its input such that everything before `i` and from `j` on is whitespace, and the result has no whitespace at either end: the input with exactly its surrounding whitespace removed |
| Text.StripOmits | app/core/llm_query.py:61-62 | stripping keeps a contiguous part, so a character absent from the input (a line feed) is absent from the result |
| Text.StripTrailingSpace | app/core/process_documents.py:53-55 | appending one whitespace character does not change what `strip()` returns |
| Text.StripStripped | app/core/process_documents.py:55-59 | a string without surrounding whitespace is its own strip |
| Text.AsciiLowerAt | app/routes.py:21 | lower-casing works character by character, mapping only `A`-`Z` |
| ProcessDocuments.SpaceRunEnd | app/core/process_documents.py:46 | the greedy ` +` stops at the first character that is not a plain space |
| ProcessDocuments.IsBoundary | app/core/process_documents.py:46 | where the pattern can start matching: the lookbehind `(?<=[.!?])` followed by the first space of the run |
| ProcessDocuments.Scan | app/core/process_documents.py:46 | `re.split`'s left-to-right scan, cutting at each run of spaces that follows a terminator and keeping the runs it removed. It gives one more piece than separators |
| ProcessDocuments.SplitSentences | app/core/process_documents.py:46 | `re.split` always returns at least one piece |
| ProcessDocuments.SplitSentencesSpec | app/core/process_documents.py:46 | putting the removed runs back between the pieces gives the text again. Every removed run is a non-empty run of plain spaces. Every piece before a run ends in `.`, `!` or `?`. The piece after a run does not start with a space. No piece holds a terminator followed by a space |
| ProcessDocuments.SplitEmpty | app/core/process_documents.py:46 | splitting `""` gives `[""]` |
| ProcessDocuments.Buffer | app/core/process_documents.py:49-53 | `current_chunk` after a group's sentences were added, each followed by one space |
| ProcessDocuments.Place | app/core/process_documents.py:52-56 | one turn of the loop: the sentence joins the open buffer when the buffer's length plus its own is at most `max`, and otherwise closes it and opens a new one |
| ProcessDocuments.Packed | app/core/process_documents.py:51-56 | the grouping after the first `n` sentences, always with an open group last |
| ProcessDocuments.Chunks | app/core/process_documents.py:46-61 | the list `split_text` returns: the stripped buffers of the greedy grouping of the sentences |
| ProcessDocuments.SplitText | app/core/process_documents.py:41-61 | the buffer-and-flush loop returns exactly `Chunks(text, max)`, the stripped buffers of the greedy grouping of the sentences |
| ProcessDocuments.ChunksPartitionSentences | app/core/process_documents.py:46-59 | the groups behind the chunks partition the sentence list into consecutive runs, in order, with every group after the first non-empty. Each chunk is `" ".join(group).strip()` |
| ProcessDocuments.ChunksBounded | app/core/process_documents.py:52-56 | every chunk is at most `max` long unless it is one sentence that alone is longer, stripped |
| ProcessDocuments.ChunksStripped | app/core/process_documents.py:55-59 | no chunk has leading or trailing whitespace |
| ProcessDocuments.ChunksGreedy | app/core/process_documents.py:52-56 | a chunk is closed only when the first sentence of the next one would have overflowed its buffer |
| ProcessDocuments.ChunksCount | app/core/process_documents.py:49-59 | there is at least one chunk and at most one more than there are sentences. The first chunk is `""` when the first sentence alone exceeds `max` |
| ProcessDocuments.ChunksOfEmpty | app/core/process_documents.py:46-59 | empty text at the default size 500 gives exactly `[""]` |
| ProcessDocuments.LeadingEmptyChunk | app/core/process_documents.py:49-56 | an over-long first sentence gives a leading `""` chunk, and the next group starts with that sentence |
| ProcessDocuments.GroupingPartitions | app/core/process_documents.py:51-59 | flattening the grouping gives back the sentence list |
| ProcessDocuments.PackedFits | app/core/process_documents.py:52-56 | the other half of the greedy rule: every group's buffer is at most one longer than `max` (its trailing space), unless the group is a single sentence |
| ProcessDocuments.PackedIsGreedy | app/core/process_documents.py:52-56 | in every prefix of the packing, each closed group was closed because the next sentence did not fit |
| ProcessDocuments.FirstFailure | app/core/process_documents.py:16-27 | the index of the first document whose add raises: every earlier one succeeds and the one at the index fails |
| ProcessDocuments.MintIds | app/core/process_documents.py:24 | one minted id per chunk, in chunk order |
| ProcessDocuments.DocChunks | app/core/process_documents.py:17-20 | the chunks `split_text` makes of one document's text at the default size 500 |
| ProcessDocuments.DocBatch | app/core/process_documents.py:20-27 | the batch one document's add stores: its chunks under its own minted ids, with their embeddings, tagged with its filename |
| ProcessDocuments.DocError | app/core/process_documents.py:20-27 | the error one document's add raises, if any, given the embedding service and whether the collection call for that filename works |
| ProcessDocuments.MintBatchIds | app/core/process_documents.py:21-24 | the id list is rebuilt from empty with one minted id per chunk of this document |
| ProcessDocuments.FreshBatchIds | app/core/process_documents.py:21-24 | a document's ids are pairwise distinct and none is already stored |
| ProcessDocuments.ProcessDocuments | app/core/process_documents.py:16-35 | the store gains, in order, the batches of exactly the documents before the first failing add. The result is `Ok` iff no add failed; otherwise it is `ProcessFailed` wrapping that add's error. The collection's ids stay distinct |
| ProcessDocuments.IngestStep | app/core/process_documents.py:16-27 | one successful add extends the stored entries by exactly the next document's batch |
| ProcessDocuments.FreshAfterDoc | app/core/process_documents.py:21-27 | after a document's batch, every later document's ids are still fresh |
| ProcessDocuments.DocErrorCause | app/core/process_documents.py:20-27 | a document's add fails only because an embedding call raised or the collection call failed, never because of an empty batch |
| ProcessDocuments.IngestedOfFile | app/core/process_documents.py:16-27 | with distinct filenames, each ingested document's entries are exactly its chunks, in order, under its filename |
| ProcessDocuments.IngestedMissesFile | app/core/process_documents.py:16-27 | a filename that no ingested document has gets no entry |
| ProcessDocuments.FailFast | app/core/process_documents.py:16-35 | after the first failing document, it and every later document have nothing stored, and each earlier one is stored in full |
| ProcessDocuments.DocBatchTagged | app/core/process_documents.py:24-27 | a document's batch holds its chunks, in order, every one tagged with its filename |
| ChromaStore.EmbedAll | app/core/chroma_store.py:14 | the embeddings are computed in order. The result is `None` iff some call raised, and otherwise it is every text's embedding |
| ChromaStore.Embeddings | app/core/chroma_store.py:14 | one vector per text, each the service's embedding of that text |
| ChromaStore.Batch | app/core/chroma_store.py:15-20 | chunk `k` is stored under `ids[k]` with its embedding and the metadata `{"filename": filename}` |
| ChromaStore.FilenameRecord | app/core/chroma_store.py:19 | the metadata `{"filename": filename}`: a record with the single key `filename`, holding the filename |
| ChromaStore.AddError | app/core/chroma_store.py:14-23 | the add's error path: a raising embedding call is reported before the collection is touched. An empty batch or a failing collection call is the store's error |
| ChromaStore.Collection.Add | app/core/chroma_store.py:12-23 | all embeddings are computed before the collection is touched. Any failure raises `AddFailed` and stores nothing of the batch. Success appends the whole batch. Ids stay distinct |
| ChromaStore.BatchTagged | app/core/chroma_store.py:15-20 | a batch's documents and ids are the given ones. It has exactly one `{"filename": filename}` record per chunk, and nothing of any other file |
| ChromaStore.AddOnlyTouchesItsFile | app/core/chroma_store.py:15-20 | an add extends its own file's entries by the batch and leaves every other file's entries as they were |
| ChromaStore.AppendFreshKeepsDistinct | app/core/chroma_store.py:15-20 | inserting under fresh, distinct ids keeps the collection's ids distinct |
| ChromaStore.TaggedWith | app/core/chroma_store.py:45 | the filter `where={"filename": filename}` |
| ChromaStore.InScope | app/core/chroma_store.py:35 | the filter `where={"filename": {"$in": files}}` |
| ChromaStore.Candidates | app/core/chroma_store.py:35 | the `$in` filter keeps exactly the entries whose filename is in the list |
| ChromaStore.Lookup | app/core/chroma_store.py:32-36 | finds a candidate with the given id, or reports that none has it |
| ChromaStore.Ranked | app/core/chroma_store.py:32-37 | the ranked documents all come from candidates, at most one per ranked id. RankedFollowsOrder states the order |
| ChromaStore.ScopedIds | app/core/chroma_store.py:32-37 | the ids of the ranking that name an entry the `$in` filter lets through, in ranking order. It is defined from the filter alone, not from the candidate lookup |
| ChromaStore.LookupInScope | app/core/chroma_store.py:32-36 | the lookup among the candidates finds an entry iff an in-scope entry has that id, and what it finds is such an entry |
| ChromaStore.RankedFollowsOrder | app/core/chroma_store.py:32-37 | the ranked documents have one element per in-scope id of the ranking. The `k`-th is the document of an in-scope entry with the `k`-th such id |
| ChromaStore.Take | app/core/chroma_store.py:34-37 | the result is the prefix of the ranked documents of length `min(top_k, n)`, or empty when `top_k <= 0` |
| ChromaStore.QuerySimilar | app/core/chroma_store.py:25-40 | an empty folder listing returns `[]` before anything else. A failing embedding, a failing store or a non-positive `top_k` raises `QueryFailed`. A result holds at most `top_k` (default 3) texts, each from an entry whose filename is in the listing |
| ChromaStore.QueryReturnsTopRanked | app/core/chroma_store.py:25-37 | a query that reaches the index succeeds. It returns exactly `min(top_k, n)` documents, where `n` counts the in-scope ids the ranking lists. The `k`-th is the document of the entry with the `k`-th in-scope id, in ranking order |
| ChromaStore.QueryNoRepeats | app/core/chroma_store.py:32-37 | when the ranking lists each id once, the results come from entries with pairwise different ids, so no entry is returned twice |
| ChromaStore.QueryExactIndex | app/core/chroma_store.py:25-37 | when the ranking lists every stored id exactly once and the ids are distinct, a query that reaches the index returns exactly `min(top_k, n)` documents, where `n` is the number of entries whose filename is in the listing |
| ChromaStore.QueryDefaultTopK | app/core/chroma_store.py:25 | called with the default `top_k` of 3, a query returns at most three texts |
| ChromaStore.QueryWithoutFiles | app/core/chroma_store.py:27-30 | with no uploaded files the query returns `[]`, whatever the embedding service, collection, ranking and store do |
| ChromaStore.MatchingIds | app/core/chroma_store.py:45-46 | the lookup returns exactly the ids of the entries tagged with the filename |
| ChromaStore.RemoveIds | app/core/chroma_store.py:52 | `collection.delete(ids=ids)`: drops the entries whose id is listed and keeps the rest in order |
| ChromaStore.Without | app/core/chroma_store.py:52-53 | keeps exactly the entries not tagged with the filename |
| ChromaStore.Collection.DeleteByFilename | app/core/chroma_store.py:42-56 | a store failure raises `DeleteFailed` and changes nothing. Otherwise the result is whether the file had entries, and the collection becomes `Without(entries, filename)`. A result of `False` leaves the collection unchanged. Ids stay distinct |
| ChromaStore.NothingToDelete | app/core/chroma_store.py:45-49 | an empty lookup means the file has no entry and the collection is left unchanged |
| ChromaStore.RemoveMatchingIsWithout | app/core/chroma_store.py:45-53 | with distinct ids, deleting the looked-up ids removes exactly that file's entries and keeps the rest in order |
| ChromaStore.WithoutKeepsDistinct | app/core/chroma_store.py:52-53 | a delete keeps the ids distinct |
| ChromaStore.WithoutRemovesFile | app/core/chroma_store.py:52-53 | after the delete no entry with that filename remains |
| ChromaStore.WithoutKeepsOtherFiles | app/core/chroma_store.py:52-53 | the delete leaves every other file's entries exactly as they were |
| ChromaStore.QueryAfterDelete | app/core/chroma_store.py:42-53 | after deleting a file, a query scoped to that file alone returns nothing |
| ChromaStore.QueryUnaffectedByOtherDelete | app/core/chroma_store.py:32-37 | deleting a file outside the query's scope leaves the query's result unchanged |
| LlmQuery.CaseMatches | app/core/llm_query.py:58-59 | under `(?i)` a label character matches itself, its ASCII capital, and for `s` and `i` the extra letters Python's case folding adds |
| LlmQuery.LabelAt | app/core/llm_query.py:58-59 | the label matches the text at a position, character by character, case-insensitively |
| LlmQuery.SpaceEnd | app/core/llm_query.py:58-59 | the greedy `\s*` stops at the first non-whitespace character |
| LlmQuery.LineEnd | app/core/llm_query.py:58-59 | the greedy `.+` stops at the next line feed or at the end |
| LlmQuery.Backtrack | app/core/llm_query.py:58-59 | `(.+)` tried after `\s*` backs off one character at a time. Any group found is non-empty and has no line feed |
| LlmQuery.Capture | app/core/llm_query.py:58-59 | `\s*(.+)` at one position: the group, if the pattern matches there. It is non-empty and has no line feed |
| LlmQuery.Search | app/core/llm_query.py:58-59 | a found group is non-empty and has no line feed |
| LlmQuery.Field | app/core/llm_query.py:61-62 | a field has no line feed and no surrounding whitespace |
| LlmQuery.ExtractQa | app/core/llm_query.py:57-64 | total on every string. Returns the pair (question, answer), each searched over the whole text, one line, stripped |
| LlmQuery.SearchSkips | app/core/llm_query.py:58-59 | starts where the label does not match are passed over |
| LlmQuery.NoLabelNoField | app/core/llm_query.py:58-62 | a text in which the label occurs nowhere gives `""` |
| LlmQuery.FirstLabelDecides | app/core/llm_query.py:58-62 | when something other than whitespace follows the first label, the field is the rest of that character's line, stripped, with whitespace and line feeds after the label skipped |
| LlmQuery.LabelAnyCase | app/core/llm_query.py:58-59 | the label matches wherever each of its characters appears as itself or, for a letter, as its ASCII capital |
| LlmQuery.CapitalisedLabel | app/core/llm_query.py:58-59 | `QUESTION: Why` gives the question `Why`: the label matches whatever its case |
| LlmQuery.BlankAfterLabel | app/core/llm_query.py:58-62 | when only whitespace follows the first label, the field is `""` |
| Routes.LastDot | app/routes.py:21 | finds the index of the last `.`, or reports that there is none |
| Routes.AllowedFile | app/routes.py:20-21 | a name without a dot is never allowed |
| Routes.AllowedFileIffExtension | app/routes.py:20-21 | a name splits at its last dot into a stem, which may hold dots, and an extension. The name is allowed iff the extension, lower-cased, is one of `pdf`, `docx`, `pptx`, `xlsx`, `txt` (`app/core/config.py`, line 10) |
| Routes.UpperCaseExtensionAllowed | app/routes.py:21 | `a.PDF` is allowed |
| Routes.OnlyLastExtensionCounts | app/routes.py:21 | `a.tar.gz` and `report.` are rejected |
| Routes.UploadFolder.Save | app/routes.py:35-37 | saving adds the name to the folder |
| Routes.UploadFolder.Unlink | app/routes.py:100 | unlinking removes the name from the folder |
| Routes.FirstRejected | app/routes.py:33-40 | the index of the first upload whose name is not allowed, or the number of uploads |
| Routes.FirstRejectedSpec | app/routes.py:33-40 | every name before the first rejected one passed the check and that one did not. The loop stops early iff some name is disallowed |
| Routes.RejectedAt | app/routes.py:33-40 | up to the first rejection, the check at upload `i` fails exactly at the first rejected upload |
| Routes.SavedNames | app/routes.py:35-37 | the secured names the loop saves into the folder for the first `n` uploads |
| Routes.SavedPaths | app/routes.py:35-38 | one saved path per accepted upload |
| Routes.SavedAt | app/routes.py:35-38 | saved path `i` is the upload folder joined with upload `i`'s secured name, in input order, and that name is in the folder |
| Routes.PathOf | app/routes.py:36-38 | `str(UPLOAD_FOLDER / filename)`: the folder `data/uploads`, a `/`, then the name unchanged |
| Routes.SavedOnly | app/routes.py:35-38 | every saved name is the secured name of one of the uploads |
| Routes.UploadDocuments | app/routes.py:26-40 | a request without a `files` part returns 400 and saves nothing. Otherwise the uploads before the first disallowed one are saved and stay saved. The loop answers 400 naming that file, or, when all pass, hands every saved path, in input order, to the left-out tail of the handler |
| Routes.DeleteGuard | app/routes.py:83-92 | the guards answer nothing or one of their three rejections |
| Routes.DeleteGuardOrder | app/routes.py:83-92 | a blank name gets 400 first, then an unsupported type 400, then a missing file 404. The guards pass iff the name is non-blank, allowed and on disk |
| Routes.GuardAnswersAlone | app/routes.py:83-92 | a guard's answer is final, its status is 400 or 404, and the file is not unlinked |
| Routes.DeleteOutcome | app/routes.py:94-108 | after the guards: a failing index call gives 500, nothing indexed gives 404, a failing unlink gives 500, and otherwise success |
| Routes.DeleteStatus | app/routes.py:84-108 | the status of each response: 200 only for success, 500 only for the handler's `except`, and 400 or 404 for the rest |
| Routes.Unlinks | app/routes.py:96-100 | the file is unlinked only when the guards passed, the index call worked and found entries, and the unlink succeeds |
| Routes.DeleteFile | app/routes.py:79-108 | the answer is the guards' verdict, then the index deletion's. The index is changed only once the guards pass and the store works. The file is unlinked only when the index deletion returned true and the unlink succeeds |
| Routes.UnlinkOnlyAfterIndexDeletion | app/routes.py:94-108 | the file is removed only after the guards passed and the index deletion returned true. Success is reported iff the file was removed. No indexed entries means 404 and the file stays. A failing index call or unlink gives 500 |

## Left out

- Similarity ranking: Chroma's vector distance computation is the abstract parameter `rank`, a list of ids from nearest to farthest. Floating point is not modelled.
- The TF-IDF path in `app/core/llm_query.py` (`answer_query`, its own `process_documents`, cosine similarity and the 0.1 threshold) is not part of this model. The routes import the other `process_documents`, but `POST /query` (`app/routes.py:9`, `app/routes.py:64`) calls this path's `answer_query`. That function searches its module's own `documents` list, which these routes never fill, so the handler ends in its error path. The query route is therefore not modelled, only the Chroma-scoped `query_similar_documents`.
- `get_embedding` and `get_llm_response` are network calls. They are the parameter `embed`, with `None` for a call that raises; the LLM call is not modelled.
- `app/core/doc_loader.py` is not part of this model. Nor is the upload handler's tail at `app/routes.py:42-52`, which extracts texts, indexes them and answers success or 500. `app/routes.py:8` imports `extract_texts_from_filepaths`, which `doc_loader` does not define.
- `get_uploaded_files` (`app/core/util.py`) lists a directory. It is the parameter `liveFiles` of `QuerySimilar`.
- Flask request parsing, `jsonify`, `secure_filename` (the parameter `secure`) and logging are left out.
- `print` in `query_similar_documents` is left out.
- Chroma's on-disk persistence is left out. The collection starts from whatever `entries` hold.
- Concurrency is left out. The service handles one request at a time here.
- `Config.UPLOAD_FOLDER`'s environment override is left out. The folder is its default `data/uploads`.
- `Config.ALLOWED_EXTENSIONS` is a set in the source and a sequence here. Only membership is asked of it.
- Text.AsciiLower: lower-cases ASCII letters only. Python's `str.lower()` also lowers other letters, but no non-ASCII character lowers to a character that occurs in the allowed extensions, so `AllowedFile` gives the same verdict.
- Collection.Add: requires fresh, pairwise-distinct ids. That stands for `uuid4`, whose collisions are not modelled, and Chroma's handling of a duplicate id is not modelled.
- ProcessDocuments.ProcessDocuments: `uuid4` is an injective `mint(document, chunk)` whose ids are not yet stored. Randomness is not modelled.
- ChromaStore.QuerySimilar: `n_results <= 0` is reported as `StoreRejected`. The exact exception Chroma raises is not modelled.
- ChromaStore.AddError: an empty batch is reported as `StoreRejected`. The exact exception Chroma raises is not modelled.
- ChromaStore.QueryNoRepeats: needs the index's ranking to list each id once, as Chroma's index does. The ranking may leave entries out, as approximate search can, and the result is then the first `min(top_k, n)` in-scope ids it does list.
- `embed` is a function of the text, so a transient failure cannot be expressed: the same text cannot fail on one call and succeed on another.
- `Config.ALLOWED_EXTENSIONS` allows `.txt`, but text extraction rejects it (`app/core/doc_loader.py`, line 56). Extraction is not part of this model, so an uploaded `.txt` passes validation here.
- `file.save` failures are left out, and so is the broken `Exception(status_code=...)` at `app/routes.py:45`.
- The `except` of `split_text` (`app/core/process_documents.py:62-64`) is left out: the split on a `str` cannot raise.
- The source annotates `doc_texts: dict[str, list[str]]` (`app/core/process_documents.py:8`), but the body uses each value as a `str`, and so does the model (`Document` pairs a filename with a string). With a `list[str]` value, `re.split` would raise and `process_documents` would fail with `ValueError` at the first document.
- ProcessDocuments.FirstFailure: the collection's failure is given per filename (`storeOk`), not per call. Two documents cannot share a filename in the dict.
