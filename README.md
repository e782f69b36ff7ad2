# scrape_mfa in Dafny

A model of `scrape_mfa.py`, the scraper that captures every comment of the
/r/malefashionadvice "Simple Questions" / "Daily Questions" threads from the
Pushshift archive into a tab-separated record store, then writes a
deduplicated extract of it.

One pass (`scrape_mfa`) works like this:

- It reads a resume cursor from the store (`initial_page_boundary`). The
  cursor is one second before the latest stored thread timestamp, and never
  earlier than `START_TIME - 1`.
- It pages through both thread searches from that cursor
  (`fetch_dq_thread_ids`). It lists each thread's comment ids
  (`fetch_comment_ids`) and groups them into batches of 500 (`chunk`).
- For each batch it resolves the full comments (`fetch_comments`). Each
  comment has its `parent_id` normalised (`correct_parent_id`) and the
  thread's fields merged in.
- It appends every record to the store as soon as it is produced
  (`csvify_comments`).
- If nothing raised, it writes the first stored row of every comment id to
  the extract (`deduplicate`).

`main` reruns the pass after a failure, sleeping 0, 10, 10, 20, 30, 60 and
then 80 seconds between attempts, and exits with status 1 when the schedule
runs out.

Python's lazy generators and their exceptions are modelled as a
`Stream(items, status)` value: `items` is what a stage yielded before it was
exhausted (`Complete`) or raised (`Raised(error)`). Composing streams with
`Then`, `FlatMap` and `FlatMapStream` gives exactly the records the program
has written to the store when an exception escapes. The archive's three
queries (thread page, comment ids of a thread, comments by id) are function
parameters that return a result or `HttpFailure`. The store is a sequence of
rows. Each row maps a column to its text cell, as `csv.DictReader` reads it
back.

Modules, in dependency order:

| module | file |
|---|---|
| `Wrappers` | `wrappers.dfy` |
| `Records` | `records.dfy` |
| `Sorting` | `sorting.dfy` |
| `Streams` | `streams.dfy` |
| `Decimal` | `decimal.dfy` |
| `ParentId` | `parent_id.dfy` |
| `Chunking` | `chunking.dfy` |
| `Dedup` | `dedup.dfy` |
| `RecordStore` | `record_store.dfy` |
| `Checkpoint` | `checkpoint.dfy` |
| `Paginator` | `paginator.dfy` |
| `Joiner` | `joiner.dfy` |
| `Pipeline` | `pipeline.dfy` |
| `Attempts` and `Supervisor` | `supervisor.dfy` |

Where the program's documentation and its code disagree, the model follows
the code:

- **Empty store.** The docstring of `initial_page_boundary`
  (`scrape_mfa.py:107-108`) says an absent *or empty* store gives
  `START_TIME`. The code gives `START_TIME - 1` for an empty store. Only a
  missing store gives `START_TIME`, and a pass never finds one, because
  `initialize_output_file` creates the store before the cursor is read
  (when the store is the default path; see "Left out").
- **Malformed timestamp.** A stored row whose timestamp is missing or is not
  an integer makes the cursor computation raise. It is not skipped.
- **Field precedence in the merged record.** The comment reference's fields
  (`id`, `thread_id`, `thread_created_utc`, `thread_title`) override the
  resolved comment's own fields of the same name.

`Pipeline` models the pass as written, with `fetch_comments` emitting the
resolved comments in the order the archive returns them. Beside it,
`Joiner.FetchCommentsByThread` states a corrected stage that emits them
oldest thread first; see "Findings".

## Model

| member | source | states |
|---|---|---|
| Records.RefFieldsOfRef | scrape_mfa.py:198-201 | the reference dictionary has exactly the keys id and the three thread fields, keeps the comment id, and carries the thread's fields unchanged |
| Streams.FlatMapAppend | scrape_mfa.py:349-355 | a nested generator over a concatenated input is the first part's output followed by the second's, unless the first part raised |
| Streams.FlatMapComplete | scrape_mfa.py:349-355 | when every inner stage is exhausted, the nested generator yields the concatenation of their outputs in order and is exhausted too |
| Streams.FlatMapRaised | scrape_mfa.py:349-355 | when inner stage k is the first to raise, the nested generator yields the outputs of stages 0..k-1 plus what stage k yielded before raising, then raises stage k's error |
| Streams.FlatMapProvenance | scrape_mfa.py:349-355 | every item the nested generator yields comes from the inner stage of some input item |
| Streams.FlatMapStatus | scrape_mfa.py:349-355 | the nested generator is exhausted if and only if every inner stage is |
| Decimal.ParseShow | scrape_mfa.py:118 | an integer written to a cell as decimal text reads back through int() as the same integer, negative integers included |
| ParentId.CorrectParentId | scrape_mfa.py:243-247 | "t1_"+x becomes x; "t3_"+x becomes null; any other string is unchanged; no other field and no key changes; a missing parent_id raises KeyError; a non-string parent_id raises AttributeError |
| Chunking.ChunkExample | scrape_mfa.py:306-307 | the docstring's example: five items in chunks of three give a chunk of three, then a chunk of two |
| Chunking.ChunkFlatten | scrape_mfa.py:303-326 | concatenating the chunks gives back the input, in order |
| Chunking.ChunkSizes | scrape_mfa.py:322-326 | every chunk is non-empty and holds at most size items; every chunk but the last holds exactly size |
| Chunking.ChunkCount | scrape_mfa.py:322-326 | there are ceil(n/size) chunks |
| Chunking.ChunkStreamLoss | scrape_mfa.py:322-326 | chunking a lazy stage keeps its ending; the batches it yields are a prefix of the items, all of them when the stage is exhausted; fewer than size items are lost when it raises, and then every yielded batch is full |
| Chunking.ChunkStreamMember | scrape_mfa.py:322-326 | every item of a yielded batch is an item of the chunked stage |
| Dedup.Deduplicate | scrape_mfa.py:262-280 | the loop writes exactly the first row of each key, in input order, and returns the keys seen |
| Dedup.KeysMember | scrape_mfa.py:275-280 | a key is in the returned set if and only if some row has it |
| Dedup.FirstOccurrencesDistinct | scrape_mfa.py:277-279 | the written rows have pairwise distinct keys |
| Dedup.FirstOccurrencesKeys | scrape_mfa.py:275-280 | the written rows have exactly the keys of the input |
| Dedup.FirstOccurrencesSubsequence | scrape_mfa.py:276-278 | the written rows are a subsequence of the input |
| Dedup.FirstOccurrencesPrefix | scrape_mfa.py:275-279 | deduplicating a prefix of the rows writes a prefix of what deduplicating all of them writes |
| Dedup.FirstOccurrencesAreFirst | scrape_mfa.py:277-279 | each written row is an input row whose key no earlier input row has |
| Dedup.DistinctFixpoint | scrape_mfa.py:275-280 | input whose keys are already distinct is written unchanged |
| Dedup.DeduplicateIdempotent | scrape_mfa.py:262-280 | deduplicating the extract again changes nothing |
| Dedup.DistinctCount | scrape_mfa.py:280 | for rows with distinct keys, the size of the returned key set is the number of rows |
| RecordStore.WriteRow | scrape_mfa.py:250-259 | a written row has exactly the fixed columns (extra keys are ignored), including thread_id, thread_created_utc, id and parent_id; each cell is the text of the record's value for that column, or empty when the record lacks it |
| RecordStore.Append | scrape_mfa.py:357-358 | appending keeps every existing row and adds one written row per record, in order |
| RecordStore.WriteRowOfThreadRecord | scrape_mfa.py:252-259 | a stored record keeps its thread id, its thread timestamp as decimal text and its comment id; the thread title is not a column and is dropped |
| RecordStore.TitleIsNotAColumn | scrape_mfa.py:47-92 | thread_title is not one of the stored columns |
| Checkpoint.MaxCreated | scrape_mfa.py:115-120 | the running max reads if and only if every stored timestamp parses; it is at least the seed and every timestamp, and equals the seed or one of them; otherwise the error is that of the first row that does not parse |
| Checkpoint.InitialPageBoundary | scrape_mfa.py:101-126 | a missing store gives START_TIME; otherwise the cursor exists if and only if every stored timestamp parses, is at least START_TIME - 1, is at least every stored timestamp minus one, and is START_TIME - 1 or one less than some stored timestamp; a failure is some row's error |
| Checkpoint.BoundaryIsLatestMinusOne | scrape_mfa.py:115-121 | with a latest stored timestamp T of at least START_TIME, the cursor is exactly T - 1 |
| Checkpoint.BoundaryAfterAppend | scrape_mfa.py:115-124 | after appending rows whose timestamps parse, the cursor still exists, never moves back, and is at most one below every appended timestamp |
| Checkpoint.CreatedAtWritten | scrape_mfa.py:118 | a cell holding a written timestamp parses back to that timestamp |
| Paginator.FetchDqThreadIds | scrape_mfa.py:129-154 | the paginator loop yields exactly the specification stream: each non-empty page in order, moving the cursor to each yielded thread's timestamp, and stopping at an empty page or at the first failed request |
| Paginator.PaginateRun | scrape_mfa.py:137-154 | for a run of pages, each fetched at the timestamp of the previous page's last thread, the paginator yields the concatenation of the pages, and then either is exhausted or raises the failing request's error |
| Paginator.PaginateFuel | scrape_mfa.py:137 | a larger page budget yields the same stream once the smaller one did not run out |
| Joiner.FetchCommentIdsOrder | scrape_mfa.py:184-201 | for an exhausted thread stream whose every listing succeeds, the references are each thread's comment ids, thread by thread in order, and the stage is exhausted |
| Joiner.FetchCommentIdsProvenance | scrape_mfa.py:197-201 | every reference carries a listed comment id and the fields of a thread of the input stream |
| Joiner.BatchIndex | scrape_mfa.py:208 | the batch dictionary's keys are exactly the batch's ids, and each entry is a reference of the batch with that id |
| Joiner.BatchIndexLast | scrape_mfa.py:208 | for a repeated id, the dictionary holds the last reference with that id |
| Joiner.RequestIdsOnce | scrape_mfa.py:208-212 | the requested ids are pairwise distinct, are exactly the batch's ids, keep the batch's order, and each prefix of the batch requests a prefix of them, so ids come in order of their first appearance |
| Joiner.Enrich | scrape_mfa.py:218-223 | a comment without an id raises KeyError("id"); an id outside the batch raises KeyError of that id; otherwise the comment merges exactly when correct_parent_id succeeds on it |
| Joiner.EnrichMerges | scrape_mfa.py:219-223 | a merged record has the comment's keys plus the reference's keys, takes id and the thread fields from the reference, has its parent_id normalised, and keeps every other field of the comment |
| Joiner.FetchCommentsComplete | scrape_mfa.py:209-223 | when every comment merges, the batch yields one record per returned comment, in order |
| Joiner.FetchCommentsProvenance | scrape_mfa.py:209-223 | every record yielded for a batch carries the id and thread fields of one of the batch's references, and is the merge of one of the comments the request for the batch returned |
| Joiner.FetchCommentsEnriched | scrape_mfa.py:209-223 | for any batch whose request succeeds, the records are the merges of a prefix of the returned comments, in order; the stage is exhausted exactly when every comment merges, and otherwise raises the error of the first comment that does not |
| Joiner.Unreferenced | scrape_mfa.py:218-219 | no error exactly when every returned comment has a string id the batch references; otherwise the error is the one merging some returned comment raises |
| Joiner.EnrichedTime | scrape_mfa.py:219-223 | a comment that merges is referenced by the batch, and the merged record's thread timestamp is that reference's thread creation time |
| Joiner.ByThreadEnriched | scrape_mfa.py:216-223 | every record of the corrected stage is the merge of a comment the lookup returned |
| Joiner.ByThreadComplete | scrape_mfa.py:216-223 | when the corrected stage finishes, the merge of every comment the lookup returned is among its records |
| Joiner.ByThreadOldestFirst | scrape_mfa.py:216-223 | in the corrected stage, when the merge of a returned comment is emitted, so is the merge of every returned comment of an older thread |
| Streams.SortedSinglesOldestFirst | scrape_mfa.py:216-223 | a one-value-per-input loop over its input sorted by key emits every item of smaller key before any item of larger key |
| Streams.OrderedSinglesOldestFirst | scrape_mfa.py:216-223 | a one-value-per-input loop over input already in key order emits every item of smaller key before any item of larger key |
| Sorting.SortBy | scrape_mfa.py:218 | sorting by a key yields a reordering of the input that is ordered by the key |
| Sorting.InsertBySorted | scrape_mfa.py:218 | inserting into a key-ordered sequence keeps it ordered |
| Checkpoint.SingleRowBoundary | scrape_mfa.py:115-121 | a store of one row with timestamp T of at least START_TIME gives the cursor T - 1 |
| Checkpoint.BoundaryMovedByAppend | scrape_mfa.py:115-121 | after appending rows whose timestamps parse, a cursor that moved forward is one second before one of the appended timestamps |
| Joiner.EmitPrefix | scrape_mfa.py:216-223 | the per-comment loop over any returned list yields the merges of a prefix of it, stopping with the error of the first comment that does not merge |
| Streams.FlatMapSingles | scrape_mfa.py:216-223 | a loop yielding one value per input, or raising, yields the values of a prefix of its input in order and raises the error of the first failing input |
| Pipeline.ScrapeMfa | scrape_mfa.py:329-365 | the pass's steps, in the program's order, compute exactly the specification outcome: the store after appending, the extract (only when nothing raised) and how the pass ended |
| Pipeline.CommentsProvenance | scrape_mfa.py:344-355 | every comment record of a pass carries a string id and the fields of a thread the pass paged through, and is the merge of a comment the lookup of one of the pass's batches returned |
| Pipeline.StoredComment | scrape_mfa.py:219-259 | the stored row of a merged comment holds the comment's id, its parent_id normalised (the "t1_" prefix stripped, a "t3_" parent empty, any other text as is), and the comment's own value in every other column it does not share with the reference |
| Pipeline.NormalisedParentCell | scrape_mfa.py:243-247 | for a string parent_id, correct_parent_id succeeds and the cell written for the new parent_id is the normalised text |
| Pipeline.OwnColumnKept | scrape_mfa.py:220-223 | a column that is neither id, parent_id nor a thread field is in the merged record exactly when it is in the comment, with the comment's value |
| Pipeline.AppendedRow | scrape_mfa.py:349-358 | the row appended for a comment record holds the record's string id, a parsable timestamp, and the id and timestamp of a thread the pass fetched |
| Pipeline.AppendedRowIsComment | scrape_mfa.py:349-358 | the row appended for a comment record is the written form of the merge of a comment the lookup of one of the pass's batches returned; it holds that comment's id and its normalised parent_id |
| Pipeline.PassKeepsStore | scrape_mfa.py:357-358 | a pass keeps every row it found, in place |
| Pipeline.PassAppendOnly | scrape_mfa.py:357-358 | a pass keeps every stored row; each row it adds has a parsable timestamp and the id and timestamp of a thread the pass fetched, and is the written form of the merge of a comment the lookup of one of the pass's batches returned, holding that comment's id |
| Pipeline.PassExtract | scrape_mfa.py:360-365 | an extract is written if and only if the pass ended without raising; it has pairwise distinct ids, exactly the ids of the store, is a subsequence of the store, and its size is the number of distinct ids |
| Pipeline.StoredTime | scrape_mfa.py:250-259 | the stored timestamp of a merged comment reads back as the creation time of the thread its reference belongs to |
| Pipeline.AppendCursor | scrape_mfa.py:115-121 | appending records whose timestamps parse keeps the cursor readable, and a cursor that moves lands one second before some appended record's timestamp |
| Pipeline.FirstRowCursor | scrape_mfa.py:115-121 | after the first record is stored, the cursor is one second before its timestamp when that is at least START_TIME |
| Pipeline.ArchiveOrderSkipsComment | scrape_mfa.py:216-223 | there is a batch of threads created after an empty store's cursor, and an archive answer for it, such that the stage as written leaves a returned comment unstored while the cursor it leaves behind is at or past that comment's thread |
| Pipeline.ByThreadStoredRow | scrape_mfa.py:216-223 | each record of the corrected stage is the merge of a returned comment and is stored with that comment's thread time |
| Pipeline.ByThreadResumeLosesNothing | scrape_mfa.py:115-123 | with the corrected stage, after a batch of threads created after the cursor is appended, finished or not, the cursor still reads and every returned comment whose thread is at or before the new cursor has been stored |
| Pipeline.PassResumes | scrape_mfa.py:339-358 | if the store read as a cursor before a pass, it still does afterwards, whether the pass finished or raised, and the cursor never moves back |
| Supervisor.RunWithRetries | scrape_mfa.py:378-400 | at most 7 restarts; the delays slept are 0, 10, 10, 20, 30, 60, 80 in that order; every attempt before the last raised; the status is 0 exactly when the last attempt finished, and 1 exactly when all 8 attempts raised |
| Supervisor.AttemptsAppendOnly | scrape_mfa.py:378-392 | across restarts no stored row is lost: each attempt's store extends the store of the previous attempt and the store the run started with |
| Supervisor.AttemptExtract | scrape_mfa.py:388-395 | an attempt that finishes writes an extract with each id of the final store exactly once, in store order |
| Supervisor.AttemptsResume | scrape_mfa.py:378-392 | once the store reads as a cursor, every later attempt resumes at or after it |
| Supervisor.UnreadableStoreIsStuck | scrape_mfa.py:378-392 | a store whose timestamps do not parse makes every attempt raise before fetching and leaves the store unchanged, so no restart can succeed |

## Left out

- HTTP: `fetch_json` and `requests.get` are not modelled. Each archive query is a function parameter that returns its data or `HttpFailure`. A pass takes its archive as a parameter, and so does every attempt of a run.
- `fetch_dq_thread_page`: its query parameters and its renaming of `id`/`created_utc`/`title` into thread fields are left out. A page is a list of `Thread` values.
- CSV encoding: the excel-tab dialect, quoting, and the columns header file written at the start of a pass are left out. A stored row is a map from column to text cell.
- int(): surrounding whitespace, `_` separators and non-ASCII digits are not modelled. An optional sign followed by ASCII digits parses.
- JSON values other than strings, integers and null (lists, booleans, floats, objects) are carried as their text rendering.
- Laziness and memory use: a stage is modelled by what it yielded before it ended. When the network is contacted relative to writes is not modelled, only what is written.
- `argparse`, `print`, `traceback.print_exc`, `time.sleep` and `sys.exit` are left out. The run returns the delays it would sleep and the exit status.
- The "Wrote N comments" message (`scrape_mfa.py:365`) prints the module-level `DEDUPLICATED_FILE` instead of the configured extract path. This affects output only and is not modelled.
- Pipeline.PassResumes: `initialize_output_file` (`scrape_mfa.py:97-98`) and `initial_page_boundary` (`scrape_mfa.py:111`) use the module-level `OUTPUT_FILE`, not the `output_file` argument the records are appended to. With `-o` set to another path, the cursor is read from the default file, which nothing writes, so every pass starts again at `START_TIME - 1`. The model reads the cursor from the store it appends to, so this lemma describes the program only when the store is the default path.
- Supervisor.AttemptsResume: for the same reason, resuming across restarts holds only when the store is the default path; with `-o` every attempt restarts from `START_TIME - 1` and stores again what earlier attempts stored.
- The comma-join of the requested ids into one query string is not modelled. The request is the list of distinct ids.
- `correct_parent_id` mutates the comment in place. It is modelled as a function returning the updated dictionary, since the caller does not use the comment afterwards.
- Paginator.FetchDqThreadIds: the `while True` loop is bounded by a page budget (`fuel`). When the budget runs out the model ends with `OutOfFuel`, which the program does not have. Paginator.PaginateFuel shows that a larger budget changes nothing once a smaller one sufficed.
- Joiner.Enrich: an unhashable comment id (a list or object) raises TypeError in the program. The model raises KeyError for it.
- Supervisor.RunWithRetries: it takes the attempts as a function value (`PassRunner` yields `Pass`, which `Pipeline.ScrapeMfa` computes). It does not call the method, so exceptions outside the pass are not modelled.
- A restart can lose comments even when the archive answers the same every time. `fetch_comments` writes a batch's comments in the order the archive returns them (`scrape_mfa.py:218`), while the next pass resumes one second before the latest stored thread (`scrape_mfa.py:115-121`). If a batch stops part-way after writing a comment of a newer thread, the unwritten comments of older threads in that batch are never fetched again (see "Findings"). The model proves the parts the program controls: nothing stored is lost and the cursor never moves back.
- Pipeline.ByThreadResumeLosesNothing: the corrected property covers one batch appended to a store whose cursor precedes all of that batch's threads. Across batches and across the two thread searches, it also relies on the threads arriving oldest first, which the model does not prove.

## Findings

| source | as written | input that shows it | evidently intended | confidence | as-written member | corrected member |
|---|---|---|---|---|---|---|
| scrape_mfa.py:218, scrape_mfa.py:115-121 | a batch's comments are written in the archive's order, and the next pass resumes one second before the latest stored thread | an empty store; batch [a, b of a thread created at START_TIME + 10, x of a thread created at START_TIME + 20]; the lookup returns x, then a with a null parent_id, then b. x is stored, a raises AttributeError, and the cursor becomes START_TIME + 19, so b is never stored and its thread is never fetched again | a restart fetches again every thread whose comments were not all stored, as the comment at scrape_mfa.py:121-123 intends for the latest thread | not executed | Pipeline.ArchiveOrderSkipsComment | Pipeline.ByThreadResumeLosesNothing (with Joiner.FetchCommentsByThread) |
