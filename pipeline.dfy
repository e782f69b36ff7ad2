/**
  One pass of the scraper: resume from the store, page through both thread
  searches, join threads to comments, append every comment to the store as it
  is produced, and, if nothing raised, write the deduplicated extract.
 */
module Pipeline {
  import opened Wrappers
  import opened Records
  import opened Streams
  import opened Chunking
  import opened Dedup
  import opened RecordStore
  import opened Checkpoint
  import opened Paginator
  import opened Joiner
  import opened ParentId

  /** Ids per comment-lookup request. */
  const BATCH_SIZE: int := 500

  /** The two titles of the recurring thread, searched in this order. */
  const FIRST_TERM: string := "Simple Questions"
  const SECOND_TERM: string := "Daily Questions"

  /** The three queries of the archive API. */
  datatype Api = Api(page: PageApi, commentIds: CommentIdApi, resolve: ResolveApi)

  /** What a pass leaves behind: the record store, the extract it wrote (None if it raised first), how it ended. */
  datatype Outcome = Outcome(store: seq<StoredRow>, extract: Option<seq<StoredRow>>, status: Status)

  /** Both thread searches, from the same cursor, the second only once the first is exhausted. */
  function Threads(api: Api, after: int, fuel: nat): Stream<Thread> {
    Then(Paginate(api.page, FIRST_TERM, after, fuel), Paginate(api.page, SECOND_TERM, after, fuel))
  }

  /** The per-batch step of the comment stage. */
  function Resolver(api: Api): seq<CommentRef> -> Stream<Row> {
    b => FetchComments(api.resolve, b)
  }

  /** The batches of the comment stage: the references of a thread stream, 500 at a time. */
  function Batches(api: Api, threads: Stream<Thread>): Stream<seq<CommentRef>> {
    ChunkStream(BATCH_SIZE, FetchCommentIds(api.commentIds, threads))
  }

  /** Comment records for a thread stream: references, batches of 500, resolved batch by batch. */
  function Comments(api: Api, threads: Stream<Thread>): Stream<Row> {
    FlatMapStream(Batches(api, threads), Resolver(api))
  }

  /** The store a pass starts from: a missing store is created empty first. */
  function Initialized(store: Option<seq<StoredRow>>): seq<StoredRow> {
    if store.Some? then store.value else []
  }

  /** The threads a pass pages through (none when the store does not read as a cursor). */
  function FetchedThreads(api: Api, store: Option<seq<StoredRow>>, fuel: nat): seq<Thread> {
    match InitialPageBoundary(Some(Initialized(store)))
    case Ok(after) => Threads(api, after, fuel).items
    case Err(_) => []
  }

  /** The batches a pass looks up (none when the store does not read as a cursor). */
  function PassBatches(api: Api, store: Option<seq<StoredRow>>, fuel: nat): seq<seq<CommentRef>> {
    match InitialPageBoundary(Some(Initialized(store)))
    case Ok(after) => Batches(api, Threads(api, after, fuel)).items
    case Err(_) => []
  }

  /** `scrape_mfa` as a function of the API, the store it finds, and the page budget of each search. */
  function Pass(api: Api, store: Option<seq<StoredRow>>, fuel: nat): Outcome {
    var rows := Initialized(store);
    match InitialPageBoundary(Some(rows))
    case Err(e) => Outcome(rows, None, Raised(e))
    case Ok(after) =>
      var comments := Comments(api, Threads(api, after, fuel));
      var stored := Append(rows, comments.items);
      if comments.status.Raised? then Outcome(stored, None, comments.status)
      else Outcome(stored, Some(FirstOccurrences(stored, IdOf)), Complete)
  }

  /** `scrape_mfa`: the steps of one pass, in the program's order. */
  method ScrapeMfa(api: Api, store: Option<seq<StoredRow>>, fuel: nat) returns (outcome: Outcome)
    ensures outcome == Pass(api, store, fuel)
  {
    var rows := if store.Some? then store.value else [];
    var boundary := InitialPageBoundary(Some(rows));
    if boundary.Err? {
      return Outcome(rows, None, Raised(boundary.error));
    }
    var after := boundary.value;
    var threads := FetchDqThreadIds(api.page, FIRST_TERM, after, fuel);
    if threads.status.Complete? {
      var more := FetchDqThreadIds(api.page, SECOND_TERM, after, fuel);
      threads := Stream(threads.items + more.items, more.status);
    }
    var comments := Comments(api, threads);
    var stored := Append(rows, comments.items);
    if comments.status.Raised? {
      return Outcome(stored, None, comments.status);
    }
    var extract, ids := Deduplicate(stored, IdOf);
    return Outcome(stored, Some(extract), Complete);
  }

  /**
    Every comment record of a pass is the enrichment of a comment the lookup
    request of one of its batches returned, and carries a string id and the
    fields of a thread the pass paged through.
   */
  lemma CommentsProvenance(api: Api, threads: Stream<Thread>, rec: Row)
    requires rec in Comments(api, threads).items
    ensures exists t :: t in threads.items && FromThread(rec, t)
    ensures "id" in rec && rec["id"].Str?
    ensures exists b: seq<CommentRef>, c: Row ::
              b in Batches(api, threads).items && Returned(api.resolve, b, c) && Enrich(b, c) == Ok(rec)
  {
    var refs := FetchCommentIds(api.commentIds, threads);
    var batches := Batches(api, threads);
    assert rec in FlatMap(batches.items, Resolver(api)).items;
    FlatMapProvenance(batches.items, Resolver(api), rec);
    var i :| 0 <= i < |batches.items| && rec in Resolver(api)(batches.items[i]).items;
    var b := batches.items[i];
    FetchCommentsProvenance(api.resolve, b, rec);
    var r :| r in b && "id" in rec && rec["id"] == Str(r.id) && FromThread(rec, r.thread);
    ChunkStreamMember(BATCH_SIZE, refs, b, r);
    FetchCommentIdsProvenance(api.commentIds, threads, r);
  }

  /**
    What reaches the store for a resolved comment: its id, its parent id
    normalised (the text after `t1_`, an empty cell for `t3_`, any other text
    as it was), and every other column of the comment as text, an empty cell
    where the comment lacks it.
   */
  lemma StoredComment(batch: seq<CommentRef>, c: Row)
    requires Enrich(batch, c).Ok?
    ensures "id" in c && c["id"].Str? && "parent_id" in c && c["parent_id"].Str?
    ensures var row, p := WriteRow(Enrich(batch, c).value), c["parent_id"].s;
            && IdOf(row) == Some(c["id"].s)
            && row["parent_id"] == NormalisedParent(p)
            && forall f :: OwnColumn(f) && f in row ==> row[f] == (if f in c then Cell(c[f]) else "")
  {
    EnrichMerges(batch, c);
    var rec := Enrich(batch, c).value;
    var row := WriteRow(rec);
    assert row["id"] == Cell(rec["id"]);
    NormalisedParentCell(c);
    assert row["parent_id"] == Cell(rec["parent_id"]);
    forall f | OwnColumn(f) && f in row
      ensures row[f] == (if f in c then Cell(c[f]) else "")
    {
      OwnColumnKept(batch, c, f);
    }
  }

  /** The stored text of a normalised parent id. */
  lemma NormalisedParentCell(c: Row)
    requires "parent_id" in c && c["parent_id"].Str?
    ensures var p := c["parent_id"].s;
            && CorrectParentId(c).Ok? && "parent_id" in CorrectParentId(c).value
            && Cell(CorrectParentId(c).value["parent_id"])
               == NormalisedParent(p)
  {
    var p := c["parent_id"].s;
    if "t1_" <= p {
      assert p == "t1_" + p[3..];
    } else if "t3_" <= p {
      assert p == "t3_" + p[3..];
    }
  }

  /** The text a stored parent id cell holds: after `t1_`, empty for `t3_`, otherwise unchanged. */
  function NormalisedParent(p: string): string {
    if "t1_" <= p then p[3..] else if "t3_" <= p then "" else p
  }

  /** A column the comment supplies itself passes through the merge untouched. */
  lemma OwnColumnKept(batch: seq<CommentRef>, c: Row, f: string)
    requires Enrich(batch, c).Ok? && OwnColumn(f)
    ensures f in Enrich(batch, c).value <==> f in c
    ensures f in c ==> Enrich(batch, c).value[f] == c[f]
  {
    EnrichMerges(batch, c);
    RefFieldsOfRef(BatchIndex(batch)[c["id"].s]);
  }

  /** A column the comment itself supplies: not the id, thread fields or parent id the pipeline sets. */
  predicate OwnColumn(f: string) {
    f != "id" && f != "thread_id" && f != "thread_created_utc" && f != "thread_title" && f != "parent_id"
  }

  /**
    The row appended for one comment record holds its id, a parsable
    timestamp, and the id and timestamp of a thread the stage paged through.
   */
  lemma AppendedRow(api: Api, threads: Stream<Thread>, rec: Row)
    requires rec in Comments(api, threads).items
    ensures var row := WriteRow(rec);
            && "id" in rec && rec["id"].Str? && IdOf(row) == Some(rec["id"].s)
            && CreatedAt(row).Ok?
            && exists t :: t in threads.items && row["thread_id"] == t.id && CreatedAt(row) == Ok(t.createdUtc)
  {
    CommentsProvenance(api, threads, rec);
    var t :| t in threads.items && FromThread(rec, t);
    WriteRowOfThreadRecord(rec, t);
    CreatedAtWritten(WriteRow(rec), t.createdUtc);
  }

  /**
    The row appended for one comment record is the written form of a comment
    the lookup of one of the stage's batches returned: it holds that comment's
    id and its normalised parent id.
   */
  lemma AppendedRowIsComment(api: Api, threads: Stream<Thread>, rec: Row)
    requires rec in Comments(api, threads).items
    ensures exists b: seq<CommentRef>, c: Row ::
              && b in Batches(api, threads).items && Returned(api.resolve, b, c) && Enrich(b, c) == Ok(rec)
              && "id" in c && c["id"].Str? && IdOf(WriteRow(rec)) == Some(c["id"].s)
              && "parent_id" in c && c["parent_id"].Str?
              && WriteRow(rec)["parent_id"] == NormalisedParent(c["parent_id"].s)
  {
    CommentsProvenance(api, threads, rec);
    var b: seq<CommentRef>, c: Row :| b in Batches(api, threads).items && Returned(api.resolve, b, c) && Enrich(b, c) == Ok(rec);
    StoredComment(b, c);
  }

  /** A pass keeps every row it found, in place. */
  lemma PassKeepsStore(api: Api, store: Option<seq<StoredRow>>, fuel: nat)
    ensures Initialized(store) <= Pass(api, store, fuel).store
  {
    var rows := Initialized(store);
    if InitialPageBoundary(Some(rows)).Ok? {
      var threads := Threads(api, InitialPageBoundary(Some(rows)).value, fuel);
      assert Pass(api, store, fuel).store == Append(rows, Comments(api, threads).items);
    }
  }

  /**
    The store is append-only: a pass keeps every row it found and adds one row
    per comment record it produced before finishing or raising. Each added
    row carries the id and timestamp of a fetched thread, and is the written
    form of a comment the lookup of one of the pass's batches returned,
    holding that comment's id.
   */
  lemma PassAppendOnly(api: Api, store: Option<seq<StoredRow>>, fuel: nat)
    ensures Initialized(store) <= Pass(api, store, fuel).store
    ensures forall j :: |Initialized(store)| <= j < |Pass(api, store, fuel).store| ==>
              AppendedByPass(api, store, fuel, Pass(api, store, fuel).store[j])
  {
    PassKeepsStore(api, store, fuel);
    forall j | |Initialized(store)| <= j < |Pass(api, store, fuel).store|
      ensures AppendedByPass(api, store, fuel, Pass(api, store, fuel).store[j])
    {
      PassRowFacts(api, store, fuel, j);
    }
  }

  /**
    A row a pass appended: it parses, carries the id and timestamp of a thread
    the pass fetched, and is the written form of a comment the lookup of one
    of the pass's batches returned, holding that comment's id.
   */
  ghost predicate AppendedByPass(api: Api, store: Option<seq<StoredRow>>, fuel: nat, row: StoredRow) {
    && CreatedAt(row).Ok? && "thread_id" in row
    && (exists t :: t in FetchedThreads(api, store, fuel)
                    && row["thread_id"] == t.id && CreatedAt(row) == Ok(t.createdUtc))
    && exists b: seq<CommentRef>, c: Row ::
         && b in PassBatches(api, store, fuel) && Returned(api.resolve, b, c) && Enrich(b, c).Ok?
         && row == WriteRow(Enrich(b, c).value)
         && "id" in c && c["id"].Str? && IdOf(row) == Some(c["id"].s)
  }

  /** One row a pass appended, with the threads and batches of that pass. */
  lemma PassRowFacts(api: Api, store: Option<seq<StoredRow>>, fuel: nat, j: nat)
    requires |Initialized(store)| <= j < |Pass(api, store, fuel).store|
    ensures AppendedByPass(api, store, fuel, Pass(api, store, fuel).store[j])
  {
    var rows := Initialized(store);
    assert InitialPageBoundary(Some(rows)).Ok?;
    var threads := Threads(api, InitialPageBoundary(Some(rows)).value, fuel);
    var comments := Comments(api, threads);
    assert Pass(api, store, fuel).store == Append(rows, comments.items);
    assert FetchedThreads(api, store, fuel) == threads.items;
    assert PassBatches(api, store, fuel) == Batches(api, threads).items;
    var rec := comments.items[j - |rows|];
    assert Pass(api, store, fuel).store[j] == WriteRow(rec);
    AppendedRowFacts(api, threads, rec);
  }

  /** The facts `PassAppendOnly` states of one appended row, for the threads and batches of the stage. */
  lemma AppendedRowFacts(api: Api, threads: Stream<Thread>, rec: Row)
    requires rec in Comments(api, threads).items
    ensures var row := WriteRow(rec);
            && CreatedAt(row).Ok?
            && (exists t :: t in threads.items && row["thread_id"] == t.id && CreatedAt(row) == Ok(t.createdUtc))
            && exists b: seq<CommentRef>, c: Row ::
                 && b in Batches(api, threads).items && Returned(api.resolve, b, c) && Enrich(b, c).Ok?
                 && row == WriteRow(Enrich(b, c).value)
                 && "id" in c && c["id"].Str? && IdOf(row) == Some(c["id"].s)
  {
    AppendedRow(api, threads, rec);
    AppendedRowIsComment(api, threads, rec);
  }

  /**
    A pass writes an extract exactly when it ends without raising; the extract
    keeps the first stored row of every id, in store order, with pairwise
    distinct ids and every id of the store.
   */
  lemma PassExtract(api: Api, store: Option<seq<StoredRow>>, fuel: nat)
    ensures Pass(api, store, fuel).extract.Some? <==> Pass(api, store, fuel).status.Complete?
    ensures Pass(api, store, fuel).extract.Some? ==>
              var out := Pass(api, store, fuel);
              && DistinctKeys(out.extract.value, IdOf)
              && Keys(out.extract.value, IdOf) == Keys(out.store, IdOf)
              && IsSubsequence(out.extract.value, out.store)
              && |Keys(out.store, IdOf)| == |out.extract.value|
  {
    var out := Pass(api, store, fuel);
    if out.extract.Some? {
      FirstOccurrencesDistinct(out.store, IdOf);
      FirstOccurrencesKeys(out.store, IdOf);
      FirstOccurrencesSubsequence(out.store, IdOf);
      DistinctCount(out.extract.value, IdOf);
    }
  }

  /**
    Restart safety: if the store read as a cursor before a pass, it still
    does after the pass, whether the pass finished or raised, and the cursor
    never moves back. (Since the cursor is one second before the latest stored
    thread, the next pass fetches that thread again in full.)
   */
  lemma PassResumes(api: Api, store: Option<seq<StoredRow>>, fuel: nat)
    requires InitialPageBoundary(Some(Initialized(store))).Ok?
    ensures InitialPageBoundary(Some(Pass(api, store, fuel).store)).Ok?
    ensures InitialPageBoundary(Some(Initialized(store))).value
            <= InitialPageBoundary(Some(Pass(api, store, fuel).store)).value
  {
    var rows := Initialized(store);
    var out := Pass(api, store, fuel);
    var threads := Threads(api, InitialPageBoundary(Some(rows)).value, fuel);
    var comments := Comments(api, threads);
    assert out.store == Append(rows, comments.items);
    var added := out.store[|rows|..];
    assert out.store == rows + added;
    forall i | 0 <= i < |added|
      ensures CreatedAt(added[i]).Ok?
    {
      assert added[i] == WriteRow(comments.items[i]);
      AppendedRow(api, threads, comments.items[i]);
    }
    BoundaryAfterAppend(rows, added);
  }

  /** The stored timestamp of an enriched comment is its thread's creation time. */
  lemma StoredTime(batch: seq<CommentRef>, c: Row)
    requires Enrich(batch, c).Ok?
    ensures CreatedAt(WriteRow(Enrich(batch, c).value)) == Ok(ThreadTime(batch, c))
  {
    EnrichMerges(batch, c);
    var ref := BatchIndex(batch)[c["id"].s];
    WriteRowOfThreadRecord(Enrich(batch, c).value, ref.thread);
    CreatedAtWritten(WriteRow(Enrich(batch, c).value), ref.thread.createdUtc);
  }

  /** A thread created at START_TIME + 10 with two comments, `a` and `b`. */
  const OLDER: Thread := Thread("1", START_TIME + 10, FIRST_TERM)

  /** A thread created at START_TIME + 20 with one comment, `x`. */
  const NEWER: Thread := Thread("2", START_TIME + 20, FIRST_TERM)

  /** A batch holding the references of both threads, in thread order. */
  const SKIP_BATCH: seq<CommentRef> := [CommentRef("a", OLDER), CommentRef("b", OLDER), CommentRef("x", NEWER)]

  /** The comments the lookup returns for it, newer thread first; `a` has a null parent id. */
  const SKIP_X: Row := map["id" := Str("x"), "parent_id" := Str("t1_a")]
  const SKIP_A: Row := map["id" := Str("a"), "parent_id" := Null]
  const SKIP_B: Row := map["id" := Str("b"), "parent_id" := Str("t3_1")]

  /** A lookup that returns `x`, `a`, `b` in that order. */
  function SkipResolve(): ResolveApi {
    ids => Ok([SKIP_X, SKIP_A, SKIP_B])
  }

  /** The batch dictionary of the example: `b` maps to the older thread, `x` to the newer. */
  lemma SkipIndex()
    ensures "a" in Ids(SKIP_BATCH) && "b" in Ids(SKIP_BATCH) && "x" in Ids(SKIP_BATCH)
    ensures BatchIndex(SKIP_BATCH)["b"].thread == OLDER && BatchIndex(SKIP_BATCH)["x"].thread == NEWER
  {
    assert Ids(SKIP_BATCH)[0] == "a" && Ids(SKIP_BATCH)[1] == "b" && Ids(SKIP_BATCH)[2] == "x";
    assert BatchIndex(SKIP_BATCH)["x"] == SKIP_BATCH[2];
    assert BatchIndex(SKIP_BATCH)["b"] == SKIP_BATCH[1];
  }

  /** `x` enriches with the newer thread's time. */
  lemma SkipEnrichX()
    ensures Enrich(SKIP_BATCH, SKIP_X).Ok? && ThreadTime(SKIP_BATCH, SKIP_X) == START_TIME + 20
    ensures Enrich(SKIP_BATCH, SKIP_X).value["id"] == Str("x")
  {
    SkipIndex();
    EnrichMerges(SKIP_BATCH, SKIP_X);
  }

  /** `a` raises on its null parent id. */
  lemma SkipEnrichA()
    ensures Enrich(SKIP_BATCH, SKIP_A) == Err(AttributeError("startswith"))
  {
    SkipIndex();
  }

  /** `b` enriches with the older thread's time. */
  lemma SkipEnrichB()
    ensures HasRef(SKIP_BATCH, SKIP_B)
    ensures Enrich(SKIP_BATCH, SKIP_B).Ok? && ThreadTime(SKIP_BATCH, SKIP_B) == START_TIME + 10
    ensures Enrich(SKIP_BATCH, SKIP_B).value["id"] == Str("b")
  {
    SkipIndex();
    EnrichMerges(SKIP_BATCH, SKIP_B);
  }

  /** As written, the example batch stores `x` and then raises on `a`. */
  lemma SkipOut()
    ensures FetchComments(SkipResolve(), SKIP_BATCH).items == [Enrich(SKIP_BATCH, SKIP_X).value]
  {
    var data := [SKIP_X, SKIP_A, SKIP_B];
    var f := Emitter(SKIP_BATCH);
    assert SkipResolve()(RequestIds(SKIP_BATCH)) == Ok(data);
    assert FetchComments(SkipResolve(), SKIP_BATCH) == FlatMap(data, f);
    SkipEnrichX();
    SkipEnrichA();
    assert f(SKIP_X) == Stream([Enrich(SKIP_BATCH, SKIP_X).value], Complete);
    assert f(SKIP_A) == Stream([], Raised(AttributeError("startswith")));
    assert data[1..] == [SKIP_A, SKIP_B];
    assert FlatMap(data[1..], f) == f(SKIP_A);
  }

  /** Storing `x` into an empty store moves the cursor to START_TIME + 19. */
  lemma SkipCursor()
    ensures InitialPageBoundary(Some(Append([], [Enrich(SKIP_BATCH, SKIP_X).value]))) == Ok(START_TIME + 19)
  {
    SkipEnrichX();
    StoredTime(SKIP_BATCH, SKIP_X);
    FirstRowCursor(Enrich(SKIP_BATCH, SKIP_X).value, START_TIME + 20);
  }

  /** A first stored record with a timestamp of at least START_TIME puts the cursor one second before it. */
  lemma FirstRowCursor(rec: Row, t: int)
    requires CreatedAt(WriteRow(rec)) == Ok(t) && START_TIME <= t
    ensures InitialPageBoundary(Some(Append([], [rec]))) == Ok(t - 1)
  {
    assert Append([], [rec]) == [WriteRow(rec)];
    SingleRowBoundary(WriteRow(rec), t);
  }

  /** Every thread of the example was created after the cursor of an empty store. */
  lemma SkipAfterStart()
    ensures InitialPageBoundary(Some([])) == Ok(START_TIME - 1)
    ensures forall r :: r in SKIP_BATCH ==> START_TIME - 1 < r.thread.createdUtc
  {
    var empty: seq<StoredRow> := [];
    assert InitialPageBoundary(Some(empty)) == Ok(START_TIME - 1);
  }

  /** The lookup returns `b` for the example batch. */
  lemma SkipReturned()
    ensures Returned(SkipResolve(), SKIP_BATCH, SKIP_B)
  {
    assert SkipResolve()(RequestIds(SKIP_BATCH)) == Ok([SKIP_X, SKIP_A, SKIP_B]);
  }

  /**
    As written, a restart can skip a returned comment for good. In the batch
    `[a, b, x]`, `a` and `b` belong to a thread created at START_TIME + 10 and
    `x` to one created at START_TIME + 20. The lookup returns `x`, then `a`
    with a null parent id, then `b`: `x` is stored, `a` raises, and the
    cursor moves to START_TIME + 19. The thread of `b` is then at or before
    the cursor, so no later pass fetches it again, yet `b` was never stored.
   */
  lemma ArchiveOrderSkipsComment()
    ensures exists resolve: ResolveApi, batch: seq<CommentRef>, c: Row :: SkipsForGood(resolve, batch, c)
  {
    SkipEnrichB();
    SkipEnrichX();
    SkipCursor();
    LeftBehindOne(SKIP_BATCH, SKIP_B, Enrich(SKIP_BATCH, SKIP_X).value, START_TIME + 19);
    SkipOut();
    SkipAfterStart();
    SkipReturned();
    assert SkipsForGood(SkipResolve(), SKIP_BATCH, SKIP_B);
  }

  /** A comment is left behind by a store holding the single record `rec` that is not its merge. */
  lemma LeftBehindOne(batch: seq<CommentRef>, c: Row, rec: Row, next: int)
    requires InitialPageBoundary(Some(Append([], [rec]))) == Ok(next)
    requires HasRef(batch, c) && Enrich(batch, c).Ok? && ThreadTime(batch, c) <= next
    requires "id" in Enrich(batch, c).value && "id" in rec && Enrich(batch, c).value["id"] != rec["id"]
    ensures LeftBehind(batch, c, [rec])
  {
  }

  /**
    Starting from an empty store, the stage as written leaves returned comment
    `c` of a batch of threads created after the cursor unstored, although
    its thread is at or before the cursor the stored records give.
   */
  ghost predicate SkipsForGood(resolve: ResolveApi, batch: seq<CommentRef>, c: Row) {
    && (forall r :: r in batch ==> InitialPageBoundary(Some([])).value < r.thread.createdUtc)
    && Returned(resolve, batch, c)
    && LeftBehind(batch, c, FetchComments(resolve, batch).items)
  }

  /**
    Appending `recs` to an empty store moves the cursor to or past the thread
    of referenced comment `c`, whose merge is not among `recs`.
   */
  ghost predicate LeftBehind(batch: seq<CommentRef>, c: Row, recs: seq<Row>) {
    var next := InitialPageBoundary(Some(Append([], recs)));
    && HasRef(batch, c) && Enrich(batch, c).Ok?
    && next.Ok? && ThreadTime(batch, c) <= next.value
    && Enrich(batch, c).value !in recs
  }

  /**
    With the comments of a batch emitted oldest thread first, a restart
    skips nothing: when a batch of threads fetched after the cursor is
    appended, finished or not, every returned comment whose thread the next
    pass will not fetch again (created at or before the new cursor) has been
    stored.
   */
  lemma ByThreadResumeLosesNothing(rows: seq<StoredRow>, resolve: ResolveApi, batch: seq<CommentRef>)
    requires InitialPageBoundary(Some(rows)).Ok?
    requires forall r :: r in batch ==> InitialPageBoundary(Some(rows)).value < r.thread.createdUtc
    ensures InitialPageBoundary(Some(Append(rows, FetchCommentsByThread(resolve, batch).items))).Ok?
    ensures forall c :: Returned(resolve, batch, c) && HasRef(batch, c)
              && ThreadTime(batch, c) <= InitialPageBoundary(Some(Append(rows, FetchCommentsByThread(resolve, batch).items))).value
              ==> Enrich(batch, c).Ok? && Enrich(batch, c).value in FetchCommentsByThread(resolve, batch).items
  {
    var out := FetchCommentsByThread(resolve, batch);
    forall k | 0 <= k < |out.items|
      ensures CreatedAt(WriteRow(out.items[k])).Ok?
    {
      ByThreadStoredRow(resolve, batch, k);
    }
    AppendCursor(rows, out.items);
    var next := InitialPageBoundary(Some(Append(rows, out.items))).value;
    forall c: Row | Returned(resolve, batch, c) && HasRef(batch, c) && ThreadTime(batch, c) <= next
      ensures Enrich(batch, c).Ok? && Enrich(batch, c).value in out.items
    {
      assert BatchIndex(batch)[c["id"].s] in batch;
      var k :| 0 <= k < |out.items| && CreatedAt(WriteRow(out.items[k])).value == next + 1;
      ByThreadStoredRow(resolve, batch, k);
      var d :| Returned(resolve, batch, d) && Enrich(batch, d) == Ok(out.items[k])
               && CreatedAt(WriteRow(out.items[k])) == Ok(ThreadTime(batch, d));
      ByThreadOldestFirst(resolve, batch, c, d);
    }
  }

  /**
    Appending records whose stored timestamps parse keeps the store readable
    as a cursor, and a cursor that moves sits one second before the stored
    timestamp of an appended record.
   */
  lemma AppendCursor(rows: seq<StoredRow>, recs: seq<Row>)
    requires InitialPageBoundary(Some(rows)).Ok?
    requires forall k :: 0 <= k < |recs| ==> CreatedAt(WriteRow(recs[k])).Ok?
    ensures InitialPageBoundary(Some(Append(rows, recs))).Ok?
    ensures InitialPageBoundary(Some(rows)).value < InitialPageBoundary(Some(Append(rows, recs))).value ==>
              exists k :: 0 <= k < |recs|
                          && CreatedAt(WriteRow(recs[k])).value == InitialPageBoundary(Some(Append(rows, recs))).value + 1
  {
    var all := Append(rows, recs);
    var added := all[|rows|..];
    assert all == rows + added;
    assert forall k :: 0 <= k < |recs| ==> added[k] == WriteRow(recs[k]);
    BoundaryMovedByAppend(rows, added);
  }

  /** Each record of the ordered stage is an enriched returned comment, stored with its thread's time. */
  lemma ByThreadStoredRow(resolve: ResolveApi, batch: seq<CommentRef>, k: nat)
    requires k < |FetchCommentsByThread(resolve, batch).items|
    ensures exists d :: Returned(resolve, batch, d) && Enrich(batch, d) == Ok(FetchCommentsByThread(resolve, batch).items[k])
                        && CreatedAt(WriteRow(FetchCommentsByThread(resolve, batch).items[k])) == Ok(ThreadTime(batch, d))
  {
    var out := FetchCommentsByThread(resolve, batch);
    ByThreadEnriched(resolve, batch);
    assert MergeOfReturned(resolve, batch, out.items[k]);
    var d :| Returned(resolve, batch, d) && Enrich(batch, d) == Ok(out.items[k]);
    StoredTime(batch, d);
  }
}
