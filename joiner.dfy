/** The two join stages: threads to comment references, and batches of references to full comments. */
module Joiner {
  import opened Wrappers
  import opened Records
  import opened Streams
  import opened Dedup
  import opened ParentId
  import opened Sorting

  /** The comment-id listing of one thread. */
  type CommentIdApi = string -> Result<seq<string>, Error>

  /** The batch lookup of full comments by id. */
  type ResolveApi = seq<string> -> Result<seq<Row>, Error>

  /** One reference per comment id of thread `t`, in listing order. */
  function RefsOf(t: Thread, ids: seq<string>): seq<CommentRef> {
    seq(|ids|, i requires 0 <= i < |ids| => CommentRef(ids[i], t))
  }

  /** The references of one thread, or the failure of its listing. */
  function ThreadRefs(commentIds: CommentIdApi, t: Thread): Stream<CommentRef> {
    match commentIds(t.id)
    case Ok(ids) => Stream(RefsOf(t, ids), Complete)
    case Err(e) => Stream([], Raised(e))
  }

  /** The per-thread step of `fetch_comment_ids`. */
  function Lister(commentIds: CommentIdApi): Thread -> Stream<CommentRef> {
    t => ThreadRefs(commentIds, t)
  }

  /** `fetch_comment_ids`: the references of each thread in turn. */
  function FetchCommentIds(commentIds: CommentIdApi, threads: Stream<Thread>): Stream<CommentRef> {
    FlatMapStream(threads, Lister(commentIds))
  }

  /**
    When every listing succeeds, the references come thread by thread and, within
    a thread, in listing order, each carrying its comment id and its thread.
   */
  lemma FetchCommentIdsOrder(commentIds: CommentIdApi, threads: seq<Thread>, ids: seq<seq<string>>)
    requires |ids| == |threads|
    requires forall i :: 0 <= i < |threads| ==> commentIds(threads[i].id) == Ok(ids[i])
    ensures FetchCommentIds(commentIds, Stream(threads, Complete))
            == Stream(Flatten(seq(|threads|, i requires 0 <= i < |threads| => RefsOf(threads[i], ids[i]))), Complete)
  {
    var f := Lister(commentIds);
    FlatMapComplete(threads, f);
    assert Outputs(threads, f) == seq(|threads|, i requires 0 <= i < |threads| => RefsOf(threads[i], ids[i]));
  }

  /** Every reference belongs to one of the threads and carries its fields. */
  lemma FetchCommentIdsProvenance(commentIds: CommentIdApi, threads: Stream<Thread>, r: CommentRef)
    requires r in FetchCommentIds(commentIds, threads).items
    ensures r.thread in threads.items
    ensures FromThread(RefFields(r), r.thread) && RefFields(r)["id"] == Str(r.id)
  {
    var f := Lister(commentIds);
    assert r in FlatMap(threads.items, f).items;
    FlatMapProvenance(threads.items, f, r);
    var i :| 0 <= i < |threads.items| && r in f(threads.items[i]).items;
    RefFieldsOfRef(r);
  }

  /** The ids of a batch, in batch order. */
  function Ids(batch: seq<CommentRef>): (ids: seq<string>)
    ensures |ids| == |batch| && forall i :: 0 <= i < |batch| ==> ids[i] == batch[i].id
  {
    seq(|batch|, i requires 0 <= i < |batch| => batch[i].id)
  }

  /** The batch as a dictionary from id to reference: a later reference with the same id replaces an earlier one. */
  function BatchIndex(batch: seq<CommentRef>): (m: map<string, CommentRef>)
    ensures forall id :: id in m <==> id in Ids(batch)
    ensures forall id :: id in m ==> m[id].id == id && m[id] in batch
  {
    if batch == [] then map[]
    else
      var init, last := batch[..|batch| - 1], batch[|batch| - 1];
      assert Ids(batch) == Ids(init) + [last.id];
      BatchIndex(init)[last.id := last]
  }

  /** The reference an id maps to is the last one in the batch with that id. */
  lemma {:induction false} BatchIndexLast(batch: seq<CommentRef>, id: string)
    requires id in BatchIndex(batch)
    ensures exists i :: 0 <= i < |batch| && batch[i] == BatchIndex(batch)[id]
                        && forall j :: i < j < |batch| ==> batch[j].id != id
  {
    var init, last := batch[..|batch| - 1], batch[|batch| - 1];
    assert batch == init + [last];
    if last.id != id {
      assert Ids(batch) == Ids(init) + [last.id];
      assert BatchIndex(batch)[id] == BatchIndex(init)[id];
      BatchIndexLast(init, id);
      var i :| 0 <= i < |init| && init[i] == BatchIndex(init)[id] && forall j :: i < j < |init| ==> init[j].id != id;
      assert batch[i] == init[i];
      forall j | i < j < |batch|
        ensures batch[j].id != id
      {
        if j < |init| { assert batch[j] == init[j]; }
      }
    } else {
      assert BatchIndex(batch) == BatchIndex(init)[last.id := last];
      assert batch[|batch| - 1] == BatchIndex(batch)[id];
    }
  }

  /** The ids requested for a batch: the dictionary's keys in insertion order. */
  function RequestIds(batch: seq<CommentRef>): seq<string> {
    FirstOccurrences(Ids(batch), (id: string) => id)
  }

  /**
    The request names every id of the batch exactly once, in order of first
    appearance: the request for the first `n` references is a prefix of the
    request for the whole batch.
   */
  lemma RequestIdsOnce(batch: seq<CommentRef>)
    ensures forall i, j :: 0 <= i < j < |RequestIds(batch)| ==> RequestIds(batch)[i] != RequestIds(batch)[j]
    ensures forall id :: id in RequestIds(batch) <==> exists i :: 0 <= i < |batch| && batch[i].id == id
    ensures IsSubsequence(RequestIds(batch), Ids(batch))
    ensures forall n :: 0 <= n <= |batch| ==> RequestIds(batch[..n]) <= RequestIds(batch)
  {
    var key := (id: string) => id;
    forall n | 0 <= n <= |batch|
      ensures RequestIds(batch[..n]) <= RequestIds(batch)
    {
      assert Ids(batch[..n]) == Ids(batch)[..n];
      FirstOccurrencesPrefix(Ids(batch), key, n);
    }
    FirstOccurrencesDistinct(Ids(batch), key);
    FirstOccurrencesKeys(Ids(batch), key);
    FirstOccurrencesSubsequence(Ids(batch), key);
    forall id
      ensures id in RequestIds(batch) <==> exists i :: 0 <= i < |batch| && batch[i].id == id
    {
      KeysMember(RequestIds(batch), key, id);
      KeysMember(Ids(batch), key, id);
      if id in RequestIds(batch) {
        var i :| 0 <= i < |RequestIds(batch)| && RequestIds(batch)[i] == id;
      }
    }
  }

  /**
    One resolved comment as emitted: its `id` is looked up in the batch (a
    missing `id` key or an id not in the batch raises KeyError), its
    parent id is normalised, and the reference's fields are merged over it.
   */
  function Enrich(batch: seq<CommentRef>, c: Row): (r: Result<Row, Error>)
    ensures "id" !in c ==> r == Err(KeyError(Str("id")))
    ensures "id" in c && !(c["id"].Str? && c["id"].s in Ids(batch)) ==> r == Err(KeyError(c["id"]))
    ensures "id" in c && c["id"].Str? && c["id"].s in Ids(batch) ==>
              (r.Ok? <==> CorrectParentId(c).Ok?) && (r.Err? ==> r == Err(CorrectParentId(c).error))
  {
    var index := BatchIndex(batch);
    if "id" !in c then Err(KeyError(Str("id")))
    else if !(c["id"].Str? && c["id"].s in index) then Err(KeyError(c["id"]))
    else
      match CorrectParentId(c)
      case Err(e) => Err(e)
      case Ok(fixed) => Ok(fixed + RefFields(index[c["id"].s]))
  }

  /**
    An emitted record keeps the resolved comment's id, carries the fields of
    the batch reference with that id over the comment's own, holds the
    normalised parent id, and leaves every other field of the comment as it was.
   */
  lemma EnrichMerges(batch: seq<CommentRef>, c: Row)
    requires Enrich(batch, c).Ok?
    ensures "id" in c && c["id"].Str? && c["id"].s in Ids(batch)
    ensures var ref, rec := BatchIndex(batch)[c["id"].s], Enrich(batch, c).value;
            && rec["id"] == c["id"]
            && FromThread(rec, ref.thread)
            && rec.Keys == c.Keys + RefFields(ref).Keys
            && "parent_id" in rec && rec["parent_id"] == CorrectParentId(c).value["parent_id"]
            && forall k :: k in c && k !in RefFields(ref) && k != "parent_id" ==> rec[k] == c[k]
  {
    var ref := BatchIndex(batch)[c["id"].s];
    RefFieldsOfRef(ref);
    var fixed := CorrectParentId(c).value;
    assert "parent_id" in fixed;
  }

  /** The emission of one resolved comment as a one-item stage. */
  function EmitComment(batch: seq<CommentRef>, c: Row): Stream<Row> {
    Single(Enrich(batch, c))
  }

  /** The per-comment step of `fetch_comments` for one batch. */
  function Emitter(batch: seq<CommentRef>): Row -> Stream<Row> {
    c => EmitComment(batch, c)
  }

  /** `fetch_comments`: resolve the batch's ids in one request, then emit each resolved comment. */
  function FetchComments(resolve: ResolveApi, batch: seq<CommentRef>): Stream<Row> {
    match resolve(RequestIds(batch))
    case Err(e) => Stream([], Raised(e))
    case Ok(data) => FlatMap(data, Emitter(batch))
  }

  /**
    A batch that completes yields one record per resolved comment, in the
    order resolved, each the enrichment of that comment.
   */
  lemma FetchCommentsComplete(resolve: ResolveApi, batch: seq<CommentRef>)
    requires FetchComments(resolve, batch).status.Complete?
    ensures resolve(RequestIds(batch)).Ok?
    ensures |FetchComments(resolve, batch).items| == |resolve(RequestIds(batch)).value|
    ensures forall i :: 0 <= i < |FetchComments(resolve, batch).items| ==>
              Enrich(batch, resolve(RequestIds(batch)).value[i]) == Ok(FetchComments(resolve, batch).items[i])
  {
    var data := resolve(RequestIds(batch)).value;
    var f := Emitter(batch);
    FlatMapStatus(data, f);
    FlatMapComplete(data, f);
    var outs := Outputs(data, f);
    assert forall i :: 0 <= i < |data| ==> outs[i] == [Enrich(batch, data[i]).value];
    SingletonsFlatten(outs);
  }

  /**
    Emitting resolved comments stops at the first one that does not enrich:
    the records are the enrichments of a prefix of `data`, in order; the
    stage is exhausted exactly when every comment enriches, and otherwise
    raises the error of the first comment that does not.
   */
  lemma EmitPrefix(batch: seq<CommentRef>, data: seq<Row>)
    ensures var out := FlatMap(data, Emitter(batch));
            && |out.items| <= |data|
            && (forall i :: 0 <= i < |out.items| ==> Enrich(batch, data[i]) == Ok(out.items[i]))
            && (out.status.Complete? <==> forall i :: 0 <= i < |data| ==> Enrich(batch, data[i]).Ok?)
            && (out.status.Complete? ==> |out.items| == |data|)
            && (out.status.Raised? ==>
                  |out.items| < |data| && Enrich(batch, data[|out.items|]) == Err(out.status.error))
  {
    FlatMapSingles(data, Emitter(batch), c => Enrich(batch, c));
  }

  /**
    Whenever the lookup request succeeds, finished or not, the batch yields the
    enrichments of a prefix of the resolved comments, in the order resolved,
    and raises exactly at the first comment that does not enrich.
   */
  lemma FetchCommentsEnriched(resolve: ResolveApi, batch: seq<CommentRef>)
    requires resolve(RequestIds(batch)).Ok?
    ensures var data, out := resolve(RequestIds(batch)).value, FetchComments(resolve, batch);
            && |out.items| <= |data|
            && (forall i :: 0 <= i < |out.items| ==> Enrich(batch, data[i]) == Ok(out.items[i]))
            && (out.status.Complete? <==> forall i :: 0 <= i < |data| ==> Enrich(batch, data[i]).Ok?)
            && (out.status.Raised? ==>
                  |out.items| < |data| && Enrich(batch, data[|out.items|]) == Err(out.status.error))
  {
    EmitPrefix(batch, resolve(RequestIds(batch)).value);
  }

  /** Comment `c` is one the lookup request for the batch returned. */
  predicate Returned(resolve: ResolveApi, batch: seq<CommentRef>, c: Row) {
    resolve(RequestIds(batch)).Ok? && c in resolve(RequestIds(batch)).value
  }

  /** Comment `c` has a reference in the batch: its id is a string the batch lists. */
  predicate HasRef(batch: seq<CommentRef>, c: Row) {
    "id" in c && c["id"].Str? && c["id"].s in BatchIndex(batch)
  }

  /** The creation time of the thread a comment's reference names (0 for a comment without one). */
  function ThreadTime(batch: seq<CommentRef>, c: Row): int {
    if HasRef(batch, c) then BatchIndex(batch)[c["id"].s].thread.createdUtc else 0
  }

  /** The thread creation time a record carries (0 for a record without one). */
  function RecordTime(rec: Row): int {
    if "thread_created_utc" in rec && rec["thread_created_utc"].Int? then rec["thread_created_utc"].i else 0
  }

  /** An enriched comment carries the creation time of its reference's thread. */
  lemma EnrichedTime(batch: seq<CommentRef>, c: Row)
    requires Enrich(batch, c).Ok?
    ensures HasRef(batch, c)
    ensures RecordTime(Enrich(batch, c).value) == ThreadTime(batch, c)
  {
    EnrichMerges(batch, c);
  }

  /** The KeyError of the first comment of `data` without a reference in the batch, if there is one. */
  function Unreferenced(batch: seq<CommentRef>, data: seq<Row>): (r: Option<Error>)
    ensures r.None? <==> forall c :: c in data ==> HasRef(batch, c)
    ensures r.Some? ==> exists c :: c in data && Enrich(batch, c) == Err(r.value)
    decreases |data|
  {
    if data == [] then None
    else
      assert data == [data[0]] + data[1..];
      if !HasRef(batch, data[0]) then Some(Enrich(batch, data[0]).error)
      else Unreferenced(batch, data[1..])
  }

  /**
    `fetch_comments` with the resolved comments put in order of their
    thread's creation time before any is emitted, as sorting them with that
    time as the key would: a comment with no reference in the batch raises
    its KeyError while the key is computed, before anything is emitted.
   */
  function FetchCommentsByThread(resolve: ResolveApi, batch: seq<CommentRef>): Stream<Row> {
    match resolve(RequestIds(batch))
    case Err(e) => Stream([], Raised(e))
    case Ok(data) =>
      match Unreferenced(batch, data)
      case Some(e) => Stream([], Raised(e))
      case None => FlatMap(SortBy(data, TimeKey(batch)), Emitter(batch))
  }

  /** The sort key of the ordered stage. */
  function TimeKey(batch: seq<CommentRef>): Row -> int {
    c => ThreadTime(batch, c)
  }

  /** `rec` is the enrichment of a comment the lookup of `batch` returned. */
  ghost predicate MergeOfReturned(resolve: ResolveApi, batch: seq<CommentRef>, rec: Row) {
    exists c :: Returned(resolve, batch, c) && Enrich(batch, c) == Ok(rec)
  }

  /** Every record of the ordered stage is the enrichment of a returned comment. */
  lemma ByThreadEnriched(resolve: ResolveApi, batch: seq<CommentRef>)
    ensures var out := FetchCommentsByThread(resolve, batch);
            forall k :: 0 <= k < |out.items| ==> MergeOfReturned(resolve, batch, out.items[k])
  {
    if resolve(RequestIds(batch)).Ok? && Unreferenced(batch, resolve(RequestIds(batch)).value).None? {
      var data := resolve(RequestIds(batch)).value;
      var ys := SortBy(data, TimeKey(batch));
      assert FetchCommentsByThread(resolve, batch) == FlatMap(ys, Emitter(batch));
      ReorderedEmitFrom(resolve, batch, ys);
    } else {
      assert FetchCommentsByThread(resolve, batch).items == [];
    }
  }

  /** When the ordered stage is exhausted it has emitted the enrichment of every returned comment. */
  lemma ByThreadComplete(resolve: ResolveApi, batch: seq<CommentRef>)
    ensures var out := FetchCommentsByThread(resolve, batch);
            out.status.Complete? ==>
              forall c :: Returned(resolve, batch, c) ==> Enrich(batch, c).Ok? && Enrich(batch, c).value in out.items
  {
    if resolve(RequestIds(batch)).Ok? && Unreferenced(batch, resolve(RequestIds(batch)).value).None? {
      var data := resolve(RequestIds(batch)).value;
      var ys := SortBy(data, TimeKey(batch));
      assert FetchCommentsByThread(resolve, batch) == FlatMap(ys, Emitter(batch));
      ReorderedEmitAll(batch, data, ys);
    }
  }

  /**
    When the ordered stage emits a reordering `ys` of the returned comments,
    every record it emits is the enrichment of a returned comment.
   */
  lemma ReorderedEmitFrom(resolve: ResolveApi, batch: seq<CommentRef>, ys: seq<Row>)
    requires resolve(RequestIds(batch)).Ok? && multiset(ys) == multiset(resolve(RequestIds(batch)).value)
    requires FetchCommentsByThread(resolve, batch) == FlatMap(ys, Emitter(batch))
    ensures var out := FetchCommentsByThread(resolve, batch);
            forall k :: 0 <= k < |out.items| ==> MergeOfReturned(resolve, batch, out.items[k])
  {
    var out := FlatMap(ys, Emitter(batch));
    EmitPrefix(batch, ys);
    forall k | 0 <= k < |out.items|
      ensures MergeOfReturned(resolve, batch, out.items[k])
    {
      assert ys[k] in multiset(resolve(RequestIds(batch)).value);
      assert Returned(resolve, batch, ys[k]);
    }
  }

  /** Emitting a reordering `ys` of `data` to the end emits the enrichment of every comment of `data`. */
  lemma ReorderedEmitAll(batch: seq<CommentRef>, data: seq<Row>, ys: seq<Row>)
    requires multiset(ys) == multiset(data)
    ensures var out := FlatMap(ys, Emitter(batch));
            out.status.Complete? ==> forall c :: c in data ==> Enrich(batch, c).Ok? && Enrich(batch, c).value in out.items
  {
    var out := FlatMap(ys, Emitter(batch));
    EmitPrefix(batch, ys);
    if out.status.Complete? {
      forall c | c in data
        ensures Enrich(batch, c).Ok? && Enrich(batch, c).value in out.items
      {
        assert c in multiset(ys);
        var j :| 0 <= j < |ys| && ys[j] == c;
        assert Enrich(batch, ys[j]) == Ok(out.items[j]);
      }
    }
  }

  /**
    The ordered stage emits oldest thread first: once the enrichment of a
    returned comment is emitted, so is that of every returned comment of an
    older thread, whether the stage goes on to finish or raises.
   */
  lemma ByThreadOldestFirst(resolve: ResolveApi, batch: seq<CommentRef>, c: Row, d: Row)
    requires Returned(resolve, batch, c) && Returned(resolve, batch, d)
    requires Enrich(batch, d).Ok? && Enrich(batch, d).value in FetchCommentsByThread(resolve, batch).items
    requires ThreadTime(batch, c) < ThreadTime(batch, d)
    ensures Enrich(batch, c).Ok? && Enrich(batch, c).value in FetchCommentsByThread(resolve, batch).items
  {
    var data := resolve(RequestIds(batch)).value;
    assert Unreferenced(batch, data).None?;
    forall x | Enrich(batch, x).Ok?
      ensures RecordTime(Enrich(batch, x).value) == TimeKey(batch)(x)
    {
      EnrichedTime(batch, x);
    }
    SortedSinglesOldestFirst(data, TimeKey(batch), Emitter(batch), c => Enrich(batch, c), RecordTime, c, d);
  }

  lemma {:induction false} SingletonsFlatten<T>(outs: seq<seq<T>>)
    requires forall i :: 0 <= i < |outs| ==> |outs[i]| == 1
    ensures |Flatten(outs)| == |outs| && forall i :: 0 <= i < |outs| ==> Flatten(outs)[i] == outs[i][0]
  {
    if outs != [] {
      SingletonsFlatten(outs[1..]);
    }
  }

  /**
    Every emitted record is the enrichment of a comment the request returned,
    and carries the id and the thread fields of a reference in the batch.
   */
  lemma FetchCommentsProvenance(resolve: ResolveApi, batch: seq<CommentRef>, rec: Row)
    requires rec in FetchComments(resolve, batch).items
    ensures exists r :: r in batch && "id" in rec && rec["id"] == Str(r.id) && FromThread(rec, r.thread)
    ensures resolve(RequestIds(batch)).Ok?
    ensures exists c :: c in resolve(RequestIds(batch)).value && Enrich(batch, c) == Ok(rec)
  {
    var ids := RequestIds(batch);
    match resolve(ids)
    case Ok(data) =>
      assert rec in FlatMap(data, Emitter(batch)).items;
      FlatMapProvenance(data, Emitter(batch), rec);
      var i :| 0 <= i < |data| && rec in Emitter(batch)(data[i]).items;
      EmitCommentProvenance(batch, data[i], rec);
      assert Enrich(batch, data[i]) == Ok(rec);
  }

  lemma EmitCommentProvenance(batch: seq<CommentRef>, c: Row, rec: Row)
    requires rec in EmitComment(batch, c).items
    ensures exists r :: r in batch && "id" in rec && rec["id"] == Str(r.id) && FromThread(rec, r.thread)
  {
    EnrichMerges(batch, c);
    var ref := BatchIndex(batch)[c["id"].s];
    assert ref in batch && rec["id"] == Str(ref.id) && FromThread(rec, ref.thread);
  }
}
