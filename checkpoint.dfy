/** Where a run resumes: recomputed from the record store on every pass. */
module Checkpoint {
  import opened Wrappers
  import opened Records
  import opened RecordStore
  import Decimal

  /** `int(row["thread_created_utc"])`: None (a short row) raises TypeError, a non-integer text ValueError. */
  function CreatedAt(row: StoredRow): Result<int, Error> {
    if "thread_created_utc" !in row then Err(TypeError("thread_created_utc"))
    else match Decimal.Parse(row["thread_created_utc"])
      case Some(n) => Ok(n)
      case None => Err(ValueError(row["thread_created_utc"]))
  }

  /**
    `max` over `acc` followed by the timestamps of `rows`, read in order: the
    first row that does not read as an integer raises its error.
   */
  function MaxCreated(acc: int, rows: seq<StoredRow>): (r: Result<int, Error>)
    ensures r.Ok? <==> forall i :: 0 <= i < |rows| ==> CreatedAt(rows[i]).Ok?
    ensures r.Ok? ==> acc <= r.value && forall i :: 0 <= i < |rows| ==> CreatedAt(rows[i]).value <= r.value
    ensures r.Ok? ==> r.value == acc || exists i :: 0 <= i < |rows| && CreatedAt(rows[i]).value == r.value
    ensures r.Err? ==> exists i :: 0 <= i < |rows| && CreatedAt(rows[i]) == Err(r.error)
                                   && forall j :: 0 <= j < i ==> CreatedAt(rows[j]).Ok?
    decreases |rows|
  {
    if rows == [] then Ok(acc)
    else match CreatedAt(rows[0])
      case Err(e) => Err(e)
      case Ok(n) =>
        var r := MaxCreated(if n > acc then n else acc, rows[1..]);
        assert forall i :: 1 <= i < |rows| ==> rows[i] == rows[1..][i - 1];
        r
  }

  /**
    `initial_page_boundary`: a missing store gives START_TIME; otherwise one
    second before the latest of START_TIME and every stored thread timestamp
    (so an existing but empty store gives START_TIME - 1), unless a stored
    timestamp does not read as an integer, which raises.
   */
  function InitialPageBoundary(store: Option<seq<StoredRow>>): (r: Result<int, Error>)
    ensures store.None? ==> r == Ok(START_TIME)
    ensures store.Some? ==> (r.Ok? <==> forall i :: 0 <= i < |store.value| ==> CreatedAt(store.value[i]).Ok?)
    ensures store.Some? && r.Ok? ==> START_TIME - 1 <= r.value
    ensures store.Some? && r.Ok? ==>
              forall i :: 0 <= i < |store.value| ==> CreatedAt(store.value[i]).value <= r.value + 1
    ensures store.Some? && r.Ok? ==>
              r.value == START_TIME - 1
              || exists i :: 0 <= i < |store.value| && CreatedAt(store.value[i]).value == r.value + 1
    ensures store.Some? && r.Err? ==>
              exists i :: 0 <= i < |store.value| && CreatedAt(store.value[i]) == Err(r.error)
  {
    match store
    case None => Ok(START_TIME)
    case Some(rows) =>
      match MaxCreated(START_TIME, rows)
      case Ok(latest) => Ok(latest - 1)
      case Err(e) => Err(e)
  }

  /** With a largest stored timestamp T >= START_TIME the cursor is exactly T - 1. */
  lemma BoundaryIsLatestMinusOne(rows: seq<StoredRow>, k: nat)
    requires k < |rows| && forall i :: 0 <= i < |rows| ==> CreatedAt(rows[i]).Ok?
    requires forall i :: 0 <= i < |rows| ==> CreatedAt(rows[i]).value <= CreatedAt(rows[k]).value
    requires CreatedAt(rows[k]).value >= START_TIME
    ensures InitialPageBoundary(Some(rows)) == Ok(CreatedAt(rows[k]).value - 1)
  {
  }

  /** A store of one row with timestamp T >= START_TIME gives the cursor T - 1. */
  lemma SingleRowBoundary(row: StoredRow, t: int)
    requires CreatedAt(row) == Ok(t) && START_TIME <= t
    ensures InitialPageBoundary(Some([row])) == Ok(t - 1)
  {
    BoundaryIsLatestMinusOne([row], 0);
  }

  /**
    Resumption after appending: if the store read as a cursor before, it still
    does, the cursor never moves back, and every appended timestamp is at most
    one past it.
   */
  lemma BoundaryAfterAppend(old_rows: seq<StoredRow>, new_rows: seq<StoredRow>)
    requires InitialPageBoundary(Some(old_rows)).Ok?
    requires forall i :: 0 <= i < |new_rows| ==> CreatedAt(new_rows[i]).Ok?
    ensures InitialPageBoundary(Some(old_rows + new_rows)).Ok?
    ensures InitialPageBoundary(Some(old_rows)).value <= InitialPageBoundary(Some(old_rows + new_rows)).value
    ensures forall i :: 0 <= i < |new_rows| ==>
              CreatedAt(new_rows[i]).value <= InitialPageBoundary(Some(old_rows + new_rows)).value + 1
  {
    var all := old_rows + new_rows;
    assert forall i :: 0 <= i < |old_rows| ==> all[i] == old_rows[i];
    assert forall i :: 0 <= i < |new_rows| ==> all[|old_rows| + i] == new_rows[i];
    var c0 := InitialPageBoundary(Some(old_rows)).value;
    var c1 := InitialPageBoundary(Some(all)).value;
    if c0 != START_TIME - 1 {
      var i :| 0 <= i < |old_rows| && CreatedAt(old_rows[i]).value == c0 + 1;
      assert CreatedAt(all[i]).value <= c1 + 1;
    }
    forall i | 0 <= i < |new_rows|
      ensures CreatedAt(new_rows[i]).value <= c1 + 1
    {
      assert CreatedAt(all[|old_rows| + i]).value <= c1 + 1;
    }
  }

  /** A cursor that moves when rows are appended moves to one second before an appended timestamp. */
  lemma BoundaryMovedByAppend(old_rows: seq<StoredRow>, new_rows: seq<StoredRow>)
    requires InitialPageBoundary(Some(old_rows)).Ok?
    requires forall i :: 0 <= i < |new_rows| ==> CreatedAt(new_rows[i]).Ok?
    ensures InitialPageBoundary(Some(old_rows + new_rows)).Ok?
    ensures InitialPageBoundary(Some(old_rows)).value < InitialPageBoundary(Some(old_rows + new_rows)).value ==>
              exists i :: 0 <= i < |new_rows|
                          && CreatedAt(new_rows[i]).value == InitialPageBoundary(Some(old_rows + new_rows)).value + 1
  {
    BoundaryAfterAppend(old_rows, new_rows);
    var all := old_rows + new_rows;
    var c0 := InitialPageBoundary(Some(old_rows)).value;
    var c1 := InitialPageBoundary(Some(all)).value;
    if c0 < c1 {
      forall j | 0 <= j < |old_rows|
        ensures CreatedAt(all[j]).value <= c0 + 1
      {
        assert all[j] == old_rows[j];
      }
      var i :| 0 <= i < |all| && CreatedAt(all[i]).value == c1 + 1;
      assert all[i] == new_rows[i - |old_rows|];
    }
  }

  /** A timestamp written as a cell reads back as itself. */
  lemma CreatedAtWritten(row: StoredRow, t: int)
    requires "thread_created_utc" in row && row["thread_created_utc"] == Decimal.Show(t)
    ensures CreatedAt(row) == Ok(t)
  {
    Decimal.ParseShow(t);
  }
}
