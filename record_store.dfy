/**
  The record store as rows of text cells: what appending a record writes (a
  tab-separated row over the fixed column list) and what reading it back gives.
 */
module RecordStore {
  import opened Wrappers
  import opened Records
  import Decimal

  /** A stored row as read back: one text cell per column; a column the row lacks reads as None. */
  type StoredRow = map<string, string>

  /** The text a value is written as: strings as they are, integers in decimal, null as an empty cell. */
  function Cell(v: Value): string {
    match v
    case Str(s) => s
    case Int(i) => Decimal.Show(i)
    case Null => ""
    case Other(text) => text
  }

  /**
    The row written for a record: exactly the fixed columns, each holding the
    record's value as text, or an empty cell where the record lacks the
    column; keys outside the column list are ignored.
   */
  function WriteRow(rec: Row): (r: StoredRow)
    ensures forall f :: f in r <==> f in COMMENT_FIELDS
    ensures forall f :: f in r ==> r[f] == (if f in rec then Cell(rec[f]) else "")
    ensures "thread_id" in r && "thread_created_utc" in r && "id" in r && "parent_id" in r
  {
    assert COMMENT_FIELDS[0] == "thread_id";
    assert COMMENT_FIELDS[1] == "thread_created_utc";
    assert COMMENT_FIELDS[2] == "id";
    assert COMMENT_FIELDS[5] == "parent_id";
    map f | f in COMMENT_FIELDS :: if f in rec then Cell(rec[f]) else ""
  }

  /** A column of a stored row, None when the row lacks it. */
  function Get(row: StoredRow, f: string): Option<string> {
    if f in row then Some(row[f]) else None
  }

  /** The key deduplication uses: the row's `id` cell. */
  function IdOf(row: StoredRow): Option<string> {
    Get(row, "id")
  }

  /** The store after appending `recs` one row at a time. */
  function Append(store: seq<StoredRow>, recs: seq<Row>): (r: seq<StoredRow>)
    ensures |r| == |store| + |recs| && r[..|store|] == store
    ensures forall i :: 0 <= i < |recs| ==> r[|store| + i] == WriteRow(recs[i])
  {
    store + seq(|recs|, i requires 0 <= i < |recs| => WriteRow(recs[i]))
  }

  /** A stored record keeps its thread id, thread timestamp and id as text; the thread
      title is not a column and is dropped. */
  lemma WriteRowOfThreadRecord(rec: Row, t: Thread)
    requires FromThread(rec, t)
    ensures WriteRow(rec)["thread_id"] == t.id
    ensures WriteRow(rec)["thread_created_utc"] == Decimal.Show(t.createdUtc)
    ensures "thread_title" !in WriteRow(rec)
    ensures "id" in rec && rec["id"].Str? ==> IdOf(WriteRow(rec)) == Some(rec["id"].s)
  {
    TitleIsNotAColumn();
  }

  lemma TitleIsNotAColumn()
    ensures "thread_title" !in COMMENT_FIELDS
  {
    forall i | 0 <= i < |COMMENT_FIELDS|
      ensures COMMENT_FIELDS[i] != "thread_title"
    {
    }
  }
}
