/** Normalisation of a comment's `parent_id` field. */
module ParentId {
  import opened Wrappers
  import opened Records

  /**
    `t1_<x>` (parent is a comment) becomes `<x>`; `t3_<x>` (parent is the
    submission) becomes null; any other string is left alone. A comment
    without `parent_id` raises KeyError, and a non-string `parent_id` has no
    `startswith` and raises AttributeError.
   */
  function CorrectParentId(c: Row): (r: Result<Row, Error>)
    ensures "parent_id" !in c ==> r == Err(KeyError(Str("parent_id")))
    ensures "parent_id" in c && !c["parent_id"].Str? ==> r == Err(AttributeError("startswith"))
    ensures "parent_id" in c && c["parent_id"].Str? ==> r.Ok?
    ensures r.Ok? ==> r.value.Keys == c.Keys
    ensures r.Ok? ==> forall k :: k in c && k != "parent_id" ==> r.value[k] == c[k]
    ensures forall x :: "parent_id" in c && c["parent_id"] == Str("t1_" + x) ==> r == Ok(c["parent_id" := Str(x)])
    ensures forall x :: "parent_id" in c && c["parent_id"] == Str("t3_" + x) ==> r == Ok(c["parent_id" := Null])
    ensures "parent_id" in c && c["parent_id"].Str? && !("t1_" <= c["parent_id"].s) && !("t3_" <= c["parent_id"].s)
            ==> r == Ok(c)
  {
    if "parent_id" !in c then Err(KeyError(Str("parent_id")))
    else match c["parent_id"]
      case Str(p) =>
        if "t1_" <= p then
          assert forall x :: p != "t3_" + x by {
            assert p[1] == '1';
          }
          Ok(c["parent_id" := Str(p[3..])])
        else if "t3_" <= p then Ok(c["parent_id" := Null])
        else Ok(c)
      case _ => Err(AttributeError("startswith"))
  }
}
