/**
  The data model of the scraper: JSON values, comment rows as dictionaries,
  thread descriptors, comment references, and the outcome of a lazy stage.
 */
module Records {

  /** 2017-05-06 (the day after the Simple Questions rule), the floor of the resume cursor. */
  const START_TIME: int := 1494028860

  /** Ordered column list of every stored record. */
  const COMMENT_FIELDS: seq<string> := [
    "thread_id", "thread_created_utc", "id", "created_utc", "author", "parent_id", "body",
    "all_awardings", "approved_at_utc", "associated_award", "author_flair_background_color",
    "author_flair_css_class", "author_flair_richtext", "author_flair_template_id",
    "author_flair_text", "author_flair_text_color", "author_flair_type", "author_fullname",
    "author_patreon_flair", "author_premium", "awarders", "banned_at_utc", "can_mod_post",
    "collapsed", "collapsed_because_crowd_control", "collapsed_reason", "comment_type",
    "distinguished", "edited", "gildings", "is_submitter", "link_id", "locked", "no_follow",
    "permalink", "retrieved_on", "score", "send_replies", "stickied", "subreddit",
    "subreddit_id", "top_awarded_type", "total_awards_received", "treatment_tags"
  ]

  /**
    A JSON value as the pipeline sees it: strings and integers are inspected,
    null is written as an empty cell, and every other value (lists, booleans,
    floats, objects) is passed through and written as its text rendering.
   */
  datatype Value = Str(s: string) | Int(i: int) | Null | Other(text: string)

  /** A comment object: a dictionary from field names to values. */
  type Row = map<string, Value>

  /** A thread descriptor (fields thread_id, thread_created_utc, thread_title). */
  datatype Thread = Thread(id: string, createdUtc: int, title: string)

  /** A comment identifier together with the thread it belongs to. */
  datatype CommentRef = CommentRef(id: string, thread: Thread)

  /** The exceptions the pipeline can raise. */
  datatype Error =
    | HttpFailure                 // non-200 status or a body that is not JSON
    | KeyError(key: Value)        // dictionary lookup of an absent key
    | AttributeError(name: string) // a method called on a value that lacks it
    | TypeError(field: string)    // int() of a missing (None) cell
    | ValueError(text: string)    // int() of a cell that is not an integer literal
    | OutOfFuel                   // the model's page budget ran out (not an exception of the program)

  /** How a lazy stage ended: it was exhausted, or it raised. */
  datatype Status = Complete | Raised(error: Error)

  /** What a lazy stage yielded before it ended, and how it ended. */
  datatype Stream<T> = Stream(items: seq<T>, status: Status)

  /** The thread descriptor as a dictionary. */
  function ThreadFields(t: Thread): Row {
    map["thread_id" := Str(t.id), "thread_created_utc" := Int(t.createdUtc), "thread_title" := Str(t.title)]
  }

  /** The comment reference as a dictionary: `{"id": id, **thread}`. */
  function RefFields(r: CommentRef): Row {
    map["id" := Str(r.id)] + ThreadFields(r.thread)
  }

  /** The record carries the three fields of thread `t`. */
  predicate FromThread(rec: Row, t: Thread) {
    && "thread_id" in rec && rec["thread_id"] == Str(t.id)
    && "thread_created_utc" in rec && rec["thread_created_utc"] == Int(t.createdUtc)
    && "thread_title" in rec && rec["thread_title"] == Str(t.title)
  }

  /** The reference dictionary keeps the comment id (no thread field is named "id")
      and carries every thread field unchanged. */
  lemma RefFieldsOfRef(r: CommentRef)
    ensures RefFields(r).Keys == {"id", "thread_id", "thread_created_utc", "thread_title"}
    ensures RefFields(r)["id"] == Str(r.id)
    ensures FromThread(RefFields(r), r.thread)
  {
  }
}
