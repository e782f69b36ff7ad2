/** Walking the thread search one page at a time with a timestamp cursor. */
module Paginator {
  import opened Wrappers
  import opened Records
  import opened Streams

  /** The thread search: threads matching a title created after a timestamp, oldest first. */
  type PageApi = (string, int) -> Result<seq<Thread>, Error>

  /**
    The threads the paginator yields with a budget of `fuel` page requests:
    the pages in request order, the first requested at `after` and each later
    one at the timestamp of the last thread of the page before; it stops at
    the first empty page, and a failed request raises.
   */
  function Paginate(page: PageApi, term: string, after: int, fuel: nat): Stream<Thread>
    decreases fuel
  {
    if fuel == 0 then Stream([], Raised(OutOfFuel))
    else match page(term, after)
      case Err(e) => Stream([], Raised(e))
      case Ok(p) =>
        if |p| == 0 then Stream([], Complete)
        else Then(Stream(p, Complete), Paginate(page, term, p[|p| - 1].createdUtc, fuel - 1))
  }

  /**
    `fetch_dq_thread_ids`: request a page at the cursor; stop on an empty
    page; otherwise yield its threads one by one, moving the cursor to each
    yielded thread's timestamp.
   */
  method FetchDqThreadIds(page: PageApi, term: string, after: int, fuel: nat) returns (s: Stream<Thread>)
    ensures s == Paginate(page, term, after, fuel)
  {
    var cursor := after;
    var yielded: seq<Thread> := [];
    var budget := fuel;
    while budget > 0
      invariant Paginate(page, term, after, fuel) == Then(Stream(yielded, Complete), Paginate(page, term, cursor, budget))
      decreases budget
    {
      var response := page(term, cursor);
      if response.Err? {
        return Stream(yielded, Raised(response.error));
      }
      var threads := response.value;
      if |threads| == 0 {
        return Stream(yielded, Complete);
      }
      ghost var before := yielded;
      for i := 0 to |threads|
        invariant yielded == before + threads[..i]
        invariant i > 0 ==> cursor == threads[i - 1].createdUtc
      {
        yielded := yielded + [threads[i]];
        cursor := threads[i].createdUtc;
      }
      assert threads[..|threads|] == threads;
      budget := budget - 1;
    }
    return Stream(yielded, Raised(OutOfFuel));
  }

  /**
    The requests of a run that ends after `|pages|` non-empty pages: request
    `i` is made at `cursors[i]` and returns `pages[i]`; the first cursor is
    `after`, each next cursor is the timestamp of the last thread of the page
    before; the final request, at `cursors[|pages|]`, returns `last`.
   */
  ghost predicate IsRun(page: PageApi, term: string, after: int, cursors: seq<int>, pages: seq<seq<Thread>>,
                        last: Result<seq<Thread>, Error>)
  {
    && |cursors| == |pages| + 1
    && cursors[0] == after
    && (forall i :: 0 <= i < |pages| ==> page(term, cursors[i]) == Ok(pages[i]) && pages[i] != [])
    && (forall i :: 0 <= i < |pages| ==> cursors[i + 1] == pages[i][|pages[i]| - 1].createdUtc)
    && page(term, cursors[|pages|]) == last
  }

  /**
    A run whose final request returns an empty page or fails yields the
    concatenation of its pages, then ends without error or with that failure,
    given a budget of more requests than it has non-empty pages.
   */
  lemma {:induction false} PaginateRun(page: PageApi, term: string, after: int, fuel: nat,
                                       cursors: seq<int>, pages: seq<seq<Thread>>, last: Result<seq<Thread>, Error>)
    requires IsRun(page, term, after, cursors, pages, last)
    requires last == Ok([]) || last.Err?
    requires |pages| < fuel
    ensures Paginate(page, term, after, fuel)
            == Stream(Flatten(pages), if last.Ok? then Complete else Raised(last.error))
    decreases |pages|
  {
    if pages != [] {
      assert page(term, cursors[0]) == Ok(pages[0]);
      assert IsRun(page, term, cursors[1], cursors[1..], pages[1..], last) by {
        forall i | 0 <= i < |pages[1..]|
          ensures page(term, cursors[1..][i]) == Ok(pages[1..][i]) && pages[1..][i] != []
          ensures cursors[1..][i + 1] == pages[1..][i][|pages[1..][i]| - 1].createdUtc
        {
          assert cursors[1..][i] == cursors[i + 1] && pages[1..][i] == pages[i + 1];
        }
      }
      PaginateRun(page, term, cursors[1], fuel - 1, cursors[1..], pages[1..], last);
      assert Paginate(page, term, after, fuel)
             == Then(Stream(pages[0], Complete), Paginate(page, term, cursors[1], fuel - 1));
    }
  }

  /** The budget only bounds the run: a run that ended within it ends the same way with a larger one. */
  lemma {:induction false} PaginateFuel(page: PageApi, term: string, after: int, fuel: nat, more: nat)
    requires fuel <= more
    requires Paginate(page, term, after, fuel).status != Raised(OutOfFuel)
    ensures Paginate(page, term, after, more) == Paginate(page, term, after, fuel)
    decreases fuel
  {
    match page(term, after)
    case Err(_) =>
    case Ok(p) =>
      if |p| > 0 {
        PaginateFuel(page, term, p[|p| - 1].createdUtc, fuel - 1, more - 1);
      }
  }
}
