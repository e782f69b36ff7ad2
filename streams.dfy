/**
  Lazy stages as finite streams. A stage that pulls from an upstream stage and
  maps each pulled item to several outputs stops at the first exception, and
  re-raises the upstream's exception once it has processed everything the
  upstream yielded. These combinators give exactly the items a Python
  generator chain hands to its consumer before it is exhausted or raises.
 */
module Streams {
  import opened Wrappers
  import opened Records
  import opened Sorting

  /** Concatenation of a sequence of sequences. */
  function Flatten<T>(xss: seq<seq<T>>): seq<T> {
    if xss == [] then [] else xss[0] + Flatten(xss[1..])
  }

  /** Run `a`, then, only if `a` was exhausted, run `b` (`itertools.chain`). */
  function Then<T>(a: Stream<T>, b: Stream<T>): Stream<T> {
    if a.status.Complete? then Stream(a.items + b.items, b.status) else a
  }

  /** Apply `f` to each item in order, yielding its outputs, until one raises. */
  function FlatMap<T, U>(xs: seq<T>, f: T -> Stream<U>): Stream<U> {
    if xs == [] then Stream([], Complete) else Then(f(xs[0]), FlatMap(xs[1..], f))
  }

  /** `FlatMap` over the items an upstream stage yielded, then its own ending. */
  function FlatMapStream<T, U>(s: Stream<T>, f: T -> Stream<U>): Stream<U> {
    Then(FlatMap(s.items, f), Stream([], s.status))
  }

  /** The outputs of `f` on each item, in order. */
  function Outputs<T, U>(xs: seq<T>, f: T -> Stream<U>): (r: seq<seq<U>>)
    ensures |r| == |xs| && forall i :: 0 <= i < |xs| ==> r[i] == f(xs[i]).items
  {
    seq(|xs|, i requires 0 <= i < |xs| => f(xs[i]).items)
  }

  /** Every call of `f` on `xs` is exhausted without raising. */
  predicate AllComplete<T, U>(xs: seq<T>, f: T -> Stream<U>) {
    forall i :: 0 <= i < |xs| ==> f(xs[i]).status.Complete?
  }

  lemma {:induction false} FlattenAppend<T>(a: seq<seq<T>>, b: seq<seq<T>>)
    ensures Flatten(a + b) == Flatten(a) + Flatten(b)
  {
    if a == [] {
      assert a + b == b;
    } else {
      assert (a + b)[0] == a[0];
      assert (a + b)[1..] == a[1..] + b;
      FlattenAppend(a[1..], b);
    }
  }

  lemma ThenAssoc<T>(a: Stream<T>, b: Stream<T>, c: Stream<T>)
    ensures Then(Then(a, b), c) == Then(a, Then(b, c))
  {
  }

  /** Processing `xs + ys` is processing `xs`, then, if nothing raised, `ys`. */
  lemma {:induction false} FlatMapAppend<T, U>(xs: seq<T>, ys: seq<T>, f: T -> Stream<U>)
    ensures FlatMap(xs + ys, f) == Then(FlatMap(xs, f), FlatMap(ys, f))
  {
    if xs == [] {
      assert xs + ys == ys;
    } else {
      assert (xs + ys)[0] == xs[0];
      assert (xs + ys)[1..] == xs[1..] + ys;
      FlatMapAppend(xs[1..], ys, f);
      ThenAssoc(f(xs[0]), FlatMap(xs[1..], f), FlatMap(ys, f));
    }
  }

  /** When no call raises, the stage yields every output, in order, and is exhausted. */
  lemma {:induction false} FlatMapComplete<T, U>(xs: seq<T>, f: T -> Stream<U>)
    requires AllComplete(xs, f)
    ensures FlatMap(xs, f) == Stream(Flatten(Outputs(xs, f)), Complete)
  {
    if xs != [] {
      FlatMapComplete(xs[1..], f);
      assert Outputs(xs, f) == [f(xs[0]).items] + Outputs(xs[1..], f);
    }
  }

  /** When call `k` is the first that raises, the stage yields the outputs of the
      calls before it and what call `k` yielded, then raises call `k`'s exception. */
  lemma FlatMapRaised<T, U>(xs: seq<T>, f: T -> Stream<U>, k: nat)
    requires k < |xs| && AllComplete(xs[..k], f) && f(xs[k]).status.Raised?
    ensures FlatMap(xs, f) == Stream(Flatten(Outputs(xs[..k], f)) + f(xs[k]).items, f(xs[k]).status)
  {
    assert xs == xs[..k] + xs[k..];
    FlatMapAppend(xs[..k], xs[k..], f);
    FlatMapComplete(xs[..k], f);
    assert xs[k..][0] == xs[k];
  }

  /** Every item yielded comes from the outputs of the call on one input item. */
  lemma {:induction false} FlatMapProvenance<T, U>(xs: seq<T>, f: T -> Stream<U>, y: U)
    requires y in FlatMap(xs, f).items
    ensures exists i :: 0 <= i < |xs| && y in f(xs[i]).items
  {
    if y !in f(xs[0]).items {
      FlatMapProvenance(xs[1..], f, y);
      var i :| 0 <= i < |xs[1..]| && y in f(xs[1..][i]).items;
      assert xs[1..][i] == xs[i + 1];
    }
  }

  /** The stage is exhausted exactly when no call raises. */
  lemma {:induction false} FlatMapStatus<T, U>(xs: seq<T>, f: T -> Stream<U>)
    ensures FlatMap(xs, f).status.Complete? <==> AllComplete(xs, f)
  {
    if xs != [] {
      FlatMapStatus(xs[1..], f);
      assert forall i :: 1 <= i < |xs| ==> xs[i] == xs[1..][i - 1];
    }
  }

  /** A step that yields the one value it computes, or raises its error at once. */
  function Single<U>(r: Result<U, Error>): Stream<U> {
    match r
    case Ok(v) => Stream([v], Complete)
    case Err(e) => Stream([], Raised(e))
  }

  /**
    Over single-value steps, the stage yields the values of a prefix of the
    input in order; it is exhausted exactly when every step succeeds, and
    otherwise raises the error of the first step that fails.
   */
  lemma {:induction false} FlatMapSingles<T, U>(xs: seq<T>, f: T -> Stream<U>, g: T -> Result<U, Error>)
    requires forall x :: f(x) == Single(g(x))
    ensures var out := FlatMap(xs, f);
            && |out.items| <= |xs|
            && (forall i :: 0 <= i < |out.items| ==> g(xs[i]) == Ok(out.items[i]))
            && (out.status.Complete? <==> forall i :: 0 <= i < |xs| ==> g(xs[i]).Ok?)
            && (out.status.Complete? ==> |out.items| == |xs|)
            && (out.status.Raised? ==> |out.items| < |xs| && g(xs[|out.items|]) == Err(out.status.error))
    decreases |xs|
  {
    if xs != [] {
      var rest := FlatMap(xs[1..], f);
      var out := FlatMap(xs, f);
      FlatMapSingles(xs[1..], f, g);
      assert forall i :: 1 <= i < |xs| ==> xs[i] == xs[1..][i - 1];
      match g(xs[0])
      case Err(e) =>
        assert out == Stream([], Raised(e));
      case Ok(v) =>
        assert out == Stream([v] + rest.items, rest.status);
        assert forall i :: 1 <= i < |out.items| ==> out.items[i] == rest.items[i - 1];
        if rest.status.Raised? {
          assert xs[|out.items|] == xs[1..][|rest.items|];
        }
    }
  }

  /**
    Single-value steps over the input in order of a key that each value
    carries: once the value of one input is emitted, so is the value of
    every input with a smaller key.
   */
  lemma SortedSinglesOldestFirst<T, U>(xs: seq<T>, key: T -> int, f: T -> Stream<U>, g: T -> Result<U, Error>,
                                       valueKey: U -> int, c: T, d: T)
    requires forall x :: f(x) == Single(g(x))
    requires forall x :: g(x).Ok? ==> valueKey(g(x).value) == key(x)
    requires c in xs && d in xs && key(c) < key(d)
    requires g(d).Ok? && g(d).value in FlatMap(SortBy(xs, key), f).items
    ensures g(c).Ok? && g(c).value in FlatMap(SortBy(xs, key), f).items
  {
    var sorted := SortBy(xs, key);
    assert c in multiset(sorted) && d in multiset(sorted);
    OrderedSinglesOldestFirst(sorted, key, f, g, valueKey, c, d);
  }

  /** The same for an input already in key order. */
  lemma OrderedSinglesOldestFirst<T, U>(ys: seq<T>, key: T -> int, f: T -> Stream<U>, g: T -> Result<U, Error>,
                                        valueKey: U -> int, c: T, d: T)
    requires forall x :: f(x) == Single(g(x))
    requires forall x :: g(x).Ok? ==> valueKey(g(x).value) == key(x)
    requires SortedBy(ys, key) && c in ys && d in ys && key(c) < key(d)
    requires g(d).Ok? && g(d).value in FlatMap(ys, f).items
    ensures g(c).Ok? && g(c).value in FlatMap(ys, f).items
  {
    var out := FlatMap(ys, f);
    FlatMapSingles(ys, f, g);
    var k :| 0 <= k < |out.items| && out.items[k] == g(d).value;
    assert g(ys[k]) == Ok(out.items[k]);
    assert key(ys[k]) == key(d);
    var j :| 0 <= j < |ys| && ys[j] == c;
    assert j < k;
    assert g(ys[j]) == Ok(out.items[j]);
  }
}
