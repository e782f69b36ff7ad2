/** The second pass over the record store: keep the first row of every id. */
module Dedup {

  /** The keys of all rows. */
  function Keys<R, K>(rows: seq<R>, key: R -> K): set<K> {
    if rows == [] then {} else Keys(rows[..|rows| - 1], key) + {key(rows[|rows| - 1])}
  }

  /** The rows whose key no earlier row has, in their original order. */
  function FirstOccurrences<R, K(==)>(rows: seq<R>, key: R -> K): seq<R> {
    if rows == [] then []
    else
      var init, last := rows[..|rows| - 1], rows[|rows| - 1];
      FirstOccurrences(init, key) + (if key(last) in Keys(init, key) then [] else [last])
  }

  /** No two rows share a key. */
  predicate DistinctKeys<R, K(==)>(rows: seq<R>, key: R -> K) {
    forall i, j :: 0 <= i < j < |rows| ==> key(rows[i]) != key(rows[j])
  }

  /** `a` is `b` with some rows left out. */
  predicate IsSubsequence<R(==)>(a: seq<R>, b: seq<R>)
    decreases |b|
  {
    if a == [] then true
    else if b == [] then false
    else if a[|a| - 1] == b[|b| - 1] then IsSubsequence(a[..|a| - 1], b[..|b| - 1])
    else IsSubsequence(a, b[..|b| - 1])
  }

  /**
    Reads the rows in stored order and writes every row whose key has not
    been seen yet, growing the set of seen keys; returns the written rows and
    the seen keys.
   */
  method Deduplicate<R, K(==)>(rows: seq<R>, key: R -> K) returns (written: seq<R>, ids: set<K>)
    ensures written == FirstOccurrences(rows, key)
    ensures ids == Keys(rows, key)
  {
    written, ids := [], {};
    for i := 0 to |rows|
      invariant written == FirstOccurrences(rows[..i], key)
      invariant ids == Keys(rows[..i], key)
    {
      assert rows[..i + 1][..i] == rows[..i];
      if key(rows[i]) !in ids {
        written := written + [rows[i]];
        ids := ids + {key(rows[i])};
      }
    }
    assert rows[..|rows|] == rows;
  }

  lemma {:induction false} KeysMember<R, K>(rows: seq<R>, key: R -> K, k: K)
    ensures k in Keys(rows, key) <==> exists i :: 0 <= i < |rows| && key(rows[i]) == k
  {
    if rows != [] {
      var init := rows[..|rows| - 1];
      KeysMember(init, key, k);
      if exists i :: 0 <= i < |init| && key(init[i]) == k {
        var i :| 0 <= i < |init| && key(init[i]) == k;
        assert key(rows[i]) == k;
      }
      if exists i :: 0 <= i < |rows| && key(rows[i]) == k {
        var i :| 0 <= i < |rows| && key(rows[i]) == k;
        if i < |init| { assert key(init[i]) == k; }
      }
    }
  }

  /** The written rows have pairwise distinct keys. */
  lemma {:induction false} FirstOccurrencesDistinct<R, K>(rows: seq<R>, key: R -> K)
    ensures DistinctKeys(FirstOccurrences(rows, key), key)
  {
    if rows != [] {
      var init, last := rows[..|rows| - 1], rows[|rows| - 1];
      FirstOccurrencesDistinct(init, key);
      FirstOccurrencesKeys(init, key);
      var out := FirstOccurrences(init, key);
      if key(last) !in Keys(init, key) {
        forall i | 0 <= i < |out|
          ensures key(out[i]) != key(last)
        {
          KeysMember(out, key, key(out[i]));
        }
      }
    }
  }

  /** Every key of the input is the key of a written row, and conversely. */
  lemma {:induction false} FirstOccurrencesKeys<R, K>(rows: seq<R>, key: R -> K)
    ensures Keys(FirstOccurrences(rows, key), key) == Keys(rows, key)
  {
    if rows != [] {
      var init, last := rows[..|rows| - 1], rows[|rows| - 1];
      FirstOccurrencesKeys(init, key);
      var out := FirstOccurrences(init, key);
      assert Keys(rows, key) == Keys(init, key) + {key(last)};
      if key(last) !in Keys(init, key) {
        assert FirstOccurrences(rows, key) == out + [last];
        assert (out + [last])[..|out|] == out;
        assert Keys(out + [last], key) == Keys(out, key) + {key(last)};
      } else {
        assert FirstOccurrences(rows, key) == out + [] == out;
      }
    }
  }

  /** The written rows are the input with some rows left out, in the input's order. */
  lemma {:induction false} FirstOccurrencesSubsequence<R, K>(rows: seq<R>, key: R -> K)
    ensures IsSubsequence(FirstOccurrences(rows, key), rows)
  {
    if rows != [] {
      var init, last := rows[..|rows| - 1], rows[|rows| - 1];
      FirstOccurrencesSubsequence(init, key);
      var out := FirstOccurrences(init, key);
      if key(last) in Keys(init, key) {
        assert FirstOccurrences(rows, key) == out + [] == out;
        if out != [] {
          SubsequenceExtend(out, init, last);
          assert init + [last] == rows;
        }
      } else {
        assert (out + [last])[..|out|] == out;
      }
    }
  }

  /**
    The rows are written as they are read: deduplicating the first `n` rows
    writes a prefix of what deduplicating all of them writes, so the written
    rows come in order of their key's first appearance.
   */
  lemma {:induction false} FirstOccurrencesPrefix<R, K>(rows: seq<R>, key: R -> K, n: nat)
    requires n <= |rows|
    ensures FirstOccurrences(rows[..n], key) <= FirstOccurrences(rows, key)
    decreases |rows|
  {
    if n == |rows| {
      assert rows[..n] == rows;
    } else {
      var init := rows[..|rows| - 1];
      assert init[..n] == rows[..n];
      FirstOccurrencesPrefix(init, key, n);
    }
  }

  /** A subsequence of `b` is a subsequence of `b + [x]`. */
  lemma {:induction false} SubsequenceExtend<R>(a: seq<R>, b: seq<R>, x: R)
    requires IsSubsequence(a, b)
    ensures IsSubsequence(a, b + [x])
    decreases |b|, 1
  {
    assert (b + [x])[..|b|] == b;
    if a != [] && a[|a| - 1] == x {
      // b + [x] ends in x: match it, then a[..|a|-1] must be a subsequence of b.
      SubsequenceDropLast(a, b);
    }
  }

  /** Dropping the last row of a subsequence keeps it a subsequence. */
  lemma {:induction false} SubsequenceDropLast<R>(a: seq<R>, b: seq<R>)
    requires a != [] && IsSubsequence(a, b)
    ensures IsSubsequence(a[..|a| - 1], b)
    decreases |b|, 0
  {
    var b' := b[..|b| - 1];
    if a[|a| - 1] == b[|b| - 1] {
      if a[..|a| - 1] != [] {
        SubsequenceExtend(a[..|a| - 1], b', b[|b| - 1]);
        assert b' + [b[|b| - 1]] == b;
      }
    } else {
      SubsequenceDropLast(a, b');
      if a[..|a| - 1] != [] {
        SubsequenceExtend(a[..|a| - 1], b', b[|b| - 1]);
        assert b' + [b[|b| - 1]] == b;
      }
    }
  }

  /** Each written row is the first row of the input with its key. */
  lemma {:induction false} FirstOccurrencesAreFirst<R, K>(rows: seq<R>, key: R -> K, j: nat)
    requires j < |FirstOccurrences(rows, key)|
    ensures exists i :: 0 <= i < |rows| && rows[i] == FirstOccurrences(rows, key)[j]
                        && key(rows[i]) !in Keys(rows[..i], key)
  {
    var init, last := rows[..|rows| - 1], rows[|rows| - 1];
    var out := FirstOccurrences(init, key);
    if j < |out| {
      FirstOccurrencesAreFirst(init, key, j);
      var i :| 0 <= i < |init| && init[i] == out[j] && key(init[i]) !in Keys(init[..i], key);
      assert rows[..i] == init[..i];
      assert rows[i] == FirstOccurrences(rows, key)[j];
    } else {
      assert rows[..|rows| - 1] == init;
    }
  }

  /** On rows with distinct keys nothing is dropped. */
  lemma {:induction false} DistinctFixpoint<R, K>(rows: seq<R>, key: R -> K)
    requires DistinctKeys(rows, key)
    ensures FirstOccurrences(rows, key) == rows
  {
    if rows != [] {
      var init, last := rows[..|rows| - 1], rows[|rows| - 1];
      DistinctFixpoint(init, key);
      KeysMember(init, key, key(last));
      assert rows == init + [last];
    }
  }

  /** Deduplicating the deduplicated output writes the same rows and the same id set. */
  lemma DeduplicateIdempotent<R, K>(rows: seq<R>, key: R -> K)
    ensures FirstOccurrences(FirstOccurrences(rows, key), key) == FirstOccurrences(rows, key)
    ensures Keys(FirstOccurrences(rows, key), key) == Keys(rows, key)
  {
    FirstOccurrencesDistinct(rows, key);
    DistinctFixpoint(FirstOccurrences(rows, key), key);
    FirstOccurrencesKeys(rows, key);
  }

  /** The returned id set has one element per written row (the reported count). */
  lemma {:induction false} DistinctCount<R, K>(rows: seq<R>, key: R -> K)
    requires DistinctKeys(rows, key)
    ensures |Keys(rows, key)| == |rows|
  {
    if rows != [] {
      var init, last := rows[..|rows| - 1], rows[|rows| - 1];
      DistinctCount(init, key);
      KeysMember(init, key, key(last));
    }
  }
}
