/**
  The attempts of a supervised run: each attempt is one pass, and every
  attempt after the first finds the store the attempt before it left.
 */
module Attempts {
  import opened Wrappers
  import opened RecordStore
  import opened Pipeline

  /** One attempt of a run: its index and the store it finds, to what it leaves behind. */
  type Runner = (nat, Option<seq<StoredRow>>) -> Outcome

  /** Attempt `k` runs the pass against the archive as it answers then (`apis(k)`), so a failure may be transient. */
  function PassRunner(apis: nat -> Api, fuel: nat): Runner {
    (k: nat, s: Option<seq<StoredRow>>) => Pass(apis(k), s, fuel)
  }

  /**
    Attempt `k` of a run: attempt 0 finds the store the run started with,
    every later attempt the store the attempt before it left.
   */
  function Attempt(run: Runner, store: Option<seq<StoredRow>>, k: nat): Outcome
    decreases k, 1
  {
    run(k, StoreBefore(run, store, k))
  }

  /** The store attempt `k` finds. */
  function StoreBefore(run: Runner, store: Option<seq<StoredRow>>, k: nat): Option<seq<StoredRow>>
    decreases k, 0
  {
    if k == 0 then store else Some(Attempt(run, store, k - 1).store)
  }
}

/**
  `main`: run the pass, and after a failure run it again on the store the
  failed pass left behind, sleeping the delays of a fixed schedule in between.
 */
module Supervisor {
  import opened Wrappers
  import opened Records
  import opened Dedup
  import opened RecordStore
  import opened Checkpoint
  import opened Pipeline
  import opened Attempts

  /** The restart schedule in seconds; delays are popped from its end. */
  const SLEEPS: seq<nat> := [80, 60, 30, 20, 10, 10, 0]

  /** The delays in the order they are slept. */
  const DELAY_ORDER: seq<nat> := [0, 10, 10, 20, 30, 60, 80]

  /**
    `main`: run attempts until one finishes or the schedule is empty, popping
    and sleeping one delay after each failure. Attempt `k` is `run(k, store)`,
    `scrape_mfa` as it behaves at that time (`PassRunner`). Returns the last
    attempt's outcome, the delays slept and the exit status (0 when an attempt
    finished, 1 when the schedule ran out).
   */
  method RunWithRetries(run: Runner, store: Option<seq<StoredRow>>)
    returns (last: Outcome, delays: seq<nat>, status: int)
    ensures |delays| <= |SLEEPS|
    ensures delays == DELAY_ORDER[..|delays|]
    ensures last == Attempt(run, store, |delays|)
    ensures forall k :: 0 <= k < |delays| ==> Attempt(run, store, k).status.Raised?
    ensures status == 0 || status == 1
    ensures status == 0 <==> last.status.Complete?
    ensures status == 1 <==> |delays| == |SLEEPS| && last.status.Raised?
  {
    var sleeps := SLEEPS;
    delays := [];
    var current := store;
    var attempt: nat := 0;
    while true
      invariant |sleeps| + |delays| == |SLEEPS| && attempt == |delays|
      invariant sleeps == SLEEPS[..|sleeps|]
      invariant delays == DELAY_ORDER[..|delays|]
      invariant forall k :: 0 <= k < attempt ==> Attempt(run, store, k).status.Raised?
      invariant current == StoreBefore(run, store, attempt)
      decreases |sleeps|
    {
      last := run(attempt, current);
      if last.status.Complete? {
        break;
      }
      if |sleeps| == 0 {
        break;
      }
      var sleep := sleeps[|sleeps| - 1];
      sleeps := sleeps[..|sleeps| - 1];
      delays := delays + [sleep];
      current := Some(last.store);
      attempt := attempt + 1;
    }
    status := if last.status.Complete? then 0 else 1;
  }

  /** Restarts never lose a stored row: every attempt's store extends the store the run started with. */
  lemma {:induction false} AttemptsAppendOnly(apis: nat -> Api, fuel: nat, store: Option<seq<StoredRow>>, k: nat)
    ensures Initialized(store) <= Attempt(PassRunner(apis, fuel), store, k).store
    ensures k > 0 ==> Attempt(PassRunner(apis, fuel), store, k - 1).store <= Attempt(PassRunner(apis, fuel), store, k).store
  {
    var run := PassRunner(apis, fuel);
    var before := StoreBefore(run, store, k);
    PassKeepsStore(apis(k), before, fuel);
    if k > 0 {
      AttemptsAppendOnly(apis, fuel, store, k - 1);
    }
  }

  /**
    An attempt that finishes has written an extract that holds the first row
    of every id in the store it leaves, each id once, in store order.
   */
  lemma AttemptExtract(apis: nat -> Api, fuel: nat, store: Option<seq<StoredRow>>, k: nat)
    requires Attempt(PassRunner(apis, fuel), store, k).status.Complete?
    ensures Attempt(PassRunner(apis, fuel), store, k).extract.Some?
    ensures var out := Attempt(PassRunner(apis, fuel), store, k);
            && DistinctKeys(out.extract.value, IdOf)
            && Keys(out.extract.value, IdOf) == Keys(out.store, IdOf)
            && IsSubsequence(out.extract.value, out.store)
  {
    PassExtract(apis(k), StoreBefore(PassRunner(apis, fuel), store, k), fuel);
  }

  /**
    Restarts resume rather than start over: once the store reads as a cursor,
    every later attempt's cursor is at least as late.
   */
  lemma {:induction false} AttemptsResume(apis: nat -> Api, fuel: nat, store: Option<seq<StoredRow>>, k: nat)
    requires InitialPageBoundary(Some(Initialized(store))).Ok?
    ensures InitialPageBoundary(Some(Attempt(PassRunner(apis, fuel), store, k).store)).Ok?
    ensures InitialPageBoundary(Some(Initialized(store))).value
            <= InitialPageBoundary(Some(Attempt(PassRunner(apis, fuel), store, k).store)).value
  {
    var run := PassRunner(apis, fuel);
    if k > 0 {
      AttemptsResume(apis, fuel, store, k - 1);
    }
    PassResumes(apis(k), StoreBefore(run, store, k), fuel);
  }

  /**
    A store that does not read as a cursor (a stored timestamp that is missing
    or not an integer) makes every attempt raise before fetching anything and
    leaves the store as it was.
   */
  lemma {:induction false} UnreadableStoreIsStuck(apis: nat -> Api, fuel: nat, store: Option<seq<StoredRow>>, k: nat)
    requires InitialPageBoundary(Some(Initialized(store))).Err?
    ensures Attempt(PassRunner(apis, fuel), store, k).status.Raised?
    ensures Attempt(PassRunner(apis, fuel), store, k).store == Initialized(store)
  {
    var run := PassRunner(apis, fuel);
    var before := StoreBefore(run, store, k);
    if k > 0 {
      UnreadableStoreIsStuck(apis, fuel, store, k - 1);
    }
    assert Initialized(before) == Initialized(store);
    assert Attempt(run, store, k) == Pass(apis(k), before, fuel);
  }
}
