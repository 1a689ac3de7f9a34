/**
 An abstract relational store: the committed run rows and failure rows.
 A commit either applies entirely or fails and leaves the store as it was
 (the session is rolled back). Faults the model cannot see (a lost
 connection, a driver error) are passed in as an optional error text, and
 so is the text the engine raises on a primary-key collision, which differs
 between engines and drivers.
 */
module Db {
  import opened Wrappers
  import opened Models

  datatype Store = Store(runs: seq<TestRun>, failures: seq<TestFailure>)

  /**
   The store's state as modelled: the failure primary key is unique, which
   the store enforces, and run ids are 1, 2, 3, ... in insertion order. Gap-free
   ids are a modelling choice: a real auto-increment only promises
   increasing ids, and an engine may skip values. There is no foreign key
   from failures to runs.
   */
  predicate Valid(st: Store) {
    && (forall i :: 0 <= i < |st.runs| ==> st.runs[i].id == Some(i + 1))
    && DistinctKeys(st.failures)
  }

  /** The id the store assigns to the next run it commits. */
  function NextRunId(st: Store): int {
    |st.runs| + 1
  }

  /** A committed run and the store it was committed to. */
  datatype Committed = Committed(store: Store, run: TestRun)

  /**
   Adds one run and commits it. On success the stored and returned run carry
   the newly assigned id; on failure nothing is stored.
   */
  function CommitRun(st: Store, run: TestRun, fault: Option<string>): (r: Result<Committed, string>)
    requires run.id.None?
    ensures r.Ok? <==> fault.None?
    ensures r.Err? ==> r.error == fault.value
    ensures r.Ok? ==> r.value.run == run.(id := Some(NextRunId(st)))
    ensures r.Ok? ==> r.value.store.runs == st.runs + [r.value.run]
    ensures r.Ok? ==> r.value.store.failures == st.failures
    ensures r.Ok? && Valid(st) ==> Valid(r.value.store)
  {
    match fault
    case Some(e) => Err(e)
    case None =>
      var stored := run.(id := Some(NextRunId(st)));
      Ok(Committed(Store(st.runs + [stored], st.failures), stored))
  }

  /**
   Inserts `batch` row by row after `rows`, as the store does within one
   transaction: each row is checked against every row present before it
   (stored or inserted earlier in the batch). `None` is a key collision.
   */
  function InsertRows(rows: seq<TestFailure>, batch: seq<TestFailure>): (r: Option<seq<TestFailure>>)
    ensures r.Some? <==> DistinctKeys(batch) && KeySet(batch) !! KeySet(rows)
    ensures r.Some? ==> r.value == rows + batch
    decreases |batch|
  {
    if batch == [] then Some(rows)
    else if batch[0].Key() in KeySet(rows) then None
    else
      var rest := InsertRows(rows + [batch[0]], batch[1..]);
      InsertRowsStep(rows, batch);
      rest
  }

  /** One insertion step: a first row with a fresh key moves from the batch to the rows without changing the verdict. */
  lemma InsertRowsStep(rows: seq<TestFailure>, batch: seq<TestFailure>)
    requires batch != [] && batch[0].Key() !in KeySet(rows)
    ensures DistinctKeys(batch) && KeySet(batch) !! KeySet(rows)
        <==> DistinctKeys(batch[1..]) && KeySet(batch[1..]) !! KeySet(rows + [batch[0]])
    ensures rows + [batch[0]] + batch[1..] == rows + batch
  {
    assert batch == [batch[0]] + batch[1..];
    DistinctKeysAppend([batch[0]], batch[1..]);
    KeySetAppend([batch[0]], batch[1..]);
    KeySetAppend(rows, [batch[0]]);
  }

  /**
   Adds a batch of failure rows and commits them as one unit: either every
   row is stored, or (on a fault or a key collision, within the batch or with
   a stored row) none is. `violation` is the text the store raises on a
   key collision.
   */
  function CommitBatch(st: Store, batch: seq<TestFailure>, fault: Option<string>, violation: string): (r: Result<Store, string>)
    ensures r.Ok? <==> fault.None? && DistinctKeys(batch) && KeySet(batch) !! KeySet(st.failures)
    ensures r.Ok? ==> r.value.runs == st.runs && r.value.failures == st.failures + batch
    ensures r.Err? && fault.Some? ==> r.error == fault.value
    ensures r.Err? && fault.None? ==> r.error == violation
    ensures r.Ok? && Valid(st) ==> Valid(r.value)
  {
    match fault
    case Some(e) => Err(e)
    case None =>
      match InsertRows(st.failures, batch)
      case Some(rows) => DistinctKeysAppend(st.failures, batch); Ok(Store(st.runs, rows))
      case None => Err(violation)
  }
}
