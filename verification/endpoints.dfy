/**
 The upload endpoint as a sequential state machine over the abstract store:
 extension check, parse, run commit, extraction, then an all-or-nothing batch
 commit. Routing, form validation, reading and decoding the body are not
 modelled; the request arrives with its fields and its decoded body.
 */
module Endpoints {
  import opened Wrappers
  import opened Junit
  import opened Models
  import opened Utils
  import Db

  const XmlSuffix: string := ".xml"
  const BadExtensionDetail: string := "Only .xml files are supported"
  const StoredDetail: string := "Results were stored successfully."
  const NothingToStoreDetail: string := "No test failures to store."

  /** The detail text of a failed batch commit, carrying the store's error text. */
  function BatchDetail(cause: string): string {
    "Failed to store test results: " + cause
  }

  /** The closed set of ways an upload ends. */
  datatype Outcome =
    | BadExtension
    | InvalidXml
    | RunInsertFailed(detail: string)
    | BatchFailed(cause: string)
    | Stored
    | NothingToStore
  {
    /** The HTTP status code of the response. */
    function Status(): int {
      match this
      case BadExtension => 400
      case InvalidXml => 400
      case RunInsertFailed(_) => 500
      case BatchFailed(_) => 500
      case Stored => 200
      case NothingToStore => 200
    }

    /** The `detail` text of the response. */
    function Detail(): string {
      match this
      case BadExtension => BadExtensionDetail
      case InvalidXml => InvalidXmlDetail
      case RunInsertFailed(detail) => detail
      case BatchFailed(cause) => BatchDetail(cause)
      case Stored => StoredDetail
      case NothingToStore => NothingToStoreDetail
    }
  }

  /** The form fields of an upload and the decoded body of its file. */
  datatype UploadRequest = UploadRequest(
    branch: Option<string>,
    revision: Option<string>,
    platform: string,
    bbnum: int,
    typ: string,
    filename: string,
    body: string)

  /**
   How the store behaves beyond the model: a fault of the run commit, of the
   refresh that follows it, and of the batch commit (`Some(text)` makes that
   step raise `text`), and the text the store raises on a primary-key
   collision.
   */
  datatype Faults = Faults(
    runCommit: Option<string>,
    runRefresh: Option<string>,
    batchCommit: Option<string>,
    keyViolation: string)

  /** The outcome of an upload and the store after it. */
  datatype Reply = Reply(outcome: Outcome, store: Db.Store)

  predicate EndsWith(s: string, suffix: string) {
    |suffix| <= |s| && s[|s| - |suffix|..] == suffix
  }

  /** `fragment` occurs in `s` starting at position `i`. */
  predicate OccursAt(s: string, fragment: string, i: int) {
    0 <= i <= |s| - |fragment| && s[i..i + |fragment|] == fragment
  }

  /** `fragment` occurs somewhere in `s`. */
  predicate Contains(s: string, fragment: string) {
    exists i :: 0 <= i <= |s| && OccursAt(s, fragment, i)
  }

  /** Text put in front of a message keeps every fragment the message contains. */
  lemma ContainsAfterPrefix(prefix: string, s: string, fragment: string)
    requires Contains(s, fragment)
    ensures Contains(prefix + s, fragment)
  {
    var i :| 0 <= i <= |s| && OccursAt(s, fragment, i);
    assert 0 <= i <= |s| - |fragment| && s[i..i + |fragment|] == fragment;
    assert (prefix + s)[|prefix| + i..|prefix| + i + |fragment|] == s[i..i + |fragment|];
    assert OccursAt(prefix + s, fragment, |prefix| + i);
  }

  /**
   Every failure row refers to a stored run. The store does not enforce this
   (there is no foreign key); uploads keep it by construction.
   */
  predicate Linked(st: Db.Store) {
    forall f :: f in st.failures ==> 1 <= f.testRunId <= |st.runs|
  }

  /** The store's own guarantees plus the link kept by construction. */
  predicate Consistent(st: Db.Store) {
    Db.Valid(st) && Linked(st)
  }

  /** The rows an accepted request tries to store: its document's failures under the new run's id. */
  function Batch(st: Db.Store, doc: Document): seq<TestFailure> {
    ExtractFailures(Db.NextRunId(st), doc)
  }

  /**
   Handles one upload. Exactly the requests that pass the extension check and
   parsing and whose run commit succeeds create one run (even when the
   refresh after it fails); only a stored outcome adds failure rows; every
   other outcome leaves the failure rows as they were.
   */
  function UploadTestResults(st: Db.Store, req: UploadRequest, parser: Parser, faults: Faults): (r: Reply)
    ensures r.outcome.BadExtension? <==> !EndsWith(req.filename, XmlSuffix)
    ensures r.outcome.InvalidXml? <==> EndsWith(req.filename, XmlSuffix) && parser(req.body).None?
    ensures r.outcome.RunInsertFailed? <==>
              && EndsWith(req.filename, XmlSuffix) && parser(req.body).Some?
              && (faults.runCommit.Some? || faults.runRefresh.Some?)
    ensures r.outcome.BadExtension? || r.outcome.InvalidXml? ==> r.store == st
    ensures r.outcome.RunInsertFailed? && faults.runCommit.Some? ==> r.store == st
    ensures |r.store.runs| == (if EndsWith(req.filename, XmlSuffix) && parser(req.body).Some? && faults.runCommit.None?
                               then |st.runs| + 1 else |st.runs|)
    ensures r.store.runs[..|st.runs|] == st.runs
    ensures !r.outcome.Stored? ==> r.store.failures == st.failures
    ensures r.outcome.Stored? ==> |r.store.failures| > |st.failures| && r.store.failures[..|st.failures|] == st.failures
    ensures r.outcome.Status() == 400 <==> !EndsWith(req.filename, XmlSuffix) || parser(req.body).None?
    ensures r.outcome.Status() == 200 <==>
              && EndsWith(req.filename, XmlSuffix) && parser(req.body).Some?
              && faults.runCommit.None? && faults.runRefresh.None?
              && var b := Batch(st, parser(req.body).value);
                 |b| == 0 || (faults.batchCommit.None? && DistinctKeys(b) && KeySet(b) !! KeySet(st.failures))
  {
    if !EndsWith(req.filename, XmlSuffix) then Reply(BadExtension, st)
    else
      match ParseJunitXml(req.body, parser)
      case Err(_) => Reply(InvalidXml, st)
      case Ok(doc) =>
        var inserted := InsertTestRun(st, req.branch, req.revision, req.platform, req.bbnum, req.typ,
                                      faults.runCommit, faults.runRefresh);
        match inserted.outcome
        case Err(e) => Reply(RunInsertFailed(e.detail), inserted.store)
        case Ok(run) =>
          var failures := ExtractFailures(run.id.value, doc);
          if |failures| == 0 then Reply(NothingToStore, inserted.store)
          else
            match Db.CommitBatch(inserted.store, failures, faults.batchCommit, faults.keyViolation)
            case Err(e) => Reply(BatchFailed(e), inserted.store)
            case Ok(stored) =>
              assert stored.failures[..|st.failures|] == st.failures;
              Reply(Stored, stored)
  }

  // ---------------------------------------------------------------------------
  // Properties of an upload

  /**
   A file name without the ".xml" suffix is refused with a 400 before the
   body is parsed or the store is touched: the reply depends on neither the
   parser nor the store's faults.
   */
  lemma BadExtensionTouchesNothing(st: Db.Store, req: UploadRequest, p1: Parser, f1: Faults, p2: Parser, f2: Faults)
    requires !EndsWith(req.filename, XmlSuffix)
    ensures UploadTestResults(st, req, p1, f1) == UploadTestResults(st, req, p2, f2) == Reply(BadExtension, st)
    ensures UploadTestResults(st, req, p1, f1).outcome.Status() == 400
    ensures UploadTestResults(st, req, p1, f1).outcome.Detail() == "Only .xml files are supported"
  {
  }

  /** A body the parser rejects gives a 400 with the parser's fixed detail and creates no run. */
  lemma InvalidXmlCreatesNoRun(st: Db.Store, req: UploadRequest, parser: Parser, faults: Faults)
    requires EndsWith(req.filename, XmlSuffix) && parser(req.body).None?
    ensures UploadTestResults(st, req, parser, faults) == Reply(InvalidXml, st)
    ensures InvalidXml.Status() == ParseJunitXml(req.body, parser).error.status
    ensures InvalidXml.Detail() == ParseJunitXml(req.body, parser).error.detail
  {
  }

  /**
   A failed run commit gives a 500 with the store's text and rolls back: the
   store is unchanged, and since extraction is never reached the reply is the
   same whatever the document holds.
   */
  lemma RunCommitFailureStoresNothing(st: Db.Store, req: UploadRequest, p1: Parser, p2: Parser, faults: Faults)
    requires EndsWith(req.filename, XmlSuffix) && p1(req.body).Some? && p2(req.body).Some?
    requires faults.runCommit.Some?
    ensures UploadTestResults(st, req, p1, faults) == UploadTestResults(st, req, p2, faults)
    ensures UploadTestResults(st, req, p1, faults) == Reply(RunInsertFailed(RunInsertDetail(faults.runCommit.value)), st)
    ensures UploadTestResults(st, req, p1, faults).outcome.Status() == 500
  {
  }

  /**
   A refresh that fails after the run commit succeeded also gives a 500 with
   the store's text, but the rollback cannot undo the commit: the run stays
   stored under its new id, no failure row is added, and extraction is never
   reached, so the reply is the same whatever the document holds.
   */
  lemma RunRefreshFailureKeepsRun(st: Db.Store, req: UploadRequest, p1: Parser, p2: Parser, faults: Faults)
    requires EndsWith(req.filename, XmlSuffix) && p1(req.body).Some? && p2(req.body).Some?
    requires faults.runCommit.None? && faults.runRefresh.Some?
    ensures UploadTestResults(st, req, p1, faults) == UploadTestResults(st, req, p2, faults)
    ensures UploadTestResults(st, req, p1, faults)
         == Reply(RunInsertFailed(RunInsertDetail(faults.runRefresh.value)), Db.Store(st.runs + [CommittedRun(st, req)], st.failures))
    ensures UploadTestResults(st, req, p1, faults).outcome.Status() == 500
  {
  }

  /** The run an accepted request commits: the request's fields under the next id, no info. */
  function CommittedRun(st: Db.Store, req: UploadRequest): TestRun {
    NewRun(req.branch, req.revision, req.platform, req.bbnum, req.typ).(id := Some(Db.NextRunId(st)))
  }

  /**
   Once parsed and with the run committed, the upload has nothing to store
   exactly when no failing case has a result node; the run row then stays
   and no failure row is added.
   */
  lemma NothingToStoreKeepsRun(st: Db.Store, req: UploadRequest, parser: Parser, faults: Faults)
    requires EndsWith(req.filename, XmlSuffix) && parser(req.body).Some? && faults.runCommit.None? && faults.runRefresh.None?
    ensures UploadTestResults(st, req, parser, faults).outcome.NothingToStore?
        <==> DocFailingResults(parser(req.body).value.suites) == 0
    ensures UploadTestResults(st, req, parser, faults).outcome.NothingToStore? ==>
              UploadTestResults(st, req, parser, faults).store == Db.Store(st.runs + [CommittedRun(st, req)], st.failures)
  {
    ExtractFailuresCount(Db.NextRunId(st), parser(req.body).value);
  }

  /** Under a consistent store the new run's id is fresh, so its rows cannot collide with stored rows. */
  lemma FreshRunKeysDisjoint(st: Db.Store, doc: Document)
    requires Consistent(st)
    ensures KeySet(Batch(st, doc)) !! KeySet(st.failures)
  {
    var batch := Batch(st, doc);
    forall f, g | f in batch && g in st.failures ensures f.Key() != g.Key() {
      var i :| 0 <= i < |batch| && batch[i] == f;
    }
  }

  /**
   With a non-empty batch and a consistent store, the upload is stored exactly
   when the store raises no fault and the batch repeats no primary key; then
   exactly the extracted rows are added after the stored ones. Otherwise the
   batch is rolled back: the new run stays, no failure row is added, and the
   reply is a 500 carrying the store's text.
   */
  lemma BatchCommitAllOrNothing(st: Db.Store, req: UploadRequest, parser: Parser, faults: Faults)
    requires Consistent(st)
    requires EndsWith(req.filename, XmlSuffix) && parser(req.body).Some? && faults.runCommit.None? && faults.runRefresh.None?
    requires DocFailingResults(parser(req.body).value.suites) > 0
    ensures var r := UploadTestResults(st, req, parser, faults);
            r.outcome.Stored? <==> faults.batchCommit.None? && DistinctKeys(Batch(st, parser(req.body).value))
    ensures var r := UploadTestResults(st, req, parser, faults);
            r.outcome.Stored? ==>
              && r.store.runs == st.runs + [CommittedRun(st, req)]
              && r.store.failures == st.failures + Batch(st, parser(req.body).value)
              && |r.store.failures| == |st.failures| + DocFailingResults(parser(req.body).value.suites)
              && r.outcome.Detail() == "Results were stored successfully."
    ensures var r := UploadTestResults(st, req, parser, faults);
            !r.outcome.Stored? ==>
              && r.outcome.BatchFailed?
              && r.outcome.Status() == 500
              && r.store == Db.Store(st.runs + [CommittedRun(st, req)], st.failures)
              && (faults.batchCommit.Some? ==> r.outcome.Detail() == BatchDetail(faults.batchCommit.value))
              && (faults.batchCommit.None? ==> r.outcome.Detail() == BatchDetail(faults.keyViolation))
  {
    var doc := parser(req.body).value;
    ExtractFailuresCount(Db.NextRunId(st), doc);
    FreshRunKeysDisjoint(st, doc);
  }

  /**
   No deduplication reaches the store: a failing case with two result nodes
   makes the batch repeat a primary key, so the whole batch is rejected with
   a 500 (the uniqueness violation when the store raises nothing else), while
   the new run stays.
   */
  lemma DuplicateResultsRejected(st: Db.Store, req: UploadRequest, parser: Parser, faults: Faults, s: int, c: int)
    requires EndsWith(req.filename, XmlSuffix) && parser(req.body).Some? && faults.runCommit.None? && faults.runRefresh.None?
    requires 0 <= s < |parser(req.body).value.suites| && 0 <= c < |parser(req.body).value.suites[s].cases|
    requires parser(req.body).value.suites[s].cases[c].isFailure
    requires |parser(req.body).value.suites[s].cases[c].results| >= 2
    ensures var r := UploadTestResults(st, req, parser, faults);
            && r.outcome.BatchFailed?
            && r.outcome.Status() == 500
            && r.store == Db.Store(st.runs + [CommittedRun(st, req)], st.failures)
            && (faults.batchCommit.None? ==> r.outcome.Detail() == BatchDetail(faults.keyViolation))
  {
    var doc := parser(req.body).value;
    ExtractFailuresKeepsDuplicates(Db.NextRunId(st), doc, s, c);
    ExtractFailuresCount(Db.NextRunId(st), doc);
  }

  /**
   Two failing cases with the same name and variant (in one suite or in
   different suites) give two rows with the same primary key; the batch is
   rejected as a whole with a 500, and the new run stays.
   */
  lemma RepeatedCaseRejected(st: Db.Store, req: UploadRequest, parser: Parser, faults: Faults,
                             s1: int, c1: int, s2: int, c2: int)
    requires EndsWith(req.filename, XmlSuffix) && parser(req.body).Some? && faults.runCommit.None? && faults.runRefresh.None?
    requires 0 <= s1 < |parser(req.body).value.suites| && 0 <= c1 < |parser(req.body).value.suites[s1].cases|
    requires 0 <= s2 < |parser(req.body).value.suites| && 0 <= c2 < |parser(req.body).value.suites[s2].cases|
    requires s1 < s2 || (s1 == s2 && c1 < c2)
    requires var t1 := parser(req.body).value.suites[s1].cases[c1];
             var t2 := parser(req.body).value.suites[s2].cases[c2];
             && t1.isFailure && |t1.results| >= 1
             && t2.isFailure && |t2.results| >= 1
             && t1.name == t2.name && VariantOf(t1) == VariantOf(t2)
    ensures var r := UploadTestResults(st, req, parser, faults);
            && r.outcome.BatchFailed?
            && r.outcome.Status() == 500
            && r.store == Db.Store(st.runs + [CommittedRun(st, req)], st.failures)
            && (faults.batchCommit.None? ==> r.outcome.Detail() == BatchDetail(faults.keyViolation))
  {
    var doc := parser(req.body).value;
    var id := Db.NextRunId(st);
    var t1 := doc.suites[s1].cases[c1];
    var t2 := doc.suites[s2].cases[c2];
    var f1 := RecordFor(id, t1, t1.results[0]);
    var f2 := RecordFor(id, t2, t2.results[0]);
    assert YieldedAt(id, doc, f1, s1, c1, 0) && YieldedAt(id, doc, f2, s2, c2, 0);
    ExtractFailuresRepeatedKey(id, doc, f1, s1, c1, 0, f2, s2, c2, 0);
    ExtractFailuresCount(id, doc);
  }

  /**
   Every upload keeps the store consistent: run ids stay 1, 2, 3, ..., the
   failure key stays unique, and every failure row refers to a stored run.
   */
  lemma UploadPreservesConsistency(st: Db.Store, req: UploadRequest, parser: Parser, faults: Faults)
    requires Consistent(st)
    ensures Consistent(UploadTestResults(st, req, parser, faults).store)
  {
    var r := UploadTestResults(st, req, parser, faults);
    if r.outcome.Stored? {
      var doc := parser(req.body).value;
      ExtractFailuresCount(Db.NextRunId(st), doc);
      BatchCommitAllOrNothing(st, req, parser, faults);
      var batch := Batch(st, doc);
      forall f | f in r.store.failures ensures 1 <= f.testRunId <= |r.store.runs| {
        if f !in st.failures {
          assert f in batch;
          var i :| 0 <= i < |batch| && batch[i] == f;
        }
      }
    }
  }
}
