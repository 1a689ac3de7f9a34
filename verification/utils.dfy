/**
 The ingestion helpers: parsing the request body into a JUnit document,
 inserting the parent run, and turning a parsed document into failure rows.
 */
module Utils {
  import opened Wrappers
  import opened Junit
  import opened Models
  import Db

  /** The HTTP error a helper raises: a status code and a detail text. */
  datatype HttpError = HttpError(status: int, detail: string)

  const InvalidXmlDetail: string := "Invalid JUnit XML format"
  const InvalidXmlError: HttpError := HttpError(400, InvalidXmlDetail)

  /** The detail text of a failed run insert, carrying the store's error text. */
  function RunInsertDetail(cause: string): string {
    "Failed to insert test run: " + cause
  }

  /** The variant a case's failures are stored under when it has no `combinations` attribute. */
  const DefaultVariant: string := "N/A"

  // ---------------------------------------------------------------------------
  // Parsing

  /**
   Parses the decoded body. Whatever the parser rejects becomes one fixed 400
   error; nothing of a rejected document is returned.
   */
  function ParseJunitXml(xml: string, parser: Parser): (r: Result<Document, HttpError>)
    ensures r.Ok? <==> parser(xml).Some?
    ensures r.Ok? ==> parser(xml) == Some(r.value)
    ensures r.Err? ==> r.error.status == 400 && r.error.detail == InvalidXmlDetail
  {
    match parser(xml)
    case Some(doc) => Ok(doc)
    case None => Err(InvalidXmlError)
  }

  // ---------------------------------------------------------------------------
  // Run insertion

  /**
   The store after a run insert, and either the refreshed run or the 500 the
   helper raises.
   */
  datatype RunInsert = RunInsert(store: Db.Store, outcome: Result<TestRun, HttpError>)

  /**
   Builds a run from the request fields, commits it and refreshes it. A commit
   fault is rolled back: the store is unchanged. A refresh fault comes after
   the commit, which the rollback cannot undo: the run stays stored. Either
   fault gives a 500 carrying the store's text.
   */
  function InsertTestRun(st: Db.Store, branch: Option<string>, revision: Option<string>, platform: string,
                         bbnum: int, typ: string, commitFault: Option<string>, refreshFault: Option<string>): (r: RunInsert)
    ensures r.outcome.Ok? <==> commitFault.None? && refreshFault.None?
    ensures commitFault.Some? ==> r.store == st && r.outcome == Err(HttpError(500, RunInsertDetail(commitFault.value)))
    ensures commitFault.None? && refreshFault.Some? ==> r.outcome == Err(HttpError(500, RunInsertDetail(refreshFault.value)))
    ensures commitFault.None? ==>
              && |r.store.runs| == |st.runs| + 1
              && r.store.runs[..|st.runs|] == st.runs
              && r.store.failures == st.failures
    ensures commitFault.None? ==>
              var run := r.store.runs[|st.runs|];
              && run.id == Some(Db.NextRunId(st))
              && run.branch == branch && run.revision == revision && run.info.None?
              && run.platform == platform && run.bbnum == bbnum && run.typ == typ
              && (RunColumnsValid(run) <==> RunFieldsFit(branch, revision, platform, typ))
    ensures r.outcome.Ok? ==> r.outcome.value == r.store.runs[|st.runs|]
    ensures Db.Valid(st) ==> Db.Valid(r.store)
    ensures commitFault.None? && Db.Valid(st) ==> forall i :: 0 <= i < |st.runs| ==> st.runs[i].id != Some(Db.NextRunId(st))
  {
    match Db.CommitRun(st, NewRun(branch, revision, platform, bbnum, typ), commitFault)
    case Err(e) => RunInsert(st, Err(HttpError(500, RunInsertDetail(e))))
    case Ok(c) =>
      assert c.store.runs[..|st.runs|] == st.runs;
      match refreshFault
      case Some(e) => RunInsert(c.store, Err(HttpError(500, RunInsertDetail(e))))
      case None => RunInsert(c.store, Ok(c.run))
  }

  // ---------------------------------------------------------------------------
  // Failure extraction

  /** The stored variant of a case: its `combinations` attribute verbatim, else "N/A". */
  function VariantOf(tc: TestCase): string {
    match tc.combinations
    case Some(v) => v
    case None => DefaultVariant
  }

  /** The row one result node of a failing case yields. */
  function RecordFor(runId: int, tc: TestCase, node: ResultNode): TestFailure {
    TestFailure(runId, tc.name, VariantOf(tc), None, node.text)
  }

  /** The rows one case yields: one per result node if the case is failing, none otherwise. */
  function CaseFailures(runId: int, tc: TestCase): seq<TestFailure> {
    if tc.isFailure then seq(|tc.results|, k requires 0 <= k < |tc.results| => RecordFor(runId, tc, tc.results[k]))
    else []
  }

  /** The rows a sequence of cases yields, case by case. */
  function ExtractCases(runId: int, cases: seq<TestCase>): (r: seq<TestFailure>)
    ensures forall i :: 0 <= i < |r| ==> r[i].testRunId == runId && r[i].infoText.None?
    decreases |cases|
  {
    if cases == [] then [] else CaseFailures(runId, cases[0]) + ExtractCases(runId, cases[1..])
  }

  /** The rows a sequence of suites yields, suite by suite. */
  function ExtractSuites(runId: int, suites: seq<TestSuite>): (r: seq<TestFailure>)
    ensures forall i :: 0 <= i < |r| ==> r[i].testRunId == runId && r[i].infoText.None?
    decreases |suites|
  {
    if suites == [] then [] else ExtractCases(runId, suites[0].cases) + ExtractSuites(runId, suites[1..])
  }

  /**
   The failure rows of a parsed document, in the order suites, cases and
   nodes are iterated, without any deduplication. Every row belongs to
   `runId` and carries no info text.
   */
  function ExtractFailures(runId: int, doc: Document): (r: seq<TestFailure>)
    ensures forall i :: 0 <= i < |r| ==> r[i].testRunId == runId && r[i].infoText.None?
  {
    ExtractSuites(runId, doc.suites)
  }

  /**
   The extraction as the source writes it: nested loops over suites, cases and
   result nodes, appending one row per result node of a failing case.
   */
  method ExtractFailuresLoop(runId: int, doc: Document) returns (failures: seq<TestFailure>)
    ensures failures == ExtractFailures(runId, doc)
  {
    failures := [];
    var i := 0;
    while i < |doc.suites|
      invariant 0 <= i <= |doc.suites|
      invariant failures == ExtractSuites(runId, doc.suites[..i])
    {
      failures := AppendSuiteFailures(failures, runId, doc.suites[i]);
      ExtractSuitesAppend(runId, doc.suites[..i], [doc.suites[i]]);
      assert doc.suites[..i + 1] == doc.suites[..i] + [doc.suites[i]];
      i := i + 1;
    }
    assert doc.suites[..i] == doc.suites;
  }

  /** The loop over the cases of one suite, appending to `acc`. */
  method AppendSuiteFailures(acc: seq<TestFailure>, runId: int, suite: TestSuite) returns (out: seq<TestFailure>)
    ensures out == acc + ExtractCases(runId, suite.cases)
  {
    out := acc;
    var j := 0;
    while j < |suite.cases|
      invariant 0 <= j <= |suite.cases|
      invariant out == acc + ExtractCases(runId, suite.cases[..j])
    {
      out := AppendCaseFailures(out, runId, suite.cases[j]);
      ExtractCasesAppend(runId, suite.cases[..j], [suite.cases[j]]);
      assert suite.cases[..j + 1] == suite.cases[..j] + [suite.cases[j]];
      j := j + 1;
    }
    assert suite.cases[..j] == suite.cases;
  }

  /** The loop over the result nodes of one case, appending to `acc` only if the case is failing. */
  method AppendCaseFailures(acc: seq<TestFailure>, runId: int, tc: TestCase) returns (out: seq<TestFailure>)
    ensures out == acc + CaseFailures(runId, tc)
  {
    out := acc;
    if tc.isFailure {
      var k := 0;
      while k < |tc.results|
        invariant 0 <= k <= |tc.results|
        invariant out == acc + CaseFailures(runId, tc)[..k]
      {
        out := out + [RecordFor(runId, tc, tc.results[k])];
        k := k + 1;
      }
      assert CaseFailures(runId, tc)[..k] == CaseFailures(runId, tc);
    }
  }

  // ---------------------------------------------------------------------------
  // Properties of extraction

  /** Extraction over concatenated cases is the concatenation of the extractions, in order. */
  lemma {:induction false} ExtractCasesAppend(runId: int, a: seq<TestCase>, b: seq<TestCase>)
    ensures ExtractCases(runId, a + b) == ExtractCases(runId, a) + ExtractCases(runId, b)
    decreases |a|
  {
    if a == [] {
      assert a + b == b;
    } else {
      assert (a + b)[1..] == a[1..] + b;
      ExtractCasesAppend(runId, a[1..], b);
    }
  }

  /** Extraction over concatenated suites is the concatenation of the extractions, in order. */
  lemma {:induction false} ExtractSuitesAppend(runId: int, a: seq<TestSuite>, b: seq<TestSuite>)
    ensures ExtractSuites(runId, a + b) == ExtractSuites(runId, a) + ExtractSuites(runId, b)
    decreases |a|
  {
    if a == [] {
      assert a + b == b;
    } else {
      assert (a + b)[1..] == a[1..] + b;
      ExtractSuitesAppend(runId, a[1..], b);
    }
  }

  /** Extraction over one case in front of the rest of the cases. */
  lemma ExtractCasesCons(runId: int, tc: TestCase, rest: seq<TestCase>)
    ensures ExtractCases(runId, [tc] + rest) == CaseFailures(runId, tc) + ExtractCases(runId, rest)
  {
    assert ([tc] + rest)[1..] == rest;
  }

  /**
   Order within a suite: the rows of case `i` come right after those of the
   cases before it and right before those of the cases after it.
   */
  lemma ExtractCasesSplit(runId: int, cases: seq<TestCase>, i: int)
    requires 0 <= i < |cases|
    ensures ExtractCases(runId, cases)
         == ExtractCases(runId, cases[..i]) + CaseFailures(runId, cases[i]) + ExtractCases(runId, cases[i + 1..])
  {
    assert cases == cases[..i] + ([cases[i]] + cases[i + 1..]);
    ExtractCasesAppend(runId, cases[..i], [cases[i]] + cases[i + 1..]);
    ExtractCasesCons(runId, cases[i], cases[i + 1..]);
  }

  /**
   Order across suites: the rows of suite `i` come right after those of the
   suites before it and right before those of the suites after it.
   */
  lemma ExtractSuitesSplit(runId: int, suites: seq<TestSuite>, i: int)
    requires 0 <= i < |suites|
    ensures ExtractSuites(runId, suites)
         == ExtractSuites(runId, suites[..i]) + ExtractCases(runId, suites[i].cases) + ExtractSuites(runId, suites[i + 1..])
  {
    assert suites == suites[..i] + ([suites[i]] + suites[i + 1..]);
    ExtractSuitesAppend(runId, suites[..i], [suites[i]] + suites[i + 1..]);
    assert ([suites[i]] + suites[i + 1..])[1..] == suites[i + 1..];
  }

  /** The number of result nodes under the failing cases of `cases`. */
  function FailingResults(cases: seq<TestCase>): nat
    decreases |cases|
  {
    if cases == [] then 0
    else (if cases[0].isFailure then |cases[0].results| else 0) + FailingResults(cases[1..])
  }

  /** The number of result nodes under the failing cases of a document. */
  function DocFailingResults(suites: seq<TestSuite>): nat
    decreases |suites|
  {
    if suites == [] then 0 else FailingResults(suites[0].cases) + DocFailingResults(suites[1..])
  }

  lemma {:induction false} ExtractCasesCount(runId: int, cases: seq<TestCase>)
    ensures |ExtractCases(runId, cases)| == FailingResults(cases)
    decreases |cases|
  {
    if cases != [] {
      ExtractCasesCount(runId, cases[1..]);
    }
  }

  /** One row per result node of a failing case: the output length is the sum of those counts. */
  lemma {:induction false} ExtractFailuresCount(runId: int, doc: Document)
    ensures |ExtractFailures(runId, doc)| == DocFailingResults(doc.suites)
  {
    ExtractSuitesCount(runId, doc.suites);
  }

  lemma {:induction false} ExtractSuitesCount(runId: int, suites: seq<TestSuite>)
    ensures |ExtractSuites(runId, suites)| == DocFailingResults(suites)
    decreases |suites|
  {
    if suites != [] {
      ExtractCasesCount(runId, suites[0].cases);
      ExtractSuitesCount(runId, suites[1..]);
    }
  }

  /** A row comes from a sequence of cases exactly when it comes from one of them. */
  lemma {:induction false} ExtractCasesMembership(runId: int, cases: seq<TestCase>, f: TestFailure)
    ensures f in ExtractCases(runId, cases) <==> exists i :: 0 <= i < |cases| && f in CaseFailures(runId, cases[i])
    decreases |cases|
  {
    if cases != [] {
      ExtractCasesMembership(runId, cases[1..], f);
      if f in ExtractCases(runId, cases[1..]) {
        var i :| 0 <= i < |cases[1..]| && f in CaseFailures(runId, cases[1..][i]);
        assert cases[i + 1] == cases[1..][i];
      }
      if exists i :: 0 <= i < |cases| && f in CaseFailures(runId, cases[i]) {
        var i :| 0 <= i < |cases| && f in CaseFailures(runId, cases[i]);
        if i > 0 {
          assert cases[1..][i - 1] == cases[i];
        }
      }
    }
  }

  /** A row comes from a sequence of suites exactly when it comes from one of them. */
  lemma {:induction false} ExtractSuitesMembership(runId: int, suites: seq<TestSuite>, f: TestFailure)
    ensures f in ExtractSuites(runId, suites) <==> exists i :: 0 <= i < |suites| && f in ExtractCases(runId, suites[i].cases)
    decreases |suites|
  {
    if suites != [] {
      ExtractSuitesMembership(runId, suites[1..], f);
      if f in ExtractSuites(runId, suites[1..]) {
        var i :| 0 <= i < |suites[1..]| && f in ExtractCases(runId, suites[1..][i].cases);
        assert suites[i + 1] == suites[1..][i];
      }
      if exists i :: 0 <= i < |suites| && f in ExtractCases(runId, suites[i].cases) {
        var i :| 0 <= i < |suites| && f in ExtractCases(runId, suites[i].cases);
        if i > 0 {
          assert suites[1..][i - 1] == suites[i];
        }
      }
    }
  }

  /** `f` is the row result node `k` of failing case `c` of suite `s` yields. */
  ghost predicate YieldedAt(runId: int, doc: Document, f: TestFailure, s: int, c: int, k: int) {
    && 0 <= s < |doc.suites|
    && 0 <= c < |doc.suites[s].cases|
    && doc.suites[s].cases[c].isFailure
    && 0 <= k < |doc.suites[s].cases[c].results|
    && f == RecordFor(runId, doc.suites[s].cases[c], doc.suites[s].cases[c].results[k])
  }

  /**
   The rows extracted from a document are exactly the rows of the result
   nodes of its failing cases: the run id passed in, the bare case name (no
   classname prefix), the case's variant and the node's text.
   */
  lemma ExtractFailuresMembership(runId: int, doc: Document, f: TestFailure)
    ensures f in ExtractFailures(runId, doc) <==> exists s, c, k :: YieldedAt(runId, doc, f, s, c, k)
  {
    ExtractSuitesMembership(runId, doc.suites, f);
    if f in ExtractFailures(runId, doc) {
      var s :| 0 <= s < |doc.suites| && f in ExtractCases(runId, doc.suites[s].cases);
      ExtractCasesMembership(runId, doc.suites[s].cases, f);
      var c :| 0 <= c < |doc.suites[s].cases| && f in CaseFailures(runId, doc.suites[s].cases[c]);
      var tc := doc.suites[s].cases[c];
      var k :| 0 <= k < |CaseFailures(runId, tc)| && CaseFailures(runId, tc)[k] == f;
      assert YieldedAt(runId, doc, f, s, c, k);
    }
    if exists s, c, k :: YieldedAt(runId, doc, f, s, c, k) {
      var s, c, k :| YieldedAt(runId, doc, f, s, c, k);
      var tc := doc.suites[s].cases[c];
      assert CaseFailures(runId, tc)[k] == f;
      ExtractCasesMembership(runId, doc.suites[s].cases, f);
    }
  }

  /** A document without a failing case yields no rows. */
  lemma ExtractFailuresNoFailingCase(runId: int, doc: Document)
    requires forall s, c :: 0 <= s < |doc.suites| && 0 <= c < |doc.suites[s].cases| ==> !doc.suites[s].cases[c].isFailure
    ensures ExtractFailures(runId, doc) == []
  {
    var r := ExtractFailures(runId, doc);
    if r != [] {
      ExtractFailuresMembership(runId, doc, r[0]);
    }
  }

  /**
   No deduplication: a failing case with two or more result nodes yields two
   adjacent rows with the same primary key.
   */
  lemma ExtractFailuresKeepsDuplicates(runId: int, doc: Document, s: int, c: int)
    requires 0 <= s < |doc.suites| && 0 <= c < |doc.suites[s].cases|
    requires doc.suites[s].cases[c].isFailure && |doc.suites[s].cases[c].results| >= 2
    ensures exists p :: 0 <= p && p + 1 < |ExtractFailures(runId, doc)|
                        && ExtractFailures(runId, doc)[p].Key() == ExtractFailures(runId, doc)[p + 1].Key()
    ensures !DistinctKeys(ExtractFailures(runId, doc))
  {
    var suites := doc.suites;
    var cases := suites[s].cases;
    var out := ExtractFailures(runId, doc);
    var inSuite := ExtractCases(runId, cases);
    var here := CaseFailures(runId, cases[c]);
    var a := ExtractSuites(runId, suites[..s]);
    var b := ExtractCases(runId, cases[..c]);
    ExtractSuitesSplit(runId, suites, s);
    ExtractCasesSplit(runId, cases, c);
    MiddleIndex(a, inSuite, ExtractSuites(runId, suites[s + 1..]), |b|);
    MiddleIndex(a, inSuite, ExtractSuites(runId, suites[s + 1..]), |b| + 1);
    MiddleIndex(b, here, ExtractCases(runId, cases[c + 1..]), 0);
    MiddleIndex(b, here, ExtractCases(runId, cases[c + 1..]), 1);
    var p := |a| + |b|;
    assert out[p] == here[0] && out[p + 1] == here[1];
  }

  lemma MiddleIndex<T>(x: seq<T>, y: seq<T>, z: seq<T>, i: int)
    requires 0 <= i < |y|
    ensures (x + y + z)[|x| + i] == y[i]
  {
  }

  /**
   No deduplication, in general: two result nodes of failing cases, at
   different places in the document, whose rows share a primary key leave
   that key repeated in the output.
   */
  lemma ExtractFailuresRepeatedKey(runId: int, doc: Document, f1: TestFailure, s1: int, c1: int, k1: int,
                                   f2: TestFailure, s2: int, c2: int, k2: int)
    requires YieldedAt(runId, doc, f1, s1, c1, k1) && YieldedAt(runId, doc, f2, s2, c2, k2)
    requires s1 < s2 || (s1 == s2 && c1 < c2) || (s1 == s2 && c1 == c2 && k1 < k2)
    requires f1.Key() == f2.Key()
    ensures !DistinctKeys(ExtractFailures(runId, doc))
  {
    var suites := doc.suites;
    var cases := suites[s1].cases;
    var before := ExtractSuites(runId, suites[..s1]);
    var after := ExtractSuites(runId, suites[s1 + 1..]);
    ExtractSuitesSplit(runId, suites, s1);
    if s1 < s2 {
      assert f1 in ExtractCases(runId, cases) by {
        assert CaseFailures(runId, cases[c1])[k1] == f1;
        ExtractCasesMembership(runId, cases, f1);
      }
      assert f2 in after by {
        var later := suites[s1 + 1..];
        assert later[s2 - s1 - 1] == suites[s2];
        assert CaseFailures(runId, suites[s2].cases[c2])[k2] == f2;
        ExtractCasesMembership(runId, suites[s2].cases, f2);
        ExtractSuitesMembership(runId, later, f2);
      }
      SharedKeyRepeats(before, ExtractCases(runId, cases), after, f1, f2);
    } else {
      CasesRepeatedKey(runId, cases, f1, c1, k1, f2, c2, k2);
      InnerRepeatRepeats(before, ExtractCases(runId, cases), after);
    }
  }

  /** Within one suite: two result nodes whose rows share a key leave it repeated. */
  lemma CasesRepeatedKey(runId: int, cases: seq<TestCase>, f1: TestFailure, c1: int, k1: int,
                         f2: TestFailure, c2: int, k2: int)
    requires 0 <= c1 < |cases| && cases[c1].isFailure && 0 <= k1 < |cases[c1].results|
    requires 0 <= c2 < |cases| && cases[c2].isFailure && 0 <= k2 < |cases[c2].results|
    requires f1 == RecordFor(runId, cases[c1], cases[c1].results[k1])
    requires f2 == RecordFor(runId, cases[c2], cases[c2].results[k2])
    requires c1 < c2 || (c1 == c2 && k1 < k2)
    requires f1.Key() == f2.Key()
    ensures !DistinctKeys(ExtractCases(runId, cases))
  {
    var before := ExtractCases(runId, cases[..c1]);
    var here := CaseFailures(runId, cases[c1]);
    var after := ExtractCases(runId, cases[c1 + 1..]);
    ExtractCasesSplit(runId, cases, c1);
    assert here[k1] == f1;
    if c1 < c2 {
      assert f2 in after by {
        var later := cases[c1 + 1..];
        assert later[c2 - c1 - 1] == cases[c2];
        assert CaseFailures(runId, cases[c2])[k2] == f2;
        ExtractCasesMembership(runId, later, f2);
      }
      SharedKeyRepeats(before, here, after, f1, f2);
    } else {
      assert here[k2] == f2;
      InnerRepeatRepeats(before, here, after);
    }
  }

  /**
   Extracted rows fit their declared columns whenever every failing case's
   name and variant do; the "N/A" default always fits.
   */
  lemma ExtractFailuresWithinWidths(runId: int, doc: Document)
    requires forall s, c :: 0 <= s < |doc.suites| && 0 <= c < |doc.suites[s].cases| && doc.suites[s].cases[c].isFailure
               ==> |doc.suites[s].cases[c].name| <= MaxTestName && |VariantOf(doc.suites[s].cases[c])| <= MaxTestVariant
    ensures forall f :: f in ExtractFailures(runId, doc) ==> FailureColumnsValid(f)
    ensures |DefaultVariant| <= MaxTestVariant
  {
    forall f | f in ExtractFailures(runId, doc) ensures FailureColumnsValid(f) {
      ExtractFailuresMembership(runId, doc, f);
      var s, c, k :| YieldedAt(runId, doc, f, s, c, k);
    }
  }
}
