/**
 The documents of the repository's own unit and integration tests, evaluated
 by the model. They record what the code does on those inputs, which is not
 always what the tests assert.
 */
module Fixtures {
  import opened Wrappers
  import opened Junit
  import opened Models
  import opened Utils
  import opened Endpoints
  import Db

  /** A case with one failure node holding `text`. */
  function FailingCase(classname: string, name: string, combinations: Option<string>, text: string): TestCase {
    TestCase(name, classname, combinations, true, [ResultNode(Some(text))])
  }

  /** The unit-test document with two failing cases in one suite. */
  function TwoFailuresDocument(): Document {
    Document([TestSuite([
      FailingCase("class1", "test1", None, "Failure message 1"),
      FailingCase("class2", "test2", None, "Failure message 2")])])
  }

  /**
   The two failing cases give two rows, in the order of the cases, under run 1, with
   the bare case names: the code yields "test1" and "test2", not the
   classname-qualified names the unit test expects.
   */
  lemma TwoFailuresFixture()
    ensures ExtractFailures(1, TwoFailuresDocument())
         == [TestFailure(1, "test1", "N/A", None, Some("Failure message 1")),
             TestFailure(1, "test2", "N/A", None, Some("Failure message 2"))]
    ensures ExtractFailures(1, TwoFailuresDocument())[0].testName != "class1.test1"
    ensures ExtractFailures(1, TwoFailuresDocument())[1].testName != "class2.test2"
  {
    var doc := TwoFailuresDocument();
    var cases := doc.suites[0].cases;
    ExtractCasesCons(1, cases[0], cases[1..]);
    ExtractCasesCons(1, cases[1], []);
  }

  /** A document whose only case passes yields no rows. */
  lemma PassingFixture()
    ensures ExtractFailures(1, Document([TestSuite([TestCase("test", "class", None, false, [])])])) == []
  {
    ExtractFailuresNoFailingCase(1, Document([TestSuite([TestCase("test", "class", None, false, [])])]));
  }

  /** The integration-test request fields, with the file name and body given. */
  function SampleRequest(filename: string, body: string): UploadRequest {
    UploadRequest(Some("main"), Some("rev123"), "linux", 42, "test", filename, body)
  }

  /**
   One suite, one failing case, uploaded to an empty store without faults:
   the results are stored, there is one run with branch "main", and the
   stored row is named after the bare case name.
   */
  lemma SingleFailureUploadFixture(parser: Parser, body: string, violation: string)
    requires parser(body) == Some(Document([TestSuite([FailingCase("classA", "test1", None, "Failure message here")])]))
    ensures var r := UploadTestResults(Db.Store([], []), SampleRequest("test-results.xml", body), parser, Faults(None, None, None, violation));
            && r.outcome == Stored
            && r.outcome.Status() == 200
            && |r.store.runs| == 1 && r.store.runs[0].branch == Some("main")
            && r.store.failures == [TestFailure(1, "test1", "N/A", None, Some("Failure message here"))]
  {
    var doc := parser(body).value;
    ExtractCasesCons(1, doc.suites[0].cases[0], []);
  }

  /** A ".txt" upload is refused with a 400 whatever its body. */
  lemma BadExtensionFixture(parser: Parser, st: Db.Store, faults: Faults)
    ensures UploadTestResults(st, SampleRequest("badfile.txt", "some text"), parser, faults).outcome.Status() == 400
  {
    assert !EndsWith("badfile.txt", XmlSuffix) by {
      assert "badfile.txt"[7..] == ".txt";
    }
  }

  /** The fragment the integration test looks for in the detail of a rejected batch. */
  const UniqueFragment: string := "UNIQUE constraint failed"

  /**
   The duplicate-key sample: two failing "archive" cases, both with
   combinations="", in one run. The code does not deduplicate them, so the
   batch is rejected with a 500 whose detail carries the store's
   key-collision text (on SQLite, a text containing "UNIQUE constraint
   failed"); the new run stays and no failure row is added.
   */
  lemma DuplicateArchiveFixture(st: Db.Store, parser: Parser, body: string, violation: string)
    requires Contains(violation, UniqueFragment)
    requires parser(body) == Some(Document([TestSuite([
               FailingCase("main", "archive", Some(""), "first"),
               FailingCase("main", "archive", Some(""), "second")])]))
    ensures var r := UploadTestResults(st, SampleRequest("real_test_results.xml", body), parser,
                                       Faults(None, None, None, violation));
            && r.outcome.Status() == 500
            && Contains(r.outcome.Detail(), UniqueFragment)
            && |r.store.runs| == |st.runs| + 1
            && r.store.failures == st.failures
  {
    var req := SampleRequest("real_test_results.xml", body);
    assert EndsWith(req.filename, XmlSuffix) by {
      assert req.filename[|req.filename| - 4..] == ".xml";
    }
    RepeatedCaseRejected(st, req, parser, Faults(None, None, None, violation), 0, 0, 0, 1);
    ContainsAfterPrefix("Failed to store test results: ", violation, UniqueFragment);
  }
}
