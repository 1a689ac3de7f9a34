/**
 The parsed JUnit document as the extractor sees it: suites in the order the
 parsing library iterates them, each holding test cases in the order the
 library iterates them, each holding its result nodes.
 XML syntax and the parsing library are not modelled; a parser is an opaque
 total function from the decoded request body to a document or nothing.
 */
module Junit {
  import opened Wrappers

  /** A node that iterating a test case yields; only its text is used. */
  datatype ResultNode = ResultNode(text: Option<string>)

  /**
   A test case. `combinations` is the raw attribute of that name, absent or present
   (possibly empty). `isFailure` is the library's own verdict on the case, and
   `results` are the nodes that iterating over the case yields.
   */
  datatype TestCase = TestCase(
    name: string,
    classname: string,
    combinations: Option<string>,
    isFailure: bool,
    results: seq<ResultNode>)

  datatype TestSuite = TestSuite(cases: seq<TestCase>)

  datatype Document = Document(suites: seq<TestSuite>)

  /** A parser: `Some(document)` for a well-formed JUnit document, `None` for anything it rejects. */
  type Parser = string -> Option<Document>
}
