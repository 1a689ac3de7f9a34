# mtr-junit-collector: the result-ingestion pipeline in Dafny

This project models the core of a small service that receives JUnit XML test
results over HTTP and stores the failing tests in a relational store. The
model covers three pieces:

- the parsed JUnit document (suites, cases, result nodes) and the rule that
  turns it into `TestFailure` rows (`extract_failures`);
- the `TestRun` and `TestFailure` records, with their composite failure key
  `(test_run_id, test_name, test_variant)` and declared column widths;
- the upload endpoint `upload_test_results` as a sequential state machine
  over an abstract store. It checks the file extension, parses the body and
  commits a new run. It then extracts the failures and commits them as one
  all-or-nothing batch, or rolls the batch back.

Files and modules:

- `wrappers.dfy` (`Wrappers`): the plain datatypes `Option` and `Result`.
- `junit.dfy` (`Junit`): the parsed document. A parser is an opaque total
  function `string -> Option<Document>`. A case's `isFailure` flag and the
  result nodes it yields are plain fields, not derived from XML.
- `models.dfy` (`Models`): the two records, the failure key, column widths,
  and key-uniqueness facts.
- `db.dfy` (`Db`): the store. It holds the committed runs and failure rows.
  A run commit assigns the next id. A batch commit inserts its rows one by one
  and fails as a whole on any key collision, either inside the batch or with
  a stored row.
- `utils.dfy` (`Utils`): parsing, run insertion and failure extraction. There
  is a recursive definition and a loop version written like the source, and
  the two are proved equal.
- `endpoints.dfy` (`Endpoints`): the upload endpoint. Its outcomes form a
  closed set: `BadExtension` (400), `InvalidXml` (400),
  `RunInsertFailed` (500), `BatchFailed` (500), `Stored` (200) and
  `NothingToStore` (200).
- `fixtures.dfy` (`Fixtures`): the documents of the repository's tests,
  evaluated by the model.

Store faults that the model cannot see, such as a lost connection or a
driver error, enter as explicit parameters. The run commit, the refresh
after it and the batch commit each get an `Option<string>`; `Some(text)`
makes that step raise that text. A refresh fault comes after a successful
commit, so the run stays stored even though the request ends with a 500.
The uniqueness violation is deterministic: it is raised whenever a batch
repeats a primary key. Its text is a parameter too, because it depends on
the engine and on how the ORM wraps the driver's message. The integration
test only asks that the detail contain "UNIQUE constraint failed", and the
duplicate-key fixture proves exactly that containment.

### What the tests say about naming and duplicates

`extract_failures` stores the bare case name and does not deduplicate
(app/utils.py:43-51). The repository's integration tests agree with that:

- the duplicate-key test (tests/integration/test_api.py:132-152) says in
  its docstring that two failing "archive" cases with `combinations=""`
  should raise a duplicate-key error at the database level, and it expects
  a 500 with "UNIQUE constraint failed";
- tests/integration/test_api.py:110 expects a stored row named "archive",
  the bare case name.

`Utils.ExtractFailuresKeepsDuplicates` and `Utils.ExtractFailuresRepeatedKey`
prove that repeated keys reach the batch. `Endpoints.DuplicateResultsRejected`
and `Endpoints.RepeatedCaseRejected` prove that such a batch is rejected
with a 500.

The unit test at tests/unit/test_utils.py:41 and 46 expects
`"class1.test1"` and `"class2.test2"`, which contradicts app/utils.py:47.
`Fixtures.TwoFailuresFixture` proves that the code yields `"test1"` and
`"test2"` for that document.

## Model

| member | source | states |
|---|---|---|
| Utils.ParseJunitXml | app/utils.py:13-19 | The body parses exactly when the parser accepts it, and then the parser's document is returned. Otherwise the only result is a 400 error with detail "Invalid JUnit XML format", with no partial document. |
| Utils.InsertTestRun | app/utils.py:22-35 | Succeeds exactly when neither the commit nor the refresh raises. Once committed, the run is stored last with the next id, which no stored run carries. It carries the request's required platform, bbnum and typ and its optional branch and revision as given, with no info, and it fits its declared column widths exactly when those fields do. The store stays valid. A commit error gives a 500 "Failed to insert test run: <error>" with the store unchanged. A refresh error after the commit gives the same 500, but the run stays stored. |
| Db.CommitRun | app/utils.py:24-26 | The commit assigns a run that had no id the number of stored runs plus one. Failure rows are untouched, and a failed commit stores nothing. |
| Db.InsertRows | app/models.py:37-39 | Inserting a batch row by row, each row checked against every row already present, succeeds exactly when the batch repeats no key and shares no key with the stored rows. The result is then the stored rows followed by the batch. |
| Db.CommitBatch | app/api/endpoints.py:59-65 | A batch commit succeeds exactly when there is no store fault, no key repeats within the batch, and no key is already stored. It then appends the whole batch and keeps the store valid. Otherwise no row persists, and the error is the fault's text or the store's key-collision text. |
| Models.DistinctKeysAppend | app/models.py:37-39 | Concatenated rows have unique primary keys exactly when each part does and the parts share no key. |
| Utils.ExtractFailures | app/utils.py:38-52 | Every extracted row carries the run id passed in and no info text. |
| Utils.ExtractFailuresLoop | app/utils.py:38-52 | The nested loops over suites, cases and result nodes, appending one row per node of a failing case, compute the same rows, in the same order, as the recursive definition. |
| Utils.ExtractFailuresMembership | app/utils.py:40-51 | A row is extracted exactly when some result node of some failing case yields it. Such a row has the run id passed in and the bare case `name` with no classname prefix. Its variant is the `combinations` attribute verbatim, including "", or "N/A" when the attribute is absent. Its text is the node's text verbatim, possibly absent. |
| Utils.ExtractFailuresCount | app/utils.py:40-51 | The number of rows is the sum of the result-node counts of the failing cases. |
| Utils.ExtractSuitesAppend | app/utils.py:40 | Suites are processed in order: the rows of concatenated suite lists are the concatenation of their rows. |
| Utils.ExtractCasesAppend | app/utils.py:41 | Cases are processed in order: the rows of concatenated case lists are the concatenation of their rows. |
| Utils.ExtractSuitesSplit | app/utils.py:40-51 | The rows of suite i sit between the rows of the suites before it and those after it. |
| Utils.ExtractCasesSplit | app/utils.py:41-51 | The rows of case i sit between the rows of the earlier and the later cases of its suite, and they are that case's rows in result-node order. |
| Utils.ExtractFailuresNoFailingCase | app/utils.py:39-42 | A document with no failing case yields no rows. |
| Utils.ExtractFailuresKeepsDuplicates | app/utils.py:43-51 | A failing case with two or more result nodes yields two adjacent rows with the same primary key, so the output's keys are not unique. |
| Utils.ExtractFailuresRepeatedKey | app/utils.py:40-51 | Any two result nodes, at different places in the document, whose rows share a key leave that key repeated in the output. Nothing is deduplicated. |
| Utils.ExtractFailuresWithinWidths | app/models.py:38-39 | Extracted rows fit the declared widths of 100 for name and 64 for variant whenever every failing case's name and variant fit them. The "N/A" default always fits. |
| Endpoints.UploadTestResults | app/api/endpoints.py:30-70 | A bad extension, a rejected body and a failed run insert (commit or refresh) each give their own outcome, checked in that order. A bad extension, a rejected body or a failed commit leave the store unchanged. Exactly the requests that pass the extension check and parsing and whose run commit succeeds add one run after the stored ones, even if the refresh then fails. Only a stored outcome adds failure rows, keeping the stored ones as a prefix. The status is 400 exactly for a bad extension or a rejected body. It is 200 exactly when the run is inserted without fault and the batch is empty or commits: no fault, no repeated key and no key already stored. |
| Endpoints.BadExtensionTouchesNothing | app/api/endpoints.py:40-44 | A file name not ending in ".xml" gives 400 "Only .xml files are supported". The store is unchanged, and the reply does not depend on the body, the parser or the store's faults. |
| Endpoints.InvalidXmlCreatesNoRun | app/api/endpoints.py:47-55 | A body the parser rejects gives the parser's 400 "Invalid JUnit XML format", and the store is unchanged, so no run is created. |
| Endpoints.RunCommitFailureStoresNothing | app/api/endpoints.py:48-56 | A failed run commit gives 500 "Failed to insert test run: <error>" and the rollback leaves the store unchanged. The reply does not depend on the document, so extraction is never reached and no failure rows are attempted. |
| Endpoints.RunRefreshFailureKeepsRun | app/utils.py:24-34 | A refresh that fails after a successful commit gives the same 500, but the rollback cannot undo the commit: the run stays stored with its new id and the request's fields. No failure row is added, and the reply does not depend on the document. |
| Endpoints.NothingToStoreKeepsRun | app/api/endpoints.py:56-70 | After parsing and the run commit, the outcome is "No test failures to store." exactly when no failing case has a result node. The new run then stays and no failure row is added. |
| Endpoints.FreshRunKeysDisjoint | app/models.py:37-39 | In a consistent store the new run's rows share no key with stored rows. A collision can only come from within the batch. |
| Endpoints.BatchCommitAllOrNothing | app/api/endpoints.py:57-69 | With a non-empty batch, the upload is stored exactly when the store raises no fault and the batch repeats no key. All extracted rows are then appended, one per failing result node. Otherwise the outcome is a 500 "Failed to store test results: <error>", no failure row persists, and the new run stays. |
| Endpoints.DuplicateResultsRejected | app/api/endpoints.py:56-69 | A failing case with two result nodes makes the whole batch fail with a 500. The detail carries the store's key-collision text when the store raises nothing else, and the new run stays. |
| Endpoints.RepeatedCaseRejected | app/api/endpoints.py:56-69 | Two failing cases with the same name and variant, in one suite or across suites, make the whole batch fail with a 500 carrying the store's key-collision text when the store raises nothing else. The new run stays. |
| Endpoints.UploadPreservesConsistency | app/models.py:37-39 | Every upload keeps run ids at 1, 2, 3, ..., keeps the failure key unique, and keeps every failure row referring to a stored run. The store has no foreign key; this last link holds only by construction. |
| Fixtures.TwoFailuresFixture | tests/unit/test_utils.py:20-47 | The unit-test document yields two rows, in case order, under run 1, named "test1" and "test2" with variant "N/A" and the failure texts. The code does not give the "class1.test1" the test asserts. |
| Fixtures.PassingFixture | tests/unit/test_utils.py:13-17 | A document whose only case passes yields no rows. |
| Fixtures.SingleFailureUploadFixture | tests/integration/test_api.py:40-63 | One failing case uploaded to an empty store is stored with a 200: one run with branch "main" and one row named "test1". |
| Fixtures.BadExtensionFixture | tests/integration/test_api.py:66-79 | "badfile.txt" is refused with a 400. |
| Fixtures.DuplicateArchiveFixture | tests/integration/test_api.py:132-152 | Two failing "archive" cases with combinations="" give a 500 whose detail contains "UNIQUE constraint failed" whenever the store's key-collision text does. The new run stays and no failure row is added. |

## Left out

- XML syntax and the junitparser library. Parsing is an opaque parser
  function. `is_failure` and the nodes a case yields are fields of the
  document. A document whose root is a single `<testsuite>`, which the
  library iterates differently, is not modelled.
- UTF-8 decoding of the uploaded body (app/api/endpoints.py:47). It happens
  outside the parse error mapping; the model starts from the decoded text.
- Async file reading, FastAPI routing, form validation, dependency injection
  and the session object (app/api/endpoints.py:30-39).
- The health endpoint (app/api/endpoints.py:16-27), a store liveness probe.
- app/main.py and app/database.py: application wiring, metrics, logging,
  and engine and session lifecycle.
- The server-side timestamp `dt`, the indexes, and logging (app/models.py:15-22, 27-31).
- Real SQL transaction mechanics. The store is abstract, and faults are
  parameters.
- Db.CommitRun: run ids are gap-free here, 1, 2, 3, ... in commit order.
  A real auto-increment only promises increasing ids. InnoDB, for one,
  loses the value of an insert whose transaction rolls back, so the next
  run can get a higher id than the model's. Freshness is what the proofs
  need (`Endpoints.FreshRunKeysDisjoint`); the exact ids in the fixtures
  and in `Endpoints.RunRefreshFailureKeepsRun` hold for a store without
  gaps, such as SQLite.
- Db.InsertRows: column widths are not enforced by the modelled store. They
  are a validity predicate only (`Models.RunColumnsValid`,
  `Models.FailureColumnsValid`), because enforcement depends on the database
  engine.
- Db.CommitBatch: keys are compared exactly, as SQLite does by default.
  MySQL and MariaDB compare `test_name` and `test_variant` under the
  table's collation, by default case-insensitively and, for MariaDB's
  `*_general_ci` collations, ignoring trailing spaces. So "Test1" and
  "test1" with the same variant collide there, and the batch fails with
  a 500. In the model such a collation-caused collision appears only as a
  `batchCommit` fault.
- Db.CommitBatch: the store's error texts are parameters, not fixed strings,
  because they depend on the engine (SQLite in the tests, MySQL or MariaDB
  in production) and on how the ORM wraps the driver's message.
- A test case without a `name` attribute. The library then yields no name,
  which would land in the NOT NULL key column `test_name`
  (app/models.py:38) and make the batch commit fail with a 500. The model's
  case name is always a string, so this path is not modelled.
- Concurrent uploads on separate sessions. The model applies requests one
  after another: the next run id is the number of stored runs plus one, and
  `Endpoints.FreshRunKeysDisjoint` relies on that order.
- Fixtures.DuplicateArchiveFixture: the sample file mtr_03.xml is not part of
  this model. The fixture keeps only what the test describes, two failing
  "archive" cases with combinations="".
