/**
 The two table records: a test run (one ingestion event) and a test failure
 (one failing result observed in a run), with the declared column widths and
 the composite primary key of a failure.
 */
module Models {
  import opened Wrappers

  // Declared column widths. The store is not assumed to enforce them; they
  // define a validity predicate only.
  const MaxBranch: nat := 100
  const MaxRevision: nat := 256
  const MaxPlatform: nat := 100
  const MaxTyp: nat := 32
  const MaxInfo: nat := 255
  const MaxTestName: nat := 100
  const MaxTestVariant: nat := 64
  const MaxInfoText: nat := 255

  /**
   A test run. `platform`, `bbnum` and `typ` are required; `branch`, `revision`
   and `info` are optional. `id` is absent until the store assigns it. The
   server-side timestamp is not modelled.
   */
  datatype TestRun = TestRun(
    id: Option<int>,
    branch: Option<string>,
    revision: Option<string>,
    platform: string,
    bbnum: int,
    typ: string,
    info: Option<string>)

  /** The composite primary key of a failure row. */
  datatype FailureKey = FailureKey(testRunId: int, testName: string, testVariant: string)

  /**
   A failure row. `testRunId` is not a declared foreign key; `failureText` has
   no declared width.
   */
  datatype TestFailure = TestFailure(
    testRunId: int,
    testName: string,
    testVariant: string,
    infoText: Option<string>,
    failureText: Option<string>)
  {
    function Key(): FailureKey {
      FailureKey(testRunId, testName, testVariant)
    }
  }

  predicate Fits(s: Option<string>, width: nat) {
    s.None? || |s.value| <= width
  }

  /** The request fields of a run fit their declared widths. */
  predicate RunFieldsFit(branch: Option<string>, revision: Option<string>, platform: string, typ: string) {
    Fits(branch, MaxBranch) && Fits(revision, MaxRevision) && |platform| <= MaxPlatform && |typ| <= MaxTyp
  }

  /** Every string column of a run is within its declared width: the request fields and the info text. */
  predicate RunColumnsValid(r: TestRun) {
    RunFieldsFit(r.branch, r.revision, r.platform, r.typ) && Fits(r.info, MaxInfo)
  }

  /** Every bounded column of a failure is within its declared width. */
  predicate FailureColumnsValid(f: TestFailure) {
    && |f.testName| <= MaxTestName
    && |f.testVariant| <= MaxTestVariant
    && Fits(f.infoText, MaxInfoText)
  }

  /** No two rows of `fs` share a primary key. */
  predicate DistinctKeys(fs: seq<TestFailure>) {
    forall i, j :: 0 <= i < j < |fs| ==> fs[i].Key() != fs[j].Key()
  }

  function KeySet(fs: seq<TestFailure>): set<FailureKey> {
    set f | f in fs :: f.Key()
  }

  /**
   A run built from the request fields, before it is stored: no id, no info.
   Since `info` is left absent, the run fits its columns exactly when the
   request fields do.
   */
  function NewRun(branch: Option<string>, revision: Option<string>, platform: string, bbnum: int, typ: string): (r: TestRun)
    ensures RunColumnsValid(r) <==> RunFieldsFit(branch, revision, platform, typ)
  {
    TestRun(None, branch, revision, platform, bbnum, typ, None)
  }

  lemma KeySetAppend(a: seq<TestFailure>, b: seq<TestFailure>)
    ensures KeySet(a + b) == KeySet(a) + KeySet(b)
  {
    assert forall f :: f in a + b <==> f in a || f in b;
  }

  /**
   Concatenated rows have distinct keys exactly when each part does and no
   key occurs in both parts.
   */
  lemma DistinctKeysAppend(a: seq<TestFailure>, b: seq<TestFailure>)
    ensures DistinctKeys(a + b) <==> DistinctKeys(a) && DistinctKeys(b) && KeySet(a) !! KeySet(b)
  {
    var ab := a + b;
    if DistinctKeys(ab) {
      forall i, j | 0 <= i < j < |a| ensures a[i].Key() != a[j].Key() {
        assert ab[i] == a[i] && ab[j] == a[j];
      }
      forall i, j | 0 <= i < j < |b| ensures b[i].Key() != b[j].Key() {
        assert ab[|a| + i] == b[i] && ab[|a| + j] == b[j];
      }
      forall x, y | x in a && y in b ensures x.Key() != y.Key() {
        var i :| 0 <= i < |a| && a[i] == x;
        var j :| 0 <= j < |b| && b[j] == y;
        assert ab[i] == x && ab[|a| + j] == y;
      }
    }
    if DistinctKeys(a) && DistinctKeys(b) && KeySet(a) !! KeySet(b) {
      forall i, j | 0 <= i < j < |ab| ensures ab[i].Key() != ab[j].Key() {
        if j < |a| {
          assert ab[i] == a[i] && ab[j] == a[j];
        } else if |a| <= i {
          assert ab[i] == b[i - |a|] && ab[j] == b[j - |a|];
        } else {
          assert ab[i] == a[i] && ab[j] == b[j - |a|];
          assert ab[i].Key() in KeySet(a);
          assert ab[j].Key() in KeySet(b);
        }
      }
    }
  }

  /** Rows in the middle of a key-distinct sequence are key-distinct and share no key with the rows after them. */
  lemma DistinctKeysMiddle(a: seq<TestFailure>, b: seq<TestFailure>, c: seq<TestFailure>)
    requires DistinctKeys(a + b + c)
    ensures DistinctKeys(b) && KeySet(b) !! KeySet(c)
    ensures forall x, y :: x in b && y in c ==> x.Key() != y.Key()
  {
    DistinctKeysAppend(a + b, c);
    DistinctKeysAppend(a, b);
    KeySetAppend(a, b);
    forall x, y | x in b && y in c ensures x.Key() != y.Key() {
      assert x.Key() in KeySet(b) && y.Key() in KeySet(c);
    }
  }

  /** A key shared by a row of a middle part and a row after it repeats in the whole. */
  lemma SharedKeyRepeats(a: seq<TestFailure>, b: seq<TestFailure>, c: seq<TestFailure>, x: TestFailure, y: TestFailure)
    requires x in b && y in c && x.Key() == y.Key()
    ensures !DistinctKeys(a + b + c)
  {
    if DistinctKeys(a + b + c) {
      DistinctKeysMiddle(a, b, c);
    }
  }

  /** A key repeated inside a middle part repeats in the whole. */
  lemma InnerRepeatRepeats(a: seq<TestFailure>, b: seq<TestFailure>, c: seq<TestFailure>)
    requires !DistinctKeys(b)
    ensures !DistinctKeys(a + b + c)
  {
    if DistinctKeys(a + b + c) {
      DistinctKeysMiddle(a, b, c);
    }
  }
}
