/** The first steps of the end-to-end driver's scheduler: the registry of
    tests, filtering it by the requested names, repeating it, and choosing the
    shuffle seed. The shuffle itself is in module Shuffle. */
module Schedule {
  import opened Numerals
  import opened Glog

  /** The body of a registered test. The bodies talk to a live cluster; the
      model only needs to tell them apart. */
  datatype TestBody =
    | KubeletSendsEvent | ImportantURLs | PodUpdate | Network | ClusterDNS
    | PodHasServiceEnvVars | Basic | Private | LivenessHttp | LivenessExec

  /** A test to run and its human-readable name. */
  datatype TestSpec = TestSpec(test: TestBody, name: string)

  /** The tests the driver registers, in registration order. */
  const Registered: seq<TestSpec> := [
    TestSpec(KubeletSendsEvent, "TestKubeletSendsEvent"),
    TestSpec(ImportantURLs, "TestImportantURLs"),
    TestSpec(PodUpdate, "TestPodUpdate"),
    TestSpec(Network, "TestNetwork"),
    TestSpec(ClusterDNS, "TestClusterDNS"),
    TestSpec(PodHasServiceEnvVars, "TestPodHasServiceEnvVars"),
    TestSpec(Basic, "TestBasic"),
    TestSpec(Private, "TestPrivate"),
    TestSpec(LivenessHttp, "TestLivenessHttp"),
    TestSpec(LivenessExec, "TestLivenessExec")
  ]

  predicate DistinctNames(tests: seq<TestSpec>) {
    forall i, j :: 0 <= i < j < |tests| ==> tests[i].name != tests[j].name
  }

  // ---------------------------------------------------------------------------
  // Filtering

  /** The names of the given tests (the driver's set of valid test names). */
  function Names(tests: seq<TestSpec>): (names: set<string>)
    ensures forall n :: n in names <==> exists t :: t in tests && t.name == n
  {
    if tests == [] then {}
    else
      var last := tests[|tests| - 1];
      assert forall t :: t in tests <==> t in tests[..|tests| - 1] || t == last;
      Names(tests[..|tests| - 1]) + {last.name}
  }

  /** The requested names that are valid (the driver's set of tests to run). */
  function RunNames(testList: seq<string>, valid: set<string>): (names: set<string>)
    ensures forall n :: n in names <==> n in testList && n in valid
  {
    if testList == [] then {}
    else
      var last := testList[|testList| - 1];
      assert forall n :: n in testList <==> n in testList[..|testList| - 1] || n == last;
      RunNames(testList[..|testList| - 1], valid) + (if last in valid then {last} else {})
  }

  /** The requested names that are not valid, in request order, one entry per
      request (a name requested twice is listed twice). */
  function UnknownEntries(testList: seq<string>, valid: set<string>): seq<string>
  {
    if testList == [] then []
    else
      var last := testList[|testList| - 1];
      UnknownEntries(testList[..|testList| - 1], valid) + (if last in valid then [] else [last])
  }

  function WarningText(name: string): string {
    "Requested test " + name + " does not exist"
  }

  /** One warning per unknown request, in request order. */
  function Warnings(testList: seq<string>, valid: set<string>): (lines: seq<LogLine>)
    ensures |lines| == |UnknownEntries(testList, valid)|
    ensures forall k :: 0 <= k < |lines| ==>
      lines[k] == Warning(WarningText(UnknownEntries(testList, valid)[k]))
  {
    if testList == [] then []
    else
      var last := testList[|testList| - 1];
      Warnings(testList[..|testList| - 1], valid) + (if last in valid then [] else [Warning(WarningText(last))])
  }

  /** The tests whose names are wanted, in their original order. */
  function Selected(tests: seq<TestSpec>, wanted: set<string>): seq<TestSpec>
  {
    if tests == [] then []
    else
      var last := tests[|tests| - 1];
      Selected(tests[..|tests| - 1], wanted) + (if last.name in wanted then [last] else [])
  }

  /** The "Skipping test" lines, with the 1-based position in the original list. */
  function SkipLines(tests: seq<TestSpec>, wanted: set<string>): seq<LogLine>
  {
    if tests == [] then []
    else
      var last := tests[|tests| - 1];
      SkipLines(tests[..|tests| - 1], wanted)
        + (if last.name in wanted then [] else [Info("Skipping test " + Decimal(|tests|) + " " + last.name)])
  }

  /** Every test is either kept or skipped: one skip line per test that is
      not kept. */
  lemma {:induction false} SkipLinesCount(tests: seq<TestSpec>, wanted: set<string>)
    ensures |SkipLines(tests, wanted)| + |Selected(tests, wanted)| == |tests|
  {
    if tests != [] {
      SkipLinesCount(tests[..|tests| - 1], wanted);
    }
  }

  /** The tests that survive filtering: all of them when no names were
      requested, otherwise those whose names were requested and are valid. */
  function Filtered(tests: seq<TestSpec>, testList: seq<string>): seq<TestSpec> {
    if |testList| > 0 then Selected(tests, RunNames(testList, Names(tests))) else tests
  }

  /** What filtering logs: the warnings, then the skipped tests. */
  function FilterLog(tests: seq<TestSpec>, testList: seq<string>): seq<LogLine> {
    Warnings(testList, Names(tests))
      + (if |testList| > 0 then SkipLines(tests, RunNames(testList, Names(tests))) else [])
  }

  /** The driver's filter step: build the valid names, collect the requested
      ones (warning about the rest), and, when names were requested, keep only
      the requested tests. */
  method FilterTests(tests: seq<TestSpec>, testList: seq<string>)
    returns (result: seq<TestSpec>, log: seq<LogLine>)
    ensures result == Filtered(tests, testList)
    ensures log == FilterLog(tests, testList)
  {
    var validTestNames := CollectNames(tests);
    var runTestNames;
    runTestNames, log := CollectRequested(testList, validTestNames);
    result := tests;
    if |testList| > 0 {
      var skipped;
      result, skipped := KeepRequested(tests, runTestNames);
      log := log + skipped;
    }
  }

  /** The loop that fills the set of valid test names. */
  method CollectNames(tests: seq<TestSpec>) returns (names: set<string>)
    ensures names == Names(tests)
  {
    names := {};
    for i := 0 to |tests|
      invariant names == Names(tests[..i])
    {
      assert tests[..i + 1][..i] == tests[..i];
      names := names + {tests[i].name};
    }
    assert tests[..|tests|] == tests;
  }

  /** The loop over the requested names: a valid one joins the set of tests to
      run, any other is warned about. */
  method CollectRequested(testList: seq<string>, valid: set<string>)
    returns (runTestNames: set<string>, log: seq<LogLine>)
    ensures runTestNames == RunNames(testList, valid)
    ensures log == Warnings(testList, valid)
  {
    runTestNames := {};
    log := [];
    for i := 0 to |testList|
      invariant runTestNames == RunNames(testList[..i], valid)
      invariant log == Warnings(testList[..i], valid)
    {
      assert testList[..i + 1][..i] == testList[..i];
      if testList[i] in valid {
        runTestNames := runTestNames + {testList[i]};
      } else {
        log := log + [Warning(WarningText(testList[i]))];
      }
    }
    assert testList[..|testList|] == testList;
  }

  /** The loop that keeps the tests to run, logging each skipped one. */
  method KeepRequested(tests: seq<TestSpec>, runTestNames: set<string>)
    returns (newTests: seq<TestSpec>, log: seq<LogLine>)
    ensures newTests == Selected(tests, runTestNames)
    ensures log == SkipLines(tests, runTestNames)
  {
    newTests, log := [], [];
    for i := 0 to |tests|
      invariant newTests == Selected(tests[..i], runTestNames)
      invariant log == SkipLines(tests[..i], runTestNames)
    {
      assert tests[..i + 1][..i] == tests[..i];
      if tests[i].name !in runTestNames {
        log := log + [Info("Skipping test " + Decimal(i + 1) + " " + tests[i].name)];
      } else {
        newTests := newTests + [tests[i]];
      }
    }
    assert tests[..|tests|] == tests;
  }

  /** idx lists, in increasing order, exactly the positions of s whose names
      are wanted, and r is s read at those positions. */
  predicate SelectsAt(r: seq<TestSpec>, s: seq<TestSpec>, idx: seq<nat>, wanted: set<string>) {
    && |idx| == |r|
    && (forall k :: 0 <= k < |idx| ==> idx[k] < |s| && r[k] == s[idx[k]])
    && (forall k, l :: 0 <= k < l < |idx| ==> idx[k] < idx[l])
    && (forall i :: 0 <= i < |s| ==> (s[i].name in wanted <==> i in idx))
  }

  /** Selection keeps exactly the wanted tests, in their original order. */
  lemma {:induction false} SelectedIsOrderedSelection(s: seq<TestSpec>, wanted: set<string>)
    returns (idx: seq<nat>)
    ensures SelectsAt(Selected(s, wanted), s, idx, wanted)
  {
    if s == [] {
      idx := [];
    } else {
      var n := |s|;
      var prefix := s[..n - 1];
      var idx' := SelectedIsOrderedSelection(prefix, wanted);
      if s[n - 1].name in wanted {
        idx := idx' + [n - 1];
      } else {
        idx := idx';
      }
      assert forall i :: 0 <= i < n - 1 ==> s[i] == prefix[i];
    }
  }

  /** A selected test is one of the given tests and is wanted. */
  lemma {:induction false} SelectedMembers(s: seq<TestSpec>, wanted: set<string>, t: TestSpec)
    ensures t in Selected(s, wanted) <==> t in s && t.name in wanted
  {
    if s != [] {
      var prefix := s[..|s| - 1];
      SelectedMembers(prefix, wanted, t);
      assert t in s <==> t in prefix || t == s[|s| - 1];
    }
  }

  /** Selection from a list with distinct names has distinct names: a test is
      selected at most once however often its name is wanted. */
  lemma {:induction false} SelectedDistinct(s: seq<TestSpec>, wanted: set<string>)
    requires DistinctNames(s)
    ensures DistinctNames(Selected(s, wanted))
  {
    if s != [] {
      var prefix := s[..|s| - 1];
      var last := s[|s| - 1];
      assert DistinctNames(prefix) by {
        assert forall i :: 0 <= i < |prefix| ==> prefix[i] == s[i];
      }
      SelectedDistinct(prefix, wanted);
      var r' := Selected(prefix, wanted);
      forall k | 0 <= k < |r'|
        ensures r'[k].name != last.name
      {
        SelectedMembers(prefix, wanted, r'[k]);
        var i :| 0 <= i < |prefix| && prefix[i] == r'[k];
        assert s[i] == prefix[i];
      }
    }
  }

  /** The filter step as the driver promises it: without requested names every
      test is kept; with them, exactly the registered tests whose names were
      requested are kept, in registration order, each at most once when the
      registered names are distinct, and nothing is kept when no requested name
      is registered. */
  lemma FilteredSpec(tests: seq<TestSpec>, testList: seq<string>) returns (idx: seq<nat>)
    ensures |testList| == 0 ==> Filtered(tests, testList) == tests
    ensures |testList| > 0 ==> SelectsAt(Filtered(tests, testList), tests, idx, set n | n in testList)
    ensures DistinctNames(tests) ==> DistinctNames(Filtered(tests, testList))
    ensures |testList| > 0 && (forall n :: n in testList ==> n !in Names(tests)) ==>
      Filtered(tests, testList) == []
  {
    var wanted := RunNames(testList, Names(tests));
    idx := SelectedIsOrderedSelection(tests, wanted);
    assert forall i :: 0 <= i < |tests| ==> (tests[i].name in wanted <==> tests[i].name in testList) by {
      forall i | 0 <= i < |tests| ensures tests[i].name in Names(tests) {
        assert tests[i] in tests;
      }
    }
    if DistinctNames(tests) {
      SelectedDistinct(tests, wanted);
    }
    if |testList| > 0 && forall n :: n in testList ==> n !in Names(tests) {
      var r := Filtered(tests, testList);
      if r != [] {
        SelectedMembers(tests, wanted, r[0]);
        assert false;
      }
    }
  }

  /** Each unknown entry is a requested name that is not valid. */
  lemma {:induction false} UnknownEntriesMembers(testList: seq<string>, valid: set<string>, n: string)
    ensures n in UnknownEntries(testList, valid) <==> n in testList && n !in valid
  {
    if testList != [] {
      var prefix := testList[..|testList| - 1];
      UnknownEntriesMembers(prefix, valid, n);
      assert n in testList <==> n in prefix || n == testList[|testList| - 1];
    }
  }

  /** Exactly one warning per request of an unregistered name: the warnings
      name each unknown name as often as it was requested, and no other. */
  lemma {:induction false} WarningsPerUnknownRequest(testList: seq<string>, valid: set<string>, n: string)
    ensures multiset(UnknownEntries(testList, valid))[n] == if n in valid then 0 else multiset(testList)[n]
  {
    if testList != [] {
      var prefix := testList[..|testList| - 1];
      assert testList == prefix + [testList[|testList| - 1]];
      WarningsPerUnknownRequest(prefix, valid, n);
    }
  }

  /** A name that was warned about is never run. */
  lemma UnknownNeverScheduled(tests: seq<TestSpec>, testList: seq<string>, n: string)
    requires n in UnknownEntries(testList, Names(tests))
    ensures forall t :: t in Filtered(tests, testList) ==> t.name != n
  {
    UnknownEntriesMembers(testList, Names(tests), n);
    forall t | t in Filtered(tests, testList) ensures t.name != n {
      SelectedMembers(tests, RunNames(testList, Names(tests)), t);
    }
  }

  /** A filtered test is a listed test and, when names were requested, one
      of those requested. */
  lemma FilteredMembers(tests: seq<TestSpec>, testList: seq<string>, t: TestSpec)
    requires t in Filtered(tests, testList)
    ensures t in tests
    ensures |testList| > 0 ==> t.name in testList
  {
    if |testList| > 0 {
      SelectedMembers(tests, RunNames(testList, Names(tests)), t);
    }
  }

  // ---------------------------------------------------------------------------
  // Repetition

  /** The list concatenated with itself `times` times. */
  function Repeated(tests: seq<TestSpec>, times: nat): seq<TestSpec> {
    if times == 0 then [] else Repeated(tests, times - 1) + tests
  }

  /** The driver's repeat step. `make` with capacity times*len(tests) panics
      when that product is negative, so a negative count is only accepted for an
      empty list, where it yields the empty list. A count of one keeps the list. */
  method RepeatTests(tests: seq<TestSpec>, times: int) returns (result: seq<TestSpec>)
    requires times * |tests| >= 0
    ensures times == 1 ==> result == tests
    ensures times <= 0 ==> result == []
    ensures result == Repeated(tests, if times < 0 then 0 else times)
  {
    result := tests;
    if times != 1 {
      var newTests: seq<TestSpec> := [];
      var i := 0;
      while i < times
        invariant 0 <= i <= (if times < 0 then 0 else times)
        invariant newTests == Repeated(tests, i)
      {
        newTests := newTests + tests;
        i := i + 1;
      }
      result := newTests;
    }
  }

  /** Repetition adds no test that was not in the list. */
  lemma {:induction false} RepeatedMembers(tests: seq<TestSpec>, times: nat, t: TestSpec)
    requires t in Repeated(tests, times)
    ensures t in tests
  {
    if times > 0 && t !in tests {
      RepeatedMembers(tests, times - 1, t);
    }
  }

  /** Repetition multiplies the length. */
  lemma {:induction false} RepeatedLength(tests: seq<TestSpec>, times: nat)
    ensures |Repeated(tests, times)| == times * |tests|
  {
    if times > 0 {
      RepeatedLength(tests, times - 1);
      assert (times - 1) * |tests| + |tests| == times * |tests|;
    }
  }

  /** Copy q of the list holds the list. */
  lemma {:induction false} RepeatedCopy(tests: seq<TestSpec>, times: nat, q: nat, r: nat)
    requires q < times && r < |tests|
    ensures q * |tests| + r < |Repeated(tests, times)|
    ensures Repeated(tests, times)[q * |tests| + r] == tests[r]
  {
    RepeatedLength(tests, times - 1);
    if q < times - 1 {
      RepeatedCopy(tests, times - 1, q, r);
      assert q * |tests| + r < (times - 1) * |tests| by {
        assert (q + 1) * |tests| <= (times - 1) * |tests|;
      }
    } else {
      assert q * |tests| == (times - 1) * |tests|;
    }
  }

  /** Element k of the repeated list is element k mod |tests| of the list. */
  lemma RepeatedAt(tests: seq<TestSpec>, times: nat, k: nat)
    requires k < times * |tests|
    ensures |Repeated(tests, times)| == times * |tests|
    ensures Repeated(tests, times)[k] == tests[k % |tests|]
  {
    RepeatedLength(tests, times);
    var n := |tests|;
    var q, r := k / n, k % n;
    assert k == q * n + r;
    assert q < times;
    RepeatedCopy(tests, times, q, r);
  }

  // ---------------------------------------------------------------------------
  // Seed

  const TwoTo32: int := 0x1_0000_0000
  const TwoTo63: int := 0x8000_0000_0000_0000
  const TwoTo64: int := 0x1_0000_0000_0000_0000

  predicate IsInt64(x: int) { -TwoTo63 <= x < TwoTo63 }

  /** x & (1<<32 - 1) on a 64-bit two's complement integer: the mask keeps
      the low 32 bits, which is the Euclidean remainder of x by 2^32 whatever
      the sign of x (a negative x is stored as x + 2^64, a multiple of 2^32
      away). */
  function Low32Bits(x: int): (r: int)
    requires IsInt64(x)
    ensures 0 <= r < TwoTo32
    ensures (r - x) % TwoTo32 == 0
  {
    var unsigned := if x < 0 then x + TwoTo64 else x;
    unsigned % TwoTo32
  }

  /** The seed the shuffle uses: the requested one, or when that is zero the
      low 32 bits of the clock in nanoseconds. */
  function EffectiveSeed(orderseed: int, clock: int): (seed: int)
    requires IsInt64(orderseed) && IsInt64(clock)
    ensures orderseed != 0 ==> seed == orderseed
    ensures orderseed == 0 ==> 0 <= seed < TwoTo32 && (seed - clock) % TwoTo32 == 0
  {
    if orderseed == 0 then Low32Bits(clock) else orderseed
  }
}
