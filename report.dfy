/** Running the scheduled tests one after another and reporting the outcomes
    in the Test Anything Protocol (TAP): a plan line "1..N", then one line
    "ok i - name" or "not ok i - name" per test, numbered from 1. */
module Report {
  import opened Numerals
  import opened Glog
  import opened Schedule

  /** The outcome recorded for one executed test. */
  datatype TestInfo = TestInfo(passed: bool, spec: TestSpec)

  /** The verdict the body of a test returns when it runs at the given
      position of the schedule, each with a fresh client. */
  type Verdict = (nat, TestSpec) -> bool

  predicate AllPassed(info: seq<TestInfo>) {
    forall k :: 0 <= k < |info| ==> info[k].passed
  }

  // ---------------------------------------------------------------------------
  // Execution

  /** The two progress lines logged while running the test at position i. */
  function RunLines(i: nat, info: TestInfo): seq<LogLine> {
    [ Info("Running test " + Decimal(i + 1) + " " + info.spec.name),
      Info("        test " + Decimal(i + 1) + (if info.passed then " passed" else " failed")) ]
  }

  /** The progress log of a run that recorded the given outcomes. */
  function ExecutionLog(info: seq<TestInfo>): (log: seq<LogLine>)
    ensures |log| == 2 * |info|
  {
    if info == [] then []
    else ExecutionLog(info[..|info| - 1]) + RunLines(|info| - 1, info[|info| - 1])
  }

  /** The driver's execution loop: every scheduled test runs once, in order,
      whatever the verdicts of the earlier ones; the run passes exactly when
      every test passed. */
  method ExecuteTests(tests: seq<TestSpec>, verdict: Verdict)
    returns (info: seq<TestInfo>, passed: bool, log: seq<LogLine>)
    ensures |info| == |tests|
    ensures forall k :: 0 <= k < |tests| ==> info[k].spec == tests[k] && info[k].passed == verdict(k, tests[k])
    ensures passed <==> AllPassed(info)
    ensures log == ExecutionLog(info)
  {
    info, passed, log := [], true, [];
    for i := 0 to |tests|
      invariant |info| == i
      invariant forall k :: 0 <= k < i ==> info[k].spec == tests[k] && info[k].passed == verdict(k, tests[k])
      invariant passed <==> AllPassed(info)
      invariant log == ExecutionLog(info)
    {
      var test := tests[i];
      log := log + [Info("Running test " + Decimal(i + 1) + " " + test.name)];
      var testPassed := verdict(i, test);
      if !testPassed {
        log := log + [Info("        test " + Decimal(i + 1) + " failed")];
        passed := false;
      } else {
        log := log + [Info("        test " + Decimal(i + 1) + " passed")];
      }
      info := info + [TestInfo(testPassed, test)];
      assert info[..|info| - 1] == info[..i];
    }
  }

  // ---------------------------------------------------------------------------
  // TAP summary

  function TapPlan(n: nat): string {
    "1.." + Decimal(n)
  }

  /** The result line for the outcome at 0-based position i. */
  function TapLine(i: nat, info: TestInfo): string {
    (if info.passed then "ok " else "not ok ") + Decimal(i + 1) + " - " + info.spec.name
  }

  /** The shape of a TAP summary of the given outcomes: the plan line, then one
      result line per outcome, in recorded order. */
  predicate IsTapSummary(lines: seq<string>, infoList: seq<TestInfo>) {
    && |lines| == |infoList| + 1
    && lines[0] == TapPlan(|infoList|)
    && forall i :: 0 <= i < |infoList| ==> lines[i + 1] == TapLine(i, infoList[i])
  }

  /** The driver's outputTAPSummary. */
  method OutputTapSummary(infoList: seq<TestInfo>) returns (lines: seq<string>)
    ensures IsTapSummary(lines, infoList)
  {
    lines := [TapPlan(|infoList|)];
    for i := 0 to |infoList|
      invariant |lines| == i + 1
      invariant lines[0] == TapPlan(|infoList|)
      invariant forall k :: 0 <= k < i ==> lines[k + 1] == TapLine(k, infoList[k])
    {
      var info := infoList[i];
      if info.passed {
        lines := lines + ["ok " + Decimal(i + 1) + " - " + info.spec.name];
      } else {
        lines := lines + ["not ok " + Decimal(i + 1) + " - " + info.spec.name];
      }
    }
  }

  // ---------------------------------------------------------------------------
  // Reading a TAP summary back

  /** What a TAP consumer reads from one result line. */
  datatype TapResult = TapResult(ok: bool, number: nat, description: string)

  /** Reads a plan line "1..N". */
  function ParseTapPlan(line: string): Option<nat> {
    if |line| > 3 && line[..3] == "1.." && AllDigits(line[3..], 10)
    then Some(ParseNat(line[3..], 10))
    else None
  }

  /** Reads the part of a result line after "ok " or "not ok ": the test
      number, " - ", and the description. */
  function ParseNumbered(ok: bool, rest: string): Option<TapResult> {
    var k := DigitRun(rest, 10);
    if k > 0 && |rest| >= k + 3 && rest[k..k + 3] == " - "
    then Some(TapResult(ok, ParseNat(rest[..k], 10), rest[k + 3..]))
    else None
  }

  /** Reads a result line. */
  function ParseTapLine(line: string): Option<TapResult> {
    if |line| >= 3 && line[..3] == "ok " then ParseNumbered(true, line[3..])
    else if |line| >= 7 && line[..7] == "not ok " then ParseNumbered(false, line[7..])
    else None
  }

  datatype Option<T> = None | Some(value: T)

  /** A plan line reads back as its count. */
  lemma TapPlanReadsBack(n: nat)
    ensures ParseTapPlan(TapPlan(n)) == Some(n)
  {
    var d := Decimal(n);
    assert TapPlan(n)[3..] == d;
    ParseNatToString(n, 10);
  }

  /** The numbered part of a result line reads back as its number and name. */
  lemma NumberedReadsBack(ok: bool, number: nat, name: string)
    ensures ParseNumbered(ok, Decimal(number) + " - " + name) == Some(TapResult(ok, number, name))
  {
    var d := Decimal(number);
    var rest := d + " - " + name;
    assert rest == d + (" - " + name);
    DigitRunOfNumeral(d, " - " + name, 10);
    assert rest[..|d|] == d;
    assert rest[|d|..|d| + 3] == " - ";
    assert rest[|d| + 3..] == name;
    ParseNatToString(number, 10);
  }

  /** A result line reads back as its verdict, its 1-based number and the test
      name, whatever characters the name holds. */
  lemma TapLineReadsBack(i: nat, info: TestInfo)
    ensures ParseTapLine(TapLine(i, info)) == Some(TapResult(info.passed, i + 1, info.spec.name))
  {
    var rest := Decimal(i + 1) + " - " + info.spec.name;
    NumberedReadsBack(info.passed, i + 1, info.spec.name);
    var line := TapLine(i, info);
    if info.passed {
      assert line == "ok " + rest;
      assert line[..3] == "ok " && line[3..] == rest;
    } else {
      assert line == "not ok " + rest;
      assert line[..3][0] == 'n';
      assert line[..7] == "not ok " && line[7..] == rest;
    }
  }

  /** A TAP summary reads back as the outcomes it was made from: the plan
      counts them, and result line i+1 carries outcome i under number i+1, so
      a test that occurs several times is reported under distinct numbers. */
  lemma TapSummaryReadsBack(lines: seq<string>, infoList: seq<TestInfo>)
    requires IsTapSummary(lines, infoList)
    ensures ParseTapPlan(lines[0]) == Some(|infoList|)
    ensures forall i :: 0 <= i < |infoList| ==>
      ParseTapLine(lines[i + 1]) == Some(TapResult(infoList[i].passed, i + 1, infoList[i].spec.name))
  {
    TapPlanReadsBack(|infoList|);
    forall i | 0 <= i < |infoList|
      ensures ParseTapLine(lines[i + 1]) == Some(TapResult(infoList[i].passed, i + 1, infoList[i].spec.name))
    {
      TapLineReadsBack(i, infoList[i]);
    }
  }

  /** The summary of three outcomes, the second a failure. */
  lemma TapSummaryExample(lines: seq<string>)
    requires IsTapSummary(lines, [TestInfo(true, TestSpec(Basic, "A")),
                                  TestInfo(false, TestSpec(Network, "B")),
                                  TestInfo(true, TestSpec(Private, "C"))])
    ensures lines == ["1..3", "ok 1 - A", "not ok 2 - B", "ok 3 - C"]
  {
    var infos := [TestInfo(true, TestSpec(Basic, "A")),
                  TestInfo(false, TestSpec(Network, "B")),
                  TestInfo(true, TestSpec(Private, "C"))];
    assert Decimal(1) == "1" && Decimal(2) == "2" && Decimal(3) == "3";
    assert lines[1] == TapLine(0, infos[0]) == "ok " + "1" + " - " + "A" == "ok 1 - A";
    assert lines[2] == TapLine(1, infos[1]) == "not ok " + "2" + " - " + "B" == "not ok 2 - B";
    assert lines[3] == TapLine(2, infos[2]) == "ok " + "3" + " - " + "C" == "ok 3 - C";
    assert lines[0] == TapPlan(3) == "1.." + "3" == "1..3";
    assert lines == [lines[0], lines[1], lines[2], lines[3]];
  }
}
