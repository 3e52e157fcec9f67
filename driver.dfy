/** The end-to-end driver's RunE2ETests: filter the registered tests by the
    requested names, repeat them, choose the seed, shuffle, run every test in
    order, report in TAP, and end fatally when any test failed. */
module Driver {
  import opened Numerals
  import opened Glog
  import opened Schedule
  import opened Shuffle
  import opened Report

  /** The seeded generator as an oracle: rng(seed, n) are the draws a
      generator seeded with `seed` hands to a shuffle of n elements. */
  type Rng = (int, nat) -> seq<nat>

  /** Whatever the seed, the draws for index i lie in [0, i]. */
  ghost predicate ValidRng(rng: Rng) {
    forall seed: int, n: nat :: DrawsFit(rng(seed, n), n)
  }

  /** The repeat count as a number of copies; a negative count only reaches
      this point for an empty list, where it makes no copies. */
  function Copies(times: int): nat {
    if times < 0 then 0 else times
  }

  /** The inputs the driver accepts: 64-bit seed and clock, draws in range,
      and a repeat count whose product with the list length is a valid
      capacity. */
  ghost predicate Acceptable(registry: seq<TestSpec>, orderseed: int, times: int, testList: seq<string>, clock: int, rng: Rng) {
    && IsInt64(orderseed) && IsInt64(clock) && ValidRng(rng)
    && times * |Filtered(registry, testList)| >= 0
  }

  /** The expanded list, before the shuffle. */
  function Expanded(registry: seq<TestSpec>, testList: seq<string>, times: int): seq<TestSpec> {
    Repeated(Filtered(registry, testList), Copies(times))
  }

  /** The order in which the driver runs the tests. */
  function Scheduled(registry: seq<TestSpec>, orderseed: int, times: int, testList: seq<string>, clock: int, rng: Rng): seq<TestSpec>
    requires Acceptable(registry, orderseed, times, testList, clock, rng)
  {
    var expanded := Expanded(registry, testList, times);
    Shuffled(expanded, rng(EffectiveSeed(orderseed, clock), |expanded|))
  }

  /** Go's %#x of a signed integer. */
  function AlternateHex(v: int): string {
    if v < 0 then "-0x" + Hex(-v) else "0x" + Hex(v)
  }

  /** Reads a number printed by Go's %#x. */
  function ParseAlternateHex(s: string): Option<int> {
    if |s| > 3 && s[..3] == "-0x" && AllDigits(s[3..], 16) then
      var magnitude: int := ParseNat(s[3..], 16);
      Some(-magnitude)
    else if |s| > 2 && s[..2] == "0x" && AllDigits(s[2..], 16) then Some(ParseNat(s[2..], 16))
    else None
  }

  /** The seed a run prints is the seed it shuffled with, negative or not, so
      the order can be replayed from the log. */
  lemma AlternateHexReadsBack(v: int)
    ensures ParseAlternateHex(AlternateHex(v)) == Some(v)
  {
    var s := AlternateHex(v);
    if v < 0 {
      assert s[..3] == "-0x" && s[3..] == Hex(-v);
      ParseNatToString(-v, 16);
    } else {
      assert s[..2] == "0x" && s[2..] == Hex(v);
      assert s[..3][0] == '0';
      ParseNatToString(v, 16);
    }
  }

  function SeedLine(seed: int): LogLine {
    Info("Tests shuffled with orderseed " + AlternateHex(seed) + "\n")
  }

  function FinalLine(passed: bool): LogLine {
    if passed then Info("All tests pass") else Fatal("At least one test failed")
  }

  /** The first half of the driver's RunE2ETests: filter the registered tests,
      repeat them, choose the seed and shuffle in place. */
  method ScheduleTests(registry: seq<TestSpec>, orderseed: int, times: int, testList: seq<string>, clock: int, rng: Rng)
    returns (tests: seq<TestSpec>, log: seq<LogLine>)
    requires Acceptable(registry, orderseed, times, testList, clock, rng)
    ensures tests == Scheduled(registry, orderseed, times, testList, clock, rng)
    ensures log == FilterLog(registry, testList) + [SeedLine(EffectiveSeed(orderseed, clock))]
  {
    tests, log := FilterTests(registry, testList);
    tests := RepeatTests(tests, times);
    var seed := EffectiveSeed(orderseed, clock);
    var slice := new TestSpec[|tests|](k requires 0 <= k < |tests| => tests[k]);
    assert slice[..] == tests;
    ShuffleTests(slice, rng(seed, |tests|));
    tests := slice[..];
    log := log + [SeedLine(seed)];
  }

  /** The driver's RunE2ETests from the registry on. The returned flag is false
      exactly when the run ends with the fatal "At least one test failed". */
  method RunE2ETests(orderseed: int, times: int, testList: seq<string>, clock: int, rng: Rng, verdict: Verdict)
    returns (passed: bool, log: seq<LogLine>, ghost schedule: seq<TestSpec>, info: seq<TestInfo>, tap: seq<string>)
    requires Acceptable(Registered, orderseed, times, testList, clock, rng)
    ensures schedule == Scheduled(Registered, orderseed, times, testList, clock, rng)
    ensures |info| == |schedule|
    ensures forall k :: 0 <= k < |schedule| ==> info[k] == TestInfo(verdict(k, schedule[k]), schedule[k])
    ensures passed <==> AllPassed(info)
    ensures IsTapSummary(tap, info)
    ensures log == FilterLog(Registered, testList)
                 + [SeedLine(EffectiveSeed(orderseed, clock))]
                 + ExecutionLog(info) + Infos(tap) + [FinalLine(passed)]
  {
    var tests;
    tests, log := ScheduleTests(Registered, orderseed, times, testList, clock, rng);
    schedule := tests;
    var execLog;
    info, passed, execLog := ExecuteTests(tests, verdict);
    tap := OutputTapSummary(info);
    log := log + execLog + Infos(tap);
    if !passed {
      log := log + [Fatal("At least one test failed")];
    } else {
      log := log + [Info("All tests pass")];
    }
  }

  // ---------------------------------------------------------------------------
  // Properties of the schedule

  /** The registered names are distinct. */
  lemma RegisteredDistinct()
    ensures DistinctNames(Registered)
  {
  }

  /** The schedule is the expanded list in another order: times * |filtered|
      tests, each filtered test once per copy. */
  lemma ScheduleIsPermutation(registry: seq<TestSpec>, orderseed: int, times: int, testList: seq<string>, clock: int, rng: Rng)
    requires Acceptable(registry, orderseed, times, testList, clock, rng)
    ensures |Scheduled(registry, orderseed, times, testList, clock, rng)| == Copies(times) * |Filtered(registry, testList)|
    ensures multiset(Scheduled(registry, orderseed, times, testList, clock, rng)) == multiset(Expanded(registry, testList, times))
  {
    var expanded := Expanded(registry, testList, times);
    RepeatedLength(Filtered(registry, testList), Copies(times));
    ShuffledIsPermutation(expanded, rng(EffectiveSeed(orderseed, clock), |expanded|));
  }

  /** Every scheduled test is registered and, when names were requested, was
      requested; a requested name that was warned about is never scheduled. */
  lemma ScheduledAreRequested(registry: seq<TestSpec>, orderseed: int, times: int, testList: seq<string>, clock: int, rng: Rng, t: TestSpec)
    requires Acceptable(registry, orderseed, times, testList, clock, rng)
    requires t in Scheduled(registry, orderseed, times, testList, clock, rng)
    ensures t in registry
    ensures |testList| > 0 ==> t.name in testList
    ensures t.name !in UnknownEntries(testList, Names(registry))
  {
    ScheduleIsPermutation(registry, orderseed, times, testList, clock, rng);
    assert t in multiset(Expanded(registry, testList, times));
    RepeatedMembers(Filtered(registry, testList), Copies(times), t);
    FilteredMembers(registry, testList, t);
    if t.name in UnknownEntries(testList, Names(registry)) {
      UnknownNeverScheduled(registry, testList, t.name);
    }
  }

  /** The order depends on the clock only through the seed: two runs that
      shuffle with the same seed run the tests in the same order. */
  lemma SameSeedSameOrder(registry: seq<TestSpec>, orderseed1: int, clock1: int, orderseed2: int, clock2: int,
                          times: int, testList: seq<string>, rng: Rng)
    requires Acceptable(registry, orderseed1, times, testList, clock1, rng)
    requires Acceptable(registry, orderseed2, times, testList, clock2, rng)
    requires EffectiveSeed(orderseed1, clock1) == EffectiveSeed(orderseed2, clock2)
    ensures Scheduled(registry, orderseed1, times, testList, clock1, rng)
         == Scheduled(registry, orderseed2, times, testList, clock2, rng)
  {
  }

  /** With a non-zero seed the clock plays no part: the same seed gives the
      same order. */
  lemma SeededScheduleIgnoresClock(registry: seq<TestSpec>, orderseed: int, times: int, testList: seq<string>, clock1: int, clock2: int, rng: Rng)
    requires orderseed != 0
    requires Acceptable(registry, orderseed, times, testList, clock1, rng) && Acceptable(registry, orderseed, times, testList, clock2, rng)
    ensures Scheduled(registry, orderseed, times, testList, clock1, rng) == Scheduled(registry, orderseed, times, testList, clock2, rng)
  {
    SameSeedSameOrder(registry, orderseed, clock1, orderseed, clock2, times, testList, rng);
  }
}
