# End-to-end test driver: scheduler, reporter and liveness poll

This project models the orchestration core of the Kubernetes end-to-end test
driver (`test/e2e/driver.go`) and the bounded restart-count poll of its
liveness check (`test/e2e/liveness.go`), and proves properties of the model in
Dafny.

The driver works in these steps:

- It registers ten tests.
- It logs one warning per entry of the requested-name list that is not a
  registered name.
- When that list is empty, it keeps every registered test and logs no skip
  lines. Otherwise it keeps the registered tests whose names are in the list,
  in registration order. It logs a "Skipping test i name" line for each other
  registered test.
- It repeats the list `times` times.
- It takes the given order seed, or the low 32 bits of the clock when the seed
  is zero.
- It shuffles the list in place with a Fisher–Yates shuffle and logs the seed
  in `%#x` form.
- It runs every test once, in order, and records an outcome per test.
- It logs a Test Anything Protocol (TAP) summary: a plan line `1..N`, then
  `ok i - name` or `not ok i - name` for each test.
- It ends fatally with "At least one test failed" when any test failed.

The liveness check works as follows:

- It names a pod after its template plus a fresh UUID, creates it, and waits
  until it is no longer pending.
- It reads the restart count of its `liveness` container as a baseline.
- It then samples the count every 5 seconds, at most 48 times, until the count
  exceeds the baseline.
- It fails on any failed Get.
- The pod is deleted on every path after a successful create.

Outside effects become inputs:

- The generator seeded with a seed is an oracle `rng(seed, n)`. It returns the
  draws for an `n`-element shuffle, and the draw for index `i` lies in `[0, i]`.
- The clock is an integer.
- A test body is a verdict function of its schedule position and test.
- glog output is returned as a sequence of `Info`/`Warning`/`Fatal` lines.
- The cluster seen by the liveness check is a script:
  - whether the create succeeds;
  - whether the pod leaves the pending state;
  - `fetch(k)`, the result of the k-th Get of the pod (`fetch(0)` is the
    baseline Get).
- The calls the liveness check makes are recorded in a ghost trace.

Modules:

- `Numerals` (`numerals.dfy`): `%d` and `%#x` digits, and the parser that
  reads them back.
- `Glog` (`glog.dfy`): log lines.
- `Schedule` (`schedule.dfy`): the registry, filtering, repetition and the
  seed.
- `Shuffle` (`shuffle.dfy`): the in-place Fisher–Yates shuffle.
- `Report` (`report.dfy`): the execution loop, the TAP summary and a TAP
  reader.
- `Driver` (`driver.dfy`): the pipeline, `RunE2ETests`.
- `Liveness` (`liveness.dfy`): the liveness check.

Three behaviours of the code worth stating:

- The requested names are a list (test/e2e/driver.go:99-104). One warning is
  logged per list entry that is not registered, so a name requested twice is
  warned about twice.
- A negative repeat count makes `make` panic when the list is non-empty
  (test/e2e/driver.go:122), so `RepeatTests` requires `times * |tests| >= 0`.
- When the create fails there is nothing to delete, and no delete is issued
  (test/e2e/liveness.go:40-46).

## Model

| member | source | states |
|---|---|---|
| Numerals.NatToString | test/e2e/driver.go:43-48 | the rendering of a number is a non-empty string of digits of the base, without a leading zero unless it is "0" |
| Numerals.ParseNatToString | test/e2e/driver.go:43-48 | reading back the digits printed for a number gives the number (round trip of `%d` and of the digits of `%#x`) |
| Numerals.DigitRun | test/e2e/driver.go:46-48 | the length of the longest digit prefix: it is all digits and the next character is not a digit |
| Numerals.DigitRunOfNumeral | test/e2e/driver.go:46-48 | a printed number followed by a non-digit is exactly the digit prefix, so the number can be split off a TAP line |
| Schedule.Names | test/e2e/driver.go:94-97 | the set of valid names holds exactly the names of the registered tests |
| Schedule.RunNames | test/e2e/driver.go:98-105 | the names to run are exactly the requested names that are valid |
| Schedule.WarningText | test/e2e/driver.go:103 | the text of the warning for an unknown name, "Requested test X does not exist"; Schedule.Warnings and Schedule.UnknownEntriesMembers state which names receive it |
| Schedule.Selected | test/e2e/driver.go:107-120 | the reference definition of the tests kept by the filter loop. Schedule.SelectedIsOrderedSelection and Schedule.SelectedMembers characterise it as the in-order selection of the wanted names. |
| Schedule.SkipLines | test/e2e/driver.go:110-116 | the "Skipping test i name" lines, with the 1-based position in the registry, for the tests that are not kept. Schedule.SkipLinesCount counts them. |
| Schedule.SkipLinesCount | test/e2e/driver.go:110-118 | each test is either kept or skipped: the skip lines and the kept tests together number as many as the tests |
| Schedule.Warnings | test/e2e/driver.go:99-105 | one "Requested test X does not exist" warning per unknown request, in request order |
| Schedule.FilterTests | test/e2e/driver.go:93-120 | the filter step returns the filtered list and logs the warnings followed by the "Skipping test i name" lines |
| Schedule.CollectNames | test/e2e/driver.go:94-97 | the loop that inserts every registered name builds the set of valid names |
| Schedule.CollectRequested | test/e2e/driver.go:98-105 | the loop over the requested names builds the names to run and logs a warning for each unknown one |
| Schedule.KeepRequested | test/e2e/driver.go:107-120 | the append loop keeps exactly the tests whose names are to run, in order, and logs a skip line with the 1-based position for each other one |
| Schedule.SelectedIsOrderedSelection | test/e2e/driver.go:107-120 | the kept tests are the original tests at strictly increasing positions, and a position is kept if and only if its name is wanted |
| Schedule.SelectedMembers | test/e2e/driver.go:110-118 | a test is kept if and only if it is in the list and its name is wanted |
| Schedule.SelectedDistinct | test/e2e/driver.go:107-120 | filtering a list with distinct names gives a list with distinct names, whatever the requested list repeats |
| Schedule.FilteredSpec | test/e2e/driver.go:93-120 | four facts. An empty request list keeps every test. Otherwise the result is the order-preserving selection of the tests whose names were requested. Distinct names stay distinct. A request list naming no registered test gives the empty list. |
| Schedule.UnknownEntriesMembers | test/e2e/driver.go:99-105 | a name is warned about if and only if it was requested and is not valid |
| Schedule.WarningsPerUnknownRequest | test/e2e/driver.go:99-105 | an unknown name receives exactly as many warnings as it was requested, and a valid one none |
| Schedule.UnknownNeverScheduled | test/e2e/driver.go:99-120 | a name that was warned about is carried by no filtered test |
| Schedule.FilteredMembers | test/e2e/driver.go:107-120 | a filtered test is a registered test and, when names were requested, one of the requested names |
| Schedule.Repeated | test/e2e/driver.go:121-127 | the reference definition of the repeat step: `times` concatenated copies. Schedule.RepeatedLength, Schedule.RepeatedAt and Schedule.RepeatedMembers state its length, its elements and its members. |
| Schedule.RepeatTests | test/e2e/driver.go:121-127 | the repeat step is `times` concatenated copies. `times == 1` leaves the list unchanged. A count of zero or less gives the empty list. |
| Schedule.RepeatedMembers | test/e2e/driver.go:121-127 | repetition adds no test that was not in the list |
| Schedule.RepeatedLength | test/e2e/driver.go:121-127 | repetition gives `times` times the list length in elements |
| Schedule.RepeatedCopy | test/e2e/driver.go:121-127 | element `q * n + r` of the repetition of an n-element list is `tests[r]` |
| Schedule.RepeatedAt | test/e2e/driver.go:121-127 | element k of the repetition of an n-element list is `tests[k mod n]` |
| Schedule.Low32Bits | test/e2e/driver.go:132 | masking an int64 with `1<<32 - 1` gives a value in `[0, 2^32)` congruent to it modulo 2^32 |
| Schedule.EffectiveSeed | test/e2e/driver.go:128-133 | a non-zero seed is used unchanged. A zero seed becomes the clock's low 32 bits, a value in `[0, 2^32)`. |
| Shuffle.Swap | test/e2e/driver.go:57 | exchanging two in-bounds elements keeps the length |
| Shuffle.SwapPermutes | test/e2e/driver.go:57 | exchanging two elements keeps the multiset of elements |
| Shuffle.ShuffleSteps | test/e2e/driver.go:55-58 | the swaps for indices i down to 1 keep the length |
| Shuffle.Shuffled | test/e2e/driver.go:54-59 | the shuffled order has the input's length |
| Shuffle.ShuffleStepsPermutes | test/e2e/driver.go:55-58 | the swaps for indices i down to 1 only move elements around |
| Shuffle.ShuffleStepsFrame | test/e2e/driver.go:55-58 | the swaps for indices up to i leave every later position as it is |
| Shuffle.ShuffledIsPermutation | test/e2e/driver.go:54-59 | the shuffle is a permutation of its input: same length, same multiset |
| Shuffle.ShuffledLast | test/e2e/driver.go:55-58 | the last position ends up holding the element at the first draw |
| Shuffle.ShuffleStepsIdentity | test/e2e/driver.go:55-58 | draws that name their own index leave the list unchanged |
| Shuffle.ShortListUnchanged | test/e2e/driver.go:55 | a list of at most one test comes out unchanged |
| Shuffle.ShuffleTests | test/e2e/driver.go:54-59 | the in-place loop leaves the array holding the shuffled order of its old contents, a permutation of them. Each swap is between index i and a draw in `[0, i]`. |
| Report.RunLines | test/e2e/driver.go:142-151 | the two progress lines for the test at position i: "Running test N name", then "        test N passed" or "        test N failed" |
| Report.ExecutionLog | test/e2e/driver.go:141-156 | the progress log holds two lines per executed test |
| Report.ExecuteTests | test/e2e/driver.go:139-156 | every test runs, none is skipped after a failure. `info[k]` holds test k and its verdict. The aggregate is true if and only if every outcome passed. The log holds the "Running test" and "test N passed/failed" lines. |
| Report.TapPlan | test/e2e/driver.go:43 | the plan line "1..N"; Report.TapPlanReadsBack reads it back as N |
| Report.TapLine | test/e2e/driver.go:45-49 | the result line "ok N - name" or "not ok N - name"; Report.TapLineReadsBack reads it back as the verdict, N and the name |
| Report.OutputTapSummary | test/e2e/driver.go:42-51 | the summary is the plan line `1..N` followed by one result line per outcome, numbered from 1 |
| Report.TapPlanReadsBack | test/e2e/driver.go:43 | a TAP reader reads the plan line back as the number of outcomes |
| Report.NumberedReadsBack | test/e2e/driver.go:46-48 | the tail of a result line reads back as its number and its test name |
| Report.TapLineReadsBack | test/e2e/driver.go:44-50 | a result line reads back as its verdict, its 1-based number and its test name |
| Report.TapSummaryReadsBack | test/e2e/driver.go:42-51 | a TAP reader recovers every outcome from the summary. A test that occurs several times keeps distinct numbers. |
| Report.TapSummaryExample | test/e2e/driver.go:42-51 | three outcomes A pass, B fail, C pass give `1..3`, `ok 1 - A`, `not ok 2 - B`, `ok 3 - C` |
| Driver.ScheduleTests | test/e2e/driver.go:93-137 | filtering, repetition, the seed and the in-place shuffle produce the scheduled order. The log holds the filter lines, then the seed line. |
| Driver.RunE2ETests | test/e2e/driver.go:76-162 | the whole run. The schedule is the shuffled, repeated, filtered registry. Outcomes line up with it index by index. The flag is true if and only if all tests passed. The TAP summary follows the progress log, and the log ends with "All tests pass" or with the fatal "At least one test failed". |
| Driver.RegisteredDistinct | test/e2e/driver.go:76-91 | the registered test names are distinct |
| Driver.ScheduleIsPermutation | test/e2e/driver.go:121-136 | the schedule has `times` times as many tests as the filtered list and is a permutation of the repeated list |
| Driver.ScheduledAreRequested | test/e2e/driver.go:99-136 | every scheduled test is registered, was requested when names were given, and carries no name that was warned about |
| Driver.SameSeedSameOrder | test/e2e/driver.go:128-136 | two runs that shuffle with the same seed run the tests in the same order |
| Driver.SeededScheduleIgnoresClock | test/e2e/driver.go:128-136 | with a non-zero seed the order does not depend on the clock |
| Driver.AlternateHex | test/e2e/driver.go:137 | Go's `%#x` of a signed integer: "0x" and the lower-case hex digits, with a leading "-" for a negative value; Driver.AlternateHexReadsBack reads it back |
| Driver.SeedLine | test/e2e/driver.go:137 | the log line "Tests shuffled with orderseed 0x…" followed by a newline, carrying the seed the shuffle used |
| Driver.FinalLine | test/e2e/driver.go:158-162 | the last log line: the fatal "At least one test failed" when any test failed, "All tests pass" otherwise |
| Driver.AlternateHexReadsBack | test/e2e/driver.go:137 | the `%#x` rendering of the seed in the log reads back as the seed, negative or not |
| Liveness.RestartCount | test/e2e/liveness.go:62 | the restart count of the container named "liveness". A missing entry reads as 0, the value Go's map lookup gives for a missing key. |
| Liveness.PodName | test/e2e/liveness.go:36-37 | the pod name is the template name, a dash and the UUID. It has the template name as a prefix and differs from it. |
| Liveness.FirstSettling | test/e2e/liveness.go:65-80 | the first sample number whose sample is a failed Get or a count above the baseline, or 49 when none of the 48 is |
| Liveness.RunLivenessTest | test/e2e/liveness.go:31-84 | the check passes if and only if the create succeeds, the pod leaves pending, the baseline Get succeeds and the poll sees a rise. Its calls are the create, then the wait, Get and poll calls, then a delete after a successful create. |
| Liveness.ObserveRestart | test/e2e/liveness.go:47-83 | the wait, the baseline and the loop of at most 48 rounds with early returns, proved against the poll specification and its call trace |
| Liveness.PollCalls | test/e2e/liveness.go:66-69 | the calls of n poll rounds, each a 5-second sleep followed by a Get of the pod. Liveness.PollCallsShape and Liveness.PollCallsCount state their order and number. |
| Liveness.LivenessTrace | test/e2e/liveness.go:40-83 | the calls of one check: the create alone when it fails, otherwise the create, the wait, the Gets and sleeps, and the deferred delete (test/e2e/liveness.go:46) last |
| Liveness.PollCallsShape | test/e2e/liveness.go:66-69 | each poll round is one 5-second sleep followed by one Get |
| Liveness.PollCallsCount | test/e2e/liveness.go:66-69 | n rounds make n sleeps, n Gets and no delete |
| Liveness.CreateFailure | test/e2e/liveness.go:40-44 | a failed create ends the check with no wait, Get or delete |
| Liveness.DeleteExactlyOnce | test/e2e/liveness.go:46 | after a successful create exactly one delete of the pod is issued, as the last call, on every path. After a failed create none is issued. |
| Liveness.SampleBound | test/e2e/liveness.go:65-69 | the poll takes between 1 and 48 samples, each preceded by one 5-second sleep. The Gets are the baseline plus one per sample. |
| Liveness.EarlyFailure | test/e2e/liveness.go:46-61 | a failed wait or a failed baseline Get fails the check, and the pod is still deleted |
| Liveness.PassesAtFirstRise | test/e2e/liveness.go:74-79 | when sample k is the first to rise above the baseline, after k-1 fetched samples without a rise, the check passes after exactly k samples |
| Liveness.SuccessHasRise | test/e2e/liveness.go:74-79 | a poll that passes stopped at a sample above the baseline, and every earlier sample was fetched and showed no rise |
| Liveness.FetchErrorStops | test/e2e/liveness.go:69-73 | a failed Get of sample k fails the poll with no further samples |
| Liveness.ExhaustedAfterMaxSamples | test/e2e/liveness.go:66-83 | 48 samples without a rise fail the poll after exactly 48 samples |
| Liveness.PollExample | test/e2e/liveness.go:65-80 | baseline 2 and samples 2, 2, 2, 3 pass on the fourth sample and take no more |

## Left out

- The watchdog goroutine (test/e2e/driver.go:70-74) is left out. It is concurrency, a ten-minute wall-clock sleep and a process abort.
- Logging setup is left out: `util.InitLogs`, `util.FlushLogs`, `util.ReallyCrash` and the glog sinks. Logs are returned line sequences. `glog.Fatalf`'s process exit is the final `Fatal` line plus a false flag.
- The `math/rand` algorithm and `time.Now()` are left out. The seeded generator is the `rng` oracle, and the clock is an int64 parameter.
- `loadClientOrDie`, `loadPodOrDie`, `assetPath` and `waitForPodNotPending` are not part of this model. They do I/O or wait without bound. Their results are inputs: the template name, the create result, the not-pending result and the Get script.
- The bodies of the registered tests are left out: they talk to a live cluster. Each becomes the verdict oracle. This includes `TestLivenessHttp` and `TestLivenessExec`, which only call runLivenessTest with one of two YAML file names.
- `time.Sleep` is not timed. Sleeps are counted, with their duration, in the liveness trace.
- UUID generation is left out. Any string stands for the UUID.
- The `testContext` assignment is left out, because nothing in the core reads it.
- The liveness check's own log messages and the error returned by the deferred Delete are left out. The Delete error is ignored by the code too.
- Schedule.RepeatTests: when `times` is negative and the list is non-empty, `make` panics at test/e2e/driver.go:122. The requires `times * |tests| >= 0` excludes that input, so the panic is not modelled.
- Driver.RunE2ETests: the 64-bit `times * len(tests)` capacity may wrap around in Go. This is not modelled: the product is an unbounded integer, and the model requires it to be non-negative.
- Schedule.Low32Bits: the mask is defined arithmetically, as the two's complement bit pattern reduced modulo 2^32. It is not stated on 64-bit words.
- Glog.Infos, Liveness.ObservationTrace, Liveness.ObservationPasses, Liveness.SamplesTaken, Liveness.PollSucceeds, Driver.Scheduled, Driver.Expanded and the helper lemmas `Numerals.DivideByBase`, `Liveness.PolledTrace`, `Liveness.PolledTraceCounts` and `Liveness.PolledTraceShape` have no row: they only name the parts of the specification that the rows above state properties of.
