/** The liveness check: create a uniquely named pod, wait until it is no
    longer pending, take its container's restart count as a baseline, then
    sample the count every 5 seconds, at most 48 times, until it exceeds the
    baseline. The pod is deleted on every path once it has been created.

    The cluster is a script: whether the create and the not-pending wait
    succeed, and fetch(k), the result of the k-th Get of the pod (fetch(0) is
    the baseline Get, fetch(i) the i-th sample). The calls made are recorded in
    a ghost trace. */
module Liveness {

  /** The result of one Get of the pod: an error, or the restart count of each
      container of the pod, by container name. */
  datatype PodFetch = FetchError | Fetched(restartCounts: map<string, int>)

  /** One call to the cluster, or one sleep. */
  datatype Call =
    | Create(pod: string)
    | WaitNotPending(pod: string)
    | Get(pod: string)
    | Sleep(seconds: nat)
    | Delete(pod: string)

  const MaxSamples: nat := 48
  const SampleIntervalSeconds: nat := 5

  /** The restart count of the container named "liveness"; a container that is
      not listed reads as zero, the zero value of a missing map entry in Go. */
  function RestartCount(restartCounts: map<string, int>): int {
    if "liveness" in restartCounts then restartCounts["liveness"] else 0
  }

  /** The name of the pod: the template's name, a dash, and a fresh UUID. */
  function PodName(templateName: string, uuid: string): (name: string)
    ensures |name| == |templateName| + 1 + |uuid|
    ensures name[..|templateName|] == templateName
    ensures name[|templateName|] == '-' && name[|templateName| + 1..] == uuid
    ensures name != templateName
  {
    templateName + "-" + uuid
  }

  // ---------------------------------------------------------------------------
  // What the poll does, stated without the loop

  /** A sample that ends the poll: a failed Get, or a count above the baseline. */
  predicate Settles(sample: PodFetch, baseline: int) {
    sample.FetchError? || RestartCount(sample.restartCounts) > baseline
  }

  /** The first sample number in [from, 48] whose sample settles the poll, or
      49 when none does. */
  function FirstSettling(fetch: nat -> PodFetch, baseline: int, from: nat): (k: nat)
    requires 1 <= from <= MaxSamples + 1
    ensures from <= k <= MaxSamples + 1
    ensures forall i :: from <= i < k ==> !Settles(fetch(i), baseline)
    ensures k <= MaxSamples ==> Settles(fetch(k), baseline)
    decreases MaxSamples + 1 - from
  {
    if from > MaxSamples || Settles(fetch(from), baseline) then from
    else FirstSettling(fetch, baseline, from + 1)
  }

  /** How many samples the poll takes. */
  function SamplesTaken(fetch: nat -> PodFetch, baseline: int): nat {
    var k := FirstSettling(fetch, baseline, 1);
    if k > MaxSamples then MaxSamples else k
  }

  /** Whether the poll sees the count rise. */
  predicate PollSucceeds(fetch: nat -> PodFetch, baseline: int) {
    var k := FirstSettling(fetch, baseline, 1);
    k <= MaxSamples && fetch(k).Fetched?
  }

  /** n rounds of "sleep 5 seconds, then Get the pod". */
  function PollCalls(pod: string, n: nat): seq<Call> {
    if n == 0 then [] else PollCalls(pod, n - 1) + [Sleep(SampleIntervalSeconds), Get(pod)]
  }

  /** The calls made after the pod was created, up to the deferred delete. */
  ghost function ObservationTrace(pod: string, notPending: bool, fetch: nat -> PodFetch): seq<Call> {
    if !notPending then [WaitNotPending(pod)]
    else if fetch(0).FetchError? then [WaitNotPending(pod), Get(pod)]
    else [WaitNotPending(pod), Get(pod)] + PollCalls(pod, SamplesTaken(fetch, RestartCount(fetch(0).restartCounts)))
  }

  /** The verdict of the part after creation. */
  predicate ObservationPasses(notPending: bool, fetch: nat -> PodFetch) {
    notPending && fetch(0).Fetched? && PollSucceeds(fetch, RestartCount(fetch(0).restartCounts))
  }

  /** All calls of one liveness check. */
  ghost function LivenessTrace(pod: string, createOk: bool, notPending: bool, fetch: nat -> PodFetch): seq<Call> {
    if !createOk then [Create(pod)]
    else [Create(pod)] + ObservationTrace(pod, notPending, fetch) + [Delete(pod)]
  }

  // ---------------------------------------------------------------------------
  // The check itself

  /** liveness.go's runLivenessTest. */
  method RunLivenessTest(templateName: string, uuid: string, createOk: bool, notPending: bool, fetch: nat -> PodFetch)
    returns (passed: bool, ghost trace: seq<Call>)
    ensures passed == (createOk && ObservationPasses(notPending, fetch))
    ensures trace == LivenessTrace(PodName(templateName, uuid), createOk, notPending, fetch)
  {
    var podName := PodName(templateName, uuid);
    trace := [Create(podName)];
    if !createOk {
      return false, trace;
    }
    ghost var observed;
    passed, observed := ObserveRestart(podName, notPending, fetch);
    // The deferred delete, issued on every return path after the create.
    trace := trace + observed + [Delete(podName)];
  }

  /** The part of runLivenessTest after the pod was created: the wait, the
      baseline, and the bounded poll with its early returns. */
  method ObserveRestart(podName: string, notPending: bool, fetch: nat -> PodFetch)
    returns (passed: bool, ghost trace: seq<Call>)
    ensures passed == ObservationPasses(notPending, fetch)
    ensures trace == ObservationTrace(podName, notPending, fetch)
  {
    trace := [WaitNotPending(podName)];
    if !notPending {
      return false, trace;
    }
    trace := trace + [Get(podName)];
    var pod := fetch(0);
    if pod.FetchError? {
      return false, trace;
    }
    var initialRestartCount := RestartCount(pod.restartCounts);
    ghost var prefix := trace;

    var i := 0;
    while i < MaxSamples
      invariant 0 <= i <= MaxSamples
      invariant trace == prefix + PollCalls(podName, i)
      invariant forall s :: 1 <= s <= i ==> !Settles(fetch(s), initialRestartCount)
    {
      trace := trace + [Sleep(SampleIntervalSeconds), Get(podName)];
      assert trace == prefix + PollCalls(podName, i + 1);
      pod := fetch(i + 1);
      if pod.FetchError? {
        return false, trace;
      }
      var restartCount := RestartCount(pod.restartCounts);
      if restartCount > initialRestartCount {
        return true, trace;
      }
      i := i + 1;
    }
    return false, trace;
  }

  // ---------------------------------------------------------------------------
  // Properties of the check

  /** Each poll round sleeps once and then fetches once. */
  lemma {:induction false} PollCallsShape(pod: string, n: nat)
    ensures |PollCalls(pod, n)| == 2 * n
    ensures forall r :: 0 <= r < n ==>
      PollCalls(pod, n)[2 * r] == Sleep(SampleIntervalSeconds) && PollCalls(pod, n)[2 * r + 1] == Get(pod)
  {
    if n > 0 {
      PollCallsShape(pod, n - 1);
    }
  }

  /** n poll rounds make n sleeps, n Gets and no delete. */
  lemma {:induction false} PollCallsCount(pod: string, n: nat)
    ensures multiset(PollCalls(pod, n))[Sleep(SampleIntervalSeconds)] == n
    ensures multiset(PollCalls(pod, n))[Get(pod)] == n
    ensures multiset(PollCalls(pod, n))[Delete(pod)] == 0
  {
    if n > 0 {
      PollCallsCount(pod, n - 1);
    }
  }

  /** A failed create ends the check at once: no wait, no Get, no delete. */
  lemma CreateFailure(pod: string, notPending: bool, fetch: nat -> PodFetch)
    ensures LivenessTrace(pod, false, notPending, fetch) == [Create(pod)]
  {
  }

  /** Once the pod was created, exactly one delete of it is issued, as the last
      call, whichever way the check ends; before that, never. */
  lemma DeleteExactlyOnce(pod: string, notPending: bool, fetch: nat -> PodFetch)
    ensures var trace := LivenessTrace(pod, true, notPending, fetch);
      multiset(trace)[Delete(pod)] == 1 && trace[|trace| - 1] == Delete(pod)
    ensures multiset(LivenessTrace(pod, false, notPending, fetch))[Delete(pod)] == 0
  {
    var n := if notPending && fetch(0).Fetched?
      then SamplesTaken(fetch, RestartCount(fetch(0).restartCounts)) else 0;
    PollCallsCount(pod, n);
  }

  /** The poll samples at most 48 times, each sample preceded by one sleep of
      5 seconds; the Gets are the baseline plus one per sample. */
  lemma SampleBound(pod: string, notPending: bool, fetch: nat -> PodFetch)
    requires notPending && fetch(0).Fetched?
    ensures var trace := LivenessTrace(pod, true, notPending, fetch);
      var samples := SamplesTaken(fetch, RestartCount(fetch(0).restartCounts));
      && 1 <= samples <= MaxSamples
      && multiset(trace)[Sleep(SampleIntervalSeconds)] == samples
      && multiset(trace)[Get(pod)] == samples + 1
      && trace == [Create(pod), WaitNotPending(pod), Get(pod)] + PollCalls(pod, samples) + [Delete(pod)]
      && |trace| == 2 * samples + 4
      && forall r :: 0 <= r < samples ==> trace[3 + 2 * r] == Sleep(SampleIntervalSeconds) && trace[4 + 2 * r] == Get(pod)
  {
    var samples := SamplesTaken(fetch, RestartCount(fetch(0).restartCounts));
    PolledTrace(pod, samples);
    PolledTraceCounts(pod, samples);
    PolledTraceShape(pod, samples);
    assert LivenessTrace(pod, true, notPending, fetch)
      == [Create(pod)] + ([WaitNotPending(pod), Get(pod)] + PollCalls(pod, samples)) + [Delete(pod)];
  }

  /** The calls of a check that reached the poll and took n samples. */
  lemma PolledTrace(pod: string, n: nat)
    ensures [Create(pod)] + ([WaitNotPending(pod), Get(pod)] + PollCalls(pod, n)) + [Delete(pod)]
         == [Create(pod), WaitNotPending(pod), Get(pod)] + PollCalls(pod, n) + [Delete(pod)]
  {
  }

  lemma PolledTraceCounts(pod: string, n: nat)
    ensures var trace := [Create(pod), WaitNotPending(pod), Get(pod)] + PollCalls(pod, n) + [Delete(pod)];
      && multiset(trace)[Sleep(SampleIntervalSeconds)] == n
      && multiset(trace)[Get(pod)] == n + 1
  {
    PollCallsCount(pod, n);
  }

  lemma PolledTraceShape(pod: string, n: nat)
    ensures var trace := [Create(pod), WaitNotPending(pod), Get(pod)] + PollCalls(pod, n) + [Delete(pod)];
      && |trace| == 2 * n + 4
      && forall r :: 0 <= r < n ==> trace[3 + 2 * r] == Sleep(SampleIntervalSeconds) && trace[4 + 2 * r] == Get(pod)
  {
    PollCallsShape(pod, n);
    var polls := PollCalls(pod, n);
    var trace := [Create(pod), WaitNotPending(pod), Get(pod)] + polls + [Delete(pod)];
    forall r | 0 <= r < n
      ensures trace[3 + 2 * r] == Sleep(SampleIntervalSeconds) && trace[4 + 2 * r] == Get(pod)
    {
      assert trace[3 + 2 * r] == polls[2 * r];
      assert trace[4 + 2 * r] == polls[2 * r + 1];
    }
  }

  /** A failed wait or a failed baseline Get fails the check, and the pod is
      still deleted. */
  lemma EarlyFailure(pod: string, notPending: bool, fetch: nat -> PodFetch)
    requires !notPending || fetch(0).FetchError?
    ensures !ObservationPasses(notPending, fetch)
    ensures LivenessTrace(pod, true, notPending, fetch) ==
      if !notPending then [Create(pod), WaitNotPending(pod), Delete(pod)]
      else [Create(pod), WaitNotPending(pod), Get(pod), Delete(pod)]
  {
  }

  /** The check passes exactly when some sample k of the 48 shows a count above
      the baseline and every earlier sample was fetched and showed no rise;
      the poll then stops after sample k. */
  lemma PassesAtFirstRise(fetch: nat -> PodFetch, baseline: int, k: nat)
    requires 1 <= k <= MaxSamples
    requires forall i :: 1 <= i < k ==> fetch(i).Fetched? && RestartCount(fetch(i).restartCounts) <= baseline
    requires fetch(k).Fetched? && RestartCount(fetch(k).restartCounts) > baseline
    ensures PollSucceeds(fetch, baseline) && SamplesTaken(fetch, baseline) == k
  {
    var first := FirstSettling(fetch, baseline, 1);
    assert Settles(fetch(k), baseline);
  }

  /** Conversely, a poll that succeeds has such a sample. */
  lemma SuccessHasRise(fetch: nat -> PodFetch, baseline: int)
    requires PollSucceeds(fetch, baseline)
    ensures var k := SamplesTaken(fetch, baseline);
      && 1 <= k <= MaxSamples
      && fetch(k).Fetched? && RestartCount(fetch(k).restartCounts) > baseline
      && forall i :: 1 <= i < k ==> fetch(i).Fetched? && RestartCount(fetch(i).restartCounts) <= baseline
  {
    var k := FirstSettling(fetch, baseline, 1);
    forall i | 1 <= i < k
      ensures fetch(i).Fetched? && RestartCount(fetch(i).restartCounts) <= baseline
    {
      assert !Settles(fetch(i), baseline);
    }
  }

  /** A failed sample Get fails the poll at once: no further samples. */
  lemma FetchErrorStops(fetch: nat -> PodFetch, baseline: int, k: nat)
    requires 1 <= k <= MaxSamples
    requires forall i :: 1 <= i < k ==> fetch(i).Fetched? && RestartCount(fetch(i).restartCounts) <= baseline
    requires fetch(k).FetchError?
    ensures !PollSucceeds(fetch, baseline) && SamplesTaken(fetch, baseline) == k
  {
    var first := FirstSettling(fetch, baseline, 1);
    assert Settles(fetch(k), baseline);
  }

  /** 48 samples without a rise fail the poll after exactly 48 samples. */
  lemma ExhaustedAfterMaxSamples(fetch: nat -> PodFetch, baseline: int)
    requires forall i :: 1 <= i <= MaxSamples ==> fetch(i).Fetched? && RestartCount(fetch(i).restartCounts) <= baseline
    ensures !PollSucceeds(fetch, baseline) && SamplesTaken(fetch, baseline) == MaxSamples
  {
    var first := FirstSettling(fetch, baseline, 1);
    if first <= MaxSamples {
      assert Settles(fetch(first), baseline);
    }
  }

  /** Baseline 2 and samples 2, 2, 2, 3: the poll succeeds on the fourth
      sample and takes no more. */
  lemma PollExample(fetch: nat -> PodFetch)
    requires fetch(1) == fetch(2) == fetch(3) == Fetched(map["liveness" := 2])
    requires fetch(4) == Fetched(map["liveness" := 3])
    ensures PollSucceeds(fetch, 2) && SamplesTaken(fetch, 2) == 4
  {
    PassesAtFirstRise(fetch, 2, 4);
  }
}
