/** The driver's in-place Fisher-Yates shuffle of the scheduled tests. The
    pseudo-random generator is an oracle: draws[i] is the value the generator
    returns for the request for a number in [0, i]. */
module Shuffle {
  import opened Schedule

  /** The draws a generator can hand to a shuffle of n elements: one per index,
      the draw for index i lying in [0, i]. */
  predicate DrawsFit(draws: seq<nat>, n: nat) {
    |draws| == n && forall i :: 0 <= i < n ==> draws[i] <= i
  }

  /** s with the elements at i and j exchanged. */
  function Swap(s: seq<TestSpec>, i: nat, j: nat): (r: seq<TestSpec>)
    requires i < |s| && j < |s|
    ensures |r| == |s|
  {
    s[i := s[j]][j := s[i]]
  }

  /** Exchanging two elements keeps the multiset of elements. */
  lemma SwapPermutes(s: seq<TestSpec>, i: nat, j: nat)
    requires i < |s| && j < |s|
    ensures multiset(Swap(s, i, j)) == multiset(s)
  {
  }

  /** The steps of the shuffle for indices i, i-1, ..., 1, applied to s. */
  function ShuffleSteps(s: seq<TestSpec>, draws: seq<nat>, i: nat): (r: seq<TestSpec>)
    requires i < |s| && DrawsFit(draws, |s|)
    ensures |r| == |s|
    decreases i
  {
    if i == 0 then s else ShuffleSteps(Swap(s, i, draws[i]), draws, i - 1)
  }

  /** The order the shuffle produces from s with the given draws. */
  function Shuffled(s: seq<TestSpec>, draws: seq<nat>): (r: seq<TestSpec>)
    requires DrawsFit(draws, |s|)
    ensures |r| == |s|
  {
    if |s| == 0 then s else ShuffleSteps(s, draws, |s| - 1)
  }

  /** The steps move elements around and never add, drop or duplicate one. */
  lemma {:induction false} ShuffleStepsPermutes(s: seq<TestSpec>, draws: seq<nat>, i: nat)
    requires i < |s| && DrawsFit(draws, |s|)
    ensures multiset(ShuffleSteps(s, draws, i)) == multiset(s)
    decreases i
  {
    if i > 0 {
      SwapPermutes(s, i, draws[i]);
      ShuffleStepsPermutes(Swap(s, i, draws[i]), draws, i - 1);
    }
  }

  /** The steps for indices up to i only touch positions up to i: every later
      position already holds its final element. */
  lemma {:induction false} ShuffleStepsFrame(s: seq<TestSpec>, draws: seq<nat>, i: nat, k: nat)
    requires i < k < |s| && DrawsFit(draws, |s|)
    ensures ShuffleSteps(s, draws, i)[k] == s[k]
    decreases i
  {
    if i > 0 {
      ShuffleStepsFrame(Swap(s, i, draws[i]), draws, i - 1, k);
    }
  }

  /** The shuffle is a permutation of its input. */
  lemma {:induction false} ShuffledIsPermutation(s: seq<TestSpec>, draws: seq<nat>)
    requires DrawsFit(draws, |s|)
    ensures |Shuffled(s, draws)| == |s|
    ensures multiset(Shuffled(s, draws)) == multiset(s)
  {
    if |s| > 0 {
      ShuffleStepsPermutes(s, draws, |s| - 1);
    }
  }

  /** The first step fixes the last position: it receives the element at the
      first draw, and no later step moves it. */
  lemma {:induction false} ShuffledLast(s: seq<TestSpec>, draws: seq<nat>)
    requires DrawsFit(draws, |s|) && |s| > 0
    ensures |Shuffled(s, draws)| == |s|
    ensures Shuffled(s, draws)[|s| - 1] == s[draws[|s| - 1]]
  {
    var n := |s|;
    ShuffledIsPermutation(s, draws);
    if n > 1 {
      var t := Swap(s, n - 1, draws[n - 1]);
      ShuffleStepsFrame(t, draws, n - 2, n - 1);
    }
  }

  /** Draws that never move an element leave the list as it is. */
  lemma {:induction false} ShuffleStepsIdentity(s: seq<TestSpec>, draws: seq<nat>, i: nat)
    requires i < |s| && DrawsFit(draws, |s|)
    requires forall k :: 0 <= k < |s| ==> draws[k] == k
    ensures ShuffleSteps(s, draws, i) == s
  {
    if i > 0 {
      assert Swap(s, i, draws[i]) == s;
      ShuffleStepsIdentity(s, draws, i - 1);
    }
  }

  /** A list of at most one test comes out of the shuffle as it went in. */
  lemma ShortListUnchanged(s: seq<TestSpec>, draws: seq<nat>)
    requires DrawsFit(draws, |s|) && |s| <= 1
    ensures Shuffled(s, draws) == s
  {
  }

  /** The driver's shuffleTests: for i from the last index down to 1, swap the
      elements at i and at the draw for i. */
  method ShuffleTests(tests: array<TestSpec>, draws: seq<nat>)
    requires DrawsFit(draws, tests.Length)
    modifies tests
    ensures tests[..] == Shuffled(old(tests[..]), draws)
    ensures multiset(tests[..]) == multiset(old(tests[..]))
  {
    ghost var original := tests[..];
    var i := tests.Length - 1;
    while i > 0
      invariant -1 <= i < tests.Length
      invariant i == -1 <==> tests.Length == 0
      invariant i >= 0 ==> ShuffleSteps(tests[..], draws, i) == Shuffled(original, draws)
    {
      var j := draws[i];
      ghost var before := tests[..];
      tests[i], tests[j] := tests[j], tests[i];
      assert tests[..] == Swap(before, i, j);
      i := i - 1;
    }
    ShuffledIsPermutation(original, draws);
  }
}
