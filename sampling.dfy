/** The progress sampling loop of a download task, as a function of what it
    observes: at each round the task's state when the loop condition is
    tested, and the snapshot the transfer collaborator reports. */
module Sampling {
  import opened Values

  /** One round of the sampling loop: the state seen by the loop test and the
      snapshot `getProgress()` returns in that round. */
  datatype Sample = Sample(state: State, reply: Progress)

  /** The snapshots the loop emits: one per round while the observed state is
      not an end state, stopping right after a complete snapshot.  The loop
      also ends when the subscriber detaches, which is the end of `s`. */
  function Sampled(s: seq<Sample>): (r: seq<Progress>)
    ensures |r| <= |s|
    ensures r != [] ==> !s[0].state.IsEnd() && r[0] == s[0].reply
  {
    if s == [] || s[0].state.IsEnd() then []
    else if IsComplete(s[0].reply) then [s[0].reply]
    else [s[0].reply] + Sampled(s[1..])
  }

  /** The loop emits a prefix of the reported snapshots, in order. */
  lemma {:induction false} SampledIsPrefix(s: seq<Sample>)
    ensures |Sampled(s)| <= |s|
    ensures forall i :: 0 <= i < |Sampled(s)| ==> Sampled(s)[i] == s[i].reply
  {
    if s != [] && !s[0].state.IsEnd() && !IsComplete(s[0].reply) {
      SampledIsPrefix(s[1..]);
    }
  }

  /** Every emitted snapshot was taken in a round whose state was not an end
      state. */
  lemma {:induction false} SampledOnlyWhileLive(s: seq<Sample>)
    ensures |Sampled(s)| <= |s|
    ensures forall i :: 0 <= i < |Sampled(s)| ==> !s[i].state.IsEnd()
  {
    if s != [] && !s[0].state.IsEnd() && !IsComplete(s[0].reply) {
      SampledOnlyWhileLive(s[1..]);
    }
  }

  /** Only the last emitted snapshot can be complete: the loop stops right
      after the first complete one. */
  lemma {:induction false} SampledStopsAtComplete(s: seq<Sample>)
    ensures forall i :: 0 <= i < |Sampled(s)| - 1 ==> !IsComplete(Sampled(s)[i])
  {
    if s != [] && !s[0].state.IsEnd() && !IsComplete(s[0].reply) {
      SampledStopsAtComplete(s[1..]);
    }
  }

  /** The loop never stops early without a reason: when rounds remain after
      the emitted ones, the next round saw an end state or the last emitted
      snapshot was complete. */
  lemma {:induction false} SampledStopsForAReason(s: seq<Sample>)
    ensures |Sampled(s)| <= |s|
    ensures |Sampled(s)| < |s| ==>
      s[|Sampled(s)|].state.IsEnd() ||
      (|Sampled(s)| > 0 && IsComplete(Sampled(s)[|Sampled(s)| - 1]))
  {
    if s != [] && !s[0].state.IsEnd() && !IsComplete(s[0].reply) {
      SampledStopsForAReason(s[1..]);
      var rest := Sampled(s[1..]);
      assert Sampled(s) == [s[0].reply] + rest;
      if |rest| < |s[1..]| {
        assert s[1..][|rest|] == s[|Sampled(s)|];
        if |rest| > 0 {
          assert Sampled(s)[|Sampled(s)| - 1] == rest[|rest| - 1];
        }
      }
    }
  }
}
