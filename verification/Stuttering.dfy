/** Logs that repeat an ordered history, with adjacent repeats only. */
module Stuttering {

  /** 0, 1, 2, ... where each number may be repeated, but only next to itself. */
  predicate Stutters(log: seq<nat>) {
    && (log != [] ==> log[0] == 0)
    && forall i :: 0 <= i < |log| - 1 ==> log[i + 1] == log[i] || log[i + 1] == log[i] + 1
  }

  /** How many different rows a stuttering log has reached. */
  function Reached(log: seq<nat>): nat {
    if log == [] then 0 else log[|log| - 1] + 1
  }

  /** A stuttering log of a stuttering log stutters: at-least-once stages compose. */
  lemma StuttersCompose(log: seq<nat>, reading: seq<nat>) returns (composed: seq<nat>)
    requires Stutters(log) && Stutters(reading) && Reached(reading) <= |log|
    ensures |composed| == |reading|
    ensures forall i :: 0 <= i < |reading| ==> reading[i] < |log| && composed[i] == log[reading[i]]
    ensures Stutters(composed)
    ensures Reached(composed) == Reached(log[..Reached(reading)])
  {
    StuttersAscend(reading);
    composed := seq(|reading|, i requires 0 <= i < |reading| => log[reading[i]]);
  }

  lemma {:induction false} StuttersAscend(log: seq<nat>)
    requires Stutters(log)
    ensures forall i :: 0 <= i < |log| ==> log[i] < Reached(log)
  {
    if |log| <= 1 {
    } else {
      StuttersAscend(log[..|log| - 1]);
    }
  }
}
