/** Delays between polls after failures, and between attempts to connect. */
module Backoffs {
  import opened Words
  import opened CoilPacking

  const MAX_U64: U64 := 0xFFFF_FFFF_FFFF_FFFF

  /** Longest delay of the poll loop, in seconds. */
  const MAX_POLL_BACKOFF: U64 := 30

  /** `saturating_mul(2)` */
  function Doubled(x: U64): U64
  {
    Min(2 * x, MAX_U64)
  }

  // ----- the poll loop -----

  /** How a cycle ends: well, with an error, or with the panic of the poll task. */
  datatype CycleResult = Fine | Failed | Panicked

  /** Failures directly before cycle number `i`. */
  function FailuresBefore(results: seq<CycleResult>, i: nat): nat
    requires i <= |results|
  {
    if i == 0 || results[i - 1] != Failed then 0 else 1 + FailuresBefore(results, i - 1)
  }

  /** Cycles a poll task runs of those it could: none behind the first that panics. */
  function CyclesRun(results: seq<CycleResult>): (n: nat)
    ensures n <= |results|
  {
    if results == [] then 0 else if results[0] == Panicked then 1 else 1 + CyclesRun(results[1..])
  }

  /** The poll task survives exactly if no cycle it runs panics, and a panic is its last cycle. */
  lemma {:induction false} LastCycleRun(results: seq<CycleResult>)
    ensures var n := CyclesRun(results);
            && (forall i :: 0 <= i < n - 1 ==> results[i] != Panicked)
            && (n < |results| ==> n > 0 && results[n - 1] == Panicked)
  {
    if results != [] && results[0] != Panicked {
      LastCycleRun(results[1..]);
      var n := CyclesRun(results[1..]);
      assert forall i :: 0 < i < n ==> results[i] == results[1..][i - 1];
    }
  }

  /** Seconds to wait before a cycle that follows `n` failures. */
  function PollDelay(n: nat): U64
  {
    if n == 0 then 0 else Min(Pow2(n - 1), MAX_POLL_BACKOFF)
  }

  function NextDelay(delay: U64): U64
  {
    if delay == 0 then 1 else Min(Doubled(delay), MAX_POLL_BACKOFF)
  }

  /** No delay after a success; after a failure a second, then twice the last delay, but 30 seconds at most. */
  predicate Follows(before: U64, result: CycleResult, after: U64)
  {
    && (result == Fine ==> after == 0)
    && (result == Failed ==> after == if before == 0 then 1 else if 2 * before < 30 then 2 * before else 30)
  }

  lemma {:induction false} Pow2IsPositive(n: nat)
    ensures Pow2(n) >= 1
  {
    if n > 0 {
      Pow2IsPositive(n - 1);
    }
  }

  /** One more failure doubles the delay up to the maximum. */
  lemma {:induction false} DelayAfterFailure(n: nat)
    ensures NextDelay(PollDelay(n)) == PollDelay(n + 1)
  {
    if n > 0 {
      Pow2IsPositive(n - 1);
    }
  }

  lemma {:induction false} DelaysFollow(results: seq<CycleResult>, delays: seq<U64>)
    requires |delays| <= |results| && forall i :: 0 <= i < |delays| ==> delays[i] == PollDelay(FailuresBefore(results, i))
    ensures |delays| > 0 ==> delays[0] == 0
    ensures forall i :: 0 < i < |delays| ==> Follows(delays[i - 1], results[i - 1], delays[i])
  {
    forall i | 0 < i < |delays| ensures Follows(delays[i - 1], results[i - 1], delays[i]) {
      DelayAfterFailure(FailuresBefore(results, i - 1));
    }
  }

  /** The runtime's driver: whether it holds a poll task, whether that task lives, and its current delay. */
  class RuntimeDriver {
    var polling: bool
    var alive: bool
    var backoffSecs: U64

    constructor ()
      ensures !polling && !alive
    {
      polling, alive, backoffSecs := false, false, 0;
    }

    /** Start a poll task with no delay; one that is held already is left alone, dead or alive. */
    method Start()
      modifies this
      ensures polling
      ensures old(polling) ==> alive == old(alive) && backoffSecs == old(backoffSecs)
      ensures !old(polling) ==> alive && backoffSecs == 0
    {
      if !polling {
        polling, alive, backoffSecs := true, true, 0;
      }
    }

    method Stop()
      modifies this`polling, this`alive
      ensures !polling && !alive
    {
      polling, alive := false, false;
    }

    /** Set the delay after a cycle. */
    method AfterCycle(ok: bool)
      modifies this`backoffSecs
      ensures backoffSecs == if ok then 0 else NextDelay(old(backoffSecs))
    {
      if ok {
        backoffSecs := 0;
      } else if backoffSecs == 0 {
        backoffSecs := 1;
      } else {
        backoffSecs := Min(Doubled(backoffSecs), MAX_POLL_BACKOFF);
      }
    }

    /**
     * The poll loop from its start to its shutdown or its panic, over the results of its cycles: before
     * each cycle it waits as long as the failures directly before it ask for. A panic ends it for good.
     */
    method PollLoop(results: seq<CycleResult>) returns (delays: seq<U64>)
      requires polling && alive && backoffSecs == 0
      modifies this`backoffSecs, this`alive
      ensures |delays| == CyclesRun(results)
      ensures forall i :: 0 <= i < |delays| ==> delays[i] == PollDelay(FailuresBefore(results, i))
      ensures |delays| > 0 ==> delays[0] == 0
      ensures forall i :: 0 < i < |delays| ==> Follows(delays[i - 1], results[i - 1], delays[i])
      ensures alive <==> Panicked !in results
    {
      delays := [];
      for i := 0 to |results|
        invariant alive && Panicked !in results[..i] && CyclesRun(results) == i + CyclesRun(results[i..])
        invariant |delays| == i && backoffSecs == PollDelay(FailuresBefore(results, i))
        invariant forall k :: 0 <= k < i ==> delays[k] == PollDelay(FailuresBefore(results, k))
      {
        delays := delays + [backoffSecs];
        if results[i] == Panicked {
          alive := false;
          DelaysFollow(results, delays);
          return;
        }
        assert results[i..][1..] == results[i + 1..];
        DelayAfterFailure(FailuresBefore(results, i));
        AfterCycle(results[i] == Fine);
      }
      assert results[..|results|] == results;
      DelaysFollow(results, delays);
    }
  }

  /** Over any run: a success ends the delay, and a delay never exceeds the maximum nor shrinks while failures go on. */
  lemma {:induction false} PollDelaysOverRuns(results: seq<CycleResult>, i: nat)
    requires i < |results| && results[i] != Panicked
    ensures var before, after := PollDelay(FailuresBefore(results, i)), PollDelay(FailuresBefore(results, i + 1));
            && (after == 0 <==> results[i] == Fine)
            && (results[i] == Failed ==> before <= after <= 30 && (before == after <==> before == 30))
  {
    var n := FailuresBefore(results, i);
    Pow2IsPositive(n);
    if n > 0 {
      Pow2IsPositive(n - 1);
    }
  }

  // ----- connecting -----

  /** Seconds to wait after the failed attempt number `k`. */
  function ReconnectDelay(k: nat, max: U64): U64
  {
    if k == 0 then 1 else Min(Pow2(k), max)
  }

  /** Saturation never shows: the bound is a u64 too. */
  lemma {:induction false} ReconnectStep(k: nat, max: U64)
    ensures Min(Doubled(ReconnectDelay(k, max)), max) == ReconnectDelay(k + 1, max)
  {
    Pow2IsPositive(k);
    assert Pow2(k + 1) == 2 * Pow2(k);
  }

  /** Try to connect until it succeeds; `failures` attempts fail first. Returns the delays slept. */
  method ConnectWithBackoff(failures: nat, max: U64) returns (delays: seq<U64>)
    ensures |delays| == failures
    ensures forall k :: 0 <= k < failures ==> delays[k] == ReconnectDelay(k, max)
    ensures failures > 0 ==> delays[0] == 1
    ensures forall k :: 0 < k < failures ==> delays[k] == if 2 * delays[k - 1] < max then 2 * delays[k - 1] else max
  {
    delays := [];
    var backoff: U64 := 1;
    for k := 0 to failures
      invariant |delays| == k && backoff == ReconnectDelay(k, max)
      invariant forall j :: 0 <= j < k ==> delays[j] == ReconnectDelay(j, max)
      invariant k > 0 ==> delays[0] == 1 && backoff == if 2 * delays[k - 1] < max then 2 * delays[k - 1] else max
      invariant forall j :: 0 < j < k ==> delays[j] == if 2 * delays[j - 1] < max then 2 * delays[j - 1] else max
    {
      delays := delays + [backoff];
      ReconnectStep(k, max);
      backoff := Min(Doubled(backoff), max);
    }
  }

  /** Only the first delay can exceed the configured maximum, and only a maximum of 0 makes it. */
  lemma {:induction false} MaximumIsKept(k: nat, max: U64)
    ensures ReconnectDelay(k, max) <= max <==> k > 0 || max >= 1
    ensures k > 0 ==> (ReconnectDelay(k, max) == 0 <==> max == 0)
  {
    Pow2IsPositive(k);
  }
}
