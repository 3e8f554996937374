/**
 * framework/scheduler/anomaliesDailyJob.go: the scheduled wrapper around the enrichment job.
 * It calls Execute until a call reports "not already active", at most five times, and after
 * every call that reports "already active" sleeps a Fibonacci number of minutes.
 */
module AnomaliesDailyJob {
  import opened Fibonacci

  const MaxRetries: nat := 5

  /**
   * The results the successive Execute calls would return: `results(k)` is the value of the
   * call made with retry counter k (true means "already active").
   */
  type ExecuteResults = nat -> bool

  /** The counter of the first call from k on that returns false, or MaxRetries when there is none. */
  function FirstFalse(results: ExecuteResults, k: nat): nat
    decreases MaxRetries - k
  {
    if k >= MaxRetries || !results(k) then k
    else FirstFalse(results, k + 1)
  }

  /** The sleeps after the calls with counters 0 .. n-1, in minutes: F(1), ..., F(n). */
  function Delays(n: nat): seq<int> {
    if n == 0 then [] else Delays(n - 1) + [FibonacciRecursion(n)]
  }

  function Sum(s: seq<int>): int {
    if s == [] then 0 else Sum(s[..|s| - 1]) + s[|s| - 1]
  }

  /** FirstFalse(results, 0) is the first false result among the five calls, or 5 when all are true. */
  lemma {:induction false} FirstFalseFacts(results: ExecuteResults, k: nat)
    requires k <= MaxRetries
    ensures k <= FirstFalse(results, k) <= MaxRetries
    ensures forall m :: k <= m < FirstFalse(results, k) ==> results(m)
    ensures FirstFalse(results, k) < MaxRetries ==> !results(FirstFalse(results, k))
    decreases MaxRetries - k
  {
    if k < MaxRetries && results(k) {
      FirstFalseFacts(results, k + 1);
    }
  }

  /** The n-th sleep (0-based) lasts F(n+1) minutes. */
  lemma {:induction false} DelaysAt(n: nat)
    ensures |Delays(n)| == n
    ensures forall m :: 0 <= m < n ==> Delays(n)[m] == FibonacciRecursion(m + 1)
  {
    if n > 0 {
      DelaysAt(n - 1);
    }
  }

  /** The sleeps after n retried calls add up to F(n+2) - 1 minutes. */
  lemma {:induction false} DelaysSum(n: nat)
    ensures Sum(Delays(n)) == FibonacciRecursion(n + 2) - 1
  {
    if n > 0 {
      DelaysSum(n - 1);
      assert Delays(n)[..n - 1] == Delays(n - 1) by { DelaysAt(n - 1); }
    }
  }

  /**
   * Run: the counted loop over retryCounter 0 .. maxRetries. At counter maxRetries it gives up
   * without calling; a call that returns true is followed by the sleep and the next
   * iteration; the first call that returns false ends the loop. `executions` is the number
   * of Execute calls made and `delays` the sleeps, in minutes, in order.
   */
  method Run(results: ExecuteResults) returns (executions: nat, delays: seq<int>)
    ensures var k := FirstFalse(results, 0);
      && executions == (if k < MaxRetries then k + 1 else MaxRetries)
      && delays == Delays(k)
  {
    FirstFalseFacts(results, 0);
    executions, delays := 0, [];
    var retryCounter := 0;
    while retryCounter <= MaxRetries
      invariant retryCounter <= MaxRetries
      invariant executions == retryCounter && delays == Delays(retryCounter)
      invariant FirstFalse(results, retryCounter) == FirstFalse(results, 0)
      decreases MaxRetries - retryCounter
    {
      if retryCounter == MaxRetries {
        break;
      }
      executions := executions + 1;
      var jobIsActive := results(retryCounter);
      if jobIsActive {
        delays := delays + [FibonacciRecursion(retryCounter + 1)];
        retryCounter := retryCounter + 1;
        continue;
      }
      break;
    }
  }

  /** At most five calls; one sleep per call that returned true, so at most five sleeps. */
  lemma CallsAndSleepsBounded(results: ExecuteResults)
    ensures var k := FirstFalse(results, 0);
      && |Delays(k)| == k <= MaxRetries
      && (forall m :: 0 <= m < k ==> results(m))
  {
    FirstFalseFacts(results, 0);
    DelaysAt(FirstFalse(results, 0));
  }

  /** The first false result ends the run: calls 0 .. k are made, and only the k true ones are followed by a sleep. */
  lemma FirstFalseStops(results: ExecuteResults, k: nat)
    requires k < MaxRetries && !results(k)
    requires forall m :: 0 <= m < k ==> results(m)
    ensures FirstFalse(results, 0) == k
    ensures |Delays(FirstFalse(results, 0))| == k
  {
    FirstFalseFrom(results, 0, k);
    DelaysAt(k);
  }

  lemma {:induction false} FirstFalseFrom(results: ExecuteResults, i: nat, k: nat)
    requires i <= k < MaxRetries && !results(k)
    requires forall m :: i <= m < k ==> results(m)
    ensures FirstFalse(results, i) == k
    decreases k - i
  {
    if i < k {
      FirstFalseFrom(results, i + 1, k);
    }
  }

  /** Five "already active" answers: the sleeps are 1, 1, 2, 3 and 5 minutes, the last one after the fifth call. */
  lemma AllActiveDelays(results: ExecuteResults)
    requires forall m :: 0 <= m < MaxRetries ==> results(m)
    ensures FirstFalse(results, 0) == MaxRetries
    ensures Delays(FirstFalse(results, 0)) == [1, 1, 2, 3, 5]
  {
    FirstFalseFacts(results, 0);
    FirstValues();
    DelaysAt(MaxRetries);
  }

  /** The total sleep of one run is at most 12 minutes. */
  lemma TotalSleepBounded(results: ExecuteResults)
    ensures Sum(Delays(FirstFalse(results, 0))) <= 12
  {
    var k := FirstFalse(results, 0);
    FirstFalseFacts(results, 0);
    DelaysSum(k);
    Monotone(k + 2, MaxRetries + 2);
    assert FibonacciRecursion(7) == 13;
  }
}
