/** The embedding job processor. */
module EmbeddingJobs {
  import opened Wrappers
  import opened Retry

  const MAX_BACKOFF: real := 30.0

  /** Elapsed time and the chunk id are left out of the result. */
  datatype JobResult = JobResult(retried: bool, failed: bool, status: string, backoff: Option<real>, error: Option<string>)

  function Retrying(delay: real): JobResult {
    JobResult(true, false, "retrying", Some(delay), None)
  }

  function Failed(available: bool): JobResult {
    JobResult(false, true, "failed", None,
              Some(if available then "max_retries_exhausted" else "queue_unavailable_retries_exhausted"))
  }

  const COMPLETED := JobResult(false, false, "completed", None, None)

  /** The policy of a job: everything the processor reads but never changes. */
  datatype Policy = Policy(maxRetries: int, baseDelay: real, jitter: bool)

  /** One processing: the result, and the retry count afterwards. */
  function Outcome(p: Policy, retryCount: nat, available: bool, factor: real): (JobResult, nat) {
    if retryCount >= p.maxRetries then (Failed(available), retryCount)
    else if available then (COMPLETED, retryCount)
    else (Retrying(Delay(p.baseDelay, MAX_BACKOFF, p.jitter, retryCount, factor)), retryCount + 1)
  }

  // ----- a job processed again and again -----

  /** One processing: was the queue there, and what was drawn? */
  datatype Attempt = Attempt(available: bool, factor: real)

  /** The retry count after a series of processings. */
  function CountAfter(p: Policy, attempts: seq<Attempt>): nat {
    if attempts == [] then 0
    else
      var last := attempts[|attempts| - 1];
      Outcome(p, CountAfter(p, attempts[..|attempts| - 1]), last.available, last.factor).1
  }

  function Outages(attempts: seq<Attempt>): nat {
    if attempts == [] then 0
    else Outages(attempts[..|attempts| - 1]) + if attempts[|attempts| - 1].available then 0 else 1
  }

  /** Of `n` outages, those that led to a retry. */
  function Retries(p: Policy, n: nat): nat {
    if n <= p.maxRetries then n else if p.maxRetries > 0 then p.maxRetries else 0
  }

  /** Whatever the queue does, the retry count is the number of outages met so
      far, capped by the budget. */
  lemma {:induction false} CountIsOutages(p: Policy, attempts: seq<Attempt>)
    ensures CountAfter(p, attempts) == Retries(p, Outages(attempts))
  {
    if attempts != [] {
      CountIsOutages(p, attempts[..|attempts| - 1]);
    }
  }

  /** What a processing answers, by the outages met before it: failed when they
      have spent the budget, otherwise completed or retrying as the queue is. */
  function Answer(p: Policy, outages: nat, attempt: Attempt): JobResult {
    if outages >= p.maxRetries then Failed(attempt.available)
    else if attempt.available then COMPLETED
    else Retrying(Delay(p.baseDelay, MAX_BACKOFF, p.jitter, outages, attempt.factor))
  }

  class EmbeddingJob {
    const policy: Policy
    var retryCount: nat
    ghost var history: seq<Attempt>

    ghost predicate Valid()
      reads this
    {
      retryCount == CountAfter(policy, history)
    }

    constructor (policy: Policy)
      ensures Valid() && this.policy == policy && history == []
    {
      this.policy := policy;
      retryCount := 0;
      history := [];
    }

    /** `process_embedding_job`; `factor` is the random draw. The answer depends
        on the past only through the number of outages, and the count is never
        more than these nor than the budget. */
    method Process(available: bool, factor: real) returns (r: JobResult)
      requires Valid()
      modifies this
      ensures Valid() && history == old(history) + [Attempt(available, factor)]
      ensures r == Answer(policy, Outages(old(history)), Attempt(available, factor))
      ensures r.failed <==> Outages(old(history)) >= policy.maxRetries
      ensures r.retried <==> !available && Outages(old(history)) < policy.maxRetries
      ensures r.retried <==> Outages(history) == Outages(old(history)) + 1 && !r.failed
      ensures r.status == if r.failed then "failed" else if r.retried then "retrying" else "completed"
      ensures r.backoff.Some? <==> r.retried
      ensures r.error == if !r.failed then None
                         else Some(if available then "max_retries_exhausted" else "queue_unavailable_retries_exhausted")
      ensures retryCount == Retries(policy, Outages(history))
    {
      CountIsOutages(policy, history);
      Recorded(policy, history, Attempt(available, factor));
      var retriesLeft := retryCount < policy.maxRetries;
      if !available && retriesLeft {
        var backoff := Delay(policy.baseDelay, MAX_BACKOFF, policy.jitter, retryCount, factor);
        retryCount := retryCount + 1;
        r := Retrying(backoff);
      } else if !retriesLeft {
        r := Failed(available);
      } else {
        r := COMPLETED;
      }
      history := history + [Attempt(available, factor)];
      CountIsOutages(policy, history);
    }
  }

  lemma Recorded(p: Policy, attempts: seq<Attempt>, a: Attempt)
    ensures CountAfter(p, attempts + [a]) == Outcome(p, CountAfter(p, attempts), a.available, a.factor).1
  {
    assert (attempts + [a])[..|attempts|] == attempts;
  }

  /** Every answer in every run. */
  lemma {:induction false} ResultExactly(p: Policy, attempts: seq<Attempt>, a: Attempt)
    ensures Outcome(p, CountAfter(p, attempts), a.available, a.factor).0 == Answer(p, Outages(attempts), a)
  {
    CountIsOutages(p, attempts);
  }

  // ----- a permanent outage -----

  /** The first `n` attempts of an outage; draw i goes with the i-th. */
  function Down(n: nat, factor: nat -> real): (attempts: seq<Attempt>)
    ensures |attempts| == n
  {
    if n == 0 then [] else Down(n - 1, factor) + [Attempt(false, factor(n - 1))]
  }

  lemma {:induction false} DownOutages(n: nat, factor: nat -> real)
    ensures Outages(Down(n, factor)) == n
  {
    if n > 0 {
      DownOutages(n - 1, factor);
      assert Down(n, factor)[..n - 1] == Down(n - 1, factor);
    }
  }

  /** The answer that follows `n` outages in a row to one more. */
  function NextAnswer(p: Policy, n: nat, factor: nat -> real): JobResult {
    Outcome(p, CountAfter(p, Down(n, factor)), false, factor(n)).0
  }

  /** Under a permanent outage the first `maxRetries` results are retries, with
      the strategy's delays, and all later ones are failures. */
  lemma {:induction false} PermanentOutage(p: Policy, n: nat, factor: nat -> real)
    ensures NextAnswer(p, n, factor)
         == if n < p.maxRetries then Retrying(Delay(p.baseDelay, MAX_BACKOFF, p.jitter, n, factor(n))) else Failed(false)
  {
    DownOutages(n, factor);
    ResultExactly(p, Down(n, factor), Attempt(false, factor(n)));
  }

  /** The backoffs of the first `n` results under a permanent outage. */
  function Backoffs(p: Policy, n: nat, factor: nat -> real): seq<real> {
    if n == 0 then []
    else
      Backoffs(p, n - 1, factor)
      + match NextAnswer(p, n - 1, factor).backoff
        case Some(d) => [d]
        case None => []
  }

  lemma {:induction false} BackoffsAreDelays(p: Policy, n: nat, factor: nat -> real)
    ensures Backoffs(p, n, factor)
         == Delays(RetryStrategy(p.maxRetries, p.baseDelay, MAX_BACKOFF, p.jitter), factor, Retries(p, n))
  {
    hide Delay, NextAnswer;
    if n > 0 {
      BackoffsAreDelays(p, n - 1, factor);
      PermanentOutage(p, n - 1, factor);
    }
  }

  /** However long the outage lasts, all backoffs together are bounded. */
  lemma OutageBackoffBounded(p: Policy, n: nat, factor: nat -> real)
    requires p.maxRetries >= 0 && p.baseDelay >= 0.0 && Jitter(factor)
    ensures Sum(Backoffs(p, n, factor)) <= Linear(MAX_BACKOFF, p.maxRetries)
    ensures Sum(Backoffs(p, n, factor)) <= Geometric(p.baseDelay, p.maxRetries)
  {
    hide Linear, Geometric;
    var s, m := RetryStrategy(p.maxRetries, p.baseDelay, MAX_BACKOFF, p.jitter), Retries(p, n);
    BackoffsAreDelays(p, n, factor);
    TotalSleep(s, factor, m);
    BoundGrows(p.baseDelay, MAX_BACKOFF, m, p.maxRetries);
  }
}
