/**
 * The service's retry policy: handle a transport exception or any
 * non-success response, retry at most three times, and wait 2^k seconds
 * before retry k.
 *
 * The upstream provider is abstracted as `upstream`: `upstream(i)` is what
 * the (i+1)-th outbound call for one request produces.
 */
module Retry {
  import opened Results

  /** What one outbound GET produced: a response (its status and parsed body), or an `HttpRequestException`. */
  datatype Outcome<P> = Response(status: int, payload: Option<P>) | HttpRequestFailure

  /** `HttpResponseMessage.IsSuccessStatusCode`: the status is in the 2xx class. */
  predicate IsSuccessStatusCode(status: int)
    ensures IsSuccessStatusCode(status) <==> status / 100 == 2
  {
    200 <= status <= 299
  }

  /** The outcomes the policy reacts to by retrying: everything but a 2xx response. */
  predicate Handled<P>(o: Outcome<P>)
    ensures Handled(o) <==> !(o.Response? && o.status / 100 == 2)
  {
    o.HttpRequestFailure? || !IsSuccessStatusCode(o.status)
  }

  const RetryCount: nat := 3
  const MaxAttempts: nat := RetryCount + 1

  function Pow2(k: nat): (r: nat)
    ensures r >= 1
  {
    if k == 0 then 1 else 2 * Pow2(k - 1)
  }

  /** Seconds waited before retry number `retryAttempt` (1-based). */
  function SleepDuration(retryAttempt: nat): (r: nat)
    ensures retryAttempt == 1 ==> r == 2
    ensures retryAttempt >= 1 ==> r == 2 * Pow2(retryAttempt - 1)
  {
    Pow2(retryAttempt)
  }

  /** The waits before retries 1 .. retries, in order. */
  function Backoff(retries: nat): seq<nat>
  {
    if retries == 0 then [] else Backoff(retries - 1) + [SleepDuration(retries)]
  }

  function Sum(s: seq<nat>): nat
  {
    if s == [] then 0 else Sum(s[..|s| - 1]) + s[|s| - 1]
  }

  /** What a policy run hands back: the last outcome, and how many calls were made. */
  datatype Run<P> = Run(final: Outcome<P>, attempts: nat)

  /**
   * The run from the call with index `i` on: it makes at most MaxAttempts calls
   * in all, retries only after handled outcomes, returns the outcome of its last
   * call, and stops before the last allowed call only at an unhandled outcome.
   */
  function RunFrom<P>(upstream: nat -> Outcome<P>, i: nat): (r: Run<P>)
    requires i <= RetryCount
    decreases RetryCount - i
    ensures i < r.attempts <= MaxAttempts
    ensures r.final == upstream(r.attempts - 1)
    ensures forall j :: i <= j < r.attempts - 1 ==> Handled(upstream(j))
    ensures r.attempts < MaxAttempts ==> !Handled(r.final)
  {
    if i == RetryCount || !Handled(upstream(i)) then Run(upstream(i), i + 1)
    else RunFrom(upstream, i + 1)
  }

  /** The run of the policy for one request, from its first call. */
  function Execution<P>(upstream: nat -> Outcome<P>): (r: Run<P>)
    ensures 1 <= r.attempts <= MaxAttempts
    ensures r.final == upstream(r.attempts - 1)
    ensures forall j :: 0 <= j < r.attempts - 1 ==> Handled(upstream(j))
    ensures r.attempts < MaxAttempts ==> !Handled(r.final)
  {
    RunFrom(upstream, 0)
  }

  /** `ExecuteAsync`: call, and while the outcome is handled and retries remain, wait and call again. */
  method Execute<P>(upstream: nat -> Outcome<P>) returns (final: Outcome<P>, attempts: nat, waits: seq<nat>)
    ensures Run(final, attempts) == Execution(upstream)
    ensures 1 <= attempts <= MaxAttempts
    ensures waits == Backoff(attempts - 1)
  {
    var i := 0;
    final := upstream(0);
    waits := [];
    while i < RetryCount && Handled(final)
      invariant 0 <= i <= RetryCount
      invariant final == upstream(i)
      invariant RunFrom(upstream, i) == Execution(upstream)
      invariant waits == Backoff(i)
    {
      waits := waits + [SleepDuration(i + 1)];
      i := i + 1;
      final := upstream(i);
    }
    attempts := i + 1;
  }

  /**
   * The policy stops at the first outcome it does not handle, or after the
   * fourth call: the number of calls is n exactly when the first n - 1 outcomes
   * are handled and the n-th is not (or n is the fourth).
   */
  lemma ExecutionStopsAtFirstUnhandled<P>(upstream: nat -> Outcome<P>, n: nat)
    ensures Execution(upstream).attempts == n <==>
              1 <= n <= MaxAttempts &&
              (forall j :: 0 <= j < n - 1 ==> Handled(upstream(j))) &&
              (n < MaxAttempts ==> !Handled(upstream(n - 1)))
    ensures Execution(upstream).final == upstream(Execution(upstream).attempts - 1)
  {
    var m := Execution(upstream).attempts;
    if 1 <= n <= MaxAttempts &&
       (forall j :: 0 <= j < n - 1 ==> Handled(upstream(j))) &&
       (n < MaxAttempts ==> !Handled(upstream(n - 1)))
    {
      assert n == m;
    }
  }

  /** The waits before retries 1 .. n add up to 2^(n+1) - 2 seconds. */
  lemma {:induction false} BackoffTotal(n: nat)
    ensures |Backoff(n)| == n
    ensures Sum(Backoff(n)) == Pow2(n + 1) - 2
  {
    if n > 0 {
      BackoffTotal(n - 1);
      assert Backoff(n)[..n - 1] == Backoff(n - 1);
    }
  }

  /** A request waits between calls for at most 2 + 4 + 8 = 14 seconds in all. */
  lemma TotalWaitAtMost14<P>(upstream: nat -> Outcome<P>)
    ensures Execution(upstream).attempts >= 1
    ensures Sum(Backoff(Execution(upstream).attempts - 1)) <= 14
  {
    var n := Execution(upstream).attempts - 1;
    BackoffTotal(n);
    assert Pow2(n + 1) <= Pow2(4) by {
      Pow2Monotone(n + 1, 4);
    }
  }

  lemma {:induction false} Pow2Monotone(a: nat, b: nat)
    requires a <= b
    ensures Pow2(a) <= Pow2(b)
  {
    if a < b {
      Pow2Monotone(a, b - 1);
    }
  }
}
