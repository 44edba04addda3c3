/** The transport retry loop: which errors may be retried, how long it waits, where it stops. */
module Retry {
  import opened Wrappers

  /** The exception classes the retry decision distinguishes. */
  datatype Kind =
    | ConnectTimeout
    | ConnectError
    | PoolTimeout
    | PostSendTransport
    | HttpStatus(responseCode: int)
    | ReplicateFailure(status: Option<int>)
    | OtherFailure
  {
    /** The request never reached the provider. */
    predicate PreSend() {
      ConnectTimeout? || ConnectError? || PoolTimeout?
    }
  }

  /** A raised exception: its class, the class of its cause, its status_code attribute and the
      reset hint found in its message. */
  datatype Failure = Failure(kind: Kind, cause: Option<Kind>, statusCode: Option<int>, hint: Option<real>)

  datatype Outcome = Value(value: string) | Raised(failure: Failure)

  predicate Retryable(f: Failure) {
    if f.kind.PreSend() then true
    else if f.cause.Some? && f.cause.value.PreSend() then true
    else if f.kind.HttpStatus? then f.kind.responseCode == 429
    else if f.statusCode == Some(429) then true
    else if f.kind.ReplicateFailure? then f.kind.status == Some(429)
    else false
  }

  /** The provider refused the request with a throttle response. */
  predicate Throttled(f: Failure) {
    match f.kind
    case HttpStatus(code) => code == 429
    case ReplicateFailure(status) => status == Some(429) || f.statusCode == Some(429)
    case _ => f.statusCode == Some(429)
  }

  /** Exactly the failures that prove the request unsent, themselves or through their cause, and the
      throttle refusals are retried; a response other than 429 is only retried for its cause. */
  lemma RetryableIff(f: Failure)
    ensures Retryable(f) <==> f.kind.PreSend() || (f.cause.Some? && f.cause.value.PreSend()) || Throttled(f)
    ensures f.kind.PostSendTransport? && f.cause.None? && f.statusCode.None? ==> !Retryable(f)
  {
  }

  /** The request may have reached the provider: the call returned, or it failed in a way that neither
      proves the request unsent nor is a throttle refusal. */
  predicate MayHaveBeenSent(o: Outcome) {
    o.Raised? ==> !o.failure.kind.PreSend() && !Throttled(o.failure)
  }

  /** A failure that may have been sent but whose cause is a pre-send error. */
  predicate Masked(o: Outcome) {
    o.Raised? && MayHaveBeenSent(o) && o.failure.cause.Some? && o.failure.cause.value.PreSend()
  }

  predicate MayRetry(o: Outcome) {
    o.Raised? && Retryable(o.failure)
  }

  function Pow2(n: nat): nat {
    if n == 0 then 1 else 2 * Pow2(n - 1)
  }

  function Max(x: real, y: real): real {
    if x >= y then x else y
  }

  function Min(x: real, y: real): real {
    if x <= y then x else y
  }

  /** The wait asked for by the backoff and the hint, capped. */
  function Capped(backoff: real, hint: Option<real>, maxDelay: real): real {
    Min(if hint.Some? then Max(backoff, hint.value + 1.0) else backoff, maxDelay)
  }

  function Delay(f: Failure, attempt: nat, backoffBase: real, maxDelay: real): real {
    Capped(backoffBase * Pow2(attempt) as real, f.hint, maxDelay)
  }

  /** The first wait is the base, or a second more than the hint if that is longer, cut to the maximum;
      each later wait is the one before it with the base doubled. */
  lemma WaitsDouble(f: Failure, attempt: nat, backoffBase: real, maxDelay: real)
    ensures
      var asked := if f.hint.Some? && f.hint.value + 1.0 > backoffBase then f.hint.value + 1.0 else backoffBase;
      Delay(f, 0, backoffBase, maxDelay) == if asked < maxDelay then asked else maxDelay
    ensures Delay(f, attempt + 1, backoffBase, maxDelay) == Delay(f, attempt, 2.0 * backoffBase, maxDelay)
  {
    var p := Pow2(attempt);
    assert Pow2(attempt + 1) as real == 2.0 * p as real;
    Regroup(backoffBase, p as real);
  }

  lemma Regroup(x: real, y: real)
    ensures x * (2.0 * y) == (2.0 * x) * y
  {
  }

  /** `k` is the attempt the loop ends with: every earlier one may be retried, and this one may not
      or has used up the retries. */
  ghost predicate StopsAt(outcomes: nat -> Outcome, maxRetries: int, k: nat) {
    && (forall j: nat :: j < k ==> MayRetry(outcomes(j)) && j < maxRetries)
    && (MayRetry(outcomes(k)) ==> k >= maxRetries)
  }

  /** There is at most one such attempt, so it determines the outcome of the loop. */
  lemma StopIsUnique(outcomes: nat -> Outcome, maxRetries: int, k: nat, k': nat)
    requires StopsAt(outcomes, maxRetries, k) && StopsAt(outcomes, maxRetries, k')
    ensures k == k'
  {
    assert k < k' ==> MayRetry(outcomes(k));
    assert k' < k ==> MayRetry(outcomes(k'));
  }

  function Sum(waits: seq<real>): real {
    if waits == [] then 0.0 else Sum(waits[..|waits| - 1]) + waits[|waits| - 1]
  }

  lemma {:induction false} WaitsBounded(waits: seq<real>, maxDelay: real, n: int)
    requires forall j :: 0 <= j < |waits| ==> waits[j] <= maxDelay
    ensures Sum(waits) <= |waits| as real * maxDelay
    ensures maxDelay >= 0.0 && |waits| <= n ==> Sum(waits) <= n as real * maxDelay
  {
    if waits != [] {
      WaitsBounded(waits[..|waits| - 1], maxDelay, n);
      assert |waits| as real * maxDelay == (|waits| - 1) as real * maxDelay + maxDelay;
    }
    if maxDelay >= 0.0 && |waits| <= n {
      assert (n - |waits|) as real * maxDelay >= 0.0;
      assert n as real * maxDelay == |waits| as real * maxDelay + (n - |waits|) as real * maxDelay;
    }
  }

  /** The loop, run against a provider that answers attempt n with outcomes(n). */
  method WithTransportRetry(outcomes: nat -> Outcome, maxRetries: int, backoffBase: real, maxDelay: real)
    returns (result: Outcome, attempts: nat, waits: seq<real>)
    ensures attempts >= 1 && StopsAt(outcomes, maxRetries, attempts - 1)
    ensures result == outcomes(attempts - 1)
    ensures attempts <= (if maxRetries > 0 then maxRetries else 0) + 1
    ensures |waits| == attempts - 1
    ensures forall j :: 0 <= j < |waits| ==>
      MayRetry(outcomes(j)) && waits[j] == Delay(outcomes(j).failure, j, backoffBase, maxDelay)
    ensures forall j :: 0 <= j < |waits| ==>
      waits[j] <= maxDelay && (outcomes(j).failure.hint.Some? ==>
        Min(outcomes(j).failure.hint.value + 1.0, maxDelay) <= waits[j])
    ensures maxDelay >= 0.0 && maxRetries >= 0 ==> Sum(waits) <= maxRetries as real * maxDelay
  {
    var attempt: nat := 0;
    waits := [];
    while true
      invariant forall j: nat :: j < attempt ==> MayRetry(outcomes(j)) && j < maxRetries
      invariant |waits| == attempt
      invariant forall j :: 0 <= j < |waits| ==>
        MayRetry(outcomes(j)) && waits[j] == Delay(outcomes(j).failure, j, backoffBase, maxDelay)
      invariant attempt <= (if maxRetries > 0 then maxRetries else 0)
      decreases maxRetries - attempt
    {
      result := outcomes(attempt);
      if result.Value? || !Retryable(result.failure) || attempt >= maxRetries {
        WaitsBounded(waits, maxDelay, maxRetries);
        return result, attempt + 1, waits;
      }
      var delay := backoffBase * Pow2(attempt) as real;
      if result.failure.hint.Some? {
        delay := Max(delay, result.failure.hint.value + 1.0);
      }
      delay := Min(delay, maxDelay);
      waits := waits + [delay];
      attempt := attempt + 1;
    }
  }
}
