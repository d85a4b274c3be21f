/**
 * The retry executor `makeRequest(method, options, attemptsRemaining, retryCallback)`.
 *
 * The fallible operation is a script: `operation(k)` is the outcome of the
 * k-th call (counting from 0), so a call may succeed after earlier ones failed.
 * The run records, in order, the attempts-remaining value at each call, each
 * failure handed to the callback, and each delay waited before a retry (None is
 * JavaScript's `undefined`, read past the end of the delay table).
 */
module RequestHandler {
  import opened Results
  import opened RetryDelay
  import opened Failures

  datatype Attempt<+T> = Resolved(value: T) | Rejected(failure: Failure)

  datatype RetryTrace = RetryTrace(calls: seq<int>, classified: seq<Failure>, delays: seq<Option<nat>>)

  datatype Run<+T> = Run(result: Result<T, Failure>, trace: RetryTrace)

  /** The outcome a call resolved or rejected with, as the promise it returns. */
  function Settle<T>(a: Attempt<T>): Result<T, Failure> {
    match a
    case Resolved(v) => Ok(v)
    case Rejected(e) => Err(e)
  }

  /** The k-th call failed, and the callback approved a retry of that failure. */
  predicate FailedAndRetryable<T>(operation: nat -> Attempt<T>, k: nat, retryCallback: Failure -> bool) {
    operation(k).Rejected? && retryCallback(operation(k).failure)
  }

  /**
   * `makeRequest` started at the `call`-th call of the script. On a failure it
   * retries only while attempts remain and the callback approves, waiting
   * `calculateInverseRetryDelay(attemptsRemaining - 1)` first; otherwise the
   * failure is rethrown unchanged.
   */
  function MakeRequestFrom<T>(operation: nat -> Attempt<T>, call: nat,
                                     attemptsRemaining: int, retryCallback: Failure -> bool): (r: Run<T>)
    ensures 1 <= |r.trace.calls| <= Max(attemptsRemaining, 0) + 1
    ensures |r.trace.delays| == |r.trace.calls| - 1
    ensures |r.trace.calls| - 1 <= |r.trace.classified| <= |r.trace.calls|
    ensures r.result == Settle(operation(call + |r.trace.calls| - 1))
    decreases Max(attemptsRemaining, 0)
  {
    match operation(call)
    case Resolved(v) => Run(Ok(v), RetryTrace([attemptsRemaining], [], []))
    case Rejected(e) =>
      if attemptsRemaining > 0 && retryCallback(e) then
        var attempts := attemptsRemaining - 1;
        var rest := MakeRequestFrom(operation, call + 1, attempts, retryCallback);
        Run(rest.result, RetryTrace([attemptsRemaining] + rest.trace.calls,
                                    [e] + rest.trace.classified,
                                    [InverseDelayLookup(attempts)] + rest.trace.delays))
      else if attemptsRemaining > 0 then
        Run(Err(e), RetryTrace([attemptsRemaining], [e], []))
      else
        Run(Err(e), RetryTrace([attemptsRemaining], [], []))
  }

  /** `makeRequest(method, options, attemptsRemaining, retryCallback)`. */
  function MakeRequest<T>(operation: nat -> Attempt<T>, attemptsRemaining: int,
                                 retryCallback: Failure -> bool): Run<T>
  {
    MakeRequestFrom(operation, 0, attemptsRemaining, retryCallback)
  }

  /** The calls, callback verdicts and delays of the run started at `call`. */
  function TraceFrom<T>(operation: nat -> Attempt<T>, call: nat, attemptsRemaining: int,
                        retryCallback: Failure -> bool): RetryTrace
  {
    MakeRequestFrom(operation, call, attemptsRemaining, retryCallback).trace
  }

  /**
   * The i-th call sees `attemptsRemaining - i`, and the i-th retry waits the delay
   * for `attemptsRemaining - 1 - i`: each step passes on one attempt fewer.
   */
  lemma {:induction false} CountdownTrace<T>(operation: nat -> Attempt<T>, call: nat,
                                             attemptsRemaining: int, retryCallback: Failure -> bool)
    ensures forall i :: 0 <= i < |TraceFrom(operation, call, attemptsRemaining, retryCallback).calls| ==>
      TraceFrom(operation, call, attemptsRemaining, retryCallback).calls[i] == attemptsRemaining - i
    ensures forall i :: 0 <= i < |TraceFrom(operation, call, attemptsRemaining, retryCallback).delays| ==>
      TraceFrom(operation, call, attemptsRemaining, retryCallback).delays[i] == InverseDelayLookup(attemptsRemaining - 1 - i)
    decreases Max(attemptsRemaining, 0)
  {
    match operation(call)
    case Resolved(v) =>
    case Rejected(e) =>
      if attemptsRemaining > 0 && retryCallback(e) {
        CountdownTrace(operation, call + 1, attemptsRemaining - 1, retryCallback);
        var r := TraceFrom(operation, call, attemptsRemaining, retryCallback);
        var rest := TraceFrom(operation, call + 1, attemptsRemaining - 1, retryCallback);
        assert r.calls == [attemptsRemaining] + rest.calls;
        assert r.delays == [InverseDelayLookup(attemptsRemaining - 1)] + rest.delays;
      }
  }

  /** Every call but the last failed with a failure the callback approved. */
  lemma {:induction false} FailuresRetried<T>(operation: nat -> Attempt<T>, call: nat,
                                              attemptsRemaining: int, retryCallback: Failure -> bool)
    ensures forall k :: call <= k < call + |TraceFrom(operation, call, attemptsRemaining, retryCallback).calls| - 1 ==>
      FailedAndRetryable(operation, k, retryCallback)
    decreases Max(attemptsRemaining, 0)
  {
    match operation(call)
    case Resolved(v) =>
    case Rejected(e) =>
      if attemptsRemaining > 0 && retryCallback(e) {
        FailuresRetried(operation, call + 1, attemptsRemaining - 1, retryCallback);
        var r := TraceFrom(operation, call, attemptsRemaining, retryCallback);
        var rest := TraceFrom(operation, call + 1, attemptsRemaining - 1, retryCallback);
        assert |r.calls| == 1 + |rest.calls|;
        assert FailedAndRetryable(operation, call, retryCallback);
      }
  }

  /** The callback saw exactly the failures of the calls, in order. */
  lemma {:induction false} CallbackSawFailures<T>(operation: nat -> Attempt<T>, call: nat,
                                                  attemptsRemaining: int, retryCallback: Failure -> bool)
    ensures forall i :: 0 <= i < |TraceFrom(operation, call, attemptsRemaining, retryCallback).classified| ==>
      operation(call + i) == Rejected(TraceFrom(operation, call, attemptsRemaining, retryCallback).classified[i])
    decreases Max(attemptsRemaining, 0)
  {
    match operation(call)
    case Resolved(v) =>
    case Rejected(e) =>
      if attemptsRemaining > 0 && retryCallback(e) {
        CallbackSawFailures(operation, call + 1, attemptsRemaining - 1, retryCallback);
        var r := TraceFrom(operation, call, attemptsRemaining, retryCallback);
        var rest := TraceFrom(operation, call + 1, attemptsRemaining - 1, retryCallback);
        assert r.classified == [e] + rest.classified;
        forall i | 1 <= i < |r.classified|
          ensures operation(call + i) == Rejected(r.classified[i])
        {
          assert r.classified[i] == rest.classified[i - 1];
          assert operation((call + 1) + (i - 1)) == Rejected(rest.classified[i - 1]);
        }
      }
  }

  /**
   * How the run ended: the callback was asked about the last failure exactly when
   * the run rejected with attempts left, and then it refused.
   */
  lemma {:induction false} EndTrace<T>(operation: nat -> Attempt<T>, call: nat,
                                       attemptsRemaining: int, retryCallback: Failure -> bool)
    ensures (MakeRequestFrom(operation, call, attemptsRemaining, retryCallback).result.Err?
             && attemptsRemaining - (|TraceFrom(operation, call, attemptsRemaining, retryCallback).calls| - 1) > 0)
        <==> |TraceFrom(operation, call, attemptsRemaining, retryCallback).classified|
               == |TraceFrom(operation, call, attemptsRemaining, retryCallback).calls|
    ensures |TraceFrom(operation, call, attemptsRemaining, retryCallback).classified|
              == |TraceFrom(operation, call, attemptsRemaining, retryCallback).calls|
        ==> !retryCallback(MakeRequestFrom(operation, call, attemptsRemaining, retryCallback).result.error)
    decreases Max(attemptsRemaining, 0)
  {
    match operation(call)
    case Resolved(v) =>
    case Rejected(e) =>
      if attemptsRemaining > 0 && retryCallback(e) {
        EndTrace(operation, call + 1, attemptsRemaining - 1, retryCallback);
      }
  }

  /** A first call that succeeds is returned unchanged: one call, no callback, no delay. */
  lemma FirstCallSucceeds<T>(operation: nat -> Attempt<T>, attemptsRemaining: int,
                                      retryCallback: Failure -> bool)
    requires operation(0).Resolved?
    ensures MakeRequest(operation, attemptsRemaining, retryCallback) ==
      Run(Ok(operation(0).value), RetryTrace([attemptsRemaining], [], []))
  {
  }

  /**
   * k failures the callback approves, then a success, with k <= attemptsRemaining:
   * k + 1 calls, k callback calls and the k delays for attemptsRemaining - 1 down
   * to attemptsRemaining - k; the success value is returned.
   */
  lemma FailuresThenSuccess<T>(operation: nat -> Attempt<T>, attemptsRemaining: int,
                               retryCallback: Failure -> bool, k: nat)
    requires k <= attemptsRemaining
    requires forall i :: 0 <= i < k ==> FailedAndRetryable(operation, i, retryCallback)
    requires operation(k).Resolved?
    ensures MakeRequest(operation, attemptsRemaining, retryCallback).result == Ok(operation(k).value)
    ensures |TraceFrom(operation, 0, attemptsRemaining, retryCallback).calls| == k + 1
    ensures |TraceFrom(operation, 0, attemptsRemaining, retryCallback).classified| == k
    ensures forall i :: 0 <= i < k ==>
      TraceFrom(operation, 0, attemptsRemaining, retryCallback).delays[i] == InverseDelayLookup(attemptsRemaining - 1 - i)
  {
    CountdownTrace(operation, 0, attemptsRemaining, retryCallback);
    FailuresRetried(operation, 0, attemptsRemaining, retryCallback);
    EndTrace(operation, 0, attemptsRemaining, retryCallback);
    var r := MakeRequestFrom(operation, 0, attemptsRemaining, retryCallback);
    assert TraceFrom(operation, 0, attemptsRemaining, retryCallback) == r.trace;
    var last := |r.trace.calls| - 1;
    assert last < k ==> FailedAndRetryable(operation, last, retryCallback);
    assert last > k ==> FailedAndRetryable(operation, k, retryCallback);
  }

  /**
   * Every call fails and the callback always approves: attemptsRemaining + 1 calls,
   * attemptsRemaining callback calls and delays, and the failure of the last call
   * is rethrown unchanged (at 0 attempts left the callback is not consulted).
   */
  lemma AlwaysFailing<T>(operation: nat -> Attempt<T>, attemptsRemaining: nat,
                         retryCallback: Failure -> bool)
    requires forall i :: 0 <= i <= attemptsRemaining ==> FailedAndRetryable(operation, i, retryCallback)
    ensures MakeRequest(operation, attemptsRemaining, retryCallback).result == Settle(operation(attemptsRemaining))
    ensures MakeRequest(operation, attemptsRemaining, retryCallback).result.Err?
    ensures |TraceFrom(operation, 0, attemptsRemaining, retryCallback).calls| == attemptsRemaining + 1
    ensures |TraceFrom(operation, 0, attemptsRemaining, retryCallback).classified| == attemptsRemaining
    ensures forall i :: 0 <= i < attemptsRemaining ==>
      TraceFrom(operation, 0, attemptsRemaining, retryCallback).delays[i] == InverseDelayLookup(attemptsRemaining - 1 - i)
  {
    CountdownTrace(operation, 0, attemptsRemaining, retryCallback);
    FailuresRetried(operation, 0, attemptsRemaining, retryCallback);
    EndTrace(operation, 0, attemptsRemaining, retryCallback);
    var r := MakeRequestFrom(operation, 0, attemptsRemaining, retryCallback);
    assert TraceFrom(operation, 0, attemptsRemaining, retryCallback) == r.trace;
    var last := |r.trace.calls| - 1;
    assert last < attemptsRemaining ==> FailedAndRetryable(operation, last, retryCallback);
    assert FailedAndRetryable(operation, attemptsRemaining, retryCallback);
  }

  /** A first failure the callback refuses is rethrown after one call and one callback. */
  lemma CallbackRefuses<T>(operation: nat -> Attempt<T>, attemptsRemaining: int,
                           retryCallback: Failure -> bool)
    requires attemptsRemaining > 0
    requires operation(0).Rejected? && !retryCallback(operation(0).failure)
    ensures MakeRequest(operation, attemptsRemaining, retryCallback) ==
      Run(Err(operation(0).failure), RetryTrace([attemptsRemaining], [operation(0).failure], []))
  {
  }

  /** With no attempts left a failure is rethrown at once, without asking the callback. */
  lemma NoAttemptsLeft<T>(operation: nat -> Attempt<T>, attemptsRemaining: int,
                          retryCallback: Failure -> bool)
    requires attemptsRemaining <= 0 && operation(0).Rejected?
    ensures MakeRequest(operation, attemptsRemaining, retryCallback) ==
      Run(Err(operation(0).failure), RetryTrace([attemptsRemaining], [], []))
  {
  }

  /**
   * Starting from a count of at most 7 every delay is a table entry, and the count
   * seen by a call is never negative when it starts non-negative.
   */
  lemma DelaysFromTable<T>(operation: nat -> Attempt<T>, attemptsRemaining: int,
                           retryCallback: Failure -> bool)
    requires 0 <= attemptsRemaining <= 7
    ensures forall i :: 0 <= i < |TraceFrom(operation, 0, attemptsRemaining, retryCallback).calls| ==>
      TraceFrom(operation, 0, attemptsRemaining, retryCallback).calls[i] >= 0
    ensures forall i :: 0 <= i < |TraceFrom(operation, 0, attemptsRemaining, retryCallback).delays| ==>
      TraceFrom(operation, 0, attemptsRemaining, retryCallback).delays[i] == Some(InverseDelayIntervals[attemptsRemaining - 1 - i])
  {
    CountdownTrace(operation, 0, attemptsRemaining, retryCallback);
  }
}
