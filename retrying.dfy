/** The bounded, fixed-delay retrier `retry(func, count, delay)`.

    The operation `func` is modelled by the outcomes its successive
    invocations would settle with: invocation number `i` (from 0) settles
    with `outcomes[i]`. `sleep(delay)` is a step of the trace; no clock is
    read. */
module Retrying {
  import opened Outcomes

  /** One observable step of a retry sequence: an invocation of the
      operation and how it settled, or a pause between two invocations. */
  datatype Step<T, E> = Invoke(outcome: Outcome<T, E>) | Sleep(ms: nat)

  /** How the promise returned by `retry` settles, with the steps taken. */
  datatype Run<T, E> = Run(result: Outcome<T, E>, trace: seq<Step<T, E>>)

  /** The number of attempts `retry` allows: `count`, but never fewer than
      one, since the operation is invoked before `count` is looked at. */
  function Attempts(count: int): (n: nat)
    ensures n >= 1 && n >= count
    ensures n == count || n == 1
  {
    if count > 1 then count else 1
  }

  /** The outcomes of the invocations recorded in a trace, in order. */
  function Invoked<T, E>(trace: seq<Step<T, E>>): seq<Outcome<T, E>>
  {
    if trace == [] then []
    else (if trace[0].Invoke? then [trace[0].outcome] else []) + Invoked(trace[1..])
  }

  /** The total time a trace spends sleeping. */
  function Slept<T, E>(trace: seq<Step<T, E>>): nat
  {
    if trace == [] then 0
    else (if trace[0].Sleep? then trace[0].ms else 0) + Slept(trace[1..])
  }

  /** Unfolding a failed attempt followed by its sleep at the head of a
      trace. */
  lemma RetryStepUnfold<T, E>(o: Outcome<T, E>, delay: nat, t: seq<Step<T, E>>)
    ensures Invoked([Invoke(o), Sleep(delay)] + t) == [o] + Invoked(t)
    ensures Slept([Invoke(o), Sleep(delay)] + t) == delay + Slept(t)
  {
  }

  /** `retry`: invoke the operation; on success settle with its value; on
      failure with more than one attempt left, sleep `delay` and retry with
      one attempt fewer; on the last failure settle with that failure.
      The invocations are exactly the first outcomes, each one before the
      last failed, the result is the last one, and the sequence stops
      early only on a success. */
  function Retry<T, E>(outcomes: seq<Outcome<T, E>>, count: int, delay: nat): (r: Run<T, E>)
    requires |outcomes| >= Attempts(count)
    ensures 1 <= |Invoked(r.trace)| <= Attempts(count)
    ensures Invoked(r.trace) == outcomes[..|Invoked(r.trace)|]
    ensures r.result == outcomes[|Invoked(r.trace)| - 1]
    ensures forall j :: 0 <= j < |Invoked(r.trace)| - 1 ==> outcomes[j].Err?
    ensures r.result.Err? ==> |Invoked(r.trace)| == Attempts(count)
    decreases |outcomes|
  {
    match outcomes[0]
    case Ok(_) => Run(outcomes[0], [Invoke(outcomes[0])])
    case Err(e) =>
      if count > 1 then
        var rest := Retry(outcomes[1..], count - 1, delay);
        RetryStepUnfold(outcomes[0], delay, rest.trace);
        Run(rest.result, [Invoke(outcomes[0]), Sleep(delay)] + rest.trace)
      else
        Run(Err(e), [Invoke(outcomes[0])])
  }

  /** If the first success is at invocation `k` and `k` is within the
      allowed attempts, `retry` settles with that success after exactly
      `k + 1` invocations, having slept `k` times. */
  lemma {:induction false} RetryStopsAtFirstSuccess<T, E>(outcomes: seq<Outcome<T, E>>, count: int, delay: nat, k: nat)
    requires |outcomes| >= Attempts(count)
    requires k < Attempts(count)
    requires outcomes[k].Ok?
    requires forall j :: 0 <= j < k ==> outcomes[j].Err?
    ensures Retry(outcomes, count, delay).result == outcomes[k]
    ensures Invoked(Retry(outcomes, count, delay).trace) == outcomes[..k + 1]
    ensures Slept(Retry(outcomes, count, delay).trace) == k * delay
  {
    var r := Retry(outcomes, count, delay);
    if k > 0 {
      assert outcomes[0].Err?;
      var rest := Retry(outcomes[1..], count - 1, delay);
      RetryStopsAtFirstSuccess(outcomes[1..], count - 1, delay, k - 1);
      assert r.trace == [Invoke(outcomes[0]), Sleep(delay)] + rest.trace;
      RetryStepUnfold(outcomes[0], delay, rest.trace);
      assert outcomes[..k + 1] == [outcomes[0]] + outcomes[1..][..k];
      assert k * delay == delay + (k - 1) * delay;
    }
  }

  /** If every allowed attempt fails, `retry` invokes the operation exactly
      `Attempts(count)` times, sleeps between consecutive attempts only,
      and rejects with the error of the last invocation. */
  lemma {:induction false} RetryExhausted<T, E>(outcomes: seq<Outcome<T, E>>, count: int, delay: nat)
    requires |outcomes| >= Attempts(count)
    requires forall j :: 0 <= j < Attempts(count) ==> outcomes[j].Err?
    ensures Retry(outcomes, count, delay).result == outcomes[Attempts(count) - 1]
    ensures Retry(outcomes, count, delay).result.Err?
    ensures Invoked(Retry(outcomes, count, delay).trace) == outcomes[..Attempts(count)]
    ensures Slept(Retry(outcomes, count, delay).trace) == (Attempts(count) - 1) * delay
  {
    var r := Retry(outcomes, count, delay);
    if count > 1 {
      var rest := Retry(outcomes[1..], count - 1, delay);
      RetryExhausted(outcomes[1..], count - 1, delay);
      assert r.trace == [Invoke(outcomes[0]), Sleep(delay)] + rest.trace;
      RetryStepUnfold(outcomes[0], delay, rest.trace);
      assert (count - 1) * delay == delay + (count - 2) * delay;
      assert outcomes[..count] == [outcomes[0]] + outcomes[1..][..count - 1];
    }
  }

  /** `retry` settles with a success exactly when some invocation within
      the allowed attempts succeeds. */
  lemma RetrySucceedsIff<T, E>(outcomes: seq<Outcome<T, E>>, count: int, delay: nat)
    requires |outcomes| >= Attempts(count)
    ensures Retry(outcomes, count, delay).result.Ok? <==>
            exists k :: 0 <= k < Attempts(count) && outcomes[k].Ok?
  {
  }

  /** The shape of a retry trace: it starts and ends with an invocation;
      every invocation but the last failed and is followed by a sleep of
      `delay`; every sleep sits between a failed invocation and the next
      invocation. So no sleep follows a success or the final failure. */
  lemma {:induction false} RetrySleepsBetweenAttempts<T, E>(outcomes: seq<Outcome<T, E>>, count: int, delay: nat)
    requires |outcomes| >= Attempts(count)
    ensures var t := Retry(outcomes, count, delay).trace;
      && t != [] && t[0].Invoke? && t[|t| - 1].Invoke?
      && (forall i :: 0 <= i < |t| - 1 && t[i].Invoke? ==> t[i].outcome.Err? && t[i + 1] == Sleep(delay))
      && (forall i :: 0 <= i < |t| && t[i].Sleep? ==>
            0 < i < |t| - 1 && t[i - 1].Invoke? && t[i - 1].outcome.Err? && t[i + 1].Invoke?)
  {
    var t := Retry(outcomes, count, delay).trace;
    if outcomes[0].Err? && count > 1 {
      var rest := Retry(outcomes[1..], count - 1, delay);
      RetrySleepsBetweenAttempts(outcomes[1..], count - 1, delay);
      assert t == [Invoke(outcomes[0]), Sleep(delay)] + rest.trace;
      forall i | 0 <= i < |t| - 1 && t[i].Invoke?
        ensures t[i].outcome.Err? && t[i + 1] == Sleep(delay)
      {
        if i > 0 { assert t[i] == rest.trace[i - 2]; }
      }
      forall i | 0 <= i < |t| && t[i].Sleep?
        ensures 0 < i < |t| - 1 && t[i - 1].Invoke? && t[i - 1].outcome.Err? && t[i + 1].Invoke?
      {
        if i > 1 { assert t[i] == rest.trace[i - 2]; }
      }
    }
  }

  /** In every retry sequence the total sleep is one `delay` per
      invocation after the first. */
  lemma {:induction false} RetrySleepTotal<T, E>(outcomes: seq<Outcome<T, E>>, count: int, delay: nat)
    requires |outcomes| >= Attempts(count)
    ensures Slept(Retry(outcomes, count, delay).trace) ==
            (|Invoked(Retry(outcomes, count, delay).trace)| - 1) * delay
  {
    var r := Retry(outcomes, count, delay);
    if outcomes[0].Err? && count > 1 {
      var rest := Retry(outcomes[1..], count - 1, delay);
      RetrySleepTotal(outcomes[1..], count - 1, delay);
      assert r.trace == [Invoke(outcomes[0]), Sleep(delay)] + rest.trace;
      RetryStepUnfold(outcomes[0], delay, rest.trace);
      var n := |Invoked(rest.trace)|;
      assert n * delay == delay + (n - 1) * delay;
    }
  }
}
