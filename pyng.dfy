/** `Pyng`: the keep-alive loop. Every `PyngInterval` ms a tick asks the
    activity tracker whether the notebook is idle; if it is not, one retry
    sequence of keep-alive requests runs, and if it is, the loop stops and
    its promise resolves.

    Requests are modelled by the responses they would receive, the interval
    timer by a flag saying whether it is still scheduled, and a tick runs its
    whole retry sequence before the next tick. */
module Pyng {
  import opened Outcomes
  import opened Retrying
  import opened Activity
  import opened Settings

  /** How one keep-alive request ends: its response loads with a status, or
      the request fails at the transport level. */
  datatype Response =
    | Loaded(status: int, statusText: string, body: string)
    | TransportError(status: int, statusText: string)

  /** The rejection value of a failed keep-alive request. */
  datatype Failure = Failure(status: int, statusText: string)

  /** The promise returned by `mainLoop`, before and after it settles. */
  datatype LoopPromise = NotStarted | Pending | Resolved | Rejected(reason: Failure)

  /** `keepAlive`: a loaded response with a status in [200, 300) resolves
      with the response body; any other status, and any transport error,
      rejects with the status and status text. */
  function KeepAlive(response: Response): (r: Outcome<string, Failure>)
    ensures r.Ok? <==> response.Loaded? && 200 <= response.status < 300
    ensures r.Ok? ==> r.value == response.body
    ensures r.Err? ==> r.error == Failure(response.status, response.statusText)
  {
    match response
    case Loaded(status, statusText, body) =>
      if status >= 200 && status < 300 then Ok(body) else Err(Failure(status, statusText))
    case TransportError(status, statusText) => Err(Failure(status, statusText))
  }

  /** The outcomes of successive keep-alive requests. */
  function KeepAlives(responses: seq<Response>): (outcomes: seq<Outcome<string, Failure>>)
    ensures |outcomes| == |responses|
    ensures forall i :: 0 <= i < |responses| ==> outcomes[i] == KeepAlive(responses[i])
  {
    seq(|responses|, i requires 0 <= i < |responses| => KeepAlive(responses[i]))
  }

  /** The retry sequence one non-idle tick starts. */
  function TickRetry(responses: seq<Response>): Run<string, Failure>
    requires |responses| >= RetryAttempts
  {
    Retry(KeepAlives(responses), RetryAttempts, RetryInterval)
  }

  /** With the extension's settings, a tick whose keep-alive requests all
      fail sends six requests, sleeps 5 x 15000 ms in all, which is less
      than the tick period, and rejects with the last request's status. */
  lemma WorstCaseRetryFitsInTick(responses: seq<Response>)
    requires |responses| >= RetryAttempts
    requires forall i :: 0 <= i < RetryAttempts ==> KeepAlive(responses[i]).Err?
    ensures TickRetry(responses).result ==
            Err(Failure(responses[RetryAttempts - 1].status, responses[RetryAttempts - 1].statusText))
    ensures |Invoked(TickRetry(responses).trace)| == RetryAttempts
    ensures Slept(TickRetry(responses).trace) == 75000 < PyngInterval
  {
    RetryExhausted(KeepAlives(responses), RetryAttempts, RetryInterval);
  }

  /** With the extension's settings, a tick whose `k`-th request (from 0,
      `k` below six) is the first to succeed sends exactly `k + 1` requests
      and ends with that success. */
  lemma TickStopsAtFirstSuccess(responses: seq<Response>, k: nat)
    requires |responses| >= RetryAttempts
    requires k < RetryAttempts
    requires responses[k].Loaded? && 200 <= responses[k].status < 300
    requires forall j :: 0 <= j < k ==> KeepAlive(responses[j]).Err?
    ensures TickRetry(responses).result == Ok(responses[k].body)
    ensures |Invoked(TickRetry(responses).trace)| == k + 1
    ensures Slept(TickRetry(responses).trace) == k * RetryInterval
  {
    RetryStopsAtFirstSuccess(KeepAlives(responses), RetryAttempts, RetryInterval, k);
  }

  class Pyng {
    var token: Option<string>
    /** The handle of the tick timer, once `mainLoop` has set it. */
    var interval: Option<nat>
    /** Whether the tick timer is still scheduled. */
    var ticking: bool
    var loop: LoopPromise
    /** Keep-alive requests sent so far. */
    var requests: nat
    const activity: ActivityTracker

    ghost predicate Valid()
      reads this, activity
    {
      && activity.Valid()
      && (ticking ==> interval.Some? && !loop.NotStarted?)
    }

    /** Creates an activity tracker with the idle timeout and the default
        event names, and starts it. */
    constructor (now: nat)
      ensures Valid() && fresh(activity) && fresh(activity.updater)
      ensures token.None? && interval.None? && !ticking && loop.NotStarted? && requests == 0
      ensures activity.timeout == IdleTimeout && activity.events == DefaultEvents
      ensures activity.lastActivity == now && activity.listening == Names(DefaultEvents)
    {
      token := None;
      interval := None;
      ticking := false;
      loop := NotStarted;
      requests := 0;
      activity := new ActivityTracker(IdleTimeout, now);
      new;
      activity.Start();
    }

    /** The token has arrived: it is stored and `mainLoop` begins, arming
        the tick timer with handle `handle`, which is never 0, so the
        handle tests true in `stop`. Happens once, on the kernel's
        first readiness. */
    method MainLoop(t: string, handle: nat)
      requires Valid() && loop.NotStarted?
      requires handle > 0
      modifies this
      ensures Valid()
      ensures token == Some(t) && interval == Some(handle) && ticking && loop.Pending?
      ensures requests == old(requests)
    {
      token := Some(t);
      loop := Pending;
      interval := Some(handle);
      ticking := true;
    }

    /** `stop`: clears the tick timer if one was set and stops the activity
        tracker. Calling it when already stopped changes nothing. */
    method Stop()
      requires Valid()
      modifies this, activity
      ensures Valid()
      ensures !ticking && activity.listening == {}
      ensures token == old(token) && interval == old(interval)
      ensures loop == old(loop) && requests == old(requests)
      ensures activity.lastActivity == old(activity.lastActivity)
      ensures !old(ticking) && old(activity.listening) == {} ==> unchanged(this, activity)
    {
      if interval.Some? {
        ticking := false;
      }
      activity.Stop();
    }

    /** One tick at `now`. If the tracker is idle the loop stops and its
        promise resolves, and no request is sent. Otherwise one retry
        sequence of keep-alive requests runs, whose requests receive
        `responses` in order; its failure rejects the promise, and the tick
        timer keeps running either way. A promise settles only once. */
    method Tick(now: nat, responses: seq<Response>) returns (run: Option<Run<string, Failure>>)
      requires Valid() && ticking
      requires |responses| >= RetryAttempts
      modifies this, activity
      ensures Valid()
      ensures token == old(token) && interval == old(interval)
      ensures activity.lastActivity == old(activity.lastActivity)
      ensures old(activity.IsIdle(now)) ==>
        && run.None? && !ticking && activity.listening == {}
        && requests == old(requests)
        && loop == (if old(loop).Pending? then Resolved else old(loop))
      ensures !old(activity.IsIdle(now)) ==>
        && run == Some(TickRetry(responses)) && ticking
        && activity.listening == old(activity.listening)
        && requests == old(requests) + |Invoked(run.value.trace)|
        && loop == (if old(loop).Pending? && run.value.result.Err?
                    then Rejected(run.value.result.error) else old(loop))
    {
      if !activity.IsIdle(now) {
        var r := Retry(KeepAlives(responses), RetryAttempts, RetryInterval);
        requests := requests + |Invoked(r.trace)|;
        if r.result.Err? && loop.Pending? {
          loop := Rejected(r.result.error);
        }
        run := Some(r);
      } else {
        Stop();
        if loop.Pending? {
          loop := Resolved;
        }
        run := None;
      }
    }
  }

  /** The tracker is idle at the first tick: the loop stops, resolves and
      sends nothing. */
  method ScenarioIdleAtFirstTick(responses: seq<Response>)
    requires |responses| >= RetryAttempts
  {
    var p := new Pyng(0);
    p.MainLoop("token", 1);
    var run := p.Tick(IdleTimeout + 1, responses);
    assert run.None? && !p.ticking && p.activity.listening == {};
    assert p.loop == Resolved && p.requests == 0;
    p.Stop();
    assert p.loop == Resolved && !p.ticking;
  }

  /** Three busy ticks whose first request succeeds each time: the loop
      keeps running and has sent three requests. */
  method ScenarioThreeBusyTicks(ok: Response, rest: seq<Response>)
    requires ok.Loaded? && 200 <= ok.status < 300
    requires |rest| >= RetryAttempts - 1
  {
    var responses := [ok] + rest;
    TickStopsAtFirstSuccess(responses, 0);
    var p := new Pyng(0);
    p.MainLoop("token", 1);
    var i := 0;
    while i < 3
      invariant 0 <= i <= 3
      invariant p.Valid() && p.ticking && p.loop == Pending && p.requests == i
      invariant p.activity.lastActivity == 0 && p.activity.timeout == IdleTimeout
    {
      var run := p.Tick(PyngInterval * (i + 1), responses);
      i := i + 1;
    }
    assert p.requests == 3 && p.ticking && p.loop == Pending;
  }

  /** A busy tick whose six requests all fail: the promise rejects with
      the sixth failure, no seventh request is sent, and the tick timer is
      still running. */
  method ScenarioRetriesExhausted(responses: seq<Response>)
    requires |responses| == RetryAttempts
    requires forall i :: 0 <= i < |responses| ==> responses[i] == TransportError(0, "")
  {
    WorstCaseRetryFitsInTick(responses);
    var p := new Pyng(0);
    p.MainLoop("token", 1);
    var run := p.Tick(PyngInterval, responses);
    assert p.requests == 6;
    assert p.loop == Rejected(Failure(0, ""));
    assert p.ticking;
  }
}
