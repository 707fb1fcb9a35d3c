/** `debounce(func, wait, immediate)`: a wrapper that keeps one pending
    timer in its closure. Every call clears that timer and arms a new one
    for `wait` ms carrying the call's arguments; when the timer runs it
    forgets itself and, unless `immediate`, applies `func` to the arguments
    of the call that armed it. With `immediate`, a call made while no timer
    is pending applies `func` at once instead.

    Time is explicit: a call happens at `now`, and `TimeAt(now)` is the
    event loop running the timers that are due at `now`. */
module Debounce {
  import opened Outcomes

  /** The timer armed by a call: it runs at `deadline`, with `args`. */
  datatype Timer<A> = Timer(deadline: nat, args: A)

  /** One step of the wrapper: the pending timer afterwards, and the
      arguments `func` was applied to during the step, if it was. */
  datatype Step<A> = Step(pending: Option<Timer<A>>, fired: Option<A>)

  /** Something that happens to the wrapper: a call of it, or time passing
      up to `at` so that due timers run. */
  datatype Input<A> = CallAt(at: nat, args: A) | TimeAt(at: nat)

  /** What a sequence of inputs leaves behind: the pending timer, and the
      arguments of every application of `func`, in order. */
  datatype History<A> = History(pending: Option<Timer<A>>, fired: seq<A>)

  /** A call of the wrapper at `now`: the old timer is cleared and one for
      `now + wait` is armed; `func` runs at once only in `immediate` mode
      and only when no timer was pending. */
  function CallStep<A>(wait: nat, immediate: bool, pending: Option<Timer<A>>, now: nat, args: A): (s: Step<A>)
    ensures s.pending.Some? && s.pending.value.deadline == now + wait && s.pending.value.args == args
    ensures s.fired.Some? <==> immediate && pending.None?
    ensures s.fired.Some? ==> s.fired.value == args
  {
    var callNow := immediate && pending.None?;
    Step(Some(Timer(now + wait, args)), if callNow then Some(args) else None)
  }

  /** Time reaching `now`: a pending timer whose deadline has come runs,
      which clears it and, in trailing mode, applies `func` to the
      arguments it carries. Anything else is left as it was. */
  function TimerStep<A>(immediate: bool, pending: Option<Timer<A>>, now: nat): (s: Step<A>)
    ensures s.fired.Some? <==> !immediate && pending.Some? && pending.value.deadline <= now
    ensures s.fired.Some? ==> s.fired.value == pending.value.args
    ensures pending.Some? && pending.value.deadline <= now ==> s.pending.None?
    ensures !(pending.Some? && pending.value.deadline <= now) ==> s.pending == pending
  {
    if pending.Some? && pending.value.deadline <= now then
      Step(None, if immediate then None else Some(pending.value.args))
    else
      Step(pending, None)
  }

  function Apply<A>(wait: nat, immediate: bool, pending: Option<Timer<A>>, input: Input<A>): Step<A>
  {
    match input
    case CallAt(at, args) => CallStep(wait, immediate, pending, at, args)
    case TimeAt(at) => TimerStep(immediate, pending, at)
  }

  /** The wrapper fed `inputs` in order, starting from `pending`. */
  function Run<A>(wait: nat, immediate: bool, pending: Option<Timer<A>>, inputs: seq<Input<A>>): History<A>
    decreases |inputs|
  {
    if inputs == [] then History(pending, [])
    else
      var s := Apply(wait, immediate, pending, inputs[0]);
      var h := Run(wait, immediate, s.pending, inputs[1..]);
      History(h.pending, (if s.fired.Some? then [s.fired.value] else []) + h.fired)
  }

  /** The time and arguments of the last call among `inputs`, or `(t, a)`
      when there is none. */
  function LastCall<A>(t: nat, a: A, inputs: seq<Input<A>>): (nat, A)
    decreases |inputs|
  {
    if inputs == [] then (t, a)
    else if inputs[0].CallAt? then LastCall(inputs[0].at, inputs[0].args, inputs[1..])
    else LastCall(t, a, inputs[1..])
  }

  /** A burst that continues a call made at `t`: each input comes no
      earlier than the latest call and less than `wait` after it. */
  predicate InBurst<A>(wait: nat, t: nat, inputs: seq<Input<A>>)
    decreases |inputs|
  {
    inputs == [] ||
    (t <= inputs[0].at < t + wait &&
     InBurst(wait, if inputs[0].CallAt? then inputs[0].at else t, inputs[1..]))
  }

  /** Feeding two input sequences one after the other. */
  lemma {:induction false} RunAppend<A>(wait: nat, immediate: bool, pending: Option<Timer<A>>, xs: seq<Input<A>>, ys: seq<Input<A>>)
    ensures var h1 := Run(wait, immediate, pending, xs);
            var h2 := Run(wait, immediate, h1.pending, ys);
            Run(wait, immediate, pending, xs + ys) == History(h2.pending, h1.fired + h2.fired)
    decreases |xs|
  {
    if xs == [] {
      assert xs + ys == ys;
    } else {
      assert (xs + ys)[1..] == xs[1..] + ys;
      var s := Apply(wait, immediate, pending, xs[0]);
      RunAppend(wait, immediate, s.pending, xs[1..], ys);
    }
  }

  /** During a burst the timer is only ever pushed back: nothing runs, and
      afterwards one timer is pending, `wait` after the last call and
      carrying that call's arguments. Holds in both modes once a timer is
      pending. */
  lemma {:induction false} BurstDefers<A>(wait: nat, immediate: bool, t: nat, a: A, inputs: seq<Input<A>>)
    requires InBurst(wait, t, inputs)
    ensures var last := LastCall(t, a, inputs);
            Run(wait, immediate, Some(Timer(t + wait, a)), inputs) ==
            History(Some(Timer(last.0 + wait, last.1)), [])
    decreases |inputs|
  {
    if inputs != [] {
      match inputs[0]
      case CallAt(at, args) => BurstDefers(wait, immediate, at, args, inputs[1..]);
      case TimeAt(at) => BurstDefers(wait, immediate, t, a, inputs[1..]);
    }
  }

  /** Time passing with nothing pending runs nothing. */
  lemma {:induction false} QuietRunsNothing<A>(wait: nat, immediate: bool, inputs: seq<Input<A>>)
    requires forall i :: 0 <= i < |inputs| ==> inputs[i].TimeAt?
    ensures Run(wait, immediate, None, inputs) == History(None, [])
    decreases |inputs|
  {
    if inputs != [] {
      QuietRunsNothing(wait, immediate, inputs[1..]);
    }
  }

  /** Feeding a single input is one step. */
  lemma RunOne<A>(wait: nat, immediate: bool, pending: Option<Timer<A>>, input: Input<A>)
    ensures var s := Apply(wait, immediate, pending, input);
            Run(wait, immediate, pending, [input]) ==
            History(s.pending, if s.fired.Some? then [s.fired.value] else [])
  {
  }

  /** A burst started from nothing pending, then time reaching `x` and
      then only time passing. */
  lemma {:induction false} BurstThenQuiet<A>(wait: nat, immediate: bool, t: nat, a: A, burst: seq<Input<A>>, x: nat, quiet: seq<Input<A>>)
    requires InBurst(wait, t, burst)
    requires x >= LastCall(t, a, burst).0 + wait
    requires forall i :: 0 <= i < |quiet| ==> quiet[i].TimeAt?
    ensures var last := LastCall(t, a, burst);
            Run(wait, immediate, None, [CallAt(t, a)] + burst + [TimeAt(x)] + quiet) ==
            History(None, (if immediate then [a] else []) + (if immediate then [] else [last.1]))
  {
    var last := LastCall(t, a, burst);
    var armed := Some(Timer(t + wait, a));
    var rearmed := Some(Timer(last.0 + wait, last.1));
    RunOne(wait, immediate, None, CallAt(t, a));
    var h1 := Run(wait, immediate, None, [CallAt(t, a)]);
    assert h1 == History(armed, if immediate then [a] else []);
    BurstDefers(wait, immediate, t, a, burst);
    RunAppend(wait, immediate, None, [CallAt(t, a)], burst);
    var h2 := Run(wait, immediate, None, [CallAt(t, a)] + burst);
    assert h2 == History(rearmed, h1.fired);
    RunOne(wait, immediate, rearmed, TimeAt(x));
    var fire := Run(wait, immediate, rearmed, [TimeAt(x)]);
    assert fire == History(None, if immediate then [] else [last.1]);
    RunAppend(wait, immediate, None, [CallAt(t, a)] + burst, [TimeAt(x)]);
    QuietRunsNothing(wait, immediate, quiet);
    RunAppend(wait, immediate, None, [CallAt(t, a)] + burst + [TimeAt(x)], quiet);
  }

  /** Trailing mode: a burst of calls, each less than `wait` after the one
      before, starting with nothing pending, applies `func` exactly once:
      when time reaches `wait` after the last call, with that call's
      arguments; afterwards nothing is pending and further time passing
      applies nothing. */
  lemma TrailingBurstFiresOnce<A>(wait: nat, t: nat, a: A, burst: seq<Input<A>>, x: nat, quiet: seq<Input<A>>)
    requires InBurst(wait, t, burst)
    requires x >= LastCall(t, a, burst).0 + wait
    requires forall i :: 0 <= i < |quiet| ==> quiet[i].TimeAt?
    ensures Run(wait, false, None, [CallAt(t, a)] + burst + [TimeAt(x)] + quiet) ==
            History(None, [LastCall(t, a, burst).1])
  {
    BurstThenQuiet(wait, false, t, a, burst, x, quiet);
  }

  /** Immediate mode: the same burst applies `func` exactly once, at the
      first call and with its arguments; the timer that finally runs
      applies nothing and clears the pending state. */
  lemma LeadingBurstFiresOnce<A>(wait: nat, t: nat, a: A, burst: seq<Input<A>>, x: nat, quiet: seq<Input<A>>)
    requires InBurst(wait, t, burst)
    requires x >= LastCall(t, a, burst).0 + wait
    requires forall i :: 0 <= i < |quiet| ==> quiet[i].TimeAt?
    ensures Run(wait, true, None, [CallAt(t, a)] + burst + [TimeAt(x)] + quiet) == History(None, [a])
  {
    BurstThenQuiet(wait, true, t, a, burst, x, quiet);
  }

  /** The function returned by `debounce`, with its closure's timer as a
      field. `func` itself is left to the caller: each method returns the
      arguments `func` is to be applied to, if it is to run. */
  class Debouncer<A> {
    const wait: nat
    const immediate: bool
    var pending: Option<Timer<A>>

    constructor (wait: nat, immediate: bool)
      ensures this.wait == wait && this.immediate == immediate && pending.None?
    {
      this.wait := wait;
      this.immediate := immediate;
      pending := None;
    }

    /** One call of the debounced function at `now`. */
    method Call(now: nat, args: A) returns (fired: Option<A>)
      modifies this
      ensures Step(pending, fired) == CallStep(wait, immediate, old(pending), now, args)
    {
      var callNow := immediate && pending.None?;
      pending := Some(Timer(now + wait, args));
      fired := None;
      if callNow {
        fired := Some(args);
      }
    }

    /** The event loop at `now`: runs the pending timer if it is due. */
    method Elapse(now: nat) returns (fired: Option<A>)
      modifies this
      ensures Step(pending, fired) == TimerStep(immediate, old(pending), now)
    {
      fired := None;
      if pending.Some? && pending.value.deadline <= now {
        var later := pending.value;
        pending := None;
        if !immediate {
          fired := Some(later.args);
        }
      }
    }
  }
}
