# Pyng keep-alive loop, modelled in Dafny

`dog_app_files/pyng.js` is a Jupyter notebook extension. It keeps a remote
session alive while the user is active. Every two minutes a tick asks an
activity tracker whether the notebook has been idle for more than thirty
minutes. If it has, the tick stops the loop. If it has not, the tick sends a
keep-alive POST, making up to six attempts with 15 seconds between them.

The model has one module per component:

- `Outcomes` (`outcomes.dfy`): `Option`, and `Outcome` (a promise that resolves
  with a value or rejects with an error).
- `Settings` (`settings.dfy`): the four constants the core uses from the top of
  the file, plus the 500 ms coalescing window of the activity handler.
- `Retrying` (`retrying.dfy`): `retry` as a recursive function over the
  outcomes of successive invocations. It returns how the promise settles and a
  trace of `Invoke`/`Sleep` steps.
- `Debounce` (`debounce.dfy`): `debounce` as the class `Debouncer`, whose field
  is the closure's pending timer. The class is proved against the pure step
  functions `CallStep` and `TimerStep`. Lemmas about `Run`, the wrapper fed a
  sequence of calls and time steps, state the burst behaviour.
- `Activity` (`activity.dfy`): `ActivityTracker` as a class. It owns its
  `Debouncer` and holds the set of event names its handler is registered
  under. `Idle` is the `isIdle` test.
- `Pyng` (`pyng.dfy`): the keep-alive status test `KeepAlive`, and the class
  `Pyng` with `Stop` and the `checkIdle` tick `Tick`.

Time is always an explicit `now` in milliseconds. A keep-alive request is
modelled by the response it receives. The tick timer is modelled by a flag
that says whether it is still scheduled. The client methods
`ScenarioActivityBurst`, `ScenarioIdleAtFirstTick`, `ScenarioThreeBusyTicks`
and `ScenarioRetriesExhausted` show what callers can prove from the contracts.

Where the code and the intended design differ, the model follows the code:

- Retry exhaustion does not stop the loop. The tick's `.catch(reject)`
  (pyng.js:51) only rejects the `mainLoop` promise, and the tick timer keeps
  running. The handler for that rejection (pyng.js:22-24) logs the undefined
  identifier `error`. That throws before `this.stop()` runs, so a rejection
  has no further effect. `Pyng.Tick` records the rejection and leaves `ticking`
  true.
- The debounced `update` stamps the time at which its timer runs
  (`Date.now()` inside `update`), not the time of the last event in the burst.
  `ActivityTracker.Elapse` stamps `now`.
- Adding the same listener twice for one event name leaves one registration.
  So `start` called twice does not register twice, and the registrations are
  a set.
- The constructor does not validate `timeout`. The model accepts any integer,
  and the "not idle right after an update" facts assume `timeout >= 0`.
- `stop` removes the listeners but not a debounce timer that is already armed.
  That timer still runs once and stamps the activity time.

## Model

| member | source | states |
|---|---|---|
| `Retrying.Attempts` | dog_app_files/pyng.js:141-151 | the number of invocations `retry` allows is `count`, but never fewer than one |
| `Retrying.Retry` | dog_app_files/pyng.js:139-156 | the invocations are a prefix of the outcomes, at least one and at most `Attempts(count)`; every invocation but the last failed; the result is the last invocation's outcome; it stops before the limit only on a success |
| `Retrying.RetryStopsAtFirstSuccess` | dog_app_files/pyng.js:142-147 | if the first success is at invocation `k` within the limit, `retry` resolves with it after exactly `k + 1` invocations and `k` sleeps of `delay` |
| `Retrying.RetryExhausted` | dog_app_files/pyng.js:144-151 | if every allowed invocation fails, there are exactly `Attempts(count)` invocations, `(Attempts(count) - 1) * delay` of sleep, and the rejection carries the last error |
| `Retrying.RetrySucceedsIff` | dog_app_files/pyng.js:139-156 | `retry` resolves exactly when some invocation within the limit succeeds |
| `Retrying.RetrySleepsBetweenAttempts` | dog_app_files/pyng.js:144-151 | a trace starts and ends with an invocation; each non-final invocation failed and is followed by a sleep of `delay`; each sleep sits between a failure and the next invocation |
| `Retrying.RetrySleepTotal` | dog_app_files/pyng.js:145-147 | the total sleep is `delay` times the number of invocations after the first |
| `Debounce.CallStep` | dog_app_files/pyng.js:166-169 | a call replaces any pending timer with one due `wait` after it that carries its arguments; `func` runs at once exactly in immediate mode with nothing pending |
| `Debounce.TimerStep` | dog_app_files/pyng.js:162-165 | a due timer is cleared when it runs and applies `func` to its arguments exactly in trailing mode; a timer that is not yet due is left alone |
| `Debounce.BurstDefers` | dog_app_files/pyng.js:157-171 | during a burst of calls, each less than `wait` after the previous one, nothing runs, and one timer is pending: due `wait` after the last call, with that call's arguments |
| `Debounce.TrailingBurstFiresOnce` | dog_app_files/pyng.js:157-171 | trailing mode: a burst applies `func` exactly once, with the last call's arguments, once time reaches `wait` after the last call; then nothing is pending and later time applies nothing |
| `Debounce.LeadingBurstFiresOnce` | dog_app_files/pyng.js:157-171 | immediate mode: the same burst applies `func` exactly once, at the first call with its arguments, and the final timer applies nothing |
| `Debounce.Debouncer.constructor` | dog_app_files/pyng.js:157-158 | a new wrapper keeps `wait` and `immediate` and has no pending timer |
| `Debounce.Debouncer.Call` | dog_app_files/pyng.js:159-170 | the new pending timer and the immediate application are those of `CallStep` |
| `Debounce.Debouncer.Elapse` | dog_app_files/pyng.js:162-165 | the new pending timer and the application of `func` are those of `TimerStep` |
| `Activity.IdleIsStrict` | dog_app_files/pyng.js:131-134 | exactly `timeout` ms after the last activity the page is not idle; one millisecond later it is |
| `Activity.IdleIsMonotone` | dog_app_files/pyng.js:131-134 | without new activity, once idle a page stays idle; with a non-negative timeout it is never idle at the instant of its last activity |
| `Activity.ActivityTracker.constructor` | dog_app_files/pyng.js:103-113 | stamps `now`, keeps the timeout and event names (default click, keydown, mousemove), wraps `update` in a 500 ms trailing debounce, registers nothing, and is not idle at `now` |
| `Activity.ActivityTracker.Update` | dog_app_files/pyng.js:115-117 | the last activity becomes `now`, so the tracker is not idle at `now` |
| `Activity.ActivityTracker.Start` | dog_app_files/pyng.js:119-123 | the shared handler is registered for every observed event name |
| `Activity.ActivityTracker.Stop` | dog_app_files/pyng.js:125-129 | the registrations for the observed names are removed, leaving none |
| `Activity.ActivityTracker.OnEvent` | dog_app_files/pyng.js:112 | an event on a registered name re-arms the handler's timer for 500 ms later; the last activity does not change |
| `Activity.ActivityTracker.Elapse` | dog_app_files/pyng.js:112-117 | when the handler's timer is due it runs `update`, stamping the time it runs; otherwise the last activity does not change |
| `Pyng.KeepAlive` | dog_app_files/pyng.js:74-89 | a request succeeds exactly when its response loads with a status in [200, 300); every other case fails with the status and status text |
| `Pyng.WorstCaseRetryFitsInTick` | dog_app_files/pyng.js:2-5 | with the file's settings, a tick whose requests all fail sends six requests, sleeps 75000 ms (less than the 120000 ms tick period) and rejects with the sixth failure |
| `Pyng.TickStopsAtFirstSuccess` | dog_app_files/pyng.js:50 | a tick whose `k`-th request is the first success sends exactly `k + 1` requests and resolves with that response body |
| `Pyng.Pyng.constructor` | dog_app_files/pyng.js:10-15 | creates a tracker with the 30-minute timeout and the default names, and starts it |
| `Pyng.Pyng.MainLoop` | dog_app_files/pyng.js:45-59 | stores the token, arms the tick timer under a non-zero handle (browsers never hand out 0) and leaves the loop's promise pending |
| `Pyng.Pyng.Stop` | dog_app_files/pyng.js:62-66 | clears the tick timer and removes all listeners; on a stopped loop it changes nothing |
| `Pyng.Pyng.Tick` | dog_app_files/pyng.js:48-58 | when idle: stops, resolves the promise and sends nothing; otherwise: runs exactly one retry sequence of keep-alives with six attempts and 15000 ms delay, rejects the promise on exhaustion, and keeps the timer running |

## Left out

- `getToken` (pyng.js:30-42) runs `curl` against a metadata server in the notebook kernel. It is I/O. The token is a parameter of `Pyng.MainLoop`.
- The XMLHttpRequest mechanics of `keepAlive` (pyng.js:69-73, 90) are network I/O. Only the status test is modelled, in `Pyng.KeepAlive`.
- `saveNotebook` and its autosave timer (pyng.js:26, 94-98) are a thin wrapper over the Jupyter notebook API.
- The Jupyter wiring is left out: the one-shot `kernel_ready.Kernel` handler (pyng.js:18) and the `define`/`load_ipython_extension` hook (pyng.js:174-181). `Pyng.Pyng.MainLoop` requires that the loop has not started, which is what the one-shot handler ensures.
- The observed DOM element is left out. Only the set of event names registered on it is modelled.
- `Date.now()`, `setTimeout`, `setInterval` and promise scheduling are replaced by explicit times, outcome sequences and a `ticking` flag.
- `console.log` output (pyng.js:23, 46, 53, 63) is left out. The `ReferenceError` at pyng.js:23 is modelled only as "the `stop` at pyng.js:24 is not reached".
- Pyng.Pyng.Tick: runs the whole retry sequence before it returns. The source starts the sequence and lets it finish in later turns of the event loop, so a long sequence can overlap the next tick. That concurrency is not modelled.
- Retrying.Retry: `count` is an integer. JavaScript would also accept fractional or non-numeric values.
- Activity.ActivityTracker.OnEvent: states the trailing-mode behaviour only, since the tracker always builds its debounce with `immediate` unset.
