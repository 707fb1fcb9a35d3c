/** `ActivityTracker`: remembers when the user last did something in the
    page and answers whether the page has been idle for longer than its
    timeout. One debounced handler, shared by every observed event name,
    stamps the time of activity. Time is explicit: `now` stands for
    `Date.now()`. */
module Activity {
  import opened Outcomes
  import opened Debounce
  import Settings

  /** The event names observed when the constructor is given none. */
  const DefaultEvents: seq<string> := ["click", "keydown", "mousemove"]

  /** The `isIdle` test: strictly more than `timeout` ms have passed since
      the last activity. */
  function Idle(lastActivity: int, timeout: int, now: int): bool
  {
    now - lastActivity > timeout
  }

  /** The comparison is strict: exactly `timeout` ms after the last
      activity the page is not idle yet, one millisecond later it is. */
  lemma IdleIsStrict(lastActivity: int, timeout: int)
    ensures !Idle(lastActivity, timeout, lastActivity + timeout)
    ensures Idle(lastActivity, timeout, lastActivity + timeout + 1)
  {
  }

  /** Without new activity, idleness only grows with time; and with a
      non-negative timeout a page is never idle at the instant of its last
      activity. */
  lemma IdleIsMonotone(lastActivity: int, timeout: int, now: int, later: int)
    requires now <= later
    ensures Idle(lastActivity, timeout, now) ==> Idle(lastActivity, timeout, later)
    ensures timeout >= 0 ==> !Idle(lastActivity, timeout, lastActivity)
  {
  }

  /** The set of names a sequence of event names holds. */
  function Names(events: seq<string>): set<string>
  {
    set e | e in events
  }

  class ActivityTracker {
    var lastActivity: nat
    const timeout: int
    const events: seq<string>
    /** The debounced `() => this.update()`, coalescing over 500 ms. */
    const updater: Debouncer<()>
    /** The event names under which `updater` is registered on the observed
        element. Registering the same listener twice for one name leaves
        one registration, so this is a set. */
    var listening: set<string>

    ghost predicate Valid()
      reads this
    {
      && listening <= Names(events)
      && updater.wait == Settings.DebounceWait
      && !updater.immediate
    }

    /** Stamps the current time, wraps `update` in a trailing-mode debounce
        and observes nothing yet. The timeout is taken as given. */
    constructor (timeout: int, now: nat, events: seq<string> := DefaultEvents)
      ensures Valid() && fresh(updater)
      ensures lastActivity == now && this.timeout == timeout && this.events == events
      ensures listening == {} && updater.pending.None?
      ensures timeout >= 0 ==> !IsIdle(now)
    {
      lastActivity := now;
      this.timeout := timeout;
      this.events := events;
      updater := new Debouncer(Settings.DebounceWait, false);
      listening := {};
    }

    /** `update`: the last activity is now. */
    method Update(now: nat)
      requires Valid()
      modifies this`lastActivity
      ensures Valid()
      ensures lastActivity == now
      ensures timeout >= 0 ==> !IsIdle(now)
    {
      lastActivity := now;
    }

    /** `start`: registers the shared handler for every observed name. */
    method Start()
      requires Valid()
      modifies this`listening
      ensures Valid()
      ensures listening == old(listening) + Names(events)
    {
      listening := listening + Names(events);
    }

    /** `stop`: removes the shared handler for every observed name, so
        a tracker whose registrations all came from `start` observes
        nothing afterwards. */
    method Stop()
      requires Valid()
      modifies this`listening
      ensures Valid()
      ensures listening == old(listening) - Names(events)
      ensures listening == {}
    {
      listening := listening - Names(events);
    }

    /** `isIdle` at time `now`. */
    function IsIdle(now: nat): bool
      reads this
    {
      Idle(lastActivity, timeout, now)
    }

    /** The element dispatches event `name` at `now`: the debounced handler
        runs if it is registered for that name. In trailing mode that only
        re-arms its timer; the last activity is untouched. */
    method OnEvent(name: string, now: nat)
      requires Valid()
      modifies this`lastActivity, updater
      ensures Valid()
      ensures lastActivity == old(lastActivity)
      ensures updater.pending ==
              if name in listening then Some(Timer(now + Settings.DebounceWait, ())) else old(updater.pending)
    {
      if name in listening {
        // Trailing mode: the call never applies `update` at once.
        var fired := updater.Call(now, ());
        assert fired.None?;
      }
    }

    /** The event loop reaches `now`: if the debounced handler's timer is
        due it runs `update`, stamping the time at which it runs; otherwise
        nothing changes. A timer armed before `stop` still runs. */
    method Elapse(now: nat)
      requires Valid()
      modifies this`lastActivity, updater
      ensures Valid()
      ensures updater.pending == TimerStep(false, old(updater.pending), now).pending
      ensures lastActivity ==
              if old(updater.pending).Some? && old(updater.pending).value.deadline <= now
              then now else old(lastActivity)
    {
      var fired := updater.Elapse(now);
      if fired.Some? {
        Update(now);
      }
    }
  }

  /** A burst of activity, each event less than 500 ms after the one
      before, then the event loop: nothing is stamped until 500 ms after
      the last event, and the stamp is the time the timer runs. After
      `stop`, further events are not observed. */
  method ScenarioActivityBurst()
  {
    var tracker := new ActivityTracker(Settings.IdleTimeout, 0);
    tracker.Start();
    tracker.OnEvent("click", 1000);
    tracker.OnEvent("mousemove", 1400);
    tracker.Elapse(1500);
    assert tracker.lastActivity == 0;
    tracker.OnEvent("keydown", 1800);
    tracker.Elapse(2299);
    assert tracker.lastActivity == 0;
    tracker.Elapse(2300);
    assert tracker.lastActivity == 2300;
    tracker.Elapse(2400);
    assert tracker.lastActivity == 2300;
    tracker.Stop();
    tracker.OnEvent("keydown", 5000);
    tracker.Elapse(6000);
    assert tracker.lastActivity == 2300;
    assert tracker.IsIdle(2300 + Settings.IdleTimeout + 1);
    assert !tracker.IsIdle(2300 + Settings.IdleTimeout);
  }
}
