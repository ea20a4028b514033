/** The resettable one-shot timer over a virtual clock. */
module ResettableTimer {
  import opened Wrappers

  datatype Status = Idle | Waiting | WasReset | Cancelled | Running

  /** The fields of the timer. */
  datatype Fields = Fields(status: Status, startTime: int, resetInterval: int)

  /** What the timer goroutine does when its sleep is over. */
  datatype Wakeup = Stop | SleepAgain(length: int) | RunJob

  function Begun(now: int): Fields {
    Fields(Waiting, now, 0)
  }

  function Woken(f: Fields): Wakeup {
    if f.status == Cancelled then Stop
    else if f.status == WasReset && f.resetInterval > 0 then SleepAgain(f.resetInterval)
    else RunJob
  }

  /** A reset while the timer sleeps moves the start time and adds up the distance. */
  function ResetAt(f: Fields, now: int): Fields
    requires f.status == Waiting || f.status == WasReset
  {
    Fields(WasReset, now, f.resetInterval + (now - f.startTime))
  }

  /** A timer that was reset in its current window ignores the cancellation. */
  function CancelledNow(f: Fields): Fields {
    if f.status == Waiting || f.status == Running then f.(status := Cancelled) else f
  }

  class CTimer {
    const interval: int
    var status: Status
    var startTime: int
    var resetInterval: int

    ghost function View(): Fields
      reads this
    {
      Fields(status, startTime, resetInterval)
    }

    constructor (interval: int)
      ensures this.interval == interval && status == Idle
    {
      this.interval := interval;
      status, startTime, resetInterval := Idle, 0, 0;
    }

    /** `waitAndRun` up to its sleep; a cancelled timer does not begin. */
    method BeginWindow(now: int) returns (sleeps: bool)
      modifies this
      ensures sleeps == (old(status) != Cancelled)
      ensures View() == if sleeps then Begun(now) else old(View())
      ensures sleeps ==> status == Waiting && startTime == now && resetInterval == 0
    {
      if status == Cancelled {
        return false;
      }
      resetInterval := 0;
      startTime := now;
      status := Waiting;
      return true;
    }

    /** `waitAndRun` after its sleep. */
    method Wake() returns (w: Wakeup)
      modifies this
      ensures w == Woken(old(View()))
      ensures w == Stop <==> old(status) == Cancelled
      ensures w.SleepAgain? <==> old(status) == WasReset && old(resetInterval) > 0
      ensures w.SleepAgain? ==> w.length == old(resetInterval)
      ensures View() == old(View()).(status := if w.Stop? then Idle else if w.RunJob? then Running else old(status))
    {
      if status == Cancelled {
        status := Idle;
        return Stop;
      }
      if status == WasReset && resetInterval > 0 {
        return SleepAgain(resetInterval);
      }
      status := Running;
      return RunJob;
    }

    /** Returns whether the caller has to start the timer anew. */
    method Reset(now: int) returns (starts: bool)
      modifies this
      ensures starts == (old(status) == Idle)
      ensures View() == if old(status) in {Waiting, WasReset} then ResetAt(old(View()), now) else old(View())
    {
      if status == Waiting || status == WasReset {
        status := WasReset;
        var previousTime := startTime;
        startTime := now;
        resetInterval := resetInterval + (startTime - previousTime);
        return false;
      }
      return status == Idle;
    }

    method Cancel()
      modifies this
      ensures status == if old(status) in {Waiting, Running} then Cancelled else old(status)
      ensures View() == CancelledNow(old(View()))
    {
      if status == Waiting || status == Running {
        status := Cancelled;
      }
    }
  }

  // ----- Runs on a virtual clock -----

  /** One timer with the window it sleeps through.  `lastReset` is the time of the last reset
      that counted (the start of the timer, if there was none), `lastLength` the length of
      the window it fell in, `firstWindow` whether that was the first one, and `fire` the
      time at which the job ran. */
  datatype Clock = Clock(
    f: Fields, interval: int, now: int, windowStart: int, windowLength: int,
    lastReset: int, lastLength: int, firstWindow: bool, inFirst: bool, fire: Option<int>)

  datatype Event = Reset(time: int) | Cancel(time: int) | WakeUp

  function Started(interval: int, now: int): Clock {
    Clock(Begun(now), interval, now, now, interval, now, interval, true, true, None)
  }

  predicate Sleeping(c: Clock) {
    c.f.status != Idle && c.f.status != Running
  }

  function Deadline(c: Clock): int {
    c.windowStart + c.windowLength
  }

  /** Resets and cancellations come in order and before the sleep ends; after it has ended for
      good nothing more is considered. */
  predicate Enabled(c: Clock, e: Event) {
    Sleeping(c) && (!e.WakeUp? ==> c.now <= e.time <= Deadline(c))
  }

  function Step(c: Clock, e: Event): Clock
    requires Enabled(c, e)
  {
    match e
    case Reset(t) =>
      if c.f.status == Cancelled then c.(now := t)
      else c.(f := ResetAt(c.f, t), now := t, lastReset := t, lastLength := c.windowLength, firstWindow := c.inFirst)
    case Cancel(t) =>
      c.(f := CancelledNow(c.f), now := t)
    case WakeUp =>
      var end := Deadline(c);
      match Woken(c.f)
      case Stop => c.(f := c.f.(status := Idle), now := end)
      case SleepAgain(length) =>
        c.(f := Begun(end), now := end, windowStart := end, windowLength := length, inFirst := false)
      case RunJob => c.(f := c.f.(status := Running), now := end, fire := Some(end))
  }

  /** Every event is enabled when it happens. */
  ghost predicate Possible(c: Clock, events: seq<Event>)
    decreases |events|
  {
    events == [] || (Enabled(c, events[0]) && Possible(Step(c, events[0]), events[1..]))
  }

  ghost function Run(c: Clock, events: seq<Event>): Clock
    requires Possible(c, events)
    decreases |events|
  {
    if events == [] then c else Run(Step(c, events[0]), events[1..])
  }

  /** While the timer sleeps uncancelled, the accumulated intervals telescope to the distance
      from the window's start to its last reset, and what the timer is heading for is the
      last reset plus the length of the window that reset fell in. */
  ghost predicate Inv(c: Clock) {
    && c.windowStart <= c.f.startTime <= c.now <= Deadline(c)
    && 0 <= c.windowLength <= c.interval
    && c.f.resetInterval == c.f.startTime - c.windowStart
    && (c.firstWindow ==> c.lastLength == c.interval) && (c.inFirst ==> c.firstWindow && c.windowLength == c.interval)
    && (Sleeping(c) ==> c.fire == None)
    && (c.f.status == Waiting ==> c.f.resetInterval == 0 && Deadline(c) == c.lastReset + c.lastLength)
    && (c.f.status == WasReset ==> c.lastReset == c.f.startTime && c.lastLength == c.windowLength)
    && (c.f.status == Running ==> c.fire == Some(c.lastReset + c.lastLength))
    && (c.f.status in {Idle, Cancelled} ==> c.fire == None)
  }

  lemma StepKeepsInv(c: Clock, e: Event)
    requires Inv(c) && Enabled(c, e)
    ensures Inv(Step(c, e))
    ensures Step(c, e).windowLength <= c.windowLength
  {
  }

  lemma {:induction false} RunKeepsInv(c: Clock, events: seq<Event>)
    requires Inv(c) && Possible(c, events)
    ensures Inv(Run(c, events))
    ensures Run(c, events).windowLength <= c.windowLength && Run(c, events).interval == c.interval
    decreases |events|
  {
    if events != [] {
      StepKeepsInv(c, events[0]);
      RunKeepsInv(Step(c, events[0]), events[1..]);
    }
  }

  predicate NoCancel(events: seq<Event>) {
    forall i :: 0 <= i < |events| ==> !events[i].Cancel?
  }

  lemma {:induction false} NeverCancelled(c: Clock, events: seq<Event>)
    requires NoCancel(events) && Possible(c, events) && c.f.status in {Waiting, WasReset}
    ensures Run(c, events).f.status in {Waiting, WasReset, Running}
    decreases |events|
  {
    if events != [] {
      var c' := Step(c, events[0]);
      if c'.f.status == Running {
        assert events[1..] == [];
      } else {
        NeverCancelled(c', events[1..]);
      }
    }
  }

  /** The time of the last reset among the events, or `start`. */
  function LastReset(events: seq<Event>, start: int): int
    decreases |events|
  {
    if events == [] then start else LastReset(events[1..], if events[0].Reset? then events[0].time else start)
  }

  lemma {:induction false} LastResetIsRecorded(c: Clock, events: seq<Event>)
    requires NoCancel(events) && Possible(c, events) && c.f.status in {Waiting, WasReset, Running}
    ensures Run(c, events).lastReset == LastReset(events, c.lastReset)
    decreases |events|
  {
    if events != [] {
      assert c.f.status != Running;
      LastResetIsRecorded(Step(c, events[0]), events[1..]);
    }
  }

  /** No reset comes after a wake-up: all of them fall in the first window. */
  predicate ResetsFirst(events: seq<Event>) {
    forall i, j :: 0 <= i < j < |events| && events[i].WakeUp? ==> !events[j].Reset?
  }

  predicate NoReset(events: seq<Event>) {
    forall i :: 0 <= i < |events| ==> !events[i].Reset?
  }

  lemma {:induction false} StaysInFirstWindow(c: Clock, events: seq<Event>)
    requires Possible(c, events) && c.firstWindow && (NoReset(events) || (c.inFirst && ResetsFirst(events)))
    ensures Run(c, events).firstWindow
    decreases |events|
  {
    if events != [] {
      var rest := events[1..];
      assert forall i :: 0 <= i < |rest| ==> rest[i] == events[i + 1];
      assert events[0].WakeUp? ==> NoReset(rest);
      StaysInFirstWindow(Step(c, events[0]), rest);
    }
  }

  /** For every run of a one-shot timer without a cancellation: it is still asleep, or the
      job ran once, at the last reset plus the length of the window that reset fell in; that
      is the last reset plus the interval exactly if that window had its full length, as it
      has when all resets fall in the first window. */
  lemma FireTime(interval: int, start: int, events: seq<Event>)
    requires 0 <= interval && NoCancel(events) && Possible(Started(interval, start), events)
    ensures var c := Run(Started(interval, start), events);
            && c.f.resetInterval == c.f.startTime - c.windowStart
            && (c.fire.Some? <==> !Sleeping(c))
            && (c.fire.Some? ==> c.fire.value == c.lastReset + c.lastLength)
            && (c.fire.Some? ==> (c.fire.value == c.lastReset + interval <==> c.lastLength == interval))
            && c.lastReset == LastReset(events, start)
            && (ResetsFirst(events) ==> c.lastLength == interval)
            && c.windowLength <= interval
  {
    RunKeepsInv(Started(interval, start), events);
    LastResetIsRecorded(Started(interval, start), events);
    if ResetsFirst(events) {
      StaysInFirstWindow(Started(interval, start), events);
    }
    NeverCancelled(Started(interval, start), events);
  }

  /** Left alone, a sleeping timer fires after at most two wake-ups. */
  lemma FiresWhenLeftAlone(c: Clock)
    requires Inv(c) && c.f.status in {Waiting, WasReset}
    ensures var c1 := Step(c, WakeUp); c1.fire.Some? || Step(c1, WakeUp).fire.Some?
  {
  }

  /** A cancellation stops a sleeping timer exactly when it was not reset in the window. */
  lemma CancelExact(c: Clock, t: int)
    requires Inv(c) && c.f.status in {Waiting, WasReset} && c.now <= t <= Deadline(c)
    ensures var c1 := Step(c, Cancel(t));
            (Step(c1, WakeUp).f.status == Idle && Step(c1, WakeUp).fire == None) <==> c.f.status == Waiting
  {
  }
}
