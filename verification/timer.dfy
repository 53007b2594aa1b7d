/** A model of the countdown `Timer` of src/timer.rs.

The wall clock is an explicit `now: nat` argument, durations and instants are
natural numbers, and the spawned sleep task is a value (`Task`) recording the
delay it was given.  The expiry the task would deliver is the explicit
transition `Finished`, applied by whoever plays the runtime.  Callbacks are
data (`Callback`), and every call of `event` is recorded as an `Emission`
listing the callbacks it invoked, in order, with the snapshot they observed.
 */
module Timers {

  datatype Option<T> = None | Some(value: T)

  /** The phase a timer counts down: this program knows only two. */
  datatype TimerType = Work | Break

  datatype TimerEvent = Finish | Start | Pause | Stop

  datatype TimerState = Running | Paused | Stopped

  /** A registered callback.  `Send(msg)` sends `msg` on a channel (the only
      kind the controller registers); `Observer(id)` is any other callback,
      known only by its identity. */
  datatype Callback = Send(msg: string) | Observer(id: nat)

  /** The spawned task: it sleeps `delay` from instant `spawnedAt`, then
      calls `finished` unless it has been aborted. */
  datatype Task = Task(delay: nat, spawnedAt: nat, aborted: bool)

  datatype Timer = Timer(
    remaining: nat,
    handle: Option<Task>,
    state: TimerState,
    lastStartedAt: Option<nat>,
    timerType: TimerType,
    handlers: map<TimerEvent, seq<Callback>>)

  /** One call of `event`: the callbacks it invoked, in order, and the timer
      they were handed (as its handler-free snapshot). */
  datatype Emission = Emission(event: TimerEvent, invoked: seq<Callback>, seen: Timer)

  /** The result of a transition: the new timer and the events it emitted. */
  datatype Step = Step(timer: Timer, emitted: seq<Emission>)

  /** The handlers registered for `e`, in registration order. */
  function HandlersFor(t: Timer, e: TimerEvent): seq<Callback>
  {
    if e in t.handlers then t.handlers[e] else []
  }

  /** What a running timer owes its scheduled task: a start instant, and a
      live task whose delay is exactly the remaining time it was started with. */
  predicate Valid(t: Timer)
  {
    t.state == Running ==>
      t.lastStartedAt.Some? && t.handle == Some(Task(t.remaining, t.lastStartedAt.value, false))
  }

  function New(timerType: TimerType, duration: nat): (t: Timer)
    ensures t.state == Stopped && t.remaining == duration
    ensures t.lastStartedAt == None && t.handle == None
    ensures t.timerType == timerType
    ensures forall e :: HandlersFor(t, e) == []
    ensures forall now :: TimeLeft(t, now) == duration
    ensures Valid(t)
  {
    Timer(duration, None, Stopped, None, timerType, map[])
  }

  /** Time since the last start while running; zero otherwise.  Like
      `Instant::elapsed`, it saturates at zero for an instant in the future. */
  function Elapsed(t: Timer, now: nat): nat
  {
    match t.state
    case Running =>
      (match t.lastStartedAt
       case Some(s) => if s <= now then now - s else 0
       case None => 0)
    case _ => 0
  }

  function TimeLeft(t: Timer, now: nat): (r: nat)
    ensures r <= t.remaining
    ensures t.state != Running ==> r == t.remaining
    ensures r + Elapsed(t, now) >= t.remaining
    ensures r > 0 ==> r + Elapsed(t, now) == t.remaining
  {
    var elapsed := Elapsed(t, now);
    if elapsed <= t.remaining then t.remaining - elapsed else 0
  }

  /** The handler-free snapshot with no task handle. */
  function Clone(t: Timer): (r: Timer)
    ensures r.handle == None
    ensures forall e :: HandlersFor(r, e) == []
    ensures r.remaining == t.remaining && r.state == t.state
    ensures r.lastStartedAt == t.lastStartedAt && r.timerType == t.timerType
    ensures forall now :: TimeLeft(r, now) == TimeLeft(t, now)
  {
    t.(handle := None, handlers := map[])
  }

  /** The single call `event(e)` on `t`; `Emit` is its loop form. */
  function Event(t: Timer, e: TimerEvent): (r: Emission)
  {
    Emission(e, HandlersFor(t, e), Clone(t))
  }

  /** The loop of `event`: invoking every handler of `e` in turn.  The result
      lists the invocations in the order they happen. */
  method Emit(t: Timer, e: TimerEvent) returns (invoked: seq<Callback>)
    ensures invoked == Event(t, e).invoked
    ensures forall i :: 0 <= i < |invoked| ==> invoked[i] in t.handlers[e]
  {
    invoked := [];
    if e in t.handlers {
      var handlers := t.handlers[e];
      var i := 0;
      while i < |handlers|
        invariant 0 <= i <= |handlers|
        invariant invoked == handlers[..i]
      {
        invoked := invoked + [handlers[i]];
        i := i + 1;
      }
    }
  }

  function On(t: Timer, e: TimerEvent, cb: Callback): (r: Timer)
    ensures HandlersFor(r, e) == HandlersFor(t, e) + [cb]
    ensures forall e' :: e' != e ==> HandlersFor(r, e') == HandlersFor(t, e')
    ensures r.(handlers := t.handlers) == t
  {
    t.(handlers := t.handlers[e := HandlersFor(t, e) + [cb]])
  }

  function Abort(h: Option<Task>): (r: Option<Task>)
    ensures r.None? <==> h.None?
    ensures r.Some? ==> r.value == h.value.(aborted := true)
  {
    match h
    case Some(task) => Some(task.(aborted := true))
    case None => None
  }

  function StartTimer(t: Timer, now: nat): (r: Step)
    ensures t.state == Running ==> r == Step(t, [])
    ensures t.state != Running ==>
      && r.timer.state == Running
      && r.timer.remaining == t.remaining
      && r.timer.lastStartedAt == Some(now)
      && r.timer.handle == Some(Task(TimeLeft(t, now), now, false))
      && r.timer.timerType == t.timerType
      && r.timer.handlers == t.handlers
      && r.emitted == [Emission(TimerEvent.Start, HandlersFor(t, TimerEvent.Start), Clone(r.timer))]
    ensures TimeLeft(r.timer, now) == TimeLeft(t, now)
    ensures Valid(t) ==> Valid(r.timer)
  {
    if t.state == Running then Step(t, [])
    else
      var delay := TimeLeft(t, now);
      var t' := t.(handle := Some(Task(delay, now, false)), lastStartedAt := Some(now), state := Running);
      Step(t', [Event(t', TimerEvent.Start)])
  }

  function StopTimer(t: Timer): (r: Step)
    ensures r.timer.state == Stopped
    ensures r.timer.remaining == t.remaining
    ensures r.timer.handle == Abort(t.handle)
    ensures r.timer.lastStartedAt == t.lastStartedAt && r.timer.timerType == t.timerType
    ensures r.timer.handlers == t.handlers
    ensures r.emitted == [Emission(TimerEvent.Stop, HandlersFor(t, TimerEvent.Stop), Clone(r.timer))]
    ensures forall now :: TimeLeft(r.timer, now) == t.remaining
    ensures forall now :: !ExpiryDue(r.timer, now)
    ensures Valid(r.timer)
  {
    var t' := t.(state := Stopped, handle := Abort(t.handle));
    Step(t', [Event(t', TimerEvent.Stop)])
  }

  function PauseTimer(t: Timer, now: nat): (r: Step)
    ensures t.state != Running ==> r == Step(t, [])
    ensures t.state == Running ==>
      && r.timer.state == Paused
      && r.timer.remaining == TimeLeft(t, now)
      && r.timer.handle == Abort(t.handle)
      && r.timer.lastStartedAt == t.lastStartedAt && r.timer.timerType == t.timerType
      && r.timer.handlers == t.handlers
      && r.emitted == [Emission(TimerEvent.Pause, HandlersFor(t, TimerEvent.Pause), Clone(r.timer))]
      && forall now' :: !ExpiryDue(r.timer, now')
    ensures r.timer.remaining <= t.remaining
    ensures TimeLeft(r.timer, now) == TimeLeft(t, now)
    ensures Valid(t) ==> Valid(r.timer)
  {
    if t.state == Running then
      var t' := t.(remaining := TimeLeft(t, now), handle := Abort(t.handle), state := Paused);
      Step(t', [Event(t', TimerEvent.Pause)])
    else Step(t, [])
  }

  /** The expiry the spawned task delivers after its sleep. */
  function Finished(t: Timer): (r: Step)
    ensures r.timer.state == Stopped && r.timer.remaining == 0
    ensures r.timer.handle == t.handle && r.timer.lastStartedAt == t.lastStartedAt
    ensures r.timer.timerType == t.timerType && r.timer.handlers == t.handlers
    ensures r.emitted == [Emission(TimerEvent.Finish, HandlersFor(t, TimerEvent.Finish), Clone(r.timer))]
    ensures forall now :: TimeLeft(r.timer, now) == 0
    ensures Valid(r.timer)
  {
    var t' := t.(remaining := 0, state := Stopped);
    Step(t', [Event(t', TimerEvent.Finish)])
  }

  /** The task is due: its sleep has run out and nobody aborted it. */
  predicate ExpiryDue(t: Timer, now: nat)
  {
    t.handle.Some? && !t.handle.value.aborted && t.handle.value.spawnedAt + t.handle.value.delay <= now
  }

  /** While running, the time left never grows as the clock advances. */
  lemma TimeLeftNonIncreasing(t: Timer, n1: nat, n2: nat)
    requires t.state == Running
    requires n1 <= n2
    ensures TimeLeft(t, n2) <= TimeLeft(t, n1)
  {
  }

  /** When the scheduled task of a running timer is due, the time left is
      exactly zero, so `Finished` zeroing `remaining` agrees with it. */
  lemma ExpiryMeetsZero(t: Timer, now: nat)
    requires Valid(t) && t.state == Running
    requires ExpiryDue(t, now)
    ensures TimeLeft(t, now) == 0
    ensures TimeLeft(Finished(t).timer, now) == TimeLeft(t, now)
  {
  }

  /** Pausing and immediately resuming loses no time. */
  lemma PauseThenStartLossless(t: Timer, now: nat)
    ensures TimeLeft(StartTimer(PauseTimer(t, now).timer, now).timer, now) == TimeLeft(t, now)
    ensures StartTimer(PauseTimer(t, now).timer, now).timer.state == Running
  {
  }

  /** `stop` keeps `remaining` as of the last start or pause, so a restart
      counts down from there again, discarding the time run since. */
  lemma StopThenStartRestoresRemaining(t: Timer, now: nat)
    ensures StartTimer(StopTimer(t).timer, now).timer.remaining == t.remaining
    ensures TimeLeft(StartTimer(StopTimer(t).timer, now).timer, now) == t.remaining
    ensures StartTimer(StopTimer(t).timer, now).emitted[0].event == TimerEvent.Start
  {
  }

  /** Starting twice is starting once: the second call is a no-op and emits nothing. */
  lemma StartIdempotent(t: Timer, now: nat, later: nat)
    ensures StartTimer(StartTimer(t, now).timer, later) == Step(StartTimer(t, now).timer, [])
  {
  }

  /** The timer after a run of `on` calls, applied in order. */
  function OnAll(t: Timer, regs: seq<(TimerEvent, Callback)>): Timer
    decreases |regs|
  {
    if regs == [] then t
    else OnAll(On(t, regs[0].0, regs[0].1), regs[1..])
  }

  /** The callbacks in `regs` registered for `e`, in order. */
  function RegisteredFor(regs: seq<(TimerEvent, Callback)>, e: TimerEvent): seq<Callback>
    decreases |regs|
  {
    if regs == [] then []
    else (if regs[0].0 == e then [regs[0].1] else []) + RegisteredFor(regs[1..], e)
  }

  /** `event(e)` invokes exactly the handlers registered for `e`, in the
      order of the `on` calls, whatever was registered for other events in between. */
  lemma {:induction false} EventFiresInRegistrationOrder(t: Timer, regs: seq<(TimerEvent, Callback)>, e: TimerEvent)
    ensures Event(OnAll(t, regs), e).invoked == HandlersFor(t, e) + RegisteredFor(regs, e)
    ensures OnAll(t, regs).(handlers := t.handlers) == t
    decreases |regs|
  {
    if regs != [] {
      var t1 := On(t, regs[0].0, regs[0].1);
      EventFiresInRegistrationOrder(t1, regs[1..], e);
      if regs[0].0 == e {
        assert HandlersFor(t1, e) == HandlersFor(t, e) + [regs[0].1];
      } else {
        assert HandlersFor(t1, e) == HandlersFor(t, e);
      }
    }
  }

  /** A fresh timer fires, for each event, exactly what was registered for it. */
  lemma NewTimerFiresOnlyRegistered(timerType: TimerType, duration: nat, regs: seq<(TimerEvent, Callback)>, e: TimerEvent)
    ensures Event(OnAll(New(timerType, duration), regs), e).invoked == RegisteredFor(regs, e)
  {
    EventFiresInRegistrationOrder(New(timerType, duration), regs, e);
  }
}
