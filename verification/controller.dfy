/** A model of the `Controller` of src/controller.rs.

The controller owns one timer and the two phase durations.  The channel it
shares with its timers' Finish handlers is the FIFO `queue`; the consumer loop
spawned by `start` becomes `ProcessNext`, which takes one message off the
queue and dispatches it.  A callback `Send(msg)` invoked by a timer event
appends `msg` to the queue.
 */
module Controllers {
  import Timers

  const TimerFinished := "timer_finished"
  const Skip := "skip"

  datatype Controller = Controller(
    timer: Timers.Timer,
    queue: seq<string>,
    workDuration: nat,
    breakDuration: nat,
    auto: bool)

  /** The result of an operation: the new controller and every event its
      timers emitted, in order. */
  datatype ControllerStep = ControllerStep(controller: Controller, emitted: seq<Timers.Emission>)

  /** The messages sent, in order, by invoking `invoked`. */
  function SentBy(invoked: seq<Timers.Callback>): (r: seq<string>)
    ensures |r| <= |invoked|
    ensures forall m :: m in r <==> Timers.Send(m) in invoked
  {
    if invoked == [] then []
    else
      (match invoked[0]
       case Send(m) => [m]
       case Observer(_) => []) + SentBy(invoked[1..])
  }

  lemma {:induction false} SentByAppend(a: seq<Timers.Callback>, b: seq<Timers.Callback>)
    ensures SentBy(a + b) == SentBy(a) + SentBy(b)
    decreases |a|
  {
    if a != [] {
      assert (a + b)[1..] == a[1..] + b;
      SentByAppend(a[1..], b);
    } else {
      assert a + b == b;
    }
  }

  /** The messages sent by all the callbacks a run of events invoked. */
  function Sent(emitted: seq<Timers.Emission>): (r: seq<string>)
    ensures forall m :: m in r ==> exists i :: 0 <= i < |emitted| && Timers.Send(m) in emitted[i].invoked
    ensures (forall i :: 0 <= i < |emitted| ==> emitted[i].invoked == []) ==> r == []
    ensures |emitted| == 1 ==> r == SentBy(emitted[0].invoked)
  {
    if emitted == [] then []
    else
      var rest := Sent(emitted[1..]);
      assert forall m :: m in rest ==> exists i :: 1 <= i < |emitted| && Timers.Send(m) in emitted[i].invoked by {
        forall m | m in rest
          ensures exists i :: 1 <= i < |emitted| && Timers.Send(m) in emitted[i].invoked
        {
          var j :| 0 <= j < |emitted[1..]| && Timers.Send(m) in emitted[1..][j].invoked;
          assert Timers.Send(m) in emitted[j + 1].invoked;
        }
      }
      SentBy(emitted[0].invoked) + rest
  }

  /** Running the callbacks of one event in order, each `Send` pushing onto the channel. */
  method Deliver(queue: seq<string>, invoked: seq<Timers.Callback>) returns (q: seq<string>)
    ensures q == queue + SentBy(invoked)
  {
    q := queue;
    var i := 0;
    while i < |invoked|
      invariant 0 <= i <= |invoked|
      invariant q == queue + SentBy(invoked[..i])
    {
      var sent := match invoked[i] case Send(m) => [m] case Observer(_) => [];
      assert SentBy([invoked[i]]) == sent;
      SentByAppend(invoked[..i], [invoked[i]]);
      assert invoked[..i + 1] == invoked[..i] + [invoked[i]];
      q := q + sent;
      i := i + 1;
    }
    assert invoked[..i] == invoked;
  }

  /** The shape every controller-made timer has: one Finish handler, which
      sends `"timer_finished"`, and nothing else. */
  predicate Wired(t: Timers.Timer)
  {
    && Timers.HandlersFor(t, Timers.TimerEvent.Finish) == [Timers.Send(TimerFinished)]
    && Timers.HandlersFor(t, Timers.TimerEvent.Start) == []
    && Timers.HandlersFor(t, Timers.TimerEvent.Pause) == []
    && Timers.HandlersFor(t, Timers.TimerEvent.Stop) == []
  }

  predicate Valid(c: Controller)
  {
    Wired(c.timer) && Timers.Valid(c.timer)
  }

  function CreateTimer(timerType: Timers.TimerType, duration: nat): (t: Timers.Timer)
    ensures Wired(t) && Timers.Valid(t)
    ensures t.timerType == timerType && t.remaining == duration
    ensures t.state == Timers.Stopped && t.lastStartedAt == Timers.None && t.handle == Timers.None
  {
    Timers.On(Timers.New(timerType, duration), Timers.TimerEvent.Finish, Timers.Send(TimerFinished))
  }

  function New(workDuration: nat, breakDuration: nat, auto: bool): (c: Controller)
    ensures Valid(c)
    ensures c.timer.timerType == Timers.Work && c.timer.remaining == workDuration
    ensures c.timer.state == Timers.Stopped
    ensures |Timers.HandlersFor(c.timer, Timers.TimerEvent.Finish)| == 1
    ensures c.queue == []
    ensures c.workDuration == workDuration && c.breakDuration == breakDuration && c.auto == auto
  {
    Controller(CreateTimer(Timers.Work, workDuration), [], workDuration, breakDuration, auto)
  }

  /** Replaces the timer by the outcome of a timer transition, delivering its messages. */
  function Apply(c: Controller, s: Timers.Step): (r: ControllerStep)
    ensures r.controller.timer == s.timer && r.emitted == s.emitted
    ensures r.controller.queue == c.queue + Sent(s.emitted)
    ensures r.controller.(timer := c.timer, queue := c.queue) == c
  {
    ControllerStep(c.(timer := s.timer, queue := c.queue + Sent(s.emitted)), s.emitted)
  }

  /** `Controller::start` on the timer side: the consumer loop it spawns is `ProcessNext`. */
  function Start(c: Controller, now: nat): (r: ControllerStep)
    requires Valid(c)
    ensures Valid(r.controller)
    ensures r.controller.timer == Timers.StartTimer(c.timer, now).timer
    ensures r.controller.timer.state == Timers.Running
    ensures r.emitted == Timers.StartTimer(c.timer, now).emitted
    ensures r.controller.queue == c.queue
    ensures r.controller.(timer := c.timer) == c
  {
    Apply(c, Timers.StartTimer(c.timer, now))
  }

  function Stop(c: Controller): (r: ControllerStep)
    requires Valid(c)
    ensures Valid(r.controller)
    ensures r.controller.timer == Timers.StopTimer(c.timer).timer
    ensures r.controller.timer.timerType == c.timer.timerType
    ensures r.controller.timer.remaining == c.timer.remaining
    ensures r.controller.queue == c.queue
    ensures r.controller.(timer := c.timer) == c
    ensures |r.emitted| == 1 && r.emitted[0].event == Timers.TimerEvent.Stop
  {
    Apply(c, Timers.StopTimer(c.timer))
  }

  function Pause(c: Controller, now: nat): (r: ControllerStep)
    requires Valid(c)
    ensures Valid(r.controller)
    ensures r.controller.timer == Timers.PauseTimer(c.timer, now).timer
    ensures r.controller.timer.timerType == c.timer.timerType
    ensures Timers.TimeLeft(r.controller.timer, now) == Timers.TimeLeft(c.timer, now)
    ensures r.emitted == Timers.PauseTimer(c.timer, now).emitted
    ensures r.controller.queue == c.queue
    ensures r.controller.(timer := c.timer) == c
  {
    Apply(c, Timers.PauseTimer(c.timer, now))
  }

  function Other(k: Timers.TimerType): (r: Timers.TimerType)
    ensures r != k
  {
    match k
    case Work => Timers.Break
    case Break => Timers.Work
  }

  function DurationOf(c: Controller, k: Timers.TimerType): nat
  {
    match k
    case Work => c.workDuration
    case Break => c.breakDuration
  }

  /** Stops the current timer, then installs and starts a fresh timer of the other phase. */
  function StartNextTimer(c: Controller, now: nat): (r: ControllerStep)
    requires Valid(c)
    ensures Valid(r.controller)
    ensures r.controller.timer.timerType == Other(c.timer.timerType)
    ensures r.controller.timer.timerType == Timers.Break ==> r.controller.timer.remaining == c.breakDuration
    ensures r.controller.timer.timerType == Timers.Work ==> r.controller.timer.remaining == c.workDuration
    ensures r.controller.timer.state == Timers.Running
    ensures r.controller.timer.lastStartedAt == Timers.Some(now)
    ensures |r.emitted| == 2
    ensures r.emitted[0] == Timers.StopTimer(c.timer).emitted[0]
    ensures r.emitted[1].event == Timers.TimerEvent.Start && r.emitted[1].invoked == []
    ensures r.controller.queue == c.queue
    ensures r.controller.(timer := c.timer) == c
  {
    var stopped := Timers.StopTimer(c.timer);
    var next := Other(c.timer.timerType);
    var started := Timers.StartTimer(CreateTimer(next, DurationOf(c, next)), now);
    var emitted := stopped.emitted + started.emitted;
    ControllerStep(c.(timer := started.timer, queue := c.queue + Sent(emitted)), emitted)
  }

  /** On a finished timer: advance when `auto` is set; otherwise wait for a
      skip, without any transition. */
  function OnTimerFinished(c: Controller, now: nat): (r: ControllerStep)
    requires Valid(c)
    ensures Valid(r.controller)
    ensures c.auto ==> r.controller.timer.timerType == Other(c.timer.timerType)
    ensures c.auto ==> r.controller.timer.state == Timers.Running
    ensures c.auto ==> r == StartNextTimer(c, now)
    ensures !c.auto ==> r == ControllerStep(c, [])
    ensures r.controller.queue == c.queue
  {
    if c.auto then StartNextTimer(c, now) else ControllerStep(c, [])
  }

  /** The `match` of the consumer loop. */
  function Dispatch(c: Controller, msg: string, now: nat): (r: ControllerStep)
    requires Valid(c)
    ensures Valid(r.controller)
    ensures msg == TimerFinished ==> r == OnTimerFinished(c, now)
    ensures msg == Skip ==> r.controller.timer.timerType == Other(c.timer.timerType)
    ensures msg == Skip ==> r.controller.timer.state == Timers.Running
    ensures msg == Skip ==> r == StartNextTimer(c, now)
    ensures r.controller.queue == c.queue
    ensures msg != TimerFinished && msg != Skip ==> r == ControllerStep(c, [])
  {
    if msg == TimerFinished then OnTimerFinished(c, now)
    else if msg == Skip then StartNextTimer(c, now)
    else ControllerStep(c, [])
  }

  /** One turn of the consumer loop: take the oldest message and dispatch it.
      On an empty channel the loop waits, so nothing happens. */
  function ProcessNext(c: Controller, now: nat): (r: ControllerStep)
    requires Valid(c)
    ensures Valid(r.controller)
    ensures c.queue == [] ==> r == ControllerStep(c, [])
    ensures c.queue != [] ==> r.controller.queue == c.queue[1..]
    ensures c.queue != [] ==> r == Dispatch(c.(queue := c.queue[1..]), c.queue[0], now)
  {
    if c.queue == [] then ControllerStep(c, [])
    else Dispatch(c.(queue := c.queue[1..]), c.queue[0], now)
  }

  /** Messages dispatched one at a time, each after the previous has completed;
      `msgs[i]` is handled at instant `times[i]`. */
  function DispatchAll(c: Controller, msgs: seq<string>, times: seq<nat>): (r: Controller)
    requires Valid(c)
    requires |times| == |msgs|
    ensures Valid(r)
    ensures r.workDuration == c.workDuration && r.breakDuration == c.breakDuration && r.auto == c.auto
    ensures r.queue == c.queue
    decreases |msgs|
  {
    if msgs == [] then c
    else DispatchAll(Dispatch(c, msgs[0], times[0]).controller, msgs[1..], times[1..])
  }

  /** What a dispatch does to the controller does not depend on the messages
      still waiting in the channel, and it leaves them as they are. */
  lemma DispatchIgnoresQueue(c: Controller, q: seq<string>, msg: string, now: nat)
    requires Valid(c)
    ensures Dispatch(c.(queue := q), msg, now).controller == Dispatch(c, msg, now).controller.(queue := q)
  {
  }

  /** Turns of the consumer loop, the `i`th one at instant `times[i]`. */
  function Drain(c: Controller, times: seq<nat>): (r: Controller)
    requires Valid(c)
    ensures Valid(r)
    decreases |times|
  {
    if times == [] then c else Drain(ProcessNext(c, times[0]).controller, times[1..])
  }

  /** The consumer loop is FIFO: as many turns as there are queued messages,
      at whatever instants, dispatch exactly those messages, oldest first and
      each at its own turn's instant, and empty the channel. */
  lemma {:induction false} DrainDispatchesInOrder(c: Controller, times: seq<nat>)
    requires Valid(c)
    requires |times| == |c.queue|
    ensures Drain(c, times) == DispatchAll(c.(queue := []), c.queue, times)
    decreases |c.queue|
  {
    if c.queue != [] {
      var rest := c.(queue := c.queue[1..]);
      var c1 := ProcessNext(c, times[0]).controller;
      assert c1 == Dispatch(rest, c.queue[0], times[0]).controller;
      DrainDispatchesInOrder(c1, times[1..]);
      DispatchIgnoresQueue(rest, [], c.queue[0], times[0]);
      assert rest.(queue := []) == c.(queue := []);
      assert c1.(queue := []) == Dispatch(c.(queue := []), c.queue[0], times[0]).controller;
    }
  }

  /** Two messages dispatched at the same instant give the same controller in
      either order. */
  lemma DispatchCommutes(c: Controller, m1: string, m2: string, now: nat)
    requires Valid(c)
    ensures DispatchAll(c, [m1, m2], [now, now]) == DispatchAll(c, [m2, m1], [now, now])
  {
  }

  /** What a controller looks like apart from when its timer was started:
      phase, remaining time, timer state, handlers, configuration and channel. */
  datatype Shape = Shape(
    phase: Timers.TimerType,
    remaining: nat,
    state: Timers.TimerState,
    handlers: map<Timers.TimerEvent, seq<Timers.Callback>>,
    workDuration: nat,
    breakDuration: nat,
    auto: bool,
    queue: seq<string>)

  function ShapeOf(c: Controller): Shape
  {
    Shape(c.timer.timerType, c.timer.remaining, c.timer.state, c.timer.handlers,
          c.workDuration, c.breakDuration, c.auto, c.queue)
  }

  /** The shape after one `start_next_timer`. */
  function Advanced(s: Shape): Shape
  {
    var next := Other(s.phase);
    s.(phase := next,
       remaining := if next == Timers.Work then s.workDuration else s.breakDuration,
       state := Timers.Running,
       handlers := map[Timers.TimerEvent.Finish := [Timers.Send(TimerFinished)]])
  }

  /** Whether `msg` makes the consumer loop advance the phase. */
  predicate Advances(auto: bool, msg: string)
  {
    msg == Skip || (msg == TimerFinished && auto)
  }

  /** A dispatch either advances the shape once or leaves it, whatever the instant. */
  lemma DispatchShape(c: Controller, msg: string, now: nat)
    requires Valid(c)
    ensures ShapeOf(Dispatch(c, msg, now).controller)
      == (if Advances(c.auto, msg) then Advanced(ShapeOf(c)) else ShapeOf(c))
  {
  }

  /** Two messages dispatched at two instants, in either order, agree on
      everything but the start instant and task of a newly installed timer:
      phase, remaining time, state, handlers, configuration and channel. */
  lemma DispatchOrderAgrees(c: Controller, m1: string, m2: string, n1: nat, n2: nat)
    requires Valid(c)
    ensures var a := Dispatch(Dispatch(c, m1, n1).controller, m2, n2).controller;
      var b := Dispatch(Dispatch(c, m2, n1).controller, m1, n2).controller;
      && a.timer.timerType == b.timer.timerType
      && a.timer.remaining == b.timer.remaining
      && a.timer.state == b.timer.state
      && a.timer.handlers == b.timer.handlers
      && a.workDuration == b.workDuration && a.breakDuration == b.breakDuration && a.auto == b.auto
      && a.queue == b.queue
  {
    var c1 := Dispatch(c, m1, n1).controller;
    var c2 := Dispatch(c, m2, n1).controller;
    DispatchShape(c, m1, n1);
    DispatchShape(c, m2, n1);
    DispatchShape(c1, m2, n2);
    DispatchShape(c2, m1, n2);
    assert Advanced(Advanced(ShapeOf(c))).phase == ShapeOf(c).phase;
  }

  /** The scheduled task of the current timer delivering its expiry. */
  function Expire(c: Controller): (r: ControllerStep)
    requires Valid(c)
    ensures Valid(r.controller)
    ensures r.controller.queue == c.queue + [TimerFinished]
    ensures r.controller.timer == Timers.Finished(c.timer).timer
    ensures r.emitted == Timers.Finished(c.timer).emitted
    ensures r.controller.timer.state == Timers.Stopped && r.controller.timer.remaining == 0
    ensures r.controller.timer.timerType == c.timer.timerType
    ensures r.controller.(timer := c.timer, queue := c.queue) == c
  {
    Apply(c, Timers.Finished(c.timer))
  }

  /** `get_current_timer`: a handler-free snapshot of the current timer. */
  function GetCurrentTimer(c: Controller): (t: Timers.Timer)
    ensures t.handle == Timers.None
    ensures forall e :: Timers.HandlersFor(t, e) == []
    ensures t.timerType == c.timer.timerType && t.state == c.timer.state && t.remaining == c.timer.remaining
    ensures t.lastStartedAt == c.timer.lastStartedAt
    ensures forall now :: Timers.TimeLeft(t, now) == Timers.TimeLeft(c.timer, now)
  {
    Timers.Clone(c.timer)
  }

  /** `n` skips in a row, all at instant `now`. */
  function Skips(c: Controller, n: nat, now: nat): (r: Controller)
    requires Valid(c)
    ensures Valid(r)
    decreases n
  {
    if n == 0 then c else Skips(StartNextTimer(c, now).controller, n - 1, now)
  }

  /** Phases strictly alternate: after `n` skips the phase is the starting one
      iff `n` is even, with that phase's duration, and the configuration is untouched. */
  lemma {:induction false} SkipsAlternate(c: Controller, n: nat, now: nat)
    requires Valid(c)
    ensures var r := Skips(c, n, now);
      && r.timer.timerType == (if n % 2 == 0 then c.timer.timerType else Other(c.timer.timerType))
      && r.workDuration == c.workDuration && r.breakDuration == c.breakDuration && r.auto == c.auto
      && r.queue == c.queue
      && (n > 0 ==> r.timer.remaining == DurationOf(c, r.timer.timerType) && r.timer.state == Timers.Running)
    decreases n
  {
    if n > 0 {
      var c1 := StartNextTimer(c, now).controller;
      SkipsAlternate(c1, n - 1, now);
      assert Other(Other(c.timer.timerType)) == c.timer.timerType;
    }
  }

  /** From a fresh controller, the phase after `n` skips is Work iff `n` is even. */
  lemma SkipsFromNew(workDuration: nat, breakDuration: nat, auto: bool, n: nat, now: nat)
    ensures var r := Skips(New(workDuration, breakDuration, auto), n, now);
      && (r.timer.timerType == Timers.Work <==> n % 2 == 0)
      && (n > 0 && n % 2 == 1 ==> r.timer.remaining == breakDuration)
      && (n % 2 == 0 ==> r.timer.remaining == workDuration)
  {
    SkipsAlternate(New(workDuration, breakDuration, auto), n, now);
  }

  /** With `auto` set, a running timer's expiry leads, through the message it
      sends and one turn of the consumer loop, to a running timer of the other phase. */
  lemma AutoAdvanceOnExpiry(c: Controller, now: nat)
    requires Valid(c) && c.auto && c.queue == []
    ensures var r := ProcessNext(Expire(c).controller, now).controller;
      && r.timer.timerType == Other(c.timer.timerType)
      && r.timer.state == Timers.Running
      && r.timer.remaining == DurationOf(c, r.timer.timerType)
      && r.queue == []
  {
  }

  /** Without `auto`, the expiry leaves the finished timer in place, stopped at zero. */
  lemma NoAdvanceWithoutAuto(c: Controller, now: nat)
    requires Valid(c) && !c.auto && c.queue == []
    ensures var r := ProcessNext(Expire(c).controller, now).controller;
      && r.timer.timerType == c.timer.timerType
      && r.timer.state == Timers.Stopped && r.timer.remaining == 0
      && r.queue == []
  {
  }

  /** Any message other than the two known ones leaves the controller as it was. */
  lemma {:induction false} UnknownMessagesIgnored(c: Controller, msgs: seq<string>, times: seq<nat>)
    requires Valid(c)
    requires |times| == |msgs|
    requires forall i :: 0 <= i < |msgs| ==> msgs[i] != TimerFinished && msgs[i] != Skip
    ensures DispatchAll(c, msgs, times) == c
    decreases |msgs|
  {
    if msgs != [] {
      UnknownMessagesIgnored(c, msgs[1..], times[1..]);
    }
  }

  /* The message "timer_finished" does not say which timer finished.  When a
     skip is handled between an expiry and the consumer loop's turn on the
     message that expiry sent, the message is acted on against the new timer,
     and with `auto` set the phase advances twice. */

  /** As written: expiry, then a skip, then the pending message; the phase the
      skip installed is skipped as well, and the original phase is back. */
  lemma SkipAfterExpiryAdvancesTwice(c: Controller, now: nat)
    requires Valid(c) && c.auto && c.queue == []
    ensures var skipped := StartNextTimer(Expire(c).controller, now).controller;
      var r := ProcessNext(skipped, now).controller;
      && skipped.timer.timerType == Other(c.timer.timerType)
      && r.timer.timerType == c.timer.timerType
      && r.queue == []
  {
  }

  /** The evidently intended reaction: advance only if the current timer is the
      one that finished, i.e. it is stopped with nothing left. */
  function OnTimerFinishedChecked(c: Controller, now: nat): (r: ControllerStep)
    requires Valid(c)
    ensures Valid(r.controller)
    ensures c.auto && c.timer.state == Timers.Stopped && c.timer.remaining == 0 ==>
      && r.controller.timer.timerType == Other(c.timer.timerType)
      && r.controller.timer.state == Timers.Running
      && r == StartNextTimer(c, now)
    ensures !(c.auto && c.timer.state == Timers.Stopped && c.timer.remaining == 0) ==> r == ControllerStep(c, [])
  {
    if c.auto && c.timer.state == Timers.Stopped && c.timer.remaining == 0 then StartNextTimer(c, now)
    else ControllerStep(c, [])
  }

  /** One turn of the consumer loop with the checked reaction to "timer_finished". */
  function ProcessNextChecked(c: Controller, now: nat): (r: ControllerStep)
    requires Valid(c)
    ensures Valid(r.controller)
    ensures c.queue == [] ==> r == ControllerStep(c, [])
    ensures c.queue != [] && c.queue[0] == TimerFinished ==> r == OnTimerFinishedChecked(c.(queue := c.queue[1..]), now)
    ensures c.queue != [] && c.queue[0] != TimerFinished ==> r == ProcessNext(c, now)
  {
    if c.queue == [] then ControllerStep(c, [])
    else if c.queue[0] == TimerFinished then OnTimerFinishedChecked(c.(queue := c.queue[1..]), now)
    else ProcessNext(c, now)
  }

  /** Corrected: the same interleaving advances exactly once. */
  lemma SkipAfterExpiryAdvancesOnce(c: Controller, now: nat)
    requires Valid(c) && c.auto && c.queue == []
    ensures var skipped := StartNextTimer(Expire(c).controller, now).controller;
      var r := ProcessNextChecked(skipped, now).controller;
      && r == skipped.(queue := [])
      && r.timer.timerType == Other(c.timer.timerType)
      && r.timer.state == Timers.Running
  {
  }

  /** Corrected, and still advancing on a genuine expiry when `auto` is set. */
  lemma CheckedAutoAdvanceOnExpiry(c: Controller, now: nat)
    requires Valid(c) && c.auto && c.queue == []
    ensures var r := ProcessNextChecked(Expire(c).controller, now).controller;
      && r.timer.timerType == Other(c.timer.timerType)
      && r.timer.state == Timers.Running
      && r.timer.remaining == DurationOf(c, r.timer.timerType)
      && r.queue == []
  {
  }
}
