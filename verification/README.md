# Work/break timer core: `Timer` and `Controller`

This project is a Dafny model of the two sequential components of a small
work/break interval timer. Both are written in Rust in the source.

- `Timer` (src/timer.rs) is a countdown with three states: Running, Paused and
  Stopped. It keeps a `remaining` duration and the instant of its last start.
  It holds a per-event, ordered list of handlers. Its transitions are `start`,
  `pause`, `stop` and the internal `finished`. Time accounting in `time_left`
  saturates at zero.
- `Controller` (src/controller.rs) owns one current timer, the work and break
  durations, and the `auto` flag. It listens on a channel for the string
  messages `"timer_finished"` and `"skip"`. On a skip, or on a finish while
  `auto` is set, it stops the timer and replaces it with a started timer of
  the other phase: Work becomes Break and Break becomes Work.

Modelling choices:

- The wall clock is an explicit `now: nat` argument. Durations and instants are
  natural numbers.
- `Instant::elapsed` saturates at zero, and so does `Timers.Elapsed`.
- The spawned sleep task is a value `Task(delay, spawnedAt, aborted)` held in
  the timer's `handle`. Aborting sets `aborted`.
- The expiry that the task would deliver is the explicit transition
  `Timers.Finished` (or `Controllers.Expire` at the controller level). The
  caller may apply it at any time, just as the code calls `finished`
  without checking anything.
- Callbacks are data. `Send(msg)` is the controller's closure that sends `msg`
  on its channel. `Observer(id)` stands for any other callback.
- Every call of `event` is recorded as an `Emission`. It holds the event, the
  callbacks invoked (in order) and the handler-free snapshot they were given.
  Each transition returns its new state together with the emissions it caused.
- The channel is the controller's FIFO `queue`. One turn of the consumer loop
  spawned by `Controller::start` is `Controllers.ProcessNext`.
- `Controller::next` is `Controllers.StartNextTimer` taken under the lock.
- `timer_type` is the field `timerType`.

Facts about the code that shape the model:

- There are exactly two phases, Work and Break (src/timer.rs:9-12).
- `stop` and `pause` do not clear `last_started_at`. `stop` does not fold the
  elapsed time into `remaining`, so a restart after `stop` counts down again
  from the remaining time as of the last start or pause
  (`Timers.StopThenStartRestoresRemaining`).
- `create_timer` calls `on_finished`, which `Timer` does not define (src/controller.rs:48).
  It is modelled as `on(TimerEvent::Finish, …)`, which is what the closure is
  evidently meant for.

## Model

| member | source | states |
|---|---|---|
| Timers.New | src/timer.rs:50-58 | a new timer is Stopped, has `remaining` equal to the duration, has no start instant, no task and no handlers; its time left is the full duration at every instant, and it satisfies the running-timer invariant |
| Timers.TimeLeft | src/timer.rs:112-126 | time left never exceeds `remaining`; it equals `remaining` when the timer is not running; when running, time left plus elapsed time is at least `remaining`, with equality whenever any time is left (saturation at zero) |
| Timers.TimeLeftNonIncreasing | src/timer.rs:112-126 | while running, time left never grows as the clock advances |
| Timers.Clone | src/timer.rs:139-148 | the copy keeps remaining, state, start instant and phase, and has no handlers and no task handle; it reports the same time left at every instant |
| Timers.On | src/timer.rs:128-133 | registering appends the callback to the end of that event's list, leaves every other event's list and every other field unchanged |
| Timers.Emit | src/timer.rs:163-169 | the loop form of `Event`, which the transitions use: `event` invokes exactly the handlers registered for that event, in list order, and nothing when none are registered |
| Timers.EventFiresInRegistrationOrder | src/timer.rs:128-133 | after any run of `on` calls, an event invokes its previously registered handlers followed by those registered for it in the run, in call order, unaffected by registrations for other events |
| Timers.NewTimerFiresOnlyRegistered | src/timer.rs:163-169 | on a fresh timer, an event invokes exactly the callbacks registered for it, in registration order |
| Timers.StartTimer | src/timer.rs:61-86 | on a running timer nothing changes and no event is emitted; otherwise the timer becomes Running, starts at `now`, keeps `remaining`, schedules a live task whose delay is the time left, and emits exactly one Start to the Start handlers; time left at `now` is unchanged; the running-timer invariant is preserved |
| Timers.StartIdempotent | src/timer.rs:66-68 | a second start, at any later instant, is a no-op that emits nothing |
| Timers.StopTimer | src/timer.rs:88-95 | from any state, including Stopped, the timer becomes Stopped with `remaining` unchanged, its task aborted, and exactly one Stop (never Finish) emitted; its time left is then `remaining`, and no scheduled expiry is due any more at any instant |
| Timers.StopThenStartRestoresRemaining | src/timer.rs:88-95 | restarting after a stop resumes from `remaining` as stored, and emits a Start |
| Timers.PauseTimer | src/timer.rs:97-110 | only a running timer is affected: it becomes Paused with `remaining` set to its time left, its task aborted so that no expiry is due at any instant, and exactly one Pause emitted; otherwise nothing changes and nothing is emitted; time left at `now` is preserved in both cases |
| Timers.PauseThenStartLossless | src/timer.rs:61-126 | pausing and then starting at the same instant leaves the time left unchanged and the timer Running |
| Timers.Finished | src/timer.rs:156-161 | expiry sets `remaining` to zero and state Stopped, keeps the phase and handlers, and emits exactly one Finish whose handlers see the zeroed, stopped timer |
| Timers.ExpiryMeetsZero | src/timer.rs:70-83 | for a running timer whose scheduled task is due, the time left is exactly zero, so zeroing `remaining` on expiry agrees with the clock |
| Controllers.CreateTimer | src/controller.rs:38-55 | a controller-made timer has the requested phase and duration, is Stopped, and has exactly one handler, on Finish, which sends `"timer_finished"` |
| Controllers.New | src/controller.rs:19-36 | the initial timer is a Stopped Work timer of the work duration with exactly one Finish handler; the channel is empty and the configuration is stored as given |
| Controllers.Deliver | src/controller.rs:44-50 | the loop form of `Sent` for one event, which the transitions use: running an event's callbacks in order appends to the channel exactly the messages of the sending callbacks, in invocation order |
| Controllers.Start | src/controller.rs:57-66 | starting the controller starts its current timer, which ends Running, passes on exactly the emissions of the timer's `start`, and changes nothing else |
| Controllers.Stop | src/controller.rs:95-112 | stopping changes only the current timer, as the timer's `stop` does, keeping its phase and `remaining`, and emits one Stop |
| Controllers.Pause | src/controller.rs:100-117 | pausing changes only the current timer, as the timer's `pause` does, keeping its phase and its time left at `now`, and passes on exactly the emissions of the timer's `pause` |
| Controllers.StartNextTimer | src/controller.rs:119-143 | the old timer is stopped first (its Stop is the first emission), then a fresh timer of the other phase, with that phase's duration, is installed and started at `now` (the second emission is its Start); durations, `auto` and the channel are unchanged |
| Controllers.SkipsAlternate | src/controller.rs:125-136 | after `n` skips the phase is the starting one iff `n` is even; after at least one skip the timer is Running with its phase's duration, and the configuration is untouched |
| Controllers.SkipsFromNew | src/controller.rs:125-136 | from a new controller, the phase after `n` skips is Work iff `n` is even, with the work duration, and otherwise Break with the break duration |
| Controllers.OnTimerFinished | src/controller.rs:145-151 | with `auto` set, the reaction is exactly one `start_next_timer` (a running timer of the other phase); without it, nothing changes; the channel is untouched either way |
| Controllers.Dispatch | src/controller.rs:75-83 | `"timer_finished"` runs the finish reaction, `"skip"` is exactly one `start_next_timer` (a running timer of the other phase), any other string changes nothing, and the channel is untouched |
| Controllers.ProcessNext | src/controller.rs:68-87 | one turn of the consumer loop removes the oldest message and dispatches exactly that message against the rest of the channel; with an empty channel nothing happens |
| Controllers.DispatchAll | src/controller.rs:68-87 | dispatching messages one after another, each at its own instant, keeps the controller invariant, durations, `auto` and the channel |
| Controllers.DrainDispatchesInOrder | src/controller.rs:68-87 | as many loop turns as there are queued messages, each taken at its own instant, dispatch exactly those messages, oldest first and each at its turn's instant, and leave the channel empty |
| Controllers.DispatchIgnoresQueue | src/controller.rs:75-83 | what a dispatch does to the controller does not depend on the messages waiting in the channel, which it leaves as they are |
| Controllers.DispatchCommutes | src/controller.rs:75-83 | two messages dispatched at the same instant give the same controller in either order |
| Controllers.DispatchShape | src/controller.rs:75-83 | at any instant, a dispatch either performs exactly one advance of the phase, with that phase's duration, a Running timer and the Finish handler, or leaves phase, time, state, configuration and channel as they were |
| Controllers.DispatchOrderAgrees | src/controller.rs:68-87 | two messages handled at two instants, in either order, give the same phase, remaining time, timer state, handlers, durations, `auto` and channel |
| Controllers.UnknownMessagesIgnored | src/controller.rs:75-83 | a run of messages none of which is `"timer_finished"` or `"skip"`, handled at any instants, leaves the controller exactly as it was |
| Controllers.Expire | src/timer.rs:74-79 | the task's expiry is the timer's `finished`: the current timer is zeroed and stopped with every other field kept, the one Finish emission is passed on, and exactly one `"timer_finished"` is put on the channel |
| Controllers.AutoAdvanceOnExpiry | src/controller.rs:145-151 | with `auto`, an expiry followed by one turn of the consumer loop leaves a running timer of the other phase with that phase's duration and an empty channel |
| Controllers.NoAdvanceWithoutAuto | src/controller.rs:145-162 | without `auto`, an expiry followed by one turn of the consumer loop leaves the finished timer in place, Stopped at zero |
| Controllers.GetCurrentTimer | src/controller.rs:165-172 | the snapshot has no handlers and no task, the current timer's phase, state, `remaining` and start instant, and the same time left at every instant |
| Controllers.SkipAfterExpiryAdvancesTwice | src/controller.rs:145-151 | as written: an expiry, then a skip, then the pending `"timer_finished"` with `auto` returns to the original phase, so the phase the skip installed is lost |
| Controllers.OnTimerFinishedChecked | src/controller.rs:145-151 | corrected: the finish reaction is exactly one `start_next_timer` when `auto` is set and the current timer is stopped at zero, and otherwise changes nothing |
| Controllers.ProcessNextChecked | src/controller.rs:75-83 | corrected consumer turn: `"timer_finished"` goes to the checked reaction; every other message is handled as before |
| Controllers.SkipAfterExpiryAdvancesOnce | src/controller.rs:145-151 | corrected: the same interleaving advances exactly once, leaving the skip's running timer in place and an empty channel |
| Controllers.CheckedAutoAdvanceOnExpiry | src/controller.rs:145-151 | corrected: a genuine expiry with `auto` still advances to a running timer of the other phase |

## Findings

| source | as written | input that shows it | evidently intended | confidence | as-written member | corrected member |
|---|---|---|---|---|---|---|
| src/controller.rs:145-151 | the `"timer_finished"` message does not identify the timer that finished, and `on_timer_finished` advances whenever `auto` is set | `auto` on; the Work timer expires and queues `"timer_finished"`; a `next` is handled before the consumer loop takes that message; the message then advances again, from the new Break back to Work | one expiry causes at most one advance, so the Break installed by the skip is kept | medium, not executed | Controllers.SkipAfterExpiryAdvancesTwice | Controllers.SkipAfterExpiryAdvancesOnce |

The corrected reaction checks that the current timer is stopped at zero. That
is how a timer that just finished looks, and a timer that a skip just started
never looks like that. The other members keep the code's reaction.

## Left out

- Tokio task spawning, sleeping and `JoinHandle::abort` (src/timer.rs:74-81, 150-154). The task is a value, and its expiry is the explicit `Finished`/`Expire` transition. Whether an abort wins the race with a task that has already woken is runtime behaviour and is not modelled.
- `Arc<Mutex<…>>` locking and the flume channel (src/controller.rs:3-11, 24). Every operation is one atomic step, and the channel is a FIFO sequence of strings.
- Controller::start spawns a new consumer loop on every call, and each message goes to exactly one loop. With several loops, dispatch is one at a time under the lock but not necessarily in channel order. The model has one FIFO loop. Two messages handled at the same instant give the same controller in either order (`Controllers.DispatchCommutes`). Handled at two instants, either order gives the same phase, remaining time, timer state, durations, `auto` and channel. Only the start instant and task of a newly installed timer can differ (`Controllers.DispatchOrderAgrees`). Orders of more than two messages are not proved.
- The stdin read and the spawned "press enter" task in the non-auto branch (src/controller.rs:153-162). This is console I/O. The model has no transition there; a later `"skip"` is an ordinary message.
- `println!` logging and the `Display` impl of `TimerType` (src/timer.rs:14-23). These are presentation only.
- src/main.rs: every function there is an empty stub.
- Wall-clock `Instant::now`. It is replaced by the `now` argument.
- `Duration`'s nanosecond resolution. Durations are whole units of one unspecified clock tick.
- Emission snapshots: callbacks receive `&Timer`. The model records the handler-free snapshot of that timer, which holds every field a callback can read.
