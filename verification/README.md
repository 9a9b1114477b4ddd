# PlankGrid timer sequence, modelled in Dafny

This project models `TimerManager`, the countdown-sequence state machine of the
PlankGrid watch app. The manager holds a fixed, ordered catalog of named
intervals (`TimerDescription`: a name and a duration) and the index of the
selected one. It holds the platform repeating timer (`currentTimer`; the manager
"is running" while one is held) and the time-left written by the last fire of
that timer (`currentTimeLeft`). It offers the controls `toggleRunning`, `start`,
`stop`, `reset`, `switchToNextTimer` and `switchToPreviousTimer`. It reports
`started`, `stopped`, `progressed`, `finished` and `movedTo` to one delegate.

The model is functional. A `Manager` value is the state. Each control is a
function from a state to a `Transition`: the new state and the notifications
emitted, in order. The wall clock becomes an explicit argument `now`, in whole
seconds, for the operations that read it (`Start`, `Toggle`, `Tick`). The
repeating platform timer becomes the operation `Tick`. `Fire` is the body of
its closure, and `Start` runs it once synchronously, as the source does.

Files:

- `timers.dfy` (module `Timers`): `Option`, `TimerDescription`, `Event` and the
  shipped four-entry catalog.
- `timer_manager.dfy` (module `TimerManager`): the state, the invariant
  `Valid`, and every control.
- `session.dfy` (module `Session`): a sequence of inputs applied at
  non-decreasing times, and the proof that every reachable state stays valid.
- `timer_laws.dfy` (module `TimerLaws`): the laws relating controls to each
  other, such as pause/resume, reset, the two index moves, finishing, and
  progress reports.

The source's `currentTimer` slot is modelled as `TimerHandle`: `NoTimer`,
`Scheduled` (a live timer), or `Invalidated`. The last one is a timer that its
own first fire already invalidated before line 106 stored it. In the model,
that happens only when a start finds no time left, which `Valid` rules out. In
the program it also happens to a one-second entry: `endTime` is fixed at line 84
before the timer exists, so the fire at line 105 sees slightly less than one
second left, and `Int(...)` at line 96 truncates that to 0. The model keeps the
dead-timer case so that `Start` is total and matches the code (see
`StartOfEmptyEntryStalls`).

The model follows the code on these points:

- `stop` does not compute the remaining time. The saved time-left is whatever
  the last fire wrote (line 94), so a resumed countdown restarts from the
  moment of that fire, not from the moment of the stop.
- The first fire happens inside `startTimer` (line 105), before `started` is
  sent (line 80). A start therefore emits `progressed` before `started`.
- Every assignment to `currentSourceIndex` announces `movedTo` (lines 40-45),
  even when the index does not change. An example is `switchToPreviousTimer`
  on the first entry.
- There is no separate paused state. In the whole-second model, after any
  start from a valid manager, `currentTimeLeft` holds a value, even for a fresh start (the first fire
  writes the full duration).

Small helpers mirror source expressions directly: `Init` is the manager as
constructed (index 0, no timer and no saved time-left: lines 40, 57 and 60),
`Manager.CurrentSource` is the `currentSource` property (lines 47-52),
`NextIndex` is `sources.index(after: currentSourceIndex) % sources.count`
(line 141), `PreviousIndex` is
`max(0, sources.index(before: currentSourceIndex))` (line 135), and `Allotted`
is `currentTimeLeft ?? source.duration` (line 84).

## Model

| member | source | states |
|---|---|---|
| TimerManager.Stop | PlankGrid/Model/TimerManager.swift:115-122 | no-op unless running with an entry selected; otherwise not running afterwards and exactly `stopped(current)` emitted; index, saved time-left and deadline are never changed; keeps the invariant |
| TimerManager.NextIndex | PlankGrid/Model/TimerManager.swift:141 | the next index is inside the catalog: `i+1` short of the last entry, 0 from the last |
| TimerManager.ChangeIndex | PlankGrid/Model/TimerManager.swift:145-152 | an index outside the catalog changes nothing and emits nothing; otherwise it selects that index, clears the saved time-left, leaves nothing running, and emits stop's notifications followed by `movedTo(new entry)` |
| TimerManager.SwitchToNext | PlankGrid/Model/TimerManager.swift:139-143 | the new index is `(i+1) mod count`, always inside the catalog, and 0 from the last entry; stops first, clears the saved time-left, and ends with `movedTo(new entry)`; keeps the invariant |
| TimerManager.SwitchToPrevious | PlankGrid/Model/TimerManager.swift:134-137 | the new index is `i-1`, clamped at 0; on the first entry it stays there and still emits `movedTo(first entry)`; stops first and clears the saved time-left; an empty catalog changes nothing |
| TimerManager.Fire | PlankGrid/Model/TimerManager.swift:89-104 | with `deadline - now > 0` it records that time-left and reports `progressed(duration - left)`; otherwise it drops the timer and emits `finished(entry)` then `movedTo(next entry)`, with the index wrapped forward and the saved time-left cleared; with no entry selected it does nothing |
| TimerManager.Start | PlankGrid/Model/TimerManager.swift:74-107 | no-op when running or with no entry; otherwise running afterwards, with `deadline = now + (saved time-left, else duration)` and a last notification of `started(entry)`; with time allotted, the notifications are exactly the immediate fire's `progressed` then `started`; with none, the fire has already finished and advanced, and a dead timer is stored; keeps the invariant |
| TimerManager.Tick | PlankGrid/Model/TimerManager.swift:85-112 | only a live timer fires; time left > 0 gives `progressed(duration - left)` and keeps running with that time-left saved, the same live timer and the same deadline (the closure's fixed `endTime`); otherwise not running, `finished` then `movedTo(next)` with wraparound, time-left cleared; keeps the invariant on a clock that does not go backwards |
| TimerManager.Toggle | PlankGrid/Model/TimerManager.swift:66-72 | exactly `stop` when a timer is held and exactly `start` at `now` otherwise; so when running with an entry it ends not running with `stopped`, keeping index, saved time-left and deadline, and when idle with an entry it ends running with `started` last; with no entry it changes nothing |
| TimerManager.Reset | PlankGrid/Model/TimerManager.swift:124-132 | index unchanged, saved time-left cleared, nothing running; emits `stopped` only if it was running, then `movedTo(current entry)`; keeps the invariant |
| Session.ApplyKeepsValid | PlankGrid/Model/TimerManager.swift:66-152 | every control and every fire keeps the manager valid, leaves the clock ahead of the last fire, and names only catalog entries in its notifications |
| Session.RunKeepsValid | PlankGrid/Model/TimerManager.swift:40-152 | any chronological sequence of controls and fires from a valid manager reaches only valid managers: index in range, saved time-left within the entry, a live timer whenever one is held; every notification names a catalog entry |
| TimerLaws.DefaultManagerValid | PlankGrid/Model/TimerManager.swift:33-52 | the manager as constructed with the four shipped entries is valid, has the first entry selected and is not running |
| TimerLaws.StartThenStopPauses | PlankGrid/Model/TimerManager.swift:74-122 | start then stop leaves the same entry paused with the allotted seconds saved, after `progressed`, `started`, `stopped` |
| TimerLaws.PauseResumesFromLastFire | PlankGrid/Model/TimerManager.swift:84-122 | run `e` seconds, fire, stop, start later: the countdown resumes with `allotted - e` seconds, not the full duration, on the same entry |
| TimerLaws.ToggleTwiceIsStartThenStop | PlankGrid/Model/TimerManager.swift:66-72 | from idle, toggle is start; toggling again is stop of the started state, and leaves the same entry not running |
| TimerLaws.StartSchedules | PlankGrid/Model/TimerManager.swift:83-107 | in a valid manager, a start always holds a live timer, and its last fire (the synchronous one) is exactly at `now` |
| TimerLaws.StartOfEmptyEntryStalls | PlankGrid/Model/TimerManager.swift:96-106 | a zero-second entry: the start advances to the next entry but stores a dead timer, so the manager reports running, later fires do nothing, and `started` names the entry that was left |
| TimerLaws.ResetThenStartUsesFullDuration | PlankGrid/Model/TimerManager.swift:124-132 | after reset, a start counts down the entry's full duration: deadline `now + duration`, notifications `progressed(0)` and `started` |
| TimerLaws.ResetIdempotent | PlankGrid/Model/TimerManager.swift:124-132 | a second reset leaves the state as the first left it and only re-announces the entry |
| TimerLaws.NextThenPrevious | PlankGrid/Model/TimerManager.swift:134-143 | forward then back returns to the entry, except from the last entry, which ends on the first |
| TimerLaws.PreviousThenNext | PlankGrid/Model/TimerManager.swift:134-143 | back then forward returns to the entry, except from the first entry, which ends on the second (or the only one) |
| TimerLaws.ForwardAdvances | PlankGrid/Model/TimerManager.swift:139-143 | short of the last entry, `k` forward moves advance the index by exactly `k` |
| TimerLaws.ForwardLapReturns | PlankGrid/Model/TimerManager.swift:139-143 | as many forward moves as there are entries return to the starting entry (wraparound, no entry skipped) |
| TimerLaws.FinishIsNextMove | PlankGrid/Model/TimerManager.swift:109-113 | a fire that runs out reaches the same state as `switchToNextTimer`, and its notifications are the same except `finished` in place of `stopped` |
| TimerLaws.ProgressWithinDuration | PlankGrid/Model/TimerManager.swift:93-103 | on a valid manager and a forward clock, a progress report's elapsed seconds lie in `[0, duration)` |
| TimerLaws.ElapsedNeverDecreases | PlankGrid/Model/TimerManager.swift:93-103 | two fires of one live timer at non-decreasing times report the same entry with non-decreasing elapsed seconds, growing by exactly the time between the fires |
| TimerLaws.TwoEntryScenario | PlankGrid/Model/TimerManager.swift:74-113 | entries A(5) and B(3): a start at 0 then fires at 1..5 report `progressed(0..4, A)`, then `finished(A)` and `movedTo(B)`, leaving B selected and idle; the next start counts B's full 3 seconds |

## Left out

- The Foundation `Timer`, the run loop, `invalidate` and `Date` reads: fires are the explicit `Tick` operation, and the current time is the argument `now`.
- `TimeInterval` as a floating-point value and the `Int(timeLeft)` truncation at line 96: time is whole seconds, so the guard is a plain integer comparison. The whole-second model puts every fire exactly on the second. The program's fires see a fraction less, which truncates down, so the program finishes a countdown one fire earlier than the model does. For example, the fire at second 4 of `TwoEntryScenario` reports `progressed(4, A)` in the model but `finished(A)` in the program.
- TimerManager.Valid, Session.RunKeepsValid: "never a dead timer" holds in the model only. In the program, starting a one-second entry finishes it during the synchronous first fire and stores the dead timer (the stall shown by `StartOfEmptyEntryStalls` for a zero-second entry), because of the truncation described above.
- The `UUID` of each `TimerDescription` (line 159): entries are told apart by their catalog position.
- The weak delegate reference (line 29): notifications are returned as a sequence. A missing delegate only means nobody receives them, and the state changes are the same.
- The `assertionFailure` on a fire with no entry selected (line 90): `Fire` behaves as a release build does and returns without change. `Valid` makes this case unreachable.
- An empty catalog: `switchToNextTimer` traps on `% sources.count` (line 141), so `SwitchToNext`, `Session.Apply` and `Session.Run` require a non-empty catalog.
- The watch interface, haptics and the HealthKit workout session (`PlankGrid WatchKit Extension/InterfaceController.swift`) only react to the notifications and are not part of this model.
- Session.RunKeepsValid: holds only for a clock that never goes backwards (`Chronological`, `ClockFrom`). With a clock that goes backwards, the saved time-left can exceed the entry's duration. The source makes no promise for that case.
- TimerManager.SwitchToPrevious: the contract does not describe a selected index beyond the catalog's end. `Valid` excludes that state, and the source can never reach it.
