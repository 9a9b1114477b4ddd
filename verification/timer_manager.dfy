/** The countdown-sequence state machine of the plank workout.

    Every control is a pure function from the manager's state (and, where
    the source reads the wall clock, the current time `now` in whole
    seconds) to the next state and the delegate notifications it emits, in
    order. The repeating platform timer becomes the explicit `Tick`
    operation; its synchronous first fire inside `start` is `Fire`. */
module TimerManager {
  import opened Timers

  /** What the manager holds in its `currentTimer` slot: nothing, a live
      repeating timer, or a timer that was already invalidated when it was
      stored (in whole seconds, only if a countdown starts with no time left). */
  datatype TimerHandle = NoTimer | Scheduled | Invalidated

  datatype Manager = Manager(
    sources: seq<TimerDescription>,
    index: nat,               // currentSourceIndex
    timer: TimerHandle,       // currentTimer
    timeLeft: Option<int>,    // currentTimeLeft, as written by the last fire
    deadline: int)            // endTime captured by the running timer
  {
    /** A timer is held, live or not. */
    predicate IsRunning() {
      !timer.NoTimer?
    }

    /** The selected catalog entry, absent when the index is out of range. */
    function CurrentSource(): (r: Option<TimerDescription>) {
      if index < |sources| then Some(sources[index]) else None
    }
  }

  /** A state change together with the notifications it emits, in order. */
  datatype Transition = Transition(after: Manager, events: seq<Event>)

  /** The manager as constructed: first entry selected, nothing running. */
  function Init(sources: seq<TimerDescription>): (m: Manager) {
    Manager(sources, 0, NoTimer, None, 0)
  }

  /** The invariant every reachable manager keeps: a non-empty catalog of
      positive durations, a selected entry, never a dead timer, and a saved
      time-left (always present while ticking) within the selected entry. */
  predicate Valid(s: Manager) {
    && |s.sources| > 0
    && PositiveDurations(s.sources)
    && s.index < |s.sources|
    && !s.timer.Invalidated?
    && (s.timer.Scheduled? ==> s.timeLeft.Some?)
    && (s.timeLeft.Some? ==> 1 <= s.timeLeft.value <= s.sources[s.index].duration)
  }

  /** The time of the most recent fire: its time-left was `deadline - now`. */
  function LastFired(s: Manager): (t: int)
    requires s.timeLeft.Some?
  {
    s.deadline - s.timeLeft.value
  }

  /** The clock has not gone backwards since the last fire of a live timer. */
  predicate ClockFrom(s: Manager, now: int) {
    s.timer.Scheduled? && s.timeLeft.Some? ==> LastFired(s) <= now
  }

  /** `stop` takes effect: a timer is held and an entry is selected. */
  predicate CanStop(s: Manager) {
    s.IsRunning() && s.CurrentSource().Some?
  }

  /** The index after `currentSourceIndex`, wrapping past the last entry. */
  function NextIndex(s: Manager): (k: nat)
    requires |s.sources| > 0
    ensures k < |s.sources|
    ensures s.index + 1 < |s.sources| ==> k == s.index + 1
    ensures s.index + 1 == |s.sources| ==> k == 0
  {
    (s.index + 1) % |s.sources|
  }

  /** The index before `currentSourceIndex`, held at zero. */
  function PreviousIndex(s: Manager): (k: nat) {
    if s.index == 0 then 0 else s.index - 1
  }

  /** The seconds a start counts down: the saved time-left of a paused
      timer, otherwise the full duration of the entry. */
  function Allotted(s: Manager, source: TimerDescription): (t: int) {
    s.timeLeft.GetOr(source.duration)
  }

  // ---------------------------------------------------------------------
  // Controls

  /** `stop`: drops the running timer and announces it; the selected entry
      and the time-left saved by the last fire are kept as they are. */
  function Stop(s: Manager): (r: Transition)
    ensures !CanStop(s) ==> r == Transition(s, [])
    ensures CanStop(s) ==> !r.after.IsRunning() && r.events == [Stopped(s.sources[s.index])]
    ensures r.after.sources == s.sources && r.after.index == s.index
    ensures r.after.timeLeft == s.timeLeft && r.after.deadline == s.deadline
    ensures Valid(s) ==> Valid(r.after)
  {
    match s.CurrentSource()
    case None => Transition(s, [])
    case Some(source) =>
      if s.IsRunning() then Transition(s.(timer := NoTimer), [Stopped(source)])
      else Transition(s, [])
  }

  /** `changeTimerIndex`: an index outside the catalog is ignored; otherwise
      a running timer is stopped first, the new entry is selected (its
      `didSet` always announces it, even when the index is unchanged) and
      the saved time-left is discarded. */
  function ChangeIndex(s: Manager, newIndex: int): (r: Transition)
    ensures !(0 <= newIndex < |s.sources|) ==> r == Transition(s, [])
    ensures 0 <= newIndex < |s.sources| ==>
      && r.after.sources == s.sources
      && r.after.index == newIndex
      && r.after.timeLeft.None?
      && (s.CurrentSource().Some? ==> !r.after.IsRunning())
      && r.events == Stop(s).events + [MovedTo(s.sources[newIndex])]
    ensures Valid(s) && 0 <= newIndex < |s.sources| ==> Valid(r.after)
  {
    if 0 <= newIndex < |s.sources| then
      var stopped := if s.IsRunning() then Stop(s) else Transition(s, []);
      Transition(stopped.after.(index := newIndex, timeLeft := None),
                 stopped.events + [MovedTo(s.sources[newIndex])])
    else
      Transition(s, [])
  }

  /** `switchToNextTimer`: select the following entry, wrapping from the
      last entry to the first. The catalog must not be empty (the source's
      `% sources.count` traps otherwise). */
  function SwitchToNext(s: Manager): (r: Transition)
    requires |s.sources| > 0
    ensures r.after.sources == s.sources
    ensures r.after.index == (s.index + 1) % |s.sources|
    ensures r.after.index < |s.sources|
    ensures s.index + 1 == |s.sources| ==> r.after.index == 0
    ensures r.after.timeLeft.None?
    ensures s.CurrentSource().Some? ==> !r.after.IsRunning()
    ensures r.events == Stop(s).events + [MovedTo(s.sources[r.after.index])]
    ensures Valid(s) ==> Valid(r.after)
  {
    ChangeIndex(s, NextIndex(s))
  }

  /** `switchToPreviousTimer`: select the preceding entry, staying on the
      first one (and still announcing it) when already there. With an
      empty catalog nothing happens. */
  function SwitchToPrevious(s: Manager): (r: Transition)
    ensures |s.sources| == 0 ==> r == Transition(s, [])
    ensures s.index < |s.sources| ==>
      && r.after.sources == s.sources
      && r.after.index == (if s.index == 0 then 0 else s.index - 1)
      && r.after.timeLeft.None?
      && !r.after.IsRunning()
      && r.events == Stop(s).events + [MovedTo(s.sources[r.after.index])]
    ensures Valid(s) ==> Valid(r.after)
  {
    ChangeIndex(s, PreviousIndex(s))
  }

  /** One run of the repeating timer's closure at time `now`: record the
      time left; with time left, report the elapsed seconds; otherwise drop
      the timer, announce the finish and move on as `switchToNextTimer`. */
  function Fire(s: Manager, now: int): (r: Transition)
    ensures s.CurrentSource().None? ==> r == Transition(s, [])
    ensures s.CurrentSource().Some? && s.deadline - now > 0 ==>
      && r.after == s.(timeLeft := Some(s.deadline - now))
      && r.events == [Progressed(s.sources[s.index].duration - (s.deadline - now), s.sources[s.index])]
    ensures s.CurrentSource().Some? && s.deadline - now <= 0 ==>
      && r.after == s.(timer := NoTimer, index := NextIndex(s), timeLeft := None)
      && r.events == [Finished(s.sources[s.index]), MovedTo(s.sources[NextIndex(s)])]
  {
    match s.CurrentSource()
    case None => Transition(s, [])
    case Some(source) =>
      var left := s.deadline - now;
      var recorded := s.(timeLeft := Some(left));
      if left > 0 then
        Transition(recorded, [Progressed(source.duration - left, source)])
      else
        var moved := SwitchToNext(recorded.(timer := NoTimer));
        Transition(moved.after, [Finished(source)] + moved.events)
  }

  /** `start` (with `startTimer`): ignored while running or with no entry
      selected. Otherwise the deadline is `now` plus the allotted seconds,
      the timer fires once at once, the timer is stored, and `started`
      follows the fire's own notification. */
  function Start(s: Manager, now: int): (r: Transition)
    ensures r.after.sources == s.sources
    ensures s.IsRunning() || s.CurrentSource().None? ==> r == Transition(s, [])
    ensures !s.IsRunning() && s.CurrentSource().Some? ==>
      var source := s.sources[s.index];
      var allotted := Allotted(s, source);
      && r.after.IsRunning()
      && r.after.deadline == now + allotted
      && |r.events| >= 1 && r.events[|r.events| - 1] == Started(source)
      && (allotted > 0 ==>
            && r.after == s.(timer := Scheduled, timeLeft := Some(allotted), deadline := now + allotted)
            && r.events == [Progressed(source.duration - allotted, source), Started(source)])
      && (allotted <= 0 ==>
            && r.after.timer.Invalidated?
            && r.after.index == NextIndex(s)
            && r.after.timeLeft.None?
            && r.events == [Finished(source), MovedTo(s.sources[NextIndex(s)]), Started(source)])
    ensures Valid(s) ==> Valid(r.after)
  {
    match s.CurrentSource()
    case None => Transition(s, [])
    case Some(source) =>
      if s.IsRunning() then Transition(s, [])
      else
        var allotted := Allotted(s, source);
        var fired := Fire(s.(deadline := now + allotted), now);
        var handle := if allotted > 0 then Scheduled else Invalidated;
        Transition(fired.after.(timer := handle), fired.events + [Started(source)])
  }

  /** The platform timer firing at `now`: only a live timer fires. */
  function Tick(s: Manager, now: int): (r: Transition)
    ensures r.after.sources == s.sources
    ensures !s.timer.Scheduled? ==> r == Transition(s, [])
    ensures s.timer.Scheduled? && s.CurrentSource().Some? ==>
      var source := s.sources[s.index];
      var left := s.deadline - now;
      && (left > 0 ==>
            && r.after.IsRunning() && r.after.index == s.index
            && r.after.timer == s.timer && r.after.deadline == s.deadline
            && r.after.timeLeft == Some(left)
            && r.events == [Progressed(source.duration - left, source)])
      && (left <= 0 ==>
            && !r.after.IsRunning()
            && r.after.index == (s.index + 1) % |s.sources|
            && r.after.timeLeft.None?
            && r.events == [Finished(source), MovedTo(s.sources[r.after.index])])
    ensures Valid(s) && ClockFrom(s, now) ==> Valid(r.after) && ClockFrom(r.after, now)
  {
    if s.timer.Scheduled? then Fire(s, now) else Transition(s, [])
  }

  /** `toggleRunning`: a running timer is stopped, an idle one started. */
  function Toggle(s: Manager, now: int): (r: Transition)
    ensures s.IsRunning() ==> r == Stop(s)
    ensures !s.IsRunning() ==> r == Start(s, now)
    ensures r.after.sources == s.sources
    ensures CanStop(s) ==>
      !r.after.IsRunning() && r.events == [Stopped(s.sources[s.index])]
    ensures !s.IsRunning() && s.CurrentSource().Some? ==>
      r.after.IsRunning() && |r.events| >= 1 && r.events[|r.events| - 1] == Started(s.sources[s.index])
    ensures s.CurrentSource().None? ==> r == Transition(s, [])
    ensures Valid(s) ==> Valid(r.after)
  {
    if s.IsRunning() then Stop(s) else Start(s, now)
  }

  /** `reset`: stop a running timer, forget the saved time-left and
      re-announce the selected entry without changing it. */
  function Reset(s: Manager): (r: Transition)
    ensures r.after.sources == s.sources && r.after.index == s.index
    ensures r.after.timeLeft.None?
    ensures s.CurrentSource().None? ==> r.events == []
    ensures s.CurrentSource().Some? ==>
      && !r.after.IsRunning()
      && r.events == (if s.IsRunning() then [Stopped(s.sources[s.index])] else [])
                     + [MovedTo(s.sources[s.index])]
    ensures Valid(s) ==> Valid(r.after)
  {
    var stopped := if s.IsRunning() then Stop(s) else Transition(s, []);
    var cleared := stopped.after.(timeLeft := None);
    match cleared.CurrentSource()
    case None => Transition(cleared, stopped.events)
    case Some(source) => Transition(cleared, stopped.events + [MovedTo(source)])
  }
}
