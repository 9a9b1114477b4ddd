/** Laws of the countdown-sequence state machine that relate several
    controls: pause and resume, reset, the two index moves, the automatic
    advance on finishing, and the progress reports of one run. */
module TimerLaws {
  import opened Timers
  import opened TimerManager

  /** The constructed manager with the shipped catalog is valid. */
  lemma DefaultManagerValid()
    ensures Valid(Init(DefaultCatalog()))
    ensures Init(DefaultCatalog()).CurrentSource() == Some(DefaultCatalog()[0])
    ensures !Init(DefaultCatalog()).IsRunning()
  {
  }

  // ---------------------------------------------------------------------
  // Start, stop, toggle

  /** Starting a stopped, valid manager and stopping it again at once
      leaves it paused on the same entry with the allotted seconds saved. */
  lemma StartThenStopPauses(s: Manager, now: int)
    requires Valid(s) && !s.IsRunning()
    ensures var source := s.sources[s.index];
      var started := Start(s, now);
      var stopped := Stop(started.after);
      && !stopped.after.IsRunning()
      && stopped.after.index == s.index
      && stopped.after.timeLeft == Some(Allotted(s, source))
      && started.events + stopped.events
         == [Progressed(source.duration - Allotted(s, source), source), Started(source), Stopped(source)]
  {
  }

  /** Run `elapsed` seconds, fire, stop, and start again later: the
      countdown resumes from the seconds that were left at that fire, not
      from the full duration. */
  lemma PauseResumesFromLastFire(s: Manager, t0: int, elapsed: int, t1: int)
    requires Valid(s) && !s.IsRunning()
    requires 0 <= elapsed < Allotted(s, s.sources[s.index])
    ensures var source := s.sources[s.index];
      var left := Allotted(s, source) - elapsed;
      var started := Start(s, t0);
      var fired := Tick(started.after, t0 + elapsed);
      var paused := Stop(fired.after);
      var resumed := Start(paused.after, t1);
      && paused.after.timeLeft == Some(left)
      && resumed.after.IsRunning()
      && resumed.after.index == s.index
      && resumed.after.deadline == t1 + left
      && resumed.events == [Progressed(source.duration - left, source), Started(source)]
  {
  }

  /** Toggling twice from a valid stopped manager is a start followed by a
      stop: it ends paused on the same entry. */
  lemma ToggleTwiceIsStartThenStop(s: Manager, t0: int, t1: int)
    requires Valid(s) && !s.IsRunning()
    ensures Toggle(s, t0) == Start(s, t0)
    ensures Toggle(Toggle(s, t0).after, t1) == Stop(Start(s, t0).after)
    ensures !Toggle(Toggle(s, t0).after, t1).after.IsRunning()
    ensures Toggle(Toggle(s, t0).after, t1).after.index == s.index
  {
  }

  /** In a valid manager, `start` always leaves a live timer. */
  lemma StartSchedules(s: Manager, now: int)
    requires Valid(s) && !s.IsRunning()
    ensures Start(s, now).after.timer.Scheduled?
    ensures ClockFrom(Start(s, now).after, now)
    ensures LastFired(Start(s, now).after) == now
  {
  }

  /** The `start` a zero-length entry triggers: the immediate fire already
      finishes and advances, yet the dead timer is stored, so the manager
      claims to be running, no later fire comes, and `started` names the
      entry that was left. */
  lemma StartOfEmptyEntryStalls(now: int)
    ensures var a := TimerDescription("a", 0);
      var b := TimerDescription("b", 3);
      var s := Init([a, b]);
      var r := Start(s, now);
      && r.after.IsRunning()
      && r.after.index == 1
      && r.events == [Finished(a), MovedTo(b), Started(a)]
      && Tick(r.after, now + 1) == Transition(r.after, [])
  {
  }

  // ---------------------------------------------------------------------
  // Reset

  /** After a reset the next start counts down the full duration of the
      same entry, whatever was saved before. */
  lemma ResetThenStartUsesFullDuration(s: Manager, now: int)
    requires Valid(s)
    ensures var source := s.sources[s.index];
      var r := Start(Reset(s).after, now);
      && r.after.index == s.index
      && r.after.deadline == now + source.duration
      && r.events == [Progressed(0, source), Started(source)]
  {
  }

  /** A second reset changes nothing more; it only re-announces the entry. */
  lemma ResetIdempotent(s: Manager)
    requires Valid(s)
    ensures Reset(Reset(s).after).after == Reset(s).after
    ensures Reset(Reset(s).after).events == [MovedTo(s.sources[s.index])]
  {
  }

  // ---------------------------------------------------------------------
  // Moving between entries

  /** Moving forward and then back returns to the entry, except from the
      last entry, which wraps to the first. */
  lemma NextThenPrevious(s: Manager)
    requires Valid(s)
    ensures s.index + 1 < |s.sources| ==>
      SwitchToPrevious(SwitchToNext(s).after).after.index == s.index
    ensures s.index + 1 == |s.sources| ==>
      SwitchToPrevious(SwitchToNext(s).after).after.index == 0
  {
  }

  /** Moving back and then forward returns to the entry, except from the
      first entry, which moves back nowhere and so ends on the second. */
  lemma PreviousThenNext(s: Manager)
    requires Valid(s)
    ensures s.index > 0 ==>
      SwitchToNext(SwitchToPrevious(s).after).after.index == s.index
    ensures s.index == 0 ==>
      SwitchToNext(SwitchToPrevious(s).after).after.index == 1 % |s.sources|
  {
  }

  /** `switchToNextTimer` applied `k` times. */
  function Forward(s: Manager, k: nat): (r: Manager)
    requires |s.sources| > 0
    ensures r.sources == s.sources
    decreases k
  {
    if k == 0 then s else Forward(SwitchToNext(s).after, k - 1)
  }

  /** `a + b` forward moves are `a` moves followed by `b` moves. */
  lemma {:induction false} ForwardSplit(s: Manager, a: nat, b: nat)
    requires |s.sources| > 0
    ensures Forward(s, a + b) == Forward(Forward(s, a), b)
    decreases a
  {
    if a > 0 {
      ForwardSplit(SwitchToNext(s).after, a - 1, b);
    }
  }

  /** Short of the last entry, `k` forward moves advance the index by `k`. */
  lemma {:induction false} ForwardAdvances(s: Manager, k: nat)
    requires |s.sources| > 0 && s.index + k < |s.sources|
    ensures Forward(s, k).index == s.index + k
    decreases k
  {
    if k > 0 {
      ForwardAdvances(SwitchToNext(s).after, k - 1);
    }
  }

  /** One full lap of forward moves, as many as there are entries, returns
      to the starting entry: the forward move wraps from the last entry to
      the first and never skips one. */
  lemma {:induction false} ForwardLapReturns(s: Manager)
    requires |s.sources| > 0 && s.index < |s.sources|
    ensures Forward(s, |s.sources|).index == s.index
  {
    var n := |s.sources|;
    var toLast := n - 1 - s.index;
    ForwardAdvances(s, toLast);
    var last := Forward(s, toLast);
    var first := Forward(last, 1);
    assert first == Forward(SwitchToNext(last).after, 0);
    ForwardAdvances(first, s.index);
    ForwardSplit(s, toLast, 1);
    ForwardSplit(s, toLast + 1, s.index);
  }

  // ---------------------------------------------------------------------
  // Ticks

  /** Finishing is the forward move, except that the entry that ran out is
      announced as finished rather than stopped. */
  lemma FinishIsNextMove(s: Manager, now: int)
    requires Valid(s) && s.timer.Scheduled? && s.deadline - now <= 0
    ensures Tick(s, now).after == SwitchToNext(s).after
    ensures SwitchToNext(s).events == [Stopped(s.sources[s.index])] + Tick(s, now).events[1..]
    ensures Tick(s, now).events == [Finished(s.sources[s.index])] + SwitchToNext(s).events[1..]
  {
  }

  /** While a live timer keeps running, each report lies within the entry:
      no less than zero and short of its full duration. */
  lemma ProgressWithinDuration(s: Manager, now: int)
    requires Valid(s) && s.timer.Scheduled? && ClockFrom(s, now)
    requires s.deadline - now > 0
    ensures var source := s.sources[s.index];
      && |Tick(s, now).events| == 1
      && Tick(s, now).events[0].Progressed?
      && 0 <= Tick(s, now).events[0].elapsed < source.duration
  {
  }

  /** Two fires of the same live timer at non-decreasing times report
      non-decreasing elapsed seconds for the same entry. */
  lemma ElapsedNeverDecreases(s: Manager, t1: int, t2: int)
    requires Valid(s) && s.timer.Scheduled? && ClockFrom(s, t1) && t1 <= t2
    requires s.deadline - t2 > 0
    ensures var first := Tick(s, t1);
      var second := Tick(first.after, t2);
      && first.events[0].Progressed? && second.events[0].Progressed?
      && second.events[0].timer == first.events[0].timer
      && first.events[0].elapsed <= second.events[0].elapsed
      && second.events[0].elapsed - first.events[0].elapsed == t2 - t1
  {
  }

  // ---------------------------------------------------------------------
  // A whole run

  /** Two entries of five and three seconds: a start at 0 and fires at 1
      to 5 run the first entry out and select the second, idle; the next
      start counts the second entry's full three seconds. */
  lemma TwoEntryScenario()
    ensures var a := TimerDescription("A", 5);
      var b := TimerDescription("B", 3);
      var s0 := Init([a, b]);
      var r0 := Start(s0, 0);
      var r1 := Tick(r0.after, 1);
      var r2 := Tick(r1.after, 2);
      var r3 := Tick(r2.after, 3);
      var r4 := Tick(r3.after, 4);
      var r5 := Tick(r4.after, 5);
      var r6 := Start(r5.after, 10);
      && r0.events == [Progressed(0, a), Started(a)]
      && r1.events == [Progressed(1, a)]
      && r2.events == [Progressed(2, a)]
      && r3.events == [Progressed(3, a)]
      && r4.events == [Progressed(4, a)]
      && r5.events == [Finished(a), MovedTo(b)]
      && r5.after.index == 1 && !r5.after.IsRunning()
      && r6.after.deadline == 13
      && r6.events == [Progressed(0, b), Started(b)]
  {
    var a := TimerDescription("A", 5);
    var b := TimerDescription("B", 3);
    var s0 := Init([a, b]);
    var r0 := Start(s0, 0);
    assert r0.after == Manager([a, b], 0, Scheduled, Some(5), 5);
    var r1 := Tick(r0.after, 1);
    assert r1.after == Manager([a, b], 0, Scheduled, Some(4), 5);
    var r2 := Tick(r1.after, 2);
    assert r2.after == Manager([a, b], 0, Scheduled, Some(3), 5);
    var r3 := Tick(r2.after, 3);
    assert r3.after == Manager([a, b], 0, Scheduled, Some(2), 5);
    var r4 := Tick(r3.after, 4);
    assert r4.after == Manager([a, b], 0, Scheduled, Some(1), 5);
    var r5 := Tick(r4.after, 5);
    assert r5.after == Manager([a, b], 1, NoTimer, None, 5);
  }
}
