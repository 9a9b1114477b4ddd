/** A session with the manager: the user's controls and the platform
    timer's fires, applied in order at non-decreasing times. */
module Session {
  import opened Timers
  import TM = TimerManager

  /** The manager's public controls. */
  datatype Control = ToggleRunning | Start | Stop | Reset | Next | Previous

  /** One input at time `at`: a control (most controls ignore the clock)
      or one fire of the live platform timer. */
  datatype Input = Press(control: Control, at: int) | Tick(at: int)

  /** One input; the catalog must not be empty, since the source's
      `switchToNextTimer` traps on an empty one. */
  function Apply(s: TM.Manager, input: Input): (r: TM.Transition)
    requires |s.sources| > 0
    ensures r.after.sources == s.sources
  {
    match input
    case Tick(now) => TM.Tick(s, now)
    case Press(control, now) =>
      match control
      case ToggleRunning => TM.Toggle(s, now)
      case Start => TM.Start(s, now)
      case Stop => TM.Stop(s)
      case Reset => TM.Reset(s)
      case Next => TM.SwitchToNext(s)
      case Previous => TM.SwitchToPrevious(s)
  }

  /** Applies the inputs in order, concatenating their notifications. */
  function Run(s: TM.Manager, inputs: seq<Input>): (r: TM.Transition)
    requires |s.sources| > 0
    ensures r.after.sources == s.sources
    decreases |inputs|
  {
    if |inputs| == 0 then TM.Transition(s, [])
    else
      var first := Apply(s, inputs[0]);
      var rest := Run(first.after, inputs[1..]);
      TM.Transition(rest.after, first.events + rest.events)
  }

  /** Input times never go backwards, starting from time `t`. */
  predicate Chronological(t: int, inputs: seq<Input>)
    decreases |inputs|
  {
    |inputs| == 0 || (t <= inputs[0].at && Chronological(inputs[0].at, inputs[1..]))
  }

  /** Every notification names an entry of the catalog. */
  predicate AboutCatalog(events: seq<Event>, sources: seq<TimerDescription>) {
    forall i :: 0 <= i < |events| ==> events[i].timer in sources
  }

  /** Each input keeps the manager valid and names only catalog entries;
      after it, the last fire of a live timer is no later than the input. */
  lemma ApplyKeepsValid(s: TM.Manager, t: int, input: Input)
    requires TM.Valid(s) && TM.ClockFrom(s, t) && t <= input.at
    ensures TM.Valid(Apply(s, input).after)
    ensures TM.ClockFrom(Apply(s, input).after, input.at)
    ensures AboutCatalog(Apply(s, input).events, s.sources)
  {
    assert TM.ClockFrom(s, input.at);
    match input
    case Tick(now) =>
    case Press(control, now) =>
      match control
      case ToggleRunning =>
      case Start =>
      case Stop =>
      case Reset =>
      case Next =>
      case Previous =>
  }

  /** Every state a chronological session reaches from a valid manager is
      valid, and every notification it emits names a catalog entry. */
  lemma {:induction false} RunKeepsValid(s: TM.Manager, t: int, inputs: seq<Input>)
    requires TM.Valid(s) && TM.ClockFrom(s, t) && Chronological(t, inputs)
    ensures TM.Valid(Run(s, inputs).after)
    ensures AboutCatalog(Run(s, inputs).events, s.sources)
    decreases |inputs|
  {
    if |inputs| > 0 {
      var first := Apply(s, inputs[0]);
      ApplyKeepsValid(s, t, inputs[0]);
      RunKeepsValid(first.after, inputs[0].at, inputs[1..]);
      var rest := Run(first.after, inputs[1..]);
      assert Run(s, inputs).events == first.events + rest.events;
    }
  }
}
