/** The value types shared by the timer state machine: the catalog entry,
    the optional value, and the notification vocabulary sent to the
    progress delegate. Time is measured in whole seconds. */
module Timers {

  /** A value that may be absent (Swift's `Optional`). */
  datatype Option<+T> = None | Some(value: T) {
    function GetOr(default: T): (r: T) {
      match this
      case Some(v) => v
      case None => default
    }
  }

  /** One catalog entry: a display name and a countdown length in seconds.
      The source also gives each entry a fresh UUID; entries are told
      apart here by their position in the catalog instead. */
  datatype TimerDescription = TimerDescription(name: string, duration: int)

  /** The five callbacks of the progress delegate, in the order emitted. */
  datatype Event =
    | Started(timer: TimerDescription)
    | Stopped(timer: TimerDescription)
    | Progressed(elapsed: int, timer: TimerDescription)
    | Finished(timer: TimerDescription)
    | MovedTo(timer: TimerDescription)

  /** Every catalog entry can be counted down: at least one second long. */
  predicate PositiveDurations(sources: seq<TimerDescription>) {
    forall i :: 0 <= i < |sources| ==> sources[i].duration >= 1
  }

  /** The four-entry plank workout the manager ships with. */
  function DefaultCatalog(): (c: seq<TimerDescription>)
    ensures |c| == 4
    ensures PositiveDurations(c)
    ensures c[0].duration == c[3].duration == 65
    ensures c[1].duration == c[2].duration == 45
  {
    [ TimerDescription("\U{1F450} Basic", 65),
      TimerDescription("\U{1F448} Left", 45),
      TimerDescription("\U{1F449} Right", 45),
      TimerDescription("\U{1F4BA} Wall Sit", 65) ]
  }
}
