// The data shared by the recorder and the player: a recorded action, and
// the abstract clock both loops run against.

module Actions {

  /** A pair of integer screen coordinates. */
  datatype Position = Position(x: int, y: int)

  /** One recorded action: seconds since the recording started, where the
      pointer was, and the kind of event. */
  datatype Action = Action(time: real, position: Position, eventType: string)

  const MoveEvent := "move"

  /** How the clock advances during a run, in seconds. The clock reads
      `start` when the run takes its start time; `lag[k]` is the time that
      passes in iteration k before the clock is read; `oversleep[k]` is how
      much longer than requested the sleep of iteration k lasts. */
  datatype Clock = Clock(start: real, lag: seq<real>, oversleep: seq<real>)

  /** The clock covers `n` iterations. */
  predicate Covers(c: Clock, n: nat) {
    |c.lag| >= n && |c.oversleep| >= n
  }

  /** The clock never runs backwards and a sleep lasts at least as long as
      requested. */
  predicate Monotone(c: Clock) {
    && (forall k :: 0 <= k < |c.lag| ==> c.lag[k] >= 0.0)
    && (forall k :: 0 <= k < |c.oversleep| ==> c.oversleep[k] >= 0.0)
  }

  /** An ideal clock: no time passes but the requested sleeps, and every
      sleep lasts exactly as requested. */
  predicate Ideal(c: Clock) {
    && (forall k :: 0 <= k < |c.lag| ==> c.lag[k] == 0.0)
    && (forall k :: 0 <= k < |c.oversleep| ==> c.oversleep[k] == 0.0)
  }
}
