// The replay thread: moves the pointer through a list of recorded actions,
// sleeping until each action's offset from the start of the replay.

module Playback {
  import opened Actions
  import Recording

  /** One pointer move the player issues, with the clock reading at which
      it is issued. */
  datatype Move = Move(position: Position, at: real)

  /** The clock reading at the top of iteration `i`, before time passes in
      it: the start time, or the moment the previous move was issued. */
  function ClockBefore(actions: seq<Action>, c: Clock, i: nat): real
    requires i <= |actions| && Covers(c, |actions|)
  {
    if i == 0 then c.start else MoveTime(actions, c, i - 1)
  }

  /** The time left to wait before action `i`, measured against the offset
      it was recorded at. */
  function WaitAt(actions: seq<Action>, c: Clock, i: nat): real
    requires i < |actions| && Covers(c, |actions|)
  {
    actions[i].time - (ClockBefore(actions, c, i) + c.lag[i] - c.start)
  }

  /** The clock reading at which action `i` is replayed: after a positive
      wait, the sleep ends that long after the clock was read (plus any
      oversleep); otherwise the move happens at once. */
  function MoveTime(actions: seq<Action>, c: Clock, i: nat): real
    requires i < |actions| && Covers(c, |actions|)
    decreases i
  {
    var read := (if i == 0 then c.start else MoveTime(actions, c, i - 1)) + c.lag[i];
    var wait := actions[i].time - (read - c.start);
    if wait > 0.0 then read + wait + c.oversleep[i] else read
  }

  /** The sleeps requested while replaying the first `n` actions, in order;
      a non-positive wait requests none. */
  function SleepLog(actions: seq<Action>, c: Clock, n: nat): seq<real>
    requires n <= |actions| && Covers(c, |actions|)
  {
    if n == 0 then []
    else
      var w := WaitAt(actions, c, n - 1);
      SleepLog(actions, c, n - 1) + (if w > 0.0 then [w] else [])
  }

  /** The moves issued while replaying the first `n` actions: each action's
      position, at the time it is replayed. */
  function MoveLog(actions: seq<Action>, c: Clock, n: nat): (moves: seq<Move>)
    requires n <= |actions| && Covers(c, |actions|)
    ensures |moves| == n
    ensures forall i {:trigger moves[i]} :: 0 <= i < n ==>
              moves[i] == Move(actions[i].position, MoveTime(actions, c, i))
  {
    seq(n, i requires 0 <= i < n => Move(actions[i].position, MoveTime(actions, c, i)))
  }

  /** Replaying one more action adds one move to the log. */
  lemma MoveLogSnoc(actions: seq<Action>, c: Clock, n: nat)
    requires n < |actions| && Covers(c, |actions|)
    ensures MoveLog(actions, c, n + 1)
            == MoveLog(actions, c, n) + [Move(actions[n].position, MoveTime(actions, c, n))]
  {
  }

  class ActionPlayer {
    const actions: seq<Action>

    constructor (actions: seq<Action>)
      ensures this.actions == actions
    {
      this.actions := actions;
    }

    /** Replays every action once, in list order. Returns the sleeps it
        requested and the moves it issued. */
    method Run(c: Clock) returns (sleeps: seq<real>, moves: seq<Move>)
      requires Covers(c, |actions|)
      ensures moves == MoveLog(actions, c, |actions|)
      ensures sleeps == SleepLog(actions, c, |actions|)
      ensures forall i :: 0 <= i < |sleeps| ==> sleeps[i] > 0.0
      ensures Monotone(c) ==> forall i :: 0 <= i < |actions| ==> moves[i].at >= c.start + actions[i].time
    {
      var now := c.start;
      sleeps, moves := [], [];
      for i := 0 to |actions|
        invariant moves == MoveLog(actions, c, i)
        invariant now == ClockBefore(actions, c, i)
        invariant sleeps == SleepLog(actions, c, i)
      {
        var action := actions[i];
        now := now + c.lag[i];
        var timeToWait := action.time - (now - c.start);
        assert timeToWait == WaitAt(actions, c, i);
        if timeToWait > 0.0 {
          sleeps := sleeps + [timeToWait];
          now := now + timeToWait + c.oversleep[i];
        }
        assert now == MoveTime(actions, c, i);
        MoveLogSnoc(actions, c, i);
        moves := moves + [Move(action.position, now)];
      }
      SleepsPositive(actions, c, |actions|);
      if Monotone(c) {
        DeadlinesMet(actions, c);
      }
    }
  }

  /** Every sleep the player requests is for a positive duration. */
  lemma {:induction false} SleepsPositive(actions: seq<Action>, c: Clock, n: nat)
    requires n <= |actions| && Covers(c, |actions|)
    ensures forall i :: 0 <= i < |SleepLog(actions, c, n)| ==> SleepLog(actions, c, n)[i] > 0.0
  {
    if n > 0 {
      SleepsPositive(actions, c, n - 1);
    }
  }

  /** No action is replayed before its recorded offset from the start. */
  lemma MoveMeetsDeadline(actions: seq<Action>, c: Clock, i: nat)
    requires i < |actions| && Covers(c, |actions|) && Monotone(c)
    ensures MoveTime(actions, c, i) >= c.start + actions[i].time
  {
  }

  lemma DeadlinesMet(actions: seq<Action>, c: Clock)
    requires Covers(c, |actions|) && Monotone(c)
    ensures forall i :: 0 <= i < |actions| ==> MoveTime(actions, c, i) >= c.start + actions[i].time
  {
    forall i | 0 <= i < |actions| ensures MoveTime(actions, c, i) >= c.start + actions[i].time {
      MoveMeetsDeadline(actions, c, i);
    }
  }

  /** Moves are issued in list order: their times never decrease. */
  lemma {:induction false} MovesInOrder(actions: seq<Action>, c: Clock, i: nat, j: nat)
    requires i <= j < |actions| && Covers(c, |actions|) && Monotone(c)
    ensures MoveTime(actions, c, i) <= MoveTime(actions, c, j)
  {
    if i < j {
      MovesInOrder(actions, c, i, j - 1);
      assert c.lag[j] >= 0.0 && c.oversleep[j] >= 0.0;
    }
  }

  /** Deadlines are measured from the start of the replay, not from the
      previous move: when iteration `i` reads the clock no later than
      action `i`'s offset, action `i` is replayed at its offset plus only
      that iteration's oversleep (exactly at it when the read lands on the
      offset), however late earlier moves were. */
  lemma NoDrift(actions: seq<Action>, c: Clock, i: nat)
    requires i < |actions| && Covers(c, |actions|)
    requires ClockBefore(actions, c, i) + c.lag[i] <= c.start + actions[i].time
    ensures ClockBefore(actions, c, i) + c.lag[i] < c.start + actions[i].time ==>
              MoveTime(actions, c, i) == c.start + actions[i].time + c.oversleep[i]
    ensures ClockBefore(actions, c, i) + c.lag[i] == c.start + actions[i].time ==>
              MoveTime(actions, c, i) == c.start + actions[i].time
  {
  }

  /** Offsets that start at zero or later and never decrease are replayed
      exactly at their offsets on an ideal clock. */
  lemma {:induction false} IdealReplayExact(actions: seq<Action>, c: Clock, i: nat)
    requires i < |actions| && Covers(c, |actions|) && Ideal(c)
    requires actions[0].time >= 0.0
    requires forall k :: 0 < k < |actions| ==> actions[k - 1].time <= actions[k].time
    ensures MoveTime(actions, c, i) == c.start + actions[i].time
  {
    if i > 0 {
      IdealReplayExact(actions, c, i - 1);
    }
    NoDrift(actions, c, i);
  }

  /** The kind of event is never consulted: replays of two lists that agree
      on offsets and positions issue the same sleeps and the same moves. */
  lemma {:induction false} EventTypeIgnored(a: seq<Action>, b: seq<Action>, c: Clock, n: nat)
    requires |a| == |b| && n <= |a| && Covers(c, |a|)
    requires forall k :: 0 <= k < |a| ==> a[k].time == b[k].time && a[k].position == b[k].position
    ensures SleepLog(a, c, n) == SleepLog(b, c, n)
    ensures forall k :: 0 <= k < n ==> MoveTime(a, c, k) == MoveTime(b, c, k)
  {
    if n > 0 {
      EventTypeIgnored(a, b, c, n - 1);
      MoveTimesAgree(a, b, c, n - 1);
    }
  }

  lemma {:induction false} MoveTimesAgree(a: seq<Action>, b: seq<Action>, c: Clock, i: nat)
    requires |a| == |b| && i < |a| && Covers(c, |a|)
    requires forall k :: 0 <= k < |a| ==> a[k].time == b[k].time
    ensures MoveTime(a, c, i) == MoveTime(b, c, i)
  {
    if i > 0 {
      MoveTimesAgree(a, b, c, i - 1);
    }
  }

  /** Three actions at offsets 0, 0.2 and 0.5 seconds, replayed on an ideal
      clock: no sleep before the first, then sleeps of 0.2 and 0.3 seconds,
      and the moves land at exactly those offsets. */
  lemma ThreeActionExample(c: Clock)
    requires Covers(c, 3) && Ideal(c)
    ensures var actions := [Action(0.0, Position(10, 10), MoveEvent),
                            Action(0.2, Position(20, 20), MoveEvent),
                            Action(0.5, Position(30, 30), MoveEvent)];
            && SleepLog(actions, c, 3) == [0.2, 0.3]
            && MoveTime(actions, c, 0) == c.start
            && MoveTime(actions, c, 1) == c.start + 0.2
            && MoveTime(actions, c, 2) == c.start + 0.5
  {
    var actions := [Action(0.0, Position(10, 10), MoveEvent),
                    Action(0.2, Position(20, 20), MoveEvent),
                    Action(0.5, Position(30, 30), MoveEvent)];
    assert c.lag[0] == 0.0 && c.lag[1] == 0.0 && c.lag[2] == 0.0;
    assert c.oversleep[0] == 0.0 && c.oversleep[1] == 0.0 && c.oversleep[2] == 0.0;
    assert MoveTime(actions, c, 0) == c.start;
    assert MoveTime(actions, c, 1) == c.start + 0.2;
    assert MoveTime(actions, c, 2) == c.start + 0.5;
    assert SleepLog(actions, c, 1) == [];
    assert SleepLog(actions, c, 2) == [0.2];
  }

  /** A recording replayed on an ideal clock moves the pointer through the
      sampled positions at the offsets they were sampled at. */
  lemma ReplayOfRecording(rec: Clock, pointer: seq<Position>, n: nat, play: Clock, i: nat)
    requires i < n && Recording.Fits(rec, pointer, n) && Monotone(rec)
    requires Covers(play, n) && Ideal(play)
    ensures var actions := Recording.Recorded(rec, pointer, n);
            MoveTime(actions, play, i) == play.start + (Recording.SampleTime(rec, i) - rec.start)
  {
    var actions := Recording.Recorded(rec, pointer, n);
    Recording.SampleAfterStart(rec, 0);
    forall k | 0 < k < n ensures actions[k - 1].time <= actions[k].time {
      Recording.SamplesInOrder(rec, k - 1, k);
    }
    IdealReplayExact(actions, play, i);
  }
}
