// The recording thread: samples the pointer position every tenth of a
// second until it is told to stop.

module Recording {
  import opened Actions

  /** The pause between two samples, in seconds. */
  const PollInterval: real := 0.1

  /** The clock and the pointer cover `n` samples. */
  predicate Fits(c: Clock, pointer: seq<Position>, n: nat) {
    Covers(c, n) && |pointer| >= n
  }

  /** The clock reading at which sample `k` is taken: time passes before
      each read, and each sample is followed by a pause of a tenth of a
      second (plus any oversleep). */
  function SampleTime(c: Clock, k: nat): real
    requires Covers(c, k + 1)
  {
    if k == 0 then c.start + c.lag[0]
    else SampleTime(c, k - 1) + PollInterval + c.oversleep[k - 1] + c.lag[k]
  }

  /** The first `n` recorded actions: each is a move to the sampled
      position, stamped with its offset from the start of the recording. */
  function Recorded(c: Clock, pointer: seq<Position>, n: nat): (actions: seq<Action>)
    requires Fits(c, pointer, n)
    ensures |actions| == n
    ensures forall k :: 0 <= k < n ==>
              actions[k] == Action(SampleTime(c, k) - c.start, pointer[k], MoveEvent)
  {
    seq(n, k requires 0 <= k < n => Action(SampleTime(c, k) - c.start, pointer[k], MoveEvent))
  }

  class ActionRecorder {
    var recordedActions: seq<Action>
    var isRecording: bool
    var startTime: real

    constructor ()
      ensures recordedActions == [] && !isRecording
    {
      recordedActions := [];
      isRecording := false;
      startTime := 0.0;
    }

    /** Asks the sampling loop to finish after its current iteration. */
    method Stop()
      modifies this`isRecording
      ensures !isRecording
    {
      isRecording := false;
    }

    /** Records until stopped. `pointer[k]` is the position read in
        iteration k; the stop request arrives once `stopAfter` samples have
        been taken (so at least one is always taken when it arrives during
        the run, and none only when it arrives before the first check).
        Any recording from an earlier run is discarded. */
    method Run(c: Clock, pointer: seq<Position>, stopAfter: nat)
      requires Fits(c, pointer, stopAfter)
      modifies this
      ensures recordedActions == Recorded(c, pointer, stopAfter)
      ensures !isRecording && startTime == c.start
    {
      recordedActions := [];
      isRecording := true;
      startTime := c.start;
      var now := c.start;
      var i := 0;
      if stopAfter == 0 {
        Stop();
      }
      while isRecording
        modifies this`recordedActions, this`isRecording
        invariant 0 <= i <= stopAfter
        invariant isRecording <==> i < stopAfter
        invariant startTime == c.start
        invariant |recordedActions| == i
        invariant recordedActions == Recorded(c, pointer, i)
        invariant i == 0 ==> now == c.start
        invariant i > 0 ==> now == SampleTime(c, i - 1) + PollInterval + c.oversleep[i - 1]
        decreases stopAfter - i
      {
        var position := pointer[i];
        now := now + c.lag[i];
        assert now == SampleTime(c, i);
        RecordedSnoc(c, pointer, i);
        recordedActions := recordedActions + [Action(now - startTime, position, MoveEvent)];
        now := now + PollInterval + c.oversleep[i];
        i := i + 1;
        if i == stopAfter {
          Stop();
        }
      }
    }
  }

  /** One more sample extends the recording by one action. */
  lemma RecordedSnoc(c: Clock, pointer: seq<Position>, n: nat)
    requires Fits(c, pointer, n + 1)
    ensures Recorded(c, pointer, n + 1)
            == Recorded(c, pointer, n) + [Action(SampleTime(c, n) - c.start, pointer[n], MoveEvent)]
  {
  }

  /** A stop request that comes before the run begins is overridden: the
      run sets the flag again and records as usual. */
  method StopBeforeRun(c: Clock, pointer: seq<Position>) returns (recorded: seq<Action>)
    requires Fits(c, pointer, 2)
    ensures |recorded| == 2
    ensures recorded[0].position == pointer[0] && recorded[1].position == pointer[1]
  {
    var recorder := new ActionRecorder();
    recorder.Stop();
    recorder.Run(c, pointer, 2);
    recorded := recorder.recordedActions;
  }

  /** On a monotone clock no sample is stamped before the start. */
  lemma {:induction false} SampleAfterStart(c: Clock, k: nat)
    requires Covers(c, k + 1) && Monotone(c)
    ensures SampleTime(c, k) >= c.start
  {
    if k > 0 {
      SampleAfterStart(c, k - 1);
      assert c.oversleep[k - 1] >= 0.0 && c.lag[k] >= 0.0;
    } else {
      assert c.lag[0] >= 0.0;
    }
  }

  /** Consecutive samples are at least a tenth of a second apart. */
  lemma SamplesSpaced(c: Clock, k: nat)
    requires Covers(c, k + 2) && Monotone(c)
    ensures SampleTime(c, k + 1) - SampleTime(c, k) >= PollInterval
  {
    assert c.oversleep[k] >= 0.0 && c.lag[k + 1] >= 0.0;
  }

  /** Samples `j` steps apart are at least `j` tenths of a second apart, so
      a recording of `n` samples spans at least `(n - 1)` tenths. */
  lemma {:induction false} SampleSpread(c: Clock, i: nat, j: nat)
    requires i <= j && Covers(c, j + 1) && Monotone(c)
    ensures SampleTime(c, j) - SampleTime(c, i) >= (j - i) as real * PollInterval
  {
    if i < j {
      SampleSpread(c, i, j - 1);
      SamplesSpaced(c, j - 1);
    }
  }

  /** Recorded offsets never decrease. */
  lemma SamplesInOrder(c: Clock, i: nat, j: nat)
    requires i <= j && Covers(c, j + 1) && Monotone(c)
    ensures SampleTime(c, i) <= SampleTime(c, j)
  {
    SampleSpread(c, i, j);
  }
}
