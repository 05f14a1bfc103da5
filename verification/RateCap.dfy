/**
 The outbound rate cap of one data topic: a sample passes once a full period has gone by since
 the last one that passed, and a clock that jumps back restarts the period instead of stalling.
 */
module RateCap {
  import opened Optional
  import opened Spacing

  /** Nanoseconds of the ROS clock, which may jump back. */
  type RosTime = int

  datatype RateWindow = RateWindow(minPeriod: Option<nat>, lastForwardTime: Option<RosTime>)

  /** Where the current period starts, after a jump back has been taken into account. */
  function PeriodStart(w: RateWindow, now: RosTime): RosTime
    requires w.lastForwardTime.Some?
  {
    if w.lastForwardTime.value > now then now else w.lastForwardTime.value
  }

  predicate Passes(w: RateWindow, now: RosTime) {
    w.minPeriod.None? || w.lastForwardTime.None? || now - PeriodStart(w, now) >= w.minPeriod.value
  }

  function AfterSample(w: RateWindow, now: RosTime): RateWindow {
    if w.minPeriod.None? then w
    else if Passes(w, now) then w.(lastForwardTime := Some(now))
    else w.(lastForwardTime := Some(PeriodStart(w, now)))
  }

  function AfterSamples(w: RateWindow, samples: seq<RosTime>): RateWindow
    decreases |samples|
  {
    if samples == [] then w else AfterSamples(AfterSample(w, samples[0]), samples[1..])
  }

  /** The samples that pass, in order. */
  function Admitted(w: RateWindow, samples: seq<RosTime>): seq<RosTime>
    decreases |samples|
  {
    if samples == [] then []
    else (if Passes(w, samples[0]) then [samples[0]] else []) + Admitted(AfterSample(w, samples[0]), samples[1..])
  }

  ghost predicate NonDecreasing(samples: seq<RosTime>) {
    forall i, j | 0 <= i <= j < |samples| :: samples[i] <= samples[j]
  }

  ghost predicate NotBefore(w: RateWindow, samples: seq<RosTime>) {
    w.lastForwardTime.Some? && samples != [] ==> w.lastForwardTime.value <= samples[0]
  }

  /** While the clock does not go back, what passes is a period apart, whatever the window was before. */
  lemma {:induction false} AdmittedSpaced(w: RateWindow, samples: seq<RosTime>)
    requires w.minPeriod.Some? && NonDecreasing(samples)
    ensures Spaced(Admitted(w, samples), w.minPeriod.value)
    ensures NotBefore(w, samples) && w.lastForwardTime.Some? && Admitted(w, samples) != [] ==>
              Admitted(w, samples)[0] - w.lastForwardTime.value >= w.minPeriod.value
    decreases |samples|
  {
    if samples != [] {
      var next := AfterSample(w, samples[0]);
      assert NotBefore(next, samples[1..]);
      AdmittedSpaced(next, samples[1..]);
    }
  }

  lemma {:induction false} WindowStartsAtASample(w: RateWindow, samples: seq<RosTime>)
    requires w.minPeriod.Some?
    ensures AfterSamples(w, samples).minPeriod == w.minPeriod
    ensures AfterSamples(w, samples).lastForwardTime == w.lastForwardTime
            || exists i :: 0 <= i < |samples| && AfterSamples(w, samples).lastForwardTime == Some(samples[i])
    decreases |samples|
  {
    if samples != [] {
      var next := AfterSample(w, samples[0]);
      WindowStartsAtASample(next, samples[1..]);
      if AfterSamples(w, samples).lastForwardTime != next.lastForwardTime {
        var i :| 0 <= i < |samples[1..]| && AfterSamples(w, samples).lastForwardTime == Some(samples[1..][i]);
        assert samples[1..][i] == samples[i + 1];
      }
    }
  }

  /**
   Whatever came before, jumps back included: while the clock does not go back, a window of any width
   admits at most width / period + 1 samples.
   */
  lemma AdmittedPerWindow(period: nat, earlier: seq<RosTime>, samples: seq<RosTime>, start: RosTime, width: nat)
    requires period > 0 && NonDecreasing(samples)
    ensures
      |InWindow(Admitted(AfterSamples(RateWindow(Some(period), None), earlier), samples), start,
          width)| <= width / period + 1
  {
    var w := AfterSamples(RateWindow(Some(period), None), earlier);
    WindowStartsAtASample(RateWindow(Some(period), None), earlier);
    AdmittedSpaced(w, samples);
    WindowBound(Admitted(w, samples), period, start, width);
  }

  /** Whatever the clock did before, a sample at least one period after all earlier ones passes: no stall. */
  lemma NeverStalls(period: nat, earlier: seq<RosTime>, now: RosTime)
    requires forall i | 0 <= i < |earlier| :: now - earlier[i] >= period
    ensures Passes(AfterSamples(RateWindow(Some(period), None), earlier), now)
  {
    WindowStartsAtASample(RateWindow(Some(period), None), earlier);
  }

  /**
   After a jump back to `jump` everything before jump + period is dropped and the first sample
   from then on passes, no matter how far ahead the old timestamp was.
   */
  lemma {:induction false} RecoversOnePeriodAfterJump(w: RateWindow, jump: RosTime, soon: seq<RosTime>, late: RosTime)
    requires w.minPeriod.Some? && w.minPeriod.value > 0
    requires w.lastForwardTime.Some? && w.lastForwardTime.value >= jump
    requires forall i | 0 <= i < |soon| :: jump <= soon[i] < jump + w.minPeriod.value
    requires late >= jump + w.minPeriod.value
    ensures Admitted(w, [jump] + soon + [late]) == [late]
  {
    var next := AfterSample(w, jump);
    assert !Passes(w, jump) && next == w.(lastForwardTime := Some(jump));
    assert ([jump] + soon + [late])[1..] == soon + [late];
    DropsWithinPeriod(next, soon, late);
  }

  lemma {:induction false} DropsWithinPeriod(w: RateWindow, soon: seq<RosTime>, late: RosTime)
    requires w.minPeriod.Some? && w.lastForwardTime.Some?
    requires forall i | 0 <= i < |soon| ::
               w.lastForwardTime.value <= soon[i] < w.lastForwardTime.value + w.minPeriod.value
    requires late >= w.lastForwardTime.value + w.minPeriod.value
    ensures Admitted(w, soon + [late]) == [late]
  {
    if soon == [] {
      assert soon + [late] == [late] && [late][1..] == [];
    } else {
      assert (soon + [late])[0] == soon[0] && (soon + [late])[1..] == soon[1..] + [late];
      DropsWithinPeriod(w, soon[1..], late);
    }
  }
}
