// Execution-time bookkeeping of src-xpl/xpl_engine_info.c: a list of recent
// timing samples trimmed to a retention count, running totals and a frame
// counter. Doubles are modelled as reals (rounding is not modelled).

module EngineInfo {

  /** One xpl_execution_stats_t sample. */
  datatype Stats = Stats(engineTime: real, interpolationTime: real, renderTime: real, allTime: real)

  const Zero := Stats(0.0, 0.0, 0.0, 0.0)
  /** retain_execution_sample_count of a new execution info. */
  const DefaultRetain: nat := 5
  const FrameCountModulus: nat := 0x1_0000_0000_0000_0000

  function Add(a: Stats, b: Stats): Stats
  {
    Stats(a.engineTime + b.engineTime, a.interpolationTime + b.interpolationTime,
          a.renderTime + b.renderTime, a.allTime + b.allTime)
  }

  /** Channel-wise sum of a list of samples. */
  function Sum(xs: seq<Stats>): Stats
  {
    if |xs| == 0 then Zero else Add(Sum(xs[..|xs| - 1]), xs[|xs| - 1])
  }

  /** The evidently intended average: every channel divided by the sample
      count, and zero for no samples. */
  function Mean(xs: seq<Stats>): Stats
  {
    if |xs| == 0 then Zero
    else
      var s := Sum(xs);
      var n := |xs| as real;
      Stats(s.engineTime / n, s.interpolationTime / n, s.renderTime / n, s.allTime / n)
  }

  /** The samples kept after trimming: the newest `retain` ones. */
  function Retained(xs: seq<Stats>, retain: nat): (r: seq<Stats>)
    ensures |r| == if |xs| > retain then retain else |xs|
    ensures r == xs[|xs| - |r|..]
  {
    if |xs| > retain then xs[|xs| - retain..] else xs
  }

  /** xpl_last_times: the newest sample, or zeros when there is none. */
  function LastTimes(xs: seq<Stats>): (r: Stats)
    ensures |xs| > 0 ==> r == xs[|xs| - 1]
    ensures |xs| == 0 ==> r == Zero
  {
    if |xs| == 0 then Zero else xs[|xs| - 1]
  }

  class ExecutionInfo {
    var samples: seq<Stats>
    var retain: nat
    var total: Stats
    var frameCount: nat

    ghost predicate Valid()
      reads this
    {
      |samples| <= retain && frameCount < FrameCountModulus
    }

    /** xpl_engine_execution_info_new (the runahead read from the ini file is not modelled). */
    constructor ()
      ensures Valid()
      ensures samples == [] && retain == DefaultRetain && total == Zero && frameCount == 0
    {
      samples := [];
      retain := DefaultRetain;
      total := Zero;
      frameCount := 0;
    }

    /** xpl_log_times: totals grow only once a frame has been counted, the
        uint64 frame counter increments, the sample is appended and the oldest
        samples are dropped until no more than `retain` remain. */
    method LogTimes(s: Stats)
      modifies this
      ensures total == if old(frameCount) > 0 then Add(old(total), s) else old(total)
      ensures frameCount == (old(frameCount) + 1) % FrameCountModulus
      ensures samples == Retained(old(samples) + [s], retain)
      ensures retain == old(retain)
    {
      if frameCount > 0 {
        total := Add(total, s);
      }
      frameCount := (frameCount + 1) % FrameCountModulus;
      var head := samples + [s];
      var count := |head|;
      ghost var full := head;
      while count > retain
        invariant count == |head| <= |full|
        invariant retain <= count || count == |full|
        invariant head == full[|full| - count..]
      {
        head := head[1..];
        count := count - 1;
      }
      samples := head;
    }

    lemma LogTimesKeepsValid(s: Stats)
      requires Valid()
      ensures |Retained(samples + [s], retain)| <= retain
    {
    }
  }

  /** xpl_average_times as written: time channels are zeroed first, but the
      interpolation channel is not, so it keeps the caller's prior value when
      there are no samples and otherwise accumulates onto it. */
  method AverageTimesAsWritten(xs: seq<Stats>, prior: Stats) returns (out: Stats)
    ensures |xs| == 0 ==> out == Stats(0.0, prior.interpolationTime, 0.0, 0.0)
    ensures |xs| > 0 ==> out == Stats(Sum(xs).engineTime / |xs| as real,
                                      (prior.interpolationTime + Sum(xs).interpolationTime) / |xs| as real,
                                      Sum(xs).renderTime / |xs| as real,
                                      Sum(xs).allTime / |xs| as real)
  {
    out := Stats(0.0, prior.interpolationTime, 0.0, 0.0);
    if |xs| == 0 {
      return;
    }
    var count := 0.0;
    var i := 0;
    while i < |xs|
      invariant 0 <= i <= |xs| && count == i as real
      invariant out == Add(Stats(0.0, prior.interpolationTime, 0.0, 0.0), Sum(xs[..i]))
    {
      assert xs[..i + 1][..i] == xs[..i];
      out := Add(out, xs[i]);
      count := count + 1.0;
      i := i + 1;
    }
    assert xs[..i] == xs;
    out := Stats(out.engineTime / count, out.interpolationTime / count, out.renderTime / count, out.allTime / count);
  }

  /** The corrected average: every channel starts from zero. */
  method AverageTimes(xs: seq<Stats>) returns (out: Stats)
    ensures out == Mean(xs)
  {
    out := Zero;
    if |xs| == 0 {
      return;
    }
    var count := 0.0;
    var i := 0;
    while i < |xs|
      invariant 0 <= i <= |xs| && count == i as real
      invariant out == Sum(xs[..i])
    {
      assert xs[..i + 1][..i] == xs[..i];
      out := Add(out, xs[i]);
      count := count + 1.0;
      i := i + 1;
    }
    assert xs[..i] == xs;
    out := Stats(out.engineTime / count, out.interpolationTime / count, out.renderTime / count, out.allTime / count);
  }

  function Scaled(s: Stats, k: real): Stats
  {
    Stats(s.engineTime * k, s.interpolationTime * k, s.renderTime * k, s.allTime * k)
  }

  lemma {:induction false} SumOfRepeated(s: Stats, n: nat)
    ensures Sum(seq(n, _ => s)) == Scaled(s, n as real)
  {
    if n > 0 {
      assert seq(n, _ => s)[..n - 1] == seq(n - 1, _ => s);
      SumOfRepeated(s, n - 1);
    }
  }

  /** Averaging n copies of one sample gives that sample back. */
  lemma MeanOfRepeated(s: Stats, n: nat)
    requires n > 0
    ensures Mean(seq(n, _ => s)) == s
  {
    SumOfRepeated(s, n);
  }

  /** After logging with a positive retention count, the last times are the
      sample just logged. */
  lemma LastAfterLog(xs: seq<Stats>, s: Stats, retain: nat)
    requires retain > 0
    ensures LastTimes(Retained(xs + [s], retain)) == s
  {
  }

  /** The finding: one all-zero sample with a stale interpolation value of 1
      averages to an interpolation time of 1 where 0 is meant. */
  lemma StaleInterpolation()
    ensures Sum([Zero]) == Zero
    ensures (1.0 + Sum([Zero]).interpolationTime) / 1.0 == 1.0
    ensures Mean([Zero]).interpolationTime == 0.0
  {
    assert [Zero][..0] == [];
    assert Sum([Zero]) == Add(Sum([]), Zero);
  }
}
