/** The average of averages of a set against the recorded extremes of its averages, for averages
    of any sign. (controller/benchmark.go, Process) */
module SetMean {
  import opened Benchmark
  import opened Float
  import opened MinMax
  import opened Summary
  import opened Process
  import opened Deviation
  import opened MapOrder
  import Interleaving

  /** Nobody has reported exactly once, so that all averages are numbers. */
  ghost predicate NobodyOnce(raw: seq<WorkerReport>, set_: int) {
    forall id: WorkerId :: id.Set == set_ ==> !ReportedOnce(raw, id)
  }

  lemma VisitedFinite(m: Metric, raw: seq<WorkerReport>, order: seq<WorkerId>, set_: int)
    requires MeasuredWorkers(raw, set_) && NobodyOnce(raw, set_)
    ensures AllFinite(Visited(m, raw, order, set_))
  {
    forall i | 0 <= i < |Visited(m, raw, order, set_)| ensures Visited(m, raw, order, set_)[i].Fin? {
      var id := VisitedAverage(m, raw, order, set_, Visited(m, raw, order, set_)[i]);
    }
  }

  /** What is averaged is the average of somebody visited, or the 0 of a silent worker. */
  lemma AveragedIsVisited(m: Metric, raw: seq<WorkerReport>, order: seq<WorkerId>, set_: int, count: int, j: int)
    requires IsOrder(order, raw) && HeardFrom(raw, set_) && 0 <= j < count
    ensures |SetAverages(m, raw, set_, count)| == count
    ensures var x := SetAverages(m, raw, set_, count)[j]; x == ZERO || x in Visited(m, raw, order, set_)
  {
    SetAverageAt(m, raw, set_, count, j);
    if Proj(raw, WorkerId(set_, j)) != [] {
      AverageVisited(m, raw, order, WorkerId(set_, j));
    }
  }

  /** The mean of some of these values and zeros is between their floor and their maximum. */
  lemma MeanOfValuesAndZeros(xs: seq<F64>, ws: seq<F64>)
    requires xs != [] && AllFinite(ws)
    requires forall i :: 0 <= i < |xs| ==> xs[i] == ZERO || xs[i] in ws
    ensures Summary.Mean(xs).Fin? && AtMost(Floor(ws), Summary.Mean(xs))
    ensures AtMost(Summary.Mean(xs), Extremes(ws).Max)
  {
    ExtremesState(ws);
    var lo, hi := Floor(ws).r, Extremes(ws).Max.r;
    forall i | 0 <= i < |xs| ensures xs[i].Fin? && lo <= xs[i].r <= hi {
      if xs[i] in ws {
        FloorAndMaxBound(ws, xs[i]);
      }
    }
    var n, t := |xs| as real, Total(xs);
    var mean := FloatMean(xs, n, t);
    MeanBetween(xs, lo, hi, mean, n, t);
  }

  /** For averages of any sign, and with or without silent workers: the average of averages is
      never above the recorded maximum. It is not below the recorded minimum exactly if some
      average is negative, or the last one visited is 0, or one visited after the last 0 is not
      above it. */
  lemma SetMeanExact(m: Metric, raw: seq<WorkerReport>, order: seq<WorkerId>, set_: int, count: int)
    requires IsOrder(order, raw) && HeardFrom(raw, set_) && count > 0
    requires MeasuredWorkers(raw, set_) && NobodyOnce(raw, set_)
    ensures var s := SetMetricOf(m, raw, order, set_, Row(Traces(raw, set_, count)));
            var averages := Visited(m, raw, order, set_);
            && AllFinite(averages) && s.AvgAvg.Fin?
            && AtMost(s.AvgAvg, s.MinMaxAvg.Max)
            && (AtMost(s.MinMaxAvg.Min, s.AvgAvg) <==>
                  || HasNegative(averages)
                  || SinceZero(averages) == []
                  || exists x :: x in SinceZero(averages) && AtMost(x, s.AvgAvg))
  {
    var xs, ws := SetAverages(m, raw, set_, count), Visited(m, raw, order, set_);
    VisitedFinite(m, raw, order, set_);
    AveragedIsVisited(m, raw, order, set_, count, 0);
    forall j | 0 <= j < |xs| ensures xs[j] == ZERO || xs[j] in ws {
      AveragedIsVisited(m, raw, order, set_, count, j);
    }
    MeanOfValuesAndZeros(xs, ws);
    MinNotAbove(ws, Summary.Mean(xs));
  }

  // ------------------------------------------------------------------ totals

  function RealSum(ts: seq<real>): real {
    if ts == [] then 0.0 else RealSum(ts[..|ts| - 1]) + ts[|ts| - 1]
  }

  lemma {:induction false} SumIsRealSum(xs: seq<F64>, ts: seq<real>)
    requires |xs| == |ts| && forall i :: 0 <= i < |xs| ==> xs[i] == Fin(ts[i])
    ensures Sum(xs) == Fin(RealSum(ts))
  {
    if xs != [] {
      SumIsRealSum(xs[..|xs| - 1], ts[..|ts| - 1]);
    }
  }

  lemma MeanOfTotal(xs: seq<F64>, total: real, n: real)
    requires xs != [] && Sum(xs) == Fin(total) && n == |xs| as real
    ensures Summary.Mean(xs).Fin? && Summary.Mean(xs).r * n == total
  {
    var mean := FloatQuotient(Sum(xs), total, |xs|, n);
  }

  lemma SetFields(raw: seq<WorkerReport>, order: seq<WorkerId>, set_: int, count: int, s: SetSummary)
    requires s == SetOf(raw, order, set_, count)
    ensures s.Tput.Total == Sum(Averages(s.Workers, Tput)) && s.Tput.AvgAvg == Summary.Mean(Averages(s.Workers, Tput))
    ensures s.Util.Total == Sum(Averages(s.Workers, Util)) && s.Util.AvgAvg == Summary.Mean(Averages(s.Workers, Util))
  {
  }

  ghost predicate TotalOf(total: F64, avg: F64, ts: seq<real>) {
    && total == Fin(RealSum(ts))
    && (ts != [] ==> avg.Fin? && avg.r * |ts| as real == RealSum(ts))
  }

  lemma MetricTotals(xs: seq<F64>, total: F64, avg: F64, ts: seq<real>)
    requires total == Sum(xs) && avg == Summary.Mean(xs)
    requires |xs| == |ts| && forall j :: 0 <= j < |xs| ==> xs[j] == Fin(ts[j])
    ensures TotalOf(total, avg, ts)
  {
    SumIsRealSum(xs, ts);
    if ts != [] {
      MeanOfTotal(xs, RealSum(ts), |ts| as real);
    }
  }

  /** The total of a set is the sum of its workers' averages, and the average of averages that sum
      divided by the number of workers: for throughput and for utilization. */
  lemma SetTotals(raw: seq<WorkerReport>, order: seq<WorkerId>, set_: int, count: int, s: SetSummary,
                  ts: seq<real>, us: seq<real>)
    requires s == SetOf(raw, order, set_, count) && |ts| == |us| == |s.Workers|
    requires forall j :: 0 <= j < |ts| ==> s.Workers[j].Tput.Avg == Fin(ts[j]) && s.Workers[j].Util.Avg == Fin(us[j])
    ensures TotalOf(s.Tput.Total, s.Tput.AvgAvg, ts) && TotalOf(s.Util.Total, s.Util.AvgAvg, us)
  {
    SetFields(raw, order, set_, count, s);
    MetricTotals(Averages(s.Workers, Tput), s.Tput.Total, s.Tput.AvgAvg, ts);
    MetricTotals(Averages(s.Workers, Util), s.Util.Total, s.Util.AvgAvg, us);
  }

  /** With averages that are not negative the total is at least each of them. */
  lemma {:induction false} TotalNotBelow(ts: seq<real>, i: nat)
    requires i < |ts| && forall j :: 0 <= j < |ts| ==> ts[j] >= 0.0
    ensures 0.0 <= ts[i] <= RealSum(ts)
  {
    var k := |ts| - 1;
    if i < k {
      TotalNotBelow(ts[..k], i);
    } else if k > 0 {
      TotalNotBelow(ts[..k], 0);
    }
  }
}
