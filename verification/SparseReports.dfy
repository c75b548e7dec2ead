/** Workers that have reported only once, sets that have not reported at all, and what they do
    to averages and minima. (controller/benchmark.go, Process) */
module SparseReports {
  import opened Benchmark
  import opened Float
  import opened Summary
  import opened Reals
  import MinMax
  import Mean
  import Deviation

  /** From a single report nothing can be averaged: time since the start is 0, and so is
      the work counted in a worker's first report. */
  lemma SingleReportAverage(m: Metric, trace: seq<WorkerReport>)
    requires |trace| == 1 && Mean.Measured(trace)
    ensures Average(m, trace) == NaN
  {
    Mean.StartIsFirst(trace);
    QuotientTimes(0.0, SEC as real);
    assert 0.0 / SEC as real == 0.0 by {
      QuotientUnique(0.0, SEC as real, 0.0);
    }
  }

  lemma ManyReportsAverage(m: Metric, trace: seq<WorkerReport>)
    requires |trace| >= 2 && Mean.Measured(trace)
    ensures Average(m, trace).Fin?
  {
    Mean.AverageIsRate(m, trace);
  }

  lemma {:induction false} NaNSum(xs: seq<F64>)
    requires NaN in xs
    ensures Sum(xs) == NaN
  {
    var k := |xs| - 1;
    if xs[k] != NaN {
      assert NaN in xs[..k];
      NaNSum(xs[..k]);
    }
  }

  lemma NaNMean(xs: seq<F64>)
    requires NaN in xs
    ensures Summary.Mean(xs) == NaN
  {
    NaNSum(xs);
  }

  lemma FiniteMean(xs: seq<F64>)
    requires xs != [] && AllFinite(xs)
    ensures Summary.Mean(xs).Fin?
  {
    Deviation.FloatTotal(xs);
  }

  /** Whatever the workers of a set have reported, they report it as workers do. */
  ghost predicate MeasuredSet(raw: seq<WorkerReport>, set_: int, count: int) {
    forall j :: 0 <= j < count ==> Mean.Measured(Proj(raw, WorkerId(set_, j)))
  }

  lemma TraceAverage(m: Metric, trace: seq<WorkerReport>)
    requires Mean.Measured(trace)
    ensures var x := AvgOf(WorkerOf(trace), m); if |trace| == 1 then x == NaN else x.Fin?
  {
    if |trace| == 1 {
      SingleReportAverage(m, trace);
    } else if |trace| >= 2 {
      ManyReportsAverage(m, trace);
    }
  }

  lemma SetAverageOf(m: Metric, raw: seq<WorkerReport>, set_: int, count: int, j: int)
    requires MeasuredSet(raw, set_, count) && HeardFrom(raw, set_) && 0 <= j < count
    ensures |Deviation.SetAverages(m, raw, set_, count)| == count
    ensures var x, n := Deviation.SetAverages(m, raw, set_, count)[j], |Proj(raw, WorkerId(set_, j))|;
            if n == 1 then x == NaN else x.Fin?
  {
    Deviation.SetAverageAt(m, raw, set_, count, j);
    TraceAverage(m, Proj(raw, WorkerId(set_, j)));
  }

  /** Nobody to average over: 0 divided by 0. */
  lemma NothingToAverage(m: Metric, raw: seq<WorkerReport>, set_: int, count: int)
    requires !HeardFrom(raw, set_) || count <= 0
    ensures Summary.Mean(Deviation.SetAverages(m, raw, set_, count)) == NaN
  {
    assert Deviation.SetAverages(m, raw, set_, count) == [];
  }

  /** The average of averages of a set is a number exactly if somebody in the set has
      reported and nobody exactly once. */
  lemma SetAverageIsNumber(m: Metric, raw: seq<WorkerReport>, order: seq<WorkerId>, set_: int, count: int)
    requires MeasuredSet(raw, set_, count)
    ensures var avg := SetMetricOf(m, raw, order, set_, Row(Traces(raw, set_, count))).AvgAvg;
            && (avg.Fin? <==>
                  && HeardFrom(raw, set_) && count > 0
                  && forall j :: 0 <= j < count ==> |Proj(raw, WorkerId(set_, j))| != 1)
            && (avg.Fin? || avg.NaN?)
  {
    var xs := Deviation.SetAverages(m, raw, set_, count);
    if !HeardFrom(raw, set_) || count <= 0 {
      NothingToAverage(m, raw, set_, count);
    } else if j :| 0 <= j < count && |Proj(raw, WorkerId(set_, j))| == 1 {
      SetAverageOf(m, raw, set_, count, j);
      assert xs[j] in xs;
      NaNMean(xs);
    } else {
      SetAverageOf(m, raw, set_, count, 0);
      forall j | 0 <= j < count ensures xs[j].Fin? {
        SetAverageOf(m, raw, set_, count, j);
      }
      FiniteMean(xs);
    }
  }

  /** The summary of a run that has no results yet. */
  lemma SilentSetInput()
    ensures SetOf([], [], 0, 2) ==
            var metric := SetMetric(Fin(0.0), NaN, MinMax.Range(Fin(0.0), Fin(0.0)), MinMax.Range(Fin(0.0), Fin(0.0)), NaN);
            SetSummary([], metric, metric)
  {
    NothingToAverage(Tput, [], 0, 2);
    NothingToAverage(Util, [], 0, 2);
    assert Row(Traces([], 0, 2)) == [] && Averages([], Tput) == Averages([], Util) == [];
  }
}
