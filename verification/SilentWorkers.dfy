/** Workers that have never reported: they count as 0 in the average of averages of their set
    but not in its extremes. (controller/benchmark.go, Process) */
module SilentWorkers {
  import opened Benchmark
  import opened Float
  import opened MinMax
  import opened Summary
  import opened Reals
  import opened Process
  import Interleaving
  import Mean
  import opened Deviation

  /** Somebody has reported, and all who have have a positive average. */
  ghost predicate PartlyReported(m: Metric, raw: seq<WorkerReport>, set_: int, count: int) {
    && (exists j :: 0 <= j < count && Proj(raw, WorkerId(set_, j)) != [])
    && forall j :: 0 <= j < count && Proj(raw, WorkerId(set_, j)) != [] ==>
         Positive(Average(m, Proj(raw, WorkerId(set_, j))))
  }

  /** The averages of those who have reported. */
  function Reporters(xs: seq<F64>): (rs: seq<F64>)
    ensures |rs| <= |xs| && forall x :: x in rs <==> x in xs && x != ZERO
  {
    if xs == [] then []
    else
      var k := |xs| - 1;
      assert xs == xs[..k] + [xs[k]];
      if xs[k] == ZERO then Reporters(xs[..k]) else Reporters(xs[..k]) + [xs[k]]
  }

  ghost predicate ZeroOrPositive(xs: seq<F64>) {
    forall i :: 0 <= i < |xs| ==> xs[i] == ZERO || Positive(xs[i])
  }

  function AverageOrZero(m: Metric, trace: seq<WorkerReport>): F64 {
    if trace == [] then ZERO else Average(m, trace)
  }

  lemma PartialAverageAt(m: Metric, raw: seq<WorkerReport>, set_: int, count: int, j: int)
    requires PartlyReported(m, raw, set_, count) && 0 <= j < count
    ensures var xs := SetAverages(m, raw, set_, count);
            && |xs| == count && xs[j] == AverageOrZero(m, Proj(raw, WorkerId(set_, j)))
            && (xs[j] == ZERO || Positive(xs[j]))
            && (xs[j] == ZERO <==> Proj(raw, WorkerId(set_, j)) == [])
  {
    var k :| 0 <= k < count && Proj(raw, WorkerId(set_, k)) != [];
    ProjHeardFrom(raw, WorkerId(set_, k));
    SetAverageAt(m, raw, set_, count, j);
  }

  lemma PartialAverages(m: Metric, raw: seq<WorkerReport>, set_: int, count: int)
    requires PartlyReported(m, raw, set_, count)
    ensures var xs := SetAverages(m, raw, set_, count);
            |xs| == count && ZeroOrPositive(xs) && Reporters(xs) != []
  {
    var xs := SetAverages(m, raw, set_, count);
    var k :| 0 <= k < count && Proj(raw, WorkerId(set_, k)) != [];
    PartialAverageAt(m, raw, set_, count, k);
    assert xs[k] in xs;
    forall j | 0 <= j < |xs| ensures xs[j] == ZERO || Positive(xs[j]) {
      PartialAverageAt(m, raw, set_, count, j);
    }
  }

  lemma ReporterVisited(m: Metric, raw: seq<WorkerReport>, order: seq<WorkerId>, set_: int, count: int, x: F64)
    requires IsOrder(order, raw) && PartlyReported(m, raw, set_, count)
    requires x in Reporters(SetAverages(m, raw, set_, count))
    ensures x in Visited(m, raw, order, set_)
  {
    var xs := SetAverages(m, raw, set_, count);
    PartialAverages(m, raw, set_, count);
    var j :| 0 <= j < |xs| && xs[j] == x;
    PartialAverageAt(m, raw, set_, count, j);
    assert WorkerId(set_, j) in order;
    Interleaving.VisitedAreWorkers(m, raw, order, set_, x);
  }

  lemma VisitedReporter(m: Metric, raw: seq<WorkerReport>, order: seq<WorkerId>, set_: int, count: int, x: F64)
    requires PartlyReported(m, raw, set_, count) && IdsWithin(raw, set_, count)
    requires x in Visited(m, raw, order, set_)
    ensures x in Reporters(SetAverages(m, raw, set_, count))
  {
    Interleaving.VisitedAreWorkers(m, raw, order, set_, x);
    var id :| id in order && id.Set == set_ && Proj(raw, id) != [] && x == Average(m, Proj(raw, id));
    RowIndex(raw, id, count);
    assert id == WorkerId(set_, id.Id);
    PartialAverageAt(m, raw, set_, count, id.Id);
    assert SetAverages(m, raw, set_, count)[id.Id] == x;
  }

  /** The extremes of a set are taken over those who have reported. */
  lemma ExtremesOfReporters(m: Metric, raw: seq<WorkerReport>, order: seq<WorkerId>, set_: int, count: int)
    requires IsOrder(order, raw) && PartlyReported(m, raw, set_, count) && IdsWithin(raw, set_, count)
    ensures Extremes(Visited(m, raw, order, set_)) == Extremes(Reporters(SetAverages(m, raw, set_, count)))
  {
    var rs, ys := Reporters(SetAverages(m, raw, set_, count)), Visited(m, raw, order, set_);
    forall x ensures x in ys <==> x in rs {
      if x in rs {
        ReporterVisited(m, raw, order, set_, count, x);
      }
      if x in ys {
        VisitedReporter(m, raw, order, set_, count, x);
      }
    }
    PartialAverages(m, raw, set_, count);
    ReportersPositive(SetAverages(m, raw, set_, count));
    AllPositiveSame(rs, ys);
    PositiveExtremesOfSet(rs, ys);
  }

  lemma ReportersPositive(xs: seq<F64>)
    requires ZeroOrPositive(xs)
    ensures AllFinite(xs) && AllPositive(Reporters(xs)) && AllFinite(Reporters(xs))
  {
    forall i | 0 <= i < |Reporters(xs)| ensures Positive(Reporters(xs)[i]) {
      assert Reporters(xs)[i] in Reporters(xs);
    }
  }

  /** What the reporters have above lo, taken together. */
  function Excess(xs: seq<F64>, lo: real): real
    requires AllFinite(xs)
  {
    if xs == [] then 0.0
    else
      var k := |xs| - 1;
      if xs[k] == ZERO then Excess(xs[..k], lo) else Excess(xs[..k], lo) + (xs[k].r - lo)
  }

  /** What the silent workers are short of lo, taken together: lo for each of them. */
  function Missing(xs: seq<F64>, lo: real): real {
    if xs == [] then 0.0
    else
      var k := |xs| - 1;
      if xs[k] == ZERO then Missing(xs[..k], lo) + lo else Missing(xs[..k], lo)
  }

  /** The reporters make up for the silent workers. */
  ghost predicate MakesUp(xs: seq<F64>, lo: real)
    requires AllFinite(xs)
  {
    Missing(xs, lo) <= Excess(xs, lo)
  }

  lemma BalanceStep(t: real, lo: real, n: real, b: real, x: real, t': real, n': real)
    requires t - lo * n == b && t' == t + x && n' == n + 1.0
    ensures t' - lo * n' == b + (x - lo)
  {
    assert lo * n' == lo * n + lo;
  }

  lemma {:induction false} Balance(xs: seq<F64>, lo: real, n: real, t: real, b: real)
    requires AllFinite(xs) && n == |xs| as real && t == Total(xs) && b == Excess(xs, lo) - Missing(xs, lo)
    ensures t - lo * n == b
  {
    if xs == [] {
      assert lo * 0.0 == 0.0;
    } else {
      var k := |xs| - 1;
      var t0, b0 := Total(xs[..k]), Excess(xs[..k], lo) - Missing(xs[..k], lo);
      Balance(xs[..k], lo, n - 1.0, t0, b0);
      BalanceStep(t0, lo, n - 1.0, b0, xs[k].r, t, n);
    }
  }

  lemma MeanAgainst(t: real, n: real, mean: real, lo: real, b: real)
    requires n > 0.0 && mean * n == t && t - lo * n == b
    ensures lo <= mean <==> b >= 0.0
  {
    QuotientUnique(t, n, mean);
    QuotientBounds(t, n, lo);
  }

  lemma MeanNotAboveAll(xs: seq<F64>, hi: real, mean: real, n: real, t: real)
    requires xs != [] && ZeroOrPositive(xs) && AllFinite(xs) && hi >= 0.0
    requires forall x :: x in Reporters(xs) ==> x.Fin? && x.r <= hi
    requires n == |xs| as real && t == Total(xs) && mean * n == t
    ensures mean <= hi
  {
    forall i | 0 <= i < |xs| ensures 0.0 <= xs[i].r <= hi {
      assert xs[i] in xs;
    }
    MeanBetween(xs, 0.0, hi, mean, n, t);
  }

  lemma MeanMakesUp(xs: seq<F64>, lo: real, mean: real, n: real, t: real)
    requires xs != [] && AllFinite(xs)
    requires n == |xs| as real && t == Total(xs) && mean * n == t
    ensures lo <= mean <==> MakesUp(xs, lo)
  {
    var b := Excess(xs, lo) - Missing(xs, lo);
    Balance(xs, lo, n, t, b);
    MeanAgainst(t, n, mean, lo, b);
  }

  /** The average of some values and the zeros of silent workers, against the extremes of the values. */
  lemma PartialMean(xs: seq<F64>)
    requires ZeroOrPositive(xs) && Reporters(xs) != []
    ensures AllFinite(xs) && Positive(Extremes(Reporters(xs)).Min) && Summary.Mean(xs).Fin?
    ensures AtMost(Summary.Mean(xs), Extremes(Reporters(xs)).Max)
    ensures AtMost(Extremes(Reporters(xs)).Min, Summary.Mean(xs)) <==> MakesUp(xs, Extremes(Reporters(xs)).Min.r)
  {
    var rs := Reporters(xs);
    ReportersPositive(xs);
    PositiveExtremes(rs);
    var lo, hi := Extremes(rs).Min, Extremes(rs).Max;
    assert forall x :: x in rs ==> Positive(x);
    var n, t := |xs| as real, Total(xs);
    var mean := FloatMean(xs, n, t);
    MeanNotAboveAll(xs, hi.r, mean, n, t);
    MeanMakesUp(xs, lo.r, mean, n, t);
  }

  /** For every set in which somebody has reported: the average of averages is never above the
      recorded maximum. It is not below the recorded minimum exactly if what the reporters have
      above that minimum makes up for the silent workers, who are short of all of it. */
  lemma SilentWorkersExact(m: Metric, raw: seq<WorkerReport>, order: seq<WorkerId>, set_: int, count: int)
    requires IsOrder(order, raw) && PartlyReported(m, raw, set_, count) && IdsWithin(raw, set_, count)
    ensures var s := SetMetricOf(m, raw, order, set_, Row(Traces(raw, set_, count)));
            var xs := SetAverages(m, raw, set_, count);
            && AllFinite(xs) && Positive(s.MinMaxAvg.Min) && s.AvgAvg.Fin?
            && AtMost(s.AvgAvg, s.MinMaxAvg.Max)
            && (AtMost(s.MinMaxAvg.Min, s.AvgAvg) <==> MakesUp(xs, s.MinMaxAvg.Min.r))
  {
    PartialAverages(m, raw, set_, count);
    ExtremesOfReporters(m, raw, order, set_, count);
    PartialMean(SetAverages(m, raw, set_, count));
  }

  /** The entry of a silent worker: nothing but zeros. */
  lemma SilentEntry(raw: seq<WorkerReport>, order: seq<WorkerId>, id: WorkerId, count: int)
    requires HeardFrom(raw, id.Set) && 0 <= id.Id < count && Proj(raw, id) == []
    ensures var ws := SetOf(raw, order, id.Set, count).Workers;
            && |ws| == count
            && ws[id.Id] == WorkerSummary([], WorkerMetric(Range(Fin(0.0), Fin(0.0)), Fin(0.0)),
                                          WorkerMetric(Range(Fin(0.0), Fin(0.0)), Fin(0.0)), 0, 0, 0)
  {
    assert Traces(raw, id.Set, count)[id.Id] == Proj(raw, WorkerId(id.Set, id.Id)) == [];
  }

  // ---------------------------------------------------- equal averages

  lemma {:induction false} EqualDoNotMakeUp(xs: seq<F64>, a: real)
    requires AllFinite(xs) && a > 0.0 && forall i :: 0 <= i < |xs| ==> xs[i] == ZERO || xs[i].r == a
    ensures Excess(xs, a) == 0.0 && Missing(xs, a) >= 0.0
    ensures ZERO in xs ==> Missing(xs, a) > 0.0
  {
    if xs != [] {
      var k := |xs| - 1;
      EqualDoNotMakeUp(xs[..k], a);
      assert xs[..k] + [xs[k]] == xs;
    }
  }

  lemma EqualRange(xs: seq<F64>, a: real)
    requires ZeroOrPositive(xs) && Reporters(xs) != []
    requires forall i :: 0 <= i < |xs| ==> xs[i] == ZERO || xs[i] == Fin(a)
    ensures a > 0.0 && Extremes(Reporters(xs)) == Range(Fin(a), Fin(a))
  {
    var rs := Reporters(xs);
    ReportersPositive(xs);
    PositiveExtremes(rs);
    assert forall x :: x in rs ==> x == Fin(a) && Positive(x);
  }

  lemma EqualMean(xs: seq<F64>, a: real)
    requires ZeroOrPositive(xs) && Reporters(xs) != [] && ZERO in xs
    requires forall i :: 0 <= i < |xs| ==> xs[i] == ZERO || xs[i] == Fin(a)
    ensures Extremes(Reporters(xs)) == Range(Fin(a), Fin(a)) && Less(Summary.Mean(xs), Fin(a))
  {
    EqualRange(xs, a);
    EqualDoNotMakeUp(xs, a);
    PartialMean(xs);
  }

  /** Workers that all do equally well, and one or more that are silent: the average is always
      below the minimum. */
  lemma EqualAveragesWithSilence(
      m: Metric, raw: seq<WorkerReport>, order: seq<WorkerId>, set_: int, count: int, a: real, k: int)
    requires IsOrder(order, raw) && PartlyReported(m, raw, set_, count) && IdsWithin(raw, set_, count)
    requires forall j :: 0 <= j < count && Proj(raw, WorkerId(set_, j)) != [] ==>
               Average(m, Proj(raw, WorkerId(set_, j))) == Fin(a)
    requires 0 <= k < count && Proj(raw, WorkerId(set_, k)) == []
    ensures var s := SetMetricOf(m, raw, order, set_, Row(Traces(raw, set_, count)));
            s.MinMaxAvg == Range(Fin(a), Fin(a)) && Less(s.AvgAvg, s.MinMaxAvg.Min)
  {
    var xs := SetAverages(m, raw, set_, count);
    PartialAverages(m, raw, set_, count);
    PartialAverageAt(m, raw, set_, count, k);
    assert xs[k] in xs;
    forall j | 0 <= j < |xs| ensures xs[j] == ZERO || xs[j] == Fin(a) {
      PartialAverageAt(m, raw, set_, count, j);
    }
    ExtremesOfReporters(m, raw, order, set_, count);
    EqualMean(xs, a);
  }

  // -------------------------------------------------------- one input

  const FIRST: WorkerId := WorkerId(0, 0)
  const ONE_OF_TWO: seq<WorkerReport> :=
    [WorkerReport(FIRST, 1_000_000_000, 0, 0, 0), WorkerReport(FIRST, 2_000_000_000, 10, 0, 0)]

  lemma OneOfTwoAverage()
    ensures Average(Tput, ONE_OF_TWO) == Fin(10.0)
  {
    Mean.AverageIsRate(Tput, ONE_OF_TWO);
  }

  lemma OneOfTwoAverages()
    ensures SetAverages(Tput, ONE_OF_TWO, 0, 2) == [Fin(10.0), ZERO]
    ensures Proj(ONE_OF_TWO, FIRST) == ONE_OF_TWO
  {
    OneOfTwoTraces();
    OneOfTwoAverage();
    ProjHeardFrom(ONE_OF_TWO, FIRST);
    SetAverageAt(Tput, ONE_OF_TWO, 0, 2, 0);
    SetAverageAt(Tput, ONE_OF_TWO, 0, 2, 1);
  }

  lemma MeanOfTwo(x: real)
    ensures Summary.Mean([Fin(x), ZERO]) == Fin(x / 2.0)
  {
    var xs := [Fin(x), ZERO];
    assert xs[..1] == [Fin(x)] && xs[..1][..0] == [];
    assert Sum(xs[..1]) == Add(Sum([]), Fin(x));
  }

  /** Two workers, one of which did 10 operations in a second and one of which never reported:
      the average 5 is reported with a minimum of 10. */
  lemma SilentWorkerInput()
    ensures var s := SetMetricOf(Tput, ONE_OF_TWO, [FIRST], 0, Row(Traces(ONE_OF_TWO, 0, 2)));
            s.MinMaxAvg.Min == Fin(10.0) && s.AvgAvg == Fin(5.0)
  {
    OneOfTwoAverage();
    OneOfTwoAverages();
    MeanOfTwo(10.0);
    VisitedSnoc(Tput, ONE_OF_TWO, [], FIRST, 0);
    assert [] + [FIRST] == [FIRST] && [] + [Fin(10.0)] == [Fin(10.0)];
    ExtremesSnoc([], Fin(10.0));
  }

  lemma OneOfTwoTraces()
    ensures Proj(ONE_OF_TWO, FIRST) == ONE_OF_TWO && Proj(ONE_OF_TWO, WorkerId(0, 1)) == []
  {
    var a, b := ONE_OF_TWO[0], ONE_OF_TWO[1];
    assert [] + [a] == [a] && [a] + [b] == ONE_OF_TWO;
    ProjSnoc([], a, FIRST);
    ProjSnoc([a], b, FIRST);
    ProjSnoc([], a, WorkerId(0, 1));
    ProjSnoc([a], b, WorkerId(0, 1));
  }
}
