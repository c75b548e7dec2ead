/** Two workers of a set that report twice each: their windows, and the whole summary of one
    such run in figures. (controller/benchmark.go, Process) */
module TwoReports {
  import opened Benchmark
  import opened Float
  import opened MinMax
  import opened Summary
  import opened Process
  import opened Reals
  import opened MapOrder
  import Mean

  // Stated for any reports, built up from named sequences, which is easier on the solver.

  lemma ProjTwo(a: WorkerReport, b: WorkerReport, id: WorkerId)
    requires a.Id != b.Id
    ensures Proj([a], id) == if id == a.Id then [a] else []
    ensures Proj([a, b], id) == if id == a.Id then [a] else if id == b.Id then [b] else []
  {
    assert [] + [a] == [a] && [] + [b] == [b] && [a] + [b] == [a, b];
    ProjSnoc([], a, id);
    ProjSnoc([a], b, id);
  }

  lemma ProjMore(two: seq<WorkerReport>, c: WorkerReport, d: WorkerReport, id: WorkerId)
    requires c.Id != d.Id
    ensures Proj(two + [c], d.Id) == Proj(two, d.Id)
    ensures Proj((two + [c]) + [d], id) ==
            if id == c.Id then Proj(two, id) + [c] else if id == d.Id then Proj(two, id) + [d] else Proj(two, id)
  {
    ProjSnoc(two, c, id);
    ProjSnoc(two, c, d.Id);
    ProjSnoc(two + [c], d, id);
  }

  lemma ClosedAfterOne(m: Metric, a: WorkerReport, b: WorkerReport)
    requires a.Now != 0
    ensures Closed(m, [], a) == [] && Closed(m, [a], b) == [Window(m, a, b)]
  {
    Mean.StartIsFirst([a]);
  }

  lemma NextWindow(m: Metric, raw: seq<WorkerReport>, first: WorkerReport, e: WorkerReport, xs: seq<F64>, x: F64)
    requires Proj(raw, e.Id) == [first] && first.Now != 0 && SetWindows(m, raw, e.Id.Set) == xs
    requires x == Window(m, first, e)
    ensures SetWindows(m, raw + [e], e.Id.Set) == xs + [x]
  {
    ClosedAfterOne(m, first, e);
    SetWindowsSnoc(m, raw, e, e.Id.Set);
  }

  lemma LastWindow(m: Metric, raw: seq<WorkerReport>, first: WorkerReport, e: WorkerReport, x: F64, y: F64)
    requires Proj(raw, e.Id) == [first] && first.Now != 0 && SetWindows(m, raw, e.Id.Set) == [] + [x]
    requires y == Window(m, first, e)
    ensures SetWindows(m, raw + [e], e.Id.Set) == [x, y]
  {
    NextWindow(m, raw, first, e, [] + [x], y);
    assert ([] + [x]) + [y] == [x, y];
  }

  lemma NoWindow(m: Metric, raw: seq<WorkerReport>, e: WorkerReport, set_: int)
    requires Proj(raw, e.Id) == [] && e.Now != 0
    ensures SetWindows(m, raw + [e], set_) == SetWindows(m, raw, set_)
  {
    ClosedAfterOne(m, e, e);
    SetWindowsSnoc(m, raw, e, set_);
  }

  lemma WindowsOfTwo(m: Metric, two: seq<WorkerReport>, e: WorkerReport, c: WorkerReport, x: F64,
                     f: WorkerReport, d: WorkerReport, y: F64)
    requires Proj(two, c.Id) == [e] && e.Now != 0 && Proj(two, d.Id) == [f] && f.Now != 0
    requires c.Id != d.Id && c.Id.Set == d.Id.Set && SetWindows(m, two, c.Id.Set) == []
    requires x == Window(m, e, c) && y == Window(m, f, d)
    ensures SetWindows(m, (two + [c]) + [d], c.Id.Set) == [x, y]
  {
    ProjMore(two, c, d, d.Id);
    NextWindow(m, two, e, c, [], x);
    LastWindow(m, two + [c], f, d, x, y);
  }

  lemma NoWindowYet(m: Metric, a: WorkerReport, b: WorkerReport)
    requires a.Id != b.Id && a.Now != 0 && b.Now != 0
    ensures SetWindows(m, [a, b], a.Id.Set) == []
  {
    ProjTwo(a, b, b.Id);
    NoWindow(m, [], a, a.Id.Set);
    assert [] + [a] == [a];
    NoWindow(m, [a], b, a.Id.Set);
    assert [a] + [b] == [a, b];
  }

  lemma VisitedTwo(m: Metric, raw: seq<WorkerReport>, a: WorkerId, b: WorkerId, x: F64, y: F64)
    requires a != b && a.Set == b.Set && Proj(raw, a) != [] && Proj(raw, b) != []
    requires forall id :: Proj(raw, id) != [] ==> id == a || id == b
    requires x == Average(m, Proj(raw, a)) && y == Average(m, Proj(raw, b))
    ensures IsOrder([a, b], raw) && Visited(m, raw, [a, b], a.Set) == [x, y]
  {
    VisitedOne(m, raw, a);
    VisitedOne(m, raw, b);
    VisitedConcat(m, raw, [a], [b], a.Set);
    assert [a] + [b] == [a, b] && [x] + [y] == [x, y];
  }

  // ---------------------------------------------------------- one summary

  lemma OneExtreme(x: F64)
    requires Positive(x)
    ensures Extremes([x]) == Range(x, x)
  {
    ExtremesSnoc([], x);
    assert [] + [x] == [x];
  }

  lemma TwoExtremes(x: F64, y: F64)
    requires Positive(x) && Positive(y) && Less(x, y)
    ensures Extremes([x, y]) == Range(x, y)
  {
    OneExtreme(x);
    ExtremesSnoc([x], y);
    assert [x] + [y] == [x, y];
  }

  /** The entry of a worker with two reports, the first of them without work. */
  lemma Entry(a: WorkerReport, b: WorkerReport, x: F64, y: F64)
    requires a.Now != 0 && a.Kops == 0 && Positive(x) && Positive(y)
    requires x == Window(Tput, a, b) && y == Window(Util, a, b)
    ensures Average(Tput, [a, b]) == x && Average(Util, [a, b]) == y
    ensures WorkerOf([a, b]) ==
            WorkerSummary([a, b], WorkerMetric(Range(x, x), x), WorkerMetric(Range(y, y), y),
                          b.Kops, b.Now - a.Now, b.Cputime - a.Cputime)
  {
    Mean.StartIsFirst([a, b]);
    Mean.WindowsArePairs(Tput, [a, b]);
    Mean.WindowsArePairs(Util, [a, b]);
    assert Windows(Tput, [a, b]) == [x] && Windows(Util, [a, b]) == [y];
    OneExtreme(x);
    OneExtreme(y);
  }

  lemma SumOfTwo(x: F64, y: F64)
    requires x.Fin? && y.Fin?
    ensures Sum([x, y]) == Fin(x.r + y.r)
  {
    assert [x, y][..1] == [x] && [x][..0] == [];
    assert Sum([x]) == Add(Sum([]), x);
  }

  lemma MeanOfTwo(x: F64, y: F64, mean: real)
    requires x.Fin? && y.Fin? && mean * 2.0 == x.r + y.r
    ensures Summary.Mean([x, y]) == Fin(mean)
  {
    SumOfTwo(x, y);
    QuotientUnique(x.r + y.r, 2.0, mean);
  }

  lemma VarianceOfTwo(x: F64, y: F64, mean: real, d: real, v: real)
    requires x.Fin? && y.Fin? && mean * 2.0 == x.r + y.r
    requires d == y.r - mean && v == d * d
    ensures Variance([x, y]) == Fin(v)
  {
    MeanOfTwo(x, y, mean);
    assert [x, y][..1] == [x] && [x][..0] == [];
    assert Sub(x, Fin(mean)) == Fin(-d) && Sub(y, Fin(mean)) == Fin(d);
    assert Square(Fin(-d)) == Fin(v) by {
      assert (-d) * (-d) == d * d;
    }
    assert SquaredDeviations([x], Fin(mean)) == Add(ZERO, Fin(v));
    QuotientUnique(v + v, 2.0, v);
  }

  const ONE: WorkerId := WorkerId(0, 0)
  const TWO: WorkerId := WorkerId(0, 1)
  const A: WorkerReport := WorkerReport(ONE, 1_000_000_000, 0, 0, 500_000_000)
  const B: WorkerReport := WorkerReport(TWO, 1_000_000_000, 0, 0, 0)
  const C: WorkerReport := WorkerReport(ONE, 2_000_000_000, 10, 0, 700_000_000)
  const D: WorkerReport := WorkerReport(TWO, 3_000_000_000, 40, 0, 1_000_000_000)
  const FIRST_TWO: seq<WorkerReport> := [A, B]
  const RAW: seq<WorkerReport> := (FIRST_TWO + [C]) + [D]

  lemma RawTraces()
    ensures Proj(RAW, ONE) == [A, C] && Proj(RAW, TWO) == [B, D]
    ensures forall id :: Proj(RAW, id) != [] ==> id == ONE || id == TWO
  {
    assert [A] + [C] == [A, C] && [B] + [D] == [B, D];
    forall id ensures Proj(RAW, id) == if id == ONE then [A, C] else if id == TWO then [B, D] else [] {
      ProjTwo(A, B, id);
      ProjMore(FIRST_TWO, C, D, id);
    }
  }

  lemma RawRates()
    ensures Window(Tput, A, C) == Fin(10.0) && Window(Tput, B, D) == Fin(20.0)
    ensures Window(Util, A, C) == Fin(0.2) && Window(Util, B, D) == Fin(0.5)
  {
    Mean.WindowInFigures(A, C);
    Mean.WindowInFigures(B, D);
    QuotientUnique(10.0 * 1_000_000_000.0, 1_000_000_000.0, 10.0);
    QuotientUnique(40.0 * 1_000_000_000.0, 2_000_000_000.0, 20.0);
    QuotientUnique(200_000_000.0, 1_000_000_000.0, 0.2);
    QuotientUnique(1_000_000_000.0, 2_000_000_000.0, 0.5);
  }

  lemma RawWindows(m: Metric, x: F64, y: F64)
    requires x == Window(m, A, C) && y == Window(m, B, D)
    ensures SetWindows(m, RAW, 0) == [x, y]
  {
    ProjTwo(A, B, ONE);
    ProjTwo(A, B, TWO);
    NoWindowYet(m, A, B);
    WindowsOfTwo(m, FIRST_TWO, A, C, x, B, D, y);
  }

  lemma RawRow(ws: seq<WorkerSummary>)
    requires ws == Row(Traces(RAW, 0, 2))
    ensures ws == [WorkerOf([A, C]), WorkerOf([B, D])]
  {
    RawTraces();
    ProjHeardFrom(RAW, ONE);
  }

  lemma RawValues(m: Metric, x: F64, y: F64)
    requires x == Window(m, A, C) && y == Window(m, B, D)
    requires x == Average(m, [A, C]) && y == Average(m, [B, D])
    ensures SetWindows(m, RAW, 0) == [x, y]
    ensures IsOrder([ONE, TWO], RAW) && Visited(m, RAW, [ONE, TWO], 0) == [x, y]
  {
    RawTraces();
    RawWindows(m, x, y);
    VisitedTwo(m, RAW, ONE, TWO, x, y);
  }

  /** The statistics of a set from two values, both its windows and its averages. */
  lemma PairMetric(m: Metric, raw: seq<WorkerReport>, order: seq<WorkerId>, set_: int, ws: seq<WorkerSummary>,
                   x: F64, y: F64, mean: real, d: real, v: real)
    requires SetWindows(m, raw, set_) == [x, y] && Visited(m, raw, order, set_) == [x, y] && Averages(ws, m) == [x, y]
    requires Positive(x) && Positive(y) && Less(x, y)
    requires mean * 2.0 == x.r + y.r && d == y.r - mean && v == d * d
    ensures SetMetricOf(m, raw, order, set_, ws) ==
            SetMetric(Fin(x.r + y.r), Fin(mean), Range(x, y), Range(x, y), Fin(v))
  {
    TwoExtremes(x, y);
    SumOfTwo(x, y);
    MeanOfTwo(x, y, mean);
    VarianceOfTwo(x, y, mean, d, v);
  }

  lemma RawEntries(one: WorkerSummary, two: WorkerSummary)
    requires one == WorkerOf([A, C]) && two == WorkerOf([B, D])
    ensures one == WorkerSummary(
      [A, C], WorkerMetric(Range(Fin(10.0), Fin(10.0)), Fin(10.0)), WorkerMetric(Range(Fin(0.2), Fin(0.2)), Fin(0.2)),
      10, 1_000_000_000, 200_000_000)
    ensures two == WorkerSummary(
      [B, D], WorkerMetric(Range(Fin(20.0), Fin(20.0)), Fin(20.0)), WorkerMetric(Range(Fin(0.5), Fin(0.5)), Fin(0.5)),
      40, 2_000_000_000, 1_000_000_000)
    ensures SetWindows(Tput, RAW, 0) == Visited(Tput, RAW, [ONE, TWO], 0) == [Fin(10.0), Fin(20.0)]
    ensures SetWindows(Util, RAW, 0) == Visited(Util, RAW, [ONE, TWO], 0) == [Fin(0.2), Fin(0.5)]
    ensures IsOrder([ONE, TWO], RAW)
  {
    RawRates();
    Entry(A, C, Fin(10.0), Fin(0.2));
    Entry(B, D, Fin(20.0), Fin(0.5));
    RawValues(Tput, Fin(10.0), Fin(20.0));
    RawValues(Util, Fin(0.2), Fin(0.5));
  }

  lemma SetOfIs(raw: seq<WorkerReport>, order: seq<WorkerId>, set_: int, count: int, ws: seq<WorkerSummary>,
                tput: SetMetric, util: SetMetric)
    requires ws == Row(Traces(raw, set_, count))
    requires tput == SetMetricOf(Tput, raw, order, set_, ws) && util == SetMetricOf(Util, raw, order, set_, ws)
    ensures SetOf(raw, order, set_, count) == SetSummary(ws, tput, util)
  {
  }

  lemma TputInput(m: Metric, raw: seq<WorkerReport>, order: seq<WorkerId>, ws: seq<WorkerSummary>, x: F64, y: F64,
                  r: SetMetric)
    requires x == Fin(10.0) && y == Fin(20.0) && Averages(ws, m) == [x, y]
    requires SetWindows(m, raw, 0) == [x, y] && Visited(m, raw, order, 0) == [x, y]
    requires r == SetMetric(Fin(30.0), Fin(15.0), Range(x, y), Range(x, y), Fin(25.0))
    ensures SetMetricOf(m, raw, order, 0, ws) == r
  {
    PairMetric(m, raw, order, 0, ws, x, y, 15.0, 5.0, 25.0);
  }

  lemma UtilInput(m: Metric, raw: seq<WorkerReport>, order: seq<WorkerId>, ws: seq<WorkerSummary>, x: F64, y: F64,
                  r: SetMetric)
    requires x == Fin(0.2) && y == Fin(0.5) && Averages(ws, m) == [x, y]
    requires SetWindows(m, raw, 0) == [x, y] && Visited(m, raw, order, 0) == [x, y]
    requires r == SetMetric(Fin(0.7), Fin(0.35), Range(x, y), Range(x, y), Fin(0.0225))
    ensures SetMetricOf(m, raw, order, 0, ws) == r
  {
    PairMetric(m, raw, order, 0, ws, x, y, 0.35, 0.15, 0.0225);
  }

  lemma InputMetrics(raw: seq<WorkerReport>, order: seq<WorkerId>, ws: seq<WorkerSummary>, a: F64, b: F64, c: F64, d: F64,
                     tput: SetMetric, util: SetMetric)
    requires a == Fin(10.0) && b == Fin(20.0) && c == Fin(0.2) && d == Fin(0.5)
    requires tput == SetMetric(Fin(30.0), Fin(15.0), Range(a, b), Range(a, b), Fin(25.0))
    requires util == SetMetric(Fin(0.7), Fin(0.35), Range(c, d), Range(c, d), Fin(0.0225))
    requires Averages(ws, Tput) == [a, b] && Averages(ws, Util) == [c, d] && ws == Row(Traces(raw, 0, 2))
    requires SetWindows(Tput, raw, 0) == [a, b] && Visited(Tput, raw, order, 0) == [a, b]
    requires SetWindows(Util, raw, 0) == [c, d] && Visited(Util, raw, order, 0) == [c, d]
    ensures SetOf(raw, order, 0, 2) == SetSummary(ws, tput, util)
  {
    TputInput(Tput, raw, order, ws, a, b, tput);
    UtilInput(Util, raw, order, ws, c, d, util);
    SetOfIs(raw, order, 0, 2, ws, tput, util);
  }

  lemma InputRow(ws: seq<WorkerSummary>, one: WorkerSummary, two: WorkerSummary, a: F64, b: F64, c: F64, d: F64)
    requires ws == [one, two]
    requires one.Tput.Avg == a && two.Tput.Avg == b && one.Util.Avg == c && two.Util.Avg == d
    ensures Averages(ws, Tput) == [a, b] && Averages(ws, Util) == [c, d]
  {
  }

  /** The summary of one run, field by field. */
  lemma SummaryInput(raw: seq<WorkerReport>, order: seq<WorkerId>, one: WorkerSummary, two: WorkerSummary,
                     a: F64, b: F64, c: F64, d: F64, tput: SetMetric, util: SetMetric)
    requires raw == RAW && order == [ONE, TWO]
    requires a == Fin(10.0) && b == Fin(20.0) && c == Fin(0.2) && d == Fin(0.5)
    requires one == WorkerSummary([A, C], WorkerMetric(Range(a, a), a), WorkerMetric(Range(c, c), c),
                                  10, 1_000_000_000, 200_000_000)
    requires two == WorkerSummary([B, D], WorkerMetric(Range(b, b), b), WorkerMetric(Range(d, d), d),
                                  40, 2_000_000_000, 1_000_000_000)
    requires tput == SetMetric(Fin(30.0), Fin(15.0), Range(a, b), Range(a, b), Fin(25.0))
    requires util == SetMetric(Fin(0.7), Fin(0.35), Range(c, d), Range(c, d), Fin(0.0225))
    ensures IsOrder(order, raw) && SetOf(raw, order, 0, 2) == SetSummary([one, two], tput, util)
  {
    RawEntries(WorkerOf([A, C]), WorkerOf([B, D]));
    var ws := Row(Traces(raw, 0, 2));
    RawRow(ws);
    InputRow(ws, one, two, a, b, c, d);
    InputMetrics(raw, order, ws, a, b, c, d, tput, util);
  }
}
