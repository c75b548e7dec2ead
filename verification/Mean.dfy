/** Averages lie between the extremes of the windows they average over: the mediant
    inequality over a trace of any length. (controller/benchmark.go; worker/worker.c) */
module Mean {
  import opened Benchmark
  import opened Float
  import opened MinMax
  import opened Summary
  import opened Reals
  import EventEngine
  import EngineReports
  import Clock

  /** A trace as the worker produces it: time runs, and the first report comes before any work. */
  ghost predicate Measured(trace: seq<WorkerReport>) {
    && (trace != [] ==> trace[0].Now > 0 && trace[0].Kops == 0)
    && forall i, j :: 0 <= i < j < |trace| ==> trace[i].Now < trace[j].Now
  }

  lemma {:induction false} StartIsFirst(trace: seq<WorkerReport>)
    requires trace != [] && trace[0].Now != 0
    ensures Started(trace) && Start(trace) == trace[0]
  {
    if |trace| > 1 {
      var before := trace[..|trace| - 1];
      assert before[0] == trace[0];
      StartIsFirst(before);
    }
  }

  function Pairs(m: Metric, trace: seq<WorkerReport>): seq<F64>
    requires trace != []
  {
    seq(|trace| - 1, i requires 0 <= i < |trace| - 1 => Window(m, trace[i], trace[i + 1]))
  }

  lemma PairsSnoc(m: Metric, trace: seq<WorkerReport>)
    requires |trace| > 1
    ensures var k := |trace| - 1;
            Pairs(m, trace) == Pairs(m, trace[..k]) + [Window(m, trace[k - 1], trace[k])]
  {
  }

  /** With a first time that is not 0 there is one window for each pair of neighbours. */
  lemma {:induction false} WindowsArePairs(m: Metric, trace: seq<WorkerReport>)
    requires trace != [] && trace[0].Now != 0
    ensures Windows(m, trace) == Pairs(m, trace)
  {
    var k := |trace| - 1;
    var before := trace[..k];
    if k > 0 {
      assert before[0] == trace[0] && Last(before) == trace[k - 1];
      StartIsFirst(before);
      WindowsArePairs(m, before);
      PairsSnoc(m, trace);
    } else {
      assert Windows(m, before) == [] && !Started(before);
    }
  }

  /** The report at index i is the first with a time other than 0. */
  ghost predicate FirstTimed(trace: seq<WorkerReport>, i: nat) {
    i < |trace| && trace[i].Now != 0 && forall j :: 0 <= j < i ==> trace[j].Now == 0
  }

  lemma {:induction false} WindowsAfterZeros(m: Metric, zeros: seq<WorkerReport>, timed: seq<WorkerReport>)
    requires (forall j :: 0 <= j < |zeros| ==> zeros[j].Now == 0) && timed != [] && timed[0].Now != 0
    ensures Started(zeros + timed) && Start(zeros + timed) == timed[0]
    ensures Windows(m, zeros + timed) == Pairs(m, timed)
    decreases |timed|
  {
    var before, e := timed[..|timed| - 1], timed[|timed| - 1];
    assert timed == before + [e] && zeros + timed == (zeros + before) + [e];
    if before == [] {
      assert zeros + before == zeros;
      FirstOfTime(m, zeros, e);
    } else {
      WindowsAfterZeros(m, zeros, before);
      assert Last(zeros + before) == Last(before);
      WindowsNext(m, zeros + before, e);
      PairsNext(m, before, e);
    }
  }

  lemma FirstOfTime(m: Metric, zeros: seq<WorkerReport>, e: WorkerReport)
    requires (forall j :: 0 <= j < |zeros| ==> zeros[j].Now == 0) && e.Now != 0
    ensures Started(zeros + [e]) && Start(zeros + [e]) == e && Windows(m, zeros + [e]) == Pairs(m, [e]) == []
  {
    var trace := zeros + [e];
    assert trace[..|zeros|] == zeros && trace[|zeros|] == e;
    NoneTimed(m, zeros);
  }

  /** Reports with time 0 at the beginning do not count. */
  lemma WindowsFromFirstTimed(m: Metric, trace: seq<WorkerReport>, i: nat)
    requires FirstTimed(trace, i)
    ensures Started(trace) && Start(trace) == trace[i] && Windows(m, trace) == Pairs(m, trace[i..])
  {
    WindowsAfterZeros(m, trace[..i], trace[i..]);
    assert trace[..i] + trace[i..] == trace;
  }

  lemma WindowsNext(m: Metric, before: seq<WorkerReport>, e: WorkerReport)
    requires Started(before)
    ensures Started(before + [e]) && Start(before + [e]) == Start(before)
    ensures Windows(m, before + [e]) == Windows(m, before) + [Window(m, Last(before), e)]
  {
    var trace := before + [e];
    assert trace[..|before|] == before;
    var j :| 0 <= j < |before| && before[j].Now != 0;
    assert trace[j].Now != 0;
  }

  lemma PairsNext(m: Metric, before: seq<WorkerReport>, e: WorkerReport)
    requires before != []
    ensures Pairs(m, before + [e]) == Pairs(m, before) + [Window(m, Last(before), e)]
  {
    var trace := before + [e];
    assert trace[..|before|] == before && trace[|before|] == e && trace[|before| - 1] == Last(before);
    PairsSnoc(m, trace);
  }

  /** If all times are 0 there is no window, and the last report is the one measured from. */
  lemma {:induction false} NoneTimed(m: Metric, trace: seq<WorkerReport>)
    requires forall j :: 0 <= j < |trace| ==> trace[j].Now == 0
    ensures !Started(trace) && Windows(m, trace) == []
    ensures trace != [] ==> Start(trace) == trace[|trace| - 1]
  {
    if trace != [] {
      NoneTimed(m, trace[..|trace| - 1]);
    }
  }

  /** A worker's entry: its reports, the last counter, and time and cpu time from the first
      report with a time to the last. */
  lemma TotalsOfWorker(trace: seq<WorkerReport>, i: nat)
    requires FirstTimed(trace, i)
    ensures var w, last := WorkerOf(trace), trace[|trace| - 1];
            && w.Raw == trace && w.TotalTput == last.Kops
            && w.TotalTime == last.Now - trace[i].Now && w.TotalCputime == last.Cputime - trace[i].Cputime
  {
    WindowsFromFirstTimed(Tput, trace, i);
  }

  // ------------------------------------------------------------------- rates

  /** What is counted, in units that make a rate a plain quotient by nanoseconds. */
  function Amount(m: Metric, e: WorkerReport): real {
    match m
    case Tput => e.Kops as real * 1_000_000_000.0
    case Util => e.Cputime as real
  }

  /** A window in figures: thousands of operations a second, and cpu time in its share of
      the time, whichever way the time has gone. */
  lemma WindowInFigures(a: WorkerReport, b: WorkerReport)
    requires a.Now != b.Now
    ensures Window(Tput, a, b) == Fin((b.Kops - a.Kops) as real * 1_000_000_000.0 / (b.Now - a.Now) as real)
    ensures Window(Util, a, b) == Fin((b.Cputime - a.Cputime) as real / (b.Now - a.Now) as real)
  {
    QuotientOfQuotient((b.Kops - a.Kops) as real, (b.Now - a.Now) as real, SEC as real);
  }

  /** An average in figures: all that the last report counts, even before the first, and the cpu
      time since the first, by the time since the first. */
  lemma AverageInFigures(trace: seq<WorkerReport>, i: nat)
    requires FirstTimed(trace, i) && Last(trace).Now != trace[i].Now
    ensures var last, time := Last(trace), (Last(trace).Now - trace[i].Now) as real;
            && Average(Tput, trace) == Fin(last.Kops as real * 1_000_000_000.0 / time)
            && Average(Util, trace) == Fin((last.Cputime - trace[i].Cputime) as real / time)
  {
    WindowsFromFirstTimed(Tput, trace, i);
    QuotientOfQuotient(Last(trace).Kops as real, (Last(trace).Now - trace[i].Now) as real, SEC as real);
  }

  /** Between two reports of the same time it is infinite, or not a number. */
  lemma WindowOfNoTime(m: Metric, a: WorkerReport, b: WorkerReport)
    requires a.Now == b.Now
    ensures var change := if m == Tput then b.Kops - a.Kops else b.Cputime - a.Cputime;
            Window(m, a, b) == if change > 0 then PosInf else if change < 0 then NegInf else NaN
  {
    assert 0.0 / SEC as real == 0.0 by {
      QuotientUnique(0.0, SEC as real, 0.0);
    }
  }

  lemma WindowIsRate(m: Metric, a: WorkerReport, b: WorkerReport)
    requires a.Now < b.Now
    ensures Window(m, a, b) == Fin((Amount(m, b) - Amount(m, a)) / (b.Now - a.Now) as real)
  {
    WindowInFigures(a, b);
    ScaleDifference(a.Kops, b.Kops);
  }

  lemma ScaleDifference(a: int, b: int)
    ensures (b - a) as real * 1_000_000_000.0 == b as real * 1_000_000_000.0 - a as real * 1_000_000_000.0
  {
  }

  lemma AverageIsRate(m: Metric, trace: seq<WorkerReport>)
    requires Measured(trace) && |trace| >= 2
    ensures trace[0].Now < Last(trace).Now
    ensures Average(m, trace) ==
            Fin((Amount(m, Last(trace)) - Amount(m, trace[0])) / (Last(trace).Now - trace[0].Now) as real)
  {
    StartIsFirst(trace);
    WindowIsRate(m, trace[0], Last(trace));
  }

  /** Every window's rate is between lo and hi. */
  ghost predicate RatesBetween(m: Metric, trace: seq<WorkerReport>, lo: real, hi: real) {
    forall i :: 0 <= i < |trace| - 1 ==>
      AtMost(Fin(lo), Window(m, trace[i], trace[i + 1])) && AtMost(Window(m, trace[i], trace[i + 1]), Fin(hi))
  }

  lemma WindowBetween(m: Metric, a: WorkerReport, b: WorkerReport, lo: real, hi: real)
    requires a.Now < b.Now
    requires AtMost(Fin(lo), Window(m, a, b)) && AtMost(Window(m, a, b), Fin(hi))
    ensures Bounded(lo, hi, (b.Now - a.Now) as real, Amount(m, b) - Amount(m, a))
  {
    WindowIsRate(m, a, b);
    QuotientBounds(Amount(m, b) - Amount(m, a), (b.Now - a.Now) as real, lo);
    QuotientBounds(Amount(m, b) - Amount(m, a), (b.Now - a.Now) as real, hi);
  }

  lemma BoundsAdd(lo: real, hi: real, t0: real, x0: real, t1: real, x1: real, t: real, x: real)
    requires Bounded(lo, hi, t0, x0) && Bounded(lo, hi, t1, x1)
    requires t == t0 + t1 && x == x0 + x1
    ensures Bounded(lo, hi, t, x)
  {
    assert lo * t == lo * t0 + lo * t1 && hi * t == hi * t0 + hi * t1;
  }

  function Span(trace: seq<WorkerReport>): real
    requires trace != []
  {
    (Last(trace).Now - trace[0].Now) as real
  }

  function Change(m: Metric, trace: seq<WorkerReport>): real
    requires trace != []
  {
    Amount(m, Last(trace)) - Amount(m, trace[0])
  }

  /** The bounds on the rates, multiplied out. */
  predicate Bounded(lo: real, hi: real, t: real, x: real) {
    lo * t <= x <= hi * t
  }

  /** A trace changes by what it changed before its last window, and in that window. */
  lemma ChangeSplits(m: Metric, trace: seq<WorkerReport>)
    requires |trace| > 1
    ensures var k := |trace| - 1;
            && Span(trace) == Span(trace[..k]) + (trace[k].Now - trace[k - 1].Now) as real
            && Change(m, trace) == Change(m, trace[..k]) + (Amount(m, trace[k]) - Amount(m, trace[k - 1]))
  {
  }

  /** The mediant inequality, along the trace. */
  lemma {:induction false} ChangeBetween(m: Metric, trace: seq<WorkerReport>, lo: real, hi: real)
    requires Measured(trace) && trace != [] && RatesBetween(m, trace, lo, hi)
    ensures Bounded(lo, hi, Span(trace), Change(m, trace))
  {
    var k := |trace| - 1;
    if k > 0 {
      ChangeBetween(m, trace[..k], lo, hi);
      WindowBetween(m, trace[k - 1], trace[k], lo, hi);
      ChangeSplits(m, trace);
      BoundsAdd(lo, hi, Span(trace[..k]), Change(m, trace[..k]),
                (trace[k].Now - trace[k - 1].Now) as real, Amount(m, trace[k]) - Amount(m, trace[k - 1]),
                Span(trace), Change(m, trace));
    }
  }

  lemma AverageBetweenRates(m: Metric, trace: seq<WorkerReport>, lo: real, hi: real)
    requires Measured(trace) && |trace| >= 2 && RatesBetween(m, trace, lo, hi)
    ensures Average(m, trace).Fin? && lo <= Average(m, trace).r <= hi
  {
    ChangeBetween(m, trace, lo, hi);
    AverageIsRate(m, trace);
    QuotientBounds(Change(m, trace), Span(trace), lo);
    QuotientBounds(Change(m, trace), Span(trace), hi);
  }

  lemma WindowsFinite(m: Metric, trace: seq<WorkerReport>)
    requires Measured(trace) && |trace| >= 2
    ensures AllFinite(Windows(m, trace)) && Windows(m, trace) != []
  {
    WindowsArePairs(m, trace);
    forall i | 0 <= i < |trace| - 1 ensures Windows(m, trace)[i].Fin? {
      WindowIsRate(m, trace[i], trace[i + 1]);
    }
  }

  lemma RatesOfWindows(m: Metric, trace: seq<WorkerReport>, lo: F64, hi: F64)
    requires trace != [] && trace[0].Now != 0 && lo.Fin? && hi.Fin?
    requires forall x :: x in Windows(m, trace) ==> AtMost(lo, x) && AtMost(x, hi)
    ensures RatesBetween(m, trace, lo.r, hi.r)
  {
    WindowsArePairs(m, trace);
    forall i | 0 <= i < |trace| - 1
      ensures AtMost(lo, Window(m, trace[i], trace[i + 1])) && AtMost(Window(m, trace[i], trace[i + 1]), hi)
    {
      assert Windows(m, trace)[i] in Windows(m, trace);
    }
  }

  /** The average is between the least and the greatest window, whatever their signs. */
  lemma AverageBetweenWindows(m: Metric, trace: seq<WorkerReport>, lo: F64, hi: F64)
    requires Measured(trace) && |trace| >= 2
    requires IsLeast(lo, Windows(m, trace)) && IsGreatest(hi, Windows(m, trace))
    ensures AtMost(lo, Average(m, trace)) && AtMost(Average(m, trace), hi)
  {
    WindowsFinite(m, trace);
    RatesOfWindows(m, trace, lo, hi);
    AverageBetweenRates(m, trace, lo.r, hi.r);
  }

  function MetricOf(w: WorkerSummary, m: Metric): WorkerMetric {
    match m
    case Tput => w.Tput
    case Util => w.Util
  }

  /** In a worker's summary Min <= Avg <= Max when all its windows are positive. */
  lemma MeanBetweenExtremes(m: Metric, trace: seq<WorkerReport>)
    requires Measured(trace) && |trace| >= 2 && AllPositive(Windows(m, trace))
    ensures var s := MetricOf(WorkerOf(trace), m);
            AtMost(s.MinMax.Min, s.Avg) && AtMost(s.Avg, s.MinMax.Max) && Positive(s.Avg)
  {
    WindowsFinite(m, trace);
    PositiveExtremes(Windows(m, trace));
    AverageBetweenWindows(m, trace, Extremes(Windows(m, trace)).Min, Extremes(Windows(m, trace)).Max);
  }

  lemma AverageAboveFloor(m: Metric, trace: seq<WorkerReport>)
    requires Measured(trace) && |trace| >= 2
    ensures AllFinite(Windows(m, trace)) && Average(m, trace).Fin?
    ensures var ws := Windows(m, trace);
            AtMost(Floor(ws), Average(m, trace)) && AtMost(Average(m, trace), Extremes(ws).Max)
  {
    var ws := Windows(m, trace);
    WindowsFinite(m, trace);
    forall x | x in ws ensures AtMost(Floor(ws), x) && AtMost(x, Extremes(ws).Max) {
      FloorAndMaxBound(ws, x);
    }
    FloorAndMaxBound(ws, ws[0]);
    RatesOfWindows(m, trace, Floor(ws), Extremes(ws).Max);
    AverageBetweenRates(m, trace, Floor(ws).r, Extremes(ws).Max.r);
  }

  /** For all windows, of any sign: the average is never above the recorded maximum. It is not
      below the recorded minimum exactly if some window is negative, or the last window is 0, or
      some window after the last 0 is not above the average. */
  lemma MeanWithinRecordedExtremes(m: Metric, trace: seq<WorkerReport>)
    requires Measured(trace) && |trace| >= 2
    ensures var s, ws := MetricOf(WorkerOf(trace), m), Windows(m, trace);
            && AtMost(s.Avg, s.MinMax.Max)
            && (AtMost(s.MinMax.Min, s.Avg) <==>
                  || HasNegative(ws)
                  || SinceZero(ws) == []
                  || exists x :: x in SinceZero(ws) && AtMost(x, s.Avg))
  {
    AverageAboveFloor(m, trace);
    MinNotAbove(Windows(m, trace), Average(m, trace));
  }

  function IdleThenBusy(id: WorkerId): seq<WorkerReport> {
    [WorkerReport(id, 1_000_000_000, 0, 0, 0), WorkerReport(id, 2_000_000_000, 0, 0, 0),
     WorkerReport(id, 3_000_000_000, 10, 0, 0)]
  }

  lemma IdleThenBusyWindows(id: WorkerId)
    ensures Measured(IdleThenBusy(id)) && Windows(Tput, IdleThenBusy(id)) == [ZERO, Fin(10.0)]
  {
    var trace := IdleThenBusy(id);
    WindowsArePairs(Tput, trace);
    WindowIsRate(Tput, trace[0], trace[1]);
    WindowIsRate(Tput, trace[1], trace[2]);
  }

  lemma IdleThenBusyAverage(id: WorkerId)
    ensures Average(Tput, IdleThenBusy(id)) == Fin(5.0)
  {
    IdleThenBusyWindows(id);
    AverageIsRate(Tput, IdleThenBusy(id));
    QuotientUnique(10.0 * 1_000_000_000.0, 2_000_000_000.0, 5.0);
  }

  /** A worker idle in its first window and busy in the second is reported with an average
      below its minimum. */
  lemma IdleWindowBreaksMin(id: WorkerId)
    ensures Measured(IdleThenBusy(id))
    ensures var s := WorkerOf(IdleThenBusy(id)).Tput; s.MinMax.Min == Fin(10.0) && s.Avg == Fin(5.0)
  {
    IdleThenBusyWindows(id);
    IdleThenBusyAverage(id);
    ZeroThenPositive(Fin(10.0));
  }

  // -------------------------------------------------------------- end to end

  /** The controller's trace of a worker: a prefix of what the worker printed, with the
      cpu times the controller added. */
  ghost predicate TraceOf(trace: seq<WorkerReport>, printed: seq<EventEngine.Event>)
    requires forall e :: e in printed ==> e.Printed?
  {
    && |trace| <= |printed|
    && forall i :: 0 <= i < |trace| ==>
         trace[i].Now == printed[i].now && trace[i].Kops == printed[i].kops && trace[i].MaxDelta == printed[i].maxDelta
  }

  lemma WorkerTraceMeasured(trace: seq<WorkerReport>, printed: seq<EventEngine.Event>)
    requires (forall e :: e in printed ==> e.Printed?) && EngineReports.WellShaped(printed)
    requires TraceOf(trace, printed)
    ensures Measured(trace)
  {
  }

  lemma RisingCounterWindow(a: WorkerReport, b: WorkerReport)
    requires a.Now < b.Now && a.Kops < b.Kops
    ensures Positive(Window(Tput, a, b))
  {
    var t, k := (b.Now - a.Now) as real, (b.Kops - a.Kops) as real;
    QuotientPositive(t, SEC as real);
    QuotientPositive(k, t / SEC as real);
  }

  /** A counter that increases from each report to the next gives positive throughput windows. */
  lemma RisingCounterWindows(trace: seq<WorkerReport>)
    requires Measured(trace) && forall i, j :: 0 <= i < j < |trace| ==> trace[i].Kops < trace[j].Kops
    ensures AllPositive(Windows(Tput, trace))
  {
    if trace != [] {
      WindowsArePairs(Tput, trace);
      forall i | 0 <= i < |trace| - 1 ensures Positive(Windows(Tput, trace)[i]) {
        RisingCounterWindow(trace[i], trace[i + 1]);
      }
    }
  }

  /** All windows are positive: for throughput that takes only threads that work. */
  ghost predicate MakesProgress(m: Metric, threads: seq<EventEngine.WorkDesc>, trace: seq<WorkerReport>) {
    (m == Tput && EngineReports.AllBusy(multiset(threads))) || AllPositive(Windows(m, trace))
  }

  /** A worker none of whose threads has 0 kops is never seen idle. */
  lemma BusyWorkerWindows(
      threads: seq<EventEngine.WorkDesc>, readings: seq<int>, intervalNs: int, clock: seq<int>,
      trace: seq<WorkerReport>)
    requires |threads| == |readings| && EngineReports.AllBusy(multiset(threads)) && Measured(trace)
    requires var log := EventEngine.Run(EventEngine.Init(threads, readings, intervalNs), clock).log;
             EventEngine.Kops(log) < Clock.TWO_64 && TraceOf(trace, EventEngine.Reports(log))
    ensures AllPositive(Windows(Tput, trace))
  {
    EngineReports.BusyWorkerCounts(threads, readings, intervalNs, clock);
    RisingCounterWindows(trace);
  }

  /** From the event engine to the report: what any worker prints, on any advancing clock,
      is summarised with its average between its extremes. */
  lemma WorkerAverageReported(
      m: Metric, threads: seq<EventEngine.WorkDesc>, readings: seq<int>, intervalNs: int, clock: seq<int>,
      trace: seq<WorkerReport>)
    requires |threads| == |readings| && threads != [] && intervalNs > 0
    requires EngineReports.HeadsIncrease(EventEngine.Init(threads, readings, intervalNs), clock)
    requires clock != [] ==> clock[0] > 0
    requires var log := EventEngine.Run(EventEngine.Init(threads, readings, intervalNs), clock).log;
             EventEngine.Kops(log) < Clock.TWO_64 && TraceOf(trace, EventEngine.Reports(log))
    requires |trace| >= 2 && MakesProgress(m, threads, trace)
    ensures var s := MetricOf(WorkerOf(trace), m);
            AtMost(s.MinMax.Min, s.Avg) && AtMost(s.Avg, s.MinMax.Max) && Positive(s.Avg)
  {
    EngineReports.WorkerEmitsWellShaped(threads, readings, intervalNs, clock);
    WorkerTraceMeasured(trace, EventEngine.Reports(
      EventEngine.Run(EventEngine.Init(threads, readings, intervalNs), clock).log));
    if !AllPositive(Windows(m, trace)) {
      BusyWorkerWindows(threads, readings, intervalNs, clock, trace);
    }
    MeanBetweenExtremes(m, trace);
  }
}
