/** What the report is meant to say, worker by worker and set by set: each worker is judged
    by its own reports alone. (README.md, "The report"; controller/benchmark.go) */
module Summary {
  import opened Benchmark
  import opened Float
  import opened MinMax

  const SEC: int := 1_000_000_000

  function Throughput(lt: int, lm: int, t: int, m: int): F64 {
    Div(FromInt(m - lm), Div(FromInt(t - lt), FromInt(SEC)))
  }

  function Utilization(lt: int, lct: int, t: int, ct: int): F64 {
    Div(FromInt(ct - lct), FromInt(t - lt))
  }

  /** The two quantities that are reported in the same way. */
  datatype Metric = Tput | Util

  function Window(m: Metric, a: WorkerReport, b: WorkerReport): F64 {
    match m
    case Tput => Throughput(a.Now, a.Kops, b.Now, b.Kops)
    case Util => Utilization(a.Now, a.Cputime, b.Now, b.Cputime)
  }

  // -------------------------------------------------------------- one worker

  datatype Data = Data(startTime: int, startCputime: int, lastTime: int, lastKops: int, lastCputime: int)

  /** A time of 0 counts as "no report yet". */
  predicate Started(trace: seq<WorkerReport>) {
    exists i :: 0 <= i < |trace| && trace[i].Now != 0
  }

  function Last(trace: seq<WorkerReport>): WorkerReport
    requires trace != []
  {
    trace[|trace| - 1]
  }

  /** The report that the whole run of this worker is measured from. */
  function Start(trace: seq<WorkerReport>): WorkerReport
    requires trace != []
  {
    var before := trace[..|trace| - 1];
    if Started(before) then Start(before) else Last(trace)
  }

  function DataOf(trace: seq<WorkerReport>): Data {
    if trace == [] then Data(0, 0, 0, 0, 0)
    else Data(Start(trace).Now, Start(trace).Cputime, Last(trace).Now, Last(trace).Kops, Last(trace).Cputime)
  }

  /** The window a further report closes, if any. */
  function Closed(m: Metric, trace: seq<WorkerReport>, e: WorkerReport): seq<F64> {
    if Started(trace) then [Window(m, Last(trace), e)] else []
  }

  function Windows(m: Metric, trace: seq<WorkerReport>): seq<F64> {
    if trace == [] then []
    else
      var k := |trace| - 1;
      Windows(m, trace[..k]) + Closed(m, trace[..k], trace[k])
  }

  function Average(m: Metric, trace: seq<WorkerReport>): F64
    requires trace != []
  {
    match m
    case Tput => Throughput(Start(trace).Now, 0, Last(trace).Now, Last(trace).Kops)
    case Util => Utilization(Start(trace).Now, Start(trace).Cputime, Last(trace).Now, Last(trace).Cputime)
  }

  lemma WindowsSnoc(m: Metric, trace: seq<WorkerReport>, e: WorkerReport)
    ensures Windows(m, trace + [e]) == Windows(m, trace) + Closed(m, trace, e)
  {
    assert (trace + [e])[..|trace|] == trace;
  }

  lemma DataSnoc(trace: seq<WorkerReport>, e: WorkerReport)
    ensures DataOf(trace).startTime != 0 <==> Started(trace)
    ensures DataOf(trace + [e]) ==
            (if Started(trace) then DataOf(trace) else Data(e.Now, e.Cputime, 0, 0, 0))
            .(lastTime := e.Now, lastKops := e.Kops, lastCputime := e.Cputime)
    decreases |trace|
  {
    assert (trace + [e])[..|trace|] == trace;
    if trace != [] {
      var k := |trace| - 1;
      DataSnoc(trace[..k], trace[k]);
      assert trace == trace[..k] + [trace[k]];
    }
  }

  datatype WorkerMetric = WorkerMetric(MinMax: Range, Avg: F64)

  datatype WorkerSummary = WorkerSummary(
    Raw: seq<WorkerReport>,
    Tput: WorkerMetric,
    Util: WorkerMetric,
    TotalTput: int,
    TotalTime: int,
    TotalCputime: int)

  const NO_METRIC: WorkerMetric := WorkerMetric(UNSET, ZERO)
  const NO_WORKER: WorkerSummary := WorkerSummary([], NO_METRIC, NO_METRIC, 0, 0, 0)

  /** What is known while the reports are still being read. */
  function Partial(trace: seq<WorkerReport>): WorkerSummary {
    NO_WORKER.(Raw := trace,
               Tput := WorkerMetric(Extremes(Windows(Tput, trace)), ZERO),
               Util := WorkerMetric(Extremes(Windows(Util, trace)), ZERO))
  }

  /** The summary of one worker, from its own reports. */
  function WorkerOf(trace: seq<WorkerReport>): WorkerSummary {
    if trace == [] then NO_WORKER
    else
      WorkerSummary(
        trace,
        WorkerMetric(Extremes(Windows(Tput, trace)), Average(Tput, trace)),
        WorkerMetric(Extremes(Windows(Util, trace)), Average(Util, trace)),
        Last(trace).Kops,
        Last(trace).Now - Start(trace).Now,
        Last(trace).Cputime - Start(trace).Cputime)
  }

  function AvgOf(w: WorkerSummary, m: Metric): F64 {
    match m
    case Tput => w.Tput.Avg
    case Util => w.Util.Avg
  }

  // ----------------------------------------------------------------- one set

  datatype SetMetric = SetMetric(Total: F64, AvgAvg: F64, MinMax: Range, MinMaxAvg: Range, Variance: F64)

  datatype SetSummary = SetSummary(Workers: seq<WorkerSummary>, Tput: SetMetric, Util: SetMetric)

  const NO_SET_METRIC: SetMetric := SetMetric(ZERO, ZERO, UNSET, UNSET, ZERO)
  const NO_SET: SetSummary := SetSummary([], NO_SET_METRIC, NO_SET_METRIC)

  predicate HeardFrom(raw: seq<WorkerReport>, set_: int) {
    exists i :: 0 <= i < |raw| && raw[i].Id.Set == set_
  }

  /** All windows of the workers of a set, in the order in which they were closed. */
  function SetWindows(m: Metric, raw: seq<WorkerReport>, set_: int): seq<F64> {
    if raw == [] then []
    else
      var k := |raw| - 1;
      SetWindows(m, raw[..k], set_) +
      if raw[k].Id.Set == set_ then Closed(m, Proj(raw[..k], raw[k].Id), raw[k]) else []
  }

  lemma SetWindowsSnoc(m: Metric, raw: seq<WorkerReport>, e: WorkerReport, set_: int)
    ensures SetWindows(m, raw + [e], set_) ==
            SetWindows(m, raw, set_) + if e.Id.Set == set_ then Closed(m, Proj(raw, e.Id), e) else []
  {
    assert (raw + [e])[..|raw|] == raw;
  }

  /** The averages of a set's workers in the order in which the workers are visited. */
  function Visited(m: Metric, raw: seq<WorkerReport>, order: seq<WorkerId>, set_: int): seq<F64> {
    if order == [] then []
    else
      var k := |order| - 1;
      Visited(m, raw, order[..k], set_) +
      if order[k].Set == set_ && Proj(raw, order[k]) != [] then [Average(m, Proj(raw, order[k]))] else []
  }

  lemma VisitedSnoc(m: Metric, raw: seq<WorkerReport>, order: seq<WorkerId>, id: WorkerId, set_: int)
    ensures Visited(m, raw, order + [id], set_) ==
            Visited(m, raw, order, set_) +
            if id.Set == set_ && Proj(raw, id) != [] then [Average(m, Proj(raw, id))] else []
  {
    assert (order + [id])[..|order|] == order;
  }

  function Sum(xs: seq<F64>): F64 {
    if xs == [] then ZERO else Add(Sum(xs[..|xs| - 1]), xs[|xs| - 1])
  }

  function Square(x: F64): F64 {
    Mul(x, x)
  }

  function SquaredDeviations(xs: seq<F64>, mean: F64): F64 {
    if xs == [] then ZERO
    else Add(SquaredDeviations(xs[..|xs| - 1], mean), Square(Sub(xs[|xs| - 1], mean)))
  }

  function Mean(xs: seq<F64>): F64 {
    Div(Sum(xs), FromInt(|xs|))
  }

  function Variance(xs: seq<F64>): F64 {
    Div(SquaredDeviations(xs, Mean(xs)), FromInt(|xs|))
  }

  function Averages(ws: seq<WorkerSummary>, m: Metric): (xs: seq<F64>)
    ensures |xs| == |ws| && forall i :: 0 <= i < |ws| ==> xs[i] == AvgOf(ws[i], m)
  {
    seq(|ws|, i requires 0 <= i < |ws| => AvgOf(ws[i], m))
  }

  /** The traces of a set's workers; the row stays empty if none of them ever reported. */
  function Traces(raw: seq<WorkerReport>, set_: int, count: int): (ts: seq<seq<WorkerReport>>)
    ensures |ts| == (if HeardFrom(raw, set_) && count > 0 then count else 0)
    ensures forall j :: 0 <= j < |ts| ==> ts[j] == Proj(raw, WorkerId(set_, j))
  {
    if HeardFrom(raw, set_) && count > 0 then seq(count, j => Proj(raw, WorkerId(set_, j))) else []
  }

  function Row(ts: seq<seq<WorkerReport>>): (ws: seq<WorkerSummary>)
    ensures |ws| == |ts| && forall j :: 0 <= j < |ws| ==> ws[j] == WorkerOf(ts[j])
  {
    seq(|ts|, j requires 0 <= j < |ts| => WorkerOf(ts[j]))
  }

  function SetMetricOf(m: Metric, raw: seq<WorkerReport>, order: seq<WorkerId>, set_: int,
                       ws: seq<WorkerSummary>): SetMetric {
    var avgs := Averages(ws, m);
    SetMetric(Sum(avgs), Mean(avgs), Extremes(SetWindows(m, raw, set_)),
              Extremes(Visited(m, raw, order, set_)), Variance(avgs))
  }

  /** The summary of one set, for one order of visiting the workers. */
  function SetOf(raw: seq<WorkerReport>, order: seq<WorkerId>, set_: int, count: int): SetSummary {
    var ws := Row(Traces(raw, set_, count));
    SetSummary(ws, SetMetricOf(Tput, raw, order, set_, ws), SetMetricOf(Util, raw, order, set_, ws))
  }
}
