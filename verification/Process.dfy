/** One pass over the interleaved reports of all workers, then the averages: the
    computation as it is written, proved against module Summary.
    (controller/benchmark.go, BenchmarkRun.Process) */
module Process {
  import opened Benchmark
  import opened Float
  import opened MinMax
  import opened Summary

  /** `Panicked` is an index out of range, `InternalError` the error returned instead. */
  datatype Outcome = Processed | InternalError | Panicked

  /** The checks let ids pass that are exactly one too large, and negative ones. */
  function Verdict(counts: seq<int>, id: WorkerId): Outcome {
    if InRange(counts, id) then Processed
    else if id.Set > |counts| then InternalError
    else if 0 <= id.Set < |counts| && 0 <= counts[id.Set] < id.Id then InternalError
    else Panicked
  }

  /** Two workers, 0 and 1: worker 3 is an error, worker 2 and worker -1 are a panic; and the same
      of sets. */
  lemma OneTooLargePanics()
    ensures Verdict([2], WorkerId(0, 3)) == InternalError
    ensures Verdict([2], WorkerId(0, 2)) == Panicked && Verdict([2], WorkerId(0, -1)) == Panicked
    ensures Verdict([2], WorkerId(2, 0)) == InternalError
    ensures Verdict([2], WorkerId(1, 0)) == Panicked && Verdict([2], WorkerId(-1, 0)) == Panicked
    ensures Verdict([-1], WorkerId(0, 0)) == Panicked && Verdict([0], WorkerId(0, 0)) == Panicked
    ensures Verdict([0], WorkerId(0, 1)) == InternalError && Verdict([2], WorkerId(0, 1)) == Processed
  {
  }

  lemma OneMoreInRange(counts: seq<int>, raw: seq<WorkerReport>, k: nat)
    requires k < |raw| && AllInRange(counts, raw[..k])
    ensures raw[..k + 1] == raw[..k] + [raw[k]]
    ensures AllInRange(counts, raw[..k + 1]) <==> InRange(counts, raw[k].Id)
  {
    var a, b := raw[..k], raw[..k + 1];
    assert b[k] == raw[k];
    forall i | 0 <= i < k ensures InRange(counts, b[i].Id) {
      assert a[i] == b[i];
    }
  }

  /** What is to be found after reading `raw`: sets and per-worker data. */
  function PartialMetric(m: Metric, raw: seq<WorkerReport>, set_: int): SetMetric {
    NO_SET_METRIC.(MinMax := Extremes(SetWindows(m, raw, set_)))
  }

  function PartialRow(ts: seq<seq<WorkerReport>>): (ws: seq<WorkerSummary>)
    ensures |ws| == |ts| && forall j :: 0 <= j < |ws| ==> ws[j] == Partial(ts[j])
  {
    seq(|ts|, j requires 0 <= j < |ts| => Partial(ts[j]))
  }

  function PartialSet(raw: seq<WorkerReport>, set_: int, count: int): SetSummary {
    SetSummary(PartialRow(Traces(raw, set_, count)), PartialMetric(Tput, raw, set_), PartialMetric(Util, raw, set_))
  }

  lemma OtherTracesUnchanged(raw: seq<WorkerReport>, e: WorkerReport, set_: int, count: int)
    requires e.Id.Set != set_
    ensures Traces(raw + [e], set_, count) == Traces(raw, set_, count)
  {
    HeardFromSnoc(raw, e, set_);
    var a, b := Traces(raw, set_, count), Traces(raw + [e], set_, count);
    assert |a| == |b|;
    forall j | 0 <= j < |a| ensures a[j] == b[j] {
      ProjSnoc(raw, e, WorkerId(set_, j));
    }
  }

  lemma OtherSetUnchanged(raw: seq<WorkerReport>, e: WorkerReport, set_: int, count: int)
    requires e.Id.Set != set_
    ensures PartialSet(raw + [e], set_, count) == PartialSet(raw, set_, count)
  {
    OtherTracesUnchanged(raw, e, set_, count);
    SetWindowsSnoc(Tput, raw, e, set_);
    SetWindowsSnoc(Util, raw, e, set_);
    assert forall m :: SetWindows(m, raw, set_) + [] == SetWindows(m, raw, set_);
  }

  lemma HeardFromSnoc(raw: seq<WorkerReport>, e: WorkerReport, set_: int)
    ensures HeardFrom(raw + [e], set_) <==> HeardFrom(raw, set_) || e.Id.Set == set_
  {
    var r := raw + [e];
    if HeardFrom(raw, set_) {
      var i :| 0 <= i < |raw| && raw[i].Id.Set == set_;
      assert r[i].Id.Set == set_;
    }
    if e.Id.Set == set_ {
      assert r[|raw|].Id.Set == set_;
    }
  }

  lemma ProjHeardFrom(raw: seq<WorkerReport>, id: WorkerId)
    ensures Proj(raw, id) == [] || HeardFrom(raw, id.Set)
  {
    var p := Proj(raw, id);
    if p != [] {
      assert p[0] in raw;
      var i :| 0 <= i < |raw| && raw[i] == p[0];
      assert raw[i].Id.Set == id.Set;
    }
  }

  /** A set's traces, with the row made even if nobody has reported yet. */
  function AllTraces(raw: seq<WorkerReport>, set_: int, count: nat): (ts: seq<seq<WorkerReport>>)
    ensures |ts| == count && forall j :: 0 <= j < count ==> ts[j] == Proj(raw, WorkerId(set_, j))
  {
    seq(count, j => Proj(raw, WorkerId(set_, j)))
  }

  lemma TracesOrUnreported(raw: seq<WorkerReport>, set_: int, count: nat)
    ensures AllTraces(raw, set_, count) ==
            if HeardFrom(raw, set_) then Traces(raw, set_, count) else seq(count, _ => [])
  {
    if !HeardFrom(raw, set_) {
      forall j | 0 <= j < count ensures Proj(raw, WorkerId(set_, j)) == [] {
        ProjHeardFrom(raw, WorkerId(set_, j));
      }
    }
  }

  lemma AllTracesSnoc(raw: seq<WorkerReport>, e: WorkerReport, count: nat)
    requires 0 <= e.Id.Id < count
    ensures Traces(raw + [e], e.Id.Set, count) ==
            AllTraces(raw, e.Id.Set, count)[e.Id.Id := Proj(raw, e.Id) + [e]]
  {
    HeardFromSnoc(raw, e, e.Id.Set);
    var r := Traces(raw + [e], e.Id.Set, count);
    var target := AllTraces(raw, e.Id.Set, count)[e.Id.Id := Proj(raw, e.Id) + [e]];
    forall j | 0 <= j < count ensures r[j] == target[j] {
      ProjSnoc(raw, e, WorkerId(e.Id.Set, j));
    }
  }

  /** The row of workers as the code makes it when the first of them reports. */
  function Entered(ws: seq<WorkerSummary>, count: int): seq<WorkerSummary> {
    if ws == [] && count > 0 then seq(count, _ => NO_WORKER) else ws
  }

  lemma EnteredRow(raw: seq<WorkerReport>, set_: int, count: nat)
    requires count > 0
    ensures Entered(PartialRow(Traces(raw, set_, count)), count) == PartialRow(AllTraces(raw, set_, count))
  {
    TracesOrUnreported(raw, set_, count);
    assert Partial([]) == NO_WORKER;
  }

  /** The extremes after the window that e closes, if any. */
  function Closing(mm: Range, m: Metric, trace: seq<WorkerReport>, e: WorkerReport): Range {
    if Started(trace) then Updated(mm, Window(m, Last(trace), e)) else mm
  }

  function NotedWorker(s: WorkerSummary, trace: seq<WorkerReport>, e: WorkerReport): WorkerSummary {
    s.(Tput := WorkerMetric(Closing(s.Tput.MinMax, Tput, trace, e), s.Tput.Avg),
       Util := WorkerMetric(Closing(s.Util.MinMax, Util, trace, e), s.Util.Avg))
  }

  function NotedSet(s: SetSummary, trace: seq<WorkerReport>, e: WorkerReport): SetSummary {
    s.(Tput := s.Tput.(MinMax := Closing(s.Tput.MinMax, Tput, trace, e)),
       Util := s.Util.(MinMax := Closing(s.Util.MinMax, Util, trace, e)))
  }

  lemma ClosingExtremes(m: Metric, xs: seq<F64>, trace: seq<WorkerReport>, e: WorkerReport)
    ensures Extremes(xs + Closed(m, trace, e)) == Closing(Extremes(xs), m, trace, e)
  {
    if Started(trace) {
      ExtremesSnoc(xs, Window(m, Last(trace), e));
    } else {
      assert xs + [] == xs;
    }
  }

  lemma PartialSnoc(trace: seq<WorkerReport>, e: WorkerReport)
    ensures Partial(trace + [e]) == NotedWorker(Partial(trace), trace, e).(Raw := trace + [e])
  {
    WindowsSnoc(Tput, trace, e);
    WindowsSnoc(Util, trace, e);
    ClosingExtremes(Tput, Windows(Tput, trace), trace, e);
    ClosingExtremes(Util, Windows(Util, trace), trace, e);
  }

  lemma PartialMetricSnoc(m: Metric, raw: seq<WorkerReport>, e: WorkerReport)
    ensures PartialMetric(m, raw + [e], e.Id.Set).MinMax ==
            Closing(PartialMetric(m, raw, e.Id.Set).MinMax, m, Proj(raw, e.Id), e)
  {
    SetWindowsSnoc(m, raw, e, e.Id.Set);
    ClosingExtremes(m, SetWindows(m, raw, e.Id.Set), Proj(raw, e.Id), e);
  }

  lemma RowUpdated(ts: seq<seq<WorkerReport>>, i: nat, t: seq<WorkerReport>)
    requires i < |ts|
    ensures PartialRow(ts[i := t]) == PartialRow(ts)[i := Partial(t)]
  {
  }

  lemma OwnRowUpdated(raw: seq<WorkerReport>, e: WorkerReport, count: int)
    requires 0 <= e.Id.Id < count
    ensures var ws := Entered(PartialRow(Traces(raw, e.Id.Set, count)), count);
            && |ws| == count && ws[e.Id.Id] == Partial(Proj(raw, e.Id))
            && PartialRow(Traces(raw + [e], e.Id.Set, count)) ==
               ws[e.Id.Id := Partial(Proj(raw, e.Id) + [e])]
  {
    AllTracesSnoc(raw, e, count);
    EnteredRow(raw, e.Id.Set, count);
    RowUpdated(AllTraces(raw, e.Id.Set, count), e.Id.Id, Proj(raw, e.Id) + [e]);
  }

  /** What one more report makes of its set. */
  lemma OwnSetUpdated(raw: seq<WorkerReport>, e: WorkerReport, count: int)
    requires 0 <= e.Id.Id < count
    ensures var trace, before := Proj(raw, e.Id), PartialSet(raw, e.Id.Set, count);
            var ws := Entered(before.Workers, count);
            var s := NotedWorker(Partial(trace).(Raw := trace + [e]), trace, e);
            && |ws| == count && ws[e.Id.Id] == Partial(trace)
            && PartialSet(raw + [e], e.Id.Set, count) ==
               NotedSet(before, trace, e).(Workers := ws[e.Id.Id := s])
  {
    OwnRowUpdated(raw, e, count);
    PartialSnoc(Proj(raw, e.Id), e);
    PartialMetricSnoc(Tput, raw, e);
    PartialMetricSnoc(Util, raw, e);
  }

  /** The sets are what the reports read so far make them. */
  ghost predicate SetsMatch(sets: seq<SetSummary>, counts: seq<int>, raw: seq<WorkerReport>) {
    |sets| == |counts| && forall s :: 0 <= s < |counts| ==> sets[s] == PartialSet(raw, s, counts[s])
  }

  ghost predicate DataMatchesFor(data: map<WorkerId, Data>, raw: seq<WorkerReport>, id: WorkerId) {
    if Proj(raw, id) == [] then id !in data else id in data && data[id] == DataOf(Proj(raw, id))
  }

  /** The per-worker data is kept of exactly the workers that have reported. */
  ghost predicate DataMatches(data: map<WorkerId, Data>, raw: seq<WorkerReport>) {
    forall id :: DataMatchesFor(data, raw, id)
  }

  lemma SetsStep(sets: seq<SetSummary>, counts: seq<int>, raw: seq<WorkerReport>, e: WorkerReport, ws: SetSummary)
    requires SetsMatch(sets, counts, raw) && InRange(counts, e.Id)
    requires ws == PartialSet(raw + [e], e.Id.Set, counts[e.Id.Set])
    ensures SetsMatch(sets[e.Id.Set := ws], counts, raw + [e])
  {
    forall s | 0 <= s < |counts| ensures sets[e.Id.Set := ws][s] == PartialSet(raw + [e], s, counts[s]) {
      if s != e.Id.Set {
        OtherSetUnchanged(raw, e, s, counts[s]);
      }
    }
  }

  lemma DataStepFor(data: map<WorkerId, Data>, raw: seq<WorkerReport>, e: WorkerReport, id: WorkerId)
    requires DataMatchesFor(data, raw, id)
    ensures DataMatchesFor(data[e.Id := DataOf(Proj(raw, e.Id) + [e])], raw + [e], id)
  {
    ProjSnoc(raw, e, id);
  }

  lemma DataStep(data: map<WorkerId, Data>, raw: seq<WorkerReport>, e: WorkerReport)
    requires DataMatches(data, raw)
    ensures DataMatches(data[e.Id := DataOf(Proj(raw, e.Id) + [e])], raw + [e])
  {
    var d, next := data[e.Id := DataOf(Proj(raw, e.Id) + [e])], raw + [e];
    forall id ensures DataMatchesFor(d, next, id) {
      DataStepFor(data, raw, e, id);
    }
  }

  // ------------------------------------------------- second loop: per worker

  /** One visit of every worker that has reported, in any order. */
  ghost predicate IsOrder(order: seq<WorkerId>, raw: seq<WorkerReport>) {
    && (forall i, j :: 0 <= i < j < |order| ==> order[i] != order[j])
    && (forall id :: id in order <==> Proj(raw, id) != [])
  }

  function VisitedRow(ts: seq<seq<WorkerReport>>, order: seq<WorkerId>, set_: int): (ws: seq<WorkerSummary>)
    ensures |ws| == |ts|
    ensures forall j :: 0 <= j < |ws| ==>
              ws[j] == if WorkerId(set_, j) in order then WorkerOf(ts[j]) else Partial(ts[j])
  {
    seq(|ts|, j requires 0 <= j < |ts| =>
      if WorkerId(set_, j) in order then WorkerOf(ts[j]) else Partial(ts[j]))
  }

  function VisitedMetric(m: Metric, raw: seq<WorkerReport>, order: seq<WorkerId>, set_: int): SetMetric {
    PartialMetric(m, raw, set_).(MinMaxAvg := Extremes(Visited(m, raw, order, set_)))
  }

  /** A set after the workers in `order` have been given their averages. */
  function VisitedSet(raw: seq<WorkerReport>, order: seq<WorkerId>, set_: int, count: int): SetSummary {
    SetSummary(VisitedRow(Traces(raw, set_, count), order, set_),
               VisitedMetric(Tput, raw, order, set_), VisitedMetric(Util, raw, order, set_))
  }

  ghost predicate SetsVisited(
      sets: seq<SetSummary>, counts: seq<int>, raw: seq<WorkerReport>, order: seq<WorkerId>)
  {
    |sets| == |counts| && forall s :: 0 <= s < |counts| ==> sets[s] == VisitedSet(raw, order, s, counts[s])
  }

  lemma NoneVisitedYet(sets: seq<SetSummary>, counts: seq<int>, raw: seq<WorkerReport>)
    requires SetsMatch(sets, counts, raw)
    ensures SetsVisited(sets, counts, raw, [])
  {
    forall s | 0 <= s < |counts| ensures sets[s] == VisitedSet(raw, [], s, counts[s]) {
      var ts := Traces(raw, s, counts[s]);
      assert VisitedRow(ts, [], s) == PartialRow(ts);
      assert VisitedMetric(Tput, raw, [], s) == PartialMetric(Tput, raw, s);
      assert VisitedMetric(Util, raw, [], s) == PartialMetric(Util, raw, s);
    }
  }

  lemma VisitOther(raw: seq<WorkerReport>, order: seq<WorkerId>, id: WorkerId, set_: int, count: int)
    requires id.Set != set_
    ensures VisitedSet(raw, order + [id], set_, count) == VisitedSet(raw, order, set_, count)
  {
    VisitedSnoc(Tput, raw, order, id, set_);
    VisitedSnoc(Util, raw, order, id, set_);
    assert forall m :: Visited(m, raw, order, set_) + [] == Visited(m, raw, order, set_);
    var ts := Traces(raw, set_, count);
    assert VisitedRow(ts, order + [id], set_) == VisitedRow(ts, order, set_);
  }

  lemma VisitedMetricStep(m: Metric, raw: seq<WorkerReport>, order: seq<WorkerId>, id: WorkerId)
    requires Proj(raw, id) != []
    ensures var before := VisitedMetric(m, raw, order, id.Set);
            VisitedMetric(m, raw, order + [id], id.Set) ==
            before.(MinMaxAvg := Updated(before.MinMaxAvg, Average(m, Proj(raw, id))))
  {
    VisitedSnoc(m, raw, order, id, id.Set);
    ExtremesSnoc(Visited(m, raw, order, id.Set), Average(m, Proj(raw, id)));
  }

  lemma TraceInRow(raw: seq<WorkerReport>, id: WorkerId, count: int)
    requires 0 <= id.Id < count && Proj(raw, id) != []
    ensures |Traces(raw, id.Set, count)| == count && Traces(raw, id.Set, count)[id.Id] == Proj(raw, id)
  {
    ProjHeardFrom(raw, id);
  }

  lemma VisitOwn(raw: seq<WorkerReport>, order: seq<WorkerId>, id: WorkerId, count: int)
    requires 0 <= id.Id < count && Proj(raw, id) != [] && id !in order
    ensures var before, trace := VisitedSet(raw, order, id.Set, count), Proj(raw, id);
            && |before.Workers| == count && before.Workers[id.Id] == Partial(trace)
            && VisitedSet(raw, order + [id], id.Set, count) ==
               SetSummary(before.Workers[id.Id := WorkerOf(trace)],
                          before.Tput.(MinMaxAvg := Updated(before.Tput.MinMaxAvg, Average(Tput, trace))),
                          before.Util.(MinMaxAvg := Updated(before.Util.MinMaxAvg, Average(Util, trace))))
  {
    TraceInRow(raw, id, count);
    VisitedMetricStep(Tput, raw, order, id);
    VisitedMetricStep(Util, raw, order, id);
    VisitRowStep(Traces(raw, id.Set, count), order, id);
  }

  lemma VisitRowStep(ts: seq<seq<WorkerReport>>, order: seq<WorkerId>, id: WorkerId)
    requires 0 <= id.Id < |ts|
    ensures VisitedRow(ts, order + [id], id.Set) == VisitedRow(ts, order, id.Set)[id.Id := WorkerOf(ts[id.Id])]
  {
  }

  lemma VisitStep(sets: seq<SetSummary>, counts: seq<int>, raw: seq<WorkerReport>, order: seq<WorkerId>,
                  id: WorkerId, ws: SetSummary)
    requires SetsVisited(sets, counts, raw, order) && InRange(counts, id)
    requires ws == VisitedSet(raw, order + [id], id.Set, counts[id.Set])
    ensures SetsVisited(sets[id.Set := ws], counts, raw, order + [id])
  {
    forall s | 0 <= s < |counts|
      ensures sets[id.Set := ws][s] == VisitedSet(raw, order + [id], s, counts[s])
    {
      if s != id.Set {
        VisitOther(raw, order, id, s, counts[s]);
      }
    }
  }

  lemma AllAreVisited(data: map<WorkerId, Data>, raw: seq<WorkerReport>, order: seq<WorkerId>)
    requires DataMatches(data, raw)
    requires forall id :: id in data.Keys <==> id in order
    ensures forall id :: id in order <==> Proj(raw, id) != []
  {
    forall id ensures id in order <==> Proj(raw, id) != [] {
      assert DataMatchesFor(data, raw, id);
      assert id in data.Keys <==> id in order;
    }
  }

  /** The workers visited so far and those still to come make up all of them. */
  ghost predicate Splits(keys: set<WorkerId>, todo: set<WorkerId>, order: seq<WorkerId>) {
    && todo <= keys
    && (forall id :: id in keys <==> id in todo || id in order)
    && (forall id :: id in order ==> id !in todo)
    && (forall i, j :: 0 <= i < j < |order| ==> order[i] != order[j])
  }

  lemma SplitsNext(keys: set<WorkerId>, todo: set<WorkerId>, order: seq<WorkerId>, id: WorkerId)
    requires Splits(keys, todo, order) && id in todo
    ensures Splits(keys, todo - {id}, order + [id])
  {
    var o := order + [id];
    assert forall x :: x in o <==> x in order || x == id;
  }

  /** Once every reporting worker has been visited, the whole row is as it should be. */
  lemma AllVisited(raw: seq<WorkerReport>, order: seq<WorkerId>, set_: int, count: int)
    requires IsOrder(order, raw)
    ensures VisitedRow(Traces(raw, set_, count), order, set_) == Row(Traces(raw, set_, count))
  {
    assert Partial([]) == WorkerOf([]);
  }

  lemma IdsInRange(counts: seq<int>, raw: seq<WorkerReport>, id: WorkerId)
    requires AllInRange(counts, raw) && Proj(raw, id) != []
    ensures InRange(counts, id)
  {
    var e := Proj(raw, id)[0];
    assert e in raw;
    var i :| 0 <= i < |raw| && raw[i] == e;
  }

  // --------------------------------------- third and fourth loop: per set

  function WithMeans(s: SetMetric, xs: seq<F64>): SetMetric {
    s.(Total := Sum(xs), AvgAvg := Mean(xs))
  }

  function WithVariance(s: SetMetric, xs: seq<F64>): SetMetric {
    s.(Variance := Variance(xs))
  }

  function MeanSet(s: SetSummary): SetSummary {
    s.(Tput := WithMeans(s.Tput, Averages(s.Workers, Tput)), Util := WithMeans(s.Util, Averages(s.Workers, Util)))
  }

  function DeviatedSet(s: SetSummary): SetSummary {
    s.(Tput := WithVariance(s.Tput, Averages(s.Workers, Tput)),
       Util := WithVariance(s.Util, Averages(s.Workers, Util)))
  }

  lemma FinishedSet(raw: seq<WorkerReport>, order: seq<WorkerId>, set_: int, count: int, s: SetSummary)
    requires IsOrder(order, raw) && s == MeanSet(VisitedSet(raw, order, set_, count))
    ensures s.Tput.AvgAvg == Mean(Averages(s.Workers, Tput)) && s.Util.AvgAvg == Mean(Averages(s.Workers, Util))
    ensures DeviatedSet(s) == SetOf(raw, order, set_, count)
  {
    AllVisited(raw, order, set_, count);
  }

  lemma DeviationNext(xs: seq<F64>, i: nat, mean: F64, d: F64, total: F64)
    requires i < |xs| && d == Sub(xs[i], mean) && total == SquaredDeviations(xs[..i], mean)
    ensures Add(total, Mul(d, d)) == SquaredDeviations(xs[..i + 1], mean)
  {
    SumSnoc(xs, i, mean);
  }

  lemma SumSnoc(xs: seq<F64>, i: nat, mean: F64)
    requires i < |xs|
    ensures Sum(xs[..i + 1]) == Add(Sum(xs[..i]), xs[i])
    ensures SquaredDeviations(xs[..i + 1], mean) == Add(SquaredDeviations(xs[..i], mean), Square(Sub(xs[i], mean)))
  {
    assert xs[..i + 1][..i] == xs[..i];
  }

  class Processor {
    const counts: seq<int>  // workers in each set
    var Summary: seq<SetSummary>
    var data: map<WorkerId, Data>

    /** The state is what the reports read so far make it. */
    ghost predicate HasRead(raw: seq<WorkerReport>)
      reads this
    {
      SetsMatch(Summary, counts, raw) && DataMatches(data, raw)
    }

    constructor (counts: seq<int>)
      ensures this.counts == counts && HasRead([])
    {
      this.counts := counts;
      Summary := seq(|counts|, _ => NO_SET);
      data := map[];
    }

    /** The extremes of the worker and of the set, and the data kept of the worker. */
    method Account(e: WorkerReport, s: WorkerSummary, ws: SetSummary, ghost trace: seq<WorkerReport>)
        returns (s': WorkerSummary, ws': SetSummary)
      requires if e.Id in data then trace != [] && data[e.Id] == DataOf(trace) else trace == []
      modifies `data
      ensures data == old(data)[e.Id := DataOf(trace + [e])]
      ensures s' == NotedWorker(s, trace, e) && ws' == NotedSet(ws, trace, e)
    {
      s', ws' := s, ws;
      var d := if e.Id in data then data[e.Id] else Data(0, 0, 0, 0, 0);
      DataSnoc(trace, e);
      if d.startTime == 0 {
        d := d.(startTime := e.Now, startCputime := e.Cputime);
      } else {
        var tput := Throughput(d.lastTime, d.lastKops, e.Now, e.Kops);
        var util := Utilization(d.lastTime, d.lastCputime, e.Now, e.Cputime);
        var minMaxTput := MinMax.Update(s.Tput.MinMax, tput);
        var minMaxUtil := MinMax.Update(s.Util.MinMax, util);
        s' := s.(Tput := s.Tput.(MinMax := minMaxTput), Util := s.Util.(MinMax := minMaxUtil));
        minMaxTput := MinMax.Update(ws.Tput.MinMax, tput);
        minMaxUtil := MinMax.Update(ws.Util.MinMax, util);
        ws' := ws.(Tput := ws.Tput.(MinMax := minMaxTput), Util := ws.Util.(MinMax := minMaxUtil));
      }
      d := d.(lastTime := e.Now, lastKops := e.Kops, lastCputime := e.Cputime);
      data := data[e.Id := d];
    }

    /** The worker's entry and its set, one report later. */
    method Merge(e: WorkerReport, entered: SetSummary, ghost raw: seq<WorkerReport>) returns (ws: SetSummary)
      requires InRange(counts, e.Id)
      requires var before := PartialSet(raw, e.Id.Set, counts[e.Id.Set]);
               entered == before.(Workers := Entered(before.Workers, counts[e.Id.Set]))
      requires DataMatchesFor(data, raw, e.Id)
      modifies `data
      ensures data == old(data)[e.Id := DataOf(Proj(raw, e.Id) + [e])]
      ensures ws == PartialSet(raw + [e], e.Id.Set, counts[e.Id.Set])
    {
      OwnSetUpdated(raw, e, counts[e.Id.Set]);
      var s := entered.Workers[e.Id.Id];
      s := s.(Raw := s.Raw + [e]);
      s, ws := Account(e, s, entered, Proj(raw, e.Id));
      ws := ws.(Workers := ws.Workers[e.Id.Id := s]);
    }

    /** The body of the first loop once the id has been checked: `entered` is the set with
        its row of workers made. */
    method Enter(e: WorkerReport, entered: SetSummary, ghost raw: seq<WorkerReport>)
      requires HasRead(raw) && InRange(counts, e.Id)
      requires entered == Summary[e.Id.Set].(Workers := Entered(Summary[e.Id.Set].Workers, counts[e.Id.Set]))
      modifies this
      ensures HasRead(raw + [e])
    {
      ghost var summary0, data0 := Summary, data;
      assert Summary[e.Id.Set] == PartialSet(raw, e.Id.Set, counts[e.Id.Set]);
      assert DataMatchesFor(data, raw, e.Id);
      DataStep(data0, raw, e);
      var ws := Merge(e, entered, raw);
      SetsStep(summary0, counts, raw, e, ws);
      Summary := Summary[e.Id.Set := ws];
    }

    /** The body of the first loop. */
    method Read(e: WorkerReport, ghost raw: seq<WorkerReport>) returns (outcome: Outcome)
      requires HasRead(raw)
      modifies this
      ensures outcome == Verdict(counts, e.Id)
      ensures outcome == Processed ==> HasRead(raw + [e])
    {
      if e.Id.Set > |Summary| {
        return InternalError;
      }
      if e.Id.Set < 0 || e.Id.Set == |Summary| {
        return Panicked;
      }
      var count := counts[e.Id.Set];
      var ws := Summary[e.Id.Set];
      if ws.Workers == [] {
        if count < 0 {
          return Panicked;
        }
        ws := ws.(Workers := seq(count, _ => NO_WORKER));
      }
      if e.Id.Id > |ws.Workers| {
        return InternalError;
      }
      if e.Id.Id < 0 || e.Id.Id == |ws.Workers| {
        return Panicked;
      }
      Enter(e, ws, raw);
      return Processed;
    }

    /** A worker's totals and averages, from the data kept of it. */
    method Conclude(d: Data, s: WorkerSummary, ghost trace: seq<WorkerReport>)
        returns (s': WorkerSummary, avgTput: F64, avgUtil: F64)
      requires trace != [] && d == DataOf(trace) && s == Partial(trace)
      ensures s' == WorkerOf(trace)
      ensures avgTput == Average(Tput, trace) && avgUtil == Average(Util, trace)
    {
      s' := s.(TotalTput := d.lastKops, TotalTime := d.lastTime - d.startTime,
               TotalCputime := d.lastCputime - d.startCputime);
      avgTput := Throughput(d.startTime, 0, d.lastTime, d.lastKops);
      avgUtil := Utilization(d.startTime, d.startCputime, d.lastTime, d.lastCputime);
      s' := s'.(Tput := WorkerMetric(s.Tput.MinMax, avgTput), Util := WorkerMetric(s.Util.MinMax, avgUtil));
    }

    /** The body of the second loop. */
    method Visit(id: WorkerId, ghost raw: seq<WorkerReport>, ghost order: seq<WorkerId>)
      requires AllInRange(counts, raw) && DataMatchesFor(data, raw, id) && id in data && id !in order
      requires SetsVisited(Summary, counts, raw, order)
      modifies `Summary
      ensures SetsVisited(Summary, counts, raw, order + [id])
    {
      IdsInRange(counts, raw, id);
      VisitOwn(raw, order, id, counts[id.Set]);
      VisitStep(Summary, counts, raw, order, id, VisitedSet(raw, order + [id], id.Set, counts[id.Set]));
      var ws := Summary[id.Set];
      var s, avgTput, avgUtil := Conclude(data[id], ws.Workers[id.Id], Proj(raw, id));
      var minMaxTput := MinMax.Update(ws.Tput.MinMaxAvg, avgTput);
      var minMaxUtil := MinMax.Update(ws.Util.MinMaxAvg, avgUtil);
      ws := SetSummary(ws.Workers[id.Id := s],
                       ws.Tput.(MinMaxAvg := minMaxTput), ws.Util.(MinMaxAvg := minMaxUtil));
      Summary := Summary[id.Set := ws];
    }

    /** The second loop: Go visits the map in an order of its own choosing. */
    method VisitAll(ghost raw: seq<WorkerReport>) returns (ghost order: seq<WorkerId>)
      requires AllInRange(counts, raw) && HasRead(raw)
      modifies `Summary
      ensures IsOrder(order, raw) && SetsVisited(Summary, counts, raw, order)
    {
      var todo := data.Keys;
      order := [];
      NoneVisitedYet(Summary, counts, raw);
      while todo != {}
        invariant DataMatches(data, raw) && Splits(data.Keys, todo, order)
        invariant SetsVisited(Summary, counts, raw, order)
        decreases |todo|
      {
        var id :| id in todo;
        assert DataMatchesFor(data, raw, id);
        Visit(id, raw, order);
        SplitsNext(data.Keys, todo, order, id);
        order := order + [id];
        todo := todo - {id};
      }
      AllAreVisited(data, raw, order);
    }

    /** The body of the third loop: totals and average of averages of one set. */
    method AverageSet(ws: SetSummary) returns (ws': SetSummary)
      ensures ws' == MeanSet(ws)
    {
      ghost var tputs, utils := Averages(ws.Workers, Tput), Averages(ws.Workers, Util);
      var totalTput, totalUtil, count := ZERO, ZERO, 0;
      while count < |ws.Workers|
        invariant 0 <= count <= |ws.Workers|
        invariant totalTput == Sum(tputs[..count]) && totalUtil == Sum(utils[..count])
      {
        SumSnoc(tputs, count, ZERO);
        SumSnoc(utils, count, ZERO);
        totalTput := Add(totalTput, ws.Workers[count].Tput.Avg);
        totalUtil := Add(totalUtil, ws.Workers[count].Util.Avg);
        count := count + 1;
      }
      assert tputs[..count] == tputs && utils[..count] == utils;
      ws' := ws.(Tput := ws.Tput.(Total := totalTput, AvgAvg := Div(totalTput, FromInt(count))),
                 Util := ws.Util.(Total := totalUtil, AvgAvg := Div(totalUtil, FromInt(count))));
    }

    /** The body of the fourth loop, up to the square root. */
    method DeviateSet(ws: SetSummary) returns (ws': SetSummary)
      requires ws.Tput.AvgAvg == Mean(Averages(ws.Workers, Tput))
      requires ws.Util.AvgAvg == Mean(Averages(ws.Workers, Util))
      ensures ws' == DeviatedSet(ws)
    {
      ghost var tputs, utils := Averages(ws.Workers, Tput), Averages(ws.Workers, Util);
      var totalTput, totalUtil, count := ZERO, ZERO, 0;
      while count < |ws.Workers|
        invariant 0 <= count <= |ws.Workers|
        invariant totalTput == SquaredDeviations(tputs[..count], ws.Tput.AvgAvg)
        invariant totalUtil == SquaredDeviations(utils[..count], ws.Util.AvgAvg)
      {
        var d1 := Sub(ws.Workers[count].Tput.Avg, ws.Tput.AvgAvg);
        var d2 := Sub(ws.Workers[count].Util.Avg, ws.Util.AvgAvg);
        DeviationNext(tputs, count, ws.Tput.AvgAvg, d1, totalTput);
        DeviationNext(utils, count, ws.Util.AvgAvg, d2, totalUtil);
        totalTput := Add(totalTput, Mul(d1, d1));
        totalUtil := Add(totalUtil, Mul(d2, d2));
        count := count + 1;
      }
      assert tputs[..count] == tputs && utils[..count] == utils;
      ws' := ws.(Tput := ws.Tput.(Variance := Div(totalTput, FromInt(count))),
                 Util := ws.Util.(Variance := Div(totalUtil, FromInt(count))));
    }

    method AverageAll(ghost raw: seq<WorkerReport>, ghost order: seq<WorkerId>)
      requires SetsVisited(Summary, counts, raw, order)
      modifies `Summary
      ensures |Summary| == |counts|
      ensures forall s :: 0 <= s < |counts| ==> Summary[s] == MeanSet(VisitedSet(raw, order, s, counts[s]))
    {
      for set_ := 0 to |Summary|
        invariant |Summary| == |counts|
        invariant forall s :: 0 <= s < set_ ==> Summary[s] == MeanSet(VisitedSet(raw, order, s, counts[s]))
        invariant forall s :: set_ <= s < |counts| ==> Summary[s] == VisitedSet(raw, order, s, counts[s])
      {
        var ws := AverageSet(Summary[set_]);
        Summary := Summary[set_ := ws];
      }
    }

    method DeviateAll(ghost raw: seq<WorkerReport>, ghost order: seq<WorkerId>)
      requires IsOrder(order, raw) && |Summary| == |counts|
      requires forall s :: 0 <= s < |counts| ==> Summary[s] == MeanSet(VisitedSet(raw, order, s, counts[s]))
      modifies `Summary
      ensures |Summary| == |counts|
      ensures forall s :: 0 <= s < |counts| ==> Summary[s] == SetOf(raw, order, s, counts[s])
    {
      for set_ := 0 to |Summary|
        invariant |Summary| == |counts|
        invariant forall s :: 0 <= s < set_ ==> Summary[s] == SetOf(raw, order, s, counts[s])
        invariant forall s :: set_ <= s < |counts| ==> Summary[s] == MeanSet(VisitedSet(raw, order, s, counts[s]))
      {
        FinishedSet(raw, order, set_, counts[set_], Summary[set_]);
        var ws := DeviateSet(Summary[set_]);
        Summary := Summary[set_ := ws];
      }
    }

    method ReadNext(raw: seq<WorkerReport>, k: nat) returns (outcome: Outcome)
      requires k < |raw| && HasRead(raw[..k]) && AllInRange(counts, raw[..k])
      modifies this
      ensures outcome == Verdict(counts, raw[k].Id)
      ensures outcome == Processed ==> HasRead(raw[..k + 1]) && AllInRange(counts, raw[..k + 1])
    {
      OneMoreInRange(counts, raw, k);
      outcome := Read(raw[k], raw[..k]);
    }

    /** The first loop; `read` is the number of reports it took in. */
    method ReadAll(raw: seq<WorkerReport>) returns (outcome: Outcome, read: nat)
      requires HasRead([])
      modifies this
      ensures read <= |raw| && AllInRange(counts, raw[..read])
      ensures outcome == Processed ==> read == |raw| && HasRead(raw)
      ensures outcome != Processed ==> read < |raw| && outcome == Verdict(counts, raw[read].Id)
    {
      read := 0;
      assert raw[..0] == [];
      while read < |raw|
        invariant read <= |raw|
        invariant HasRead(raw[..read])
        invariant AllInRange(counts, raw[..read])
      {
        outcome := ReadNext(raw, read);
        if outcome != Processed {
          return;
        }
        read := read + 1;
      }
      assert raw[..read] == raw;
      outcome := Processed;
    }

    /** BenchmarkRun.Process. It fails exactly when an id is out of range, in the way the first
        such id decides; otherwise every set is as its workers' own reports say. */
    method Process(raw: seq<WorkerReport>) returns (outcome: Outcome, read: nat, ghost order: seq<WorkerId>)
      requires HasRead([])
      modifies this
      ensures outcome == Processed <==> AllInRange(counts, raw)
      ensures outcome != Processed ==>
                read < |raw| && AllInRange(counts, raw[..read]) && outcome == Verdict(counts, raw[read].Id)
      ensures outcome == Processed ==>
                && IsOrder(order, raw) && |Summary| == |counts|
                && forall s :: 0 <= s < |counts| ==> Summary[s] == SetOf(raw, order, s, counts[s])
    {
      order := [];
      outcome, read := ReadAll(raw);
      assert raw[..|raw|] == raw;
      if outcome != Processed {
        return;
      }
      order := VisitAll(raw);
      AverageAll(raw, order);
      DeviateAll(raw, order);
    }
  }
}
