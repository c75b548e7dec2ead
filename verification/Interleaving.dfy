/** The summary does not depend on how the workers' reports were interleaved, nor on the
    order in which the map of workers was visited. (controller/benchmark.go, Process) */
module Interleaving {
  import opened Benchmark
  import opened Float
  import opened MinMax
  import opened Summary
  import opened Process

  /** The windows of a set are those of its workers, no more and no fewer. */
  lemma {:induction false} SetWindowsAreWorkers(m: Metric, raw: seq<WorkerReport>, set_: int, x: F64)
    ensures x in SetWindows(m, raw, set_) <==> exists id: WorkerId :: id.Set == set_ && x in Windows(m, Proj(raw, id))
  {
    if raw != [] {
      var k := |raw| - 1;
      var before, e := raw[..k], raw[k];
      assert raw == before + [e];
      SetWindowsAreWorkers(m, before, set_, x);
      SetWindowsSnoc(m, before, e, set_);
      forall id ensures x in Windows(m, Proj(raw, id)) <==>
                        x in Windows(m, Proj(before, id)) || (id == e.Id && x in Closed(m, Proj(before, id), e))
      {
        ProjSnoc(before, e, id);
        if id == e.Id {
          WindowsSnoc(m, Proj(before, id), e);
        }
      }
      if x in SetWindows(m, before, set_) {
        var id: WorkerId :| id.Set == set_ && x in Windows(m, Proj(before, id));
        assert x in Windows(m, Proj(raw, id));
      }
      if e.Id.Set == set_ && x in Closed(m, Proj(before, e.Id), e) {
        assert x in Windows(m, Proj(raw, e.Id));
      }
    }
  }

  /** The averages visited are those of the set's workers that have reported. */
  lemma {:induction false} VisitedAreWorkers(
      m: Metric, raw: seq<WorkerReport>, order: seq<WorkerId>, set_: int, x: F64)
    ensures x in Visited(m, raw, order, set_) <==>
            exists id :: id in order && id.Set == set_ && Proj(raw, id) != [] && x == Average(m, Proj(raw, id))
  {
    if order != [] {
      var k := |order| - 1;
      assert order == order[..k] + [order[k]];
      VisitedAreWorkers(m, raw, order[..k], set_, x);
      VisitedSnoc(m, raw, order[..k], order[k], set_);
    }
  }

  /** All windows and averages of the set are positive. */
  ghost predicate PositiveSet(m: Metric, raw: seq<WorkerReport>, set_: int) {
    forall id: WorkerId :: id.Set == set_ ==>
      && AllPositive(Windows(m, Proj(raw, id)))
      && (Proj(raw, id) != [] ==> Positive(Average(m, Proj(raw, id))))
  }

  lemma PositiveSetValues(m: Metric, raw: seq<WorkerReport>, order: seq<WorkerId>, set_: int)
    requires PositiveSet(m, raw, set_)
    ensures AllPositive(SetWindows(m, raw, set_)) && AllPositive(Visited(m, raw, order, set_))
  {
    var xs, ys := SetWindows(m, raw, set_), Visited(m, raw, order, set_);
    forall i | 0 <= i < |xs| ensures Positive(xs[i]) {
      SetWindowsAreWorkers(m, raw, set_, xs[i]);
    }
    forall i | 0 <= i < |ys| ensures Positive(ys[i]) {
      VisitedAreWorkers(m, raw, order, set_, ys[i]);
    }
  }

  ghost predicate SameTraces(raw: seq<WorkerReport>, raw': seq<WorkerReport>) {
    forall id :: Proj(raw, id) == Proj(raw', id)
  }

  lemma SameSetWindows(m: Metric, raw: seq<WorkerReport>, raw': seq<WorkerReport>, set_: int)
    requires SameTraces(raw, raw')
    ensures forall x :: x in SetWindows(m, raw, set_) <==> x in SetWindows(m, raw', set_)
  {
    forall x ensures x in SetWindows(m, raw, set_) <==> x in SetWindows(m, raw', set_) {
      SetWindowsAreWorkers(m, raw, set_, x);
      SetWindowsAreWorkers(m, raw', set_, x);
    }
  }

  lemma SameVisited(m: Metric, raw: seq<WorkerReport>, order: seq<WorkerId>,
                    raw': seq<WorkerReport>, order': seq<WorkerId>, set_: int)
    requires SameTraces(raw, raw') && IsOrder(order, raw) && IsOrder(order', raw')
    ensures forall x :: x in Visited(m, raw, order, set_) <==> x in Visited(m, raw', order', set_)
  {
    forall x ensures x in Visited(m, raw, order, set_) <==> x in Visited(m, raw', order', set_) {
      VisitedAreWorkers(m, raw, order, set_, x);
      VisitedAreWorkers(m, raw', order', set_, x);
    }
  }

  lemma HeardFromByTrace(raw: seq<WorkerReport>, set_: int)
    ensures HeardFrom(raw, set_) <==> exists id: WorkerId :: id.Set == set_ && Proj(raw, id) != []
  {
    if HeardFrom(raw, set_) {
      var i :| 0 <= i < |raw| && raw[i].Id.Set == set_;
      assert raw[i] in raw;
      assert raw[i] in Proj(raw, raw[i].Id);
    }
    forall id: WorkerId | id.Set == set_ && Proj(raw, id) != [] ensures HeardFrom(raw, set_) {
      ProjHeardFrom(raw, id);
    }
  }

  lemma SameRows(raw: seq<WorkerReport>, raw': seq<WorkerReport>, set_: int, count: int)
    requires SameTraces(raw, raw')
    ensures Traces(raw, set_, count) == Traces(raw', set_, count)
  {
    HeardFromByTrace(raw, set_);
    HeardFromByTrace(raw', set_);
    var a, b := Traces(raw, set_, count), Traces(raw', set_, count);
    assert |a| == |b|;
  }

  /** These values cannot show the order in which they came. */
  ghost predicate Settled(xs: seq<F64>) {
    NumberOrNaN(xs) && !OrderShows(xs)
  }

  lemma SettledExtremes(xs: seq<F64>, ys: seq<F64>)
    requires Settled(xs) && SameValues(xs, ys)
    ensures Extremes(xs) == Extremes(ys)
  {
    forall i | 0 <= i < |ys| ensures ys[i].NaN? || ys[i].Fin? {
      assert ys[i] in xs;
    }
    ExtremesOfSet(xs, ys);
  }

  /** Neither the windows of a set nor its averages can show their order. */
  ghost predicate SettledSet(m: Metric, raw: seq<WorkerReport>, order: seq<WorkerId>, set_: int) {
    Settled(SetWindows(m, raw, set_)) && Settled(Visited(m, raw, order, set_))
  }

  /** That is so if all of them are positive. */
  lemma PositiveSetSettled(m: Metric, raw: seq<WorkerReport>, order: seq<WorkerId>, set_: int)
    requires PositiveSet(m, raw, set_)
    ensures SettledSet(m, raw, order, set_)
  {
    PositiveSetValues(m, raw, order, set_);
    PositiveOrderHidden(SetWindows(m, raw, set_));
    PositiveOrderHidden(Visited(m, raw, order, set_));
  }

  lemma SameMetric(m: Metric, raw: seq<WorkerReport>, order: seq<WorkerId>,
                   raw': seq<WorkerReport>, order': seq<WorkerId>, set_: int, ws: seq<WorkerSummary>)
    requires SameTraces(raw, raw') && IsOrder(order, raw) && IsOrder(order', raw')
    requires SettledSet(m, raw, order, set_)
    ensures SetMetricOf(m, raw, order, set_, ws) == SetMetricOf(m, raw', order', set_, ws)
  {
    SameSetWindows(m, raw, raw', set_);
    SameVisited(m, raw, order, raw', order', set_);
    SettledExtremes(SetWindows(m, raw, set_), SetWindows(m, raw', set_));
    SettledExtremes(Visited(m, raw, order, set_), Visited(m, raw', order', set_));
  }

  /** Two runs in which every worker sent the same reports have the same summary, however
      they were interleaved and in whatever order the map was visited. */
  lemma InterleavingIrrelevant(raw: seq<WorkerReport>, order: seq<WorkerId>,
                               raw': seq<WorkerReport>, order': seq<WorkerId>, set_: int, count: int)
    requires SameTraces(raw, raw') && IsOrder(order, raw) && IsOrder(order', raw')
    requires SettledSet(Tput, raw, order, set_) && SettledSet(Util, raw, order, set_)
    ensures SetOf(raw, order, set_, count) == SetOf(raw', order', set_, count)
  {
    SameRows(raw, raw', set_, count);
    var ws := Row(Traces(raw, set_, count));
    SameMetric(Tput, raw, order, raw', order', set_, ws);
    SameMetric(Util, raw, order, raw', order', set_, ws);
  }

  /** What the Min of a set's windows holds depends on how they were interleaved as Min depends
      on its values; Max does not depend on it. */
  lemma SetWindowExtremes(m: Metric, raw: seq<WorkerReport>, raw': seq<WorkerReport>, set_: int)
    requires SameTraces(raw, raw') && AllFinite(SetWindows(m, raw, set_))
    ensures Extremes(SetWindows(m, raw, set_)).Max == Extremes(SetWindows(m, raw', set_)).Max
    ensures MinLawful(Extremes(SetWindows(m, raw, set_)).Min, SetWindows(m, raw, set_))
    ensures !OrderShows(SetWindows(m, raw, set_)) ==>
              Extremes(SetWindows(m, raw, set_)).Min == Extremes(SetWindows(m, raw', set_)).Min
  {
    var xs, ys := SetWindows(m, raw, set_), SetWindows(m, raw', set_);
    SameSetWindows(m, raw, raw', set_);
    forall i | 0 <= i < |ys| ensures ys[i].Fin? {
      assert ys[i] in xs;
    }
    ExtremesOfSet(xs, ys);
    MinLaw(xs);
  }

  /** With positive windows a set's extremes are the join of its workers' extremes: never
      inside any worker's, and each attained by some worker. */
  lemma SetExtremesJoinWorkers(m: Metric, raw: seq<WorkerReport>, set_: int)
    requires PositiveSet(m, raw, set_) && SetWindows(m, raw, set_) != []
    ensures var mm := Extremes(SetWindows(m, raw, set_));
            && (forall id: WorkerId :: id.Set == set_ && Windows(m, Proj(raw, id)) != [] ==>
                  var w := Extremes(Windows(m, Proj(raw, id))); AtMost(mm.Min, w.Min) && AtMost(w.Max, mm.Max))
            && (exists id: WorkerId :: id.Set == set_ && mm.Min in Windows(m, Proj(raw, id)))
            && (exists id: WorkerId :: id.Set == set_ && mm.Max in Windows(m, Proj(raw, id)))
  {
    var xs := SetWindows(m, raw, set_);
    PositiveSetValues(m, raw, [], set_);
    PositiveExtremes(xs);
    SetWindowsAreWorkers(m, raw, set_, Extremes(xs).Min);
    SetWindowsAreWorkers(m, raw, set_, Extremes(xs).Max);
    forall id: WorkerId | id.Set == set_ && Windows(m, Proj(raw, id)) != []
      ensures var w := Extremes(Windows(m, Proj(raw, id)));
              AtMost(Extremes(xs).Min, w.Min) && AtMost(w.Max, Extremes(xs).Max)
    {
      var ws := Windows(m, Proj(raw, id));
      PositiveExtremes(ws);
      SetWindowsAreWorkers(m, raw, set_, Extremes(ws).Min);
      SetWindowsAreWorkers(m, raw, set_, Extremes(ws).Max);
    }
  }
}
