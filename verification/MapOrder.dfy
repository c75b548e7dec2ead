/** Go visits the workers in the order of its map, which is any order. When that can be seen
    in the report. (controller/benchmark.go, Process) */
module MapOrder {
  import opened Benchmark
  import opened Float
  import opened MinMax
  import opened Summary
  import opened Process
  import opened Interleaving
  import opened SparseReports
  import Mean

  function Reporters(raw: seq<WorkerReport>): set<WorkerId> {
    set e | e in raw :: e.Id
  }

  lemma ReportersReport(raw: seq<WorkerReport>, id: WorkerId)
    ensures id in Reporters(raw) <==> Proj(raw, id) != []
  {
    if Proj(raw, id) != [] {
      assert Proj(raw, id)[0] in raw;
    }
  }

  lemma {:induction false} Enumerate(ids: set<WorkerId>) returns (order: seq<WorkerId>)
    ensures Distinct(order) && forall id :: id in order <==> id in ids
  {
    order := [];
    if ids != {} {
      var id :| id in ids;
      var rest := Enumerate(ids - {id});
      order := [id] + rest;
    }
  }

  ghost predicate Distinct(ids: seq<WorkerId>) {
    forall i, j :: 0 <= i < j < |ids| ==> ids[i] != ids[j]
  }

  lemma DistinctConcat(a: seq<WorkerId>, b: seq<WorkerId>)
    requires Distinct(a) && Distinct(b) && forall id :: id in a ==> id !in b
    ensures Distinct(a + b)
  {
    var c := a + b;
    forall i, j | 0 <= i < j < |c| ensures c[i] != c[j] {
      if i < |a| <= j {
        assert c[i] in a && c[j] == b[j - |a|];
        assert c[j] in b;
      } else if |a| <= i {
        assert c[i] == b[i - |a|] && c[j] == b[j - |a|];
      }
    }
  }

  lemma AnyOrder(raw: seq<WorkerReport>, order: seq<WorkerId>)
    requires Distinct(order) && forall id :: id in order <==> id in Reporters(raw)
    ensures IsOrder(order, raw)
  {
    forall id ensures id in order <==> Proj(raw, id) != [] {
      ReportersReport(raw, id);
    }
  }

  /** Any worker that has reported may be visited first, and any of the others next. */
  lemma OrderFrom(raw: seq<WorkerReport>, first: WorkerId, next: set<WorkerId>)
      returns (a: seq<WorkerId>, b: seq<WorkerId>)
    requires first in Reporters(raw) && next <= Reporters(raw) - {first}
    ensures IsOrder([first] + a + b, raw)
    ensures forall id :: id in a <==> id in next
    ensures forall id :: id in b <==> id in Reporters(raw) - {first} - next
  {
    a := Enumerate(next);
    b := Enumerate(Reporters(raw) - {first} - next);
    DistinctConcat([first], a);
    DistinctConcat([first] + a, b);
    AnyOrder(raw, [first] + a + b);
  }

  /** And any may be the last. */
  lemma OrderTo(raw: seq<WorkerReport>, last: WorkerId) returns (a: seq<WorkerId>)
    requires last in Reporters(raw)
    ensures IsOrder(a + [last], raw)
  {
    a := Enumerate(Reporters(raw) - {last});
    AnyOrder(raw, a + [last]);
  }

  /** What visiting one more worker adds. */
  function Added(m: Metric, raw: seq<WorkerReport>, id: WorkerId, set_: int): seq<F64> {
    if id.Set == set_ && Proj(raw, id) != [] then [Average(m, Proj(raw, id))] else []
  }

  lemma VisitedNext(m: Metric, raw: seq<WorkerReport>, order: seq<WorkerId>, id: WorkerId, set_: int)
    ensures Visited(m, raw, order + [id], set_) == Visited(m, raw, order, set_) + Added(m, raw, id, set_)
  {
    VisitedSnoc(m, raw, order, id, set_);
  }

  lemma {:induction false} VisitedConcat(
      m: Metric, raw: seq<WorkerReport>, a: seq<WorkerId>, b: seq<WorkerId>, set_: int)
    ensures Visited(m, raw, a + b, set_) == Visited(m, raw, a, set_) + Visited(m, raw, b, set_)
    decreases |b|
  {
    if b == [] {
      assert a + b == a;
    } else {
      var rest, last := b[..|b| - 1], b[|b| - 1];
      assert b == rest + [last] && a + b == (a + rest) + [last];
      VisitedConcat(m, raw, a, rest, set_);
      OneMoreVisited(m, raw, a, rest, last, set_);
    }
  }

  lemma OneMoreVisited(m: Metric, raw: seq<WorkerReport>, a: seq<WorkerId>, b: seq<WorkerId>, id: WorkerId, set_: int)
    requires Visited(m, raw, a + b, set_) == Visited(m, raw, a, set_) + Visited(m, raw, b, set_)
    ensures Visited(m, raw, (a + b) + [id], set_) == Visited(m, raw, a, set_) + Visited(m, raw, b + [id], set_)
  {
    VisitedNext(m, raw, a + b, id, set_);
    VisitedNext(m, raw, b, id, set_);
  }

  lemma VisitedOne(m: Metric, raw: seq<WorkerReport>, id: WorkerId)
    requires Proj(raw, id) != []
    ensures Visited(m, raw, [id], id.Set) == [Average(m, Proj(raw, id))]
  {
    VisitedSnoc(m, raw, [], id, id.Set);
    assert [] + [id] == [id] && [] + [Average(m, Proj(raw, id))] == [Average(m, Proj(raw, id))];
  }

  /** The worker at index f is the first of its set. */
  ghost predicate FirstOfSet(raw: seq<WorkerReport>, order: seq<WorkerId>, set_: int, f: nat) {
    && f < |order| && order[f].Set == set_ && Proj(raw, order[f]) != []
    && forall i :: 0 <= i < f ==> order[i].Set != set_
  }

  lemma {:induction false} NobodyVisited(m: Metric, raw: seq<WorkerReport>, order: seq<WorkerId>, set_: int)
    requires forall i :: 0 <= i < |order| ==> order[i].Set != set_
    ensures Visited(m, raw, order, set_) == []
  {
    if order != [] {
      NobodyVisited(m, raw, order[..|order| - 1], set_);
    }
  }

  lemma {:induction false} FirstVisited(
      m: Metric, raw: seq<WorkerReport>, order: seq<WorkerId>, set_: int, f: nat)
    requires FirstOfSet(raw, order, set_, f)
    ensures Visited(m, raw, order, set_) != [] && Visited(m, raw, order, set_)[0] == Average(m, Proj(raw, order[f]))
  {
    var k := |order| - 1;
    assert order == order[..k] + [order[k]];
    VisitedSnoc(m, raw, order[..k], order[k], set_);
    if f < k {
      FirstVisited(m, raw, order[..k], set_, f);
    } else {
      NobodyVisited(m, raw, order[..k], set_);
    }
  }

  /** The workers of a set report as workers do. */
  ghost predicate MeasuredWorkers(raw: seq<WorkerReport>, set_: int) {
    forall id: WorkerId :: id.Set == set_ ==> Mean.Measured(Proj(raw, id))
  }

  ghost predicate ReportedOnce(raw: seq<WorkerReport>, id: WorkerId) {
    |Proj(raw, id)| == 1
  }

  /** A worker whose average is a number. */
  ghost predicate Averaged(raw: seq<WorkerReport>, id: WorkerId) {
    |Proj(raw, id)| >= 2
  }

  lemma AverageOfWorker(m: Metric, raw: seq<WorkerReport>, id: WorkerId)
    requires Mean.Measured(Proj(raw, id)) && Proj(raw, id) != []
    ensures var x := Average(m, Proj(raw, id)); if ReportedOnce(raw, id) then x.NaN? else x.Fin?
  {
    if ReportedOnce(raw, id) {
      SingleReportAverage(m, Proj(raw, id));
    } else {
      ManyReportsAverage(m, Proj(raw, id));
    }
  }

  lemma VisitedAverage(m: Metric, raw: seq<WorkerReport>, order: seq<WorkerId>, set_: int, x: F64)
      returns (id: WorkerId)
    requires MeasuredWorkers(raw, set_) && x in Visited(m, raw, order, set_)
    ensures id in order && id.Set == set_ && Proj(raw, id) != [] && x == Average(m, Proj(raw, id))
    ensures if ReportedOnce(raw, id) then x.NaN? else x.Fin?
  {
    VisitedAreWorkers(m, raw, order, set_, x);
    id :| id in order && id.Set == set_ && Proj(raw, id) != [] && x == Average(m, Proj(raw, id));
    AverageOfWorker(m, raw, id);
  }

  lemma VisitedNumberOrNaN(m: Metric, raw: seq<WorkerReport>, order: seq<WorkerId>, set_: int)
    requires MeasuredWorkers(raw, set_)
    ensures NumberOrNaN(Visited(m, raw, order, set_))
  {
    forall i | 0 <= i < |Visited(m, raw, order, set_)|
      ensures var x := Visited(m, raw, order, set_)[i]; x.NaN? || x.Fin?
    {
      var id := VisitedAverage(m, raw, order, set_, Visited(m, raw, order, set_)[i]);
    }
  }

  function MinAverage(m: Metric, raw: seq<WorkerReport>, order: seq<WorkerId>, set_: int): F64 {
    Extremes(Visited(m, raw, order, set_)).Min
  }

  // ----------------------------------------------------------- NaN as a minimum

  /** Worker k has reported once, and finds a minimum that counts as unset: no average visited
      before was negative, and the last one that is a number, if any, was 0. */
  ghost predicate Spoils(m: Metric, raw: seq<WorkerReport>, order: seq<WorkerId>, set_: int, k: nat)
    requires k < |order|
  {
    && order[k].Set == set_ && ReportedOnce(raw, order[k])
    && var before := Numbers(Visited(m, raw, order[..k], set_));
       !HasNegative(before) && LastIsZero(before)
  }

  ghost predicate SomebodySpoils(m: Metric, raw: seq<WorkerReport>, order: seq<WorkerId>, set_: int) {
    exists k: nat :: k < |order| && Spoils(m, raw, order, set_, k)
  }

  lemma SpoilsSnoc(m: Metric, raw: seq<WorkerReport>, order: seq<WorkerId>, set_: int)
    requires order != []
    ensures var n := |order| - 1;
            SomebodySpoils(m, raw, order, set_) <==>
              SomebodySpoils(m, raw, order[..n], set_) || Spoils(m, raw, order, set_, n)
  {
    var n := |order| - 1;
    forall k: nat | k < n
      ensures Spoils(m, raw, order[..n], set_, k) <==> Spoils(m, raw, order, set_, k)
    {
      assert order[..n][..k] == order[..k];
    }
  }

  lemma LastSpoils(m: Metric, raw: seq<WorkerReport>, order: seq<WorkerId>, id: WorkerId, set_: int)
    requires MeasuredWorkers(raw, set_)
    ensures NaNTaken(Visited(m, raw, order + [id], set_)) <==>
              NaNTaken(Visited(m, raw, order, set_)) || Spoils(m, raw, order + [id], set_, |order|)
  {
    var xs := Visited(m, raw, order, set_);
    VisitedNumberOrNaN(m, raw, order, set_);
    NumbersFinite(xs);
    MinIsZero(Numbers(xs));
    assert (order + [id])[..|order|] == order;
    VisitedSnoc(m, raw, order, id, set_);
    if id.Set == set_ && Proj(raw, id) != [] {
      AverageOfWorker(m, raw, id);
      NaNTakenSnoc(xs, Average(m, Proj(raw, id)));
    } else {
      assert Visited(m, raw, order + [id], set_) == xs;
    }
  }

  lemma {:induction false} TakenIffSpoiled(m: Metric, raw: seq<WorkerReport>, order: seq<WorkerId>, set_: int)
    requires MeasuredWorkers(raw, set_)
    ensures NaNTaken(Visited(m, raw, order, set_)) <==> SomebodySpoils(m, raw, order, set_)
  {
    if order != [] {
      var n := |order| - 1;
      assert order == order[..n] + [order[n]];
      TakenIffSpoiled(m, raw, order[..n], set_);
      SpoilsSnoc(m, raw, order, set_);
      LastSpoils(m, raw, order[..n], order[n], set_);
    }
  }

  /** For any order: the minimum of the averages of a set is NaN exactly if there is such a worker. */
  lemma NaNMinimum(m: Metric, raw: seq<WorkerReport>, order: seq<WorkerId>, set_: int)
    requires MeasuredWorkers(raw, set_)
    ensures MinAverage(m, raw, order, set_).NaN? <==> SomebodySpoils(m, raw, order, set_)
  {
    var xs := Visited(m, raw, order, set_);
    VisitedNumberOrNaN(m, raw, order, set_);
    TakenIffSpoiled(m, raw, order, set_);
    NaNLaw(xs);
    NumbersFinite(xs);
    ExtremesState(Numbers(xs));
  }

  /** If nobody in the set averages 0, that is so exactly if the first of its workers to be
      visited has reported once. */
  lemma FirstWorkerDecides(m: Metric, raw: seq<WorkerReport>, order: seq<WorkerId>, set_: int, f: nat)
    requires MeasuredWorkers(raw, set_) && FirstOfSet(raw, order, set_, f)
    requires forall id: WorkerId :: id.Set == set_ && Averaged(raw, id) ==> Average(m, Proj(raw, id)) != ZERO
    ensures MinAverage(m, raw, order, set_).NaN? <==> ReportedOnce(raw, order[f])
  {
    var xs := Visited(m, raw, order, set_);
    FirstVisited(m, raw, order, set_, f);
    VisitedNumberOrNaN(m, raw, order, set_);
    AverageOfWorker(m, raw, order[f]);
    if ZERO in xs {
      var id := VisitedAverage(m, raw, order, set_, ZERO);
    }
    MinNaNExact(xs);
  }

  // --------------------------------------------------- when the order is seen

  ghost predicate NaNAndNumber(m: Metric, raw: seq<WorkerReport>, set_: int) {
    && (exists a: WorkerId :: a.Set == set_ && ReportedOnce(raw, a))
    && (exists b: WorkerId :: b.Set == set_ && Averaged(raw, b) && Average(m, Proj(raw, b)) != ZERO)
  }

  ghost predicate ZeroAndPositive(m: Metric, raw: seq<WorkerReport>, set_: int) {
    && (forall id: WorkerId :: id.Set == set_ && Averaged(raw, id) ==> !Negative(Average(m, Proj(raw, id))))
    && (exists a: WorkerId :: a.Set == set_ && Averaged(raw, a) && Average(m, Proj(raw, a)) == ZERO)
    && (exists b: WorkerId :: b.Set == set_ && Averaged(raw, b) && Positive(Average(m, Proj(raw, b))))
  }

  lemma AverageVisited(m: Metric, raw: seq<WorkerReport>, order: seq<WorkerId>, id: WorkerId)
    requires IsOrder(order, raw) && Proj(raw, id) != []
    ensures Average(m, Proj(raw, id)) in Visited(m, raw, order, id.Set)
  {
    VisitedAreWorkers(m, raw, order, id.Set, Average(m, Proj(raw, id)));
  }

  /** If neither holds, every order gives the same minimum. */
  lemma AlikeInAnyOrder(m: Metric, raw: seq<WorkerReport>, order: seq<WorkerId>, order': seq<WorkerId>, set_: int)
    requires MeasuredWorkers(raw, set_) && IsOrder(order, raw) && IsOrder(order', raw)
    requires !NaNAndNumber(m, raw, set_) && !ZeroAndPositive(m, raw, set_)
    ensures MinAverage(m, raw, order, set_) == MinAverage(m, raw, order', set_)
  {
    SameVisited(m, raw, order, raw, order', set_);
    VisitedNumberOrNaN(m, raw, order, set_);
    VisitedNumberOrNaN(m, raw, order', set_);
    OrderHidden(m, raw, order, set_);
    ExtremesOfSet(Visited(m, raw, order, set_), Visited(m, raw, order', set_));
  }

  lemma OrderHidden(m: Metric, raw: seq<WorkerReport>, order: seq<WorkerId>, set_: int)
    requires MeasuredWorkers(raw, set_) && IsOrder(order, raw)
    requires !NaNAndNumber(m, raw, set_) && !ZeroAndPositive(m, raw, set_)
    ensures !OrderShows(Visited(m, raw, order, set_))
  {
    var xs := Visited(m, raw, order, set_);
    if x :| NaN in xs && x in xs && x.Fin? && x != ZERO {
      var a := VisitedAverage(m, raw, order, set_, NaN);
      var b := VisitedAverage(m, raw, order, set_, x);
    } else if x :| !HasNegative(xs) && ZERO in xs && x in xs && Positive(x) {
      var a := VisitedAverage(m, raw, order, set_, ZERO);
      var b := VisitedAverage(m, raw, order, set_, x);
      NegativeOf(xs);
      forall id: WorkerId | id.Set == set_ && Averaged(raw, id) ensures !Negative(Average(m, Proj(raw, id))) {
        AverageVisited(m, raw, order, id);
      }
    }
  }

  /** The order with worker a in front gives NaN. */
  lemma NaNFirst(m: Metric, raw: seq<WorkerReport>, a: WorkerId) returns (order: seq<WorkerId>)
    requires Mean.Measured(Proj(raw, a)) && ReportedOnce(raw, a)
    ensures IsOrder(order, raw) && MinAverage(m, raw, order, a.Set).NaN?
  {
    ReportersReport(raw, a);
    var next, rest := OrderFrom(raw, a, {});
    order := [a] + next + rest;
    FirstVisited(m, raw, order, a.Set, 0);
    AverageOfWorker(m, raw, a);
    FirstNaNIsTaken(Visited(m, raw, order, a.Set));
    NaNLaw(Visited(m, raw, order, a.Set));
  }

  /** The one with worker b in front, and after it all who have reported once, does not. */
  lemma NumberFirst(m: Metric, raw: seq<WorkerReport>, b: WorkerId) returns (order: seq<WorkerId>)
    requires MeasuredWorkers(raw, b.Set) && Averaged(raw, b) && Average(m, Proj(raw, b)) != ZERO
    ensures IsOrder(order, raw) && !MinAverage(m, raw, order, b.Set).NaN?
  {
    var x := Average(m, Proj(raw, b));
    ReportersReport(raw, b);
    var onces := set id | id in Reporters(raw) && ReportedOnce(raw, id);
    var next, rest := OrderFrom(raw, b, onces);
    order := [b] + next + rest;
    var nans, ns := Visited(m, raw, next, b.Set), Visited(m, raw, rest, b.Set);
    VisitedConcat(m, raw, [b] + next, rest, b.Set);
    VisitedConcat(m, raw, [b], next, b.Set);
    VisitedOne(m, raw, b);
    AverageOfWorker(m, raw, b);
    forall y | y in nans ensures y.NaN? {
      var id := VisitedAverage(m, raw, next, b.Set, y);
    }
    forall i | 0 <= i < |ns| ensures ns[i].Fin? {
      var id := VisitedAverage(m, raw, rest, b.Set, ns[i]);
    }
    NaNsKeptOut(x, nans, ns);
    NaNLaw([x] + nans + ns);
    VisitedNumberOrNaN(m, raw, order, b.Set);
    NumbersFinite([x] + nans + ns);
    ExtremesState(Numbers([x] + nans + ns));
  }

  /** With nothing negative and no NaN, the last worker decides whether the minimum is 0. */
  lemma LastDecidesZero(m: Metric, raw: seq<WorkerReport>, last: WorkerId) returns (order: seq<WorkerId>)
    requires MeasuredWorkers(raw, last.Set) && Averaged(raw, last)
    requires forall id: WorkerId :: id.Set == last.Set ==> !ReportedOnce(raw, id)
    requires forall id: WorkerId :: id.Set == last.Set && Averaged(raw, id) ==> !Negative(Average(m, Proj(raw, id)))
    ensures IsOrder(order, raw)
    ensures MinAverage(m, raw, order, last.Set) == ZERO <==> Average(m, Proj(raw, last)) == ZERO
  {
    ReportersReport(raw, last);
    var a := OrderTo(raw, last);
    order := a + [last];
    var xs := Visited(m, raw, order, last.Set);
    VisitedSnoc(m, raw, a, last, last.Set);
    forall i | 0 <= i < |xs| ensures xs[i].Fin? && !Negative(xs[i]) {
      var id := VisitedAverage(m, raw, order, last.Set, xs[i]);
    }
    MinIsZero(xs);
  }

  lemma SeenInTwoOrders(m: Metric, raw: seq<WorkerReport>, set_: int) returns (order: seq<WorkerId>, order': seq<WorkerId>)
    requires MeasuredWorkers(raw, set_) && (NaNAndNumber(m, raw, set_) || ZeroAndPositive(m, raw, set_))
    ensures IsOrder(order, raw) && IsOrder(order', raw)
    ensures MinAverage(m, raw, order, set_) != MinAverage(m, raw, order', set_)
  {
    if NaNAndNumber(m, raw, set_) {
      var a: WorkerId :| a.Set == set_ && ReportedOnce(raw, a);
      var b: WorkerId :| b.Set == set_ && Averaged(raw, b) && Average(m, Proj(raw, b)) != ZERO;
      order := NaNFirst(m, raw, a);
      order' := NumberFirst(m, raw, b);
    } else {
      var a: WorkerId :| a.Set == set_ && Averaged(raw, a) && Average(m, Proj(raw, a)) == ZERO;
      var b: WorkerId :| b.Set == set_ && Averaged(raw, b) && Positive(Average(m, Proj(raw, b)));
      order := LastDecidesZero(m, raw, a);
      order' := LastDecidesZero(m, raw, b);
    }
  }

  /** The order of the map can be seen in the minimum of a set's averages exactly if somebody in
      the set has reported once and somebody has an average other than 0, or if none of the
      averages is negative, one is 0 and one positive. */
  lemma MapOrderMatters(m: Metric, raw: seq<WorkerReport>, set_: int)
    requires MeasuredWorkers(raw, set_)
    ensures (exists order, order' ::
               && IsOrder(order, raw) && IsOrder(order', raw)
               && MinAverage(m, raw, order, set_) != MinAverage(m, raw, order', set_))
            <==> NaNAndNumber(m, raw, set_) || ZeroAndPositive(m, raw, set_)
  {
    if NaNAndNumber(m, raw, set_) || ZeroAndPositive(m, raw, set_) {
      var order, order' := SeenInTwoOrders(m, raw, set_);
    } else {
      forall order, order' | IsOrder(order, raw) && IsOrder(order', raw)
        ensures MinAverage(m, raw, order, set_) == MinAverage(m, raw, order', set_)
      {
        AlikeInAnyOrder(m, raw, order, order', set_);
      }
    }
  }
}
