/** When the order in which the reports of different workers arrive can be seen in the least
    window of their set. (controller/benchmark.go, Process) */
module WindowOrder {
  import opened Benchmark
  import opened Float
  import opened MinMax
  import opened Summary
  import opened Process
  import opened Interleaving
  import opened MapOrder
  import Mean

  function OwnWindows(m: Metric, raw: seq<WorkerReport>, id: WorkerId): seq<F64> {
    Windows(m, Proj(raw, id))
  }

  /** The worker's own minimum. */
  function OwnMin(m: Metric, raw: seq<WorkerReport>, id: WorkerId): F64 {
    Extremes(OwnWindows(m, raw, id)).Min
  }

  function SetMin(m: Metric, raw: seq<WorkerReport>, set_: int): F64 {
    Extremes(SetWindows(m, raw, set_)).Min
  }

  ghost predicate FiniteWindows(m: Metric, raw: seq<WorkerReport>, set_: int) {
    forall id: WorkerId :: id.Set == set_ ==> AllFinite(OwnWindows(m, raw, id))
  }

  /** They are if every worker of the set reports as workers do. */
  lemma MeasuredWindowsFinite(m: Metric, raw: seq<WorkerReport>, set_: int)
    requires MeasuredWorkers(raw, set_)
    ensures FiniteWindows(m, raw, set_)
  {
    forall id: WorkerId | id.Set == set_ ensures AllFinite(OwnWindows(m, raw, id)) {
      var trace := Proj(raw, id);
      if |trace| >= 2 {
        Mean.WindowsFinite(m, trace);
      } else if trace != [] {
        Mean.WindowsArePairs(m, trace);
      }
    }
  }

  ghost predicate NoNegativeWindow(m: Metric, raw: seq<WorkerReport>, set_: int) {
    forall id: WorkerId :: id.Set == set_ ==> !HasNegative(OwnWindows(m, raw, id))
  }

  /** Worker j was idle in some window, and it makes a difference which of the two comes last:
      k was idle too and has another minimum, or k was not, and has a minimum below that of j, or
      j has none. */
  ghost predicate Clash(m: Metric, raw: seq<WorkerReport>, j: WorkerId, k: WorkerId) {
    && ZERO in OwnWindows(m, raw, j) && OwnWindows(m, raw, k) != []
    && if ZERO in OwnWindows(m, raw, k) then OwnMin(m, raw, k) != OwnMin(m, raw, j)
       else OwnMin(m, raw, j) == ZERO || Less(OwnMin(m, raw, k), OwnMin(m, raw, j))
  }

  // ------------------------------------------------------ values since the last 0

  ghost predicate NonNegativeValues(xs: seq<F64>) {
    AllFinite(xs) && !HasNegative(xs)
  }

  lemma {:induction false} SinceZeroAll(xs: seq<F64>)
    requires ZERO !in xs
    ensures SinceZero(xs) == xs
  {
    if xs != [] {
      var k := |xs| - 1;
      assert xs == xs[..k] + [xs[k]];
      SinceZeroAll(xs[..k]);
    }
  }

  lemma {:induction false} SinceZeroConcat(xs: seq<F64>, ys: seq<F64>)
    ensures SinceZero(xs + ys) == if ZERO in ys then SinceZero(ys) else SinceZero(xs) + ys
  {
    if ys == [] {
      assert xs + ys == xs;
    } else {
      var k := |ys| - 1;
      assert (xs + ys)[..|xs + ys| - 1] == xs + ys[..k];
      assert ys == ys[..k] + [ys[k]];
      SinceZeroConcat(xs, ys[..k]);
    }
  }

  lemma SinceZeroSnoc(xs: seq<F64>, x: F64)
    ensures SinceZero(xs + [x]) == if x == ZERO then [] else SinceZero(xs) + [x]
  {
    assert (xs + [x])[..|xs|] == xs;
  }

  /** With nothing negative Min is 0 or the least value since the last 0. */
  lemma NonNegativeMin(xs: seq<F64>)
    requires NonNegativeValues(xs)
    ensures var v := Extremes(xs).Min;
            if SinceZero(xs) == [] then v == ZERO else IsLeast(v, SinceZero(xs)) && Positive(v)
  {
    MinLaw(xs);
  }

  lemma SameSinceZero(xs: seq<F64>, ys: seq<F64>)
    requires NonNegativeValues(xs) && NonNegativeValues(ys) && SinceZero(xs) == SinceZero(ys)
    ensures Extremes(xs).Min == Extremes(ys).Min
  {
    NonNegativeMin(xs);
    NonNegativeMin(ys);
  }

  // ------------------------------------------------------ windows of a set

  lemma SetWindowsNonNegative(m: Metric, raw: seq<WorkerReport>, set_: int)
    requires FiniteWindows(m, raw, set_)
    ensures AllFinite(SetWindows(m, raw, set_))
    ensures NoNegativeWindow(m, raw, set_) <==> !HasNegative(SetWindows(m, raw, set_))
  {
    var xs := SetWindows(m, raw, set_);
    forall i | 0 <= i < |xs| ensures xs[i].Fin? {
      SetWindowsAreWorkers(m, raw, set_, xs[i]);
    }
    NegativeOf(xs);
    if x :| x in xs && Negative(x) {
      SetWindowsAreWorkers(m, raw, set_, x);
      var id: WorkerId :| id.Set == set_ && x in OwnWindows(m, raw, id);
      NegativeOf(OwnWindows(m, raw, id));
    }
    if id: WorkerId :| id.Set == set_ && HasNegative(OwnWindows(m, raw, id)) {
      var i :| 0 <= i < |OwnWindows(m, raw, id)| && Negative(OwnWindows(m, raw, id)[i]);
      SetWindowsAreWorkers(m, raw, set_, OwnWindows(m, raw, id)[i]);
    }
  }

  lemma OwnSnoc(m: Metric, raw: seq<WorkerReport>, e: WorkerReport, id: WorkerId)
    ensures OwnWindows(m, raw + [e], id) ==
            if id == e.Id then OwnWindows(m, raw, id) + Closed(m, Proj(raw, e.Id), e) else OwnWindows(m, raw, id)
  {
    ProjSnoc(raw, e, id);
    if id == e.Id {
      WindowsSnoc(m, Proj(raw, id), e);
    }
  }

  /** One more report closes a window of its worker and its set, or none at all. */
  ghost predicate Closes(m: Metric, raw: seq<WorkerReport>, e: WorkerReport, set_: int) {
    e.Id.Set == set_ && Closed(m, Proj(raw, e.Id), e) != []
  }

  lemma NothingClosed(m: Metric, raw: seq<WorkerReport>, e: WorkerReport, set_: int)
    requires !Closes(m, raw, e, set_)
    ensures SetWindows(m, raw + [e], set_) == SetWindows(m, raw, set_)
    ensures forall id: WorkerId :: id.Set == set_ ==> OwnWindows(m, raw + [e], id) == OwnWindows(m, raw, id)
  {
    SetWindowsSnoc(m, raw, e, set_);
    forall id: WorkerId | id.Set == set_ ensures OwnWindows(m, raw + [e], id) == OwnWindows(m, raw, id) {
      OwnSnoc(m, raw, e, id);
    }
  }

  lemma OneClosed(m: Metric, raw: seq<WorkerReport>, e: WorkerReport, set_: int) returns (y: F64)
    requires Closes(m, raw, e, set_)
    ensures Closed(m, Proj(raw, e.Id), e) == [y]
    ensures SetWindows(m, raw + [e], set_) == SetWindows(m, raw, set_) + [y]
    ensures OwnWindows(m, raw + [e], e.Id) == OwnWindows(m, raw, e.Id) + [y]
    ensures forall id: WorkerId :: id != e.Id ==> OwnWindows(m, raw + [e], id) == OwnWindows(m, raw, id)
  {
    y := Closed(m, Proj(raw, e.Id), e)[0];
    SetWindowsSnoc(m, raw, e, set_);
    forall id ensures OwnWindows(m, raw + [e], id) ==
                      if id == e.Id then OwnWindows(m, raw, id) + [y] else OwnWindows(m, raw, id)
    {
      OwnSnoc(m, raw, e, id);
    }
  }

  /** What the set has seen since its last 0, its workers have seen since theirs. */
  lemma {:induction false} SinceIsOwn(m: Metric, raw: seq<WorkerReport>, set_: int, x: F64) returns (id: WorkerId)
    requires x in SinceZero(SetWindows(m, raw, set_))
    ensures id.Set == set_ && x in SinceZero(OwnWindows(m, raw, id))
  {
    var k := |raw| - 1;
    var before, e := raw[..k], raw[k];
    assert raw == before + [e];
    if Closes(m, before, e, set_) {
      var y := OneClosed(m, before, e, set_);
      SinceZeroSnoc(SetWindows(m, before, set_), y);
      SinceZeroSnoc(OwnWindows(m, before, e.Id), y);
      if x == y {
        id := e.Id;
      } else {
        id := SinceIsOwn(m, before, set_, x);
      }
    } else {
      NothingClosed(m, before, e, set_);
      id := SinceIsOwn(m, before, set_, x);
    }
  }

  ghost predicate LastIdle(m: Metric, raw: seq<WorkerReport>, set_: int, id: WorkerId) {
    && id.Set == set_ && ZERO in OwnWindows(m, raw, id)
    && forall x :: x in SinceZero(OwnWindows(m, raw, id)) ==> x in SinceZero(SetWindows(m, raw, set_))
  }

  lemma LastIdleNext(m: Metric, raw: seq<WorkerReport>, e: WorkerReport, set_: int, id: WorkerId)
    requires if !Closes(m, raw, e, set_) || Closed(m, Proj(raw, e.Id), e) != [ZERO]
             then LastIdle(m, raw, set_, id) else id == e.Id
    ensures LastIdle(m, raw + [e], set_, id)
  {
    if Closes(m, raw, e, set_) {
      var y := OneClosed(m, raw, e, set_);
      SinceZeroSnoc(SetWindows(m, raw, set_), y);
      SinceZeroSnoc(OwnWindows(m, raw, e.Id), y);
      assert y in OwnWindows(m, raw + [e], e.Id);
      if y != ZERO && id == e.Id {
        assert ZERO in OwnWindows(m, raw + [e], id);
      }
    } else {
      NothingClosed(m, raw, e, set_);
    }
  }

  lemma ZeroBefore(m: Metric, raw: seq<WorkerReport>, e: WorkerReport, set_: int)
    requires ZERO in SetWindows(m, raw + [e], set_)
    requires !Closes(m, raw, e, set_) || Closed(m, Proj(raw, e.Id), e) != [ZERO]
    ensures ZERO in SetWindows(m, raw, set_)
  {
    if Closes(m, raw, e, set_) {
      var y := OneClosed(m, raw, e, set_);
    } else {
      NothingClosed(m, raw, e, set_);
    }
  }

  /** The worker that sent the last 0 of the set has seen since then only what the set has. */
  lemma {:induction false} SentLastZero(m: Metric, raw: seq<WorkerReport>, set_: int) returns (id: WorkerId)
    requires ZERO in SetWindows(m, raw, set_)
    ensures LastIdle(m, raw, set_, id)
  {
    var k := |raw| - 1;
    var before, e := raw[..k], raw[k];
    assert raw == before + [e];
    if !Closes(m, before, e, set_) || Closed(m, Proj(before, e.Id), e) != [ZERO] {
      ZeroBefore(m, before, e, set_);
      id := SentLastZero(m, before, set_);
    } else {
      id := e.Id;
    }
    LastIdleNext(m, before, e, set_, id);
  }

  // ------------------------------------------------------ without a clash

  ghost predicate NoClash(m: Metric, raw: seq<WorkerReport>, set_: int) {
    forall j: WorkerId, k: WorkerId :: j.Set == set_ && k.Set == set_ ==> !Clash(m, raw, j, k)
  }

  lemma OwnMinNotAbove(m: Metric, raw: seq<WorkerReport>, set_: int, j: WorkerId, x: F64)
    requires FiniteWindows(m, raw, set_) && NoNegativeWindow(m, raw, set_) && NoClash(m, raw, set_)
    requires j.Set == set_ && ZERO in OwnWindows(m, raw, j) && x in SinceZero(SetWindows(m, raw, set_))
    ensures Positive(OwnMin(m, raw, j)) && AtMost(OwnMin(m, raw, j), x)
  {
    var k := SinceIsOwn(m, raw, set_, x);
    assert !Clash(m, raw, j, k);
    NonNegativeMin(OwnWindows(m, raw, j));
    NonNegativeMin(OwnWindows(m, raw, k));
    if ZERO !in OwnWindows(m, raw, k) {
      SinceZeroAll(OwnWindows(m, raw, k));
    }
  }

  /** Without a clash the minimum of the set is that of any worker that was idle. */
  lemma IdleWorkersAgree(m: Metric, raw: seq<WorkerReport>, set_: int, j: WorkerId)
    requires FiniteWindows(m, raw, set_) && NoNegativeWindow(m, raw, set_) && NoClash(m, raw, set_)
    requires j.Set == set_ && ZERO in OwnWindows(m, raw, j)
    ensures SetMin(m, raw, set_) == OwnMin(m, raw, j)
  {
    var xs, v := SetWindows(m, raw, set_), SetMin(m, raw, set_);
    SetWindowsNonNegative(m, raw, set_);
    SetWindowsAreWorkers(m, raw, set_, ZERO);
    NonNegativeMin(xs);
    NonNegativeMin(OwnWindows(m, raw, j));
    var i := SentLastZero(m, raw, set_);
    assert !Clash(m, raw, j, i);
    NonNegativeMin(OwnWindows(m, raw, i));
    if SinceZero(xs) != [] {
      OwnMinNotAbove(m, raw, set_, j, v);
      assert OwnMin(m, raw, j) in SinceZero(xs);
    }
  }

  /** Then two interleavings give the same minimum; they do so too if a window is negative. */
  lemma AlikeInterleaved(m: Metric, raw: seq<WorkerReport>, raw': seq<WorkerReport>, set_: int)
    requires FiniteWindows(m, raw, set_) && SameTraces(raw, raw')
    requires NoNegativeWindow(m, raw, set_) ==> NoClash(m, raw, set_)
    ensures SetMin(m, raw, set_) == SetMin(m, raw', set_)
  {
    SetWindowsNonNegative(m, raw, set_);
    if NoNegativeWindow(m, raw, set_) && ZERO in SetWindows(m, raw, set_) {
      SetWindowsAreWorkers(m, raw, set_, ZERO);
      var j: WorkerId :| j.Set == set_ && ZERO in OwnWindows(m, raw, j);
      SameClashes(m, raw, raw', set_);
      IdleWorkersAgree(m, raw, set_, j);
      IdleWorkersAgree(m, raw', set_, j);
    } else {
      SetWindowExtremes(m, raw, raw', set_);
    }
  }

  lemma SameClashes(m: Metric, raw: seq<WorkerReport>, raw': seq<WorkerReport>, set_: int)
    requires SameTraces(raw, raw')
    ensures forall id :: OwnWindows(m, raw, id) == OwnWindows(m, raw', id)
    ensures FiniteWindows(m, raw, set_) <==> FiniteWindows(m, raw', set_)
    ensures NoNegativeWindow(m, raw, set_) <==> NoNegativeWindow(m, raw', set_)
    ensures NoClash(m, raw, set_) <==> NoClash(m, raw', set_)
  {
    forall id ensures OwnWindows(m, raw, id) == OwnWindows(m, raw', id) {
      assert Proj(raw, id) == Proj(raw', id);
    }
    forall j, k ensures Clash(m, raw, j, k) <==> Clash(m, raw', j, k) {
    }
  }

  // ------------------------------------------------------ one worker after another

  /** The interleaving in which the workers come one after another. */
  function Sequential(raw: seq<WorkerReport>, order: seq<WorkerId>): seq<WorkerReport> {
    if order == [] then []
    else Sequential(raw, order[..|order| - 1]) + Proj(raw, order[|order| - 1])
  }

  lemma SequentialSnoc(raw: seq<WorkerReport>, order: seq<WorkerId>, id: WorkerId)
    ensures Sequential(raw, order + [id]) == Sequential(raw, order) + Proj(raw, id)
  {
    assert (order + [id])[..|order|] == order;
  }

  lemma {:induction false} ProjOfOne(t: seq<WorkerReport>, id: WorkerId, other: WorkerId)
    requires forall e :: e in t ==> e.Id == id
    ensures Proj(t, other) == if other == id then t else []
  {
    if t != [] {
      var k := |t| - 1;
      assert t == t[..k] + [t[k]];
      ProjOfOne(t[..k], id, other);
      ProjSnoc(t[..k], t[k], other);
    }
  }

  lemma {:induction false} ProjSequential(raw: seq<WorkerReport>, order: seq<WorkerId>, id: WorkerId)
    requires Distinct(order)
    ensures Proj(Sequential(raw, order), id) == if id in order then Proj(raw, id) else []
  {
    if order != [] {
      var k := |order| - 1;
      assert order == order[..k] + [order[k]];
      ProjSequential(raw, order[..k], id);
      ProjConcat(Sequential(raw, order[..k]), Proj(raw, order[k]), id);
      ProjOfOne(Proj(raw, order[k]), order[k], id);
    }
  }

  lemma SequentialIsInterleaving(raw: seq<WorkerReport>, order: seq<WorkerId>)
    requires IsOrder(order, raw)
    ensures SameTraces(raw, Sequential(raw, order))
  {
    forall id ensures Proj(raw, id) == Proj(Sequential(raw, order), id) {
      ProjSequential(raw, order, id);
    }
  }

  /** A worker that has not been heard of before adds its own windows. */
  lemma {:induction false} AddedWindows(m: Metric, raw: seq<WorkerReport>, t: seq<WorkerReport>, id: WorkerId)
    requires Proj(raw, id) == [] && forall e :: e in t ==> e.Id == id
    ensures SetWindows(m, raw + t, id.Set) == SetWindows(m, raw, id.Set) + Windows(m, t)
  {
    if t == [] {
      assert raw + t == raw;
    } else {
      var before, e := t[..|t| - 1], t[|t| - 1];
      assert t == before + [e] && raw + t == (raw + before) + [e];
      AddedWindows(m, raw, before, id);
      ProjConcat(raw, before, id);
      ProjOfOne(before, id, id);
      AddedWindow(m, raw + before, before, e, SetWindows(m, raw, id.Set));
    }
  }

  lemma AddedWindow(m: Metric, raw: seq<WorkerReport>, t: seq<WorkerReport>, e: WorkerReport, xs: seq<F64>)
    requires Proj(raw, e.Id) == t && SetWindows(m, raw, e.Id.Set) == xs + Windows(m, t)
    ensures SetWindows(m, raw + [e], e.Id.Set) == xs + Windows(m, t + [e])
  {
    SetWindowsSnoc(m, raw, e, e.Id.Set);
    WindowsSnoc(m, t, e);
  }

  lemma WorkerAdded(m: Metric, raw: seq<WorkerReport>, order: seq<WorkerId>, id: WorkerId)
    requires Distinct(order + [id])
    ensures SetWindows(m, Sequential(raw, order + [id]), id.Set) ==
            SetWindows(m, Sequential(raw, order), id.Set) + OwnWindows(m, raw, id)
  {
    assert (order + [id])[|order|] == id;
    assert forall i :: 0 <= i < |order| ==> order[i] == (order + [id])[i];
    ProjSequential(raw, order, id);
    SequentialSnoc(raw, order, id);
    AddedWindows(m, Sequential(raw, order), Proj(raw, id), id);
  }

  /** Worker j, and then worker k. */
  lemma OrderToBoth(raw: seq<WorkerReport>, j: WorkerId, k: WorkerId) returns (a: seq<WorkerId>)
    requires j in Reporters(raw) && k in Reporters(raw) && j != k
    ensures IsOrder((a + [j]) + [k], raw) && Distinct(a + [j])
  {
    a := Enumerate(Reporters(raw) - {j, k});
    DistinctConcat(a, [j]);
    DistinctConcat(a + [j], [k]);
    AnyOrder(raw, (a + [j]) + [k]);
  }

  lemma OwnWindowsReported(m: Metric, raw: seq<WorkerReport>, id: WorkerId)
    requires OwnWindows(m, raw, id) != []
    ensures id in Reporters(raw)
  {
    ReportersReport(raw, id);
  }

  lemma NonNegativeEverywhere(m: Metric, raw: seq<WorkerReport>, set_: int, raw': seq<WorkerReport>, id: WorkerId)
    requires FiniteWindows(m, raw, set_) && NoNegativeWindow(m, raw, set_) && SameTraces(raw, raw') && id.Set == set_
    ensures NonNegativeValues(SetWindows(m, raw', set_)) && NonNegativeValues(OwnWindows(m, raw, id))
  {
    SameClashes(m, raw, raw', set_);
    SetWindowsNonNegative(m, raw', set_);
  }

  /** With an idle worker last, the minimum of the set is its own. */
  lemma IdleLast(m: Metric, raw: seq<WorkerReport>, set_: int, j: WorkerId) returns (raw': seq<WorkerReport>)
    requires FiniteWindows(m, raw, set_) && NoNegativeWindow(m, raw, set_)
    requires j.Set == set_ && ZERO in OwnWindows(m, raw, j)
    ensures SameTraces(raw, raw') && SetMin(m, raw', set_) == OwnMin(m, raw, j)
  {
    OwnWindowsReported(m, raw, j);
    var a := OrderTo(raw, j);
    raw' := Sequential(raw, a + [j]);
    SequentialIsInterleaving(raw, a + [j]);
    WorkerAdded(m, raw, a, j);
    NonNegativeEverywhere(m, raw, set_, raw', j);
    SinceZeroConcat(SetWindows(m, Sequential(raw, a), set_), OwnWindows(m, raw, j));
    SameSinceZero(SetWindows(m, raw', set_), OwnWindows(m, raw, j));
  }

  /** With a busy one after it, it is another one if the two clash. */
  lemma BusyLast(m: Metric, raw: seq<WorkerReport>, set_: int, j: WorkerId, k: WorkerId)
      returns (raw': seq<WorkerReport>)
    requires FiniteWindows(m, raw, set_) && NoNegativeWindow(m, raw, set_)
    requires j.Set == set_ && k.Set == set_ && Clash(m, raw, j, k) && ZERO !in OwnWindows(m, raw, k)
    ensures SameTraces(raw, raw') && SetMin(m, raw', set_) != OwnMin(m, raw, j)
  {
    OwnWindowsReported(m, raw, j);
    OwnWindowsReported(m, raw, k);
    var a := OrderToBoth(raw, j, k);
    raw' := Sequential(raw, (a + [j]) + [k]);
    SequentialIsInterleaving(raw, (a + [j]) + [k]);
    WorkerAdded(m, raw, a + [j], k);
    NonNegativeEverywhere(m, raw, set_, raw', j);
    NonNegativeEverywhere(m, raw, set_, raw', k);
    BusyAfter(SetWindows(m, Sequential(raw, a + [j]), set_), OwnWindows(m, raw, k), SetWindows(m, raw', set_));
  }

  lemma BusyAfter(xs: seq<F64>, ys: seq<F64>, zs: seq<F64>)
    requires zs == xs + ys && NonNegativeValues(zs) && NonNegativeValues(ys) && ys != [] && ZERO !in ys
    ensures Positive(Extremes(zs).Min) && AtMost(Extremes(zs).Min, Extremes(ys).Min)
  {
    SinceZeroConcat(xs, ys);
    SinceZeroAll(ys);
    NonNegativeMin(ys);
    NonNegativeMin(zs);
    assert Extremes(ys).Min in SinceZero(xs) + ys;
  }

  lemma SeenInTwoInterleavings(m: Metric, raw: seq<WorkerReport>, set_: int)
      returns (raw': seq<WorkerReport>, raw'': seq<WorkerReport>)
    requires FiniteWindows(m, raw, set_) && NoNegativeWindow(m, raw, set_) && !NoClash(m, raw, set_)
    ensures SameTraces(raw, raw') && SameTraces(raw, raw'') && SetMin(m, raw', set_) != SetMin(m, raw'', set_)
  {
    var j: WorkerId, k: WorkerId :| j.Set == set_ && k.Set == set_ && Clash(m, raw, j, k);
    raw' := IdleLast(m, raw, set_, j);
    if ZERO in OwnWindows(m, raw, k) {
      raw'' := IdleLast(m, raw, set_, k);
    } else {
      raw'' := BusyLast(m, raw, set_, j, k);
    }
  }

  /** The interleaving of the reports can be seen in the least window of a set exactly if no
      window is negative and two of its workers clash. */
  lemma InterleavingMatters(m: Metric, raw: seq<WorkerReport>, set_: int)
    requires FiniteWindows(m, raw, set_)
    ensures (exists raw', raw'' ::
               && SameTraces(raw, raw') && SameTraces(raw, raw'')
               && SetMin(m, raw', set_) != SetMin(m, raw'', set_))
            <==> NoNegativeWindow(m, raw, set_) && !NoClash(m, raw, set_)
  {
    if NoNegativeWindow(m, raw, set_) && !NoClash(m, raw, set_) {
      var raw', raw'' := SeenInTwoInterleavings(m, raw, set_);
    } else {
      forall raw', raw'' | SameTraces(raw, raw') && SameTraces(raw, raw'')
        ensures SetMin(m, raw', set_) == SetMin(m, raw'', set_)
      {
        AlikeInterleaved(m, raw, raw', set_);
        AlikeInterleaved(m, raw, raw'', set_);
      }
    }
  }
}
