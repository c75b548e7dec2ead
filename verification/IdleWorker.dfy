/** Two workers that report twice each, one of them idle: what the 0 does to the minima of
    their set. (controller/benchmark.go, Process) */
module IdleWorker {
  import opened Benchmark
  import opened Float
  import opened MinMax
  import opened Summary
  import opened Process
  import opened MapOrder
  import opened TwoReports
  import Interleaving
  import Deviation
  import Mean

  const IDLE: WorkerId := WorkerId(0, 0)
  const BUSY: WorkerId := WorkerId(0, 1)

  const I1: WorkerReport := WorkerReport(IDLE, 1_000_000_000, 0, 0, 0)
  const I2: WorkerReport := WorkerReport(IDLE, 2_000_000_000, 0, 0, 0)
  const B1: WorkerReport := WorkerReport(BUSY, 1_000_000_000, 0, 0, 0)
  const B2: WorkerReport := WorkerReport(BUSY, 2_000_000_000, 10, 0, 0)

  /** The second reports come in one order or the other. */
  const FIRST_TWO: seq<WorkerReport> := [I1, B1]
  const IDLE_FIRST: seq<WorkerReport> := (FIRST_TWO + [I2]) + [B2]
  const BUSY_FIRST: seq<WorkerReport> := (FIRST_TWO + [B2]) + [I2]

  function TraceOf(id: WorkerId): seq<WorkerReport> {
    if id == IDLE then [I1, I2] else if id == BUSY then [B1, B2] else []
  }

  lemma SameReports()
    ensures Interleaving.SameTraces(IDLE_FIRST, BUSY_FIRST)
    ensures forall id :: Proj(IDLE_FIRST, id) == TraceOf(id)
  {
    assert [I1] + [I2] == [I1, I2] && [B1] + [B2] == [B1, B2];
    forall id ensures Proj(IDLE_FIRST, id) == Proj(BUSY_FIRST, id) == TraceOf(id) {
      ProjTwo(I1, B1, id);
      ProjMore(FIRST_TWO, I2, B2, id);
      ProjMore(FIRST_TWO, B2, I2, id);
    }
  }

  lemma WindowRates()
    ensures Window(Tput, I1, I2) == ZERO && Window(Tput, B1, B2) == Fin(10.0)
  {
    Mean.WindowIsRate(Tput, I1, I2);
    Mean.WindowIsRate(Tput, B1, B2);
  }

  lemma AverageRates()
    ensures Average(Tput, [I1, I2]) == ZERO && Average(Tput, [B1, B2]) == Fin(10.0)
  {
    Mean.AverageIsRate(Tput, [I1, I2]);
    Mean.AverageIsRate(Tput, [B1, B2]);
  }

  lemma FirstReports()
    ensures Proj(FIRST_TWO, IDLE) == [I1] && Proj(FIRST_TWO, BUSY) == [B1]
    ensures SetWindows(Tput, FIRST_TWO, 0) == []
  {
    ProjTwo(I1, B1, IDLE);
    ProjTwo(I1, B1, BUSY);
    NoWindowYet(Tput, I1, B1);
  }

  lemma IdleFirstWindows()
    ensures SetWindows(Tput, IDLE_FIRST, 0) == [ZERO, Fin(10.0)]
  {
    FirstReports();
    WindowRates();
    WindowsOfTwo(Tput, FIRST_TWO, I1, I2, ZERO, B1, B2, Fin(10.0));
  }

  lemma BusyFirstWindows()
    ensures SetWindows(Tput, BUSY_FIRST, 0) == [Fin(10.0), ZERO]
  {
    FirstReports();
    WindowRates();
    WindowsOfTwo(Tput, FIRST_TWO, B1, B2, Fin(10.0), I1, I2, ZERO);
  }

  /** The same reports of each worker, interleaved in two ways: the least window of the set is 10
      or 0. */
  lemma InterleavingInput()
    ensures Interleaving.SameTraces(IDLE_FIRST, BUSY_FIRST)
    ensures Extremes(SetWindows(Tput, IDLE_FIRST, 0)).Min == Fin(10.0)
    ensures Extremes(SetWindows(Tput, BUSY_FIRST, 0)).Min == ZERO
  {
    SameReports();
    IdleFirstWindows();
    BusyFirstWindows();
    ZeroThenPositive(Fin(10.0));
  }

  lemma AverageOfTwo(raw: seq<WorkerReport>, x: real)
    requires Proj(raw, IDLE) != [] && Average(Tput, Proj(raw, IDLE)) == ZERO
    requires Proj(raw, BUSY) != [] && Average(Tput, Proj(raw, BUSY)) == Fin(x)
    ensures Summary.Mean(Deviation.SetAverages(Tput, raw, 0, 2)) == Fin(x / 2.0)
  {
    Process.ProjHeardFrom(raw, IDLE);
    Deviation.SetAverageAt(Tput, raw, 0, 2, 0);
    Deviation.SetAverageAt(Tput, raw, 0, 2, 1);
    assert Deviation.SetAverages(Tput, raw, 0, 2) == [ZERO, Fin(x)];
    MeanOfZeroAnd(x);
  }

  lemma MeanOfZeroAnd(x: real)
    ensures Summary.Mean([ZERO, Fin(x)]) == Fin(x / 2.0)
  {
    var xs := [ZERO, Fin(x)];
    assert xs[..1] == [ZERO] && xs[..1][..0] == [];
    assert Sum(xs[..1]) == Add(Sum([]), ZERO);
  }

  lemma TracesOfBoth()
    ensures Proj(IDLE_FIRST, IDLE) == [I1, I2] && Proj(IDLE_FIRST, BUSY) == [B1, B2]
    ensures forall id :: Proj(IDLE_FIRST, id) != [] ==> id == IDLE || id == BUSY
    ensures forall id :: !ReportedOnce(IDLE_FIRST, id)
  {
    SameReports();
  }

  /** Nobody has reported only once, and the order of the map decides between 10 and 0. */
  lemma MapOrderInput()
    ensures IsOrder([IDLE, BUSY], IDLE_FIRST) && MinAverage(Tput, IDLE_FIRST, [IDLE, BUSY], 0) == Fin(10.0)
    ensures IsOrder([BUSY, IDLE], IDLE_FIRST) && MinAverage(Tput, IDLE_FIRST, [BUSY, IDLE], 0) == ZERO
    ensures forall id :: !ReportedOnce(IDLE_FIRST, id)
  {
    TracesOfBoth();
    AverageRates();
    VisitedTwo(Tput, IDLE_FIRST, IDLE, BUSY, ZERO, Fin(10.0));
    VisitedTwo(Tput, IDLE_FIRST, BUSY, IDLE, Fin(10.0), ZERO);
    ZeroThenPositive(Fin(10.0));
  }

  /** Nobody is silent either, and the average of averages 5 is reported with a minimum of 10. */
  lemma IdleFirstInput()
    ensures Proj(IDLE_FIRST, IDLE) != [] && Proj(IDLE_FIRST, BUSY) != []
    ensures var s := SetMetricOf(Tput, IDLE_FIRST, [IDLE, BUSY], 0, Row(Traces(IDLE_FIRST, 0, 2)));
            s.MinMaxAvg.Min == Fin(10.0) && s.AvgAvg == Fin(5.0)
  {
    TracesOfBoth();
    AverageRates();
    AverageOfTwo(IDLE_FIRST, 10.0);
    MapOrderInput();
  }
}
