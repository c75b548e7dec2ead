/** The parts joined: what the worker prints, what a run keeps of it, and what the summary
    says. (worker/worker.c; controller/xenworker.go, run.go, benchmark.go) */
module EndToEnd {
  import opened Benchmark
  import opened Float
  import opened Summary
  import opened Sender
  import RunProtocol
  import EventEngine
  import EngineReports
  import Clock
  import Mean
  import Process

  /** The reports of a run carry the ids of its workers, so Process finds a place for each
      of them and can neither fail nor panic. */
  lemma RunResultsInRange(counts: seq<int>, ids: set<WorkerId>, raw0: seq<WorkerReport>,
                          es: seq<RunProtocol.Event>, cf: RunProtocol.Config)
    requires forall id :: id in ids ==> InRange(counts, id)
    requires AllInRange(counts, raw0)
    requires RunProtocol.Exec(RunProtocol.Begin(ids, raw0), es, cf).Some?
    ensures AllInRange(counts, RunProtocol.Exec(RunProtocol.Begin(ids, raw0), es, cf).value.ctl.raw)
  {
    RunProtocol.RunSafety(ids, raw0, es, cf);
    var s := RunProtocol.Exec(RunProtocol.Begin(ids, raw0), es, cf).value;
    var raw := s.ctl.raw;
    forall i | 0 <= i < |raw| ensures InRange(counts, raw[i].Id) {
      if i < |raw0| {
        assert raw[i] == raw[..|raw0|][i];
      } else {
        assert raw[i] in raw[|raw0|..];
      }
    }
  }

  /** A console that shows, after START JSON, a beginning of what the worker printed. */
  ghost predicate Shows(log: seq<string>, first: nat, printed: seq<EventEngine.Event>, decode: Decoder)
    requires forall e :: e in printed ==> e.Printed?
  {
    && first < |log| && log[first] == START && START !in log[..first]
    && |log| - first - 1 <= |printed|
    && forall j :: 0 <= j < |log| - first - 1 ==>
         var r := decode(first + 1 + j, log[first + 1 + j]);
         r.Now == printed[j].now && r.Kops == printed[j].kops && r.MaxDelta == printed[j].maxDelta
  }

  /** What a run keeps of a worker is then a beginning of what the worker printed. */
  lemma RunKeepsPrinted(ids: set<WorkerId>, es: seq<RunProtocol.Event>, cf: RunProtocol.Config, id: WorkerId,
                        first: nat, printed: seq<EventEngine.Event>)
    requires RunProtocol.Exec(RunProtocol.Begin(ids, []), es, cf).Some? && id in ids
    requires (forall e :: e in printed ==> e.Printed?)
    requires var s := RunProtocol.Exec(RunProtocol.Begin(ids, []), es, cf).value;
             id in s.ws && Shows(s.ws[id].log, first, printed, cf.decode)
    ensures var s := RunProtocol.Exec(RunProtocol.Begin(ids, []), es, cf).value;
            Mean.TraceOf(Proj(s.ctl.raw, id), printed)
  {
    RunProtocol.RunSafety(ids, [], es, cf);
    var s := RunProtocol.Exec(RunProtocol.Begin(ids, []), es, cf).value;
    var w := s.ws[id];
    assert RunProtocol.LocalInv(w, id, cf);
    EmittedIsTail(w.log, first, id, cf.decode);
    assert s.ctl.raw[0..] == s.ctl.raw;
    var kept, emitted := Proj(s.ctl.raw, id), Emitted(w.log, id, cf.decode);
    assert RunProtocol.IsPrefix(kept, w.delivered);
    forall i | 0 <= i < |kept|
      ensures kept[i].Now == printed[i].now && kept[i].Kops == printed[i].kops && kept[i].MaxDelta == printed[i].maxDelta
    {
      assert kept[i] == w.delivered[i] == emitted[i];
    }
  }

  /** The entry of a worker in the summary of its set is the summary of its own reports. */
  lemma EntryIsWorker(raw: seq<WorkerReport>, order: seq<WorkerId>, id: WorkerId, count: int)
    requires 0 <= id.Id < count && Proj(raw, id) != []
    ensures var ws := SetOf(raw, order, id.Set, count).Workers;
            |ws| == count && ws[id.Id] == WorkerOf(Proj(raw, id))
  {
    Process.TraceInRow(raw, id, count);
  }

  /** From the worker's clock to the controller's summary, over every interleaving of the
      run and every order of the map: in the entry of a worker, average throughput and
      average utilization are between their extremes. */
  lemma AverageBetweenExtremes(
      m: Metric, threads: seq<EventEngine.WorkDesc>, readings: seq<int>, intervalNs: int, clock: seq<int>,
      ids: set<WorkerId>, es: seq<RunProtocol.Event>, cf: RunProtocol.Config, id: WorkerId, first: nat,
      order: seq<WorkerId>, count: int)
    requires |threads| == |readings| && threads != [] && intervalNs > 0
    requires EngineReports.HeadsIncrease(EventEngine.Init(threads, readings, intervalNs), clock)
    requires clock != [] ==> clock[0] > 0
    requires RunProtocol.Exec(RunProtocol.Begin(ids, []), es, cf).Some? && id in ids && 0 <= id.Id < count
    requires var log := EventEngine.Run(EventEngine.Init(threads, readings, intervalNs), clock).log;
             var s := RunProtocol.Exec(RunProtocol.Begin(ids, []), es, cf).value;
             && EventEngine.Kops(log) < Clock.TWO_64
             && id in s.ws && Shows(s.ws[id].log, first, EventEngine.Reports(log), cf.decode)
             && |Proj(s.ctl.raw, id)| >= 2 && Mean.MakesProgress(m, threads, Proj(s.ctl.raw, id))
    ensures var raw := RunProtocol.Exec(RunProtocol.Begin(ids, []), es, cf).value.ctl.raw;
            var ws := SetOf(raw, order, id.Set, count).Workers;
            && |ws| == count
            && var w := Mean.MetricOf(ws[id.Id], m);
               AtMost(w.MinMax.Min, w.Avg) && AtMost(w.Avg, w.MinMax.Max)
  {
    var log := EventEngine.Run(EventEngine.Init(threads, readings, intervalNs), clock).log;
    var raw := RunProtocol.Exec(RunProtocol.Begin(ids, []), es, cf).value.ctl.raw;
    RunKeepsPrinted(ids, es, cf, id, first, EventEngine.Reports(log));
    Mean.WorkerAverageReported(m, threads, readings, intervalNs, clock, Proj(raw, id));
    EntryIsWorker(raw, order, id, count);
  }
}
