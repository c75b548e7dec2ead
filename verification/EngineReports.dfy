/** What the worker prints: a fixed grid of report times, truthful counters, and the
    largest queueing delay since the previous report.
    (worker/worker.c, report and the accounting in eventqueue_loop) */
module EngineReports {
  import opened Integers
  import opened Clock
  import opened EventEngine
  import opened EngineOrder

  function Delay(e: Event): int
    requires e.Popped?
  {
    e.at - e.elem.startNs
  }

  /** The executions since the last report. */
  function SinceReport(log: seq<Event>): (tail: seq<Event>)
    ensures forall e :: e in tail ==> e.Popped?
  {
    if log == [] || log[|log| - 1].Printed? then []
    else SinceReport(log[..|log| - 1]) + [log[|log| - 1]]
  }

  lemma SinceReportSnoc(log: seq<Event>, e: Event)
    ensures SinceReport(log + [e]) == if e.Printed? then [] else SinceReport(log) + [e]
  {
    assert (log + [e])[..|log|] == log;
  }

  /** m is the largest of the delays, or 0 when there are none above it. */
  ghost predicate IsMaxDelay(m: int, pops: seq<Event>)
    requires forall e :: e in pops ==> e.Popped?
  {
    && m >= 0
    && (forall e :: e in pops ==> Delay(e) <= m)
    && (m == 0 || exists e :: e in pops && Delay(e) == m)
  }

  /** Every report in the log states the work done and the worst delay exactly. */
  ghost predicate Truthful(log: seq<Event>) {
    forall i :: 0 <= i < |log| && log[i].Printed? ==>
      log[i].kops == ToU64(Kops(log[..i])) && IsMaxDelay(log[i].maxDelta, SinceReport(log[..i]))
  }

  ghost predicate Honest(s: State) {
    && KopsTallied(s)
    && IsMaxDelay(s.maxDelta, SinceReport(s.log))
    && Truthful(s.log)
  }

  lemma TruthfulSnoc(log: seq<Event>, e: Event)
    requires Truthful(log)
    requires e.Printed? ==> e.kops == ToU64(Kops(log)) && IsMaxDelay(e.maxDelta, SinceReport(log))
    ensures Truthful(log + [e])
  {
    var l := log + [e];
    forall i | 0 <= i < |l| && l[i].Printed?
      ensures l[i].kops == ToU64(Kops(l[..i])) && IsMaxDelay(l[i].maxDelta, SinceReport(l[..i]))
    {
      assert l[..i] == log[..i];
      assert log[..|log|] == log;
    }
  }

  lemma ReportKeepsHonest(s: State, n: int)
    requires Honest(s)
    ensures Honest(Report(s, n))
  {
    var e := Printed(n, s.kopsDone, s.maxDelta);
    ReportTallies(s, n);
    SinceReportSnoc(s.log, e);
    TruthfulSnoc(s.log, e);
  }

  lemma MaxDelaySnoc(m: int, pops: seq<Event>, e: Event)
    requires (forall x :: x in pops ==> x.Popped?) && e.Popped? && IsMaxDelay(m, pops)
    ensures IsMaxDelay(if Delay(e) > m then Delay(e) else m, pops + [e])
  {
    if Delay(e) > m {
      assert e in pops + [e];
    } else if m != 0 {
      var x :| x in pops && Delay(x) == m;
      assert x in pops + [e];
    }
  }

  lemma AwaitKeepsHonest(s: State, n: int)
    requires Honest(s) && s.queue != []
    ensures Honest(Await(s, n))
  {
    var e := Popped(s.queue[0], n);
    AwaitTallies(s, n);
    SinceReportSnoc(s.log, e);
    TruthfulSnoc(s.log, e);
    MaxDelaySnoc(s.maxDelta, SinceReport(s.log), e);
  }

  /** Under any clock, every report gives the work done so far (to 64 bits) and exactly
      the largest delay of the executions since the report before it. */
  lemma {:induction false} ReportsTruthful(s: State, clock: seq<int>)
    requires Honest(s)
    ensures Honest(Run(s, clock))
  {
    if clock != [] {
      var p, n := Run(s, clock[..|clock| - 1]), clock[|clock| - 1];
      ReportsTruthful(s, clock[..|clock| - 1]);
      if p.queue != [] && p.phase.AtHead? {
        ReportKeepsHonest(p, n);
        AwaitKeepsHonest(Report(p, n), n);
      } else if p.queue != [] && p.phase.Asleep? {
        AwaitKeepsHonest(p, n);
      }
    }
  }

  /** So whatever the threads and the clock, every report of the worker is truthful. */
  lemma WorkerReportsTruthful(threads: seq<WorkDesc>, readings: seq<int>, intervalNs: int, clock: seq<int>)
    requires |threads| == |readings|
    ensures Truthful(Run(Init(threads, readings, intervalNs), clock).log)
  {
    ReportsTruthful(Init(threads, readings, intervalNs), clock);
  }

  // -------------------------------------------------------------------- grid

  /** After k reports the next is due after n0 + k intervals, counted from the first
      reading and not from when reports were actually printed. */
  ghost predicate OnGrid(s: State, n0: int) {
    var rs := Reports(s.log);
    && rs != []
    && rs[0] == Printed(n0, 0, 0)
    && s.nextReport == GridPoint(n0, |rs|, s.intervalNs)
    && forall j :: 1 <= j < |rs| ==> rs[j].now > GridPoint(n0, j, s.intervalNs)
  }

  function GridPoint(n0: int, k: nat, intervalNs: int): int {
    n0 + k * intervalNs
  }

  lemma GridStep(n0: int, k: nat, intervalNs: int)
    ensures GridPoint(n0, k + 1, intervalNs) == GridPoint(n0, k, intervalNs) + intervalNs
    ensures intervalNs >= 0 ==> GridPoint(n0, k, intervalNs) >= n0
  {
    if intervalNs >= 0 {
      MulMono(intervalNs, 0, k);
    }
  }

  lemma ReportKeepsGrid(s: State, n0: int, n: int)
    requires OnGrid(s, n0) && n0 > 0 && s.intervalNs > 0
    ensures OnGrid(Report(s, n), n0)
  {
    var rs := Reports(s.log);
    var e := Printed(n, s.kopsDone, s.maxDelta);
    LogSnoc(s.log, e);
    GridStep(n0, |rs|, s.intervalNs);
    assert s.nextReport > 0;
  }

  lemma AwaitKeepsGrid(s: State, n0: int, n: int)
    requires OnGrid(s, n0) && s.queue != []
    ensures OnGrid(Await(s, n), n0)
  {
    LogSnoc(s.log, Popped(s.queue[0], n));
  }

  lemma FirstReport(s: State, n0: int)
    requires s.phase.AtHead? && s.nextReport == 0 && s.log == [] && s.kopsDone == 0 && s.maxDelta == 0
    ensures OnGrid(Report(s, n0), n0)
  {
    LogSnoc(s.log, Printed(n0, 0, 0));
    GridStep(n0, 0, s.intervalNs);
  }

  /** The grid holds for any clock whose first reading is positive. */
  lemma {:induction false} ReportingGrid(s: State, clock: seq<int>)
    requires s.phase.AtHead? && s.nextReport == 0 && s.log == [] && s.kopsDone == 0 && s.maxDelta == 0
    requires s.queue != [] && clock != [] && clock[0] > 0 && s.intervalNs > 0
    ensures Run(s, clock).intervalNs == s.intervalNs
    ensures OnGrid(Run(s, clock), clock[0])
  {
    var k := |clock| - 1;
    var p, n, n0 := Run(s, clock[..k]), clock[k], clock[0];
    if k == 0 {
      assert p == s;
      FirstReport(s, n0);
      AwaitKeepsGrid(Report(s, n0), n0, n0);
    } else {
      ReportingGrid(s, clock[..k]);
      if p.queue != [] && p.phase.AtHead? {
        ReportKeepsGrid(p, n0, n);
        AwaitKeepsGrid(Report(p, n), n0, n);
      } else if p.queue != [] && p.phase.Asleep? {
        AwaitKeepsGrid(p, n0, n);
      }
    }
  }

  // ------------------------------------------------- shape the controller sees

  ghost predicate TimesIncrease(rs: seq<Event>)
    requires forall e :: e in rs ==> e.Printed?
  {
    forall i, j :: 0 <= i < j < |rs| ==> rs[i].now < rs[j].now
  }

  ghost predicate TimesUpTo(rs: seq<Event>, t: int)
    requires forall e :: e in rs ==> e.Printed?
  {
    forall i :: 0 <= i < |rs| ==> rs[i].now <= t
  }

  lemma AwaitAddsNoReport(s: State, n: int)
    requires s.queue != []
    ensures Reports(Await(s, n).log) == Reports(s.log)
    ensures Kops(s.log) <= Kops(Await(s, n).log)
  {
    LogSnoc(s.log, Popped(s.queue[0], n));
  }

  /** One step reports only at the head of the loop, with the reading taken there. */
  lemma StepReports(s: State, n: int)
    ensures Reports(Step(s, n).log) ==
            if s.phase.AtHead? && s.queue != [] && (s.nextReport == 0 || n > s.nextReport)
            then Reports(s.log) + [Printed(n, s.kopsDone, s.maxDelta)] else Reports(s.log)
  {
    if s.phase.AtHead? && s.queue != [] {
      LogSnoc(s.log, Printed(n, s.kopsDone, s.maxDelta));
      AwaitAddsNoReport(Report(s, n), n);
    } else if s.phase.Asleep? && s.queue != [] {
      AwaitAddsNoReport(s, n);
    }
  }

  ghost predicate TimesDoNotDecrease(rs: seq<Event>)
    requires forall e :: e in rs ==> e.Printed?
  {
    forall i, j :: 0 <= i < j < |rs| ==> rs[i].now <= rs[j].now
  }

  lemma NoEarlierTime(rs: seq<Event>, e: Event, last: int)
    requires (forall x :: x in rs ==> x.Printed?) && e.Printed?
    requires TimesDoNotDecrease(rs) && TimesUpTo(rs, last) && last <= e.now
    ensures TimesDoNotDecrease(rs + [e]) && TimesUpTo(rs + [e], e.now)
  {
  }

  lemma TimesUpToLater(rs: seq<Event>, t: int, u: int)
    requires (forall x :: x in rs ==> x.Printed?) && TimesUpTo(rs, t) && t <= u
    ensures TimesUpTo(rs, u)
  {
  }

  /** With a clock that does not run backwards the times reported do not decrease. */
  lemma {:induction false} ReportTimesDoNotDecrease(s: State, clock: seq<int>)
    requires Reports(s.log) == [] && NonDecreasing(clock)
    ensures var rs := Reports(Run(s, clock).log);
            && TimesDoNotDecrease(rs)
            && (rs != [] ==> clock != [] && TimesUpTo(rs, clock[|clock| - 1]))
  {
    if clock != [] {
      var k := |clock| - 1;
      var p, n := Run(s, clock[..k]), clock[k];
      ReportTimesDoNotDecrease(s, clock[..k]);
      StepReports(p, n);
      var last := if k > 0 then clock[k - 1] else n;
      NoEarlierTime(Reports(p.log), Printed(n, p.kopsDone, p.maxDelta), last);
      TimesUpToLater(Reports(p.log), last, n);
    }
  }

  /** The readings at which an iteration of the loop begins. */
  function Heads(s: State, clock: seq<int>): seq<int> {
    if clock == [] then []
    else
      var k := |clock| - 1;
      Heads(s, clock[..k]) + if Run(s, clock[..k]).phase.AtHead? then [clock[k]] else []
  }

  /** The clock gains at least 1 ns from one iteration of the loop to the next. */
  ghost predicate HeadsIncrease(s: State, clock: seq<int>) {
    Increasing(Heads(s, clock))
  }

  ghost predicate Increasing(h: seq<int>) {
    forall i, j :: 0 <= i < j < |h| ==> h[i] < h[j]
  }

  lemma IncreasingSnoc(h: seq<int>, n: int)
    requires Increasing(h + [n])
    ensures Increasing(h) && (h != [] ==> h[|h| - 1] < n)
  {
    var g := h + [n];
    assert forall i :: 0 <= i < |h| ==> h[i] == g[i];
    assert h != [] ==> g[|h| - 1] < g[|h|];
  }

  lemma HeadsSnoc(s: State, clock: seq<int>)
    requires clock != []
    ensures var k := |clock| - 1;
            Heads(s, clock) ==
            if Run(s, clock[..k]).phase.AtHead? then Heads(s, clock[..k]) + [clock[k]] else Heads(s, clock[..k])
  {
  }

  /** The reports carry times that increase, up to the last of these readings. */
  ghost predicate TimedBy(rs: seq<Event>, h: seq<int>)
    requires forall e :: e in rs ==> e.Printed?
  {
    TimesIncrease(rs) && (rs != [] ==> h != [] && TimesUpTo(rs, h[|h| - 1]))
  }

  lemma LaterTimeIncreases(rs: seq<Event>, e: Event, last: int)
    requires (forall x :: x in rs ==> x.Printed?) && e.Printed?
    requires TimesIncrease(rs) && TimesUpTo(rs, last) && last < e.now
    ensures TimesIncrease(rs + [e]) && TimesUpTo(rs + [e], e.now)
  {
  }

  lemma HeadKeepsTimed(rs: seq<Event>, h: seq<int>, e: Event)
    requires (forall x :: x in rs ==> x.Printed?) && e.Printed?
    requires TimedBy(rs, h) && (h != [] ==> h[|h| - 1] < e.now)
    ensures TimedBy(rs, h + [e.now]) && TimedBy(rs + [e], h + [e.now])
  {
    var last := if h == [] then e.now - 1 else h[|h| - 1];
    LaterTimeIncreases(rs, e, last);
    TimesUpToLater(rs, last, e.now);
  }

  /** If it does so, no two reports carry the same time. */
  lemma {:induction false} ReportTimesIncrease(s: State, clock: seq<int>)
    requires Reports(s.log) == [] && HeadsIncrease(s, clock)
    ensures TimedBy(Reports(Run(s, clock).log), Heads(s, clock))
  {
    if clock != [] {
      var k := |clock| - 1;
      var p, n := Run(s, clock[..k]), clock[k];
      var h := Heads(s, clock[..k]);
      HeadsSnoc(s, clock);
      StepReports(p, n);
      if p.phase.AtHead? {
        IncreasingSnoc(h, n);
        ReportTimesIncrease(s, clock[..k]);
        HeadKeepsTimed(Reports(p.log), h, Printed(n, p.kopsDone, p.maxDelta));
      } else {
        ReportTimesIncrease(s, clock[..k]);
      }
    }
  }

  /** The counters reported never go back while the work fits 64 bits. */
  ghost predicate KopsClimb(s: State) {
    s.kopsDone == Kops(s.log) && ClimbTo(Reports(s.log), s.kopsDone)
  }

  ghost predicate ClimbTo(rs: seq<Event>, k: int)
    requires forall e :: e in rs ==> e.Printed?
  {
    && (forall i, j :: 0 <= i < j < |rs| ==> rs[i].kops <= rs[j].kops)
    && forall i :: 0 <= i < |rs| ==> rs[i].kops <= k
  }

  lemma ClimbSnoc(rs: seq<Event>, e: Event)
    requires (forall x :: x in rs ==> x.Printed?) && e.Printed? && ClimbTo(rs, e.kops)
    ensures ClimbTo(rs + [e], e.kops)
  {
  }

  lemma ReportKeepsClimb(s: State, n: int)
    requires KopsClimb(s)
    ensures KopsClimb(Report(s, n)) && Kops(Report(s, n).log) == Kops(s.log)
  {
    LogSnoc(s.log, Printed(n, s.kopsDone, s.maxDelta));
    ClimbSnoc(Reports(s.log), Printed(n, s.kopsDone, s.maxDelta));
  }

  lemma AwaitKeepsClimb(s: State, n: int)
    requires KopsClimb(s) && s.queue != [] && Kops(Await(s, n).log) < TWO_64
    ensures KopsClimb(Await(s, n))
  {
    AwaitAddsNoReport(s, n);
    LogSnoc(s.log, Popped(s.queue[0], n));
  }

  lemma StepKopsMono(s: State, n: int)
    ensures Kops(s.log) <= Kops(Step(s, n).log)
  {
    if s.phase.AtHead? && s.queue != [] {
      LogSnoc(s.log, Printed(n, s.kopsDone, s.maxDelta));
      AwaitAddsNoReport(Report(s, n), n);
    } else if s.phase.Asleep? && s.queue != [] {
      AwaitAddsNoReport(s, n);
    }
  }

  lemma StepKeepsClimb(s: State, n: int)
    requires KopsClimb(s) && Kops(Step(s, n).log) < TWO_64
    ensures KopsClimb(Step(s, n))
  {
    if s.phase.AtHead? && s.queue != [] {
      ReportKeepsClimb(s, n);
      AwaitKeepsClimb(Report(s, n), n);
    } else if s.phase.Asleep? && s.queue != [] {
      AwaitKeepsClimb(s, n);
    }
  }

  lemma {:induction false} CountersClimb(s: State, clock: seq<int>)
    requires KopsClimb(s) && Kops(Run(s, clock).log) < TWO_64
    ensures KopsClimb(Run(s, clock))
  {
    if clock != [] {
      var k := |clock| - 1;
      StepKopsMono(Run(s, clock[..k]), clock[k]);
      CountersClimb(s, clock[..k]);
      StepKeepsClimb(Run(s, clock[..k]), clock[k]);
    }
  }

  ghost predicate KopsIncrease(rs: seq<Event>)
    requires forall e :: e in rs ==> e.Printed?
  {
    forall i, j :: 0 <= i < j < |rs| ==> rs[i].kops < rs[j].kops
  }

  ghost predicate KopsBelow(rs: seq<Event>, k: int)
    requires forall e :: e in rs ==> e.Printed?
  {
    forall i :: 0 <= i < |rs| ==> rs[i].kops < k
  }

  /** Between two visits to the head of the loop something has been executed. */
  ghost predicate KopsRise(s: State) {
    && KopsClimb(s)
    && KopsIncrease(Reports(s.log))
    && (!s.phase.Asleep? ==> KopsBelow(Reports(s.log), s.kopsDone))
  }

  /** Every thread does some work each time it is executed. */
  ghost predicate AllBusy(threads: multiset<WorkDesc>) {
    forall wd :: wd in threads ==> wd.kops > 0
  }

  lemma AwaitRises(s: State, n: int)
    requires KopsClimb(s) && KopsIncrease(Reports(s.log)) && s.queue != [] && s.queue[0].wd.kops > 0
    requires Kops(Await(s, n).log) < TWO_64
    ensures KopsRise(Await(s, n))
  {
    AwaitKeepsClimb(s, n);
    AwaitAddsNoReport(s, n);
    LogSnoc(s.log, Popped(s.queue[0], n));
  }

  lemma ReportRises(s: State, n: int)
    requires KopsRise(s) && s.phase.AtHead?
    ensures KopsClimb(Report(s, n)) && KopsIncrease(Reports(Report(s, n).log))
  {
    ReportKeepsClimb(s, n);
    LogSnoc(s.log, Printed(n, s.kopsDone, s.maxDelta));
  }

  lemma StepRises(s: State, n: int)
    requires KopsRise(s) && AllBusy(Threads(s)) && Kops(Step(s, n).log) < TWO_64
    ensures KopsRise(Step(s, n))
  {
    if s.queue != [] && !s.phase.Requeue? {
      assert s.queue[0].wd in Threads(s);
      if s.phase.AtHead? {
        ReportRises(s, n);
        AwaitRises(Report(s, n), n);
      } else {
        AwaitRises(s, n);
      }
    }
  }

  /** If every thread does some work, no two reports carry the same counter. */
  lemma {:induction false} CountersIncrease(s: State, clock: seq<int>)
    requires KopsRise(s) && AllBusy(Threads(s)) && Kops(Run(s, clock).log) < TWO_64
    ensures KopsRise(Run(s, clock))
  {
    if clock != [] {
      var k := |clock| - 1;
      StepKopsMono(Run(s, clock[..k]), clock[k]);
      CountersIncrease(s, clock[..k]);
      RunConserves(s, clock[..k]);
      StepRises(Run(s, clock[..k]), clock[k]);
    }
  }

  /** What the controller may rely on in a worker's reports: the first carries no work
      and a positive time, times increase and counters do not decrease. */
  ghost predicate WellShaped(rs: seq<Event>)
    requires forall e :: e in rs ==> e.Printed?
  {
    && (rs != [] ==> rs[0].kops == 0 && rs[0].now > 0)
    && TimesIncrease(rs)
    && forall i, j :: 0 <= i < j < |rs| ==> rs[i].kops <= rs[j].kops
  }

  lemma WorkerEmitsWellShaped(threads: seq<WorkDesc>, readings: seq<int>, intervalNs: int, clock: seq<int>)
    requires |threads| == |readings| && threads != [] && intervalNs > 0
    requires HeadsIncrease(Init(threads, readings, intervalNs), clock) && (clock != [] ==> clock[0] > 0)
    requires Kops(Run(Init(threads, readings, intervalNs), clock).log) < TWO_64
    ensures WellShaped(Reports(Run(Init(threads, readings, intervalNs), clock).log))
  {
    var s := Init(threads, readings, intervalNs);
    InitThreads(threads, readings, intervalNs);
    ReportTimesIncrease(s, clock);
    CountersClimb(s, clock);
    if clock != [] {
      QueueHoldsThreads(s, threads);
      ReportingGrid(s, clock);
    }
  }

  lemma BusyWorkerCounts(threads: seq<WorkDesc>, readings: seq<int>, intervalNs: int, clock: seq<int>)
    requires |threads| == |readings| && AllBusy(multiset(threads))
    requires Kops(Run(Init(threads, readings, intervalNs), clock).log) < TWO_64
    ensures KopsIncrease(Reports(Run(Init(threads, readings, intervalNs), clock).log))
  {
    InitThreads(threads, readings, intervalNs);
    CountersIncrease(Init(threads, readings, intervalNs), clock);
  }

  // ---------------------------------------------------------------- one run

  const THREAD: WorkDesc := WorkDesc(7, 20)

  /** One thread, added at 100 ns and reporting every 1000 ns, step by step. */
  lemma RunInput(s0: State, s1: State, s2: State, s3: State, s4: State, s5: State)
    requires s0 == Init([THREAD], [100], 1000)
    requires s1 == Step(s0, 100) && s2 == Step(s1, 105) && s3 == Step(s2, 110)
    requires s4 == Step(s3, 130) && s5 == Step(Step(s4, 131), 1200)
    ensures s0 == State([Elem(100, THREAD)], AtHead, 0, 0, 0, 1000, [])
    ensures s1 == State([], Requeue(THREAD), 7, 0, 1100, 1000, [Printed(100, 0, 0), Popped(Elem(100, THREAD), 100)])
    ensures s2 == s1.(queue := [Elem(125, THREAD)], phase := AtHead)
    ensures s3 == s2.(phase := Asleep)
    ensures s4 == State([], Requeue(THREAD), 14, 5, 1100, 1000, s1.log + [Popped(Elem(125, THREAD), 130)])
    ensures s5 == State([], Requeue(THREAD), 21, 1049, 2100, 1000,
                        s4.log + [Printed(1200, 14, 5)] + [Popped(Elem(151, THREAD), 1200)])
  {
    SeededOne(THREAD, 100);
    assert s1.log == [Printed(100, 0, 0)] + [Popped(Elem(100, THREAD), 100)];
    InsertOne(Elem(125, THREAD));
    InsertOne(Elem(151, THREAD));
  }

  lemma InsertOne(e: Elem)
    ensures Insert([], e) == [e] && [e][1..] == []
  {
  }

  lemma SeededOne(wd: WorkDesc, n: int)
    requires 0 <= n < TWO_63
    ensures Seeded([wd], [n]) == [Elem(n, wd)]
  {
    assert [wd][..0] == [] && [n][..0] == [];
    DueExact(n, 0);
    InsertOne(Elem(n, wd));
  }
}
