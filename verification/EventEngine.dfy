/** The worker's event engine as a machine that consumes one clock reading per step.
    A run is any finite sequence of readings; nothing is assumed of them here.
    (worker/worker.c, eventqueue_insert, eventqueue_loop, report, process_worker) */
module EventEngine {
  import opened Clock

  /** One burnwait thread: how much work it does and how long it then waits. */
  datatype WorkDesc = WorkDesc(kops: U64, waitNs: U64)

  datatype Elem = Elem(startNs: int, wd: WorkDesc)

  /** A printed report, and an element taken off the queue at reading `at`. */
  datatype Event =
    | Printed(now: int, kops: U64, maxDelta: int)
    | Popped(elem: Elem, at: int)

  /** Where the program stands when it next reads the clock: at the head of the loop,
      in the inner loop after a sleep, or about to put a thread back. */
  datatype Phase = AtHead | Asleep | Requeue(wd: WorkDesc)

  datatype State = State(
    queue: seq<Elem>,
    phase: Phase,
    kopsDone: U64,
    maxDelta: int,
    nextReport: int,
    intervalNs: int,
    log: seq<Event>)

  /** Index of the first element whose start is not before `startNs`. */
  function Slot(q: seq<Elem>, startNs: int): (p: nat)
    ensures p <= |q|
    ensures forall i :: 0 <= i < p ==> q[i].startNs < startNs
    ensures p < |q| ==> startNs <= q[p].startNs
  {
    if q == [] || startNs <= q[0].startNs then 0 else 1 + Slot(q[1..], startNs)
  }

  function InsertAt<T>(q: seq<T>, p: nat, e: T): seq<T>
    requires p <= |q|
  {
    q[..p] + [e] + q[p..]
  }

  function Insert(q: seq<Elem>, e: Elem): seq<Elem> {
    InsertAt(q, Slot(q, e.startNs), e)
  }

  function Report(s: State, n: int): State {
    if s.nextReport == 0 || n > s.nextReport then
      s.(log := s.log + [Printed(n, s.kopsDone, s.maxDelta)],
         maxDelta := 0,
         nextReport := (if s.nextReport == 0 then n else s.nextReport) + s.intervalNs)
    else s
  }

  function Pop(s: State, n: int): State
    requires s.queue != []
  {
    var e := s.queue[0];
    s.(queue := s.queue[1..],
       phase := Requeue(e.wd),
       maxDelta := if n - e.startNs > s.maxDelta then n - e.startNs else s.maxDelta,
       kopsDone := ToU64(s.kopsDone + e.wd.kops),
       log := s.log + [Popped(e, n)])
  }

  /** Sleep while the first element is not yet due, else run it. */
  function Await(s: State, n: int): State
    requires s.queue != []
  {
    if s.queue[0].startNs - n > 0 then s.(phase := Asleep) else Pop(s, n)
  }

  function Step(s: State, n: int): State {
    match s.phase
    case AtHead => if s.queue == [] then s else Await(Report(s, n), n)
    case Asleep => if s.queue == [] then s else Await(s, n)
    case Requeue(wd) => s.(queue := Insert(s.queue, Elem(Due(n, wd.waitNs), wd)), phase := AtHead)
  }

  function Run(s: State, clock: seq<int>): State {
    if clock == [] then s
    else Step(Run(s, clock[..|clock| - 1]), clock[|clock| - 1])
  }

  /** main(): the burnwait arguments are queued in turn, each due at its own clock reading. */
  function Seeded(threads: seq<WorkDesc>, readings: seq<int>): seq<Elem>
    requires |threads| == |readings|
  {
    if threads == [] then []
    else
      var k := |threads| - 1;
      Insert(Seeded(threads[..k], readings[..k]), Elem(Due(readings[k], 0), threads[k]))
  }

  function Init(threads: seq<WorkDesc>, readings: seq<int>, intervalNs: int): State
    requires |threads| == |readings|
  {
    State(Seeded(threads, readings), AtHead, 0, 0, 0, intervalNs, [])
  }

  lemma RunSnoc(s: State, clock: seq<int>, n: int)
    ensures Run(s, clock + [n]) == Step(Run(s, clock), n)
  {
    assert (clock + [n])[..|clock|] == clock;
  }

  lemma {:induction false} RunAppend(s: State, a: seq<int>, b: seq<int>)
    ensures Run(s, a + b) == Run(Run(s, a), b)
  {
    if b == [] {
      assert a + b == a;
    } else {
      var k := |b| - 1;
      assert (a + b)[..|a + b| - 1] == a + b[..k];
      RunAppend(s, a, b[..k]);
    }
  }

  // ---------------------------------------------------------------- histories

  /** The thousands of operations of every execution so far, without wrap-around. */
  function Kops(log: seq<Event>): nat {
    if log == [] then 0
    else
      var e := log[|log| - 1];
      Kops(log[..|log| - 1]) + (if e.Popped? then e.elem.wd.kops else 0)
  }

  function Pops(log: seq<Event>): seq<Event>
    ensures forall e :: e in Pops(log) ==> e.Popped?
  {
    if log == [] then []
    else
      var e := log[|log| - 1];
      Pops(log[..|log| - 1]) + (if e.Popped? then [e] else [])
  }

  function Reports(log: seq<Event>): seq<Event>
    ensures forall e :: e in Reports(log) ==> e.Printed?
  {
    if log == [] then []
    else
      var e := log[|log| - 1];
      Reports(log[..|log| - 1]) + (if e.Printed? then [e] else [])
  }

  lemma LogSnoc(log: seq<Event>, e: Event)
    ensures Kops(log + [e]) == Kops(log) + (if e.Popped? then e.elem.wd.kops else 0)
    ensures Pops(log + [e]) == Pops(log) + (if e.Popped? then [e] else [])
    ensures Reports(log + [e]) == Reports(log) + (if e.Printed? then [e] else [])
  {
    assert (log + [e])[..|log|] == log;
  }

  // ------------------------------------------------------------- conservation

  function Descs(q: seq<Elem>): multiset<WorkDesc> {
    if q == [] then multiset{} else multiset{q[0].wd} + Descs(q[1..])
  }

  function Held(s: State): multiset<WorkDesc> {
    if s.phase.Requeue? then multiset{s.phase.wd} else multiset{}
  }

  function Threads(s: State): multiset<WorkDesc> {
    Descs(s.queue) + Held(s)
  }

  lemma {:induction false} DescsConcat(a: seq<Elem>, b: seq<Elem>)
    ensures Descs(a + b) == Descs(a) + Descs(b)
  {
    if a == [] {
      assert a + b == b;
    } else {
      assert (a + b)[1..] == a[1..] + b;
      DescsConcat(a[1..], b);
    }
  }

  lemma DescsInsert(q: seq<Elem>, e: Elem)
    ensures Descs(Insert(q, e)) == Descs(q) + multiset{e.wd}
  {
    var p := Slot(q, e.startNs);
    var a, b := q[..p], q[p..];
    assert q == a + b;
    DescsConcat(a, b);
    DescsConcat(a, [e]);
    DescsConcat(a + [e], b);
    assert Descs([e]) == multiset{e.wd} by {
      assert Descs([e]) == multiset{e.wd} + Descs([]);
    }
  }

  lemma {:induction false} DescsSize(q: seq<Elem>)
    ensures |Descs(q)| == |q|
  {
    if q != [] {
      DescsSize(q[1..]);
    }
  }

  lemma AwaitConserves(s: State, n: int)
    requires s.queue != [] && !s.phase.Requeue?
    ensures Threads(Await(s, n)) == Threads(s)
  {
    var wd, rest := s.queue[0].wd, Descs(s.queue[1..]);
    assert Descs(s.queue) == multiset{wd} + rest;
    assert Held(s) == multiset{};
  }

  lemma StepConserves(s: State, n: int)
    ensures Threads(Step(s, n)) == Threads(s)
  {
    match s.phase
    case Requeue(wd) =>
      DescsInsert(s.queue, Elem(Due(n, wd.waitNs), wd));
    case AtHead =>
      if s.queue != [] {
        assert Threads(Report(s, n)) == Threads(s);
        AwaitConserves(Report(s, n), n);
      }
    case Asleep =>
      if s.queue != [] {
        AwaitConserves(s, n);
      }
  }

  /** No thread is ever lost, duplicated or changed. */
  lemma {:induction false} RunConserves(s: State, clock: seq<int>)
    ensures Threads(Run(s, clock)) == Threads(s)
  {
    if clock != [] {
      RunConserves(s, clock[..|clock| - 1]);
      StepConserves(Run(s, clock[..|clock| - 1]), clock[|clock| - 1]);
    }
  }

  lemma {:induction false} SeededDescs(threads: seq<WorkDesc>, readings: seq<int>)
    requires |threads| == |readings|
    ensures Descs(Seeded(threads, readings)) == multiset(threads)
  {
    if threads != [] {
      var k := |threads| - 1;
      SeededDescs(threads[..k], readings[..k]);
      DescsInsert(Seeded(threads[..k], readings[..k]), Elem(Due(readings[k], 0), threads[k]));
      assert threads == threads[..k] + [threads[k]];
    }
  }

  lemma InitThreads(threads: seq<WorkDesc>, readings: seq<int>, intervalNs: int)
    requires |threads| == |readings|
    ensures Threads(Init(threads, readings, intervalNs)) == multiset(threads)
  {
    SeededDescs(threads, readings);
  }

  lemma QueueHoldsThreads(s: State, threads: seq<WorkDesc>)
    requires Threads(s) == multiset(threads) && !s.phase.Requeue?
    ensures Descs(s.queue) == multiset(threads) && |s.queue| == |threads|
  {
    assert Threads(s) == Descs(s.queue);
    DescsSize(s.queue);
  }

  /** Whenever the loop tests its queue it holds exactly the threads given on the
      command line; so once seeded the worker never stops. */
  lemma LoopHeadHoldsAllThreads(threads: seq<WorkDesc>, readings: seq<int>, intervalNs: int, clock: seq<int>)
    requires |threads| == |readings|
    ensures var s := Run(Init(threads, readings, intervalNs), clock);
            !s.phase.Requeue? ==> Descs(s.queue) == multiset(threads) && |s.queue| == |threads|
  {
    var s := Run(Init(threads, readings, intervalNs), clock);
    RunConserves(Init(threads, readings, intervalNs), clock);
    InitThreads(threads, readings, intervalNs);
    if !s.phase.Requeue? {
      QueueHoldsThreads(s, threads);
    }
  }

  /** kops_done is the work of all executions so far, reduced to 64 bits. */
  ghost predicate KopsTallied(s: State) {
    s.kopsDone == ToU64(Kops(s.log))
  }

  lemma ReportTallies(s: State, n: int)
    requires KopsTallied(s)
    ensures KopsTallied(Report(s, n))
  {
    LogSnoc(s.log, Printed(n, s.kopsDone, s.maxDelta));
  }

  lemma AwaitTallies(s: State, n: int)
    requires KopsTallied(s) && s.queue != []
    ensures KopsTallied(Await(s, n))
  {
    var e := s.queue[0];
    if e.startNs <= n {
      var r := Pop(s, n);
      LogSnoc(s.log, Popped(e, n));
      assert Kops(r.log) == Kops(s.log) + e.wd.kops;
      WrapAdd(Kops(s.log), e.wd.kops);
    }
  }

  lemma {:induction false} KopsAccounted(s: State, clock: seq<int>)
    requires KopsTallied(s)
    ensures KopsTallied(Run(s, clock))
  {
    if clock != [] {
      var p, n := Run(s, clock[..|clock| - 1]), clock[|clock| - 1];
      KopsAccounted(s, clock[..|clock| - 1]);
      if p.queue != [] && p.phase.AtHead? {
        ReportTallies(p, n);
        AwaitTallies(Report(p, n), n);
      } else if p.queue != [] && p.phase.Asleep? {
        AwaitTallies(p, n);
      }
    }
  }

  ghost predicate Runs(s: State, n: int) {
    !s.phase.Requeue? && s.queue != [] && s.queue[0].startNs <= n
  }

  lemma AwaitWork(s: State, n: int)
    requires s.queue != []
    ensures var t, due := Await(s, n), s.queue[0].startNs <= n;
            && t.kopsDone == (if due then (s.kopsDone + s.queue[0].wd.kops) % 18446744073709551616 else s.kopsDone)
            && Kops(t.log) == Kops(s.log) + if due then s.queue[0].wd.kops else 0
  {
    LogSnoc(s.log, Popped(s.queue[0], n));
  }

  lemma ReportWork(s: State, n: int)
    ensures var t := Report(s, n); t.kopsDone == s.kopsDone && Kops(t.log) == Kops(s.log) && t.queue == s.queue
  {
    LogSnoc(s.log, Printed(n, s.kopsDone, s.maxDelta));
  }

  /** One step does the work of the thread that it takes off the queue, if it takes one. */
  lemma StepWork(s: State, n: int)
    ensures var t := Step(s, n);
            && t.kopsDone == (if Runs(s, n) then (s.kopsDone + s.queue[0].wd.kops) % 18446744073709551616
                              else s.kopsDone)
            && Kops(t.log) == Kops(s.log) + if Runs(s, n) then s.queue[0].wd.kops else 0
  {
    if s.phase.AtHead? && s.queue != [] {
      ReportWork(s, n);
      AwaitWork(Report(s, n), n);
    } else if s.phase.Asleep? && s.queue != [] {
      AwaitWork(s, n);
    }
  }

  lemma WrapAdd(x: nat, y: nat)
    ensures ToU64(ToU64(x) + y) == ToU64(x + y)
  {
  }
}
