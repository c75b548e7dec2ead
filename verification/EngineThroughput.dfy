/** The ceiling on a worker's throughput set by its waits: each thread can run once at
    the start and then at most once per wait. */
module EngineThroughput {
  import opened Integers
  import opened Clock
  import opened EventEngine
  import opened EngineOrder

  function Weigh(q: seq<Elem>, f: Elem -> nat): nat {
    if q == [] then 0 else f(q[0]) + Weigh(q[1..], f)
  }

  lemma {:induction false} WeighConcat(a: seq<Elem>, b: seq<Elem>, f: Elem -> nat)
    ensures Weigh(a + b, f) == Weigh(a, f) + Weigh(b, f)
  {
    if a == [] {
      assert a + b == b;
    } else {
      assert (a + b)[1..] == a[1..] + b;
      WeighConcat(a[1..], b, f);
    }
  }

  lemma WeighInsert(q: seq<Elem>, e: Elem, f: Elem -> nat)
    ensures Weigh(Insert(q, e), f) == Weigh(q, f) + f(e)
  {
    var p := Slot(q, e.startNs);
    var a, b := q[..p], q[p..];
    assert q == a + b;
    WeighConcat(a, b, f);
    WeighConcat(a, [e], f);
    WeighConcat(a + [e], b, f);
    assert Weigh([e], f) == f(e) + Weigh([], f);
  }

  lemma {:induction false} WeighMono(q: seq<Elem>, f: Elem -> nat, g: Elem -> nat)
    requires forall e :: e in q ==> f(e) <= g(e)
    ensures Weigh(q, f) <= Weigh(q, g)
  {
    if q != [] {
      WeighMono(q[1..], f, g);
    }
  }

  /** Executions a thread with this wait can have begun by reading t, from reading n0 on. */
  function Rounds(waitNs: int, n0: int, t: int): nat {
    if waitNs <= 0 || t < n0 then 0 else 1 + (t - n0) / waitNs
  }

  /** Executions a queued element has behind it, judged by its due time alone. */
  function Behind(e: Elem, n0: int): nat {
    if e.wd.waitNs == 0 || e.startNs <= n0 then 0 else (e.startNs - n0) / e.wd.waitNs
  }

  function Work(kops: nat, rounds: nat): (k: nat) {
    MulMono(kops, 0, rounds);
    kops * rounds
  }

  function DoneOf(n0: int): Elem -> nat {
    (e: Elem) => Work(e.wd.kops, Behind(e, n0))
  }

  function CapOf(n0: int, t: int): Elem -> nat {
    (e: Elem) => Work(e.wd.kops, Rounds(e.wd.waitNs, n0, t))
  }

  function HeldCap(s: State, n0: int, t: int): nat {
    if s.phase.Requeue? then Work(s.phase.wd.kops, Rounds(s.phase.wd.waitNs, n0, t)) else 0
  }

  /** The ceiling for a list of threads: the sum of kops_i * (1 + (t - n0) / wait_i). */
  function Ceiling(threads: seq<WorkDesc>, n0: int, t: int): nat {
    if threads == [] then 0
    else
      var k := |threads| - 1;
      Ceiling(threads[..k], n0, t) + Work(threads[k].kops, Rounds(threads[k].waitNs, n0, t))
  }

  lemma RoundsMono(waitNs: int, n0: int, t: int, u: int)
    requires t <= u
    ensures Rounds(waitNs, n0, t) <= Rounds(waitNs, n0, u)
  {
    if waitNs > 0 && n0 <= t {
      DivMono(t - n0, u - n0, waitNs);
    } else if waitNs > 0 && n0 <= u {
      DivMono(0, u - n0, waitNs);
    }
  }

  /** An element that is due by n has one execution fewer behind it than its rounds at n. */
  lemma DueElementHasRoundLeft(e: Elem, n0: int, n: int)
    requires e.wd.waitNs > 0 && e.startNs <= n && n0 <= n
    ensures Behind(e, n0) + 1 <= Rounds(e.wd.waitNs, n0, n)
  {
    if e.startNs > n0 {
      DivMono(e.startNs - n0, n - n0, e.wd.waitNs);
    } else {
      DivMono(0, n - n0, e.wd.waitNs);
    }
  }

  /** Put back at reading n, it has exactly its rounds at n behind it. */
  lemma RequeuedElementUsedItsRounds(e: Elem, n0: int, n: int)
    requires e.wd.waitNs > 0 && e.startNs == n + e.wd.waitNs && n0 <= n
    ensures Behind(e, n0) == Rounds(e.wd.waitNs, n0, n)
  {
    DivPlusOne(n - n0, e.wd.waitNs);
  }

  lemma QueuedElementWithinRounds(e: Elem, n0: int, t: int)
    requires e.wd.waitNs > 0 && e.startNs <= t + e.wd.waitNs && n0 <= t
    ensures Behind(e, n0) <= Rounds(e.wd.waitNs, n0, t)
  {
    var w := e.wd.waitNs;
    DivPlusOne(t - n0, w);
    if e.startNs > n0 {
      DivMono(e.startNs - n0, t - n0 + w, w);
    } else {
      DivMono(0, t - n0, w);
    }
  }

  lemma WorkMono(kops: nat, x: nat, y: nat)
    requires x <= y
    ensures Work(kops, x) <= Work(kops, y)
    ensures Work(kops, x + 1) == Work(kops, x) + kops
  {
    MulMono(kops, x, y);
  }

  // --------------------------------------------------------------- invariant

  /** What has been done fits the executions behind the queue and the thread in hand. */
  ghost predicate Within(s: State, n0: int, t: int) {
    && n0 <= t
    && (forall e :: e in s.queue ==> e.wd.waitNs > 0 && e.startNs <= t + e.wd.waitNs)
    && (s.phase.Requeue? ==> s.phase.wd.waitNs > 0)
    && Kops(s.log) <= Weigh(s.queue, DoneOf(n0)) + HeldCap(s, n0, t)
  }

  lemma WithinLater(s: State, n0: int, t: int, n: int)
    requires Within(s, n0, t) && t <= n
    ensures Within(s, n0, n)
  {
    if s.phase.Requeue? {
      RoundsMono(s.phase.wd.waitNs, n0, t, n);
      WorkMono(s.phase.wd.kops, Rounds(s.phase.wd.waitNs, n0, t), Rounds(s.phase.wd.waitNs, n0, n));
    }
  }

  lemma AwaitKeepsWithin(s: State, n0: int, n: int)
    requires Within(s, n0, n) && s.queue != [] && !s.phase.Requeue?
    ensures Within(Await(s, n), n0, n)
  {
    var e := s.queue[0];
    if e.startNs - n <= 0 {
      LogSnoc(s.log, Popped(e, n));
      DueElementHasRoundLeft(e, n0, n);
      WorkMono(e.wd.kops, Behind(e, n0) + 1, Rounds(e.wd.waitNs, n0, n));
      WorkMono(e.wd.kops, Behind(e, n0), Behind(e, n0) + 1);
      assert Weigh(s.queue, DoneOf(n0)) == DoneOf(n0)(e) + Weigh(s.queue[1..], DoneOf(n0));
    }
  }

  lemma RequeueKeepsWithin(s: State, n0: int, n: int)
    requires Within(s, n0, n) && s.phase.Requeue? && FitsI64(n + s.phase.wd.waitNs)
    ensures Within(Step(s, n), n0, n)
  {
    var e := Elem(Due(n, s.phase.wd.waitNs), s.phase.wd);
    DueExact(n, s.phase.wd.waitNs);
    RequeuedElementUsedItsRounds(e, n0, n);
    WeighInsert(s.queue, e, DoneOf(n0));
    forall x | x in Insert(s.queue, e) ensures x.wd.waitNs > 0 && x.startNs <= n + x.wd.waitNs {
      assert x == e || x in s.queue;
    }
  }

  lemma StepKeepsWithin(s: State, n0: int, n: int)
    requires Within(s, n0, n)
    requires s.phase.Requeue? ==> FitsI64(n + s.phase.wd.waitNs)
    ensures Within(Step(s, n), n0, n)
  {
    if s.phase.Requeue? {
      RequeueKeepsWithin(s, n0, n);
    } else if s.queue != [] {
      if s.phase.AtHead? {
        LogSnoc(s.log, Printed(n, s.kopsDone, s.maxDelta));
        assert Within(Report(s, n), n0, n);
        AwaitKeepsWithin(Report(s, n), n0, n);
      } else {
        AwaitKeepsWithin(s, n0, n);
      }
    }
  }

  lemma {:induction false} RunKeepsWithin(s: State, n0: int, clock: seq<int>)
    requires Within(s, n0, n0)
    requires NonDecreasing([n0] + clock) && PutBacksFit(s, clock)
    ensures Within(Run(s, clock), n0, ([n0] + clock)[|clock|])
  {
    if clock != [] {
      var k := |clock| - 1;
      var before, n := clock[..k], clock[k];
      assert [n0] + before == ([n0] + clock)[..k + 1];
      RunKeepsWithin(s, n0, before);
      var p := Run(s, before);
      assert ([n0] + before)[k] == ([n0] + clock)[k] <= ([n0] + clock)[k + 1] == n;
      WithinLater(p, n0, ([n0] + before)[k], n);
      StepKeepsWithin(p, n0, n);
    }
  }

  // ----------------------------------------------------------------- ceiling

  function Cap(s: State, n0: int, t: int): nat {
    Weigh(s.queue, CapOf(n0, t)) + HeldCap(s, n0, t)
  }

  lemma WithinGivesCap(s: State, n0: int, t: int)
    requires Within(s, n0, t)
    ensures Kops(s.log) <= Cap(s, n0, t)
  {
    forall e | e in s.queue ensures DoneOf(n0)(e) <= CapOf(n0, t)(e) {
      QueuedElementWithinRounds(e, n0, t);
      WorkMono(e.wd.kops, Behind(e, n0), Rounds(e.wd.waitNs, n0, t));
    }
    WeighMono(s.queue, DoneOf(n0), CapOf(n0, t));
  }

  /** The ceiling depends on the threads only, not on where they are. */
  lemma {:induction false} RunKeepsCap(s: State, clock: seq<int>, n0: int, t: int)
    ensures Cap(Run(s, clock), n0, t) == Cap(s, n0, t)
  {
    if clock != [] {
      var p, n := Run(s, clock[..|clock| - 1]), clock[|clock| - 1];
      RunKeepsCap(s, clock[..|clock| - 1], n0, t);
      if p.phase.Requeue? {
        WeighInsert(p.queue, Elem(Due(n, p.phase.wd.waitNs), p.phase.wd), CapOf(n0, t));
      }
    }
  }

  lemma {:induction false} SeededCap(threads: seq<WorkDesc>, readings: seq<int>, n0: int, t: int)
    requires |threads| == |readings|
    ensures Weigh(Seeded(threads, readings), CapOf(n0, t)) == Ceiling(threads, n0, t)
  {
    if threads != [] {
      var k := |threads| - 1;
      SeededCap(threads[..k], readings[..k], n0, t);
      WeighInsert(Seeded(threads[..k], readings[..k]), Elem(Due(readings[k], 0), threads[k]), CapOf(n0, t));
    }
  }

  lemma {:induction false} SeededStarts(threads: seq<WorkDesc>, readings: seq<int>, n0: int)
    requires |threads| == |readings|
    requires forall n :: n in readings ==> FitsI64(n) && n <= n0
    requires forall wd :: wd in threads ==> wd.waitNs > 0
    ensures forall e :: e in Seeded(threads, readings) ==> e.startNs <= n0 && e.wd.waitNs > 0
  {
    if threads != [] {
      var k := |threads| - 1;
      SeededStarts(threads[..k], readings[..k], n0);
      DueExact(readings[k], 0);
      assert threads[k] in threads && readings[k] in readings;
      var e := Elem(Due(readings[k], 0), threads[k]);
      var before := Seeded(threads[..k], readings[..k]);
      forall x | x in Insert(before, e) ensures x.startNs <= n0 && x.wd.waitNs > 0 {
        assert x == e || x in before;
      }
    }
  }

  lemma CeilingFrom(s: State, n0: int, clock: seq<int>)
    requires Within(s, n0, n0) && clock != [] && clock[0] == n0
    requires NonDecreasing(clock) && PutBacksFit(s, clock)
    ensures Kops(Run(s, clock).log) <= Cap(s, n0, clock[|clock| - 1])
  {
    var t := clock[|clock| - 1];
    RunKeepsWithin(s, n0, clock);
    WithinGivesCap(Run(s, clock), n0, t);
    RunKeepsCap(s, clock, n0, t);
  }

  /** By the last reading t of any run in which no put-back overflows, the worker has done at most
      the sum over its threads of kops * (1 + (t - n0) / wait). */
  lemma ThroughputCeiling(threads: seq<WorkDesc>, readings: seq<int>, intervalNs: int, clock: seq<int>)
    requires |threads| == |readings| && clock != []
    requires NonDecreasing(clock) && PutBacksFit(Init(threads, readings, intervalNs), clock)
    requires forall n :: n in readings ==> FitsI64(n) && n <= clock[0]
    requires forall wd :: wd in threads ==> wd.waitNs > 0
    ensures var s := Run(Init(threads, readings, intervalNs), clock);
            var bound := Ceiling(threads, clock[0], clock[|clock| - 1]);
            Kops(s.log) <= bound && s.kopsDone <= bound
  {
    var s0, n0 := Init(threads, readings, intervalNs), clock[0];
    SeededStarts(threads, readings, n0);
    assert Within(s0, n0, n0);
    CeilingFrom(s0, n0, clock);
    SeededCap(threads, readings, n0, clock[|clock| - 1]);
    KopsAccounted(s0, clock);
    ToU64AtMost(Kops(Run(s0, clock).log));
  }
}
