/** The order in which the event engine executes: sorted queue, never early, and in
    order of due time whenever the clock does not run backwards and waits fit. */
module EngineOrder {
  import opened Clock
  import opened EventEngine

  ghost predicate Sorted(q: seq<Elem>) {
    forall i, j :: 0 <= i < j < |q| ==> q[i].startNs <= q[j].startNs
  }

  ghost predicate NonDecreasing(clock: seq<int>) {
    forall i, j :: 0 <= i < j < |clock| ==> clock[i] <= clock[j]
  }

  /** No due time computed from these readings overflows int64_t. */
  ghost predicate WaitsFit(threads: multiset<WorkDesc>, clock: seq<int>) {
    forall wd, n :: wd in threads && n in clock ==> FitsI64(n + wd.waitNs)
  }

  lemma InsertKeepsSorted(q: seq<Elem>, e: Elem)
    requires Sorted(q)
    ensures Sorted(Insert(q, e))
  {
    var p := Slot(q, e.startNs);
    var r := Insert(q, e);
    forall i, j | 0 <= i < j < |r| ensures r[i].startNs <= r[j].startNs {
      assert r[i] == if i < p then q[i] else if i == p then e else q[i - 1];
      assert r[j] == if j < p then q[j] else if j == p then e else q[j - 1];
      if i == p {
        assert q[p].startNs <= q[j - 1].startNs;
      }
    }
  }

  lemma {:induction false} SeededSorted(threads: seq<WorkDesc>, readings: seq<int>)
    requires |threads| == |readings|
    ensures Sorted(Seeded(threads, readings))
  {
    if threads != [] {
      var k := |threads| - 1;
      SeededSorted(threads[..k], readings[..k]);
      InsertKeepsSorted(Seeded(threads[..k], readings[..k]), Elem(Due(readings[k], 0), threads[k]));
    }
  }

  /** The queue is sorted at every point of every run, whatever the clock does. */
  lemma {:induction false} RunKeepsSorted(s: State, clock: seq<int>)
    requires Sorted(s.queue)
    ensures Sorted(Run(s, clock).queue)
  {
    if clock != [] {
      var p, n := Run(s, clock[..|clock| - 1]), clock[|clock| - 1];
      RunKeepsSorted(s, clock[..|clock| - 1]);
      if p.phase.Requeue? {
        InsertKeepsSorted(p.queue, Elem(Due(n, p.phase.wd.waitNs), p.phase.wd));
      }
    }
  }

  /** No execution begins before it is due, under any clock. */
  ghost predicate NeverEarly(log: seq<Event>) {
    forall e :: e in log && e.Popped? ==> e.elem.startNs <= e.at
  }

  lemma {:induction false} RunNeverEarly(s: State, clock: seq<int>)
    requires NeverEarly(s.log)
    ensures NeverEarly(Run(s, clock).log)
  {
    if clock != [] {
      RunNeverEarly(s, clock[..|clock| - 1]);
    }
  }

  // ---------------------------------------------------------------- due order

  ghost predicate PopsAtMost(pops: seq<Event>, x: int)
    requires forall e :: e in pops ==> e.Popped?
  {
    forall i :: 0 <= i < |pops| ==> pops[i].elem.startNs <= x
  }

  ghost predicate PopsInOrder(pops: seq<Event>)
    requires forall e :: e in pops ==> e.Popped?
  {
    forall i, j :: 0 <= i < j < |pops| ==> pops[i].elem.startNs <= pops[j].elem.startNs
  }

  ghost predicate QueueAfter(q: seq<Elem>, pops: seq<Event>)
    requires forall e :: e in pops ==> e.Popped?
  {
    forall k :: 0 <= k < |q| ==> PopsAtMost(pops, q[k].startNs)
  }

  /** All that has run was due no later than all that is queued, and by reading t. */
  ghost predicate InOrder(q: seq<Elem>, pops: seq<Event>, t: int)
    requires forall e :: e in pops ==> e.Popped?
  {
    Sorted(q) && PopsInOrder(pops) && PopsAtMost(pops, t) && QueueAfter(q, pops)
  }

  ghost predicate Ordered(s: State, t: int) {
    InOrder(s.queue, Pops(s.log), t)
  }

  lemma OrderedLater(s: State, t: int, n: int)
    requires Ordered(s, t) && t <= n
    ensures Ordered(s, n)
  {
  }

  lemma PopKeepsOrder(q: seq<Elem>, pops: seq<Event>, n: int)
    requires forall e :: e in pops ==> e.Popped?
    requires InOrder(q, pops, n) && q != [] && q[0].startNs <= n
    ensures InOrder(q[1..], pops + [Popped(q[0], n)], n)
  {
    assert PopsAtMost(pops, q[0].startNs);
    forall k | 0 <= k < |q[1..]| ensures PopsAtMost(pops + [Popped(q[0], n)], q[1..][k].startNs) {
      assert PopsAtMost(pops, q[k + 1].startNs) && q[0].startNs <= q[k + 1].startNs;
    }
  }

  lemma PopAppends(s: State, n: int)
    requires s.queue != []
    ensures Pops(Pop(s, n).log) == Pops(s.log) + [Popped(s.queue[0], n)]
  {
    LogSnoc(s.log, Popped(s.queue[0], n));
  }

  lemma AwaitKeepsOrdered(s: State, n: int)
    requires Ordered(s, n) && s.queue != []
    ensures Ordered(Await(s, n), n)
  {
    if s.queue[0].startNs <= n {
      PopAppends(s, n);
      PopKeepsOrder(s.queue, Pops(s.log), n);
    }
  }

  lemma InsertKeepsOrder(q: seq<Elem>, pops: seq<Event>, e: Elem, n: int)
    requires forall e :: e in pops ==> e.Popped?
    requires InOrder(q, pops, n) && PopsAtMost(pops, e.startNs)
    ensures InOrder(Insert(q, e), pops, n)
  {
    InsertKeepsSorted(q, e);
    var r, p := Insert(q, e), Slot(q, e.startNs);
    forall k | 0 <= k < |r| ensures PopsAtMost(pops, r[k].startNs) {
      assert r[k] == if k < p then q[k] else if k == p then e else q[k - 1];
    }
  }

  /** A thread about to be put back at reading n is not due before the start it just ran. */
  ghost predicate PutBackInOrder(s: State, n: int) {
    var pops := Pops(s.log);
    s.phase.Requeue? && pops != [] ==> pops[|pops| - 1].elem.startNs <= Due(n, s.phase.wd.waitNs)
  }

  /** So it is at every put-back of the run. */
  ghost predicate PutBacksInOrder(s: State, clock: seq<int>) {
    clock == [] ||
    var k := |clock| - 1;
    PutBacksInOrder(s, clock[..k]) && PutBackInOrder(Run(s, clock[..k]), clock[k])
  }

  lemma RequeueKeepsOrdered(s: State, n: int)
    requires Ordered(s, n) && s.phase.Requeue? && PutBackInOrder(s, n)
    ensures Ordered(Step(s, n), n)
  {
    InsertKeepsOrder(s.queue, Pops(s.log), Elem(Due(n, s.phase.wd.waitNs), s.phase.wd), n);
  }

  lemma StepKeepsOrdered(s: State, n: int)
    requires Ordered(s, n) && PutBackInOrder(s, n)
    ensures Ordered(Step(s, n), n)
  {
    if s.phase.Requeue? {
      RequeueKeepsOrdered(s, n);
    } else if s.queue != [] {
      if s.phase.AtHead? {
        LogSnoc(s.log, Printed(n, s.kopsDone, s.maxDelta));
        assert Ordered(Report(s, n), n);
        AwaitKeepsOrdered(Report(s, n), n);
      } else {
        AwaitKeepsOrdered(s, n);
      }
    }
  }

  /** One step executes the head of the queue if that is due, and nothing else. */
  lemma AwaitPops(s: State, n: int)
    requires s.queue != []
    ensures Pops(Await(s, n).log) ==
            if s.queue[0].startNs <= n then Pops(s.log) + [Popped(s.queue[0], n)] else Pops(s.log)
  {
    PopAppends(s, n);
  }

  lemma ReportAddsNoPop(s: State, n: int)
    ensures Pops(Report(s, n).log) == Pops(s.log) && Report(s, n).queue == s.queue
  {
    LogSnoc(s.log, Printed(n, s.kopsDone, s.maxDelta));
  }

  lemma StepPops(s: State, n: int)
    ensures Pops(Step(s, n).log) ==
            if !s.phase.Requeue? && s.queue != [] && s.queue[0].startNs <= n
            then Pops(s.log) + [Popped(s.queue[0], n)] else Pops(s.log)
  {
    if s.phase.AtHead? && s.queue != [] {
      ReportAddsNoPop(s, n);
      AwaitPops(Report(s, n), n);
    } else if s.phase.Asleep? && s.queue != [] {
      AwaitPops(s, n);
    }
  }

  lemma InsertFirst(q: seq<Elem>, e: Elem)
    requires q != [] ==> e.startNs <= q[0].startNs
    ensures Insert(q, e) == [e] + q
  {
  }

  lemma LaterOutOfOrder(pops: seq<Event>, e: Event)
    requires (forall x :: x in pops ==> x.Popped?) && e.Popped?
    requires pops != [] && e.elem.startNs < pops[|pops| - 1].elem.startNs
    ensures !PopsInOrder(pops + [e])
  {
    var after := pops + [e];
    assert after[|pops| - 1] == pops[|pops| - 1] && after[|pops|] == e;
  }

  /** A thread put back out of order is the first of the queue, and runs at the next reading. */
  lemma PutBackBreaksOrder(s: State, n: int, m: int)
    requires Ordered(s, n) && !PutBackInOrder(s, n) && n <= m
    ensures !PopsInOrder(Pops(Step(Step(s, n), m).log))
  {
    var pops, e := Pops(s.log), Elem(Due(n, s.phase.wd.waitNs), s.phase.wd);
    if s.queue != [] {
      assert PopsAtMost(pops, s.queue[0].startNs);
    }
    InsertFirst(s.queue, e);
    StepPops(s, n);
    StepPops(Step(s, n), m);
    LaterOutOfOrder(pops, Popped(e, m));
  }

  function Latest(t: int, clock: seq<int>): int {
    if clock == [] then t else clock[|clock| - 1]
  }

  lemma PrefixOutOfOrder(a: seq<Event>, b: seq<Event>)
    requires (forall e :: e in a ==> e.Popped?) && forall e :: e in b ==> e.Popped?
    requires a <= b && !PopsInOrder(a)
    ensures !PopsInOrder(b)
  {
    var i, j :| 0 <= i < j < |a| && a[i].elem.startNs > a[j].elem.startNs;
    assert b[i] == a[i] && b[j] == a[j];
  }

  lemma DisorderStays(s: State, n: int)
    requires !PopsInOrder(Pops(s.log))
    ensures !PopsInOrder(Pops(Step(s, n).log))
  {
    StepPops(s, n);
    PrefixOutOfOrder(Pops(s.log), Pops(Step(s, n).log));
  }

  /** The next step adds at most the head of the queue; no put-back matters to it. */
  lemma NextStepInOrder(s: State, m: int)
    requires Ordered(s, m)
    ensures PopsInOrder(Pops(Step(s, m).log))
  {
    StepPops(s, m);
    if !s.phase.Requeue? {
      StepKeepsOrdered(s, m);
    }
  }

  lemma TwoStepsExact(s: State, n: int, m: int)
    requires Ordered(s, n) && n <= m
    ensures PutBackInOrder(s, n) ==> Ordered(Step(s, n), n)
    ensures PopsInOrder(Pops(Step(Step(s, n), m).log)) <==> PutBackInOrder(s, n)
  {
    if PutBackInOrder(s, n) {
      StepKeepsOrdered(s, n);
      OrderedLater(Step(s, n), n, m);
      NextStepInOrder(Step(s, n), m);
    } else {
      PutBackBreaksOrder(s, n, m);
    }
  }

  /** Order is kept through the next reading exactly if every put-back so far was in order;
      this covers waits of any size. */
  lemma {:induction false} OrderExact(s: State, t: int, clock: seq<int>, m: int)
    requires Ordered(s, t)
    requires NonDecreasing(clock) && (clock != [] ==> t <= clock[0]) && Latest(t, clock) <= m
    ensures PutBacksInOrder(s, clock) ==> Ordered(Run(s, clock), Latest(t, clock))
    ensures PopsInOrder(Pops(Step(Run(s, clock), m).log)) <==> PutBacksInOrder(s, clock)
  {
    if clock == [] {
      OrderedLater(s, t, m);
      NextStepInOrder(s, m);
    } else {
      var k := |clock| - 1;
      var before, n := clock[..k], clock[k];
      OrderExact(s, t, before, n);
      if PutBacksInOrder(s, before) {
        OrderedLater(Run(s, before), Latest(t, before), n);
        TwoStepsExact(Run(s, before), n, m);
      } else {
        DisorderStays(Run(s, clock), m);
      }
    }
  }

  /** From the start of the worker: its threads run in order of their due times through the
      next reading exactly if no put-back so far was due before the start it followed. */
  lemma DueOrderExact(threads: seq<WorkDesc>, readings: seq<int>, intervalNs: int, clock: seq<int>, m: int)
    requires |threads| == |readings| && NonDecreasing(clock + [m])
    ensures var s := Init(threads, readings, intervalNs);
            PopsInOrder(Pops(Run(s, clock + [m]).log)) <==> PutBacksInOrder(s, clock)
  {
    SeededSorted(threads, readings);
    var s, c := Init(threads, readings, intervalNs), clock + [m];
    assert Ordered(s, c[0]);
    assert forall i :: 0 <= i < |clock| ==> c[i] == clock[i];
    RunSnoc(s, clock, m);
    OrderExact(s, c[0], clock, m);
  }

  // --------------------------------------------------- order and overflow

  /** A thread about to be put back at reading n gets a due time that fits. */
  ghost predicate PutBackFits(s: State, n: int) {
    s.phase.Requeue? ==> FitsI64(n + s.phase.wd.waitNs)
  }

  ghost predicate PutBacksFit(s: State, clock: seq<int>) {
    clock == [] ||
    var k := |clock| - 1;
    PutBacksFit(s, clock[..k]) && PutBackFits(Run(s, clock[..k]), clock[k])
  }

  /** Times a clock of 2^63 nanoseconds can show. */
  ghost predicate InClockRange(clock: seq<int>) {
    forall i :: 0 <= i < |clock| ==> 0 <= clock[i] < TWO_63
  }

  ghost predicate WaitsBelow(threads: multiset<WorkDesc>, bound: int) {
    forall wd :: wd in threads ==> wd.waitNs < bound
  }

  ghost predicate QueueNonNegative(q: seq<Elem>) {
    forall k :: 0 <= k < |q| ==> q[k].startNs >= 0
  }

  ghost predicate PopsNonNegative(pops: seq<Event>)
    requires forall e :: e in pops ==> e.Popped?
  {
    forall k :: 0 <= k < |pops| ==> pops[k].elem.startNs >= 0
  }

  /** Nothing was or is due before time 0, and a thread in hand has just run. */
  ghost predicate NonNegative(s: State) {
    && QueueNonNegative(s.queue)
    && PopsNonNegative(Pops(s.log))
    && (s.phase.Requeue? ==> Pops(s.log) != [])
  }

  lemma InsertKeepsNonNegative(q: seq<Elem>, e: Elem)
    requires QueueNonNegative(q) && e.startNs >= 0
    ensures QueueNonNegative(Insert(q, e))
  {
    var p, r := Slot(q, e.startNs), Insert(q, e);
    assert forall k :: 0 <= k < |r| ==> r[k] == if k < p then q[k] else if k == p then e else q[k - 1];
  }

  /** With waits below 2^63 a due time either fits or is negative. */
  lemma FitsOrNegative(n: int, waitNs: U64)
    requires 0 <= n < TWO_63 && waitNs < TWO_63
    ensures if FitsI64(n + waitNs) then Due(n, waitNs) == n + waitNs else Due(n, waitNs) < 0
  {
    DueExact(n, waitNs);
    if !FitsI64(n + waitNs) {
      assert (n + waitNs) % TWO_64 == n + waitNs;
    }
  }

  lemma InOrderIffFits(s: State, n: int)
    requires Ordered(s, n) && NonNegative(s) && 0 <= n < TWO_63
    requires s.phase.Requeue? ==> s.phase.wd.waitNs < TWO_63
    ensures PutBackInOrder(s, n) <==> PutBackFits(s, n)
  {
    if s.phase.Requeue? {
      FitsOrNegative(n, s.phase.wd.waitNs);
    }
  }

  lemma StepKeepsQueueNonNegative(s: State, n: int)
    requires QueueNonNegative(s.queue) && n >= 0 && PutBackFits(s, n)
    ensures QueueNonNegative(Step(s, n).queue)
  {
    if s.phase.Requeue? {
      DueExact(n, s.phase.wd.waitNs);
      InsertKeepsNonNegative(s.queue, Elem(Due(n, s.phase.wd.waitNs), s.phase.wd));
    }
  }

  lemma PopsNonNegativeSnoc(pops: seq<Event>, e: Event)
    requires (forall x :: x in pops ==> x.Popped?) && e.Popped?
    requires PopsNonNegative(pops) && e.elem.startNs >= 0
    ensures PopsNonNegative(pops + [e]) && pops + [e] != []
  {
  }

  /** A thread is in hand only after an execution. */
  lemma StepTakesInHand(s: State, n: int)
    ensures Step(s, n).phase.Requeue? ==> !s.phase.Requeue? && s.queue != [] && s.queue[0].startNs <= n
  {
  }

  lemma StepKeepsPopsNonNegative(s: State, n: int)
    requires NonNegative(s)
    ensures PopsNonNegative(Pops(Step(s, n).log)) && (Step(s, n).phase.Requeue? ==> Pops(Step(s, n).log) != [])
  {
    StepPops(s, n);
    StepTakesInHand(s, n);
    if !s.phase.Requeue? && s.queue != [] && s.queue[0].startNs <= n {
      PopsNonNegativeSnoc(Pops(s.log), Popped(s.queue[0], n));
    }
  }

  lemma StepKeepsNonNegative(s: State, n: int)
    requires NonNegative(s) && n >= 0 && PutBackFits(s, n)
    ensures NonNegative(Step(s, n))
  {
    StepKeepsQueueNonNegative(s, n);
    StepKeepsPopsNonNegative(s, n);
  }

  lemma HeldWaitBelow(s: State, bound: int)
    requires WaitsBelow(Threads(s), bound) && s.phase.Requeue?
    ensures s.phase.wd.waitNs < bound
  {
    assert s.phase.wd in Held(s);
    assert s.phase.wd in Threads(s);
  }

  /** Everything has been in order so far, from time 0 up to t. */
  ghost predicate Tidy(s: State, t: int) {
    Ordered(s, t) && NonNegative(s) && WaitsBelow(Threads(s), TWO_63)
  }

  lemma TidyStep(s: State, t: int, n: int)
    requires Tidy(s, t) && t <= n && 0 <= n < TWO_63
    ensures PutBackInOrder(s, n) <==> PutBackFits(s, n)
    ensures PutBackFits(s, n) ==> Tidy(Step(s, n), n)
  {
    OrderedLater(s, t, n);
    if s.phase.Requeue? {
      HeldWaitBelow(s, TWO_63);
    }
    InOrderIffFits(s, n);
    if PutBackFits(s, n) {
      StepKeepsOrdered(s, n);
      StepKeepsNonNegative(s, n);
      StepConserves(s, n);
    }
  }

  lemma {:induction false} PutBacksInOrderIffFit(s: State, t: int, clock: seq<int>)
    requires Tidy(s, t)
    requires NonDecreasing(clock) && InClockRange(clock) && (clock != [] ==> t <= clock[0])
    ensures PutBacksInOrder(s, clock) <==> PutBacksFit(s, clock)
    ensures PutBacksFit(s, clock) ==> Tidy(Run(s, clock), Latest(t, clock))
  {
    if clock != [] {
      var k := |clock| - 1;
      PutBacksInOrderIffFit(s, t, clock[..k]);
      if PutBacksFit(s, clock[..k]) {
        TidyStep(Run(s, clock[..k]), Latest(t, clock[..k]), clock[k]);
      }
    }
  }

  lemma {:induction false} SeededNonNegative(threads: seq<WorkDesc>, readings: seq<int>)
    requires |threads| == |readings| && InClockRange(readings)
    ensures QueueNonNegative(Seeded(threads, readings))
  {
    if threads != [] {
      var k := |threads| - 1;
      SeededNonNegative(threads[..k], readings[..k]);
      DueExact(readings[k], 0);
      InsertKeepsNonNegative(Seeded(threads[..k], readings[..k]), Elem(Due(readings[k], 0), threads[k]));
    }
  }

  /** For waits below 2^63: threads run in order of their due times through the next reading
      exactly if the due time of every put-back so far fitted int64_t. */
  lemma DueOrderIffPutBacksFit(
      threads: seq<WorkDesc>, readings: seq<int>, intervalNs: int, clock: seq<int>, m: int)
    requires |threads| == |readings| && InClockRange(readings)
    requires WaitsBelow(multiset(threads), TWO_63)
    requires NonDecreasing(clock + [m]) && InClockRange(clock)
    ensures var s := Init(threads, readings, intervalNs);
            PopsInOrder(Pops(Run(s, clock + [m]).log)) <==> PutBacksFit(s, clock)
  {
    DueOrderExact(threads, readings, intervalNs, clock, m);
    SeededSorted(threads, readings);
    SeededNonNegative(threads, readings);
    InitThreads(threads, readings, intervalNs);
    var s, t := Init(threads, readings, intervalNs), (clock + [m])[0];
    assert forall i :: 0 <= i < |clock| ==> clock[i] == (clock + [m])[i];
    assert Tidy(s, t);
    PutBacksInOrderIffFit(s, t, clock);
  }

  lemma RequeuedFits(s: State, clock: seq<int>, n: int)
    requires WaitsFit(Threads(s), clock) && n in clock
    ensures PutBackFits(s, n)
  {
    if s.phase.Requeue? {
      assert s.phase.wd in Held(s);
      assert s.phase.wd in Threads(s);
    }
  }

  lemma {:induction false} WaitsFitOrdered(s: State, t: int, clock: seq<int>)
    requires Ordered(s, t)
    requires NonDecreasing(clock) && (clock != [] ==> t <= clock[0])
    requires WaitsFit(Threads(s), clock)
    ensures Ordered(Run(s, clock), Latest(t, clock))
  {
    if clock != [] {
      var k := |clock| - 1;
      var p := Run(s, clock[..k]);
      assert forall x :: x in clock[..k] ==> x in clock;
      WaitsFitOrdered(s, t, clock[..k]);
      OrderedLater(p, Latest(t, clock[..k]), clock[k]);
      RunConserves(s, clock[..k]);
      RequeuedFits(p, clock, clock[k]);
      if p.phase.Requeue? {
        DueExact(clock[k], p.phase.wd.waitNs);
      }
      StepKeepsOrdered(p, clock[k]);
    }
  }

  /** A bound that can be checked beforehand: no wait overflows at any reading. */
  lemma DueOrder(threads: seq<WorkDesc>, readings: seq<int>, intervalNs: int, clock: seq<int>)
    requires |threads| == |readings|
    requires NonDecreasing(clock)
    requires WaitsFit(multiset(threads), clock)
    ensures PopsInOrder(Pops(Run(Init(threads, readings, intervalNs), clock).log))
  {
    SeededSorted(threads, readings);
    InitThreads(threads, readings, intervalNs);
    var s, t := Init(threads, readings, intervalNs), if clock == [] then 0 else clock[0];
    assert Ordered(s, t);
    WaitsFitOrdered(s, t, clock);
  }

  const OVERLONG: WorkDesc := WorkDesc(1, TWO_64 - 10)

  /** One execution at reading 5; the thread is put back with a due time of -5. */
  lemma OverlongPutBack()
    ensures var s := Step(Step(Init([OVERLONG], [0], 1_000_000_000), 5), 5);
            && s.queue == [Elem(-5, OVERLONG)] && s.phase == AtHead
            && s.log == [Printed(5, 0, 0), Popped(Elem(0, OVERLONG), 5)]
            && s.nextReport == 1_000_000_005
  {
    var s0 := Init([OVERLONG], [0], 1_000_000_000);
    assert s0.queue == [Elem(0, OVERLONG)] by {
      assert Seeded([], []) == [];
      assert [OVERLONG][..0] == [] && [0][..0] == [];
      assert Due(0, 0) == 0;
    }
    assert Due(5, TWO_64 - 10) == -5;
  }

  lemma PopsOfThree(r: Event, a: Event, b: Event)
    requires r.Printed? && a.Popped? && b.Popped?
    ensures Pops([r, a, b]) == [a, b]
  {
    LogSnoc([], r);
    LogSnoc([r], a);
    LogSnoc([r, a], b);
    assert [] + [r] == [r] && [r] + [a] == [r, a] && [r, a] + [b] == [r, a, b];
  }

  /** Without the bound on waits the order is lost: a thread whose next due time
      overflows runs again at once, and before everything else. */
  lemma OverflowBreaksDueOrder()
    ensures var s := Run(Init([OVERLONG], [0], 1_000_000_000), [5, 5, 5]);
            |Pops(s.log)| == 2 && Pops(s.log)[1].elem.startNs < Pops(s.log)[0].elem.startNs
  {
    var s0 := Init([OVERLONG], [0], 1_000_000_000);
    ThreeSteps(s0, 5, 5, 5);
    OverlongPutBack();
    PopsOfThree(Printed(5, 0, 0), Popped(Elem(0, OVERLONG), 5), Popped(Elem(-5, OVERLONG), 5));
    var s2 := Step(Step(s0, 5), 5);
    assert Step(s2, 5).log == s2.log + [Popped(Elem(-5, OVERLONG), 5)];
    assert Step(s2, 5).log == [Printed(5, 0, 0), Popped(Elem(0, OVERLONG), 5), Popped(Elem(-5, OVERLONG), 5)];
  }

  lemma ThreeSteps(s: State, a: int, b: int, c: int)
    ensures Run(s, [a, b, c]) == Step(Step(Step(s, a), b), c)
  {
    RunSnoc(s, [], a);
    RunSnoc(s, [a], b);
    RunSnoc(s, [a, b], c);
    assert [] + [a] == [a] && [a] + [b] == [a, b] && [a, b] + [c] == [a, b, c];
  }
}
