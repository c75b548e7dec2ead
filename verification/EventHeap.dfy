/** The worker as it is written: a singly linked, heap-allocated list updated in place,
    and the loop over it. Every method is tied to the machine of module EventEngine. */
module EventHeap {
  import opened Clock
  import opened EventEngine

  class QueueElem {
    var startNs: int
    var wd: WorkDesc
    var next: QueueElem?

    constructor (startNs: int, wd: WorkDesc)
      ensures this.startNs == startNs && this.wd == wd && next == null
    {
      this.startNs, this.wd, next := startNs, wd, null;
    }
  }

  lemma SlotUnique(q: seq<Elem>, startNs: int, p: nat)
    requires p <= |q|
    requires forall i :: 0 <= i < p ==> q[i].startNs < startNs
    requires p < |q| ==> startNs <= q[p].startNs
    ensures Slot(q, startNs) == p
  {
  }

  lemma InsertAtIndex<T>(q: seq<T>, p: nat, e: T)
    requires p <= |q|
    ensures var r := InsertAt(q, p, e);
            && |r| == |q| + 1 && r[p] == e
            && (forall i :: 0 <= i < p ==> r[i] == q[i])
            && (forall i :: p < i < |r| ==> r[i] == q[i - 1])
  {
  }

  ghost predicate Distinct(q: seq<QueueElem>) {
    forall i, j :: 0 <= i < j < |q| ==> q[i] != q[j]
  }

  lemma DistinctInsertAt(q: seq<QueueElem>, p: nat, e: QueueElem)
    requires p <= |q| && Distinct(q) && e !in q
    ensures Distinct(InsertAt(q, p, e))
  {
    InsertAtIndex(q, p, e);
  }

  class Worker {
    var eventqueue: QueueElem?
    var kopsDone: U64
    var queueMaxDelta: int
    var nextReport: int
    const reportIntervalMs: int

    ghost var nodes: seq<QueueElem>  // the list, in order
    ghost var queue: seq<Elem>       // what the list holds
    ghost var log: seq<Event>        // what was printed and executed

    /** The list is exactly `nodes`: complete, without sharing and without a cycle. */
    ghost predicate Valid()
      reads this, nodes
    {
      && |queue| == |nodes|
      && (nodes == [] ==> eventqueue == null)
      && (nodes != [] ==> eventqueue == nodes[0] && nodes[|nodes| - 1].next == null)
      && (forall i :: 0 <= i < |nodes| - 1 ==> nodes[i].next == nodes[i + 1])
      && Distinct(nodes)
      && (forall i :: 0 <= i < |nodes| ==> queue[i] == Elem(nodes[i].startNs, nodes[i].wd))
    }

    ghost function Abs(phase: Phase): (s: State)
      reads this
      ensures s.intervalNs == reportIntervalMs * 1_000_000
    {
      State(queue, phase, kopsDone, queueMaxDelta, nextReport, reportIntervalMs * NS_PER_MS, log)
    }

    constructor (reportIntervalMs: int)
      ensures Valid() && nodes == []
      ensures Abs(AtHead) == Init([], [], reportIntervalMs * 1_000_000)
    {
      this.reportIntervalMs := reportIntervalMs;
      eventqueue, kopsDone, queueMaxDelta, nextReport := null, 0, 0, 0;
      nodes, queue, log := [], [], [];
    }

    /** The walk of eventqueue_insert: to the first element that is not earlier. The C code
        keeps a pointer to the link found; here `prev` is the element holding it, if any. */
    method FindLink(startNs: int) returns (prev: QueueElem?, cur: QueueElem?)
      requires Valid()
      ensures var p := Slot(queue, startNs);
              && (if p < |nodes| then cur == nodes[p] else cur == null)
              && (if p == 0 then prev == null else prev == nodes[p - 1])
    {
      prev, cur := null, eventqueue;
      ghost var p := 0;
      while cur != null && startNs > cur.startNs
        invariant p <= |nodes|
        invariant if p < |nodes| then cur == nodes[p] else cur == null
        invariant if p == 0 then prev == null else prev == nodes[p - 1]
        invariant forall i :: 0 <= i < p ==> queue[i].startNs < startNs
        decreases |nodes| - p
      {
        prev, cur, p := cur, cur.next, p + 1;
      }
      SlotUnique(queue, startNs, p);
    }

    /** eventqueue_insert: splice a new element in at the link found. */
    method Insert(wd: WorkDesc, timer: U64, n: int)
      requires Valid()
      modifies `eventqueue, `nodes, `queue, nodes
      ensures Valid()
      ensures queue == EventEngine.Insert(old(queue), Elem(Due(n, timer), wd))
      ensures var p := Slot(old(queue), Due(n, timer));
              p < |nodes| && fresh(nodes[p]) && nodes == InsertAt(old(nodes), p, nodes[p])
      ensures forall i :: 0 <= i < |nodes| ==> nodes[i] in old(nodes) || fresh(nodes[i])
    {
      var startNs := Due(n, timer);
      var eq := new QueueElem(startNs, wd);
      ghost var p := Slot(queue, startNs);
      var prev, cur := FindLink(startNs);
      Splice(eq, prev, cur, p);
      assert nodes[p] == eq;
    }

    /** eq->next = *p; *p = eq; */
    method Splice(eq: QueueElem, prev: QueueElem?, cur: QueueElem?, ghost p: nat)
      requires Valid() && eq !in nodes && p <= |nodes|
      requires if p < |nodes| then cur == nodes[p] else cur == null
      requires if p == 0 then prev == null else prev == nodes[p - 1]
      modifies `eventqueue, `nodes, `queue, nodes, eq
      ensures Valid()
      ensures nodes == InsertAt(old(nodes), p, eq)
      ensures queue == InsertAt(old(queue), p, Elem(old(eq.startNs), old(eq.wd)))
    {
      eq.next := cur;
      if prev == null {
        eventqueue := eq;
      } else {
        prev.next := eq;
      }
      InsertAtIndex(nodes, p, eq);
      InsertAtIndex(queue, p, Elem(eq.startNs, eq.wd));
      DistinctInsertAt(nodes, p, eq);
      ghost var spliced := InsertAt(nodes, p, eq);
      forall i | 0 <= i < |spliced| - 1 ensures spliced[i].next == spliced[i + 1] {
        if i > p {
          assert nodes[i - 1].next == nodes[i - 1 + 1];
        } else if i + 1 < p {
          assert nodes[i].next == nodes[i + 1];
        }
      }
      nodes := InsertAt(nodes, p, eq);
      queue := InsertAt(queue, p, Elem(eq.startNs, eq.wd));
    }

    /** report(): print and move to the next point of the grid, if that is past. */
    method Report(n: int)
      requires Valid()
      modifies `nextReport, `queueMaxDelta, `log
      ensures Valid()
      ensures Abs(AtHead) == EventEngine.Report(old(Abs(AtHead)), n)
    {
      if nextReport == 0 || n > nextReport {
        log := log + [Printed(n, kopsDone, queueMaxDelta)];
        queueMaxDelta := 0;
        if nextReport == 0 {
          nextReport := n;
        }
        nextReport := nextReport + reportIntervalMs * NS_PER_MS;
      }
    }

    /** The second half of the loop body up to the burn: account the delay, unlink the
        first element and do its work. The element is not reachable from the list again. */
    method Execute(n: int) returns (wd: WorkDesc)
      requires Valid() && eventqueue != null && eventqueue.startNs <= n
      modifies `eventqueue, `kopsDone, `queueMaxDelta, `nodes, `queue, `log
      ensures Valid() && nodes == old(nodes)[1..] && old(nodes)[0] !in nodes
      ensures forall i :: 0 <= i < |nodes| ==> nodes[i] in old(nodes)
      ensures wd == old(queue)[0].wd
      ensures Abs(Requeue(wd)) == Pop(old(Abs(AtHead)), n)
    {
      var deltaNs := n - eventqueue.startNs;
      if deltaNs > queueMaxDelta {
        queueMaxDelta := deltaNs;
      }
      var eq := eventqueue;
      eventqueue := eventqueue.next;
      log := log + [Popped(queue[0], n)];
      assert forall i :: 0 <= i < |nodes[1..]| ==> nodes[1..][i] == nodes[i + 1] && queue[1..][i] == queue[i + 1];
      nodes, queue := nodes[1..], queue[1..];
      kopsDone := ToU64(kopsDone + eq.wd.kops);
      wd := eq.wd;
    }

    /** main(): queue the burnwait threads, each at its own reading. */
    method Seed(threads: seq<WorkDesc>, readings: seq<int>)
      requires |threads| == |readings| && Valid() && nodes == []
      modifies `eventqueue, `nodes, `queue
      ensures Valid() && queue == Seeded(threads, readings)
      ensures forall k :: 0 <= k < |nodes| ==> fresh(nodes[k])
    {
      assert Seeded([], []) == [];
      for i := 0 to |threads|
        invariant Valid()
        invariant forall k :: 0 <= k < |nodes| ==> fresh(nodes[k])
        invariant queue == Seeded(threads[..i], readings[..i])
      {
        SeededNext(threads, readings, i);
        Insert(threads[i], 0, readings[i]);
      }
      assert threads[..|threads|] == threads && readings[..|readings|] == readings;
    }

    /** The inner loop of eventqueue_loop: sleep until the first element is due. Without
        further readings it stops with `due` false. */
    method SleepUntilDue(clock: seq<int>, t0: nat, n0: int, ghost s0: State)
        returns (t: nat, n: int, due: bool)
      requires Valid() && eventqueue != null && t0 <= |clock|
      requires Await(Abs(AtHead), n0) == Run(s0, clock[..t0])
      ensures t0 <= t <= |clock|
      ensures due ==> eventqueue.startNs <= n && Await(Abs(AtHead), n) == Run(s0, clock[..t])
      ensures !due ==> t == |clock| && Abs(Asleep) == Run(s0, clock)
    {
      t, n := t0, n0;
      ghost var s := Abs(AtHead);
      assert s.queue[0].startNs == eventqueue.startNs;
      var deltaNs := eventqueue.startNs - n;
      while deltaNs > 0
        invariant t0 <= t <= |clock| && n == LastReading(clock, t0, t, n0)
        invariant deltaNs == eventqueue.startNs - n
        invariant NotDueBefore(eventqueue.startNs, clock, t0, t, n0)
        decreases |clock| - t
      {
        if t == |clock| {
          SleepOver(s, n0, s0, clock, t0, t);
          StillAsleep(s, n, s0, clock);
          return t, n, false;
        }
        n := clock[t];
        t := t + 1;
        deltaNs := eventqueue.startNs - n;
      }
      SleepOver(s, n0, s0, clock, t0, t);
      due := true;
    }

    /** The end of process_worker: the thread waits from now, when its work is done. */
    method PutBack(wd: WorkDesc, n: int)
      requires Valid()
      modifies `eventqueue, `nodes, `queue, nodes
      ensures Valid()
      ensures Abs(AtHead) == Step(old(Abs(Requeue(wd))), n)
      ensures forall i :: 0 <= i < |nodes| ==> nodes[i] in old(nodes) || fresh(nodes[i])
    {
      Insert(wd, wd.waitNs, n);
    }

    /** Put the thread in hand back at the next reading, if there is one. */
    method PutBackNext(clock: seq<int>, t0: nat, wd: WorkDesc, ghost s0: State) returns (t: nat, phase: Phase)
      requires Valid() && t0 <= |clock| && Abs(Requeue(wd)) == Run(s0, clock[..t0])
      modifies `eventqueue, `nodes, `queue, nodes
      ensures Valid() && t0 <= t <= |clock|
      ensures Abs(phase) == Run(s0, clock[..t])
      ensures phase.AtHead? || t == |clock|
      ensures forall i :: 0 <= i < |nodes| ==> nodes[i] in old(nodes) || fresh(nodes[i])
    {
      if t0 == |clock| {
        return t0, Requeue(wd);
      }
      RunNext(s0, clock, t0);
      PutBack(wd, clock[t0]);
      return t0 + 1, AtHead;
    }

    /** Unlinking the first element, and process_worker. */
    method ProcessFirst(clock: seq<int>, t0: nat, n: int, ghost s0: State) returns (t: nat, phase: Phase)
      requires Valid() && eventqueue != null && eventqueue.startNs <= n && t0 <= |clock|
      requires Pop(Abs(AtHead), n) == Run(s0, clock[..t0])
      modifies `eventqueue, `kopsDone, `queueMaxDelta, `nodes, `queue, `log, nodes
      ensures Valid() && t0 <= t <= |clock|
      ensures Abs(phase) == Run(s0, clock[..t])
      ensures phase.AtHead? || t == |clock|
      ensures forall i :: 0 <= i < |nodes| ==> nodes[i] in old(nodes) || fresh(nodes[i])
    {
      var wd := Execute(n);
      t, phase := PutBackNext(clock, t0, wd, s0);
    }

    /** The body of eventqueue_loop after report(): wait for the first element, run it
        and put its thread back. */
    method Serve(clock: seq<int>, t0: nat, n0: int, ghost s0: State) returns (t: nat, phase: Phase)
      requires Valid() && eventqueue != null && t0 <= |clock|
      requires Await(Abs(AtHead), n0) == Run(s0, clock[..t0])
      modifies `eventqueue, `kopsDone, `queueMaxDelta, `nodes, `queue, `log, nodes
      ensures Valid() && t0 <= t <= |clock|
      ensures Abs(phase) == Run(s0, clock[..t])
      ensures phase.AtHead? || t == |clock|
      ensures forall i :: 0 <= i < |nodes| ==> nodes[i] in old(nodes) || fresh(nodes[i])
    {
      var n, due;
      t, n, due := SleepUntilDue(clock, t0, n0, s0);
      if due {
        t, phase := ProcessFirst(clock, t, n, s0);
      } else {
        assert clock[..t] == clock;
        phase := Asleep;
      }
    }

    /** One pass through the body of eventqueue_loop. */
    method Iterate(clock: seq<int>, t0: nat, ghost s0: State) returns (t: nat, phase: Phase)
      requires Valid() && eventqueue != null && t0 < |clock|
      requires Abs(AtHead) == Run(s0, clock[..t0])
      modifies this, nodes
      ensures Valid() && t0 < t <= |clock|
      ensures Abs(phase) == Run(s0, clock[..t])
      ensures phase.AtHead? || t == |clock|
      ensures forall i :: 0 <= i < |nodes| ==> nodes[i] in old(nodes) || fresh(nodes[i])
    {
      RunNext(s0, clock, t0);
      Report(clock[t0]);
      t, phase := Serve(clock, t0 + 1, clock[t0], s0);
    }

    /** eventqueue_loop over the given clock readings. The real loop has no end; this one
        stops, and says where it stands, when the readings are used up. */
    method Loop(clock: seq<int>) returns (phase: Phase)
      requires Valid()
      modifies this, nodes
      ensures Valid()
      ensures Abs(phase) == Run(old(Abs(AtHead)), clock)
      ensures forall i :: 0 <= i < |nodes| ==> nodes[i] in old(nodes) || fresh(nodes[i])
    {
      ghost var s0 := Abs(AtHead);
      var t := 0;
      phase := AtHead;
      while eventqueue != null && t < |clock|
        invariant t <= |clock| && Valid()
        invariant Abs(phase) == Run(s0, clock[..t])
        invariant phase.AtHead? || t == |clock|
        invariant forall i :: 0 <= i < |nodes| ==> nodes[i] in old(nodes) || fresh(nodes[i])
        decreases |clock| - t
      {
        t, phase := Iterate(clock, t, s0);
      }
      if t < |clock| {
        StoppedStays(Abs(AtHead), clock[t..]);
        RunAppend(s0, clock[..t], clock[t..]);
        assert clock == clock[..t] + clock[t..];
      } else {
        assert clock[..t] == clock;
      }
    }
  }

  /** Asleep, the next reading is treated just as the first one was. */
  lemma SleepAgain(s: State, n: int, m: int)
    requires s.queue != [] && s.queue[0].startNs > n
    ensures Await(s, n) == s.(phase := Asleep)
    ensures Step(Await(s, n), m) == Await(s, m)
  {
  }

  /** One pass of the inner loop. */
  lemma SleepOn(s: State, n: int, s0: State, clock: seq<int>, t: nat)
    requires s.queue != [] && s.queue[0].startNs > n && t < |clock|
    requires Await(s, n) == Run(s0, clock[..t])
    ensures Await(s, clock[t]) == Run(s0, clock[..t + 1])
  {
    SleepAgain(s, n, clock[t]);
    RunNext(s0, clock, t);
  }

  /** The reading taken last, when those up to t have been taken. */
  function LastReading(clock: seq<int>, t0: nat, t: nat, n0: int): int
    requires t <= |clock|
  {
    if t <= t0 then n0 else clock[t - 1]
  }

  /** At none of the readings before that one was the element due. */
  ghost predicate NotDueBefore(startNs: int, clock: seq<int>, t0: nat, t: nat, n0: int)
    requires t <= |clock|
  {
    t <= t0 || (NotDueBefore(startNs, clock, t0, t - 1, n0) && startNs > LastReading(clock, t0, t - 1, n0))
  }

  /** All passes of the inner loop. */
  lemma {:induction false} SleepOver(s: State, n0: int, s0: State, clock: seq<int>, t0: nat, t: nat)
    requires s.queue != [] && t0 <= t <= |clock| && Await(s, n0) == Run(s0, clock[..t0])
    requires NotDueBefore(s.queue[0].startNs, clock, t0, t, n0)
    ensures Await(s, LastReading(clock, t0, t, n0)) == Run(s0, clock[..t])
    decreases t
  {
    if t > t0 {
      var k := t - 1;
      SleepOver(s, n0, s0, clock, t0, k);
      SleepOn(s, LastReading(clock, t0, k, n0), s0, clock, k);
      assert clock[..k + 1] == clock[..t];
    }
  }

  lemma StillAsleep(s: State, n: int, s0: State, clock: seq<int>)
    requires s.queue != [] && s.queue[0].startNs > n
    requires Await(s, n) == Run(s0, clock[..|clock|])
    ensures s.(phase := Asleep) == Run(s0, clock)
  {
    assert clock[..|clock|] == clock;
  }

  lemma SeededNext(threads: seq<WorkDesc>, readings: seq<int>, i: nat)
    requires |threads| == |readings| && i < |threads|
    ensures Seeded(threads[..i + 1], readings[..i + 1]) ==
            EventEngine.Insert(Seeded(threads[..i], readings[..i]), Elem(Due(readings[i], 0), threads[i]))
  {
    assert threads[..i + 1][..i] == threads[..i] && readings[..i + 1][..i] == readings[..i];
  }

  lemma RunNext(s: State, clock: seq<int>, t: nat)
    requires t < |clock|
    ensures Run(s, clock[..t + 1]) == Step(Run(s, clock[..t]), clock[t])
  {
    assert clock[..t + 1][..t] == clock[..t];
  }

  /** An empty queue ends the loop: later readings change nothing. */
  lemma {:induction false} StoppedStays(s: State, clock: seq<int>)
    requires s.queue == [] && s.phase.AtHead?
    ensures Run(s, clock) == s
  {
    if clock != [] {
      StoppedStays(s, clock[..|clock| - 1]);
    }
  }
}
