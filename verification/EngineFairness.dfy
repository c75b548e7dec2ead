/** How long a queued thread can be kept waiting: it is overtaken only by threads due no
    later than itself, and it starves exactly if the due time of too short a wait overflows. */
module EngineFairness {
  import opened Clock
  import opened EventEngine
  import opened EngineOrder

  /** Where a queued element is: still queued at an index, or executed at a reading. */
  datatype Place = Queued(index: nat) | Executed(at: int)

  lemma InsertShifts(q: seq<Elem>, e: Elem, i: nat)
    requires i < |q|
    ensures var p, r := Slot(q, e.startNs), Insert(q, e);
            |r| == |q| + 1 && r[p] == e && r[if p <= i then i + 1 else i] == q[i]
  {
  }

  /** Where one step takes the element at index p. */
  function Move(s: State, n: int, p: nat): (place: Place)
    requires p < |s.queue|
    ensures place.Queued? ==> place.index < |Step(s, n).queue| && Step(s, n).queue[place.index] == s.queue[p]
  {
    match s.phase
    case Requeue(wd) =>
      InsertShifts(s.queue, Elem(Due(n, wd.waitNs), wd), p);
      if Slot(s.queue, Due(n, wd.waitNs)) <= p then Queued(p + 1) else Queued(p)
    case _ =>
      if s.queue[0].startNs - n > 0 then Queued(p)
      else if p == 0 then Executed(n)
      else Queued(p - 1)
  }

  lemma ExecutedPops(s: State, n: int, p: nat)
    requires p < |s.queue| && Move(s, n, p).Executed?
    ensures Move(s, n, p).at == n && s.queue[p].startNs <= n
    ensures Pops(Step(s, n).log) == Pops(s.log) + [Popped(s.queue[p], n)]
  {
    StepPops(s, n);
  }

  /** Where a whole run takes it. */
  function Follow(s: State, clock: seq<int>, p: nat): (place: Place)
    requires p < |s.queue|
    ensures place.Queued? ==>
              place.index < |Run(s, clock).queue| && Run(s, clock).queue[place.index] == s.queue[p]
  {
    if clock == [] then Queued(p)
    else
      var k := |clock| - 1;
      match Follow(s, clock[..k], p)
      case Executed(at) => Executed(at)
      case Queued(q) => Move(Run(s, clock[..k]), clock[k], q)
  }

  /** The element at index p is executed during the run, at a reading that is not before its
      due time. */
  ghost predicate RunsIn(s: State, clock: seq<int>, p: nat)
    requires p < |s.queue|
  {
    var place := Follow(s, clock, p);
    && place.Executed?
    && place.at in clock && s.queue[p].startNs <= place.at
    && Pops(s.log) <= Pops(Run(s, clock).log)
    && Popped(s.queue[p], place.at) in Pops(Run(s, clock).log)[|Pops(s.log)|..]
  }

  lemma {:induction false} PopsGrow(s: State, clock: seq<int>)
    ensures Pops(s.log) <= Pops(Run(s, clock).log)
  {
    if clock != [] {
      var k := |clock| - 1;
      PopsGrow(s, clock[..k]);
      StepPops(Run(s, clock[..k]), clock[k]);
    }
  }

  lemma InTail<T>(a: seq<T>, b: seq<T>, c: seq<T>, x: T)
    requires a <= b <= c
    ensures x in b[|a|..] ==> x in c[|a|..]
    ensures c == b + [x] ==> x in c[|a|..]
  {
    if x in b[|a|..] {
      var i :| 0 <= i < |b[|a|..]| && b[|a|..][i] == x;
      assert c[|a|..][i] == x;
    }
    if c == b + [x] {
      assert c[|a|..][|b| - |a|] == x;
    }
  }

  /** Being taken off the queue is being executed: it is in the log. */
  lemma {:induction false} ExecutedIsLogged(s: State, clock: seq<int>, p: nat)
    requires p < |s.queue| && Follow(s, clock, p).Executed?
    ensures RunsIn(s, clock, p)
  {
    var k := |clock| - 1;
    var before, n := clock[..k], clock[k];
    var r, t := Run(s, before), Run(s, clock);
    assert n in clock && forall x :: x in before ==> x in clock;
    PopsGrow(s, before);
    StepPops(r, n);
    match Follow(s, before, p) {
      case Executed(at) =>
        ExecutedIsLogged(s, before, p);
        InTail(Pops(s.log), Pops(r.log), Pops(t.log), Popped(s.queue[p], at));
      case Queued(q) =>
        ExecutedPops(r, n, q);
        InTail(Pops(s.log), Pops(r.log), Pops(t.log), Popped(s.queue[p], n));
    }
  }

  lemma {:induction false} FollowAppend(s: State, a: seq<int>, b: seq<int>, p: nat)
    requires p < |s.queue|
    ensures Follow(s, a + b, p) ==
            match Follow(s, a, p)
            case Executed(at) => Executed(at)
            case Queued(q) => Follow(Run(s, a), b, q)
  {
    if b == [] {
      assert a + b == a;
    } else {
      var k := |b| - 1;
      assert (a + b)[..|a + b| - 1] == a + b[..k];
      FollowAppend(s, a, b[..k], p);
      RunAppend(s, a, b[..k]);
    }
  }

  // -------------------------------------------------------------- overtaking

  /** A thread being put back goes in front of a queued one exactly when it is due no later. */
  lemma OvertakesOnlyIfDueNoLater(s: State, n: int, p: nat)
    requires Sorted(s.queue) && p < |s.queue| && s.phase.Requeue?
    ensures Move(s, n, p) == Queued(p + 1) <==> Due(n, s.phase.wd.waitNs) <= s.queue[p].startNs
  {
    var slot := Slot(s.queue, Due(n, s.phase.wd.waitNs));
    if slot <= p {
      assert s.queue[slot].startNs <= s.queue[p].startNs;
    }
  }

  function Executions(s: State): nat {
    |Pops(s.log)|
  }

  /** How often, over these readings, a thread is put back with a due time of x or earlier. */
  function Overtakings(s: State, clock: seq<int>, x: int): nat {
    if clock == [] then 0
    else
      var k := |clock| - 1;
      var r := Run(s, clock[..k]);
      Overtakings(s, clock[..k], x) + if r.phase.Requeue? && Due(clock[k], r.phase.wd.waitNs) <= x then 1 else 0
  }

  lemma HeadNotAfter(q: seq<Elem>, p: nat)
    requires Sorted(q) && p < |q|
    ensures q[0].startNs <= q[p].startNs
  {
  }

  lemma PlaceStep(s: State, n: int, q: nat)
    requires Sorted(s.queue) && q < |s.queue|
    ensures var place := Move(s, n, q);
            var overtaken := if s.phase.Requeue? && Due(n, s.phase.wd.waitNs) <= s.queue[q].startNs then 1 else 0;
            place.Queued? ==> place.index + Executions(Step(s, n)) == q + Executions(s) + overtaken
  {
    StepPops(s, n);
    if s.phase.Requeue? {
      OvertakesOnlyIfDueNoLater(s, n, q);
    } else {
      HeadNotAfter(s.queue, q);
    }
  }

  /** Under any clock at all: while it waits, a thread's place is where it started, less the
      executions since, plus the threads put back in front of it. */
  lemma {:induction false} PlaceLaw(s: State, clock: seq<int>, p: nat)
    requires Sorted(s.queue) && p < |s.queue|
    ensures var place := Follow(s, clock, p);
            place.Queued? ==>
              place.index + Executions(Run(s, clock)) ==
              p + Executions(s) + Overtakings(s, clock, s.queue[p].startNs)
  {
    if clock != [] {
      var k := |clock| - 1;
      PlaceLaw(s, clock[..k], p);
      RunKeepsSorted(s, clock[..k]);
      match Follow(s, clock[..k], p) {
        case Executed(_) =>
        case Queued(q) => PlaceStep(Run(s, clock[..k]), clock[k], q);
      }
    }
  }

  ghost predicate AllPast(clock: seq<int>, x: int) {
    forall n :: n in clock ==> n > x
  }

  /** A thread about to be put back is due after x. */
  ghost predicate GoesBehind(s: State, n: int, x: int) {
    s.phase.Requeue? ==> Due(n, s.phase.wd.waitNs) > x
  }

  /** Nothing is put back in front of the element while it waits. */
  ghost predicate NotOvertaken(s: State, clock: seq<int>, p: nat)
    requires p < |s.queue|
  {
    clock == [] ||
    var k := |clock| - 1;
    && NotOvertaken(s, clock[..k], p)
    && (Follow(s, clock[..k], p).Queued? ==> GoesBehind(Run(s, clock[..k]), clock[k], s.queue[p].startNs))
  }

  lemma OverdueMove(s: State, n: int, q: nat)
    requires Sorted(s.queue) && q < |s.queue| && s.queue[q].startNs < n
    requires GoesBehind(s, n, s.queue[q].startNs)
    ensures var done := Executions(Step(s, n)) - Executions(s);
            && 0 <= done <= 1
            && Move(s, n, q) == if done <= q then Queued(q - done) else Executed(n)
  {
    StepPops(s, n);
    if s.phase.Requeue? {
      OvertakesOnlyIfDueNoLater(s, n, q);
    } else {
      HeadNotAfter(s.queue, q);
    }
  }

  /** Once every reading is past its due time, the element at index p is run after
      exactly the p executions of the elements in front of it, if it is not overtaken. */
  lemma {:induction false} OverdueRunsInTurn(s: State, clock: seq<int>, p: nat)
    requires Sorted(s.queue) && p < |s.queue|
    requires AllPast(clock, s.queue[p].startNs) && NotOvertaken(s, clock, p)
    ensures var done := Executions(Run(s, clock)) - Executions(s);
            && done >= 0
            && if done <= p then Follow(s, clock, p) == Queued(p - done) else Follow(s, clock, p).Executed?
  {
    if clock != [] {
      var k := |clock| - 1;
      var r, n := Run(s, clock[..k]), clock[k];
      assert n in clock && forall x :: x in clock[..k] ==> x in clock;
      OverdueRunsInTurn(s, clock[..k], p);
      RunKeepsSorted(s, clock[..k]);
      match Follow(s, clock[..k], p) {
        case Executed(_) => StepPops(r, n);
        case Queued(q) => OverdueMove(r, n, q);
      }
    }
  }

  /** No put-back of a thread with a wait below the given one overflows while the element waits. */
  ghost predicate FitsWhileWaiting(s: State, clock: seq<int>, p: nat, below: int)
    requires p < |s.queue|
  {
    clock == [] ||
    var k := |clock| - 1;
    && FitsWhileWaiting(s, clock[..k], p, below)
    && (Follow(s, clock[..k], p).Queued? ==> FitsIfBelow(Run(s, clock[..k]), clock[k], below))
  }

  ghost predicate FitsIfBelow(s: State, n: int, below: int) {
    s.phase.Requeue? && s.phase.wd.waitNs < below ==> FitsI64(n + s.phase.wd.waitNs)
  }

  /** Put back past x, a thread whose due time fits is due after x. */
  lemma FitsGoesBehind(s: State, n: int, x: int)
    requires FitsIfBelow(s, n, TWO_64) && x < n
    ensures GoesBehind(s, n, x)
  {
    if s.phase.Requeue? {
      DueExact(n, s.phase.wd.waitNs);
    }
  }

  lemma {:induction false} FitsNotOvertaken(s: State, clock: seq<int>, p: nat)
    requires p < |s.queue| && AllPast(clock, s.queue[p].startNs) && FitsWhileWaiting(s, clock, p, TWO_64)
    ensures NotOvertaken(s, clock, p)
  {
    if clock != [] {
      var k := |clock| - 1;
      assert clock[k] in clock && forall x :: x in clock[..k] ==> x in clock;
      FitsNotOvertaken(s, clock[..k], p);
      if Follow(s, clock[..k], p).Queued? {
        FitsGoesBehind(Run(s, clock[..k]), clock[k], s.queue[p].startNs);
      }
    }
  }

  /** Then, while nothing overflows, at most one fewer executions than there are threads
      come before its own. */
  lemma OverdueIsNotOvertaken(s: State, clock: seq<int>, p: nat)
    requires Sorted(s.queue) && p < |s.queue|
    requires AllPast(clock, s.queue[p].startNs) && FitsWhileWaiting(s, clock, p, TWO_64)
    ensures var done := Executions(Run(s, clock)) - Executions(s);
            && done >= 0
            && if done <= p then Follow(s, clock, p) == Queued(p - done) else Follow(s, clock, p).Executed?
  {
    FitsNotOvertaken(s, clock, p);
    OverdueRunsInTurn(s, clock, p);
  }

  // ------------------------------------------------------------ no starvation

  /** Readings still needed to run an overdue element. */
  function ReadingsLeft(s: State, place: Place): nat {
    match place
    case Executed(_) => 0
    case Queued(q) => 2 * q + if s.phase.Requeue? then 2 else 1
  }

  lemma OverdueStep(s: State, n: int, q: nat)
    requires Sorted(s.queue) && q < |s.queue| && s.queue[q].startNs < n
    requires GoesBehind(s, n, s.queue[q].startNs)
    ensures ReadingsLeft(Step(s, n), Move(s, n, q)) < ReadingsLeft(s, Queued(q))
  {
    if s.phase.Requeue? {
      OvertakesOnlyIfDueNoLater(s, n, q);
    } else {
      HeadNotAfter(s.queue, q);
    }
  }

  lemma {:induction false} OverdueRunsSoon(s: State, clock: seq<int>, p: nat)
    requires Sorted(s.queue) && p < |s.queue|
    requires AllPast(clock, s.queue[p].startNs) && NotOvertaken(s, clock, p)
    ensures var left := ReadingsLeft(Run(s, clock), Follow(s, clock, p));
            left > 0 ==> left + |clock| <= ReadingsLeft(s, Queued(p))
  {
    if clock != [] {
      var k := |clock| - 1;
      var before, n := clock[..k], clock[k];
      assert n in clock && forall x :: x in before ==> x in clock;
      OverdueRunsSoon(s, before, p);
      RunKeepsSorted(s, before);
      match Follow(s, before, p) {
        case Executed(_) =>
        case Queued(q) => OverdueStep(Run(s, before), n, q);
      }
    }
  }

  lemma ThreadsBoundQueue(s: State)
    ensures |Threads(s)| == |s.queue| + if s.phase.Requeue? then 1 else 0
  {
    DescsSize(s.queue);
  }

  lemma {:induction false} FitsLater(s: State, a: seq<int>, b: seq<int>, p: nat, q: nat, below: int)
    requires p < |s.queue| && FitsWhileWaiting(s, a + b, p, below) && Follow(s, a, p) == Queued(q)
    ensures FitsWhileWaiting(Run(s, a), b, q, below)
  {
    if b != [] {
      var k := |b| - 1;
      assert (a + b)[..|a + b| - 1] == a + b[..k];
      FitsLater(s, a, b[..k], p, q, below);
      FollowAppend(s, a, b[..k], p);
      RunAppend(s, a, b[..k]);
    }
  }

  /** Whoever is still queued after a is executed during b, if that has two readings past its
      due time for every thread, and it is not overtaken. */
  lemma RunsAtLast(s: State, a: seq<int>, b: seq<int>, p: nat)
    requires Sorted(s.queue) && p < |s.queue| && |b| >= 2 * |Threads(s)| && AllPast(b, s.queue[p].startNs)
    requires Follow(s, a, p).Queued? ==> NotOvertaken(Run(s, a), b, Follow(s, a, p).index)
    ensures RunsIn(s, a + b, p)
  {
    FollowAppend(s, a, b, p);
    match Follow(s, a, p) {
      case Executed(_) =>
      case Queued(q) =>
        RunKeepsSorted(s, a);
        RunConserves(s, a);
        ThreadsBoundQueue(Run(s, a));
        OverdueRunsSoon(Run(s, a), b, q);
    }
    ExecutedIsLogged(s, a + b, p);
  }

  /** The last readings, two for every thread, are past x. */
  ghost predicate LongPast(s: State, clock: seq<int>, x: int) {
    var last := 2 * |Threads(s)|;
    last <= |clock| && AllPast(clock[|clock| - last..], x)
  }

  /** Every queued thread is executed, if no put-back overflows while it waits: at the latest
      two readings for each thread of the worker after it is overdue. */
  lemma NoStarvation(s: State, clock: seq<int>, p: nat)
    requires Sorted(s.queue) && p < |s.queue|
    requires LongPast(s, clock, s.queue[p].startNs) && FitsWhileWaiting(s, clock, p, TWO_64)
    ensures RunsIn(s, clock, p)
  {
    var k := |clock| - 2 * |Threads(s)|;
    var a, b := clock[..k], clock[k..];
    assert clock == a + b;
    match Follow(s, a, p) {
      case Executed(_) =>
      case Queued(q) =>
        FitsLater(s, a, b, p, q, TWO_64);
        FitsNotOvertaken(Run(s, a), b, q);
    }
    RunsAtLast(s, a, b, p);
  }

  /** A bound that can be checked beforehand: no wait overflows at any reading. */
  lemma {:induction false} WaitsFitWhileWaiting(s: State, clock: seq<int>, p: nat)
    requires p < |s.queue| && WaitsFit(Threads(s), clock)
    ensures FitsWhileWaiting(s, clock, p, TWO_64)
  {
    if clock != [] {
      var k := |clock| - 1;
      assert clock[k] in clock && forall x :: x in clock[..k] ==> x in clock;
      WaitsFitWhileWaiting(s, clock[..k], p);
      RunConserves(s, clock[..k]);
      RequeuedFits(Run(s, clock[..k]), clock, clock[k]);
    }
  }

  // -------------------------------------------------------------- starvation

  /** Thread a has the worker to itself: it is in hand, or first in the queue, and nothing else
      is due before x, nor a after it. */
  ghost predicate Hogs(s: State, a: WorkDesc, x: int) {
    if s.phase.Requeue? then s.phase.wd == a && DueFrom(s.queue, x)
    else s.queue != [] && s.queue[0].wd == a && s.queue[0].startNs <= x && DueFrom(s.queue[1..], x)
  }

  ghost predicate DueFrom(q: seq<Elem>, x: int) {
    forall i :: 0 <= i < |q| ==> x <= q[i].startNs
  }

  /** Put back at any of these readings, a is due at x or before. */
  ghost predicate DueBy(a: WorkDesc, clock: seq<int>, x: int) {
    forall n :: n in clock ==> Due(n, a.waitNs) <= x
  }

  /** An element that is not thread a's own. */
  ghost predicate Other(s: State, p: nat) {
    p < |s.queue| && (s.phase.Requeue? || p > 0)
  }

  lemma HogStep(s: State, a: WorkDesc, n: int, x: int, q: nat)
    requires Hogs(s, a, x) && Other(s, q) && Due(n, a.waitNs) <= x
    ensures Hogs(Step(s, n), a, x)
    ensures Move(s, n, q).Queued? && Other(Step(s, n), Move(s, n, q).index)
  {
    if s.phase.Requeue? {
      InsertFirst(s.queue, Elem(Due(n, a.waitNs), a));
      assert ([Elem(Due(n, a.waitNs), a)] + s.queue)[1..] == s.queue;
    }
  }

  /** As long as its due times are not after those of the others, no other thread ever runs. */
  lemma {:induction false} Starves(s: State, a: WorkDesc, x: int, clock: seq<int>, p: nat)
    requires Hogs(s, a, x) && DueBy(a, clock, x) && Other(s, p)
    ensures var r, place := Run(s, clock), Follow(s, clock, p);
            Hogs(r, a, x) && place.Queued? && Other(r, place.index)
  {
    if clock != [] {
      var k := |clock| - 1;
      var r, n := Run(s, clock[..k]), clock[k];
      assert n in clock && forall x :: x in clock[..k] ==> x in clock;
      Starves(s, a, x, clock[..k], p);
      HogStep(r, a, n, x, Follow(s, clock[..k], p).index);
    }
  }

  /** A sum that does not fit is stored as one that is 2^64 smaller. */
  lemma OverflowDue(n: int, waitNs: U64)
    requires 0 <= n < TWO_63 && !FitsI64(n + waitNs)
    ensures Due(n, waitNs) == n + waitNs - TWO_64
  {
    if n + waitNs < TWO_64 {
      assert (n + waitNs) % TWO_64 == n + waitNs;
    } else {
      assert (n + waitNs) % TWO_64 == n + waitNs - TWO_64;
    }
  }

  /** The shortest wait whose due times, once they overflow, can still get past x: from a
      shorter one they are at x or before as long as the clock can be read. */
  function GetsPast(x: int): int {
    TWO_63 + x + 2
  }

  lemma OverflowNotAfter(n: int, waitNs: U64, x: int)
    requires 0 <= n < TWO_63 && !FitsI64(n + waitNs) && waitNs < GetsPast(x)
    ensures Due(n, waitNs) <= x
  {
    OverflowDue(n, waitNs);
  }

  /** How far in the past a thread is due whose due time has overflowed. */
  function Reach(wd: WorkDesc): nat {
    TWO_64 - wd.waitNs
  }

  /** A thread with a wait of 2^63 or more is always due in the past, so it keeps the worker to
      itself until the clock is that far past x. */
  lemma LongWaitStarves(s: State, a: WorkDesc, x: int, clock: seq<int>, p: nat)
    requires Hogs(s, a, x) && Other(s, p) && a.waitNs >= TWO_63
    requires forall n :: n in clock ==> 0 <= n < TWO_63 && n <= x + Reach(a)
    ensures Follow(s, clock, p).Queued?
  {
    forall n | n in clock ensures Due(n, a.waitNs) <= x {
      OverflowDue(n, a.waitNs);
    }
    Starves(s, a, x, clock, p);
  }

  function TwoThreads(waitNs: U64, intervalNs: int): State {
    Init([WorkDesc(1, 10), WorkDesc(1, waitNs)], [0, 0], intervalNs)
  }

  lemma TwoThreadsStarve(waitNs: U64, intervalNs: int, clock: seq<int>)
    requires (forall n :: n in clock ==> n >= 1) && DueBy(WorkDesc(1, waitNs), clock, 0)
    ensures TwoThreads(waitNs, intervalNs).queue == [Elem(0, WorkDesc(1, waitNs)), Elem(0, WorkDesc(1, 10))]
    ensures Follow(TwoThreads(waitNs, intervalNs), clock, 1).Queued?
  {
    var s := TwoThreads(waitNs, intervalNs);
    SeededTwo(WorkDesc(1, 10), WorkDesc(1, waitNs));
    assert s.queue[1..] == [Elem(0, WorkDesc(1, 10))];
    Starves(s, WorkDesc(1, waitNs), 0, clock, 1);
  }

  /** Two threads, the first with a wait of about 2^63: the second never runs, whatever the clock
      shows from 1 ns on. For 2^63 and 2^63 + 1 no sum of a shorter wait overflows. */
  lemma StarvingInput(waitNs: U64, intervalNs: int, clock: seq<int>)
    requires forall n :: n in clock ==> 1 <= n < TWO_63
    requires TWO_63 - 1 <= waitNs <= TWO_63 + 1
    ensures TwoThreads(waitNs, intervalNs).queue == [Elem(0, WorkDesc(1, waitNs)), Elem(0, WorkDesc(1, 10))]
    ensures Follow(TwoThreads(waitNs, intervalNs), clock, 1).Queued?
  {
    forall n | n in clock ensures Due(n, waitNs) <= 0 {
      OverflowNotAfter(n, waitNs, 0);
    }
    TwoThreadsStarve(waitNs, intervalNs, clock);
  }

  /** With half as much again, it does not run in the first 2^62 ns, which is 146 years. */
  lemma DelayingInput(intervalNs: int, clock: seq<int>)
    requires forall n :: n in clock ==> 1 <= n <= TWO_63 / 2
    ensures |TwoThreads(TWO_63 + TWO_63 / 2, intervalNs).queue| == 2
    ensures Follow(TwoThreads(TWO_63 + TWO_63 / 2, intervalNs), clock, 1).Queued?
  {
    var w := TWO_63 + TWO_63 / 2;
    forall n | n in clock ensures Due(n, w) <= 0 {
      OverflowDue(n, w);
    }
    TwoThreadsStarve(w, intervalNs, clock);
  }

  lemma SeededTwo(b: WorkDesc, a: WorkDesc)
    ensures Seeded([b, a], [0, 0]) == [Elem(0, a), Elem(0, b)]
  {
    assert [b, a][..1] == [b] && [0, 0][..1] == [0] && [b][..0] == [] && [0][..0] == [];
    assert Due(0, 0) == 0;
    assert Seeded([b], [0]) == Insert([], Elem(0, b)) == [Elem(0, b)];
  }

  // ------------------------------------------------------ exactly when

  /** Thread a will be run before the element at index q: it is in hand, or queued in front. */
  ghost predicate Ahead(s: State, q: nat, a: WorkDesc)
    requires q < |s.queue|
  {
    s.phase == Requeue(a) || exists i :: 0 <= i < q && s.queue[i].wd == a
  }

  /** A thread with such a wait whose due time overflows is put back in front of the element. */
  lemma OverflowGoesAhead(s: State, q: nat, n: int)
    requires q < |s.queue| && s.phase.Requeue? && s.phase.wd.waitNs < GetsPast(s.queue[q].startNs)
    requires 0 <= n < TWO_63 && !FitsI64(n + s.phase.wd.waitNs)
    ensures Move(s, n, q) == Queued(q + 1) && Ahead(Step(s, n), q + 1, s.phase.wd)
  {
    var e := Elem(Due(n, s.phase.wd.waitNs), s.phase.wd);
    OverflowNotAfter(n, s.phase.wd.waitNs, s.queue[q].startNs);
    InsertShifts(s.queue, e, q);
    assert Slot(s.queue, e.startNs) <= q;
    assert Step(s, n).queue[Slot(s.queue, e.startNs)].wd == s.phase.wd;
  }

  lemma QueuedStaysAhead(s: State, q: nat, i: nat, n: int)
    requires i < q < |s.queue|
    ensures Move(s, n, q).Queued? && Ahead(Step(s, n), Move(s, n, q).index, s.queue[i].wd)
  {
    if s.phase.Requeue? {
      var e := Elem(Due(n, s.phase.wd.waitNs), s.phase.wd);
      var p := Slot(s.queue, e.startNs);
      InsertShifts(s.queue, e, i);
      assert Step(s, n).queue[if p <= i then i + 1 else i].wd == s.queue[i].wd;
    } else if s.queue[0].startNs > n {
      assert Step(s, n).queue[i] == s.queue[i];
    } else if i > 0 {
      assert Step(s, n).queue[i - 1] == s.queue[i];
    }
  }

  /** The element waits behind a thread that overflows at reading n and, as the clock does not
      go back, at every later one. */
  ghost predicate Blocked(s: State, place: Place, a: WorkDesc, n: int) {
    && place.Queued? && place.index < |s.queue| && Ahead(s, place.index, a)
    && a.waitNs < GetsPast(s.queue[place.index].startNs) && !FitsI64(n + a.waitNs)
  }

  lemma BlockedStep(s: State, q: nat, a: WorkDesc, n: int, m: int)
    requires Blocked(s, Queued(q), a, n) && 0 <= n <= m < TWO_63
    ensures Blocked(Step(s, m), Move(s, m, q), a, m)
  {
    if s.phase == Requeue(a) {
      OverflowGoesAhead(s, q, m);
    } else {
      var i :| 0 <= i < q && s.queue[i].wd == a;
      QueuedStaysAhead(s, q, i, m);
    }
  }

  /** Either no wait too short to get past its due time has overflowed while the element waited,
      or it is still waiting, behind a thread that will overflow at every later reading too. */
  lemma {:induction false} FitsOrBlocked(s: State, clock: seq<int>, p: nat) returns (a: WorkDesc)
    requires p < |s.queue| && NonDecreasing(clock) && InClockRange(clock)
    ensures !FitsWhileWaiting(s, clock, p, GetsPast(s.queue[p].startNs)) ==>
              clock != [] && Blocked(Run(s, clock), Follow(s, clock, p), a, clock[|clock| - 1])
  {
    a := WorkDesc(0, 0);
    if clock != [] {
      var k := |clock| - 1;
      var before, n, below := clock[..k], clock[k], GetsPast(s.queue[p].startNs);
      var r, place := Run(s, before), Follow(s, before, p);
      a := FitsOrBlocked(s, before, p);
      if !FitsWhileWaiting(s, before, p, below) {
        BlockedStep(r, place.index, a, before[k - 1], n);
      } else if place.Queued? && !FitsIfBelow(r, n, below) {
        a := r.phase.wd;
        OverflowGoesAhead(r, place.index, n);
      }
    }
  }

  /** The threads whose overflowing due times can get past x are due no more than c before now. */
  ghost predicate ReachesWithin(threads: multiset<WorkDesc>, x: int, c: int) {
    forall wd :: wd in threads && wd.waitNs >= GetsPast(x) ==> Reach(wd) <= c
  }

  /** There always is such a c that the clock can still show times past x + c. */
  lemma ClockGetsPast(threads: multiset<WorkDesc>, x: int) returns (c: nat)
    requires x < TWO_63 - 1
    ensures ReachesWithin(threads, x, c) && x + c < TWO_63 - 1
  {
    c := TWO_63 - 2 - x;
  }

  lemma ReachGoesBehind(s: State, n: int, x: int, c: nat)
    requires ReachesWithin(Threads(s), x, c) && FitsIfBelow(s, n, GetsPast(x))
    requires 0 <= n < TWO_63 && x + c < n
    ensures GoesBehind(s, n, x)
  {
    if s.phase.Requeue? {
      assert s.phase.wd in Held(s);
      assert s.phase.wd in Threads(s);
      if FitsI64(n + s.phase.wd.waitNs) {
        DueExact(n, s.phase.wd.waitNs);
      } else {
        OverflowDue(n, s.phase.wd.waitNs);
      }
    }
  }

  lemma {:induction false} ReachNotOvertaken(s: State, clock: seq<int>, p: nat, c: nat)
    requires p < |s.queue| && ReachesWithin(Threads(s), s.queue[p].startNs, c)
    requires InClockRange(clock) && AllPast(clock, s.queue[p].startNs + c)
    requires FitsWhileWaiting(s, clock, p, GetsPast(s.queue[p].startNs))
    ensures NotOvertaken(s, clock, p)
  {
    if clock != [] {
      var k := |clock| - 1;
      assert clock[k] in clock && forall x :: x in clock[..k] ==> x in clock;
      ReachNotOvertaken(s, clock[..k], p, c);
      RunConserves(s, clock[..k]);
      if Follow(s, clock[..k], p).Queued? {
        ReachGoesBehind(Run(s, clock[..k]), clock[k], s.queue[p].startNs, c);
      }
    }
  }

  /** For waits of any size, and any due time x: a queued thread runs exactly if no wait below
      2^63 + x + 2 overflows while it waits, given that the clock gets far enough past x: that
      includes how far the longer waits, which overflow harmlessly, reach into the past. */
  lemma StarvationExact(s: State, clock: seq<int>, p: nat, c: nat)
    requires Sorted(s.queue) && p < |s.queue| && ReachesWithin(Threads(s), s.queue[p].startNs, c)
    requires NonDecreasing(clock) && InClockRange(clock) && LongPast(s, clock, s.queue[p].startNs + c)
    ensures RunsIn(s, clock, p) <==> FitsWhileWaiting(s, clock, p, GetsPast(s.queue[p].startNs))
  {
    var below := GetsPast(s.queue[p].startNs);
    var h := FitsOrBlocked(s, clock, p);
    if FitsWhileWaiting(s, clock, p, below) {
      var k := |clock| - 2 * |Threads(s)|;
      var a, b := clock[..k], clock[k..];
      assert clock == a + b;
      match Follow(s, a, p) {
        case Executed(_) =>
        case Queued(q) =>
          FitsLater(s, a, b, p, q, below);
          RunConserves(s, a);
          ReachNotOvertaken(Run(s, a), b, q, c);
      }
      RunsAtLast(s, a, b, p);
    }
  }

  /** With waits below 2^63 only, being overdue is enough. */
  lemma StarvationExactShort(s: State, clock: seq<int>, p: nat)
    requires Sorted(s.queue) && p < |s.queue| && s.queue[p].startNs >= 0 && WaitsBelow(Threads(s), TWO_63)
    requires NonDecreasing(clock) && InClockRange(clock) && LongPast(s, clock, s.queue[p].startNs)
    ensures RunsIn(s, clock, p) <==> FitsWhileWaiting(s, clock, p, TWO_64)
  {
    StarvationExact(s, clock, p, 0);
    ShortWaitsAreAll(s, clock, p, GetsPast(s.queue[p].startNs));
  }

  lemma {:induction false} ShortWaitsAreAll(s: State, clock: seq<int>, p: nat, below: int)
    requires p < |s.queue| && WaitsBelow(Threads(s), TWO_63)
    requires below >= TWO_63
    ensures FitsWhileWaiting(s, clock, p, below) <==> FitsWhileWaiting(s, clock, p, TWO_64)
  {
    if clock != [] {
      var k := |clock| - 1;
      ShortWaitsAreAll(s, clock[..k], p, below);
      RunConserves(s, clock[..k]);
      if Run(s, clock[..k]).phase.Requeue? {
        HeldWaitBelow(Run(s, clock[..k]), TWO_63);
      }
    }
  }

  /** The overflow of a wait that is long enough starves nobody: put back at reading 11, the thread is due at
      1, and the other one, due at 0, runs at 12. */
  lemma LongWaitInput()
    ensures var s := Init([WorkDesc(1, 10), OVERLONG], [0, 0], 1_000_000_000);
            && |s.queue| == 2 && !FitsI64(11 + OVERLONG.waitNs)
            && Run(s, [1]).phase == Requeue(OVERLONG)
            && Follow(s, [1, 11], 1) == Queued(0) && Follow(s, [1, 11, 12], 1) == Executed(12)
  {
    var b := WorkDesc(1, 10);
    var s := Init([b, OVERLONG], [0, 0], 1_000_000_000);
    SeededTwo(b, OVERLONG);
    var r := Step(s, 1);
    assert r.phase == Requeue(OVERLONG) && r.queue == [Elem(0, b)];
    RunSnoc(s, [], 1);
    assert [] + [1] == [1];
    OverflowDue(11, OVERLONG.waitNs);
    var t := Step(r, 11);
    assert t.queue[0] == Elem(0, b) && t.phase.AtHead?;
    RunSnoc(s, [1], 11);
    assert [1] + [11] == [1, 11];
    assert [1][..0] == [] && [1, 11][..1] == [1] && [1, 11, 12][..2] == [1, 11];
    assert Follow(s, [1], 1) == Move(s, 1, 1) == Queued(0);
    assert Follow(s, [1, 11], 1) == Move(r, 11, 0) == Queued(0);
    assert Follow(s, [1, 11, 12], 1) == Move(t, 12, 0) == Executed(12);
  }

  // ----------------------------------------------- how long that takes

  /** Reading number i is taken by the loop to see whether work is due, and not to put a
      thread back. */
  ghost predicate Looks(s: State, clock: seq<int>, i: nat)
    requires i < |clock|
  {
    !Run(s, clock[..i]).phase.Requeue?
  }

  /** The clock never runs backwards, and gains at least 1 ns in every iteration of the loop
      and of the sleep inside it. */
  ghost predicate Ticks(s: State, clock: seq<int>) {
    && NonDecreasing(clock)
    && forall i, j :: 0 <= i < j < |clock| && Looks(s, clock, i) && Looks(s, clock, j) ==> clock[i] < clock[j]
  }

  /** Of two readings in a row at least one is a look. */
  lemma LooksSoon(s: State, clock: seq<int>, i: nat)
    requires i + 1 < |clock|
    ensures Looks(s, clock, i) || Looks(s, clock, i + 1)
  {
    assert clock[..i + 1][..i] == clock[..i];
  }

  lemma {:induction false} TicksGain(s: State, clock: seq<int>, k: nat, i: nat)
    requires Ticks(s, clock) && k > 0 && 2 * k - 1 <= i < |clock| && Looks(s, clock, i)
    ensures clock[i] >= clock[0] + k - 1
  {
    if k == 1 {
      assert clock[0] <= clock[i];
    } else {
      LooksSoon(s, clock, 2 * k - 3);
      var j := if Looks(s, clock, 2 * k - 3) then 2 * k - 3 else 2 * k - 2;
      TicksGain(s, clock, k - 1, j);
      assert clock[j] < clock[i];
    }
  }

  function WaitBound(x: int, c0: int): nat {
    if c0 > x then 0 else x - c0 + 2
  }

  lemma NotEarlier(clock: seq<int>, j: nat, i: nat)
    requires NonDecreasing(clock) && j <= i < |clock|
    ensures clock[j] <= clock[i]
  {
  }

  lemma LookNear(s: State, clock: seq<int>, k: nat) returns (j: nat)
    requires k > 0 && 2 * k < |clock|
    ensures 2 * k - 1 <= j <= 2 * k && Looks(s, clock, j)
  {
    LooksSoon(s, clock, 2 * k - 1);
    j := if Looks(s, clock, 2 * k - 1) then 2 * k - 1 else 2 * k;
  }

  lemma PastAt(s: State, clock: seq<int>, x: int, i: nat)
    requires clock != [] && Ticks(s, clock) && 2 * WaitBound(x, clock[0]) <= i < |clock|
    ensures clock[i] > x
  {
    var k := WaitBound(x, clock[0]);
    if k == 0 {
      NotEarlier(clock, 0, i);
    } else {
      var j := LookNear(s, clock, k);
      TicksGain(s, clock, k, j);
      NotEarlier(clock, j, i);
    }
  }

  lemma PastAfterWait(s: State, clock: seq<int>, x: int, m: nat)
    requires clock != [] && Ticks(s, clock) && 2 * WaitBound(x, clock[0]) <= m <= |clock|
    ensures AllPast(clock[m..], x)
  {
    forall n | n in clock[m..] ensures n > x {
      var i :| m <= i < |clock| && clock[i] == n;
      PastAt(s, clock, x, i);
    }
  }

  /** So a queued thread runs within two readings for each nanosecond until it is overdue, and
      two more for each thread of the worker. */
  lemma RunsWithin(s: State, clock: seq<int>, p: nat)
    requires Sorted(s.queue) && p < |s.queue|
    requires clock != [] && Ticks(s, clock) && FitsWhileWaiting(s, clock, p, TWO_64)
    requires |clock| >= 2 * WaitBound(s.queue[p].startNs, clock[0]) + 2 * |Threads(s)|
    ensures RunsIn(s, clock, p)
  {
    PastAfterWait(s, clock, s.queue[p].startNs, |clock| - 2 * |Threads(s)|);
    NoStarvation(s, clock, p);
  }

  // ------------------------------------------------------------------ spacing

  lemma PutBackPlace(s: State, n: int)
    requires s.phase.Requeue? && FitsI64(n + s.phase.wd.waitNs)
    ensures var due := n + s.phase.wd.waitNs;
            && Slot(s.queue, due) < |Step(s, n).queue|
            && Step(s, n).queue[Slot(s.queue, due)] == Elem(due, s.phase.wd)
  {
    DueExact(n, s.phase.wd.waitNs);
  }

  lemma TakenOff(s: State, n: int)
    requires !s.phase.Requeue? && s.queue != [] && s.queue[0].startNs <= n
    ensures Move(s, n, 0) == Executed(n)
    ensures Step(s, n).phase == Requeue(s.queue[0].wd)
  {
  }

  lemma NextRun(r: State, n: int, clock: seq<int>)
    requires r.phase.Requeue? && FitsI64(n + r.phase.wd.waitNs)
    ensures var t, due := Step(r, n), n + r.phase.wd.waitNs;
            var p := Slot(r.queue, due);
            && p < |t.queue| && t.queue[p] == Elem(due, r.phase.wd)
            && (Follow(t, clock, p).Executed? ==> RunsIn(t, clock, p) && Follow(t, clock, p).at >= due)
  {
    var p := Slot(r.queue, n + r.phase.wd.waitNs);
    PutBackPlace(r, n);
    if Follow(Step(r, n), clock, p).Executed? {
      ExecutedIsLogged(Step(r, n), clock, p);
    }
  }

  /** A thread executed at reading n0 and put back at n1 is next executed its wait or more
      after n1, and so after n0. */
  lemma RunsAgainAfterItsWait(s: State, n0: int, n1: int, clock: seq<int>)
    requires !s.phase.Requeue? && s.queue != [] && s.queue[0].startNs <= n0 <= n1
    requires FitsI64(n1 + s.queue[0].wd.waitNs)
    ensures var wd, t := s.queue[0].wd, Step(Step(s, n0), n1);
            var p := Slot(Step(s, n0).queue, n1 + wd.waitNs);
            && Move(s, n0, 0) == Executed(n0)
            && p < |t.queue| && t.queue[p] == Elem(n1 + wd.waitNs, wd)
            && var again := Follow(t, clock, p);
               again.Executed? ==> RunsIn(t, clock, p) && again.at >= n1 + wd.waitNs >= n0 + wd.waitNs
  {
    TakenOff(s, n0);
    NextRun(Step(s, n0), n1, clock);
  }
}
