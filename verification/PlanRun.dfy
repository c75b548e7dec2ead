/** Running a plan: which results reach the plan file, and why an interrupted plan can be
    taken up again. (controller/run.go, BenchmarkPlan.Run) */
module PlanRun {
  import opened Benchmark
  import opened RunProtocol
  import opened RunLoop

  /** What a run holds between sessions. */
  datatype Record = Record(completed: bool, raw: seq<WorkerReport>, runtimeSeconds: int)

  /** What the world does when run number i is reached: whether Prep finds it ready, whether
      Run fails before its loop, how many workers it starts, the messages it receives, whether
      Save succeeds, and if it does not or is interrupted, whether the plan that can still be
      read is the new one. */
  datatype Attempt = Attempt(
    ready: bool, setupFails: bool, started: nat, msgs: seq<Msg>, saveOk: bool, newReadable: bool)

  datatype Stop = SetupError | RunError(err: Error) | StillRunning | SaveError

  /** The plan in memory, all plans handed to Save, the complete plan that the plan file or its
      backup then holds, and why the loop ended early, if it did. */
  datatype Progress = Progress(
    runs: seq<Record>, saved: seq<seq<Record>>, disk: seq<Record>, stop: Option<Stop>)

  /** The record after the attempt, and the reason to stop if there is one. */
  function AttemptRun(r: Record, a: Attempt): (Record, Option<Stop>) {
    if r.completed || !a.ready then (r, None)
    else if a.setupFails then (r, Some(SetupError))
    else
      var c := Collect(Fresh(a.started, r.raw), a.msgs, r.runtimeSeconds);
      var r' := r.(completed := c.completed, raw := c.raw);
      if !Returned(c) then (r', Some(StillRunning))
      else if c.err.Some? then (r', Some(RunError(c.err.value)))
      else (r', None)
  }

  /** One iteration of the loop over plan.Runs. */
  function Iteration(p: Progress, i: nat, a: Attempt): Progress
    requires i < |p.runs|
  {
    var (r, stop) := AttemptRun(p.runs[i], a);
    var runs := p.runs[i := r];
    if stop.Some? then p.(runs := runs, stop := stop)
    else if !r.completed then p.(runs := runs)
    else p.(runs := runs, saved := p.saved + [runs],
            disk := if a.saveOk || a.newReadable then runs else p.disk,
            stop := if a.saveOk then None else Some(SaveError))
  }

  /** The loop up to and excluding run k. */
  function Session(runs: seq<Record>, attempts: seq<Attempt>, k: nat): (p: Progress)
    requires k <= |runs| == |attempts|
    ensures |p.runs| == |runs|
  {
    if k == 0 then Progress(runs, [], runs, None)
    else
      var p := Session(runs, attempts, k - 1);
      if p.stop.Some? then p else Iteration(p, k - 1, attempts[k - 1])
  }

  // ------------------------------------------------- what the loop has done

  /** The select loop has returned on these messages. */
  ghost predicate Ended(r: Record, a: Attempt) {
    Returned(Collect(Fresh(a.started, r.raw), a.msgs, r.runtimeSeconds))
  }

  /** What reaching a run makes of it, and the reason to stop before it is saved. */
  ghost predicate Outcome(before: Record, after: Record, a: Attempt, stop: Option<Stop>) {
    if before.completed || !a.ready then after == before && stop == None
    else if a.setupFails then after == before && stop == Some(SetupError)
    else if a.started == 0 then after == before && stop == None
    else
      && after.raw == before.raw + Kept(a.msgs) && after.runtimeSeconds == before.runtimeSeconds
      && (after.completed <==> FirstStop(a.msgs) == Some(Timeout) ||
                               (FirstStop(a.msgs) == Some(Signal) && before.runtimeSeconds == 0))
      && (stop == Some(StillRunning) <==> !Ended(before, a))
      && (stop == None <==> Ended(before, a) && FirstStop(a.msgs) == Some(Timeout))
      && (stop == Some(RunError(Interrupted)) <==> Ended(before, a) && FirstStop(a.msgs) == Some(Signal))
      && forall id :: stop == Some(RunError(ExitedEarly(id))) <==>
                      Ended(before, a) && FirstStop(a.msgs) == Some(Done(id))
  }

  lemma AttemptOutcome(r: Record, a: Attempt)
    ensures Outcome(r, AttemptRun(r, a).0, a, AttemptRun(r, a).1)
  {
    if !r.completed && a.ready && !a.setupFails {
      if a.started == 0 {
        NoWorkersNoResult(r.raw, a.msgs, r.runtimeSeconds);
      } else {
        CollectMeaning(a.started, r.raw, a.msgs, r.runtimeSeconds);
      }
    }
  }

  /** The plans to be saved after n runs: each as it was when run i had just been dealt with, for
      every run i that is completed. */
  function Snapshots(before: seq<Record>, after: seq<Record>, n: nat): seq<seq<Record>>
    requires n <= |before| == |after|
  {
    if n == 0 then []
    else if after[n - 1].completed then Snapshots(before, after, n - 1) + [after[..n] + before[n..]]
    else Snapshots(before, after, n - 1)
  }

  /** The loop has reached n runs, and goes on, or stops at the last of them. `why` is a reason
      that comes before saving. */
  ghost predicate Ran(before: seq<Record>, attempts: seq<Attempt>, n: nat, after: seq<Record>,
                      saved: seq<seq<Record>>, stop: Option<Stop>, why: Option<Stop>)
    requires n <= |before| == |attempts| == |after|
  {
    && (forall i :: 0 <= i < n - 1 ==> Outcome(before[i], after[i], attempts[i], None))
    && (forall i :: 0 <= i < n - 1 && after[i].completed ==> attempts[i].saveOk)
    && (n > 0 ==> Outcome(before[n - 1], after[n - 1], attempts[n - 1], why))
    && after[n..] == before[n..]
    // every completed run is saved, unless the loop stops before that
    && saved == Snapshots(before, after, if n > 0 && why.Some? then n - 1 else n)
    && stop == (if why.Some? then why
                else if n > 0 && after[n - 1].completed && !attempts[n - 1].saveOk then Some(SaveError)
                else None)
  }

  /** What can then be read: the plan saved last, or else the one saved before, or the old one. */
  function Readable(before: seq<Record>, saved: seq<seq<Record>>, lastLost: bool): seq<Record> {
    var n := if lastLost && saved != [] then |saved| - 1 else |saved|;
    if n == 0 then before else saved[n - 1]
  }

  ghost predicate Somehow(before: seq<Record>, attempts: seq<Attempt>, n: nat, after: seq<Record>,
                          saved: seq<seq<Record>>, stop: Option<Stop>)
    requires n <= |before| == |attempts| == |after|
  {
    exists why :: (n == 0 ==> why == None) && Ran(before, attempts, n, after, saved, stop, why)
  }

  ghost predicate RanTo(before: seq<Record>, attempts: seq<Attempt>, n: nat, p: Progress) {
    && n <= |before| == |attempts| == |p.runs|
    && Somehow(before, attempts, n, p.runs, p.saved, p.stop)
    && p.disk == Readable(before, p.saved, p.stop == Some(SaveError) && !attempts[n - 1].newReadable)
  }

  lemma {:induction false} SnapshotsPrefix(before: seq<Record>, a: seq<Record>, b: seq<Record>, n: nat)
    requires n <= |before| == |a| == |b| && a[..n] == b[..n]
    ensures Snapshots(before, a, n) == Snapshots(before, b, n)
  {
    if n > 0 {
      assert a[..n][..n - 1] == a[..n - 1] && b[..n][..n - 1] == b[..n - 1];
      assert a[n - 1] == a[..n][n - 1] == b[n - 1];
      SnapshotsPrefix(before, a, b, n - 1);
    }
  }

  lemma OneMoreSnapshot(before: seq<Record>, runs: seq<Record>, n: nat, r: Record)
    requires n < |before| == |runs| && runs[n..] == before[n..]
    ensures var next := runs[n := r];
            && next[n + 1..] == before[n + 1..] && next[..n] == runs[..n]
            && Snapshots(before, next, n) == Snapshots(before, runs, n)
            && Snapshots(before, next, n + 1) == Snapshots(before, runs, n) + if r.completed then [next] else []
  {
    var next := runs[n := r];
    assert runs[n..][1..] == runs[n + 1..] && before[n..][1..] == before[n + 1..];
    assert next[..n + 1] + before[n + 1..] == next;
    SnapshotsPrefix(before, runs, next, n);
  }

  lemma RanNext(before: seq<Record>, attempts: seq<Attempt>, n: nat, runs: seq<Record>, saved: seq<seq<Record>>,
                r: Record, why: Option<Stop>, saved': seq<seq<Record>>, stop: Option<Stop>)
    requires n < |before| == |attempts| == |runs| && Ran(before, attempts, n, runs, saved, None, None)
    requires Outcome(before[n], r, attempts[n], why)
    requires saved' == if why.None? && r.completed then saved + [runs[n := r]] else saved
    requires stop == if why.Some? then why
                     else if r.completed && !attempts[n].saveOk then Some(SaveError)
                     else None
    ensures Ran(before, attempts, n + 1, runs[n := r], saved', stop, why)
  {
    OneMoreSnapshot(before, runs, n, r);
  }

  lemma IterationRan(before: seq<Record>, attempts: seq<Attempt>, n: nat, p: Progress)
    requires RanTo(before, attempts, n, p) && n < |before| && p.stop == None
    ensures RanTo(before, attempts, n + 1, Iteration(p, n, attempts[n]))
  {
    var (r, stop) := AttemptRun(p.runs[n], attempts[n]);
    var t := Iteration(p, n, attempts[n]);
    assert p.runs[n] == p.runs[n..][0] == before[n..][0] == before[n];
    AttemptOutcome(before[n], attempts[n]);
    RanNext(before, attempts, n, p.runs, p.saved, r, stop, t.saved, t.stop);
  }

  /** The session, told by what has become of every run, what was saved, and what can be read. */
  lemma {:induction false} SessionRan(before: seq<Record>, attempts: seq<Attempt>, n: nat)
    requires n <= |before| == |attempts| && (n > 0 ==> Session(before, attempts, n - 1).stop == None)
    ensures RanTo(before, attempts, n, Session(before, attempts, n))
  {
    if n == 0 {
      assert Ran(before, attempts, 0, before, [], None, None);
    } else {
      SessionGoesOn(before, attempts, n - 1);
      SessionRan(before, attempts, n - 1);
      IterationRan(before, attempts, n - 1, Session(before, attempts, n - 1));
    }
  }

  /** A completed run that the loop got to, and did not stop at before saving, is in a plan that was
      saved, just as it then was. */
  lemma {:induction false} CompletedIsSaved(before: seq<Record>, after: seq<Record>, n: nat, i: nat)
    requires i < n <= |before| == |after| && after[i].completed
    ensures (after[..i + 1] + before[i + 1..]) in Snapshots(before, after, n)
  {
    if i < n - 1 {
      CompletedIsSaved(before, after, n - 1, i);
    }
  }

  lemma UncompletedUnchanged(before: Record, after: Record, a: Attempt)
    requires Outcome(before, after, a, None) && !after.completed
    ensures after == before
  {
  }

  lemma {:induction false} LastSnapshot(before: seq<Record>, after: seq<Record>, n: nat)
    requires n <= |before| == |after|
    requires forall i :: 0 <= i < n && !after[i].completed ==> after[i] == before[i]
    ensures Readable(before, Snapshots(before, after, n), false) == after[..n] + before[n..]
  {
    if n > 0 && !after[n - 1].completed {
      LastSnapshot(before, after, n - 1);
      assert after[..n - 1] + before[n - 1..] == after[..n] + before[n..];
    }
  }

  lemma RanThroughIsReadable(before: seq<Record>, attempts: seq<Attempt>, n: nat, p: Progress)
    requires n == |before| && RanTo(before, attempts, n, p) && p.stop == None
    ensures p.disk == p.runs
  {
    var why :| (n == 0 ==> why == None) && Ran(before, attempts, n, p.runs, p.saved, None, why);
    forall i | 0 <= i < n && !p.runs[i].completed ensures p.runs[i] == before[i] {
      UncompletedUnchanged(before[i], p.runs[i], attempts[i]);
    }
    LastSnapshot(before, p.runs, n);
    assert p.runs[..n] + before[n..] == p.runs;
  }

  /** If the loop gets through all runs, the plan that can be read is the one in memory. */
  lemma FinishedIsReadable(before: seq<Record>, attempts: seq<Attempt>, n: nat, p: Progress)
    requires n == |before| == |attempts| && p == Session(before, attempts, n) && p.stop == None
    ensures p.disk == p.runs
  {
    SessionGoesOn(before, attempts, n);
    SessionRan(before, attempts, n);
    RanThroughIsReadable(before, attempts, n, p);
  }

  lemma SessionGoesOn(before: seq<Record>, attempts: seq<Attempt>, n: nat)
    requires n <= |before| == |attempts| && Session(before, attempts, n).stop == None
    ensures n > 0 ==> Session(before, attempts, n - 1).stop == None
  {
  }

  // --------------------------------------------------------------- resuming

  ghost predicate Clean(r: Record) {
    r.raw != [] ==> r.completed
  }

  /** A plan that can be taken up: no run holds results of an attempt that did not complete. */
  ghost predicate Resumable(runs: seq<Record>) {
    forall i :: 0 <= i < |runs| ==> Clean(runs[i])
  }

  /** A record that follows from another by one session: unchanged, or completed by exactly
      one attempt that ended with the timeout, holding the reports of that attempt only. */
  ghost predicate Follows(before: Record, after: Record, a: Attempt) {
    || after == before
    || (&& !before.completed && after.completed
        && a.ready && !a.setupFails && a.started > 0
        && FirstStop(a.msgs) == Some(Timeout)
        && after.raw == Kept(a.msgs))
  }

  ghost predicate AllFollow(before: seq<Record>, after: seq<Record>, attempts: seq<Attempt>) {
    && |after| == |before| == |attempts|
    && forall i :: 0 <= i < |before| ==> Follows(before[i], after[i], attempts[i])
  }

  lemma AttemptFollows(r: Record, a: Attempt)
    requires Clean(r)
    ensures var (r', stop) := AttemptRun(r, a);
            stop == None ==> Clean(r') && Follows(r, r', a)
  {
    if !r.completed && a.ready && !a.setupFails {
      if a.started == 0 {
        NoWorkersNoResult(r.raw, a.msgs, r.runtimeSeconds);
      } else {
        CollectMeaning(a.started, r.raw, a.msgs, r.runtimeSeconds);
        ReturnMeaning(a.started, r.raw, a.msgs, r.runtimeSeconds);
      }
    }
  }

  lemma FollowsOnlyHere(before: seq<Record>, runs: seq<Record>, i: nat, r: Record, attempts: seq<Attempt>)
    requires AllFollow(before, runs, attempts) && Resumable(runs) && i < |runs|
    requires Follows(before[i], r, attempts[i]) && Clean(r)
    ensures AllFollow(before, runs[i := r], attempts) && Resumable(runs[i := r])
  {
  }

  /** Everything handed to Save, and the plan file throughout, is a resumable plan in which
      completed runs are as they were and new results are those of a single attempt. */
  ghost predicate Sound(before: seq<Record>, attempts: seq<Attempt>, p: Progress) {
    && (forall i :: 0 <= i < |p.saved| ==> Resumable(p.saved[i]) && AllFollow(before, p.saved[i], attempts))
    && Resumable(p.disk) && AllFollow(before, p.disk, attempts)
    && (p.stop == None ==> Resumable(p.runs) && AllFollow(before, p.runs, attempts))
  }

  lemma IterationSound(before: seq<Record>, attempts: seq<Attempt>, p: Progress, k: nat)
    requires Sound(before, attempts, p) && p.stop == None && k < |p.runs| && p.runs[k] == before[k]
    ensures Sound(before, attempts, Iteration(p, k, attempts[k]))
  {
    AttemptFollows(p.runs[k], attempts[k]);
    var (r, stop) := AttemptRun(p.runs[k], attempts[k]);
    if stop == None {
      FollowsOnlyHere(before, p.runs, k, r, attempts);
    }
  }

  lemma {:induction false} LaterRunsUntouched(runs: seq<Record>, attempts: seq<Attempt>, k: nat)
    requires k <= |runs| == |attempts|
    ensures forall i :: k <= i < |runs| ==> Session(runs, attempts, k).runs[i] == runs[i]
  {
    if k > 0 {
      LaterRunsUntouched(runs, attempts, k - 1);
    }
  }

  lemma {:induction false} SessionSound(runs: seq<Record>, attempts: seq<Attempt>, k: nat)
    requires k <= |runs| == |attempts| && Resumable(runs)
    ensures Sound(runs, attempts, Session(runs, attempts, k))
  {
    if k == 0 {
      assert AllFollow(runs, runs, attempts);
    } else {
      SessionSound(runs, attempts, k - 1);
      LaterRunsUntouched(runs, attempts, k - 1);
      var p := Session(runs, attempts, k - 1);
      if p.stop == None {
        IterationSound(runs, attempts, p, k - 1);
      }
    }
  }

  /** Any number of sessions, each loading what the one before left in the plan file. */
  function Sessions(disk: seq<Record>, sessions: seq<seq<Attempt>>): seq<Record>
    requires forall i :: 0 <= i < |sessions| ==> |sessions[i]| == |disk|
    ensures |Sessions(disk, sessions)| == |disk|
  {
    if sessions == [] then disk
    else
      var k := |sessions| - 1;
      var before := Sessions(disk, sessions[..k]);
      var p := Session(before, sessions[k], |before|);
      DiskLength(before, sessions[k], |before|);
      p.disk
  }

  lemma {:induction false} DiskLength(runs: seq<Record>, attempts: seq<Attempt>, k: nat)
    requires k <= |runs| == |attempts|
    ensures |Session(runs, attempts, k).disk| == |runs|
  {
    if k > 0 {
      DiskLength(runs, attempts, k - 1);
    }
  }

  /** Over any number of interrupted sessions the plan file stays resumable, and a run once
      completed keeps its results for ever. */
  lemma {:induction false} ResumedForEver(disk: seq<Record>, sessions: seq<seq<Attempt>>)
    requires forall i :: 0 <= i < |sessions| ==> |sessions[i]| == |disk|
    requires Resumable(disk)
    ensures var last := Sessions(disk, sessions);
            && Resumable(last)
            && forall i :: 0 <= i < |disk| && disk[i].completed ==> last[i] == disk[i]
  {
    if sessions != [] {
      var k := |sessions| - 1;
      ResumedForEver(disk, sessions[..k]);
      var before := Sessions(disk, sessions[..k]);
      SessionSound(before, sessions[k], |before|);
      DiskLength(before, sessions[k], |before|);
      forall i | 0 <= i < |disk| && disk[i].completed
        ensures Session(before, sessions[k], |before|).disk[i] == disk[i]
      {
        assert Follows(before[i], Session(before, sessions[k], |before|).disk[i], sessions[k][i]);
      }
    }
  }

  // ------------------------------------------------------- the loop as written

  ghost function RecordOf(run: BenchmarkRun): Record
    reads run
  {
    Record(run.Completed, run.Raw, run.RuntimeSeconds)
  }

  ghost function Snapshot(runs: seq<BenchmarkRun>): (rs: seq<Record>)
    reads runs
    ensures |rs| == |runs|
    ensures forall i :: 0 <= i < |runs| ==> rs[i] == RecordOf(runs[i])
  {
    seq(|runs|, i requires 0 <= i < |runs| reads runs => RecordOf(runs[i]))
  }

  class BenchmarkPlan {
    var Runs: seq<BenchmarkRun>
    ghost var saved: seq<seq<Record>>  // every plan handed to Save

    ghost predicate Valid()
      reads this
    {
      forall i, j :: 0 <= i < j < |Runs| ==> Runs[i] != Runs[j]
    }

    ghost predicate At(p: Progress)
      reads this, Runs
    {
      Snapshot(Runs) == p.runs && saved == p.saved
    }

    /** The part of the loop body that may run the benchmark. */
    method Try(i: nat, a: Attempt) returns (stop: Option<Stop>)
      requires Valid() && i < |Runs|
      modifies Runs[i]
      ensures var (r, why) := AttemptRun(old(Snapshot(Runs))[i], a);
              Snapshot(Runs) == old(Snapshot(Runs))[i := r] && stop == why
    {
      var r := Runs[i];
      stop := None;
      if !r.Completed && a.ready {
        if a.setupFails {
          stop := Some(SetupError);
        } else {
          var err, returned, _ := r.Run(a.started, a.msgs);
          stop := if !returned then Some(StillRunning)
                  else if err.Some? then Some(RunError(err.value))
                  else None;
        }
      }
      assert Snapshot(Runs)[i] == AttemptRun(old(Snapshot(Runs))[i], a).0;
    }

    /** The body of the loop for run i; `stop` says why plan.Run returns, if it does. */
    method RunOne(i: nat, a: Attempt, ghost before: Progress) returns (stop: Option<Stop>)
      requires Valid() && i < |Runs|
      requires At(before) && before.stop == None
      modifies Runs[i], `saved
      ensures Valid()
      ensures At(Iteration(before, i, a)) && stop == Iteration(before, i, a).stop
    {
      stop := Try(i, a);
      if stop.None? && Runs[i].Completed {
        saved := saved + [Snapshot(Runs)];
        stop := if a.saveOk then None else Some(SaveError);
      }
    }

    /** Where the session stands before run k. */
    ghost predicate Reached(runs0: seq<Record>, attempts: seq<Attempt>, k: nat, stop: Option<Stop>)
      requires k <= |runs0| == |attempts|
      reads this, Runs
    {
      var p := Session(runs0, attempts, k);
      At(p) && stop == p.stop
    }

    /** One more iteration of the loop. */
    method Next(i: nat, attempts: seq<Attempt>, ghost runs0: seq<Record>) returns (stop: Option<Stop>)
      requires Valid() && i < |Runs| == |runs0| == |attempts| && Reached(runs0, attempts, i, None)
      modifies Runs[i], `saved
      ensures Valid() && Reached(runs0, attempts, i + 1, stop)
    {
      SessionNext(runs0, attempts, i);
      stop := RunOne(i, attempts[i], Session(runs0, attempts, i));
    }

    /** plan.Run from the first run on; `reached` is the number of runs it got to. */
    method Run(attempts: seq<Attempt>) returns (stop: Option<Stop>, reached: nat)
      requires Valid() && |attempts| == |Runs| && saved == []
      modifies Runs, `saved
      ensures Valid() && Runs == old(Runs)
      ensures reached <= |Runs| && (stop == None ==> reached == |Runs|)
      ensures Reached(old(Snapshot(Runs)), attempts, reached, stop)
      ensures Somehow(old(Snapshot(Runs)), attempts, reached, Snapshot(Runs), saved, stop)
    {
      ghost var runs0 := Snapshot(Runs);
      stop, reached := None, 0;
      while reached < |Runs| && stop.None?
        invariant Valid() && Runs == old(Runs) && reached <= |Runs|
        invariant Reached(runs0, attempts, reached, stop)
        invariant reached > 0 ==> Session(runs0, attempts, reached - 1).stop == None
        decreases |Runs| - reached
      {
        stop := Next(reached, attempts, runs0);
        reached := reached + 1;
      }
      SessionRan(runs0, attempts, reached);
    }
  }

  lemma SessionNext(runs: seq<Record>, attempts: seq<Attempt>, k: nat)
    requires k < |runs| == |attempts| && Session(runs, attempts, k).stop == None
    ensures Session(runs, attempts, k + 1) == Iteration(Session(runs, attempts, k), k, attempts[k])
  {
  }
}
