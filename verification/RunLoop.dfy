/** The controller's loops as they are written: building the worker list, one run, and
    the runs of a plan. (controller/run.go, NewWorkerList, BenchmarkRun.Run, BenchmarkPlan.Run) */
module RunLoop {
  import opened Benchmark
  import opened Sender
  import opened RunProtocol

  // ------------------------------------------------------------- worker list

  /** WorkerProcess = 0 and WorkerXen = 1; any other type is an error, noticed when the
      first worker is made. */
  method NewWorkerList(counts: seq<int>, workerType: int) returns (wl: map<WorkerId, Worker>, ok: bool)
    ensures ok ==> forall id :: id in wl <==> InRange(counts, id)
    ensures ok ==> forall id :: id in wl ==> wl[id].id == id && !wl[id].jsonStarted && wl[id].Log == [] && fresh(wl[id])
    ensures ok <==> workerType == 0 || workerType == 1 || forall id :: !InRange(counts, id)
    ensures ok ==> forall id :: id in wl ==> wl[id].kind == if workerType == 0 then ProcessKind else XenKind
  {
    wl := map[];
    for set_ := 0 to |counts|
      invariant forall id :: id in wl <==> InRange(counts, id) && id.Set < set_
      invariant forall id :: id in wl ==> Made(wl[id], id, workerType) && fresh(wl[id])
      invariant wl == map[] || workerType == 0 || workerType == 1
    {
      var i := 0;
      while i < counts[set_]
        invariant i >= 0 && (i > 0 ==> i <= counts[set_])
        invariant forall id :: id in wl <==> InRange(counts, id) && (id.Set < set_ || (id.Set == set_ && id.Id < i))
        invariant forall id :: id in wl ==> Made(wl[id], id, workerType) && fresh(wl[id])
        invariant wl == map[] || workerType == 0 || workerType == 1
        decreases counts[set_] - i
      {
        var id := WorkerId(set_, i);
        assert id !in wl;
        if workerType != 0 && workerType != 1 {
          assert InRange(counts, id);
          return wl, false;
        }
        var w := new Worker(if workerType == 0 then ProcessKind else XenKind, id);
        wl := wl[id := w];
        i := i + 1;
      }
    }
    ok := true;
  }

  ghost predicate Made(w: Worker, id: WorkerId, workerType: int)
    reads w
  {
    && w.id == id && !w.jsonStarted && w.Log == []
    && w.kind == if workerType == 0 then ProcessKind else XenKind
  }

  // ----------------------------------------------------------------- one run

  class BenchmarkRun {
    var Completed: bool
    var Raw: seq<WorkerReport>
    var RuntimeSeconds: int

    /** The select loop with `started` goroutines. It returns when the messages let it;
        `returned` is false if it is still waiting after all of them. */
    method Run(started: nat, msgs: seq<Msg>) returns (err: Option<Error>, returned: bool, stops: nat)
      requires !Completed
      modifies `Completed, `Raw
      ensures var c := Collect(Fresh(started, old(Raw)), msgs, RuntimeSeconds);
              && Raw == c.raw && Completed == c.completed
              && err == c.err && stops == c.stops && returned == Returned(c)
    {
      var i, stopped := started, false;
      err, stops := None, 0;
      var t := 0;
      ghost var c0 := Fresh(started, Raw);
      ghost var c := c0;
      while i > 0 && t < |msgs|
        invariant t <= |msgs|
        invariant c == Collect(c0, msgs[..t], RuntimeSeconds)
        invariant c == Ctl(i, stopped, err, Completed, Raw, stops, false)
        decreases |msgs| - t
      {
        var m := msgs[t];
        CollectNext(c0, msgs, t, RuntimeSeconds);
        c := Receive(c, m, RuntimeSeconds);
        t := t + 1;
        match m {
          case Reported(r) =>
            if !stopped {
              Raw := Raw + [r];
            }
          case Done(id) =>
            if !stopped {
              stops, stopped := stops + 1, true;
              err := Some(ExitedEarly(id));
            }
            i := i - 1;
          case Timeout =>
            if !stopped {
              stops, stopped := stops + 1, true;
              Completed := true;
            }
          case Signal =>
            if !stopped {
              stops, stopped := stops + 1, true;
              if RuntimeSeconds == 0 {
                Completed := true;
              }
              err := Some(Interrupted);
            } else {
              CollectStays(c0, msgs, t, RuntimeSeconds);
              return err, true, stops;
            }
        }
      }
      if i == 0 {
        CollectStays(c0, msgs, t, RuntimeSeconds);
      } else {
        assert msgs[..t] == msgs;
      }
      returned := i == 0;
    }
  }

  lemma CollectNext(c: Ctl, msgs: seq<Msg>, t: nat, runtimeSeconds: int)
    requires t < |msgs| && !Returned(Collect(c, msgs[..t], runtimeSeconds))
    ensures Collect(c, msgs[..t + 1], runtimeSeconds) ==
            Receive(Collect(c, msgs[..t], runtimeSeconds), msgs[t], runtimeSeconds)
  {
    CollectSnoc(c, msgs[..t], msgs[t], runtimeSeconds);
    assert msgs[..t + 1] == msgs[..t] + [msgs[t]];
  }

  /** A loop that has returned is not changed by messages that come later. */
  lemma {:induction false} CollectStays(c: Ctl, msgs: seq<Msg>, t: nat, runtimeSeconds: int)
    requires t <= |msgs| && Returned(Collect(c, msgs[..t], runtimeSeconds))
    ensures Collect(c, msgs, runtimeSeconds) == Collect(c, msgs[..t], runtimeSeconds)
  {
    if t < |msgs| {
      var k := |msgs| - 1;
      assert msgs[..k][..t] == msgs[..t];
      CollectStays(c, msgs[..k], t, runtimeSeconds);
    } else {
      assert msgs[..t] == msgs;
    }
  }
}
