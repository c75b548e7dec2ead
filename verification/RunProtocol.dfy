/** One benchmark run: the select loop of the controller against any number of worker
    goroutines, under every interleaving. (controller/run.go, BenchmarkRun.Run) */
module RunProtocol {
  import opened Benchmark
  import opened Sender

  // -------------------------------------------------------------- controller

  datatype Error = ExitedEarly(id: WorkerId) | Interrupted

  datatype Msg = Reported(r: WorkerReport) | Done(id: WorkerId) | Timeout | Signal

  /** The variables of the select loop; `aborted` is the return on a signal after the stop,
      `stops` counts the calls of Workers.Stop. */
  datatype Ctl = Ctl(
    i: nat,
    stopped: bool,
    err: Option<Error>,
    completed: bool,
    raw: seq<WorkerReport>,
    stops: nat,
    aborted: bool)

  predicate Returned(c: Ctl) {
    c.aborted || c.i == 0
  }

  /** One case of the select. */
  function Receive(c: Ctl, m: Msg, runtimeSeconds: int): Ctl
    requires c.i > 0
  {
    match m
    case Reported(r) => if c.stopped then c else c.(raw := c.raw + [r])
    case Done(id) =>
      var d := if c.stopped then c else c.(stopped := true, stops := c.stops + 1, err := Some(ExitedEarly(id)));
      d.(i := c.i - 1)
    case Timeout =>
      if c.stopped then c else c.(stopped := true, stops := c.stops + 1, completed := true)
    case Signal =>
      if c.stopped then c.(aborted := true)
      else c.(stopped := true, stops := c.stops + 1, err := Some(Interrupted),
              completed := c.completed || runtimeSeconds == 0)
  }

  /** The loop over a sequence of messages; it takes no more once it has returned. */
  function Collect(c: Ctl, msgs: seq<Msg>, runtimeSeconds: int): Ctl {
    if msgs == [] then c
    else
      var k := |msgs| - 1;
      var d := Collect(c, msgs[..k], runtimeSeconds);
      if Returned(d) then d else Receive(d, msgs[k], runtimeSeconds)
  }

  function Fresh(started: nat, raw: seq<WorkerReport>): Ctl {
    Ctl(started, false, None, false, raw, 0, false)
  }

  /** The first message that stops the run. */
  function FirstStop(msgs: seq<Msg>): Option<Msg> {
    if msgs == [] then None
    else
      var k := |msgs| - 1;
      if FirstStop(msgs[..k]).Some? then FirstStop(msgs[..k])
      else if msgs[k].Reported? then None
      else Some(msgs[k])
  }

  /** The reports received before anything stopped the run. */
  function Kept(msgs: seq<Msg>): (rs: seq<WorkerReport>)
    ensures forall r :: r in rs ==> Reported(r) in msgs
  {
    if msgs == [] then []
    else
      var k := |msgs| - 1;
      if msgs[k].Reported? && FirstStop(msgs[..k]).None? then Kept(msgs[..k]) + [msgs[k].r] else Kept(msgs[..k])
  }

  /** The state of the controller is fixed by how the run was first stopped. */
  lemma {:induction false} CollectMeaning(started: nat, raw: seq<WorkerReport>, msgs: seq<Msg>, runtimeSeconds: int)
    requires started > 0
    ensures var c := Collect(Fresh(started, raw), msgs, runtimeSeconds);
            && c.raw == raw + Kept(msgs)
            && (c.stopped <==> FirstStop(msgs).Some?)
            && c.stops == (if c.stopped then 1 else 0)
            && (Returned(c) ==> c.stopped)
            && match FirstStop(msgs) {
                 case None => c.err == None && !c.completed && c.i == started
                 case Some(Timeout) => c.err == None && c.completed
                 case Some(Signal) => c.err == Some(Interrupted) && (c.completed <==> runtimeSeconds == 0)
                 case Some(Done(id)) => c.err == Some(ExitedEarly(id)) && !c.completed
                 case Some(Reported(_)) => false
               }
  {
    if msgs != [] {
      CollectMeaning(started, raw, msgs[..|msgs| - 1], runtimeSeconds);
    }
  }

  /** Once the loop has returned: it reports success exactly when the timeout came first,
      and it never returns quietly without having completed. */
  lemma ReturnMeaning(started: nat, raw: seq<WorkerReport>, msgs: seq<Msg>, runtimeSeconds: int)
    requires started > 0
    ensures var c := Collect(Fresh(started, raw), msgs, runtimeSeconds);
            Returned(c) ==>
              && (c.completed && c.err == None <==> FirstStop(msgs) == Some(Timeout))
              && (c.completed || c.err != None)
  {
    CollectMeaning(started, raw, msgs, runtimeSeconds);
  }

  /** With no worker to start the loop returns at once: no error, and not completed. */
  lemma NoWorkersNoResult(raw: seq<WorkerReport>, msgs: seq<Msg>, runtimeSeconds: int)
    ensures Collect(Fresh(0, raw), msgs, runtimeSeconds) == Fresh(0, raw)
  {
  }

  /** Whatever is received after the stop, the results stay as they are. */
  lemma {:induction false} RawFrozen(c: Ctl, msgs: seq<Msg>, runtimeSeconds: int)
    requires c.stopped
    ensures var d := Collect(c, msgs, runtimeSeconds);
            d.stopped && d.raw == c.raw && d.stops == c.stops && d.completed == c.completed && d.err == c.err
  {
    if msgs != [] {
      RawFrozen(c, msgs[..|msgs| - 1], runtimeSeconds);
    }
  }

  // ------------------------------------------------------------------ system

  /** Where a goroutine is. One that cannot unpause its domain is Lost: it never sends done. */
  datatype Phase = Starting | Scanning | Sending(r: WorkerReport) | AtEof | Exited | Lost

  datatype Local = Local(phase: Phase, log: seq<string>, delivered: seq<WorkerReport>)

  datatype Sys = Sys(ctl: Ctl, armed: bool, ws: map<WorkerId, Local>)

  datatype Event =
    | Unpause(id: WorkerId, ok: bool)
    | Line(id: WorkerId, s: string)
    | Eof(id: WorkerId)
    | Recv(m: Msg)

  datatype Config = Config(kind: Kind, decode: Decoder, runtimeSeconds: int)

  /** Channels are unbuffered: a message is received only from a goroutine that is sending it.
      The timer delivers once; signals may come at any time. */
  predicate Enabled(s: Sys, e: Event, cf: Config) {
    match e
    case Unpause(id, ok) => id in s.ws && s.ws[id].phase == Starting && (ok || cf.kind == XenKind)
    case Line(id, _) => id in s.ws && s.ws[id].phase == Scanning
    case Eof(id) => id in s.ws && s.ws[id].phase == Scanning
    case Recv(m) =>
      && !Returned(s.ctl)
      && match m {
           case Reported(r) => r.Id in s.ws && s.ws[r.Id].phase == Sending(r)
           case Done(id) => id in s.ws && s.ws[id].phase == AtEof
           case Timeout => s.armed
           case Signal => true
         }
  }

  function Apply(s: Sys, e: Event, cf: Config): Sys
    requires Enabled(s, e, cf)
  {
    match e
    case Unpause(id, ok) => Put(s, id, s.ws[id].(phase := if ok then Scanning else Lost))
    case Line(id, line) =>
      var w := s.ws[id];
      var r := Tag(cf.decode(|w.log|, line), id);
      Put(s, id, w.(phase := if START in w.log then Sending(r) else Scanning, log := w.log + [line]))
    case Eof(id) => Put(s, id, s.ws[id].(phase := AtEof))
    case Recv(m) =>
      var t := s.(ctl := Receive(s.ctl, m, cf.runtimeSeconds));
      match m {
        case Reported(r) =>
          Put(t, r.Id, s.ws[r.Id].(phase := Scanning, delivered := s.ws[r.Id].delivered + [r]))
        case Done(id) => Put(t, id, s.ws[id].(phase := Exited))
        case Timeout => t.(armed := false)
        case Signal => t
      }
  }

  function Put(s: Sys, id: WorkerId, w: Local): Sys {
    s.(ws := s.ws[id := w])
  }

  function Begin(ids: set<WorkerId>, raw: seq<WorkerReport>): Sys {
    Sys(Fresh(|ids|, raw), true, map id | id in ids :: Local(Starting, [], []))
  }

  /** The state after a sequence of events, if each was possible in its turn. */
  function Exec(s: Sys, es: seq<Event>, cf: Config): Option<Sys> {
    if es == [] then Some(s)
    else
      var k := |es| - 1;
      match Exec(s, es[..k], cf)
      case None => None
      case Some(t) => if Enabled(t, es[k], cf) then Some(Apply(t, es[k], cf)) else None
  }

  lemma ExecSnoc(s: Sys, es: seq<Event>, e: Event, cf: Config)
    requires Exec(s, es, cf).Some? && Enabled(Exec(s, es, cf).value, e, cf)
    ensures Exec(s, es + [e], cf) == Some(Apply(Exec(s, es, cf).value, e, cf))
  {
    assert (es + [e])[..|es|] == es;
  }

  function Msgs(es: seq<Event>): seq<Msg> {
    if es == [] then []
    else
      var k := |es| - 1;
      Msgs(es[..k]) + if es[k].Recv? then [es[k].m] else []
  }

  lemma CollectSnoc(c: Ctl, msgs: seq<Msg>, m: Msg, runtimeSeconds: int)
    ensures var d := Collect(c, msgs, runtimeSeconds);
            Collect(c, msgs + [m], runtimeSeconds) == if Returned(d) then d else Receive(d, m, runtimeSeconds)
  {
    assert (msgs + [m])[..|msgs|] == msgs;
  }

  /** In every interleaving the controller computes exactly its own loop over the messages it receives. */
  lemma {:induction false} ControllerFollowsMessages(s: Sys, es: seq<Event>, cf: Config)
    requires Exec(s, es, cf).Some?
    ensures Exec(s, es, cf).value.ctl == Collect(s.ctl, Msgs(es), cf.runtimeSeconds)
  {
    if es != [] {
      var k := |es| - 1;
      ControllerFollowsMessages(s, es[..k], cf);
      var t := Exec(s, es[..k], cf).value;
      assert Enabled(t, es[k], cf);
      if es[k].Recv? {
        CollectSnoc(s.ctl, Msgs(es[..k]), es[k].m, cf.runtimeSeconds);
        assert Apply(t, es[k], cf).ctl == Receive(t.ctl, es[k].m, cf.runtimeSeconds);
      } else {
        assert Msgs(es) == Msgs(es[..k]);
        assert Apply(t, es[k], cf).ctl == t.ctl;
      }
    }
  }

  function Waiting(s: Sys): set<WorkerId> {
    set id | id in s.ws && s.ws[id].phase != Exited
  }

  ghost predicate IsPrefix(a: seq<WorkerReport>, b: seq<WorkerReport>) {
    |a| <= |b| && a == b[..|a|]
  }

  /** What a goroutine has read is what it has delivered, plus the report in its hand. */
  ghost predicate LocalInv(w: Local, id: WorkerId, cf: Config) {
    Emitted(w.log, id, cf.decode) == w.delivered + match w.phase { case Sending(r) => [r] case _ => [] }
  }

  /** Of each worker the run holds a prefix of what was delivered: all of it until the stop. */
  ghost predicate RawInv(s: Sys, got: seq<WorkerReport>) {
    forall id :: id in s.ws ==>
      && IsPrefix(Proj(got, id), s.ws[id].delivered)
      && (!s.ctl.stopped ==> Proj(got, id) == s.ws[id].delivered)
  }

  ghost predicate Counted(s: Sys, ids: set<WorkerId>) {
    s.ws.Keys == ids && s.ctl.i == |Waiting(s)|
  }

  ghost predicate AllLocal(s: Sys, cf: Config) {
    forall id :: id in s.ws ==> LocalInv(s.ws[id], id, cf)
  }

  ghost predicate Results(s: Sys, raw0: seq<WorkerReport>) {
    && |raw0| <= |s.ctl.raw| && s.ctl.raw[..|raw0|] == raw0
    && RawInv(s, s.ctl.raw[|raw0|..])
    && forall r :: r in s.ctl.raw[|raw0|..] ==> r.Id in s.ws
  }

  ghost predicate Inv(s: Sys, ids: set<WorkerId>, raw0: seq<WorkerReport>, cf: Config) {
    Counted(s, ids) && AllLocal(s, cf) && Results(s, raw0)
  }

  lemma WaitingSame(s: Sys, t: Sys)
    requires s.ws.Keys == t.ws.Keys
    requires forall id :: id in s.ws ==> (s.ws[id].phase == Exited <==> t.ws[id].phase == Exited)
    ensures Waiting(s) == Waiting(t)
  {
  }

  lemma BeginInv(ids: set<WorkerId>, raw0: seq<WorkerReport>, cf: Config)
    ensures Inv(Begin(ids, raw0), ids, raw0, cf)
  {
    var s := Begin(ids, raw0);
    assert Waiting(s) == ids;
    assert raw0[|raw0|..] == [];
  }

  /** A goroutine changing by itself, without exiting or delivering. */
  lemma LocalChangeInv(s: Sys, id: WorkerId, w: Local, ids: set<WorkerId>, raw0: seq<WorkerReport>, cf: Config)
    requires Inv(s, ids, raw0, cf) && id in s.ws
    requires s.ws[id].phase != Exited && w.phase != Exited
    requires w.delivered == s.ws[id].delivered && LocalInv(w, id, cf)
    ensures Inv(Put(s, id, w), ids, raw0, cf)
  {
    var t := Put(s, id, w);
    WaitingSame(s, t);
    assert AllLocal(t, cf);
    assert RawInv(t, s.ctl.raw[|raw0|..]);
  }

  lemma LocalStepInv(s: Sys, e: Event, ids: set<WorkerId>, raw0: seq<WorkerReport>, cf: Config)
    requires Inv(s, ids, raw0, cf) && Enabled(s, e, cf) && !e.Recv?
    ensures Inv(Apply(s, e, cf), ids, raw0, cf)
  {
    var w := s.ws[e.id];
    assert LocalInv(w, e.id, cf);
    match e
    case Unpause(id, ok) =>
      LocalChangeInv(s, id, w.(phase := if ok then Scanning else Lost), ids, raw0, cf);
    case Eof(id) =>
      LocalChangeInv(s, id, w.(phase := AtEof), ids, raw0, cf);
    case Line(id, line) =>
      EmittedSnoc(w.log, line, id, cf.decode);
      var r := Tag(cf.decode(|w.log|, line), id);
      LocalChangeInv(s, id, Local(if START in w.log then Sending(r) else Scanning, w.log + [line], w.delivered),
                     ids, raw0, cf);
  }

  lemma PrefixExtends(a: seq<WorkerReport>, b: seq<WorkerReport>, r: WorkerReport)
    requires IsPrefix(a, b)
    ensures IsPrefix(a, b + [r])
  {
  }

  lemma RawInvGrows(s: Sys, t: Sys, got: seq<WorkerReport>, r: WorkerReport)
    requires RawInv(s, got) && r.Id in s.ws && t.ws.Keys == s.ws.Keys && t.ctl.stopped == s.ctl.stopped
    requires t.ws[r.Id].delivered == s.ws[r.Id].delivered + [r]
    requires forall id :: id in s.ws && id != r.Id ==> t.ws[id] == s.ws[id]
    ensures RawInv(t, if s.ctl.stopped then got else got + [r])
  {
    forall id | id in t.ws
      ensures var got' := if s.ctl.stopped then got else got + [r];
              && IsPrefix(Proj(got', id), t.ws[id].delivered)
              && (!t.ctl.stopped ==> Proj(got', id) == t.ws[id].delivered)
    {
      ProjSnoc(got, r, id);
      PrefixExtends(Proj(got, id), s.ws[id].delivered, r);
    }
  }

  lemma SliceSnoc(a: seq<WorkerReport>, r: WorkerReport, k: nat)
    requires k <= |a|
    ensures (a + [r])[k..] == a[k..] + [r] && (a + [r])[..k] == a[..k]
  {
  }

  lemma ResultsGrow(s: Sys, t: Sys, r: WorkerReport, raw0: seq<WorkerReport>)
    requires Results(s, raw0) && r.Id in s.ws && t.ws.Keys == s.ws.Keys && t.ctl.stopped == s.ctl.stopped
    requires t.ctl.raw == if s.ctl.stopped then s.ctl.raw else s.ctl.raw + [r]
    requires t.ws[r.Id].delivered == s.ws[r.Id].delivered + [r]
    requires forall id :: id in s.ws && id != r.Id ==> t.ws[id] == s.ws[id]
    ensures Results(t, raw0)
  {
    var got := s.ctl.raw[|raw0|..];
    RawInvGrows(s, t, got, r);
    SliceSnoc(s.ctl.raw, r, |raw0|);
  }

  /** A report handed over: the sender is back at scanning, the controller is as given. */
  lemma DeliverInv(s: Sys, r: WorkerReport, c: Ctl, ids: set<WorkerId>, raw0: seq<WorkerReport>, cf: Config)
    requires Inv(s, ids, raw0, cf) && r.Id in s.ws && s.ws[r.Id].phase == Sending(r)
    requires c.i == s.ctl.i && c.stopped == s.ctl.stopped
    requires c.raw == if s.ctl.stopped then s.ctl.raw else s.ctl.raw + [r]
    ensures var w := Local(Scanning, s.ws[r.Id].log, s.ws[r.Id].delivered + [r]);
            Inv(Sys(c, s.armed, s.ws[r.Id := w]), ids, raw0, cf)
  {
    var w := Local(Scanning, s.ws[r.Id].log, s.ws[r.Id].delivered + [r]);
    var t := Sys(c, s.armed, s.ws[r.Id := w]);
    WaitingSame(s, t);
    assert LocalInv(s.ws[r.Id], r.Id, cf);
    assert AllLocal(t, cf);
    ResultsGrow(s, t, r, raw0);
  }

  /** Receiving a report: its sender's stream and, before the stop, the results grow by it. */
  lemma ReportInv(s: Sys, r: WorkerReport, ids: set<WorkerId>, raw0: seq<WorkerReport>, cf: Config)
    requires Inv(s, ids, raw0, cf) && Enabled(s, Recv(Reported(r)), cf)
    ensures Inv(Apply(s, Recv(Reported(r)), cf), ids, raw0, cf)
  {
    DeliverInv(s, r, Receive(s.ctl, Reported(r), cf.runtimeSeconds), ids, raw0, cf);
  }

  /** A worker that exits leaves one fewer to wait for. */
  lemma ExitInv(s: Sys, id: WorkerId, c: Ctl, ids: set<WorkerId>, raw0: seq<WorkerReport>, cf: Config)
    requires Inv(s, ids, raw0, cf) && id in s.ws && s.ws[id].phase == AtEof
    requires c.raw == s.ctl.raw && c.i == s.ctl.i - 1 && c.stopped
    ensures Inv(Sys(c, s.armed, s.ws[id := s.ws[id].(phase := Exited)]), ids, raw0, cf)
  {
    var t := Sys(c, s.armed, s.ws[id := s.ws[id].(phase := Exited)]);
    assert id in Waiting(s);
    assert Waiting(t) == Waiting(s) - {id};
    assert t.ws.Keys == s.ws.Keys;
    assert LocalInv(s.ws[id], id, cf);
    assert AllLocal(t, cf);
    assert RawInv(t, s.ctl.raw[|raw0|..]);
  }

  lemma DoneInv(s: Sys, id: WorkerId, ids: set<WorkerId>, raw0: seq<WorkerReport>, cf: Config)
    requires Inv(s, ids, raw0, cf) && Enabled(s, Recv(Done(id)), cf)
    ensures Inv(Apply(s, Recv(Done(id)), cf), ids, raw0, cf)
  {
    ExitInv(s, id, Receive(s.ctl, Done(id), cf.runtimeSeconds), ids, raw0, cf);
  }

  lemma StepInv(s: Sys, e: Event, ids: set<WorkerId>, raw0: seq<WorkerReport>, cf: Config)
    requires Inv(s, ids, raw0, cf) && Enabled(s, e, cf)
    ensures Inv(Apply(s, e, cf), ids, raw0, cf)
  {
    match e {
      case Unpause(_, _) => LocalStepInv(s, e, ids, raw0, cf);
      case Line(_, _) => LocalStepInv(s, e, ids, raw0, cf);
      case Eof(_) => LocalStepInv(s, e, ids, raw0, cf);
      case Recv(m) =>
        match m {
          case Reported(r) => ReportInv(s, r, ids, raw0, cf);
          case Done(id) => DoneInv(s, id, ids, raw0, cf);
          case Timeout => assert Waiting(Apply(s, e, cf)) == Waiting(s);
          case Signal => assert Waiting(Apply(s, e, cf)) == Waiting(s);
        }
    }
  }

  /** In every reachable state of every interleaving: the counter is the number of workers
      whose done is outstanding, and the reports kept of each worker are a prefix of
      what it read from its console (all it delivered, until the stop). */
  lemma {:induction false} RunSafety(ids: set<WorkerId>, raw0: seq<WorkerReport>, es: seq<Event>, cf: Config)
    requires Exec(Begin(ids, raw0), es, cf).Some?
    ensures Inv(Exec(Begin(ids, raw0), es, cf).value, ids, raw0, cf)
  {
    if es == [] {
      BeginInv(ids, raw0, cf);
    } else {
      var k := |es| - 1;
      RunSafety(ids, raw0, es[..k], cf);
      StepInv(Exec(Begin(ids, raw0), es[..k], cf).value, es[k], ids, raw0, cf);
    }
  }

  // ---------------------------------------------------------------- progress

  ghost predicate NoneLost(s: Sys) {
    forall id :: id in s.ws ==> s.ws[id].phase != Lost
  }

  /** A lost worker stays lost, so the counter never gets to zero. */
  lemma {:induction false} LostWorkerBlocks(s: Sys, id: WorkerId, es: seq<Event>, cf: Config)
    requires id in s.ws && s.ws[id].phase == Lost
    requires Exec(s, es, cf).Some?
    ensures var t := Exec(s, es, cf).value; id in t.ws && t.ws[id].phase == Lost
  {
    if es != [] {
      LostWorkerBlocks(s, id, es[..|es| - 1], cf);
    }
  }

  /** The next event that takes this worker towards its done message. */
  function Onward(s: Sys, id: WorkerId): Event
    requires id in s.ws && s.ws[id].phase != Exited && s.ws[id].phase != Lost
  {
    match s.ws[id].phase
    case Starting => Unpause(id, true)
    case Scanning => Eof(id)
    case Sending(r) => Recv(Reported(r))
    case AtEof => Recv(Done(id))
    case Exited => Eof(id)
    case Lost => Eof(id)
  }

  function Distance(w: Local): nat {
    match w.phase
    case Starting => 3
    case Sending(_) => 3
    case Scanning => 2
    case AtEof => 1
    case Exited => 0
    case Lost => 0
  }

  lemma {:induction false} ExecAppend(s: Sys, a: seq<Event>, b: seq<Event>, cf: Config)
    requires Exec(s, a, cf).Some?
    ensures Exec(s, a + b, cf) == Exec(Exec(s, a, cf).value, b, cf)
  {
    if b == [] {
      assert a + b == a;
    } else {
      var k := |b| - 1;
      assert (a + b)[..|a + b| - 1] == a + b[..k];
      ExecAppend(s, a, b[..k], cf);
    }
  }

  ghost predicate SendsOwn(s: Sys) {
    forall id :: id in s.ws && s.ws[id].phase.Sending? ==> s.ws[id].phase.r.Id == id
  }

  lemma InvSendsOwn(s: Sys, ids: set<WorkerId>, raw0: seq<WorkerReport>, cf: Config)
    requires Inv(s, ids, raw0, cf)
    ensures SendsOwn(s)
  {
    forall id | id in s.ws && s.ws[id].phase.Sending? ensures s.ws[id].phase.r.Id == id {
      assert LocalInv(s.ws[id], id, cf);
      assert s.ws[id].phase.r in Emitted(s.ws[id].log, id, cf.decode);
    }
  }

  function After(p: Phase): Phase {
    match p
    case Starting => Scanning
    case Sending(_) => Scanning
    case Scanning => AtEof
    case _ => Exited
  }

  /** That event is possible, moves this worker on, and leaves the others alone. */
  lemma OnwardEffect(s: Sys, id: WorkerId, cf: Config)
    requires SendsOwn(s) && !Returned(s.ctl)
    requires id in s.ws && s.ws[id].phase != Exited && s.ws[id].phase != Lost
    ensures var e := Onward(s, id);
            && Enabled(s, e, cf)
            && var t := Apply(s, e, cf);
               && t.ws.Keys == s.ws.Keys && t.ws[id].phase == After(s.ws[id].phase)
               && (forall other :: other in s.ws && other != id ==> t.ws[other] == s.ws[other])
               && t.ctl.aborted == s.ctl.aborted
               && t.ctl.i == s.ctl.i - if s.ws[id].phase == AtEof then 1 else 0
  {
    var w := s.ws[id];
    match w.phase
    case Starting => assert Apply(s, Onward(s, id), cf) == Put(s, id, w.(phase := Scanning));
    case Scanning => assert Apply(s, Onward(s, id), cf) == Put(s, id, w.(phase := AtEof));
    case Sending(r) => assert r.Id == id;
    case AtEof =>
  }

  lemma OnwardStep(s: Sys, id: WorkerId, ids: set<WorkerId>, raw0: seq<WorkerReport>, cf: Config)
    requires Inv(s, ids, raw0, cf) && NoneLost(s) && !s.ctl.aborted
    requires id in s.ws && s.ws[id].phase != Exited
    ensures var e := Onward(s, id);
            && Enabled(s, e, cf)
            && var t := Apply(s, e, cf);
               && NoneLost(t) && !t.ctl.aborted && id in t.ws
               && Distance(t.ws[id]) < Distance(s.ws[id])
               && (t.ws[id].phase == Exited <==> s.ws[id].phase == AtEof)
               && t.ctl.i == s.ctl.i - if s.ws[id].phase == AtEof then 1 else 0
  {
    InvSendsOwn(s, ids, raw0, cf);
    assert id in Waiting(s);
    OnwardEffect(s, id, cf);
  }

  /** Every worker that is not lost can be brought to its done message. */
  lemma {:induction false} FinishWorker(
      s: Sys, id: WorkerId, ids: set<WorkerId>, raw0: seq<WorkerReport>, cf: Config)
      returns (es: seq<Event>)
    requires Inv(s, ids, raw0, cf) && NoneLost(s) && !s.ctl.aborted
    requires id in s.ws && s.ws[id].phase != Exited
    ensures Exec(s, es, cf).Some?
    ensures var t := Exec(s, es, cf).value;
            Inv(t, ids, raw0, cf) && NoneLost(t) && !t.ctl.aborted && t.ctl.i == s.ctl.i - 1
    decreases Distance(s.ws[id])
  {
    OnwardStep(s, id, ids, raw0, cf);
    var e := Onward(s, id);
    var t := Apply(s, e, cf);
    StepInv(s, e, ids, raw0, cf);
    ExecSnoc(s, [], e, cf);
    assert [] + [e] == [e];
    if s.ws[id].phase.AtEof? {
      es := [e];
    } else {
      var rest := FinishWorker(t, id, ids, raw0, cf);
      ExecAppend(s, [e], rest, cf);
      es := [e] + rest;
    }
  }

  lemma {:induction false} Drain(s: Sys, ids: set<WorkerId>, raw0: seq<WorkerReport>, cf: Config)
      returns (es: seq<Event>)
    requires Inv(s, ids, raw0, cf) && NoneLost(s) && !s.ctl.aborted
    ensures Exec(s, es, cf).Some? && Exec(s, es, cf).value.ctl.i == 0
    decreases s.ctl.i
  {
    if s.ctl.i == 0 {
      es := [];
    } else {
      var id :| id in Waiting(s);
      var first := FinishWorker(s, id, ids, raw0, cf);
      var rest := Drain(Exec(s, first, cf).value, ids, raw0, cf);
      ExecAppend(s, first, rest, cf);
      es := first + rest;
    }
  }

  lemma LostStillCounted(ids: set<WorkerId>, raw0: seq<WorkerReport>, es: seq<Event>, cf: Config)
    requires Exec(Begin(ids, raw0), es, cf).Some? && !NoneLost(Exec(Begin(ids, raw0), es, cf).value)
    ensures Exec(Begin(ids, raw0), es, cf).value.ctl.i > 0
  {
    var s := Exec(Begin(ids, raw0), es, cf).value;
    RunSafety(ids, raw0, es, cf);
    var id :| id in s.ws && s.ws[id].phase == Lost;
    assert id in Waiting(s);
  }

  /** From any reachable state the counter can still get to zero exactly when every
      domain that was tried could be unpaused. */
  lemma CanDrainIffNoneLost(ids: set<WorkerId>, raw0: seq<WorkerReport>, es: seq<Event>, cf: Config)
    requires Exec(Begin(ids, raw0), es, cf).Some? && !Exec(Begin(ids, raw0), es, cf).value.ctl.aborted
    ensures var s := Exec(Begin(ids, raw0), es, cf).value;
            (exists more :: Exec(s, more, cf).Some? && Exec(s, more, cf).value.ctl.i == 0) <==> NoneLost(s)
  {
    var s := Exec(Begin(ids, raw0), es, cf).value;
    RunSafety(ids, raw0, es, cf);
    if NoneLost(s) {
      var more := Drain(s, ids, raw0, cf);
    } else {
      var id :| id in s.ws && s.ws[id].phase == Lost;
      forall more | Exec(s, more, cf).Some? ensures Exec(s, more, cf).value.ctl.i > 0 {
        LostWorkerBlocks(s, id, more, cf);
        ExecAppend(Begin(ids, raw0), es, more, cf);
        LostStillCounted(ids, raw0, es + more, cf);
      }
    }
  }

  /** A signal is received after the message that stopped the run. */
  predicate SignalAfterStop(msgs: seq<Msg>) {
    msgs != [] &&
    var k := |msgs| - 1;
    SignalAfterStop(msgs[..k]) || (FirstStop(msgs[..k]).Some? && msgs[k].Signal?)
  }

  lemma StopSnoc(msgs: seq<Msg>, m: Msg)
    ensures FirstStop(msgs + [m]).Some? <==> FirstStop(msgs).Some? || !m.Reported?
    ensures SignalAfterStop(msgs + [m]) <==> SignalAfterStop(msgs) || (FirstStop(msgs).Some? && m.Signal?)
  {
    assert (msgs + [m])[..|msgs|] == msgs;
  }

  /** The run is stopped by the first message that is not a report, and abandoned on the first
      signal after that, whatever the first message was. */
  lemma {:induction false} AbortExact(ids: set<WorkerId>, raw0: seq<WorkerReport>, es: seq<Event>, cf: Config)
    requires Exec(Begin(ids, raw0), es, cf).Some?
    ensures var c := Exec(Begin(ids, raw0), es, cf).value.ctl;
            && (c.stopped <==> FirstStop(Msgs(es)).Some?)
            && (c.aborted <==> SignalAfterStop(Msgs(es)))
  {
    if es != [] {
      var k := |es| - 1;
      AbortExact(ids, raw0, es[..k], cf);
      var t := Exec(Begin(ids, raw0), es[..k], cf).value;
      if es[k].Recv? {
        StopSnoc(Msgs(es[..k]), es[k].m);
        assert Apply(t, es[k], cf).ctl == Receive(t.ctl, es[k].m, cf.runtimeSeconds);
      } else {
        assert Msgs(es) == Msgs(es[..k]);
        assert Apply(t, es[k], cf).ctl == t.ctl;
      }
    }
  }

  /** How the loop ends, in every interleaving: when all workers have exited, or on a signal
      after the stop. With a lost worker only the second is left. */
  lemma EndsExactly(ids: set<WorkerId>, raw0: seq<WorkerReport>, es: seq<Event>, cf: Config)
    requires Exec(Begin(ids, raw0), es, cf).Some?
    ensures var s := Exec(Begin(ids, raw0), es, cf).value;
            && (Returned(s.ctl) <==>
                  SignalAfterStop(Msgs(es)) || forall id :: id in s.ws ==> s.ws[id].phase == Exited)
            && (!NoneLost(s) ==> (Returned(s.ctl) <==> SignalAfterStop(Msgs(es))))
  {
    var s := Exec(Begin(ids, raw0), es, cf).value;
    RunSafety(ids, raw0, es, cf);
    AbortExact(ids, raw0, es, cf);
    if id :| id in s.ws && s.ws[id].phase != Exited {
      assert id in Waiting(s);
    } else {
      assert Waiting(s) == {};
    }
  }

  /** One Xen worker that cannot be unpaused: the run has not ended after the timeout, and ends
      on one signal, completed and without error. */
  lemma UnpauseFailureInput(id: WorkerId, cf: Config)
    requires cf.kind == XenKind
    ensures var s := Exec(Begin({id}, []), [Unpause(id, false), Recv(Timeout)], cf);
            s.Some? && !NoneLost(s.value) && !Returned(s.value.ctl)
    ensures var s := Exec(Begin({id}, []), [Unpause(id, false), Recv(Timeout), Recv(Signal)], cf);
            s.Some? && Returned(s.value.ctl) && s.value.ctl.completed && s.value.ctl.err == None
  {
    var s := Begin({id}, []);
    var a, b, c := Unpause(id, false), Recv(Timeout), Recv(Signal);
    assert id in s.ws && s.ws[id].phase == Starting;
    ExecSnoc(s, [], a, cf);
    assert [] + [a] == [a] && [a] + [b] == [a, b] && [a, b] + [c] == [a, b, c];
    assert Apply(s, a, cf).ws[id].phase == Lost;
    ExecSnoc(s, [a], b, cf);
    ExecSnoc(s, [a, b], c, cf);
  }

  /** The outcome of a run with at least one worker, over all interleavings. */
  lemma RunOutcome(ids: set<WorkerId>, raw0: seq<WorkerReport>, es: seq<Event>, cf: Config)
    requires ids != {} && Exec(Begin(ids, raw0), es, cf).Some?
    ensures var s, msgs := Exec(Begin(ids, raw0), es, cf).value, Msgs(es);
            && s.ctl.raw == raw0 + Kept(msgs)
            && s.ctl.stops <= 1
            && (Returned(s.ctl) ==>
                  && (s.ctl.completed || s.ctl.err != None)
                  && (s.ctl.completed && s.ctl.err == None <==> FirstStop(msgs) == Some(Timeout)))
  {
    ControllerFollowsMessages(Begin(ids, raw0), es, cf);
    CollectMeaning(|ids|, raw0, Msgs(es), cf.runtimeSeconds);
    ReturnMeaning(|ids|, raw0, Msgs(es), cf.runtimeSeconds);
  }
}
