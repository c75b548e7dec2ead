/** Expanding a plan's input into its runs: workers and counts, crossed with the schedulers,
    crossed with the NUMA flags. (controller/plan.go, ExpandInput) */
module PlanMatrix {
  import opened Benchmark
  import opened Integers

  /** `Args` is None where the source has nil. */
  datatype WorkerParams = WorkerParams(Args: Option<seq<string>>)

  const NO_PARAMS: WorkerParams := WorkerParams(None)

  datatype WorkerSet = WorkerSet(Params: WorkerParams, Count: int)

  /** The bool a run's NumaDisable points to. */
  class Flag {
    var value: bool

    constructor (value: bool)
      ensures this.value == value
    {
      this.value := value;
    }
  }

  datatype Run = Run(WorkerSets: seq<WorkerSet>, RuntimeSeconds: int, Scheduler: string, NumaDisable: Flag?)

  datatype SimpleMatrix = SimpleMatrix(
    Schedulers: Option<seq<string>>,
    Workers: seq<string>,
    Count: seq<int>,
    NumaDisable: seq<bool>)

  datatype PlanInput = PlanInput(WorkerPresets: map<string, WorkerParams>, SimpleMatrix: Option<SimpleMatrix>)

  datatype Error = RunsNotNil | InputNil | MatrixNil | InvalidPreset(worker: string)

  // ------------------------------------------------------------ the base list

  type Presets = map<string, WorkerParams>

  function Preset(presets: Presets, worker: string): WorkerParams {
    if worker in presets then presets[worker] else NO_PARAMS
  }

  predicate Known(presets: Presets, worker: string) {
    Preset(presets, worker).Args.Some?
  }

  /** All workers, each `count` times. */
  function Mix(presets: Presets, workers: seq<string>, count: int): (sets: seq<WorkerSet>)
    ensures |sets| == |workers|
    ensures forall i :: 0 <= i < |sets| ==> sets[i] == WorkerSet(Preset(presets, workers[i]), count)
  {
    seq(|workers|, i requires 0 <= i < |workers| => WorkerSet(Preset(presets, workers[i]), count))
  }

  /** The worker sets of base number b: first each worker alone, then all workers together
      for each count. */
  function BaseSets(presets: Presets, m: SimpleMatrix, b: int): seq<WorkerSet>
    requires 0 <= b < |m.Workers| + |m.Count|
  {
    if b < |m.Workers| then [WorkerSet(Preset(presets, m.Workers[b]), 1)]
    else Mix(presets, m.Workers, m.Count[b - |m.Workers|])
  }

  // ------------------------------------------------------------ the index law

  function Schedulers(m: SimpleMatrix): seq<string> {
    if m.Schedulers.Some? then m.Schedulers.value else [""]
  }

  /** The number of copies that crossing with a list makes. */
  function Factor(n: nat): (f: nat)
    ensures f >= 1
  {
    if n == 0 then 1 else n
  }

  function SchedulerAt(m: SimpleMatrix, s: int): string
    requires 0 <= s < Factor(|Schedulers(m)|)
  {
    if Schedulers(m) == [] then "" else Schedulers(m)[s]
  }

  ghost predicate FlagIs(flag: Flag?, flags: seq<bool>, d: int)
    requires 0 <= d < Factor(|flags|)
    reads flag
  {
    if flags == [] then flag == null else flag != null && flag.value == flags[d]
  }

  ghost predicate RunIs(r: Run, presets: Presets, m: SimpleMatrix, b: int, s: int, d: int)
    requires 0 <= b < |m.Workers| + |m.Count|
    requires 0 <= s < Factor(|Schedulers(m)|) && 0 <= d < Factor(|m.NumaDisable|)
    reads r.NumaDisable
  {
    && r.WorkerSets == BaseSets(presets, m, b) && r.RuntimeSeconds == 10
    && r.Scheduler == SchedulerAt(m, s)
    && FlagIs(r.NumaDisable, m.NumaDisable, d)
  }

  /** Run number n of an expansion belongs to base n / D / S, scheduler n / D % S and flag n % D. */
  ghost predicate IsMatrix(runs: seq<Run>, presets: Presets, m: SimpleMatrix)
    reads Flags(runs)
  {
    var bases, ss, ds := |m.Workers| + |m.Count|, Factor(|Schedulers(m)|), Factor(|m.NumaDisable|);
    && |runs| == ds * (ss * bases)
    && forall n :: 0 <= n < |runs| ==> Numbered(runs[n], presets, m, n)
  }

  ghost predicate Numbered(r: Run, presets: Presets, m: SimpleMatrix, n: int)
    reads r.NumaDisable
  {
    var ss, ds := Factor(|Schedulers(m)|), Factor(|m.NumaDisable|);
    && 0 <= n / ds / ss < |m.Workers| + |m.Count|
    && RunIs(r, presets, m, n / ds / ss, n / ds % ss, n % ds)
  }

  ghost function Flags(runs: seq<Run>): set<Flag?> {
    set i | 0 <= i < |runs| :: runs[i].NumaDisable
  }

  /** The index law: base b under scheduler s with flag d is run (b * S + s) * D + d. */
  lemma MatrixIndex(runs: seq<Run>, presets: Presets, m: SimpleMatrix, b: int, s: int, d: int)
    requires IsMatrix(runs, presets, m)
    requires 0 <= b < |m.Workers| + |m.Count|
    requires 0 <= s < Factor(|Schedulers(m)|) && 0 <= d < Factor(|m.NumaDisable|)
    ensures var n := Factor(|m.NumaDisable|) * (Factor(|Schedulers(m)|) * b + s) + d;
            0 <= n < |runs| && RunIs(runs[n], presets, m, b, s, d)
  {
    var bases, ss, ds := |m.Workers| + |m.Count|, Factor(|Schedulers(m)|), Factor(|m.NumaDisable|);
    RowBelow(b, s, ss, bases);
    RowBelow(ss * b + s, d, ds, ss * bases);
    Digits(b, s, ss);
    Digits(ss * b + s, d, ds);
    assert Numbered(runs[ds * (ss * b + s) + d], presets, m, ds * (ss * b + s) + d);
  }

  /** What run (b * S + s) * D + d is, in terms of the input: a baseline is one worker alone, once;
      a mix is every worker as often as the count says. Without schedulers or flags none is set. */
  lemma MatrixContents(runs: seq<Run>, presets: Presets, m: SimpleMatrix, b: int, s: int, d: int, r: Run)
    requires IsMatrix(runs, presets, m) && AllKnown(presets, m.Workers)
    requires 0 <= b < |m.Workers| + |m.Count|
    requires 0 <= s < Factor(|Schedulers(m)|) && 0 <= d < Factor(|m.NumaDisable|)
    requires var n := Factor(|m.NumaDisable|) * (Factor(|Schedulers(m)|) * b + s) + d; 0 <= n < |runs| && runs[n] == r
    ensures forall i :: 0 <= i < |m.Workers| ==> m.Workers[i] in presets
    ensures b < |m.Workers| ==> r.WorkerSets == [WorkerSet(presets[m.Workers[b]], 1)]
    ensures b >= |m.Workers| ==>
              && |r.WorkerSets| == |m.Workers|
              && forall i :: 0 <= i < |m.Workers| ==>
                   r.WorkerSets[i] == WorkerSet(presets[m.Workers[i]], m.Count[b - |m.Workers|])
    ensures r.RuntimeSeconds == 10
    ensures r.Scheduler ==
            if m.Schedulers.None? || m.Schedulers.value == [] then "" else m.Schedulers.value[s]
    ensures r.NumaDisable == null <==> m.NumaDisable == []
    ensures r.NumaDisable != null ==> r.NumaDisable.value == m.NumaDisable[d]
  {
    MatrixIndex(runs, presets, m, b, s, d);
    forall i | 0 <= i < |m.Workers| ensures m.Workers[i] in presets {
      assert Known(presets, m.Workers[i]);
    }
  }

  /** How many values there are for each: those given, or one. */
  lemma FactorExactly(m: SimpleMatrix)
    ensures Factor(|Schedulers(m)|) ==
            if m.Schedulers.None? || m.Schedulers.value == [] then 1 else |m.Schedulers.value|
    ensures Factor(|m.NumaDisable|) == if m.NumaDisable == [] then 1 else |m.NumaDisable|
  {
  }

  /** A worker is known if there is a preset for it that has arguments. */
  lemma KnownExactly(presets: Presets, worker: string)
    ensures Known(presets, worker) <==> worker in presets && presets[worker].Args.Some?
  {
  }

  // ------------------------------------------------------------ the base loops

  /** The base list so far. */
  ghost predicate Bases(a: seq<Run>, presets: Presets, m: SimpleMatrix) {
    && |a| <= |m.Workers| + |m.Count|
    && forall b :: 0 <= b < |a| ==> a[b] == Run(BaseSets(presets, m, b), 10, "", null)
  }

  ghost predicate FirstUnknown(presets: Presets, workers: seq<string>, i: int, worker: string) {
    && 0 <= i < |workers| && workers[i] == worker && !Known(presets, worker)
    && forall j :: 0 <= j < i ==> Known(presets, workers[j])
  }

  ghost predicate AllKnown(presets: Presets, workers: seq<string>) {
    forall i :: 0 <= i < |workers| ==> Known(presets, workers[i])
  }

  /** First loop: one baseline a worker. */
  method Baselines(presets: Presets, m: SimpleMatrix) returns (a: seq<Run>, invalid: Option<string>)
    ensures invalid.None? ==> Bases(a, presets, m) && |a| == |m.Workers|
    ensures invalid.None? <==> AllKnown(presets, m.Workers)
    ensures invalid.Some? ==> exists i :: FirstUnknown(presets, m.Workers, i, invalid.value)
  {
    a := [];
    for i := 0 to |m.Workers|
      invariant |a| == i && Bases(a, presets, m)
      invariant forall j :: 0 <= j < i ==> Known(presets, m.Workers[j])
    {
      var wn := m.Workers[i];
      var wp := Preset(presets, wn);
      if wp.Args.None? {
        assert FirstUnknown(presets, m.Workers, i, wn);
        return a, Some(wn);
      }
      a := a + [Run([WorkerSet(wp, 1)], 10, "", null)];
    }
    invalid := None;
  }

  /** Second loop: one mix a count. */
  method Mixes(presets: Presets, m: SimpleMatrix, baselines: seq<Run>) returns (a: seq<Run>)
    requires Bases(baselines, presets, m) && |baselines| == |m.Workers|
    ensures Bases(a, presets, m) && |a| == |m.Workers| + |m.Count|
  {
    a := baselines;
    for c := 0 to |m.Count|
      invariant |a| == |m.Workers| + c && Bases(a, presets, m)
    {
      var run := Run([], 10, "", null);
      for w := 0 to |m.Workers|
        invariant run == Run(Mix(presets, m.Workers, m.Count[c])[..w], 10, "", null)
      {
        var ws := WorkerSet(Preset(presets, m.Workers[w]), m.Count[c]);
        run := run.(WorkerSets := run.WorkerSets + [ws]);
      }
      a := a + [run];
    }
  }

  /** Third loop: every base under every scheduler. */
  method CrossSchedulers(a: seq<Run>, schedulers: seq<string>) returns (b: seq<Run>)
    requires schedulers != []
    ensures |b| == |schedulers| * |a|
    ensures forall n :: 0 <= n < |b| ==> 0 <= n / |schedulers| < |a|
    ensures forall n :: 0 <= n < |b| ==> b[n] == a[n / |schedulers|].(Scheduler := schedulers[n % |schedulers|])
  {
    var k := |schedulers|;
    b := [];
    for i := 0 to |a|
      invariant |b| == k * i
      invariant forall n :: 0 <= n < |b| ==> 0 <= n / k < |a|
      invariant forall n :: 0 <= n < |b| ==> b[n] == a[n / k].(Scheduler := schedulers[n % k])
    {
      for s := 0 to k
        invariant |b| == k * i + s
        invariant forall n :: 0 <= n < |b| ==> 0 <= n / k < |a|
        invariant forall n :: 0 <= n < |b| ==> b[n] == a[n / k].(Scheduler := schedulers[n % k])
      {
        Digits(i, s, k);
        b := b + [a[i].(Scheduler := schedulers[s])];
      }
      NextRow(k, i);
    }
  }

  ghost predicate DistinctFlags(runs: seq<Run>) {
    && (forall n :: 0 <= n < |runs| ==> runs[n].NumaDisable != null)
    && forall i, j :: 0 <= i < j < |runs| ==> runs[i].NumaDisable != runs[j].NumaDisable
  }

  /** The first |b| runs of a crossing with the flags. */
  ghost predicate Flagged(b: seq<Run>, a: seq<Run>, flags: seq<bool>)
    requires flags != []
    reads Flags(b)
  {
    && DistinctFlags(b)
    && forall n :: 0 <= n < |b| ==>
         && 0 <= n / |flags| < |a|
         && b[n] == a[n / |flags|].(NumaDisable := b[n].NumaDisable)
         && b[n].NumaDisable.value == flags[n % |flags|]
  }

  /** The innermost body of the fourth loop. */
  method AddFlagged(b: seq<Run>, a: seq<Run>, flags: seq<bool>, i: nat, d: nat) returns (b': seq<Run>)
    requires d < |flags| && i < |a| && |b| == |flags| * i + d && Flagged(b, a, flags)
    ensures b < b' && |b'| == |b| + 1 && fresh(b'[|b|].NumaDisable) && Flagged(b', a, flags)
  {
    Digits(i, d, |flags|);
    var flag := new Flag(flags[d]);
    b' := b + [a[i].(NumaDisable := flag)];
  }

  /** The inner loop: run i with every flag. */
  method AddFlags(b: seq<Run>, a: seq<Run>, flags: seq<bool>, i: nat) returns (b': seq<Run>)
    requires flags != [] && i < |a| && |b| == |flags| * i && Flagged(b, a, flags)
    ensures b <= b' && |b'| == |b| + |flags| && Flagged(b', a, flags)
    ensures forall n :: |b| <= n < |b'| ==> fresh(b'[n].NumaDisable)
  {
    b' := b;
    for d := 0 to |flags|
      invariant b <= b' && |b'| == |b| + d && Flagged(b', a, flags)
      invariant forall n :: |b| <= n < |b'| ==> fresh(b'[n].NumaDisable)
    {
      b' := AddFlagged(b', a, flags, i, d);
    }
  }

  lemma NextRow(k: int, i: int)
    ensures k * (i + 1) == k * i + k
  {
  }

  /** Fourth loop: every run so far with every flag, each in a cell of its own. */
  method CrossFlags(a: seq<Run>, flags: seq<bool>) returns (b: seq<Run>)
    requires flags != []
    ensures |b| == |flags| * |a| && Flagged(b, a, flags)
    ensures forall n :: 0 <= n < |b| ==> fresh(b[n].NumaDisable)
  {
    b := [];
    for i := 0 to |a|
      invariant |b| == |flags| * i && Flagged(b, a, flags)
      invariant forall n :: 0 <= n < |b| ==> fresh(b[n].NumaDisable)
    {
      NextRow(|flags|, i);
      b := AddFlags(b, a, flags, i);
    }
  }

  lemma SchedulersCrossed(a: seq<Run>, b: seq<Run>, presets: Presets, m: SimpleMatrix, n: int)
    requires Bases(a, presets, m) && |a| == |m.Workers| + |m.Count| && Schedulers(m) != []
    requires |b| == |Schedulers(m)| * |a| && 0 <= n < |b|
    requires 0 <= n / |Schedulers(m)| < |a|
    requires b[n] == a[n / |Schedulers(m)|].(Scheduler := Schedulers(m)[n % |Schedulers(m)|])
    ensures ScheduledAt(b[n], presets, m, n)
  {
  }

  /** Before the flags: run n belongs to base n / S and scheduler n % S. */
  ghost predicate ScheduledAt(r: Run, presets: Presets, m: SimpleMatrix, n: int) {
    var ss := Factor(|Schedulers(m)|);
    && 0 <= n / ss < |m.Workers| + |m.Count|
    && r == Run(BaseSets(presets, m, n / ss), 10, SchedulerAt(m, n % ss), null)
  }

  ghost predicate IsScheduled(runs: seq<Run>, presets: Presets, m: SimpleMatrix) {
    && |runs| == Factor(|Schedulers(m)|) * (|m.Workers| + |m.Count|)
    && forall n :: 0 <= n < |runs| ==> ScheduledAt(runs[n], presets, m, n)
  }

  method WithSchedulers(a: seq<Run>, presets: Presets, m: SimpleMatrix) returns (b: seq<Run>)
    requires Bases(a, presets, m) && |a| == |m.Workers| + |m.Count|
    ensures IsScheduled(b, presets, m)
  {
    var schedulers := if m.Schedulers.Some? then m.Schedulers.value else [""];
    if |schedulers| > 0 {
      b := CrossSchedulers(a, schedulers);
      forall n | 0 <= n < |b| {
        SchedulersCrossed(a, b, presets, m, n);
      }
    } else {
      b := a;
      assert forall n :: 0 <= n < |b| ==> n / 1 == n;
    }
  }

  lemma FlagsCrossed(a: seq<Run>, r: Run, presets: Presets, m: SimpleMatrix, n: int)
    requires IsScheduled(a, presets, m) && m.NumaDisable != []
    requires 0 <= n / |m.NumaDisable| < |a|
    requires r == a[n / |m.NumaDisable|].(NumaDisable := r.NumaDisable) && n >= 0
    requires r.NumaDisable != null && r.NumaDisable.value == m.NumaDisable[n % |m.NumaDisable|]
    ensures Numbered(r, presets, m, n)
  {
    assert ScheduledAt(a[n / |m.NumaDisable|], presets, m, n / |m.NumaDisable|);
  }

  method WithFlags(a: seq<Run>, presets: Presets, m: SimpleMatrix) returns (b: seq<Run>)
    requires IsScheduled(a, presets, m)
    ensures IsMatrix(b, presets, m)
    ensures m.NumaDisable != [] ==> DistinctFlags(b) && forall n :: 0 <= n < |b| ==> fresh(b[n].NumaDisable)
  {
    if |m.NumaDisable| > 0 {
      b := CrossFlags(a, m.NumaDisable);
      forall n | 0 <= n < |b| ensures Numbered(b[n], presets, m, n) {
        FlagsCrossed(a, b[n], presets, m, n);
      }
    } else {
      b := a;
      forall n | 0 <= n < |b| ensures Numbered(b[n], presets, m, n) {
        assert n / 1 == n && n % 1 == 0;
        assert ScheduledAt(b[n], presets, m, n);
      }
    }
  }

  /** The global WorkerPresets, which an expansion adds to. */
  class PresetTable {
    var presets: Presets

    constructor (presets: Presets)
      ensures this.presets == presets
    {
      this.presets := presets;
    }
  }

  /** `Runs` is None where the source has nil; so it stays for an empty expansion. */
  class BenchmarkPlan {
    var Runs: Option<seq<Run>>
    var Input: Option<PlanInput>

    ghost function RunList(): seq<Run>
      reads this
    {
      if Runs.None? then [] else Runs.value
    }

    ghost predicate HasMatrix()
      reads this
    {
      Input.Some? && Input.value.SimpleMatrix.Some?
    }

    method ExpandInput(table: PresetTable) returns (err: Option<Error>)
      modifies this, table
      ensures Input == old(Input)
      ensures err == Some(RunsNotNil) <==> old(Runs).Some?
      ensures err == Some(InputNil) <==> old(Runs).None? && Input.None?
      ensures err == Some(MatrixNil) <==> old(Runs).None? && Input.Some? && Input.value.SimpleMatrix.None?
      ensures table.presets ==
              if old(Runs).None? && HasMatrix() then old(table.presets) + Input.value.WorkerPresets
              else old(table.presets)
      ensures err.None? <==> old(Runs).None? && HasMatrix() &&
                             AllKnown(table.presets, Input.value.SimpleMatrix.value.Workers)
      ensures err.Some? && err.value.InvalidPreset? ==>
                HasMatrix() &&
                exists i :: FirstUnknown(table.presets, Input.value.SimpleMatrix.value.Workers, i, err.value.worker)
      ensures err.Some? ==> Runs == old(Runs)
      ensures err.None? ==>
                var m := Input.value.SimpleMatrix.value;
                IsMatrix(RunList(), table.presets, m) && (Runs.Some? <==> RunList() != [])
      ensures err.None? && Input.value.SimpleMatrix.value.NumaDisable != [] ==>
                DistinctFlags(RunList()) && forall r :: r in RunList() ==> fresh(r.NumaDisable)
    {
      if Runs.Some? {
        return Some(RunsNotNil);
      }
      if Input.None? {
        return Some(InputNil);
      }
      if Input.value.SimpleMatrix.None? {
        return Some(MatrixNil);
      }
      table.presets := table.presets + Input.value.WorkerPresets;
      var m := Input.value.SimpleMatrix.value;
      var a, invalid := Baselines(table.presets, m);
      if invalid.Some? {
        return Some(InvalidPreset(invalid.value));
      }
      a := Mixes(table.presets, m, a);
      a := WithSchedulers(a, table.presets, m);
      a := WithFlags(a, table.presets, m);
      Runs := if a == [] then None else Some(a);
      err := None;
    }
  }
}
