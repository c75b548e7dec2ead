/** Getting the cpu pool of a run ready, and the soft affinity that is read from it.
    (controller/run.go, Prep and GetCpumap) */
module Prep {
  import opened Benchmark
  import opened Bitmap
  import opened BitmapText
  import opened BitmapDecode
  import opened Cpupool

  datatype RunConfig = RunConfig(Scheduler: string, Pool: string, Cpus: Option<seq<int>>)

  datatype Why =
    | Ready
    | EmptyCpumap
    | SchedulerMismatch
    | CpumapMismatch
    | PoolMissing
    | InvalidScheduler
    | DestroyFailed
    | FreeFailed
    | CreateFailed

  /** Cpus below -7 make Bitmap.Set panic. */
  ghost predicate Accepted(config: RunConfig) {
    config.Cpus.Some? ==> forall i :: 0 <= i < |config.Cpus.value| ==> config.Cpus.value[i] > -8
  }

  ghost function SlotsOf(cpus: seq<int>): set<int>
    requires forall i :: 0 <= i < |cpus| ==> cpus[i] > -8
  {
    set i | 0 <= i < |cpus| :: Slot(cpus[i])
  }

  ghost function Request(config: RunConfig): set<int>
    requires Accepted(config)
  {
    if config.Cpus.None? then {} else SlotsOf(config.Cpus.value)
  }

  // ----------------------------------------------------------- which pool

  ghost function FirstWithId(pools: seq<Pool>, id: nat): (k: nat)
    ensures k <= |pools|
    ensures k < |pools| ==> pools[k].id == id
    ensures k == |pools| ==> FreshId(pools, id)
  {
    if pools == [] || pools[0].id == id then 0 else 1 + FirstWithId(pools[1..], id)
  }

  /** The index of the pool meant, or the number of pools if there is none. */
  ghost function Target(pools: seq<Pool>, name: string): (k: nat)
    ensures k <= |pools|
  {
    if name == "" then FirstWithId(pools, 0) else FirstNamed(pools, name)
  }

  ghost predicate Present(pools: seq<Pool>, name: string) {
    Target(pools, name) < |pools|
  }

  ghost predicate UsesPool0(pools: seq<Pool>, name: string) {
    Present(pools, name) && pools[Target(pools, name)].id == 0
  }

  predicate SchedulerFits(sched: string, config: RunConfig) {
    config.Scheduler == "" || sched == config.Scheduler
  }

  ghost function Visible(width: nat): set<int> {
    Interval(0, 8 * width - 1)
  }

  ghost predicate CpusFit(p: Pool, config: RunConfig, width: nat)
    requires Accepted(config)
  {
    config.Cpus.Some? ==> p.cpus == Request(config) * Visible(width)
  }

  /** Only then does Prep change anything. */
  ghost predicate Constructs(pools: seq<Pool>, config: RunConfig)
    requires Accepted(config)
  {
    config.Cpus.Some? && Request(config) != {} && !UsesPool0(pools, config.Pool)
  }

  ghost function Remaining(pools: seq<Pool>, name: string): seq<Pool> {
    if Present(pools, name) then Without(pools, Target(pools, name)) else pools
  }

  /** What a successful construction leaves: the pool asked for is gone, every other pool has
      lost exactly the requested cpus, and there is one new pool that has exactly those. */
  ghost predicate Built(before: seq<Pool>, after: seq<Pool>, config: RunConfig)
    requires Accepted(config)
  {
    exists id: nat :: FreshId(Remaining(before, config.Pool), id) &&
      after == AllLess(Remaining(before, config.Pool), Request(config)) +
               [Pool(id, "schedbench", config.Scheduler, Request(config))]
  }

  ghost predicate Kept(p: Pool, after: seq<Pool>, request: set<int>) {
    exists j :: 0 <= j < |after| && Shrunk(p, after[j], request)
  }

  ghost function Names(pools: seq<Pool>): (names: seq<string>)
    ensures |names| == |pools| && forall i :: 0 <= i < |names| ==> names[i] == pools[i].name
  {
    seq(|pools|, i requires 0 <= i < |pools| => pools[i].name)
  }

  /** No pool is renamed: one may be gone, and one called "schedbench" may have been added. */
  ghost predicate NamesFollow(before: seq<Pool>, after: seq<Pool>, config: RunConfig) {
    || Names(after) == Names(before)
    || Names(after) == Names(Remaining(before, config.Pool))
    || Names(after) == Names(Remaining(before, config.Pool)) + ["schedbench"]
  }

  /** No other pool has lost a cpu that was not asked for. */
  ghost predicate OthersKept(before: seq<Pool>, after: seq<Pool>, config: RunConfig)
    requires Accepted(config)
  {
    forall i :: 0 <= i < |before| && i != Target(before, config.Pool) ==>
      Kept(before[i], after, Request(config))
  }

  // ------------------------------------------------------------------ steps

  method RequestedCpumap(cpus: seq<int>) returns (cpumap: seq<bv8>)
    requires forall i :: 0 <= i < |cpus| ==> cpus[i] > -8
    ensures Bits(cpumap) == SlotsOf(cpus)
  {
    var bm := new Bitmap();
    assert SlotsOf(cpus[..0]) == {};
    for k := 0 to |cpus|
      invariant fresh(bm) && Bits(bm.bitmap) == SlotsOf(cpus[..k])
    {
      SlotsOfSnoc(cpus, k);
      bm.Set(cpus[k]);
    }
    assert cpus[..|cpus|] == cpus;
    cpumap := bm.bitmap;
  }

  lemma SlotsOfSnoc(cpus: seq<int>, k: nat)
    requires k < |cpus| && forall i :: 0 <= i < |cpus| ==> cpus[i] > -8
    ensures SlotsOf(cpus[..k + 1]) == SlotsOf(cpus[..k]) + {Slot(cpus[k])}
  {
    var a, b := cpus[..k], cpus[..k + 1];
    forall x ensures x in SlotsOf(b) <==> x in SlotsOf(a) || x == Slot(cpus[k]) {
      if x in SlotsOf(b) {
        var i :| 0 <= i < |b| && x == Slot(b[i]);
        assert i < k ==> a[i] == b[i];
      }
      if x in SlotsOf(a) {
        var i :| 0 <= i < |a| && x == Slot(a[i]);
        assert b[i] == a[i];
      }
      if x == Slot(cpus[k]) {
        assert b[k] == cpus[k];
      }
    }
  }

  /** The loop that compares the maps, bit by bit up to the pool's own width. */
  method CpuMatches(pool: seq<bv8>, cpumap: seq<bv8>) returns (matches: bool)
    ensures matches <==> Bits(pool) == Bits(cpumap) * Visible(|pool|)
  {
    var i := 0;
    while i <= |pool| * 8 - 1
      invariant 0 <= i <= |pool| * 8
      invariant forall j :: 0 <= j < i ==> (j in Bits(pool) <==> j in Bits(cpumap))
    {
      if TestIn(pool, i) != TestIn(cpumap, i) {
        return false;
      }
      i := i + 1;
    }
    return true;
  }

  /** Ctx.CpupoolInfo(0) or Ctx.CpupoolFindByName. */
  method FindPool(ctx: Context, name: string, ghost all: set<int>) returns (info: CpupoolInfo, present: bool)
    requires ctx.Valid(all) && !FreshId(ctx.pools, 0)
    ensures present <==> Present(ctx.pools, name)
    ensures present ==> Describes(info, ctx.pools[Target(ctx.pools, name)], ctx.width)
  {
    if name == "" {
      var r := ctx.CpupoolInfo(0, all);
      info, present := r.value, true;
    } else {
      info, present := ctx.CpupoolFindByName(name, all);
    }
  }

  /** The last part of Prep: destroy the pool, free the cpus and create the pool anew. */
  method Construct(ctx: Context, config: RunConfig, info: CpupoolInfo, present: bool, cpumap: seq<bv8>,
                   ghost all: set<int>) returns (why: Why)
    requires ctx.Valid(all) && Accepted(config)
    requires present <==> Present(ctx.pools, config.Pool)
    requires present ==> Describes(info, ctx.pools[Target(ctx.pools, config.Pool)], ctx.width)
    requires Bits(cpumap) == Request(config)
    modifies ctx
    ensures ctx.Valid(all)
    ensures why.Ready? ==> config.Scheduler in ctx.schedulers && Built(old(ctx.pools), ctx.pools, config)
    ensures config.Scheduler !in ctx.schedulers ==>
              why == InvalidScheduler && ctx.pools == old(ctx.pools) && ctx.free == old(ctx.free)
    ensures OthersKept(old(ctx.pools), ctx.pools, config)
    ensures NamesFollow(old(ctx.pools), ctx.pools, config)
    ensures config.Scheduler in ctx.schedulers && Request(config) <= all && !ctx.faulty ==> why.Ready?
  {
    if config.Scheduler !in ctx.schedulers {
      return InvalidScheduler;
    }
    if present {
      var ok := ctx.CpupoolDestroy(info.Poolid, Target(ctx.pools, config.Pool), all);
      if !ok {
        assert Names(ctx.pools) == Names(old(ctx.pools));
        return DestroyFailed;
      }
    }
    assert ctx.pools == Remaining(old(ctx.pools), config.Pool);
    label Destroyed:
    var ok := ctx.CpupoolMakeFree(cpumap, all);
    KeptAfterFreeing(old(ctx.pools), old@Destroyed(ctx.pools), ctx.pools, config);
    assert Names(ctx.pools) == Names(Remaining(old(ctx.pools), config.Pool));
    if !ok {
      return FreeFailed;
    }
    label Freed:
    ok := ctx.CpupoolCreate("schedbench", config.Scheduler, cpumap, all);
    KeptByPrefix(old(ctx.pools), old@Freed(ctx.pools), ctx.pools, config);
    NamesAfterCreation(old@Freed(ctx.pools), ctx.pools, "schedbench");
    why := if ok then Ready else CreateFailed;
  }

  lemma KeptAfterFreeing(before: seq<Pool>, remaining: seq<Pool>, freed: seq<Pool>, config: RunConfig)
    requires Accepted(config) && remaining == Remaining(before, config.Pool)
    requires AllShrunk(remaining, freed, Request(config))
    ensures OthersKept(before, freed, config)
  {
    var t := Target(before, config.Pool);
    forall i | 0 <= i < |before| && i != t
      ensures Kept(before[i], freed, Request(config))
    {
      var j := if i < t then i else i - 1;
      assert remaining[j] == before[i];
      assert Shrunk(remaining[j], freed[j], Request(config));
    }
  }

  lemma KeptByPrefix(before: seq<Pool>, freed: seq<Pool>, after: seq<Pool>, config: RunConfig)
    requires Accepted(config) && OthersKept(before, freed, config) && freed <= after
    ensures OthersKept(before, after, config)
  {
    forall i | 0 <= i < |before| && i != Target(before, config.Pool)
      ensures Kept(before[i], after, Request(config))
    {
      var j :| 0 <= j < |freed| && Shrunk(before[i], freed[j], Request(config));
      assert after[j] == freed[j];
    }
  }

  lemma NamesAfterCreation(freed: seq<Pool>, after: seq<Pool>, name: string)
    requires freed <= after && |after| <= |freed| + 1
    requires forall i :: |freed| <= i < |after| ==> after[i].name == name
    ensures Names(after) == Names(freed) || Names(after) == Names(freed) + [name]
  {
  }

  /** BenchmarkRun.Prep. */
  method Prep(ctx: Context, config: RunConfig, ghost all: set<int>) returns (ready: bool, why: Why)
    requires ctx.Valid(all) && !FreshId(ctx.pools, 0) && Accepted(config)
    modifies ctx
    // no cpu is created or lost, and pools stay disjoint, whatever fails
    ensures ctx.Valid(all)
    ensures ready <==> why == Ready
    ensures !Constructs(old(ctx.pools), config) ==> ctx.pools == old(ctx.pools) && ctx.free == old(ctx.free)
    ensures config.Cpus.Some? && Request(config) == {} ==> why == EmptyCpumap
    // Pool-0, or no cpus: the pool is used as it is if it fits
    ensures !(config.Cpus.Some? && Request(config) == {}) && !Constructs(old(ctx.pools), config) ==>
              why == old(Obstacle(ctx.pools, ctx.width, config))
    // whatever state the pool is in, if it is not Pool-0 and there are cpus
    ensures ready && config.Cpus.Some? && Request(config) != {} ==>
              var k := Target(old(ctx.pools), config.Pool);
              (k < |old(ctx.pools)| ==> old(ctx.pools)[k].id != 0) ==> Built(old(ctx.pools), ctx.pools, config)
    // so an unspecified scheduler is never a mismatch
    ensures !(config.Cpus.Some? && Request(config) == {}) && !Constructs(old(ctx.pools), config) ==>
              (why == SchedulerMismatch <==>
                 old(Present(ctx.pools, config.Pool)) && config.Scheduler != "" &&
                 old(ctx.pools[Target(ctx.pools, config.Pool)].sched) != config.Scheduler)
    // everything else: the pool is made anew
    ensures Constructs(old(ctx.pools), config) && ready ==> Built(old(ctx.pools), ctx.pools, config)
    ensures Constructs(old(ctx.pools), config) && config.Scheduler !in ctx.schedulers ==>
              why == InvalidScheduler && ctx.pools == old(ctx.pools) && ctx.free == old(ctx.free)
    ensures OthersKept(old(ctx.pools), ctx.pools, config)
    ensures NamesFollow(old(ctx.pools), ctx.pools, config)
    // and only a fault of libxl's can prevent that
    ensures old(Buildable(ctx.pools, ctx.schedulers, config, all)) && !ctx.faulty ==> ready
    // Pool-0 is never destroyed, so the next run can be prepared
    ensures !FreshId(ctx.pools, 0)
  {
    KeptItself(ctx.pools, config);
    CpusWithinWidth(ctx.pools, ctx.free, all, ctx.width);
    ObstacleExactly(ctx.pools, ctx.width, config);
    var cpumap: seq<bv8> := [];
    if config.Cpus.Some? {
      cpumap := RequestedCpumap(config.Cpus.value);
      var empty := EmptyBytes(cpumap);
      if empty {
        return false, EmptyCpumap;
      }
    }
    var info, present := FindPool(ctx, config.Pool, all);
    var schedMatches := !present || SchedulerFits(info.Scheduler, config);
    var cpuMatches := true;
    if config.Cpus.Some? {
      if present {
        cpuMatches := CpuMatches(info.Cpumap, cpumap);
      } else {
        cpuMatches := false;
      }
    }
    if present && info.Poolid == 0 {
      why := if !schedMatches then SchedulerMismatch else if !cpuMatches then CpumapMismatch else Ready;
      return why == Ready, why;
    }
    if config.Cpus.None? {
      why := if !present then PoolMissing else if !schedMatches then SchedulerMismatch else Ready;
      return why == Ready, why;
    }
    why := Construct(ctx, config, info, present, cpumap, all);
    ready := why == Ready;
    Pool0Kept(old(ctx.pools), ctx.pools, config);
  }

  ghost predicate Buildable(pools: seq<Pool>, schedulers: set<string>, config: RunConfig, all: set<int>)
    requires Accepted(config)
  {
    Constructs(pools, config) && config.Scheduler in schedulers && Request(config) <= all
  }

  lemma Pool0Kept(before: seq<Pool>, after: seq<Pool>, config: RunConfig)
    requires Accepted(config) && Constructs(before, config) && OthersKept(before, after, config)
    requires !FreshId(before, 0)
    ensures !FreshId(after, 0)
  {
    var i :| 0 <= i < |before| && before[i].id == 0;
    assert Kept(before[i], after, Request(config));
  }

  /** What is wrong with the pool meant: that it is missing, or else has another scheduler
      than asked for, or else other cpus. */
  ghost function Obstacle(pools: seq<Pool>, width: nat, config: RunConfig): (why: Why)
    requires Accepted(config)
    ensures why == Ready <==> Fits(pools, width, config)
  {
    if !Present(pools, config.Pool) then PoolMissing
    else
      var p := pools[Target(pools, config.Pool)];
      if !SchedulerFits(p.sched, config) then SchedulerMismatch
      else if !CpusFit(p, config, width) then CpumapMismatch
      else Ready
  }

  /** The pool meant exists and has the scheduler and the cpus asked for, if any were. */
  ghost predicate Fits(pools: seq<Pool>, width: nat, config: RunConfig)
    requires Accepted(config)
  {
    Present(pools, config.Pool) &&
    var p := pools[Target(pools, config.Pool)];
    SchedulerFits(p.sched, config) && CpusFit(p, config, width)
  }

  ghost predicate Differ(a: set<int>, b: set<int>) {
    exists c :: c in a + b && (c in a <==> c !in b)
  }

  lemma DifferExactly(a: set<int>, b: set<int>, width: nat)
    requires forall c :: c in a ==> 0 <= c < 8 * width
    ensures a == b * Visible(width) <==> !Differ(a, set c | c in b && 0 <= c < 8 * width)
  {
    var v := set c | c in b && 0 <= c < 8 * width;
    forall c ensures c in v <==> c in b * Visible(width) {
      assert Within(c, 0, 8 * width - 1) <==> 0 <= c < 8 * width;
    }
    assert v == b * Visible(width);
    if !Differ(a, v) {
      forall c ensures c in a <==> c in v {
        assert c in a + v ==> (c in a <==> c in v);
      }
    }
  }

  /** The same in terms of the pool and of what was asked for: a scheduler is compared only if one
      was, cpus only if there were any, and up to the width of the host's maps. */
  lemma ObstacleExactly(pools: seq<Pool>, width: nat, config: RunConfig)
    requires Accepted(config)
    requires forall i, c :: 0 <= i < |pools| && c in pools[i].cpus ==> 0 <= c < 8 * width
    ensures var why, k := Obstacle(pools, width, config), Target(pools, config.Pool);
            && (why == PoolMissing <==> k == |pools|)
            && (why == SchedulerMismatch <==>
                  k < |pools| && config.Scheduler != "" && pools[k].sched != config.Scheduler)
            && (why == CpumapMismatch <==>
                  && k < |pools| && (config.Scheduler == "" || pools[k].sched == config.Scheduler)
                  && config.Cpus.Some?
                  && Differ(pools[k].cpus, set c | c in Request(config) && 0 <= c < 8 * width))
            && (why == Ready <==> why !in {PoolMissing, SchedulerMismatch, CpumapMismatch})
  {
    var k := Target(pools, config.Pool);
    if k < |pools| {
      DifferExactly(pools[k].cpus, Request(config), width);
    }
  }

  lemma CpusWithinWidth(pools: seq<Pool>, free: set<int>, all: set<int>, width: nat)
    requires Consistent(pools, free, all) && forall c :: c in all ==> 0 <= c < 8 * width
    ensures forall i, c :: 0 <= i < |pools| && c in pools[i].cpus ==> 0 <= c < 8 * width
  {
    forall i, c | 0 <= i < |pools| && c in pools[i].cpus ensures c in all {
      OwnedMember(pools, c);
    }
  }

  /** For ordinary cpu numbers the request is what was listed. */
  lemma RequestIsListed(config: RunConfig, cpu: int)
    requires config.Cpus.Some? && forall i :: 0 <= i < |config.Cpus.value| ==> config.Cpus.value[i] >= 0
    ensures Accepted(config) && (cpu in Request(config) <==> cpu in config.Cpus.value)
  {
    var cpus := config.Cpus.value;
    if cpu in cpus {
      var i :| 0 <= i < |cpus| && cpus[i] == cpu;
      assert Slot(cpus[i]) == cpu;
    }
  }

  lemma KeptItself(pools: seq<Pool>, config: RunConfig)
    requires Accepted(config)
    ensures OthersKept(pools, pools, config)
  {
    forall i | 0 <= i < |pools| && i != Target(pools, config.Pool)
      ensures Kept(pools[i], pools, Request(config))
    {
      assert Shrunk(pools[i], pools[i], Request(config));
    }
  }

  // ------------------------------------------------------------ consequences

  ghost predicate DistinctNames(pools: seq<Pool>) {
    forall i, j :: 0 <= i < j < |pools| ==> pools[i].name != pools[j].name
  }

  /** Cpus beyond the host's maps are not looked at: the request is met in full exactly when
      it has none of them. */
  lemma FitIsExact(p: Pool, config: RunConfig, width: nat)
    requires Accepted(config) && config.Cpus.Some? && CpusFit(p, config, width)
    ensures p.cpus == Request(config) <==> Request(config) <= Visible(width)
  {
  }

  /** The new pool takes only cpus the host has. */
  lemma BuiltFromHost(before: seq<Pool>, after: seq<Pool>, free: set<int>, config: RunConfig, all: set<int>)
    requires Accepted(config) && Built(before, after, config) && Consistent(after, free, all)
    ensures Request(config) <= all
    ensures forall i :: 0 <= i < |after| - 1 ==> after[i].cpus !! Request(config)
  {
    var k := |after| - 1;
    forall c | c in Request(config) ensures c in all {
      assert c in after[k].cpus;
      OwnedMember(after, c);
    }
  }

  ghost predicate NoneCalled(pools: seq<Pool>, name: string) {
    forall i :: 0 <= i < |pools| ==> pools[i].name != name
  }

  lemma RemainingOnlyOthers(pools: seq<Pool>, name: string)
    requires DistinctNames(pools) && name != ""
    ensures NoneCalled(Remaining(pools, name), name)
  {
    var t := Target(pools, name);
    if t < |pools| {
      forall i | 0 <= i < |Without(pools, t)| ensures Without(pools, t)[i].name != name {
        WithoutIndex(pools, t, i);
      }
    }
  }

  /** The pool that the run will find has exactly the scheduler and the cpus asked for. */
  ghost predicate AsAsked(pools: seq<Pool>, config: RunConfig)
    requires Accepted(config)
  {
    Present(pools, config.Pool) &&
    var p := pools[Target(pools, config.Pool)];
    p.sched == config.Scheduler && p.cpus == Request(config)
  }

  lemma FoundAfterCreation(others: seq<Pool>, after: seq<Pool>, name: string)
    requires |after| == |others| + 1 && after[|others|].name == "schedbench"
    requires forall i :: 0 <= i < |others| ==> after[i].name == others[i].name
    ensures var k := FirstNamed(after, name);
            && (k < |after| <==> name == "schedbench" || !NoneCalled(others, name))
            && (k == |others| <==> name == "schedbench" && NoneCalled(others, name))
  {
    if NoneCalled(others, name) {
      FirstNamedUnique(after, name, if name == "schedbench" then |others| else |after|);
    } else {
      var i :| 0 <= i < |others| && others[i].name == name;
      assert after[i].name == name;
    }
  }

  /** After a construction the run finds a pool exactly if its own is called "schedbench", or
      another of that name was left. What it finds is the pool built exactly if its own is called
      "schedbench" and no other was; every other pool has none of the cpus asked for. */
  lemma RunsPoolExists(before: seq<Pool>, after: seq<Pool>, config: RunConfig)
    requires Accepted(config) && Constructs(before, config) && Built(before, after, config)
    requires !FreshId(before, 0)
    ensures var others := Remaining(before, config.Pool);
            && (Present(after, config.Pool) <==> config.Pool == "schedbench" || !NoneCalled(others, config.Pool))
            && (AsAsked(after, config) <==> config.Pool == "schedbench" && NoneCalled(others, config.Pool))
  {
    assert config.Pool != "";
    var others := Remaining(before, config.Pool);
    FoundAfterCreation(others, after, config.Pool);
    var k := Target(after, config.Pool);
    if k < |others| {
      assert after[k] == Less(others[k], Request(config));
      assert after[k].cpus !! Request(config);
    }
  }

  /** With no name used twice, it finds a pool exactly if its own is called "schedbench", and
      that pool is as asked. */
  lemma RunsPoolAmongDistinct(before: seq<Pool>, after: seq<Pool>, config: RunConfig)
    requires Accepted(config) && Constructs(before, config) && Built(before, after, config)
    requires DistinctNames(before) && !FreshId(before, 0)
    ensures Present(after, config.Pool) <==> config.Pool == "schedbench"
    ensures config.Pool == "schedbench" ==> AsAsked(after, config)
  {
    RemainingOnlyOthers(before, config.Pool);
    RunsPoolExists(before, after, config);
  }

  lemma RemainingDistinct(pools: seq<Pool>, name: string)
    requires DistinctNames(pools)
    ensures DistinctNames(Remaining(pools, name))
  {
    var t := Target(pools, name);
    if t < |pools| {
      var r := Without(pools, t);
      forall i, j | 0 <= i < j < |r| ensures r[i].name != r[j].name {
        WithoutIndex(pools, t, i);
        WithoutIndex(pools, t, j);
      }
    }
  }

  /** However Prep ends, no name comes to be used twice if no other pool is called "schedbench". */
  lemma NamesStayDistinct(before: seq<Pool>, after: seq<Pool>, config: RunConfig)
    requires DistinctNames(before) && NamesFollow(before, after, config)
    requires NoneCalled(Remaining(before, config.Pool), "schedbench")
    ensures DistinctNames(after)
  {
    var others := Remaining(before, config.Pool);
    RemainingDistinct(before, config.Pool);
    var names := Names(after);
    forall i, j | 0 <= i < j < |after| ensures after[i].name != after[j].name {
      assert names[i] == after[i].name && names[j] == after[j].name;
    }
  }

  /** A construction keeps names distinct exactly then. */
  lemma BuiltNamesDistinct(before: seq<Pool>, after: seq<Pool>, config: RunConfig)
    requires Accepted(config) && Built(before, after, config) && DistinctNames(before)
    ensures DistinctNames(after) <==> NoneCalled(Remaining(before, config.Pool), "schedbench")
  {
    var others := Remaining(before, config.Pool);
    assert Names(after) == Names(others) + ["schedbench"];
    if NoneCalled(others, "schedbench") {
      NamesStayDistinct(before, after, config);
    } else {
      var i :| 0 <= i < |others| && others[i].name == "schedbench";
      assert after[i].name == after[|others|].name;
    }
  }

  /** Two pools called "schedbench", of which Prep replaces the first: it is ready, but the run
      finds the other one, with another scheduler and without cpus. */
  lemma TwoOfOneNameInput()
    ensures var p0 := Pool(0, "Pool-0", "credit", {0, 1});
            var before := [p0, Pool(1, "schedbench", "credit", {}), Pool(2, "schedbench", "credit2", {2})];
            var after := [p0, Pool(2, "schedbench", "credit2", {}), Pool(3, "schedbench", "credit", {2})];
            var config := RunConfig("credit", "schedbench", Some([2]));
            && Accepted(config) && Constructs(before, config) && Built(before, after, config)
            && Target(after, config.Pool) == 1 && !AsAsked(after, config)
  {
    var p0 := Pool(0, "Pool-0", "credit", {0, 1});
    var before := [p0, Pool(1, "schedbench", "credit", {}), Pool(2, "schedbench", "credit2", {2})];
    var after := [p0, Pool(2, "schedbench", "credit2", {}), Pool(3, "schedbench", "credit", {2})];
    var config := RunConfig("credit", "schedbench", Some([2]));
    assert SlotsOf([2]) == {2} by {
      assert [2][0] == 2 && Slot(2) == 2;
    }
    FirstNamedUnique(before, "schedbench", 1);
    FirstNamedUnique(after, "schedbench", 1);
    var others := Remaining(before, "schedbench");
    assert others == [p0, before[2]];
    assert {0, 1} - {2} == {0, 1} && {2} - {2} == {};
    assert AllLess(others, {2}) == [after[0], after[1]];
    assert FreshId(others, 3) && after == AllLess(others, Request(config)) + [after[2]];
  }

  // ---------------------------------------------------------- soft affinity

  /** BenchmarkRun.GetCpumap; None where it panics. */
  method GetCpumap(ctx: Context, config: RunConfig, ghost all: set<int>) returns (cpumap: Option<seq<bv8>>)
    requires ctx.Valid(all) && !FreshId(ctx.pools, 0)
    ensures cpumap.Some? <==> Present(ctx.pools, config.Pool)
    ensures cpumap.Some? ==> Bits(cpumap.value) == ctx.pools[Target(ctx.pools, config.Pool)].cpus
  {
    var info, present := FindPool(ctx, config.Pool, all);
    cpumap := if present then Some(info.Cpumap) else None;
  }

  /** The soft affinity that disables NUMA placement: read back, it is the pool's cpus. */
  method SoftAffinity(ctx: Context, config: RunConfig, ghost all: set<int>) returns (affinity: Option<string>)
    requires ctx.Valid(all) && !FreshId(ctx.pools, 0)
    ensures affinity.Some? <==> Present(ctx.pools, config.Pool)
    ensures affinity.Some? ==>
              Decode(affinity.value) == Some(ctx.pools[Target(ctx.pools, config.Pool)].cpus)
  {
    var cpumap := GetCpumap(ctx, config, all);
    if cpumap.None? {
      return None;
    }
    var bm := new Bitmap();
    bm.bitmap := cpumap.value;
    var s := String(bm);
    PrintRoundTrip(s, Bits(bm.bitmap));
    affinity := Some(s);
  }
}
