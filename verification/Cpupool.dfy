/** Cpu pools: what libxl keeps, what may happen when it is told to change it, and the
    helpers the controller builds on it. (controller/libxl.go) */
module Cpupool {
  import opened Benchmark
  import opened Bitmap

  datatype Pool = Pool(id: nat, name: string, sched: string, cpus: set<int>)

  datatype CpupoolInfo = Info(Poolid: nat, PoolName: string, Scheduler: string, Cpumap: seq<bv8>)

  // ------------------------------------------------- what libxl guarantees

  ghost function Owned(pools: seq<Pool>): set<int> {
    set i, c | 0 <= i < |pools| && c in pools[i].cpus :: c
  }

  ghost predicate DistinctIds(pools: seq<Pool>) {
    forall i, j :: 0 <= i < j < |pools| ==> pools[i].id != pools[j].id
  }

  /** No cpu is in two pools, and a free cpu is in none. */
  ghost predicate Disjoint(pools: seq<Pool>, free: set<int>) {
    && (forall i, j :: 0 <= i < j < |pools| ==> pools[i].cpus !! pools[j].cpus)
    && (forall i :: 0 <= i < |pools| ==> pools[i].cpus !! free)
  }

  /** A consistent host with these cpus. */
  ghost predicate Consistent(pools: seq<Pool>, free: set<int>, all: set<int>) {
    DistinctIds(pools) && Disjoint(pools, free) && Owned(pools) + free == all
  }

  lemma OwnedMember(pools: seq<Pool>, c: int)
    ensures c in Owned(pools) <==> exists i :: 0 <= i < |pools| && c in pools[i].cpus
  {
  }

  function Without(pools: seq<Pool>, k: nat): seq<Pool>
    requires k < |pools|
  {
    pools[..k] + pools[k + 1..]
  }

  lemma WithoutIndex(pools: seq<Pool>, k: nat, i: nat)
    requires k < |pools| && i < |pools| - 1
    ensures Without(pools, k)[i] == pools[if i < k then i else i + 1]
  {
  }

  /** Cpus that leave a pool become free. */
  lemma ShrinkConserves(pools: seq<Pool>, free: set<int>, all: set<int>, k: nat, moved: set<int>)
    requires Consistent(pools, free, all) && k < |pools| && moved <= pools[k].cpus
    ensures Consistent(pools[k := pools[k].(cpus := pools[k].cpus - moved)], free + moved, all)
  {
    var after := pools[k := pools[k].(cpus := pools[k].cpus - moved)];
    forall c ensures c in Owned(after) + (free + moved) <==> c in all {
      OwnedMember(pools, c);
      OwnedMember(after, c);
      if i :| 0 <= i < |pools| && c in pools[i].cpus {
        assert c in after[i].cpus || c in moved;
      }
      if i :| 0 <= i < |after| && c in after[i].cpus {
        assert c in pools[i].cpus;
      }
    }
  }

  lemma DropConserves(pools: seq<Pool>, free: set<int>, all: set<int>, k: nat)
    requires Consistent(pools, free, all) && k < |pools|
    ensures Consistent(Without(pools, k), free + pools[k].cpus, all)
  {
    var after := Without(pools, k);
    forall i | 0 <= i < |after| ensures after[i] == pools[if i < k then i else i + 1] {
      WithoutIndex(pools, k, i);
    }
    forall c ensures c in Owned(after) + (free + pools[k].cpus) <==> c in all {
      OwnedMember(pools, c);
      OwnedMember(after, c);
      if i :| 0 <= i < |pools| && c in pools[i].cpus {
        assert i < k ==> after[i] == pools[i];
        assert i > k ==> after[i - 1] == pools[i];
      }
      if i :| 0 <= i < |after| && c in after[i].cpus {
        assert c in pools[if i < k then i else i + 1].cpus;
      }
    }
  }

  ghost predicate FreshId(pools: seq<Pool>, id: nat) {
    forall i :: 0 <= i < |pools| ==> pools[i].id != id
  }

  lemma AddConserves(pools: seq<Pool>, free: set<int>, all: set<int>, p: Pool)
    requires Consistent(pools, free, all) && p.cpus <= free && FreshId(pools, p.id)
    ensures Consistent(pools + [p], free - p.cpus, all)
  {
    var after := pools + [p];
    forall c ensures c in Owned(after) + (free - p.cpus) <==> c in all {
      OwnedMember(pools, c);
      OwnedMember(after, c);
      if i :| 0 <= i < |pools| && c in pools[i].cpus {
        assert c in after[i].cpus;
      }
      assert c in p.cpus ==> c in after[|pools|].cpus;
      if i :| 0 <= i < |after| && c in after[i].cpus {
        assert i < |pools| ==> c in pools[i].cpus;
      }
    }
  }

  // -------------------------------------------------------------- the lookups

  function FirstNamed(pools: seq<Pool>, name: string): (k: nat)
    ensures k <= |pools|
    ensures k < |pools| ==> pools[k].name == name
    ensures forall i :: 0 <= i < k ==> pools[i].name != name
  {
    if pools == [] || pools[0].name == name then 0 else 1 + FirstNamed(pools[1..], name)
  }

  lemma FirstNamedUnique(pools: seq<Pool>, name: string, k: nat)
    requires k <= |pools| && (k < |pools| ==> pools[k].name == name)
    requires forall i :: 0 <= i < k ==> pools[i].name != name
    ensures FirstNamed(pools, name) == k
  {
  }

  /** What a listing says of a pool, at the width of the host's cpu maps. */
  ghost predicate Describes(info: CpupoolInfo, p: Pool, width: nat) {
    && info.Poolid == p.id && info.PoolName == p.name && info.Scheduler == p.sched
    && Bits(info.Cpumap) == p.cpus && |info.Cpumap| == width
  }

  ghost predicate DescribesAll(infos: seq<CpupoolInfo>, pools: seq<Pool>, width: nat) {
    |infos| == |pools| && forall i :: 0 <= i < |pools| ==> Describes(infos[i], pools[i], width)
  }

  // --------------------------------------------------- taking cpus out of pools

  /** The same pool, less no cpu outside the request. */
  ghost predicate Shrunk(before: Pool, after: Pool, request: set<int>) {
    after == before.(cpus := after.cpus) && before.cpus - request <= after.cpus <= before.cpus
  }

  function Less(p: Pool, request: set<int>): Pool {
    p.(cpus := p.cpus - request)
  }

  lemma LessByIntersection(p: Pool, request: set<int>, intersection: set<int>)
    requires intersection == request * p.cpus
    ensures Less(p, intersection) == Less(p, request)
    ensures intersection == {} ==> Less(p, request) == p
    ensures forall after :: Shrunk(p, after, intersection) ==> Shrunk(p, after, request)
  {
    assert p.cpus - intersection == p.cpus - request;
  }

  ghost predicate AllShrunk(before: seq<Pool>, after: seq<Pool>, request: set<int>) {
    |after| == |before| && forall i :: 0 <= i < |before| ==> Shrunk(before[i], after[i], request)
  }

  function AllLess(pools: seq<Pool>, request: set<int>): (r: seq<Pool>)
    ensures |r| == |pools| && forall i :: 0 <= i < |pools| ==> r[i] == Less(pools[i], request)
  {
    seq(|pools|, i requires 0 <= i < |pools| => Less(pools[i], request))
  }

  /** libxl's view of the host. Every call that changes it may fail, and a call that moves
      several cpus may fail when only some of them have been moved. */
  class Context {
    var pools: seq<Pool>
    var free: set<int>
    const width: nat                // bytes in a cpu map
    const schedulers: set<string>   // the names libxl knows

    ghost var faulty: bool          // some call has failed for a reason of its own

    ghost predicate Valid(all: set<int>)
      reads this
    {
      && Consistent(pools, free, all)
      && forall c :: c in all ==> 0 <= c < 8 * width
    }

    method ToGo(cpus: set<int>) returns (m: seq<bv8>)
      requires forall c :: c in cpus ==> 0 <= c < 8 * width
      ensures Bits(m) == cpus && |m| == width
    {
      var bm := new Bitmap();
      bm.bitmap := Zeros(width);
      NoBitsIfZero(bm.bitmap);
      for i := 0 to 8 * width
        invariant fresh(bm) && |bm.bitmap| == width
        invariant forall c :: c in Bits(bm.bitmap) <==> c in cpus && c < i
      {
        if i in cpus {
          bm.Set(i);
        }
      }
      m := bm.bitmap;
    }

    method ListCpupool(ghost all: set<int>) returns (plist: seq<CpupoolInfo>)
      requires Valid(all)
      ensures DescribesAll(plist, pools, width)
    {
      plist := [];
      for i := 0 to |pools|
        invariant |plist| == i
        invariant forall j :: 0 <= j < i ==> Describes(plist[j], pools[j], width)
      {
        assert forall c :: c in pools[i].cpus ==> c in Owned(pools);
        var m := ToGo(pools[i].cpus);
        plist := plist + [Info(pools[i].id, pools[i].name, pools[i].sched, m)];
      }
    }

    method CpupoolInfo(id: nat, ghost all: set<int>) returns (info: Option<CpupoolInfo>)
      requires Valid(all)
      ensures info.None? ==> FreshId(pools, id)
      ensures info.Some? ==> exists k :: 0 <= k < |pools| && pools[k].id == id && Describes(info.value, pools[k], width)
    {
      var plist := ListCpupool(all);
      for i := 0 to |plist|
        invariant forall j :: 0 <= j < i ==> pools[j].id != id
      {
        if plist[i].Poolid == id {
          return Some(plist[i]);
        }
      }
      return None;
    }

    method CpupoolFindByName(name: string, ghost all: set<int>) returns (info: CpupoolInfo, found: bool)
      requires Valid(all)
      ensures found <==> FirstNamed(pools, name) < |pools|
      ensures found ==> Describes(info, pools[FirstNamed(pools, name)], width)
    {
      var plist := ListCpupool(all);
      for i := 0 to |plist|
        invariant forall j :: 0 <= j < i ==> pools[j].name != name
      {
        if plist[i].PoolName == name {
          FirstNamedUnique(pools, name, i);
          return plist[i], true;
        }
      }
      FirstNamedUnique(pools, name, |pools|);
      found := false;
      info := Info(0, "", "", []);
    }

    /** libxl_cpupool_cpuremove_cpumap */
    method CpupoolCpuremoveCpumap(id: nat, cpumap: seq<bv8>, ghost k: nat, ghost all: set<int>) returns (ok: bool)
      requires Valid(all) && k < |pools| && pools[k].id == id && Bits(cpumap) <= pools[k].cpus
      modifies this
      ensures Valid(all) && old(free) <= free
      ensures |pools| == |old(pools)| && forall i :: 0 <= i < |pools| && i != k ==> pools[i] == old(pools)[i]
      ensures Shrunk(old(pools)[k], pools[k], Bits(cpumap))
      ensures ok ==> pools[k] == Less(old(pools)[k], Bits(cpumap))
      ensures faulty <==> old(faulty) || !ok
    {
      var j := 0;
      while pools[j].id != id
        invariant 0 <= j <= k
        decreases |pools| - j
      {
        j := j + 1;
      }
      ok := *;
      var part: set<int> := *;
      var moved := if ok then Bits(cpumap) else part * Bits(cpumap);
      ShrinkConserves(pools, free, all, j, moved);
      pools := pools[j := pools[j].(cpus := pools[j].cpus - moved)];
      free := free + moved;
      faulty := faulty || !ok;
    }

    /** libxl_cpupool_destroy */
    method CpupoolDestroy(id: nat, ghost k: nat, ghost all: set<int>) returns (ok: bool)
      requires Valid(all) && k < |pools| && pools[k].id == id
      modifies this
      ensures Valid(all) && old(free) <= free
      ensures ok ==> pools == Without(old(pools), k)
      ensures !ok ==> |pools| == |old(pools)| && forall i :: 0 <= i < |pools| && i != k ==> pools[i] == old(pools)[i]
      ensures !ok ==> Shrunk(old(pools)[k], pools[k], old(pools)[k].cpus)
      ensures faulty <==> old(faulty) || !ok
    {
      var j := 0;
      while pools[j].id != id
        invariant 0 <= j <= k
        decreases |pools| - j
      {
        j := j + 1;
      }
      ok := *;
      if ok {
        DropConserves(pools, free, all, j);
        free := free + pools[j].cpus;
        pools := Without(pools, j);
      } else {
        var part: set<int> := *;
        var moved := part * pools[j].cpus;
        ShrinkConserves(pools, free, all, j, moved);
        pools := pools[j := pools[j].(cpus := pools[j].cpus - moved)];
        free := free + moved;
      }
      faulty := faulty || !ok;
    }

    /** libxl_cpupool_create: only free cpus can be used. After a failure there may be a pool
        with some of the cpus. */
    method CpupoolCreate(name: string, sched: string, cpumap: seq<bv8>, ghost all: set<int>) returns (ok: bool)
      requires Valid(all)
      modifies this
      ensures Valid(all)
      ensures ok ==> Bits(cpumap) <= old(free) && exists id: nat ::
                FreshId(old(pools), id) && pools == old(pools) + [Pool(id, name, sched, Bits(cpumap))]
      ensures !ok ==> old(pools) <= pools && |pools| <= |old(pools)| + 1
      ensures forall i :: |old(pools)| <= i < |pools| ==> pools[i].name == name
      ensures old(faulty) || (!ok && Bits(cpumap) <= old(free)) ==> faulty
    {
      ok := *;
      faulty := faulty || !ok;
      var attempted: bool := *;
      var part: set<int> := *;
      ok := ok && Bits(cpumap) <= free;
      if ok || attempted {
        var id: nat := 0;
        for i := 0 to |pools|
          invariant forall j :: 0 <= j < i ==> pools[j].id < id
        {
          id := if pools[i].id < id then id else pools[i].id + 1;
        }
        var p := Pool(id, name, sched, if ok then Bits(cpumap) else part * Bits(cpumap) * free);
        AddConserves(pools, free, all, p);
        pools := pools + [p];
        free := free - p.cpus;
      }
    }

    /** The body of the loop of CpupoolMakeFree. */
    method FreeFrom(info: CpupoolInfo, cpumap: seq<bv8>, ghost k: nat, ghost all: set<int>) returns (ok: bool)
      requires Valid(all) && k < |pools| && Describes(info, pools[k], width)
      modifies this
      ensures Valid(all) && old(free) <= free
      ensures |pools| == |old(pools)| && forall i :: 0 <= i < |pools| && i != k ==> pools[i] == old(pools)[i]
      ensures Shrunk(old(pools)[k], pools[k], Bits(cpumap))
      ensures ok ==> pools[k] == Less(old(pools)[k], Bits(cpumap))
      ensures faulty <==> old(faulty) || !ok
    {
      var intersection := AndBytes(cpumap, info.Cpumap);
      LessByIntersection(pools[k], Bits(cpumap), Bits(intersection));
      var empty := EmptyBytes(intersection);
      ok := true;
      if !empty {
        ok := CpupoolCpuremoveCpumap(info.Poolid, intersection, k, all);
      }
    }

    /** Takes the requested cpus away from every pool that has some, working from a list
        made at the beginning. */
    method CpupoolMakeFree(cpumap: seq<bv8>, ghost all: set<int>) returns (ok: bool)
      requires Valid(all)
      modifies this
      ensures Valid(all) && old(free) <= free
      ensures AllShrunk(old(pools), pools, Bits(cpumap))
      ensures ok ==> pools == AllLess(old(pools), Bits(cpumap)) && Bits(cpumap) * all <= free
      ensures faulty <==> old(faulty) || !ok
    {
      var plist := ListCpupool(all);
      for i := 0 to |plist|
        invariant Valid(all) && old(free) <= free && |pools| == |old(pools)| && faulty == old(faulty)
        invariant forall j :: 0 <= j < i ==> pools[j] == Less(old(pools)[j], Bits(cpumap))
        invariant forall j :: i <= j < |pools| ==> pools[j] == old(pools)[j]
      {
        ok := FreeFrom(plist[i], cpumap, i, all);
        if !ok {
          return;
        }
      }
      ok := true;
      FreeAfterLess(old(pools), pools, free, all, Bits(cpumap));
    }
  }

  /** Cpus that are in no pool are free. */
  lemma FreeAfterLess(before: seq<Pool>, after: seq<Pool>, free: set<int>, all: set<int>, request: set<int>)
    requires after == AllLess(before, request) && Consistent(after, free, all)
    ensures request * all <= free
  {
    forall c | c in request * all ensures c in free {
      OwnedMember(after, c);
    }
  }
}
