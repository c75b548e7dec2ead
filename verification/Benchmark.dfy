/** The data the controller's parts share. (controller/benchmark.go) */
module Benchmark {

  datatype Option<+T> = None | Some(value: T)

  datatype WorkerId = WorkerId(Set: int, Id: int)

  /** One report of one worker; times and cpu times in nanoseconds. */
  datatype WorkerReport = WorkerReport(Id: WorkerId, Now: int, Kops: int, MaxDelta: int, Cputime: int)

  /** The ids of a run with `counts[set]` workers in each set; a negative count stands for none. */
  predicate InRange(counts: seq<int>, id: WorkerId) {
    0 <= id.Set < |counts| && 0 <= id.Id < counts[id.Set]
  }

  predicate AllInRange(counts: seq<int>, raw: seq<WorkerReport>) {
    forall i :: 0 <= i < |raw| ==> InRange(counts, raw[i].Id)
  }

  /** The reports of one worker, in order. */
  function Proj(raw: seq<WorkerReport>, id: WorkerId): (p: seq<WorkerReport>)
    ensures forall e :: e in p ==> e.Id == id && e in raw
    ensures forall e :: e in raw && e.Id == id ==> e in p
  {
    if raw == [] then []
    else
      var k := |raw| - 1;
      Proj(raw[..k], id) + if raw[k].Id == id then [raw[k]] else []
  }

  lemma ProjSnoc(raw: seq<WorkerReport>, e: WorkerReport, id: WorkerId)
    ensures Proj(raw + [e], id) == if e.Id == id then Proj(raw, id) + [e] else Proj(raw, id)
  {
    assert (raw + [e])[..|raw|] == raw;
  }

  lemma {:induction false} ProjConcat(a: seq<WorkerReport>, b: seq<WorkerReport>, id: WorkerId)
    ensures Proj(a + b, id) == Proj(a, id) + Proj(b, id)
  {
    if b == [] {
      assert a + b == a;
    } else {
      var k := |b| - 1;
      assert a + b == (a + b[..k]) + [b[k]];
      ProjSnoc(a + b[..k], b[k], id);
      ProjConcat(a, b[..k], id);
    }
  }
}
