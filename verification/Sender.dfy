/** What a worker's goroutine does with its console: keep every line, and from the line
    after "START JSON" on turn every line into a report under its own id.
    (controller/xenworker.go, controller/processworker.go, Process) */
module Sender {
  import opened Benchmark

  const START: string := "START JSON"

  /** JSON decoding, and for Xen the cpu time looked up at that moment; the number
      distinguishes equal lines read at different times. */
  type Decoder = (nat, string) -> WorkerReport

  function Tag(r: WorkerReport, id: WorkerId): WorkerReport {
    r.(Id := id)
  }

  /** The reports made of the lines read so far. */
  function Emitted(lines: seq<string>, id: WorkerId, decode: Decoder): (rs: seq<WorkerReport>)
    ensures forall r :: r in rs ==> r.Id == id
    ensures START !in lines ==> rs == []
  {
    if lines == [] then []
    else
      var k := |lines| - 1;
      var before := Emitted(lines[..k], id, decode);
      if START in lines[..k] then before + [Tag(decode(k, lines[k]), id)] else before
  }

  /** Exactly the lines after the first START JSON, in order, one report each: as decoded, but
      for the id. */
  lemma {:induction false} EmittedIsTail(lines: seq<string>, first: nat, id: WorkerId, decode: Decoder)
    requires first < |lines| && lines[first] == "START JSON" && "START JSON" !in lines[..first]
    ensures var rs := Emitted(lines, id, decode);
            && |rs| == |lines| - first - 1
            && forall j :: 0 <= j < |rs| ==>
                 var d := decode(first + 1 + j, lines[first + 1 + j]);
                 rs[j] == WorkerReport(id, d.Now, d.Kops, d.MaxDelta, d.Cputime)
  {
    var k := |lines| - 1;
    if first < k {
      assert lines[..k][..first] == lines[..first];
      EmittedIsTail(lines[..k], first, id, decode);
      assert lines[..k][first] == "START JSON";
    }
  }

  lemma EmittedSnoc(lines: seq<string>, s: string, id: WorkerId, decode: Decoder)
    ensures Emitted(lines + [s], id, decode) ==
            Emitted(lines, id, decode) + if START in lines then [Tag(decode(|lines|, s), id)] else []
  {
    assert (lines + [s])[..|lines|] == lines;
  }

  lemma ReadNext(lines: seq<string>, i: nat, id: WorkerId, decode: Decoder)
    requires i < |lines|
    ensures lines[..i + 1] == lines[..i] + [lines[i]]
    ensures START in lines[..i + 1] <==> START in lines[..i] || lines[i] == START
    ensures Emitted(lines[..i + 1], id, decode) ==
            Emitted(lines[..i], id, decode) + if START in lines[..i] then [Tag(decode(i, lines[i]), id)] else []
  {
    EmittedSnoc(lines[..i], lines[i], id, decode);
    assert lines[..i + 1] == lines[..i] + [lines[i]];
  }

  datatype Kind = ProcessKind | XenKind

  class Worker {
    const kind: Kind
    const id: WorkerId
    var jsonStarted: bool
    var Log: seq<string>

    constructor (kind: Kind, id: WorkerId)
      ensures this.kind == kind && this.id == id && !jsonStarted && Log == []
    {
      this.kind, this.id := kind, id;
      jsonStarted, Log := false, [];
    }

    /** Process: returns what was sent on the report channel, and whether done was sent.
        A Xen worker whose domain cannot be unpaused sends nothing, not even done. */
    method Process(lines: seq<string>, decode: Decoder, unpauseOk: bool)
        returns (sent: seq<WorkerReport>, done: bool)
      requires !jsonStarted && Log == []
      modifies this
      ensures done <==> kind == ProcessKind || unpauseOk
      ensures done ==> Log == lines && sent == Emitted(lines, id, decode) && jsonStarted == (START in lines)
      ensures !done ==> Log == [] && sent == []
    {
      sent := [];
      if kind == XenKind && !unpauseOk {
        return [], false;
      }
      for i := 0 to |lines|
        invariant Log == lines[..i]
        invariant jsonStarted <==> START in lines[..i]
        invariant sent == Emitted(lines[..i], id, decode)
      {
        var s := lines[i];
        ReadNext(lines, i, id, decode);
        Log := Log + [s];
        if jsonStarted {
          sent := sent + [Tag(decode(i, s), id)];
        } else if s == START {
          jsonStarted := true;
        }
      }
      assert lines[..|lines|] == lines;
      done := true;
    }
  }
}
