/** Saving the plan: the old file is moved aside, the new one written and the old one
    removed. What a crash at any point leaves. (controller/benchmark.go, Save) */
module Save {
  import opened Benchmark

  type Files = map<string, string>

  /** The directory part of a path; "" is the current directory. */
  function Dir(path: string): string {
    if path == "" then ""
    else if path[|path| - 1] == '/' then path[..|path| - 1]
    else Dir(path[..|path| - 1])
  }

  function Backup(filename: string): string {
    "." + filename + ".tmp"
  }

  datatype Error = NotExist | OtherError | InvalidFilename | MarshalError

  /** Reading `files` after a crash gives a complete plan, the old or the new one. */
  ghost predicate Recoverable(files: Files, filename: string, before: string, after: string) {
    || (filename in files && (files[filename] == before || files[filename] == after))
    || (Backup(filename) in files && files[Backup(filename)] == before)
  }

  /** Nothing but the plan file and its backup differs. */
  ghost predicate OthersSame(before: Files, after: Files, filename: string) {
    after - {filename, Backup(filename)} == before - {filename, Backup(filename)}
  }

  /** In terms of single files. */
  lemma OthersSameExactly(before: Files, after: Files, filename: string)
    ensures OthersSame(before, after, filename) <==>
            forall p :: p != filename && p != "." + filename + ".tmp" ==>
              (p in before <==> p in after) && (p in before ==> before[p] == after[p])
  {
    var a, b := after - {filename, Backup(filename)}, before - {filename, Backup(filename)};
    if OthersSame(before, after, filename) {
      forall p | p != filename && p != Backup(filename)
        ensures (p in before <==> p in after) && (p in before ==> before[p] == after[p])
      {
        assert p in a <==> p in b;
        assert p in b ==> a[p] == b[p];
      }
    } else if forall p :: p != filename && p != Backup(filename) ==>
        (p in before <==> p in after) && (p in before ==> before[p] == after[p]) {
      assert a == b;
    }
  }

  /** The file is written up to some point, and nothing else has changed. */
  ghost predicate Written(before: Files, after: Files, name: string, b: string) {
    name in after && after[name] <= b && after == before[name := after[name]]
  }

  /** The file system. A rename happens at once or not at all; a write is seen growing, and
      may stop anywhere. */
  class Disk {
    var files: Files
    const dirs: set<string>
    ghost var history: seq<Files>  // what a crash could leave, in order of time
    ghost var faults: nat          // renames and removals that failed without need
    ghost var writeFaults: nat     // writes that failed

    ghost predicate Valid()
      reads this
    {
      forall p :: p in files ==> Dir(p) in dirs
    }

    /** The files are as they were last seen. */
    ghost predicate Shows(before: Files, seen: nat)
      reads this
    {
      files == if |history| > seen then history[|history| - 1] else before
    }

    method Rename(from: string, to: string) returns (err: Option<Error>)
      requires Valid()
      modifies this
      ensures Valid()
      ensures err == Some(NotExist) <==> from !in old(files) || Dir(to) !in dirs
      ensures err.Some? ==> err.value.NotExist? || err.value.OtherError?
      ensures err.Some? ==> files == old(files) && history == old(history)
      ensures err.None? ==> files == (old(files) - {from})[to := old(files)[from]] && history == old(history) + [files]
      ensures faults == old(faults) + if err == Some(OtherError) then 1 else 0
      ensures writeFaults == old(writeFaults)
    {
      if from !in files || Dir(to) !in dirs {
        return Some(NotExist);
      }
      var fails: bool := *;
      if fails {
        faults := faults + 1;
        return Some(OtherError);
      }
      files := (files - {from})[to := files[from]];
      history := history + [files];
      err := None;
    }

    /** ioutil.WriteFile: truncate or create, then write. */
    method WriteFile(name: string, b: string) returns (err: Option<Error>)
      requires Valid()
      modifies this
      ensures Valid() && old(history) <= history && Shows(old(files), |old(history)|)
      ensures err.Some? ==> err.value.OtherError?
      ensures forall i :: |old(history)| <= i < |history| ==> Written(old(files), history[i], name, b)
      ensures |history| > |old(history)| ==> history[|old(history)|] == old(files)[name := ""]
      ensures err.None? ==> files == old(files)[name := b]
      ensures faults == old(faults) && writeFaults == old(writeFaults) + if err.Some? then 1 else 0
    {
      var fails: bool := *;
      if fails || Dir(name) !in dirs {
        writeFaults := writeFaults + 1;
        return Some(OtherError);
      }
      ghost var start := files;
      files := files[name := ""];
      history := history + [files];
      var k := 0;
      while k < |b|
        invariant 0 <= k <= |b| && Valid() && faults == old(faults) && writeFaults == old(writeFaults)
        invariant old(history) < history && files == history[|history| - 1] == start[name := b[..k]]
        invariant history[|old(history)|] == start[name := ""]
        invariant forall i :: |old(history)| <= i < |history| ==> Written(start, history[i], name, b)
      {
        fails := *;
        if fails {
          writeFaults := writeFaults + 1;
          return Some(OtherError);
        }
        k := k + 1;
        files := files[name := b[..k]];
        history := history + [files];
      }
      assert b[..|b|] == b;
      err := None;
    }

    method Remove(name: string) returns (removed: bool)
      requires Valid()
      modifies this
      ensures Valid()
      ensures if removed then name in old(files) && files == old(files) - {name} && history == old(history) + [files]
              else files == old(files) && history == old(history)
      ensures faults == old(faults) + if !removed && name in old(files) then 1 else 0
      ensures writeFaults == old(writeFaults)
    {
      removed := *;
      removed := removed && name in files;
      if removed {
        files := files - {name};
        history := history + [files];
      } else {
        faults := faults + if name in files then 1 else 0;
      }
    }
  }

  /** Every crash state since `from` gives a complete plan. */
  ghost predicate SafeSince(history: seq<Files>, from: nat, filename: string, before: string, after: string) {
    forall i :: from <= i < |history| ==> Recoverable(history[i], filename, before, after)
  }

  lemma WrittenKeeps(before: Files, after: Files, filename: string, text: string)
    requires Written(before, after, filename, text)
    ensures OthersSame(before, after, filename)
    ensures Backup(filename) in before ==>
              Backup(filename) in after && after[Backup(filename)] == before[Backup(filename)]
  {
    assert |Backup(filename)| != |filename|;
  }

  lemma WrittenLast(before: Files, after: Files, history: seq<Files>, from: nat, filename: string, text: string)
    requires from <= |history| && after == if |history| > from then history[|history| - 1] else before
    requires forall i :: from <= i < |history| ==> Written(before, history[i], filename, text)
    ensures after == before || Written(before, after, filename, text)
    ensures OthersSame(before, after, filename)
  {
    if after != before {
      WrittenKeeps(before, after, filename, text);
    }
  }

  /** After the write: move the backup back if it failed, and remove it if it did not. */
  method Settle(disk: Disk, filename: string, failed: bool, keep: bool) returns (rolledBack: bool, removed: bool)
    requires disk.Valid()
    requires keep ==> Backup(filename) in disk.files && Dir(filename) in disk.dirs
    modifies disk
    ensures disk.Valid()
    ensures rolledBack ==> keep && failed
    ensures rolledBack ==>
              disk.files == (old(disk.files) - {Backup(filename)})[filename := old(disk.files)[Backup(filename)]]
    ensures removed ==> keep && !failed && disk.files == old(disk.files) - {Backup(filename)}
    ensures disk.history == if rolledBack || removed then old(disk.history) + [disk.files] else old(disk.history)
    ensures !rolledBack && !removed ==> disk.files == old(disk.files)
    ensures OthersSame(old(disk.files), disk.files, filename)
    ensures disk.faults == old(disk.faults) + if keep && !rolledBack && !removed then 1 else 0
    ensures disk.writeFaults == old(disk.writeFaults)
  {
    rolledBack, removed := false, false;
    if keep {
      if failed {
        var e := disk.Rename(Backup(filename), filename);
        rolledBack := e.None?;
      } else {
        removed := disk.Remove(Backup(filename));
      }
    }
  }

  /** Writing the new plan, with the old one kept as the backup or not kept at all.
      `rolledBack` and `removed` are results that the code does not look at. */
  method Write(disk: Disk, filename: string, text: string, keep: bool, ghost before: string)
      returns (err: Option<Error>, rolledBack: bool, removed: bool)
    requires disk.Valid()
    requires keep ==> Backup(filename) in disk.files && disk.files[Backup(filename)] == before
    requires keep ==> filename !in disk.files && Dir(filename) in disk.dirs
    modifies disk
    ensures disk.Valid() && old(disk.history) <= disk.history
    ensures err.Some? ==> err.value.OtherError?
    ensures keep ==> SafeSince(disk.history, |old(disk.history)|, filename, before, text)
    ensures !keep && before != "" && text != "" && Backup(filename) !in old(disk.files) ==>
              |disk.history| > |old(disk.history)| ==>
                !Recoverable(disk.history[|old(disk.history)|], filename, before, text)
    ensures forall i :: |old(disk.history)| <= i < |disk.history| ==>
              OthersSame(old(disk.files), disk.history[i], filename)
    ensures disk.Shows(old(disk.files), |old(disk.history)|)
    ensures err.None? ==> filename in disk.files && disk.files[filename] == text
    ensures removed ==> err.None? && Backup(filename) !in disk.files
    ensures rolledBack ==> keep && err.Some? && disk.files == (old(disk.files) - {Backup(filename)})[filename := before]
    ensures keep && disk.faults == old(disk.faults) ==> if err.Some? then rolledBack else removed
    ensures disk.faults >= old(disk.faults)
    ensures disk.writeFaults == old(disk.writeFaults) + if err.Some? then 1 else 0
  {
    err := disk.WriteFile(filename, text);
    forall i | |old(disk.history)| <= i < |disk.history| {
      WrittenKeeps(old(disk.files), disk.history[i], filename, text);
    }
    WrittenLast(old(disk.files), disk.files, disk.history, |old(disk.history)|, filename, text);
    rolledBack, removed := Settle(disk, filename, err.Some?, keep);
  }

  /** BenchmarkPlan.Save; `text` is the plan as json.Marshal gives it. */
  method Save(disk: Disk, filename: string, text: Option<string>)
      returns (err: Option<Error>, rolledBack: bool, removed: bool)
    requires disk.Valid()
    modifies disk
    ensures disk.Valid() && old(disk.history) <= disk.history
    ensures err == Some(InvalidFilename) <==> filename == ""
    ensures err == Some(MarshalError) <==> filename != "" && text.None?
    ensures filename == "" || text.None? ==> disk.history == old(disk.history)
    // with a place for the backup, every crash leaves a complete plan
    ensures filename in old(disk.files) && text.Some? && Dir(Backup(filename)) in disk.dirs ==>
              SafeSince(disk.history, |old(disk.history)|, filename, old(disk.files)[filename], text.value)
    // without one, as soon as the disk is touched there is a crash that leaves none
    ensures filename in old(disk.files) && text.Some? && Dir(Backup(filename)) !in disk.dirs ==>
              old(disk.files)[filename] != "" && text.value != "" && |disk.history| > |old(disk.history)| ==>
                !SafeSince(disk.history, |old(disk.history)|, filename, old(disk.files)[filename], text.value)
    ensures forall i :: |old(disk.history)| <= i < |disk.history| ==>
              OthersSame(old(disk.files), disk.history[i], filename)
    ensures disk.Shows(old(disk.files), |old(disk.history)|)
    // success: the new plan; without faults of the file system no backup
    ensures err.None? ==> text.Some? && filename in disk.files && disk.files[filename] == text.value
    ensures removed ==> err.None? && Backup(filename) !in disk.files
    // a failure that is rolled back: the old plan, and no backup
    ensures rolledBack ==> err.Some? && filename in old(disk.files)
    ensures rolledBack ==> disk.files == old(disk.files) - {Backup(filename)}
    // it fails only if the rename or the write does
    ensures filename != "" && text.Some? ==>
              disk.faults == old(disk.faults) && disk.writeFaults == old(disk.writeFaults) ==> err.None?
    // both are tried
    ensures filename in old(disk.files) && filename != "" && text.Some? && Dir(Backup(filename)) in disk.dirs ==>
              disk.faults == old(disk.faults) ==> if err.Some? then rolledBack else removed
  {
    if filename == "" {
      return Some(InvalidFilename), false, false;
    }
    if text.None? {
      return Some(MarshalError), false, false;
    }
    var backup := Backup(filename);
    var keep := true;
    err := disk.Rename(filename, backup);
    if err.Some? {
      if err.value == NotExist {
        keep := false;
      } else {
        return err, false, false;
      }
    }
    ghost var before := if filename in old(disk.files) then old(disk.files)[filename] else "";
    err, rolledBack, removed := Write(disk, filename, text.value, keep, before);
  }

  // -------------------------------------------- where the backup is looked for

  lemma {:induction false} DirOfPlain(d: string, x: string)
    requires '/' !in x
    ensures Dir(x) == "" && Dir(d + "/" + x) == d
  {
    if x == "" {
      assert d + "/" + x == d + "/";
    } else {
      var k := |x| - 1;
      assert x[k] in x && (d + "/" + x)[..|d| + 1 + k] == d + "/" + x[..k];
      DirOfPlain(d, x[..k]);
    }
  }

  lemma BackupSplits(d: string, x: string)
    ensures Backup(d + "/" + x) == "." + d + "/" + (x + ".tmp")
  {
  }

  /** A plan in the current directory is backed up there. A plan "d/x" is backed up in ".d",
      which is another directory: it has to exist for Save to be safe. */
  lemma BackupDirectory(d: string, x: string)
    requires '/' !in x
    ensures Dir(Backup(x)) == Dir(x)
    ensures Dir(Backup(d + "/" + x)) == "." + d && Dir(d + "/" + x) == d
  {
    DirOfPlain("", Backup(x));
    DirOfPlain("." + d, x + ".tmp");
    DirOfPlain(d, x);
    BackupSplits(d, x);
  }

  /** A plan in a subdirectory whose backup would have to be in another one. */
  lemma SubdirectoryInput()
    ensures Backup("plans/sched.bench") == ".plans/sched.bench.tmp"
    ensures Dir("plans/sched.bench") == "plans" && Dir(Backup("plans/sched.bench")) == ".plans"
  {
    BackupDirectory("plans", "sched.bench");
    assert "plans" + "/" + "sched.bench" == "plans/sched.bench";
    assert "." + "plans" == ".plans";
  }
}
