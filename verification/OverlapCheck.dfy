/** validateBatchFileOverlap: tasks of one batch must not touch the same file, unless the batch
    declares the file shared. */
module OverlapCheck {

  import opened Prelude
  import opened SpecModel

  /** The files of each task; of two tasks with the same id the later one counts. */
  function TaskFiles(tasks: seq<Task>): map<Id, seq<string>> {
    if tasks == [] then map[]
    else TaskFiles(Front(tasks))[Last(tasks).id := Last(tasks).files]
  }

  function FilesOf(files: map<Id, seq<string>>, id: Id): seq<string> {
    if id in files then files[id] else []
  }

  /** A task of the batch together with one of its files that is not shared. */
  datatype Claim = Claim(task: Id, file: string)

  function ClaimsOf(id: Id, files: seq<string>, shared: seq<string>): seq<Claim> {
    if files == [] then []
    else ClaimsOf(id, Front(files), shared) + (if Last(files) in shared then [] else [Claim(id, Last(files))])
  }

  /** All claims of a batch, in the order in which the check meets them. */
  function Claims(ids: seq<Id>, files: map<Id, seq<string>>, shared: seq<string>): seq<Claim> {
    if ids == [] then []
    else Claims(Front(ids), files, shared) + ClaimsOf(Last(ids), FilesOf(files, Last(ids)), shared)
  }

  /** The distinct files claimed. */
  function Claimed(cs: seq<Claim>): set<string> {
    if cs == [] then {} else Claimed(Front(cs)) + {Last(cs).file}
  }

  /** The task of the first claim of each file. */
  function Owners(cs: seq<Claim>): (r: map<string, Id>)
    ensures r.Keys == Claimed(cs)
  {
    if cs == [] then map[]
    else
      var owners := Owners(Front(cs));
      if Last(cs).file in owners then owners else owners[Last(cs).file := Last(cs).task]
  }

  function Overlaps(b: Batch, cs: seq<Claim>): seq<Finding> {
    if cs == [] then []
    else
      var (owners, c) := (Owners(Front(cs)), Last(cs));
      Overlaps(b, Front(cs)) +
      (if c.file in owners then [Finding(b.line, FileOverlap(b.index, owners[c.file], c.task, c.file))] else [])
  }

  function BatchClaims(b: Batch, files: map<Id, seq<string>>): seq<Claim> {
    Claims(b.taskIds, files, b.sharedAdditive)
  }

  function AllOverlaps(batches: seq<Batch>, files: map<Id, seq<string>>): seq<Finding> {
    if batches == [] then []
    else AllOverlaps(Front(batches), files) + Overlaps(Last(batches), BatchClaims(Last(batches), files))
  }

  method ValidateBatchFileOverlap(tasks: seq<Task>, batches: seq<Batch>) returns (fs: seq<Finding>)
    ensures fs == AllOverlaps(batches, TaskFiles(tasks))
  {
    var taskFiles: map<Id, seq<string>> := map[];
    for i := 0 to |tasks|
      invariant taskFiles == TaskFiles(tasks[..i])
    {
      taskFiles := taskFiles[tasks[i].id := tasks[i].files];
      assert Front(tasks[..i + 1]) == tasks[..i];
    }
    assert tasks[..|tasks|] == tasks;
    fs := [];
    for i := 0 to |batches|
      invariant fs == AllOverlaps(batches[..i], taskFiles)
    {
      var found := OverlapsInBatch(batches[i], taskFiles);
      fs := fs + found;
      assert Front(batches[..i + 1]) == batches[..i];
    }
    assert batches[..|batches|] == batches;
  }

  lemma {:induction false} OneMoreClaim(b: Batch, cs: seq<Claim>, c: Claim)
    ensures Owners(cs + [c]) == if c.file in Owners(cs) then Owners(cs) else Owners(cs)[c.file := c.task]
    ensures Overlaps(b, cs + [c]) ==
            Overlaps(b, cs) +
            if c.file in Owners(cs) then [Finding(b.line, FileOverlap(b.index, Owners(cs)[c.file], c.task, c.file))]
            else []
  {
    assert Front(cs + [c]) == cs;
  }

  /** The body of the outer loop of the source. */
  method OverlapsInBatch(b: Batch, taskFiles: map<Id, seq<string>>) returns (fs: seq<Finding>)
    ensures fs == Overlaps(b, BatchClaims(b, taskFiles))
  {
    fs := [];
    var fileOwner: map<string, Id> := map[];
    ghost var claims: seq<Claim> := [];
    for i := 0 to |b.taskIds|
      invariant claims == Claims(b.taskIds[..i], taskFiles, b.sharedAdditive)
      invariant fileOwner == Owners(claims) && fs == Overlaps(b, claims)
    {
      var tid := b.taskIds[i];
      fileOwner, fs := ClaimFiles(b, tid, FilesOf(taskFiles, tid), fileOwner, fs, claims);
      claims := claims + ClaimsOf(tid, FilesOf(taskFiles, tid), b.sharedAdditive);
      assert Front(b.taskIds[..i + 1]) == b.taskIds[..i];
    }
    assert b.taskIds[..|b.taskIds|] == b.taskIds;
  }

  lemma {:induction false} NextClaim(earlier: seq<Claim>, id: Id, files: seq<string>, shared: seq<string>, k: nat)
    requires k < |files|
    ensures earlier + ClaimsOf(id, files[..k + 1], shared) ==
            earlier + ClaimsOf(id, files[..k], shared) + if files[k] in shared then [] else [Claim(id, files[k])]
  {
    assert Front(files[..k + 1]) == files[..k];
  }

  /** The innermost loop: one task claims its files. */
  method ClaimFiles(b: Batch, tid: Id, files: seq<string>, owners: map<string, Id>, found: seq<Finding>,
      ghost earlier: seq<Claim>)
    returns (fileOwner: map<string, Id>, fs: seq<Finding>)
    requires owners == Owners(earlier) && found == Overlaps(b, earlier)
    ensures fileOwner == Owners(earlier + ClaimsOf(tid, files, b.sharedAdditive))
    ensures fs == Overlaps(b, earlier + ClaimsOf(tid, files, b.sharedAdditive))
  {
    fileOwner, fs := owners, found;
    ghost var claims := earlier;
    assert earlier + [] == earlier;
    for k := 0 to |files|
      invariant claims == earlier + ClaimsOf(tid, files[..k], b.sharedAdditive)
      invariant fileOwner == Owners(claims) && fs == Overlaps(b, claims)
    {
      var f := files[k];
      NextClaim(earlier, tid, files, b.sharedAdditive, k);
      assert claims + [] == claims;
      if f in b.sharedAdditive {
        continue;
      }
      OneMoreClaim(b, claims, Claim(tid, f));
      claims := claims + [Claim(tid, f)];
      if f in fileOwner {
        fs := fs + [Finding(b.line, FileOverlap(b.index, fileOwner[f], tid, f))];
      } else {
        fileOwner := fileOwner[f := tid];
      }
    }
    assert files[..|files|] == files;
  }

  /** The owner named in a report is the task of the first claim of that file. */
  lemma {:induction false} OwnerIsFirst(cs: seq<Claim>, k: nat)
    requires k < |cs| && forall i :: 0 <= i < k ==> cs[i].file != cs[k].file
    ensures cs[k].file in Owners(cs) && Owners(cs)[cs[k].file] == cs[k].task
  {
    if k == |cs| - 1 {
      NotClaimed(Front(cs), cs[k].file);
    } else {
      OwnerIsFirst(Front(cs), k);
    }
  }

  lemma {:induction false} NotClaimed(cs: seq<Claim>, f: string)
    requires forall i :: 0 <= i < |cs| ==> cs[i].file != f
    ensures f !in Claimed(cs)
  {
    if cs != [] {
      NotClaimed(Front(cs), f);
    }
  }

  /** One report for every claim beyond the first of each file. */
  lemma {:induction false} OverlapCount(b: Batch, cs: seq<Claim>)
    ensures |Overlaps(b, cs)| == |cs| - |Claimed(cs)|
  {
    if cs != [] {
      OverlapCount(b, Front(cs));
      if Last(cs).file in Claimed(Front(cs)) {
        assert Claimed(cs) == Claimed(Front(cs));
      }
    }
  }

  function CountFile(files: seq<string>, f: string): nat {
    if files == [] then 0 else CountFile(Front(files), f) + if Last(files) == f then 1 else 0
  }

  /** How often the listed tasks touch `f`, repeated entries and repeated tasks included. */
  function Touches(ids: seq<Id>, files: map<Id, seq<string>>, f: string): nat {
    if ids == [] then 0 else Touches(Front(ids), files, f) + CountFile(FilesOf(files, Last(ids)), f)
  }

  function CountClaims(cs: seq<Claim>, f: string): nat {
    if cs == [] then 0 else CountClaims(Front(cs), f) + if Last(cs).file == f then 1 else 0
  }

  lemma {:induction false} CountClaimsConcat(xs: seq<Claim>, ys: seq<Claim>, f: string)
    ensures CountClaims(xs + ys, f) == CountClaims(xs, f) + CountClaims(ys, f)
  {
    if ys == [] {
      assert xs + ys == xs;
    } else {
      assert Front(xs + ys) == xs + Front(ys);
      CountClaimsConcat(xs, Front(ys), f);
    }
  }

  lemma {:induction false} ClaimsOfTask(id: Id, files: seq<string>, shared: seq<string>, f: string)
    ensures CountClaims(ClaimsOf(id, files, shared), f) == if f in shared then 0 else CountFile(files, f)
  {
    if files != [] {
      ClaimsOfTask(id, Front(files), shared, f);
      var earlier := ClaimsOf(id, Front(files), shared);
      if Last(files) in shared {
        assert ClaimsOf(id, files, shared) == earlier;
      } else {
        var c := Claim(id, Last(files));
        assert ClaimsOf(id, files, shared) == earlier + [c];
        assert Front(earlier + [c]) == earlier && Last(earlier + [c]) == c;
      }
    }
  }

  lemma {:induction false} ClaimsAreTouches(ids: seq<Id>, files: map<Id, seq<string>>, shared: seq<string>, f: string)
    ensures CountClaims(Claims(ids, files, shared), f) == if f in shared then 0 else Touches(ids, files, f)
  {
    if ids != [] {
      var own := ClaimsOf(Last(ids), FilesOf(files, Last(ids)), shared);
      ClaimsAreTouches(Front(ids), files, shared, f);
      ClaimsOfTask(Last(ids), FilesOf(files, Last(ids)), shared, f);
      CountClaimsConcat(Claims(Front(ids), files, shared), own, f);
    }
  }

  lemma {:induction false} ClaimedIffCounted(cs: seq<Claim>, f: string)
    ensures f in Claimed(cs) <==> CountClaims(cs, f) > 0
  {
    if cs != [] {
      ClaimedIffCounted(Front(cs), f);
    }
  }

  ghost predicate CountedOnce(cs: seq<Claim>) {
    forall f :: CountClaims(cs, f) <= 1
  }

  lemma {:induction false} CountedOnceStep(cs: seq<Claim>)
    requires cs != []
    ensures CountedOnce(cs) <==> CountedOnce(Front(cs)) && Last(cs).file !in Claimed(Front(cs))
  {
    var (before, last) := (Front(cs), Last(cs).file);
    ClaimedIffCounted(before, last);
    if CountedOnce(cs) {
      assert CountClaims(cs, last) <= 1;
      forall f
        ensures CountClaims(before, f) <= 1
      {
        assert CountClaims(cs, f) <= 1;
      }
    } else {
      var f :| CountClaims(cs, f) > 1;
      assert f != last ==> CountClaims(before, f) > 1;
    }
  }

  lemma {:induction false} SilentIffCountedOnce(b: Batch, cs: seq<Claim>)
    ensures Overlaps(b, cs) == [] <==> CountedOnce(cs)
  {
    if cs != [] {
      SilentIffCountedOnce(b, Front(cs));
      CountedOnceStep(cs);
    }
  }

  /** No unshared file is touched twice by the tasks of the batch. */
  ghost predicate NoFileTwice(b: Batch, files: map<Id, seq<string>>) {
    forall f :: f !in b.sharedAdditive ==> Touches(b.taskIds, files, f) <= 1
  }

  /** A batch is silent exactly when no unshared file is touched twice by its tasks. */
  lemma {:induction false} SilentIffFilesDisjoint(b: Batch, files: map<Id, seq<string>>)
    ensures Overlaps(b, BatchClaims(b, files)) == [] <==> NoFileTwice(b, files)
  {
    var cs := BatchClaims(b, files);
    SilentIffCountedOnce(b, cs);
    forall f: string
      ensures CountClaims(cs, f) == if f in b.sharedAdditive then 0 else Touches(b.taskIds, files, f)
    {
      ClaimsAreTouches(b.taskIds, files, b.sharedAdditive, f);
    }
    if NoFileTwice(b, files) {
      assert CountedOnce(cs);
    } else {
      var f :| f !in b.sharedAdditive && Touches(b.taskIds, files, f) > 1;
      assert CountClaims(cs, f) > 1;
    }
  }

  ghost predicate AllDisjoint(batches: seq<Batch>, files: map<Id, seq<string>>) {
    forall i :: 0 <= i < |batches| ==> NoFileTwice(batches[i], files)
  }

  lemma {:induction false} AllDisjointLast(batches: seq<Batch>, files: map<Id, seq<string>>)
    requires batches != []
    ensures AllDisjoint(batches, files) <==> AllDisjoint(Front(batches), files) && NoFileTwice(Last(batches), files)
  {
    if AllDisjoint(Front(batches), files) && NoFileTwice(Last(batches), files) {
      forall i | 0 <= i < |batches|
        ensures NoFileTwice(batches[i], files)
      {
        assert i < |batches| - 1 ==> batches[i] == Front(batches)[i];
      }
    }
    if AllDisjoint(batches, files) {
      assert NoFileTwice(batches[|batches| - 1], files);
    }
  }

  /** The whole check is silent exactly when every batch is. */
  lemma {:induction false} CheckSilentIffDisjoint(batches: seq<Batch>, files: map<Id, seq<string>>)
    ensures AllOverlaps(batches, files) == [] <==> AllDisjoint(batches, files)
  {
    if batches != [] {
      CheckSilentIffDisjoint(Front(batches), files);
      SilentIffFilesDisjoint(Last(batches), files);
      AllDisjointLast(batches, files);
    }
  }
}
