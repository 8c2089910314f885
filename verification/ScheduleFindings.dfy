/** What the findings of the schedule checks of tools/validate-spec/validate.go say: which tasks,
    dependencies, batches and lines each of them names, how many there are, and in which order. */
module ScheduleFindings {

  import opened Prelude
  import opened Picking
  import opened SpecModel
  import opened BatchCheck
  import opened OverlapCheck

  // ---- Undeclared dependencies ----

  function Undeclared(deps: seq<Id>, ids: set<Id>): seq<bool> {
    seq(|deps|, i requires 0 <= i < |deps| => deps[i] !in ids)
  }

  ghost predicate NameMissing(fs: seq<Finding>, t: Task, deps: seq<Id>, ps: seq<nat>) {
    |fs| == |ps| && forall j :: 0 <= j < |ps| ==>
      ps[j] < |deps| && fs[j] == Finding(t.line, DependsOnMissing(t.id, deps[ps[j]]))
  }

  lemma {:induction false} MissingByPosition(t: Task, deps: seq<Id>, ids: set<Id>)
    ensures NameMissing(MissingOf(t, deps, ids), t, deps, Positions(Undeclared(deps, ids)))
  {
    if deps != [] {
      MissingByPosition(t, Front(deps), ids);
      assert Front(Undeclared(deps, ids)) == Undeclared(Front(deps), ids);
    }
  }

  /** The check of a list of tasks is that of its parts, and that of one task names its undeclared dependencies,
      each at its place, with the task and its line. */
  lemma {:induction false} MissingNamed(a: seq<Task>, b: seq<Task>, t: Task, ids: set<Id>) returns (ps: seq<nat>)
    ensures MissingDeps(a + b, ids) == MissingDeps(a, ids) + MissingDeps(b, ids)
    ensures Picking.Ascending(ps) && forall i: nat :: i in ps <==> i < |t.depends| && t.depends[i] !in ids
    ensures NameMissing(MissingDeps([t], ids), t, t.depends, ps)
  {
    MissingConcat(a, b, ids);
    ps := Positions(Undeclared(t.depends, ids));
    PositionsAreExact(Undeclared(t.depends, ids));
    MissingByPosition(t, t.depends, ids);
    assert Front([t]) == [] && MissingDeps([t], ids) == [] + MissingOf(t, t.depends, ids);
  }

  lemma {:induction false} MissingConcat(a: seq<Task>, b: seq<Task>, ids: set<Id>)
    ensures MissingDeps(a + b, ids) == MissingDeps(a, ids) + MissingDeps(b, ids)
  {
    if b == [] {
      assert a + b == a && MissingDeps(a, ids) + [] == MissingDeps(a, ids);
    } else {
      var (f, last) := (Front(b), Last(b));
      MissingConcat(a, f, ids);
      assert Front(a + b) == a + f;
      Associate(MissingDeps(a, ids), MissingDeps(f, ids), MissingOf(last, last.depends, ids));
    }
  }

  // ---- Misplaced tasks ----

  /** So is the membership check, and that of one task says that it is in no batch, or in how many. */
  lemma {:induction false} MisplacedNamed(a: seq<Task>, b: seq<Task>, t: Task, slots: multiset<Id>)
    ensures MisplacedTasks(a + b, slots) == MisplacedTasks(a, slots) + MisplacedTasks(b, slots)
    ensures MisplacedTasks([t], slots) ==
            if slots[t.id] == 1 then []
            else if slots[t.id] == 0 then [Finding(t.line, NotInAnyBatch(t.id))]
            else [Finding(t.line, InManyBatches(t.id, slots[t.id]))]
  {
    MisplacedConcat(a, b, slots);
    assert Front([t]) == [];
  }

  lemma {:induction false} MisplacedConcat(a: seq<Task>, b: seq<Task>, slots: multiset<Id>)
    ensures MisplacedTasks(a + b, slots) == MisplacedTasks(a, slots) + MisplacedTasks(b, slots)
  {
    if b == [] {
      assert a + b == a && MisplacedTasks(a, slots) + [] == MisplacedTasks(a, slots);
    } else {
      var (f, last) := (Front(b), Last(b));
      MisplacedConcat(a, f, slots);
      assert Front(a + b) == a + f;
      Associate(MisplacedTasks(a, slots), MisplacedTasks(f, slots), Misplaced(last, slots[last.id]));
    }
  }

  // ---- Dependencies that come too late ----

  /** The index of a listed task is that of the last batch that lists it. */
  lemma {:induction false} IndexIsLast(batches: seq<Batch>, id: Id)
    ensures id in BatchIndex(batches) <==> exists i :: 0 <= i < |batches| && id in batches[i].taskIds
    ensures id in BatchIndex(batches) ==>
              exists i :: 0 <= i < |batches| && ListsLast(batches, i, id) && BatchIndex(batches)[id] == batches[i].index
  {
    if batches != [] {
      var (f, b) := (Front(batches), Last(batches));
      IndexIsLast(f, id);
      AssignedLast(BatchIndex(f), b.taskIds, b.index, id);
      assert forall i :: 0 <= i < |f| ==> f[i] == batches[i];
      if id in b.taskIds {
        assert ListsLast(batches, |batches| - 1, id);
      } else if id in BatchIndex(f) {
        var i :| 0 <= i < |f| && ListsLast(f, i, id) && BatchIndex(f)[id] == f[i].index;
        assert ListsLast(batches, i, id);
      }
    }
  }

  predicate ListsLast(batches: seq<Batch>, i: nat, id: Id)
    requires i < |batches|
  {
    id in batches[i].taskIds && forall j :: i < j < |batches| ==> id !in batches[j].taskIds
  }

  function Late(deps: seq<Id>, at: map<Id, int>, id: Id): seq<bool>
    requires id in at
  {
    seq(|deps|, i requires 0 <= i < |deps| => deps[i] in at && at[deps[i]] >= at[id])
  }

  ghost predicate NameLate(fs: seq<Finding>, t: Task, deps: seq<Id>, at: map<Id, int>, ps: seq<nat>)
    requires t.id in at
  {
    |fs| == |ps| && forall j :: 0 <= j < |ps| ==>
      && ps[j] < |deps| && deps[ps[j]] in at
      && fs[j] == Finding(t.line, NotInEarlierBatch(t.id, at[t.id], deps[ps[j]], at[deps[ps[j]]]))
  }

  lemma {:induction false} LateByPosition(t: Task, deps: seq<Id>, at: map<Id, int>)
    requires t.id in at
    ensures NameLate(LateOf(t, deps, at), t, deps, at, Positions(Late(deps, at, t.id)))
  {
    if deps != [] {
      LateByPosition(t, Front(deps), at);
      assert Front(Late(deps, at, t.id)) == Late(Front(deps), at, t.id);
    }
  }

  lemma {:induction false} Associate<T>(a: seq<T>, b: seq<T>, c: seq<T>)
    ensures (a + b) + c == a + (b + c)
  {
  }

  lemma {:induction false} LateConcat(a: seq<Task>, b: seq<Task>, at: map<Id, int>)
    ensures LateDeps(a + b, at) == LateDeps(a, at) + LateDeps(b, at)
  {
    if b == [] {
      assert a + b == a && LateDeps(a, at) + [] == LateDeps(a, at);
    } else {
      var (f, t) := (Front(b), Last(b));
      LateConcat(a, f, at);
      assert b == f + [t];
      Associate(a, f, [t]);
      LateAppend(a + f, t, at);
      LateAppend(f, t, at);
      Associate(LateDeps(a, at), LateDeps(f, at), if t.id in at then LateOf(t, t.depends, at) else []);
    }
  }

  lemma {:induction false} LateAppend(a: seq<Task>, t: Task, at: map<Id, int>)
    ensures LateDeps(a + [t], at) == LateDeps(a, at) + if t.id in at then LateOf(t, t.depends, at) else []
  {
    assert Front(a + [t]) == a;
  }

  /** So is the order check, and that of one task names its dependencies with the same or a larger index, with
      both indexes; a task in no batch is passed over. */
  lemma {:induction false} LateNamed(a: seq<Task>, b: seq<Task>, t: Task, at: map<Id, int>) returns (ps: seq<nat>)
    ensures LateDeps(a + b, at) == LateDeps(a, at) + LateDeps(b, at)
    ensures t.id !in at ==> LateDeps([t], at) == []
    ensures t.id in at ==>
              && Picking.Ascending(ps)
              && (forall i: nat :: i in ps <==>
                    i < |t.depends| && t.depends[i] in at && at[t.depends[i]] >= at[t.id])
              && NameLate(LateDeps([t], at), t, t.depends, at, ps)
  {
    LateConcat(a, b, at);
    LateAppend([], t, at);
    assert [] + [t] == [t];
    ps := [];
    if t.id in at {
      ps := LateByPlace(t, at);
    }
  }

  lemma {:induction false} LateByPlace(t: Task, at: map<Id, int>) returns (ps: seq<nat>)
    requires t.id in at
    ensures Picking.Ascending(ps) && forall i: nat :: i in ps <==>
              i < |t.depends| && t.depends[i] in at && at[t.depends[i]] >= at[t.id]
    ensures NameLate(LateOf(t, t.depends, at), t, t.depends, at, ps)
  {
    ps := Positions(Late(t.depends, at, t.id));
    PositionsAreExact(Late(t.depends, at, t.id));
    LateByPosition(t, t.depends, at);
  }

  // ---- Overlapping files ----

  /** The files of a task are those of the last record with its id. */
  lemma {:induction false} FilesAreLast(tasks: seq<Task>, id: Id)
    ensures id in TaskFiles(tasks) <==> exists i :: 0 <= i < |tasks| && tasks[i].id == id
    ensures id in TaskFiles(tasks) ==>
              exists i :: 0 <= i < |tasks| && DeclaresLast(tasks, i, id) && TaskFiles(tasks)[id] == tasks[i].files
  {
    if tasks != [] {
      var f := Front(tasks);
      FilesAreLast(f, id);
      assert forall i :: 0 <= i < |f| ==> f[i] == tasks[i];
      if Last(tasks).id == id {
        assert DeclaresLast(tasks, |tasks| - 1, id);
      } else if id in TaskFiles(f) {
        var i :| 0 <= i < |f| && DeclaresLast(f, i, id) && TaskFiles(f)[id] == f[i].files;
        assert DeclaresLast(tasks, i, id);
      }
    }
  }

  predicate DeclaresLast(tasks: seq<Task>, i: nat, id: Id)
    requires i < |tasks|
  {
    tasks[i].id == id && forall j :: i < j < |tasks| ==> tasks[j].id != id
  }

  function Unshared(files: seq<string>, shared: seq<string>): seq<bool> {
    seq(|files|, i requires 0 <= i < |files| => files[i] !in shared)
  }

  ghost predicate NameClaims(cs: seq<Claim>, id: Id, files: seq<string>, ps: seq<nat>) {
    |cs| == |ps| && forall j :: 0 <= j < |ps| ==> ps[j] < |files| && cs[j] == Claim(id, files[ps[j]])
  }

  lemma {:induction false} ClaimsByPosition(id: Id, files: seq<string>, shared: seq<string>)
    ensures NameClaims(ClaimsOf(id, files, shared), id, files, Positions(Unshared(files, shared)))
  {
    if files != [] {
      ClaimsByPosition(id, Front(files), shared);
      assert Front(Unshared(files, shared)) == Unshared(Front(files), shared);
    }
  }

  lemma {:induction false} ClaimsConcat(a: seq<Id>, b: seq<Id>, files: map<Id, seq<string>>, shared: seq<string>)
    ensures Claims(a + b, files, shared) == Claims(a, files, shared) + Claims(b, files, shared)
  {
    if b == [] {
      assert a + b == a && Claims(a, files, shared) + [] == Claims(a, files, shared);
    } else {
      ClaimsConcat(a, Front(b), files, shared);
      assert Front(a + b) == a + Front(b);
      Associate(Claims(a, files, shared), Claims(Front(b), files, shared),
          ClaimsOf(Last(b), FilesOf(files, Last(b)), shared));
    }
  }

  /** The claims of a list of tasks are those of its parts, and those of one task are its files that are not
      shared, in order. */
  lemma {:induction false} ClaimsNamed(a: seq<Id>, b: seq<Id>, id: Id, files: map<Id, seq<string>>, shared: seq<string>)
    returns (ps: seq<nat>)
    ensures Claims(a + b, files, shared) == Claims(a, files, shared) + Claims(b, files, shared)
    ensures id !in files ==> Claims([id], files, shared) == []
    ensures id in files ==>
              && Picking.Ascending(ps) && (forall i: nat :: i in ps <==> i < |files[id]| && files[id][i] !in shared)
              && NameClaims(Claims([id], files, shared), id, files[id], ps)
  {
    ClaimsConcat(a, b, files, shared);
    ps := [];
    assert Front([id]) == [];
    assert Claims([id], files, shared) == [] + ClaimsOf(id, FilesOf(files, id), shared);
    if id in files {
      ps := Positions(Unshared(files[id], shared));
      PositionsAreExact(Unshared(files[id], shared));
      ClaimsByPosition(id, files[id], shared);
    }
  }

  ghost predicate FirstClaim(cs: seq<Claim>, i: nat, f: string) {
    i < |cs| && cs[i].file == f && forall h :: 0 <= h < i ==> cs[h].file != f
  }

  function Repeated(cs: seq<Claim>): seq<bool> {
    seq(|cs|, k requires 0 <= k < |cs| => exists i :: 0 <= i < k && cs[i].file == cs[k].file)
  }

  ghost predicate NameOverlaps(fs: seq<Finding>, b: Batch, cs: seq<Claim>, ps: seq<nat>) {
    |fs| == |ps| && forall j :: 0 <= j < |ps| ==>
      ps[j] < |cs| && NamesOverlap(fs[j], b, cs, cs[ps[j]])
  }

  /** The finding names the batch, the task that claimed the file first, the task that claims it again, and
      the file. */
  ghost predicate NamesOverlap(f: Finding, b: Batch, cs: seq<Claim>, c: Claim) {
    exists i: nat :: FirstClaim(cs, i, c.file) && f == Finding(b.line, FileOverlap(b.index, cs[i].task, c.task, c.file))
  }

  lemma {:induction false} OwnerAmong(cs: seq<Claim>, f: string)
    ensures f in Owners(cs) <==> exists i :: 0 <= i < |cs| && cs[i].file == f
    ensures f in Owners(cs) ==> exists i: nat :: FirstClaim(cs, i, f) && Owners(cs)[f] == cs[i].task
  {
    if cs != [] {
      var g := Front(cs);
      OwnerAmong(g, f);
      assert forall i :: 0 <= i < |g| ==> g[i] == cs[i];
      if f in Owners(g) {
        var i: nat :| FirstClaim(g, i, f) && Owners(g)[f] == g[i].task;
        assert FirstClaim(cs, i, f);
      } else if Last(cs).file == f {
        assert FirstClaim(cs, |cs| - 1, f);
      }
    }
  }

  lemma {:induction false} SameNames(fs: seq<Finding>, b: Batch, cs: seq<Claim>, ps: seq<nat>)
    requires cs != [] && NameOverlaps(fs, b, Front(cs), ps)
    ensures NameOverlaps(fs, b, cs, ps)
  {
    forall j | 0 <= j < |ps|
      ensures ps[j] < |cs| && NamesOverlap(fs[j], b, cs, cs[ps[j]])
    {
      var c := cs[ps[j]];
      assert NamesOverlap(fs[j], b, Front(cs), Front(cs)[ps[j]]);
      var i: nat :| FirstClaim(Front(cs), i, c.file) &&
                    fs[j] == Finding(b.line, FileOverlap(b.index, Front(cs)[i].task, c.task, c.file));
      assert FirstClaim(cs, i, c.file);
    }
  }

  lemma {:induction false} OverlapOfLast(b: Batch, cs: seq<Claim>)
    requires cs != []
    ensures var (owners, c) := (Owners(Front(cs)), Last(cs));
            && (c.file in owners <==> Last(Repeated(cs)))
            && (c.file in owners ==>
                NamesOverlap(Finding(b.line, FileOverlap(b.index, owners[c.file], c.task, c.file)), b, cs, c))
  {
    var (g, c) := (Front(cs), Last(cs));
    OwnerAmong(g, c.file);
    assert forall i :: 0 <= i < |g| ==> g[i] == cs[i];
    if c.file in Owners(g) {
      var i: nat :| FirstClaim(g, i, c.file) && Owners(g)[c.file] == g[i].task;
      assert FirstClaim(cs, i, c.file);
    }
  }

  /** One finding for every claim of a file that has been claimed before, in order. */
  lemma {:induction false} OverlapsNamed(b: Batch, cs: seq<Claim>)
    ensures AreAt(Positions(Repeated(cs)), Repeated(cs))
    ensures NameOverlaps(Overlaps(b, cs), b, cs, Positions(Repeated(cs)))
  {
    PositionsAreExact(Repeated(cs));
    OverlapsAtPositions(b, cs);
  }

  lemma {:induction false} AppendOverlap(fs: seq<Finding>, b: Batch, cs: seq<Claim>, ps: seq<nat>, f: Finding, n: nat)
    requires NameOverlaps(fs, b, cs, ps) && n < |cs| && NamesOverlap(f, b, cs, cs[n])
    ensures NameOverlaps(fs + [f], b, cs, ps + [n])
  {
  }

  lemma {:induction false} NextOverlap(b: Batch, cs: seq<Claim>)
    requires cs != [] && NameOverlaps(Overlaps(b, Front(cs)), b, cs, Positions(Repeated(Front(cs))))
    ensures NameOverlaps(Overlaps(b, cs), b, cs, Positions(Repeated(cs)))
  {
    var (g, c) := (Front(cs), Last(cs));
    var (fs, ps) := (Overlaps(b, g), Positions(Repeated(g)));
    assert Front(Repeated(cs)) == Repeated(g);
    OverlapOfLast(b, cs);
    if c.file in Owners(g) {
      AppendOverlap(fs, b, cs, ps, Finding(b.line, FileOverlap(b.index, Owners(g)[c.file], c.task, c.file)), |g|);
    } else {
      assert fs + [] == fs && ps + [] == ps;
    }
  }

  lemma {:induction false} OverlapsAtPositions(b: Batch, cs: seq<Claim>)
    ensures NameOverlaps(Overlaps(b, cs), b, cs, Positions(Repeated(cs)))
  {
    if cs != [] {
      OverlapsAtPositions(b, Front(cs));
      SameNames(Overlaps(b, Front(cs)), b, cs, Positions(Repeated(Front(cs))));
      NextOverlap(b, cs);
    }
  }

  lemma {:induction false} AllOverlapsConcat(a: seq<Batch>, b: seq<Batch>, files: map<Id, seq<string>>)
    ensures AllOverlaps(a + b, files) == AllOverlaps(a, files) + AllOverlaps(b, files)
  {
    if b == [] {
      assert a + b == a && AllOverlaps(a, files) + [] == AllOverlaps(a, files);
    } else {
      AllOverlapsConcat(a, Front(b), files);
      OverlapsStep(a, Front(b), Last(b), files);
      assert b == Front(b) + [Last(b)];
    }
  }

  lemma {:induction false} OverlapsStep(a: seq<Batch>, f: seq<Batch>, last: Batch, files: map<Id, seq<string>>)
    requires AllOverlaps(a + f, files) == AllOverlaps(a, files) + AllOverlaps(f, files)
    ensures AllOverlaps(a + (f + [last]), files) == AllOverlaps(a, files) + AllOverlaps(f + [last], files)
  {
    Associate(a, f, [last]);
    var own := OverlapsAppend(a + f, last, files);
    var again := OverlapsAppend(f, last, files);
    Associate(AllOverlaps(a, files), AllOverlaps(f, files), own);
  }

  lemma {:induction false} OverlapsAppend(a: seq<Batch>, b: Batch, files: map<Id, seq<string>>)
    returns (own: seq<Finding>)
    ensures own == Overlaps(b, BatchClaims(b, files)) && AllOverlaps(a + [b], files) == AllOverlaps(a, files) + own
  {
    own := Overlaps(b, BatchClaims(b, files));
    assert Front(a + [b]) == a;
  }

  /** The whole check is that of its batches, each on its own claims. */
  lemma {:induction false} AllOverlapsNamed(a: seq<Batch>, b: seq<Batch>, one: Batch, files: map<Id, seq<string>>)
    ensures AllOverlaps(a + b, files) == AllOverlaps(a, files) + AllOverlaps(b, files)
    ensures AllOverlaps([one], files) == Overlaps(one, Claims(one.taskIds, files, one.sharedAdditive))
  {
    AllOverlapsConcat(a, b, files);
    assert Front([one]) == [];
    assert AllOverlaps([one], files) == [] + Overlaps(one, BatchClaims(one, files));
  }
}
