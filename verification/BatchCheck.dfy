/** The validators that together certify a parallel batch schedule: validateDependsExist,
    validateBatchMembership, validateBatchOrder and validateBatchFileOverlap. */
module BatchCheck {

  import opened Prelude
  import opened SpecModel
  import CycleCheck

  // ---- Dependencies must be declared ----

  function Declared(tasks: seq<Task>): set<Id> {
    set t | t in tasks :: t.id
  }

  function MissingOf(t: Task, deps: seq<Id>, ids: set<Id>): seq<Finding> {
    if deps == [] then []
    else
      MissingOf(t, Front(deps), ids) +
      (if Last(deps) in ids then [] else [Finding(t.line, DependsOnMissing(t.id, Last(deps)))])
  }

  function MissingDeps(tasks: seq<Task>, ids: set<Id>): seq<Finding> {
    if tasks == [] then []
    else MissingDeps(Front(tasks), ids) + MissingOf(Last(tasks), Last(tasks).depends, ids)
  }

  method ValidateDependsExist(tasks: seq<Task>) returns (fs: seq<Finding>)
    ensures fs == MissingDeps(tasks, Declared(tasks))
  {
    var taskIds: set<Id> := {};
    for i := 0 to |tasks|
      invariant taskIds == Declared(tasks[..i])
    {
      taskIds := taskIds + {tasks[i].id};
      assert tasks[..i + 1] == tasks[..i] + [tasks[i]];
    }
    assert tasks[..|tasks|] == tasks;
    fs := [];
    for i := 0 to |tasks|
      invariant fs == MissingDeps(tasks[..i], taskIds)
    {
      var t := tasks[i];
      for k := 0 to |t.depends|
        invariant fs == MissingDeps(tasks[..i], taskIds) + MissingOf(t, t.depends[..k], taskIds)
      {
        assert Front(t.depends[..k + 1]) == t.depends[..k];
        if t.depends[k] !in taskIds {
          fs := fs + [Finding(t.line, DependsOnMissing(t.id, t.depends[k]))];
        }
      }
      assert t.depends[..|t.depends|] == t.depends;
      assert Front(tasks[..i + 1]) == tasks[..i];
    }
  }

  lemma {:induction false} MissingOfSilent(t: Task, deps: seq<Id>, ids: set<Id>)
    ensures MissingOf(t, deps, ids) == [] <==> forall d :: d in deps ==> d in ids
  {
    if deps != [] {
      MissingOfSilent(t, Front(deps), ids);
      assert deps == Front(deps) + [Last(deps)];
    }
  }

  /** Silence means that every dependency of every record, duplicates included, is declared. */
  lemma {:induction false} MissingDepsSilent(tasks: seq<Task>, ids: set<Id>)
    ensures MissingDeps(tasks, ids) == [] <==> forall t, d :: t in tasks && d in t.depends ==> d in ids
  {
    if tasks != [] {
      MissingDepsSilent(Front(tasks), ids);
      MissingOfSilent(Last(tasks), Last(tasks).depends, ids);
      assert tasks == Front(tasks) + [Last(tasks)];
    }
  }

  // ---- Every task is in exactly one batch ----

  /** All places of all batches, one after the other. */
  function Slots(batches: seq<Batch>): seq<Id> {
    if batches == [] then [] else Slots(Front(batches)) + Last(batches).taskIds
  }

  function Misplaced(t: Task, count: nat): seq<Finding> {
    if count == 0 then [Finding(t.line, NotInAnyBatch(t.id))]
    else if count > 1 then [Finding(t.line, InManyBatches(t.id, count))]
    else []
  }

  function MisplacedTasks(tasks: seq<Task>, slots: multiset<Id>): seq<Finding> {
    if tasks == [] then []
    else MisplacedTasks(Front(tasks), slots) + Misplaced(Last(tasks), slots[Last(tasks).id])
  }

  function CountOf(counts: map<Id, nat>, id: Id): nat {
    if id in counts then counts[id] else 0
  }

  function TallyAll(counts: map<Id, nat>, ids: seq<Id>): map<Id, nat> {
    if ids == [] then counts
    else
      var rest := TallyAll(counts, Front(ids));
      rest[Last(ids) := CountOf(rest, Last(ids)) + 1]
  }

  function TallyBatches(batches: seq<Batch>): map<Id, nat> {
    if batches == [] then map[] else TallyAll(TallyBatches(Front(batches)), Last(batches).taskIds)
  }

  lemma {:induction false} TallyAllCounts(counts: map<Id, nat>, ids: seq<Id>, id: Id)
    ensures CountOf(TallyAll(counts, ids), id) == CountOf(counts, id) + multiset(ids)[id]
  {
    if ids != [] {
      TallyAllCounts(counts, Front(ids), id);
      assert ids == Front(ids) + [Last(ids)];
    }
  }

  /** The counting map holds the number of places of each task over all batches. */
  lemma {:induction false} TallyBatchesCounts(batches: seq<Batch>, id: Id)
    ensures CountOf(TallyBatches(batches), id) == multiset(Slots(batches))[id]
  {
    if batches != [] {
      TallyBatchesCounts(Front(batches), id);
      TallyAllCounts(TallyBatches(Front(batches)), Last(batches).taskIds, id);
    }
  }

  method CountPlacements(batches: seq<Batch>) returns (counts: map<Id, nat>)
    ensures counts == TallyBatches(batches)
  {
    counts := map[];
    for i := 0 to |batches|
      invariant counts == TallyBatches(batches[..i])
    {
      var ids := batches[i].taskIds;
      for k := 0 to |ids|
        invariant counts == TallyAll(TallyBatches(batches[..i]), ids[..k])
      {
        counts := counts[ids[k] := CountOf(counts, ids[k]) + 1];
        assert Front(ids[..k + 1]) == ids[..k];
      }
      assert ids[..|ids|] == ids;
      assert Front(batches[..i + 1]) == batches[..i];
    }
    assert batches[..|batches|] == batches;
  }

  method ValidateBatchMembership(tasks: seq<Task>, batches: seq<Batch>) returns (fs: seq<Finding>)
    ensures fs == MisplacedTasks(tasks, multiset(Slots(batches)))
  {
    var taskBatchCount := CountPlacements(batches);
    fs := [];
    for i := 0 to |tasks|
      invariant fs == MisplacedTasks(tasks[..i], multiset(Slots(batches)))
    {
      var t := tasks[i];
      var count := CountOf(taskBatchCount, t.id);
      TallyBatchesCounts(batches, t.id);
      if count == 0 {
        fs := fs + [Finding(t.line, NotInAnyBatch(t.id))];
      } else if count > 1 {
        fs := fs + [Finding(t.line, InManyBatches(t.id, count))];
      }
      assert Front(tasks[..i + 1]) == tasks[..i];
    }
    assert tasks[..|tasks|] == tasks;
  }

  lemma {:induction false} MisplacedTasksSilent(tasks: seq<Task>, slots: multiset<Id>)
    ensures MisplacedTasks(tasks, slots) == [] <==> forall t :: t in tasks ==> slots[t.id] == 1
  {
    if tasks != [] {
      MisplacedTasksSilent(Front(tasks), slots);
      assert tasks == Front(tasks) + [Last(tasks)];
    }
  }

  // ---- Dependencies come in earlier batches ----

  function AssignAll(at: map<Id, int>, ids: seq<Id>, index: int): map<Id, int> {
    if ids == [] then at else AssignAll(at, Front(ids), index)[Last(ids) := index]
  }

  /** The batch index of each listed task; the last batch that lists it counts. */
  function BatchIndex(batches: seq<Batch>): map<Id, int> {
    if batches == [] then map[]
    else AssignAll(BatchIndex(Front(batches)), Last(batches).taskIds, Last(batches).index)
  }

  method IndexBatches(batches: seq<Batch>) returns (at: map<Id, int>)
    ensures at == BatchIndex(batches)
  {
    at := map[];
    for i := 0 to |batches|
      invariant at == BatchIndex(batches[..i])
    {
      var b := batches[i];
      for k := 0 to |b.taskIds|
        invariant at == AssignAll(BatchIndex(batches[..i]), b.taskIds[..k], b.index)
      {
        at := at[b.taskIds[k] := b.index];
        assert Front(b.taskIds[..k + 1]) == b.taskIds[..k];
      }
      assert b.taskIds[..|b.taskIds|] == b.taskIds;
      assert Front(batches[..i + 1]) == batches[..i];
    }
    assert batches[..|batches|] == batches;
  }

  function LateOf(t: Task, deps: seq<Id>, at: map<Id, int>): seq<Finding>
    requires t.id in at
  {
    if deps == [] then []
    else
      var d := Last(deps);
      LateOf(t, Front(deps), at) +
      (if d in at && at[d] >= at[t.id] then [Finding(t.line, NotInEarlierBatch(t.id, at[t.id], d, at[d]))] else [])
  }

  function LateDeps(tasks: seq<Task>, at: map<Id, int>): seq<Finding> {
    if tasks == [] then []
    else
      var t := Last(tasks);
      LateDeps(Front(tasks), at) + (if t.id in at then LateOf(t, t.depends, at) else [])
  }

  method ValidateBatchOrder(tasks: seq<Task>, batches: seq<Batch>) returns (fs: seq<Finding>)
    ensures fs == LateDeps(tasks, BatchIndex(batches))
  {
    var at := IndexBatches(batches);
    fs := [];
    for i := 0 to |tasks|
      invariant fs == LateDeps(tasks[..i], at)
    {
      var t := tasks[i];
      assert Front(tasks[..i + 1]) == tasks[..i];
      if t.id !in at {
        continue;
      }
      for k := 0 to |t.depends|
        invariant fs == LateDeps(tasks[..i], at) + LateOf(t, t.depends[..k], at)
      {
        var dep := t.depends[k];
        assert Front(t.depends[..k + 1]) == t.depends[..k];
        if dep !in at {
          continue;
        }
        if at[dep] >= at[t.id] {
          fs := fs + [Finding(t.line, NotInEarlierBatch(t.id, at[t.id], dep, at[dep]))];
        }
      }
      assert t.depends[..|t.depends|] == t.depends;
    }
    assert tasks[..|tasks|] == tasks;
  }

  lemma {:induction false} LateOfSilent(t: Task, deps: seq<Id>, at: map<Id, int>)
    requires t.id in at
    ensures LateOf(t, deps, at) == [] <==> forall d :: d in deps && d in at ==> at[d] < at[t.id]
  {
    if deps != [] {
      LateOfSilent(t, Front(deps), at);
      assert deps == Front(deps) + [Last(deps)];
    }
  }

  lemma {:induction false} LateDepsSilent(tasks: seq<Task>, at: map<Id, int>)
    ensures LateDeps(tasks, at) == [] <==>
            forall t, d :: t in tasks && d in t.depends && t.id in at && d in at ==> at[d] < at[t.id]
  {
    if tasks != [] {
      var t := Last(tasks);
      LateDepsSilent(Front(tasks), at);
      if t.id in at {
        LateOfSilent(t, t.depends, at);
      }
      assert tasks == Front(tasks) + [t];
    }
  }

  // ---- A silent run of the three checks certifies a schedule ----

  predicate ChecksSilent(tasks: seq<Task>, batches: seq<Batch>) {
    && MissingDeps(tasks, Declared(tasks)) == []
    && MisplacedTasks(tasks, multiset(Slots(batches))) == []
    && LateDeps(tasks, BatchIndex(batches)) == []
  }

  /** Executing the batches by ascending index; batches of equal index in any order. */
  ghost predicate IsSchedule(run: seq<Batch>, batches: seq<Batch>) {
    && multiset(run) == multiset(batches)
    && Ascending(run)
  }

  ghost predicate Ascending(run: seq<Batch>) {
    forall i, j :: 0 <= i < j < |run| ==> run[i].index <= run[j].index
  }

  /** `d` runs in a batch that is strictly before the batch of `t`, in index and in position. */
  ghost predicate RunsBefore(run: seq<Batch>, d: Id, t: Id) {
    exists i, j :: 0 <= i < j < |run| && run[i].index < run[j].index && d in run[i].taskIds && t in run[j].taskIds
  }

  /** Every declared task runs exactly once, and after all of its dependencies. */
  ghost predicate Respects(run: seq<Batch>, tasks: seq<Task>) {
    && EachOnce(tasks, multiset(Slots(run)))
    && (forall t, d :: t in tasks && d in t.depends ==> d in Declared(tasks) && RunsBefore(run, d, t.id))
  }

  lemma {:induction false} SlotsInsert(a: seq<Batch>, b: Batch, c: seq<Batch>)
    ensures multiset(Slots(a + [b] + c)) == multiset(Slots(a + c)) + multiset(b.taskIds)
  {
    if c == [] {
      assert a + [b] + c == a + [b] && a + c == a && Front(a + [b]) == a;
    } else {
      SlotsInsert(a, b, Front(c));
      assert Front(a + [b] + c) == a + [b] + Front(c) && Front(a + c) == a + Front(c);
    }
  }

  lemma {:induction false} TakeOut(run: seq<Batch>, b: Batch) returns (x: seq<Batch>, y: seq<Batch>)
    requires b in multiset(run)
    ensures run == x + [b] + y && multiset(x + y) == multiset(run) - multiset{b}
  {
    var i :| 0 <= i < |run| && run[i] == b;
    x, y := run[..i], run[i + 1..];
    assert run == x + [b] + y;
  }

  /** The places filled do not depend on the order of the batches. */
  lemma {:induction false} SlotsReorder(run: seq<Batch>, batches: seq<Batch>)
    requires multiset(run) == multiset(batches)
    ensures multiset(Slots(run)) == multiset(Slots(batches))
    decreases |batches|
  {
    if batches == [] {
      assert |multiset(run)| == 0;
    } else {
      var b := Last(batches);
      assert batches == Front(batches) + [b];
      var x, y := TakeOut(run, b);
      SlotsInsert(x, b, y);
      SlotsReorder(x + y, Front(batches));
    }
  }

  lemma {:induction false} AssignedLast(at: map<Id, int>, ids: seq<Id>, index: int, id: Id)
    ensures var r := AssignAll(at, ids, index);
            if id in ids then id in r && r[id] == index else (id in r <==> id in at) && (id in at ==> r[id] == at[id])
  {
    if ids != [] {
      AssignedLast(at, Front(ids), index, id);
      assert ids == Front(ids) + [Last(ids)];
    }
  }

  lemma {:induction false} ListedInSlots(batches: seq<Batch>, id: Id)
    ensures id in Slots(batches) <==> exists b :: b in batches && id in b.taskIds
  {
    if batches != [] {
      ListedInSlots(Front(batches), id);
      assert batches == Front(batches) + [Last(batches)];
    }
  }

  /** For a task with a single place the recorded index is the index of the one batch listing it. */
  lemma {:induction false} IndexOfSinglePlace(batches: seq<Batch>, id: Id)
    requires multiset(Slots(batches))[id] == 1
    ensures id in BatchIndex(batches)
    ensures exists b :: b in batches && id in b.taskIds
    ensures forall b :: b in batches && id in b.taskIds ==> b.index == BatchIndex(batches)[id]
  {
    var (rest, b) := (Front(batches), Last(batches));
    assert batches == rest + [b];
    AssignedLast(BatchIndex(rest), b.taskIds, b.index, id);
    assert multiset(Slots(batches)) == multiset(Slots(rest)) + multiset(b.taskIds);
    if id in b.taskIds {
      ListedInSlots(rest, id);
      assert id !in multiset(Slots(rest));
    } else {
      IndexOfSinglePlace(rest, id);
    }
  }

  lemma {:induction false} PositionsInRun(run: seq<Batch>, batches: seq<Batch>, d: Id, t: Id)
    requires IsSchedule(run, batches)
    requires multiset(Slots(batches))[d] == 1 && multiset(Slots(batches))[t] == 1
    ensures d in BatchIndex(batches) && t in BatchIndex(batches)
    ensures RunsBefore(run, d, t) <==> BatchIndex(batches)[d] < BatchIndex(batches)[t]
  {
    IndexOfSinglePlace(batches, d);
    IndexOfSinglePlace(batches, t);
    forall b
      ensures b in run <==> b in batches
    {
      assert b in run <==> b in multiset(run);
    }
    if BatchIndex(batches)[d] < BatchIndex(batches)[t] {
      var bd :| bd in batches && d in bd.taskIds;
      var bt :| bt in batches && t in bt.taskIds;
      var i :| 0 <= i < |run| && run[i] == bd;
      var j :| 0 <= j < |run| && run[j] == bt;
      assert i < j;
    }
  }

  ghost predicate EachOnce(tasks: seq<Task>, slots: multiset<Id>) {
    forall t :: t in tasks ==> slots[t.id] == 1
  }

  lemma {:induction false} SilenceUnfolds(tasks: seq<Task>, batches: seq<Batch>)
    ensures ChecksSilent(tasks, batches) <==>
            && EachOnce(tasks, multiset(Slots(batches)))
            && forall t, d :: t in tasks && d in t.depends ==>
                 && d in Declared(tasks)
                 && (t.id in BatchIndex(batches) && d in BatchIndex(batches) ==>
                       BatchIndex(batches)[d] < BatchIndex(batches)[t.id])
  {
    MissingDepsSilent(tasks, Declared(tasks));
    MisplacedTasksSilent(tasks, multiset(Slots(batches)));
    LateDepsSilent(tasks, BatchIndex(batches));
  }

  lemma {:induction false} DependencyInRun(tasks: seq<Task>, batches: seq<Batch>, run: seq<Batch>, t: Task, d: Id)
    requires IsSchedule(run, batches) && EachOnce(tasks, multiset(Slots(batches)))
    requires t in tasks && d in t.depends && d in Declared(tasks)
    ensures t.id in BatchIndex(batches) && d in BatchIndex(batches)
    ensures RunsBefore(run, d, t.id) <==> BatchIndex(batches)[d] < BatchIndex(batches)[t.id]
  {
    var td :| td in tasks && td.id == d;
    PositionsInRun(run, batches, td.id, t.id);
  }

  /** The three checks are silent exactly when running the batches by ascending index runs every
      declared task once and strictly after all of its dependencies. */
  lemma {:induction false} SilentIffScheduleRespects(tasks: seq<Task>, batches: seq<Batch>, run: seq<Batch>)
    requires IsSchedule(run, batches)
    ensures ChecksSilent(tasks, batches) <==> Respects(run, tasks)
  {
    SilenceUnfolds(tasks, batches);
    SlotsReorder(run, batches);
    if ChecksSilent(tasks, batches) {
      forall t, d | t in tasks && d in t.depends
        ensures d in Declared(tasks) && RunsBefore(run, d, t.id)
      {
        DependencyInRun(tasks, batches, run, t, d);
      }
    }
    if Respects(run, tasks) {
      forall t, d | t in tasks && d in t.depends
        ensures d in BatchIndex(batches) && t.id in BatchIndex(batches)
        ensures BatchIndex(batches)[d] < BatchIndex(batches)[t.id]
      {
        DependencyInRun(tasks, batches, run, t, d);
      }
    }
  }

  lemma {:induction false} AdjacencyComesFromTask(tasks: seq<Task>, n: Id)
    requires n in CycleCheck.Adjacency(tasks)
    ensures exists t :: t in tasks && t.id == n && t.depends == CycleCheck.Adjacency(tasks)[n]
  {
    assert tasks == Front(tasks) + [Last(tasks)];
    if Last(tasks).id != n {
      AdjacencyComesFromTask(Front(tasks), n);
    }
  }

  lemma {:induction false} EdgeGoesDown(tasks: seq<Task>, batches: seq<Batch>, n: Id, d: Id)
    requires ChecksSilent(tasks, batches) && d in CycleCheck.Deps(CycleCheck.Adjacency(tasks), n)
    ensures n in BatchIndex(batches) && d in BatchIndex(batches) && BatchIndex(batches)[d] < BatchIndex(batches)[n]
  {
    AdjacencyComesFromTask(tasks, n);
    var t :| t in tasks && t.id == n && d in t.depends;
    MissingDepsSilent(tasks, Declared(tasks));
    MisplacedTasksSilent(tasks, multiset(Slots(batches)));
    LateDepsSilent(tasks, BatchIndex(batches));
    assert d in Declared(tasks);
    IndexOfSinglePlace(batches, n);
    IndexOfSinglePlace(batches, d);
  }

  lemma {:induction false} WalkGoesDown(tasks: seq<Task>, batches: seq<Batch>, p: seq<Id>)
    requires ChecksSilent(tasks, batches)
    requires |p| >= 1 && CycleCheck.Walk(CycleCheck.Adjacency(tasks), p) && p[0] in BatchIndex(batches)
    ensures Last(p) in BatchIndex(batches) && BatchIndex(batches)[Last(p)] <= BatchIndex(batches)[p[0]]
    decreases |p|
  {
    if |p| > 1 {
      CycleCheck.WalkFront(CycleCheck.Adjacency(tasks), p);
      WalkGoesDown(tasks, batches, Front(p));
      assert p[|p| - 2 + 1] in CycleCheck.Deps(CycleCheck.Adjacency(tasks), p[|p| - 2]);
      EdgeGoesDown(tasks, batches, p[|p| - 2], Last(p));
    }
  }

  /** A certified schedule leaves nothing for the cycle check to report. */
  lemma {:induction false} SilentChecksImplyAcyclic(tasks: seq<Task>, batches: seq<Batch>)
    requires ChecksSilent(tasks, batches)
    ensures CycleCheck.Acyclic(CycleCheck.Adjacency(tasks))
  {
    var g := CycleCheck.Adjacency(tasks);
    forall p
      ensures !CycleCheck.Cycle(g, p)
    {
      if CycleCheck.Cycle(g, p) {
        EdgeGoesDown(tasks, batches, Last(p), p[0]);
        WalkGoesDown(tasks, batches, p);
      }
    }
  }

  /** The validators together, in the order of the validator list. */
  method ValidateSchedule(tasks: seq<Task>, batches: seq<Batch>)
    returns (cyclic: seq<Finding>, missing: seq<Finding>, misplaced: seq<Finding>, late: seq<Finding>)
    ensures missing == [] && misplaced == [] && late == [] ==> cyclic == []
    ensures missing == [] && misplaced == [] && late == [] <==>
            forall run :: IsSchedule(run, batches) ==> Respects(run, tasks)
  {
    ghost var cycles;
    cyclic, cycles := CycleCheck.ValidateDependsDAG(tasks);
    missing := ValidateDependsExist(tasks);
    misplaced := ValidateBatchMembership(tasks, batches);
    late := ValidateBatchOrder(tasks, batches);
    if ChecksSilent(tasks, batches) {
      SilentChecksImplyAcyclic(tasks, batches);
    }
    forall run | IsSchedule(run, batches)
      ensures ChecksSilent(tasks, batches) <==> Respects(run, tasks)
    {
      SilentIffScheduleRespects(tasks, batches, run);
    }
    ghost var sorted := SomeSchedule(batches);
  }

  lemma {:induction false} AppendHighest(s: seq<Batch>, b: Batch)
    requires Ascending(s) && forall x :: x in multiset(s) ==> x.index <= b.index
    ensures Ascending(s + [b])
  {
    assert forall i :: 0 <= i < |s| ==> s[i] in multiset(s);
  }

  lemma {:induction false} InsertByIndex(s: seq<Batch>, b: Batch) returns (r: seq<Batch>)
    requires Ascending(s)
    ensures Ascending(r) && multiset(r) == multiset(s) + multiset{b}
    decreases |s|
  {
    if s == [] || Last(s).index <= b.index {
      forall x: Batch | x in multiset(s)
        ensures x.index <= b.index
      {
        var i :| 0 <= i < |s| && s[i] == x;
      }
      AppendHighest(s, b);
      r := s + [b];
    } else {
      var f: seq<Batch>, l: Batch := Front(s), Last(s);
      assert s == f + [l];
      var r' := InsertByIndex(f, b);
      forall x: Batch | x in multiset(r')
        ensures x.index <= l.index
      {
        if x != b {
          assert x in multiset(f);
          var i :| 0 <= i < |f| && f[i] == x;
        }
      }
      AppendHighest(r', l);
      r := r' + [l];
    }
  }

  /** The batches can always be put into ascending order. */
  lemma {:induction false} SomeSchedule(batches: seq<Batch>) returns (run: seq<Batch>)
    ensures IsSchedule(run, batches)
  {
    if batches == [] {
      run := [];
    } else {
      assert batches == Front(batches) + [Last(batches)];
      var s := SomeSchedule(Front(batches));
      run := InsertByIndex(s, Last(batches));
    }
  }
}
