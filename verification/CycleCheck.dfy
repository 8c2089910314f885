/** validateDependsDAG: the three-colour depth-first search over task dependencies. */
module CycleCheck {

  import opened Prelude
  import opened SpecModel

  type Graph = map<Id, seq<Id>>

  /** The dependencies of a node; a node that is no task has none. */
  function Deps(g: Graph, n: Id): seq<Id> {
    if n in g then g[n] else []
  }

  /** The graph of a task list: of two tasks with the same id the later one counts. */
  function Adjacency(tasks: seq<Task>): Graph {
    if tasks == [] then map[]
    else Adjacency(Front(tasks))[Last(tasks).id := Last(tasks).depends]
  }

  lemma {:induction false} AdjacencyLastWins(tasks: seq<Task>, i: nat)
    requires i < |tasks|
    requires forall j :: i < j < |tasks| ==> tasks[j].id != tasks[i].id
    ensures tasks[i].id in Adjacency(tasks) && Adjacency(tasks)[tasks[i].id] == tasks[i].depends
  {
    if i < |tasks| - 1 {
      AdjacencyLastWins(Front(tasks), i);
    }
  }

  lemma {:induction false} AdjacencyKeys(tasks: seq<Task>, n: Id)
    ensures n in Adjacency(tasks) <==> exists i :: 0 <= i < |tasks| && tasks[i].id == n
  {
    if tasks != [] {
      AdjacencyKeys(Front(tasks), n);
      assert forall i :: 0 <= i < |tasks| - 1 ==> Front(tasks)[i] == tasks[i];
    }
  }

  /** Every element is followed by one of its dependencies. */
  ghost predicate Walk(g: Graph, p: seq<Id>) {
    forall i :: 0 <= i < |p| - 1 ==> p[i + 1] in Deps(g, p[i])
  }

  lemma {:induction false} WalkFront(g: Graph, p: seq<Id>)
    requires p != [] && Walk(g, p)
    ensures Walk(g, Front(p))
  {
    forall i | 0 <= i < |Front(p)| - 1
      ensures Front(p)[i + 1] in Deps(g, Front(p)[i])
    {
      assert p[i + 1] in Deps(g, p[i]);
    }
  }

  /** A walk whose last element depends on its first. */
  ghost predicate Cycle(g: Graph, p: seq<Id>) {
    p != [] && Walk(g, p) && p[0] in Deps(g, Last(p))
  }

  ghost predicate Acyclic(g: Graph) {
    forall p :: !Cycle(g, p)
  }

  ghost predicate Reachable(g: Graph, from: Id, to: Id) {
    exists w :: w != [] && Walk(g, w) && w[0] == from && Last(w) == to
  }

  ghost predicate Disjoint(p: seq<Id>, q: seq<Id>) {
    forall x :: x in p ==> x !in q
  }

  /** Every node of a cycle has a dependency on the same cycle. */
  lemma {:induction false} NextOnCycle(g: Graph, p: seq<Id>, x: Id)
    requires Cycle(g, p) && x in p
    ensures exists d :: d in Deps(g, x) && d in p
  {
    var i :| 0 <= i < |p| && p[i] == x;
    assert (if i < |p| - 1 then p[i + 1] else p[0]) in Deps(g, x);
  }

  datatype Color = White | Gray | Black

  function ColorOf(color: map<Id, Color>, n: Id): Color {
    if n in color then color[n] else White
  }

  /** The gray nodes are exactly the nodes on the current branch of the search, each once. */
  ghost predicate OnBranch(g: Graph, color: map<Id, Color>, branch: seq<Id>) {
    && Walk(g, branch)
    && (forall n :: n in branch <==> ColorOf(color, n) == Gray)
    && (forall n :: n in color ==> color[n] != White)
  }

  /** No finished node lies on a cycle. */
  ghost predicate FinishedAreClear(g: Graph, color: map<Id, Color>) {
    forall p, x :: Cycle(g, p) && x in p ==> ColorOf(color, x) != Black
  }

  /** Once all dependencies of a node are finished the node may be finished too. */
  lemma {:induction false} FinishKeepsClear(g: Graph, color: map<Id, Color>, n: Id)
    requires FinishedAreClear(g, color)
    requires AllFinished(color, Deps(g, n))
    ensures FinishedAreClear(g, color[n := Black])
  {
    forall p, x | Cycle(g, p) && x in p
      ensures ColorOf(color[n := Black], x) != Black
    {
      if x == n {
        NextOnCycle(g, p, x);
      }
    }
  }

  lemma {:induction false} BranchClosesCycle(g: Graph, branch: seq<Id>, dep: Id) returns (cycle: seq<Id>)
    requires branch != [] && Walk(g, branch) && dep in branch && dep in Deps(g, Last(branch))
    ensures Cycle(g, cycle) && cycle[0] == dep && Last(cycle) == Last(branch)
    ensures forall x :: x in cycle ==> x in branch
  {
    var k :| 0 <= k < |branch| && branch[k] == dep;
    cycle := branch[k..];
    forall i | 0 <= i < |cycle| - 1
      ensures cycle[i + 1] in Deps(g, cycle[i])
    {
      assert branch[k + i + 1] in Deps(g, branch[k + i]);
    }
  }

  /** Nodes are only ever added, and a finished node stays finished. */
  ghost predicate Progress(before: map<Id, Color>, after: map<Id, Color>) {
    && before.Keys <= after.Keys
    && (forall n :: n in before && before[n] == Black ==> after[n] == Black)
  }

  lemma {:induction false} ProgressTransitive(a: map<Id, Color>, b: map<Id, Color>, c: map<Id, Color>)
    requires Progress(a, b) && Progress(b, c)
    ensures Progress(a, c)
    ensures a.Keys < b.Keys ==> a.Keys < c.Keys
    ensures b.Keys <= c.Keys
  {
  }

  ghost predicate AllFinished(color: map<Id, Color>, ds: seq<Id>) {
    forall d :: d in ds ==> ColorOf(color, d) == Black
  }

  lemma {:induction false} OneMoreFinished(before: map<Id, Color>, after: map<Id, Color>, ds: seq<Id>, k: nat)
    requires k < |ds| && Progress(before, after)
    requires AllFinished(before, ds[..k]) && ColorOf(after, ds[k]) == Black
    ensures AllFinished(after, ds[..k + 1])
  {
    assert ds[..k + 1] == ds[..k] + [ds[k]];
  }

  lemma {:induction false} EnterNode(g: Graph, color: map<Id, Color>, branch: seq<Id>, node: Id)
    requires OnBranch(g, color, branch) && ColorOf(color, node) == White
    requires branch != [] ==> node in Deps(g, Last(branch))
    ensures OnBranch(g, color[node := Gray], branch + [node])
    ensures FinishedAreClear(g, color) ==> FinishedAreClear(g, color[node := Gray])
    ensures Progress(color, color[node := Gray])
  {
  }

  lemma {:induction false} LeaveNode(g: Graph, color: map<Id, Color>, branch: seq<Id>, node: Id)
    requires OnBranch(g, color, branch + [node]) && node !in branch
    ensures OnBranch(g, color[node := Black], branch)
  {
    var color' := color[node := Black];
    forall n
      ensures n in branch <==> ColorOf(color', n) == Gray
    {
      assert n in branch + [node] <==> n in branch || n == node;
    }
    assert forall i :: 0 <= i < |branch| ==> branch[i] == (branch + [node])[i];
  }

  /** The cycle found by an abandoned search lies on the branch, ends where the branch ends, and
      avoids every node that was finished when the search started. */
  ghost predicate Closes(g: Graph, branch: seq<Id>, before: map<Id, Color>, cycle: seq<Id>) {
    && Cycle(g, cycle)
    && branch != []
    && Last(cycle) == Last(branch)
    && (forall x :: x in cycle ==> x in branch && ColorOf(before, x) != Black)
  }

  lemma {:induction false} ClosesSince(g: Graph, branch: seq<Id>, before: map<Id, Color>, later: map<Id, Color>,
      cycle: seq<Id>)
    requires Progress(before, later) && Closes(g, branch, later, cycle)
    ensures Closes(g, branch, before, cycle)
  {
  }

  /** The variables that the recursive closure of the source captures. */
  class Search {
    const adj: Graph
    ghost const nodes: set<Id>  // all tasks and dependencies
    var color: map<Id, Color>
    var cycleFound: seq<(Id, Id)>
    ghost var branch: seq<Id>
    ghost var clean: bool  // the colours have not been reset

    ghost predicate Valid()
      reads this
    {
      && adj.Keys <= nodes
      && (forall n :: n in adj ==> forall d :: d in adj[n] ==> d in nodes)
      && color.Keys <= nodes
      && OnBranch(adj, color, branch)
      && (clean ==> FinishedAreClear(adj, color))
    }

    constructor (g: Graph)
      ensures Valid() && adj == g && color == map[] && branch == [] && clean
    {
      adj := g;
      nodes := g.Keys + set n, d | n in g && d in g[n] :: d;
      color := map[];
      cycleFound := [];
      branch := [];
      clean := true;
    }

    method Enter(node: Id)
      requires Valid() && node in nodes && ColorOf(color, node) == White
      requires branch != [] ==> node in Deps(adj, Last(branch))
      modifies this`color, this`branch
      ensures Valid() && color == old(color)[node := Gray] && branch == old(branch) + [node]
      ensures Progress(old(color), color)
    {
      EnterNode(adj, color, branch, node);
      color := color[node := Gray];
      branch := branch + [node];
    }

    method Leave(node: Id)
      requires Valid() && branch != [] && node == Last(branch) && node !in Front(branch) && node in nodes
      requires AllFinished(color, Deps(adj, node))
      modifies this`color, this`branch
      ensures Valid() && color == old(color)[node := Black] && branch == Front(old(branch))
    {
      if clean {
        FinishKeepsClear(adj, color, node);
      }
      assert branch == Front(branch) + [node];
      LeaveNode(adj, color, Front(branch), node);
      color := color[node := Black];
      branch := Front(branch);
    }

    /** Visits `node`.  When an edge to a gray node is met it is recorded and the search is
        abandoned; `cycle` is the cycle that edge closes.  The search ends because every call
        adds a node to the finite set of coloured ones. */
    method Dfs(node: Id) returns (found: bool, ghost cycle: seq<Id>)
      requires Valid() && node in nodes && ColorOf(color, node) == White
      requires branch != [] ==> node in Deps(adj, Last(branch))
      modifies this`color, this`cycleFound, this`branch
      decreases nodes - color.Keys, 0
      ensures Valid() && Progress(old(color), color) && node in color
      ensures !found ==> branch == old(branch) && cycleFound == old(cycleFound) && ColorOf(color, node) == Black
      ensures found ==> Reported(old(color), old(cycleFound), cycle)
      ensures found ==> branch != [] && branch[0] == (old(branch) + [node])[0]
    {
      ghost var (color0, branch0) := (color, branch);
      Enter(node);
      var deps := Deps(adj, node);
      for k := 0 to |deps|
        invariant Valid() && branch == branch0 + [node] && cycleFound == old(cycleFound)
        invariant color0.Keys < color.Keys && Progress(color0, color) && node in color
        invariant AllFinished(color, deps[..k])
      {
        ghost var color1 := color;
        found, cycle := Follow(node, deps[k]);
        ProgressTransitive(color0, color1, color);
        if found {
          ClosesSince(adj, branch, color0, color1, cycle);
          return true, cycle;
        }
        OneMoreFinished(color1, color, deps, k);
      }
      assert deps[..|deps|] == deps;
      Leave(node);
      return false, [];
    }

    /** The loop body of the source: looks at one dependency of the node being visited. */
    method Follow(node: Id, dep: Id) returns (found: bool, ghost cycle: seq<Id>)
      requires Valid() && branch != [] && node == Last(branch) && dep in Deps(adj, node)
      modifies this`color, this`cycleFound, this`branch
      decreases nodes - color.Keys, 1
      ensures Valid() && Progress(old(color), color)
      ensures !found ==> branch == old(branch) && cycleFound == old(cycleFound) && ColorOf(color, dep) == Black
      ensures found ==> branch != [] && branch[0] == old(branch)[0] && Reported(old(color), old(cycleFound), cycle)
    {
      if ColorOf(color, dep) == Gray {
        cycle := BranchClosesCycle(adj, branch, dep);
        cycleFound := cycleFound + [(node, dep)];
        return true, cycle;
      }
      if ColorOf(color, dep) == White {
        found, cycle := Dfs(dep);
        return found, cycle;
      }
      return false, [];
    }

    ghost predicate Reported(before: map<Id, Color>, edges: seq<(Id, Id)>, cycle: seq<Id>)
      reads this
    {
      && Closes(adj, branch, before, cycle)
      && cycleFound == edges + [(Last(cycle), cycle[0])]
    }

    /** After a report everything visited so far counts as finished. */
    method Reset()
      requires Valid()
      modifies this
      ensures Valid() && branch == [] && !clean
      ensures color.Keys == old(color.Keys)
      ensures forall n :: n in color ==> color[n] == Black
    {
      color := map k | k in color :: Black;
      branch := [];
      clean := false;
    }
  }

  /** A finding names the edge that closes a real cycle, at the line of a task leading into it. */
  ghost predicate ReportsCycle(tasks: seq<Task>, f: Finding, cycle: seq<Id>) {
    var g := Adjacency(tasks);
    && Cycle(g, cycle)
    && f.msg == CycleDetected(Last(cycle), cycle[0])
    && exists t :: t in tasks && t.line == f.line && Reachable(g, t.id, Last(cycle))
  }

  ghost predicate AllReported(tasks: seq<Task>, fs: seq<Finding>, cycles: seq<seq<Id>>) {
    |cycles| == |fs| && forall k :: 0 <= k < |fs| ==> ReportsCycle(tasks, fs[k], cycles[k])
  }

  lemma {:induction false} OneMoreReport(tasks: seq<Task>, fs: seq<Finding>, cycles: seq<seq<Id>>, t: Task,
      cycle: seq<Id>)
    requires AllReported(tasks, fs, cycles) && t in tasks
    requires Cycle(Adjacency(tasks), cycle) && Reachable(Adjacency(tasks), t.id, Last(cycle))
    ensures AllReported(tasks, fs + [Finding(t.line, CycleDetected(Last(cycle), cycle[0]))], cycles + [cycle])
  {
    assert ReportsCycle(tasks, Finding(t.line, CycleDetected(Last(cycle), cycle[0])), cycle);
  }

  /** The cycles reported so far lie in the visited part of the graph and do not meet. */
  ghost predicate Separate(color: map<Id, Color>, cycles: seq<seq<Id>>) {
    && (forall i, x :: 0 <= i < |cycles| && x in cycles[i] ==> x in color)
    && (forall i, j :: 0 <= i < j < |cycles| ==> Disjoint(cycles[i], cycles[j]))
  }

  lemma {:induction false} OneMoreCycle(before: map<Id, Color>, after: map<Id, Color>, cycles: seq<seq<Id>>,
      cycle: seq<Id>)
    requires Separate(before, cycles) && before.Keys <= after.Keys
    requires forall x :: x in cycle ==> x in after && x !in before
    ensures Separate(after, cycles + [cycle])
  {
    var all := cycles + [cycle];
    forall i, j | 0 <= i < j < |all|
      ensures Disjoint(all[i], all[j])
    {
      assert all[i] == cycles[i];
    }
  }

  /** When every task is finished and no report was made there is no cycle at all. */
  lemma {:induction false} AllTasksFinished(tasks: seq<Task>, color: map<Id, Color>)
    requires FinishedAreClear(Adjacency(tasks), color)
    requires forall i :: 0 <= i < |tasks| ==> ColorOf(color, tasks[i].id) == Black
    ensures Acyclic(Adjacency(tasks))
  {
    var g := Adjacency(tasks);
    forall p
      ensures !Cycle(g, p)
    {
      if Cycle(g, p) {
        assert p[0] in p;
        NextOnCycle(g, p, p[0]);
        AdjacencyKeys(tasks, p[0]);
      }
    }
  }

  /** One round of the outer loop: searches from a task that has not been visited yet. */
  method SearchFrom(search: Search, t: Task) returns (report: Option<Finding>, ghost cycle: seq<Id>)
    requires search.Valid() && search.branch == [] && t.id in search.nodes
    requires ColorOf(search.color, t.id) == White
    modifies search
    ensures search.Valid() && search.branch == []
    ensures old(search.color.Keys) <= search.color.Keys && t.id in search.color
    ensures report.None? ==> search.clean == old(search.clean)
    ensures report.Some? ==> !search.clean && Cycle(search.adj, cycle)
    ensures report.Some? ==> report.value == Finding(t.line, CycleDetected(Last(cycle), cycle[0]))
    ensures report.Some? ==> Reachable(search.adj, t.id, Last(cycle))
    ensures report.Some? ==> forall x :: x in cycle ==> x in search.color && x !in old(search.color)
  {
    ghost var before := search.color;
    search.cycleFound := [];
    var found;
    found, cycle := search.Dfs(t.id);
    if !found {
      return None, [];
    }
    var edge := search.cycleFound[0];
    report := Some(Finding(t.line, CycleDetected(edge.0, edge.1)));
    assert ([] + [t.id])[0] == t.id;
    assert forall x :: x in cycle ==> x in search.branch && x in search.color;
    search.Reset();
  }

  method BuildAdjacency(tasks: seq<Task>) returns (adj: Graph)
    ensures adj == Adjacency(tasks)
  {
    adj := map[];
    for i := 0 to |tasks|
      invariant adj == Adjacency(tasks[..i])
    {
      adj := adj[tasks[i].id := tasks[i].depends];
      assert Front(tasks[..i + 1]) == tasks[..i];
    }
    assert tasks[..|tasks|] == tasks;
  }

  /** The outer loop: every task that has not been visited yet starts a search. */
  method SearchAll(search: Search, tasks: seq<Task>) returns (fs: seq<Finding>, ghost cycles: seq<seq<Id>>)
    requires search.Valid() && search.branch == [] && search.clean && search.color == map[]
    requires search.adj == Adjacency(tasks)
    modifies search
    ensures search.Valid() && search.branch == [] && (search.clean <==> fs == [])
    ensures forall j :: 0 <= j < |tasks| ==> tasks[j].id in search.color
    ensures AllReported(tasks, fs, cycles) && Separate(search.color, cycles)
  {
    fs, cycles := [], [];
    for i := 0 to |tasks|
      invariant search.Valid() && search.branch == [] && (search.clean <==> fs == [])
      invariant forall j :: 0 <= j < i ==> tasks[j].id in search.color
      invariant AllReported(tasks, fs, cycles) && Separate(search.color, cycles)
    {
      AdjacencyKeys(tasks, tasks[i].id);
      if ColorOf(search.color, tasks[i].id) == White {
        ghost var before := search.color;
        var report; ghost var cycle;
        report, cycle := SearchFrom(search, tasks[i]);
        if report.Some? {
          OneMoreCycle(before, search.color, cycles, cycle);
          OneMoreReport(tasks, fs, cycles, tasks[i], cycle);
          fs, cycles := fs + [report.value], cycles + [cycle];
        } else {
          assert Separate(search.color, cycles);
        }
      }
    }
  }

  /** Nothing is reported exactly when the graph has no cycle; the cycles behind the reports
      (ghost result `cycles`, one per finding) have no task in common. */
  method ValidateDependsDAG(tasks: seq<Task>) returns (fs: seq<Finding>, ghost cycles: seq<seq<Id>>)
    ensures fs == [] <==> Acyclic(Adjacency(tasks))
    ensures |cycles| == |fs|
    ensures forall k :: 0 <= k < |fs| ==> ReportsCycle(tasks, fs[k], cycles[k])
    ensures forall i, j :: 0 <= i < j < |cycles| ==> Disjoint(cycles[i], cycles[j])
  {
    var adj := BuildAdjacency(tasks);
    var search := new Search(adj);
    fs, cycles := SearchAll(search, tasks);
    if fs == [] {
      AllTasksFinished(tasks, search.color);
    } else {
      assert ReportsCycle(tasks, fs[0], cycles[0]);
    }
  }
}
