/** The plugin dependency graph of the CLI: construction, cycle search by
    depth-first traversal, and Kahn's topological sort.

    A dependency may be declared twice, so the graph is a multigraph. Go maps are
    iterated in an unspecified order; every such loop here picks an arbitrary
    remaining key. */
module DependencyGraph {
  import opened Prelude

  datatype Dependency = Dependency(fieldName: string, pluginName: string)

  datatype Plugin = Plugin(name: string, dependencies: seq<Dependency>)

  datatype GraphError =
    | MissingDependency(pluginName: string, field: string, dependency: string)
    | CircularDependency(cycle: seq<string>)

  /** Each plugin name with the names it depends on, in declaration order. */
  type Edges = map<string, seq<string>>

  // ---------------------------------------------------------------------------
  // What a graph means, independently of the algorithms
  // ---------------------------------------------------------------------------

  ghost predicate Arc(edges: Edges, a: string, b: string) {
    a in edges && b in edges[a]
  }

  ghost predicate Closed(edges: Edges) {
    forall a, b :: Arc(edges, a, b) ==> b in edges
  }

  /** The successor of a position in a sequence read cyclically. */
  function Next(c: seq<string>, i: nat): string
    requires i < |c|
  {
    if i + 1 < |c| then c[i + 1] else c[0]
  }

  /** A directed cycle, read cyclically: the last node points back to the first. */
  ghost predicate IsCycle(edges: Edges, c: seq<string>) {
    && |c| > 0
    && forall i :: 0 <= i < |c| ==> Arc(edges, c[i], Next(c, i))
  }

  ghost predicate HasCycle(edges: Edges) {
    exists c :: IsCycle(edges, c)
  }

  /** Every dependency of a listed node is listed before it. */
  ghost predicate DependenciesFirst(edges: Edges, order: seq<string>) {
    forall i, d :: 0 <= i < |order| && Arc(edges, order[i], d) ==> d in order[..i]
  }

  /** The list findCycle returns repeats its last node; without that entry it is a
      simple directed cycle. */
  ghost predicate ReportsCycle(edges: Edges, report: seq<string>) {
    && |report| >= 2
    && report[|report| - 1] == report[|report| - 2]
    && IsCycle(edges, report[..|report| - 1])
    && Distinct(report[..|report| - 1])
  }

  /** The position at which a listed name first occurs. */
  ghost function Position(order: seq<string>, x: string): (i: nat)
    requires x in order
    ensures i < |order| && order[i] == x
    ensures forall j :: 0 <= j < i ==> order[j] != x
  {
    if order[0] == x then 0 else 1 + Position(order[1..], x)
  }

  lemma ArcGoesBack(edges: Edges, order: seq<string>, a: string, b: string)
    requires DependenciesFirst(edges, order) && a in order && Arc(edges, a, b)
    ensures b in order && Position(order, b) < Position(order, a)
  {
    assert b in order[..Position(order, a)];
  }

  /** A walk along arcs, each node to the next. */
  ghost predicate IsWalk(edges: Edges, c: seq<string>) {
    forall i: nat :: StepsTo(edges, c, i)
  }

  ghost predicate StepsTo(edges: Edges, c: seq<string>, i: nat) {
    i + 1 < |c| ==> Arc(edges, c[i], c[i + 1])
  }

  /** A walk that begins at a listed node goes strictly backwards through the order. */
  lemma {:induction false} WalkDescends(edges: Edges, order: seq<string>, c: seq<string>, k: nat)
    requires DependenciesFirst(edges, order) && IsWalk(edges, c) && k < |c| && c[0] in order
    ensures c[k] in order && Position(order, c[k]) + k <= Position(order, c[0])
    decreases k
  {
    if k > 0 {
      var m: nat := k - 1;
      WalkDescends(edges, order, c, m);
      assert StepsTo(edges, c, m);
      ArcGoesBack(edges, order, c[m], c[k]);
    }
  }

  lemma CycleIsWalk(edges: Edges, c: seq<string>)
    requires IsCycle(edges, c)
    ensures IsWalk(edges, c) && Arc(edges, c[|c| - 1], c[0])
  {
    forall i: nat ensures StepsTo(edges, c, i) {
      assert i + 1 < |c| ==> Next(c, i) == c[i + 1] && Arc(edges, c[i], Next(c, i));
    }
    var last: nat := |c| - 1;
    assert Arc(edges, c[last], Next(c, last));
  }

  lemma OrderExcludesCycle(edges: Edges, order: seq<string>, c: seq<string>)
    requires DependenciesFirst(edges, order) && edges.Keys <= Elems(order)
    ensures !IsCycle(edges, c)
  {
    if IsCycle(edges, c) {
      CycleIsWalk(edges, c);
      var last: nat := |c| - 1;
      WalkDescends(edges, order, c, last);
      ArcGoesBack(edges, order, c[last], c[0]);
    }
  }

  /** A graph whose nodes can all be listed dependencies-first has no directed cycle. */
  lemma OrderExcludesCycles(edges: Edges, order: seq<string>)
    requires DependenciesFirst(edges, order) && edges.Keys <= Elems(order)
    ensures !HasCycle(edges)
  {
    forall c ensures !IsCycle(edges, c) {
      OrderExcludesCycle(edges, order, c);
    }
  }

  lemma ExtendOrder(edges: Edges, order: seq<string>, x: string)
    requires DependenciesFirst(edges, order)
    requires forall d :: Arc(edges, x, d) ==> d in order
    ensures DependenciesFirst(edges, order + [x])
  {
    var longer := order + [x];
    forall i, d | 0 <= i < |longer| && Arc(edges, longer[i], d) ensures d in longer[..i] {
      if i == |order| {
        assert longer[..i] == order;
      } else {
        assert longer[..i] == order[..i];
      }
    }
  }

  // ---------------------------------------------------------------------------
  // findCycle
  // ---------------------------------------------------------------------------

  /** A path along arcs whose nodes point to their predecessor in the parent map. */
  ghost predicate ActivePath(edges: Edges, parent: map<string, string>, path: seq<string>) {
    && Distinct(path)
    && forall k :: 0 < k < |path| ==>
         Arc(edges, path[k - 1], path[k]) && path[k] in parent && parent[path[k]] == path[k - 1]
  }

  /** An arc from the end of a path back to one of its nodes closes a simple cycle. */
  lemma BackArcClosesCycle(edges: Edges, parent: map<string, string>, path: seq<string>, j: nat)
    requires ActivePath(edges, parent, path) && j < |path|
    requires Arc(edges, path[|path| - 1], path[j])
    ensures IsCycle(edges, path[j + 1..] + [path[j]])
    ensures Distinct(path[j + 1..] + [path[j]])
  {
    var c := path[j + 1..] + [path[j]];
    forall i | 0 <= i < |c| ensures Arc(edges, c[i], Next(c, i)) {
      if i + 1 < |c| {
        assert c[i] == path[j + 1 + i];
      } else {
        assert c[i] == path[j];
      }
    }
  }

  /** What the traversal keeps between two calls: the recursion stack is the active
      path, everything else it visited it has left, and it left dependencies first. */
  ghost predicate Search(edges: Edges, visited: set<string>, recStack: set<string>, parent: map<string, string>,
                         path: seq<string>, left: seq<string>) {
    && ActivePath(edges, parent, path)
    && recStack == Elems(path)
    && visited == recStack + Elems(left)
    && recStack !! Elems(left)
    && visited <= edges.Keys
    && DependenciesFirst(edges, left)
  }

  /** The parent map is set up for the node to extend the path. */
  ghost predicate Extends(edges: Edges, parent: map<string, string>, path: seq<string>, node: string) {
    |path| > 0 ==> Arc(edges, path[|path| - 1], node) && node in parent && parent[node] == path[|path| - 1]
  }

  lemma EnterKeepsSearch(edges: Edges, visited: set<string>, recStack: set<string>, parent: map<string, string>,
                         path: seq<string>, left: seq<string>, node: string)
    requires Search(edges, visited, recStack, parent, path, left)
    requires node in edges && node !in visited && Extends(edges, parent, path, node)
    ensures Search(edges, visited + {node}, recStack + {node}, parent, path + [node], left)
  {
    ElemsAppend(path, node);
    assert node !in path;
  }

  lemma LeaveKeepsSearch(edges: Edges, visited: set<string>, recStack: set<string>, parent: map<string, string>,
                         path: seq<string>, left: seq<string>, node: string)
    requires Search(edges, visited, recStack, parent, path + [node], left)
    requires forall d :: Arc(edges, node, d) ==> d in left
    ensures Search(edges, visited, recStack - {node}, parent, path, left + [node])
  {
    ElemsAppend(path, node);
    ElemsAppend(left, node);
    ExtendOrder(edges, left, node);
    var whole := path + [node];
    assert forall k :: 0 <= k < |path| ==> whole[k] == path[k];
    assert node !in path by {
      assert whole[|path|] == node;
    }
  }

  lemma AdoptKeepsSearch(edges: Edges, visited: set<string>, recStack: set<string>, parent: map<string, string>,
                         path: seq<string>, left: seq<string>, node: string, dep: string)
    requires Search(edges, visited, recStack, parent, path, left)
    requires |path| > 0 && path[|path| - 1] == node && Arc(edges, node, dep) && dep !in visited
    ensures Search(edges, visited, recStack, parent[dep := node], path, left)
    ensures Extends(edges, parent[dep := node], path, dep)
  {
    assert forall k :: 0 <= k < |path| ==> path[k] in Elems(path);
  }

  /** The maps captured by the recursive closure of findCycle. The ghost fields
      record the active path and the nodes already left, in order of leaving. */
  class CycleFinder {
    const edges: Edges
    var visited: set<string>
    var recStack: set<string>
    var parent: map<string, string>
    ghost var path: seq<string>
    ghost var left: seq<string>

    constructor (edges: Edges)
      ensures this.edges == edges
      ensures visited == {} && path == [] && left == [] && Valid()
    {
      this.edges := edges;
      visited, recStack, parent := {}, {}, map[];
      path, left := [], [];
    }

    ghost predicate Valid()
      reads this
    {
      Search(edges, visited, recStack, parent, path, left)
    }

    /** Explores from an unvisited node. Without a result the node has been left and
        the active path is as before; a result is a cycle report. */
    method Dfs(node: string) returns (cycle: Option<seq<string>>)
      requires Valid() && Closed(edges) && node in edges && node !in visited
      requires Extends(edges, parent, path, node)
      modifies this
      ensures cycle.Some? ==> ReportsCycle(edges, cycle.value)
      ensures cycle.None? ==> Valid() && path == old(path)
      ensures cycle.None? ==> old(Elems(left)) <= Elems(left) && node in left
      decreases edges.Keys - visited
    {
      EnterKeepsSearch(edges, visited, recStack, parent, path, left, node);
      visited, recStack := visited + {node}, recStack + {node};
      path := path + [node];
      var i := 0;
      while i < |edges[node]|
        invariant 0 <= i <= |edges[node]|
        invariant Valid() && path == old(path) + [node]
        invariant old(visited) + {node} <= visited && old(Elems(left)) <= Elems(left)
        invariant forall k :: 0 <= k < i ==> edges[node][k] in Elems(left)
      {
        var dep := edges[node][i];
        assert Arc(edges, node, dep);
        if dep !in visited {
          AdoptKeepsSearch(edges, visited, recStack, parent, path, left, node, dep);
          parent := parent[dep := node];
          cycle := Dfs(dep);
          if cycle.Some? {
            return;
          }
        } else if dep in recStack {
          var report := Reconstruct(node, dep);
          return Some(report);
        }
        i := i + 1;
      }
      LeaveKeepsSearch(edges, visited, recStack, parent, old(path), left, node);
      ElemsAppend(left, node);
      recStack := recStack - {node};
      path, left := old(path), left + [node];
      return None;
    }

    /** Walks the parent links from the node back to the dependency that closes the cycle. */
    method Reconstruct(node: string, dep: string) returns (report: seq<string>)
      requires Valid() && |path| > 0 && path[|path| - 1] == node
      requires dep in recStack && Arc(edges, node, dep)
      ensures ReportsCycle(edges, report)
    {
      ghost var j :| 0 <= j < |path| && path[j] == dep;
      ghost var k := |path| - 1;
      report := [dep];
      var current := node;
      while current != dep
        invariant j <= k < |path| && current == path[k]
        invariant report == path[k + 1..] + [dep]
        decreases k
      {
        report := [current] + report;
        assert report == path[k..] + [dep];
        current := parent[current];
        k := k - 1;
      }
      assert k == j;
      BackArcClosesCycle(edges, parent, path, j);
      ghost var loop := report;
      report := report + [dep];
      assert report[..|report| - 1] == loop;
    }
  }

  // ---------------------------------------------------------------------------
  // What a plugin list declares
  // ---------------------------------------------------------------------------

  /** The names a plugin list makes the named plugin depend on: a name may be
      registered twice, and the dependencies of all its registrations count. */
  function DeclaredBy(plugins: seq<Plugin>, name: string): seq<string> {
    if plugins == [] then []
    else
      var last := plugins[|plugins| - 1];
      DeclaredBy(plugins[..|plugins| - 1], name) +
      TargetsOf(last.name, last.dependencies, name)
  }

  function Targets(deps: seq<Dependency>): seq<string> {
    if deps == [] then []
    else Targets(deps[..|deps| - 1]) + [deps[|deps| - 1].pluginName]
  }

  function Names(plugins: seq<Plugin>): set<string> {
    set p | p in plugins :: p.name
  }

  function DeclaredEdges(plugins: seq<Plugin>): Edges {
    map n | n in Names(plugins) :: DeclaredBy(plugins, n)
  }

  /** The dependency at position q of plugin p names no registered plugin. */
  ghost predicate Missing(plugins: seq<Plugin>, p: int, q: int) {
    && 0 <= p < |plugins| && 0 <= q < |plugins[p].dependencies|
    && plugins[p].dependencies[q].pluginName !in Names(plugins)
  }

  /** No dependency before this position is missing. */
  ghost predicate NoneMissingBefore(plugins: seq<Plugin>, p: int, q: int) {
    forall p', q' :: Missing(plugins, p', q') ==> p < p' || (p == p' && q <= q')
  }

  // ---------------------------------------------------------------------------
  // The two edge tables
  // ---------------------------------------------------------------------------

  /** Both tables list the same arcs among the same nodes, each equally often. */
  ghost predicate Mirror(edges: Edges, reverseEdges: Edges) {
    && edges.Keys == reverseEdges.Keys
    && Closed(edges) && Closed(reverseEdges)
    && forall a, b {:trigger Times(edges[a], b)} {:trigger Times(reverseEdges[b], a)} ::
         a in edges && b in edges ==> Times(edges[a], b) == Times(reverseEdges[b], a)
  }

  /** The table with one more entry at the end of one list. */
  function Append(table: Edges, key: string, entry: string): (t: Edges)
    requires key in table
    ensures t.Keys == table.Keys
  {
    table[key := table[key] + [entry]]
  }

  lemma AppendKeepsClosed(table: Edges, key: string, entry: string)
    requires Closed(table) && key in table && entry in table
    ensures Closed(Append(table, key, entry))
  {
    forall a, b | Arc(Append(table, key, entry), a, b) ensures b in table {
      assert Arc(table, a, b) || b == entry;
    }
  }

  lemma AppendCounts(table: Edges, key: string, entry: string, a: string, b: string)
    requires key in table && a in table
    ensures Times(Append(table, key, entry)[a], b) ==
            Times(table[a], b) + (if a == key && b == entry then 1 else 0)
  {
    TimesAppend(table[key], entry, b);
  }

  lemma LinkKeepsMirror(edges: Edges, reverseEdges: Edges, from: string, to: string)
    requires Mirror(edges, reverseEdges) && from in edges && to in edges
    ensures Mirror(Append(edges, from, to), Append(reverseEdges, to, from))
  {
    AppendKeepsClosed(edges, from, to);
    AppendKeepsClosed(reverseEdges, to, from);
    var e, r := Append(edges, from, to), Append(reverseEdges, to, from);
    forall a, b | a in e && b in e ensures Times(e[a], b) == Times(r[b], a) {
      AppendCounts(edges, from, to, a, b);
      AppendCounts(reverseEdges, to, from, b, a);
    }
  }

  /** How many entries of a dependency list are not yet finished. */
  ghost function Pending(deps: seq<string>, finished: set<string>): nat {
    if deps == [] then 0
    else Pending(deps[..|deps| - 1], finished) + (if deps[|deps| - 1] in finished then 0 else 1)
  }

  lemma PendingFinish(deps: seq<string>, finished: set<string>, x: string)
    requires x !in finished
    ensures Pending(deps, finished) == Pending(deps, finished + {x}) + Times(deps, x)
  {
    if deps != [] {
      var init, last := deps[..|deps| - 1], deps[|deps| - 1];
      PendingFinish(init, finished, x);
      assert deps == init + [last];
      TimesAppend(init, last, x);
    }
  }

  lemma PendingZero(deps: seq<string>, finished: set<string>)
    ensures Pending(deps, finished) == 0 <==> forall d :: d in deps ==> d in finished
  {
    if deps != [] {
      PendingZero(deps[..|deps| - 1], finished);
      assert deps == deps[..|deps| - 1] + [deps[|deps| - 1]];
    }
  }

  lemma PendingNone(deps: seq<string>)
    ensures Pending(deps, {}) == |deps|
  {
  }

  /** A node's counter is the number of its dependencies still unfinished. */
  ghost predicate Counts(edges: Edges, inDegree: map<string, int>, finished: set<string>) {
    && inDegree.Keys == edges.Keys
    && forall n :: n in edges ==> inDegree[n] == Pending(edges[n], finished)
  }

  /** The nodes whose counter is zero are exactly those listed, each once. */
  ghost predicate ZeroesListed(inDegree: map<string, int>, listed: seq<string>) {
    && Distinct(listed)
    && forall n :: n in listed <==> n in inDegree && inDegree[n] == 0
  }

  lemma DecrementKeepsZeroes(inDegree: map<string, int>, listed: seq<string>, x: string)
    requires ZeroesListed(inDegree, listed) && x in inDegree && inDegree[x] >= 1
    ensures ZeroesListed(inDegree[x := inDegree[x] - 1], if inDegree[x] == 1 then listed + [x] else listed)
  {
    assert x !in listed;
  }

  lemma Requeue(result: seq<string>, queue: seq<string>, released: seq<string>)
    requires queue != []
    ensures (result + [queue[0]]) + (queue[1..] + released) == (result + queue) + released
  {
    assert queue == [queue[0]] + queue[1..];
  }

  lemma ListedIsReady(edges: Edges, inDegree: map<string, int>, listed: seq<string>, finished: set<string>, x: string)
    requires Counts(edges, inDegree, finished) && ZeroesListed(inDegree, listed) && x in listed
    ensures x in edges && forall d :: Arc(edges, x, d) ==> d in finished
  {
    PendingZero(edges[x], finished);
  }

  /** When nothing is queued any more, an acyclic graph is finished: by induction along
      any dependencies-first order, every counter has reached zero. */
  lemma {:induction false} QuiescentIsFinished(edges: Edges, inDegree: map<string, int>, listed: seq<string>,
                                               order: seq<string>, k: nat)
    requires Counts(edges, inDegree, Elems(listed)) && ZeroesListed(inDegree, listed)
    requires DependenciesFirst(edges, order) && Closed(edges) && k < |order| && order[k] in edges
    ensures order[k] in listed
    decreases k
  {
    forall d | d in edges[order[k]] ensures d in Elems(listed) {
      assert Arc(edges, order[k], d);
      var j :| 0 <= j < k && order[j] == d;
      QuiescentIsFinished(edges, inDegree, listed, order, j);
    }
    PendingZero(edges[order[k]], Elems(listed));
  }

  class Graph {
    var nodes: map<string, Plugin>
    var edges: Edges
    var reverseEdges: Edges

    constructor ()
      ensures nodes == map[] && edges == map[] && reverseEdges == map[]
    {
      nodes, edges, reverseEdges := map[], map[], map[];
    }

    ghost predicate Consistent()
      reads this
    {
      nodes.Keys == edges.Keys && Mirror(edges, reverseEdges)
    }

    /** A node without edges; a node of that name is overwritten. */
    method AddNode(plugin: Plugin)
      modifies this
      ensures nodes == old(nodes)[plugin.name := plugin]
      ensures edges == old(edges)[plugin.name := []] && reverseEdges == old(reverseEdges)[plugin.name := []]
    {
      nodes := nodes[plugin.name := plugin];
      edges := edges[plugin.name := []];
      reverseEdges := reverseEdges[plugin.name := []];
    }

    /** Adds an arc to both tables. */
    method AddArc(from: string, to: string)
      requires Consistent() && from in nodes && to in nodes
      modifies this`edges, this`reverseEdges
      ensures Consistent() && edges == Append(old(edges), from, to)
    {
      var forward, backward := Append(edges, from, to), Append(reverseEdges, to, from);
      LinkKeepsMirror(edges, reverseEdges, from, to);
      edges, reverseEdges := forward, backward;
    }

    /** Finds a cycle exactly when there is one, for any order of nodes; when there is
        none, the order in which the traversal left the nodes is returned as evidence. */
    method FindCycle() returns (cycle: Option<seq<string>>, ghost order: seq<string>)
      requires Consistent()
      ensures cycle.Some? <==> HasCycle(edges)
      ensures cycle.Some? ==> ReportsCycle(edges, cycle.value)
      ensures cycle.None? ==> DependenciesFirst(edges, order) && edges.Keys <= Elems(order)
    {
      order := [];
      var finder := new CycleFinder(edges);
      var todo := nodes.Keys;
      while todo != {}
        invariant fresh(finder) && finder.edges == edges
        invariant finder.Valid() && finder.path == []
        invariant todo <= edges.Keys && edges.Keys - todo <= Elems(finder.left)
        decreases todo
      {
        var node :| node in todo;
        if node !in finder.visited {
          cycle := finder.Dfs(node);
          if cycle.Some? {
            return;
          }
        }
        todo := todo - {node};
      }
      order := finder.left;
      OrderExcludesCycles(edges, order);
      return None, order;
    }

    /** Kahn's algorithm. It lists every node once with dependencies first exactly when
        there is no cycle, and otherwise reports a cycle. */
    method TopologicalSort() returns (r: Result<seq<string>, GraphError>)
      requires Consistent()
      ensures r.Success? <==> !HasCycle(edges)
      ensures r.Success? ==> Distinct(r.value) && Elems(r.value) == nodes.Keys
      ensures r.Success? ==> DependenciesFirst(edges, r.value)
      ensures r.Failure? ==> r.error.CircularDependency? && ReportsCycle(edges, r.error.cycle)
    {
      var inDegree := CountDependencies();
      var queue := InitialQueue(inDegree);
      var result: seq<string> := [];
      assert Elems(result) == {};
      ghost var listed := queue;
      while queue != []
        invariant listed == result + queue
        invariant Counts(edges, inDegree, Elems(result)) && ZeroesListed(inDegree, listed)
        invariant DependenciesFirst(edges, result)
        decreases edges.Keys - Elems(result)
      {
        var current := queue[0];
        assert listed[|result|] == current;
        ListedIsReady(edges, inDegree, listed, Elems(result), current);
        ExtendOrder(edges, result, current);
        ElemsAppend(result, current);
        assert current !in result by {
          assert forall k :: 0 <= k < |result| ==> listed[k] == result[k];
        }
        ghost var released;
        ghost var waiting := queue;
        inDegree, queue, released := Release(inDegree, queue[1..], current, listed, Elems(result));
        Requeue(result, waiting, released);
        listed, result := listed + released, result + [current];
      }
      assert listed == result;
      DistinctSize(result);
      if |result| != |nodes| {
        var cycle, order := FindCycle();
        if cycle.None? {
          AcyclicIsSorted(inDegree, result, order);
        }
        return Failure(CircularDependency(cycle.value));
      }
      assert |nodes.Keys| == |nodes|;
      SubsetSameSize(Elems(result), nodes.Keys);
      OrderExcludesCycles(edges, result);
      return Success(result);
    }

    lemma AcyclicIsSorted(inDegree: map<string, int>, result: seq<string>, order: seq<string>)
      requires Consistent() && Counts(edges, inDegree, Elems(result)) && ZeroesListed(inDegree, result)
      requires DependenciesFirst(edges, order) && edges.Keys <= Elems(order)
      ensures |result| == |nodes|
    {
      forall n | n in edges ensures n in result {
        var k :| 0 <= k < |order| && order[k] == n;
        QuiescentIsFinished(edges, inDegree, result, order, k);
      }
      assert Elems(result) == nodes.Keys;
      DistinctSize(result);
    }

    method CountDependencies() returns (inDegree: map<string, int>)
      requires Consistent()
      ensures Counts(edges, inDegree, {})
    {
      inDegree := map[];
      var todo := nodes.Keys;
      while todo != {}
        invariant todo <= nodes.Keys && inDegree.Keys == nodes.Keys - todo
        invariant forall n :: n in inDegree ==> inDegree[n] == Pending(edges[n], {})
        decreases todo
      {
        var node :| node in todo;
        PendingNone(edges[node]);
        inDegree := inDegree[node := |edges[node]|];
        todo := todo - {node};
      }
    }

    method InitialQueue(inDegree: map<string, int>) returns (queue: seq<string>)
      ensures ZeroesListed(inDegree, queue)
    {
      queue := [];
      var todo := inDegree.Keys;
      while todo != {}
        invariant todo <= inDegree.Keys && Distinct(queue)
        invariant forall n :: n in queue <==> n in inDegree && n !in todo && inDegree[n] == 0
        decreases todo
      {
        var node :| node in todo;
        if inDegree[node] == 0 {
          DistinctAppend(queue, node);
          queue := queue + [node];
        }
        todo := todo - {node};
      }
    }

    /** Counts the finished node off at each of its dependents and queues those that
        are left without unfinished dependencies. */
    method Release(inDegree0: map<string, int>, queue0: seq<string>, current: string,
                   ghost listed: seq<string>, ghost finished: set<string>)
      returns (inDegree: map<string, int>, queue: seq<string>, ghost released: seq<string>)
      requires Consistent() && current in edges && current !in finished
      requires Counts(edges, inDegree0, finished) && ZeroesListed(inDegree0, listed)
      ensures Counts(edges, inDegree, finished + {current})
      ensures ZeroesListed(inDegree, listed + released) && queue == queue0 + released
    {
      inDegree, queue, released := inDegree0, queue0, [];
      var dependents := reverseEdges[current];
      var i := 0;
      assert queue0 + [] == queue0 && listed + [] == listed;
      while i < |dependents|
        invariant 0 <= i <= |dependents| && queue == queue0 + released
        invariant PartlyCounted(edges, inDegree, finished, dependents[..i])
        invariant ZeroesListed(inDegree, listed + released)
      {
        var dependent := dependents[i];
        assert Arc(reverseEdges, current, dependent);
        assert Times(edges[dependent], current) == Times(dependents, dependent);
        CountOff(edges, inDegree, finished, current, dependents, i);
        DecrementKeepsZeroes(inDegree, listed + released, dependent);
        inDegree := inDegree[dependent := inDegree[dependent] - 1];
        if inDegree[dependent] == 0 {
          AppendAssoc(listed, released, dependent);
          AppendAssoc(queue0, released, dependent);
          queue, released := queue + [dependent], released + [dependent];
        }
        i := i + 1;
      }
      assert dependents[..i] == dependents;
      forall n | n in edges ensures inDegree[n] == Pending(edges[n], finished + {current}) {
        PendingFinish(edges[n], finished, current);
      }
    }
  }

  /** The counters while the dependents of one node are being counted off. */
  ghost predicate PartlyCounted(edges: Edges, inDegree: map<string, int>, finished: set<string>, counted: seq<string>) {
    && inDegree.Keys == edges.Keys
    && forall n :: n in edges ==> inDegree[n] == Pending(edges[n], finished) - Times(counted, n)
  }

  /** Before its i-th mention is counted off, a dependent still has a pending dependency;
      the step leaves the other counters right as well. */
  lemma CountOff(edges: Edges, inDegree: map<string, int>, finished: set<string>, current: string,
                 dependents: seq<string>, i: nat)
    requires current !in finished && i < |dependents| && dependents[i] in edges
    requires PartlyCounted(edges, inDegree, finished, dependents[..i])
    requires Times(edges[dependents[i]], current) == Times(dependents, dependents[i])
    ensures inDegree[dependents[i]] >= 1
    ensures PartlyCounted(edges, inDegree[dependents[i] := inDegree[dependents[i]] - 1], finished, dependents[..i + 1])
  {
    var dependent := dependents[i];
    PendingFinish(edges[dependent], finished, current);
    assert dependents[..i + 1] == dependents[..i] + [dependent];
    TimesPrefix(dependents, i + 1, dependent);
    forall n ensures Times(dependents[..i + 1], n) == Times(dependents[..i], n) + (if dependent == n then 1 else 0) {
      TimesAppend(dependents[..i], dependent, n);
    }
  }

  // ---------------------------------------------------------------------------
  // BuildGraph
  // ---------------------------------------------------------------------------

  /** Registers the plugins, links them, and accepts exactly when every dependency is
      registered and there is no cycle. The first missing dependency in declaration
      order is the one reported. */
  method BuildGraph(plugins: seq<Plugin>) returns (r: Result<Graph, GraphError>)
    ensures r.Success? <==> !(exists p, q :: Missing(plugins, p, q)) && !HasCycle(DeclaredEdges(plugins))
    ensures r.Success? ==> fresh(r.value) && r.value.Consistent()
    ensures r.Success? ==> r.value.edges == DeclaredEdges(plugins) && r.value.nodes.Keys == Names(plugins)
    ensures r.Success? ==> forall n, d :: Arc(r.value.edges, n, d) <==> Declares(plugins, n, d)
    ensures r.Failure? && r.error.MissingDependency? ==>
              exists p, q ::
                && Missing(plugins, p, q) && NoneMissingBefore(plugins, p, q)
                && r.error == MissingDependency(plugins[p].name, plugins[p].dependencies[q].fieldName,
                                                plugins[p].dependencies[q].pluginName)
    ensures r.Failure? && r.error.CircularDependency? ==>
              !(exists p, q :: Missing(plugins, p, q)) && ReportsCycle(DeclaredEdges(plugins), r.error.cycle)
  {
    var g := new Graph();
    Register(g, plugins);
    BlankIsMirror(g.nodes, g.edges, g.reverseEdges, plugins);
    var error := LinkAll(g, plugins);
    if error.Some? {
      return Failure(error.value);
    }
    var cycle, _ := g.FindCycle();
    if cycle.Some? {
      return Failure(CircularDependency(cycle.value));
    }
    ArcsAreDeclared(plugins);
    return Success(g);
  }

  /** Some registration of the one plugin depends on the other. */
  ghost predicate Declares(plugins: seq<Plugin>, n: string, d: string) {
    exists p, q ::
      && 0 <= p < |plugins| && 0 <= q < |plugins[p].dependencies|
      && plugins[p].name == n && plugins[p].dependencies[q].pluginName == d
  }

  lemma {:induction false} TargetsAre(deps: seq<Dependency>, d: string)
    ensures d in Targets(deps) <==> exists q :: 0 <= q < |deps| && deps[q].pluginName == d
  {
    if deps != [] {
      var last: nat := |deps| - 1;
      TargetsAre(deps[..last], d);
      assert forall q :: 0 <= q < last ==> deps[..last][q] == deps[q];
    }
  }

  lemma DeclaresMore(plugins: seq<Plugin>, last: Plugin, n: string, d: string)
    ensures Declares(plugins + [last], n, d) <==>
            Declares(plugins, n, d) ||
            (last.name == n && exists q :: 0 <= q < |last.dependencies| && last.dependencies[q].pluginName == d)
  {
    var all := plugins + [last];
    if Declares(plugins, n, d) {
      var p, q :| && 0 <= p < |plugins| && 0 <= q < |plugins[p].dependencies|
                  && plugins[p].name == n && plugins[p].dependencies[q].pluginName == d;
      assert all[p] == plugins[p];
    }
    assert all[|plugins|] == last;
    forall p, q | && 0 <= p < |all| && 0 <= q < |all[p].dependencies|
                  && all[p].name == n && all[p].dependencies[q].pluginName == d
      ensures Declares(plugins, n, d) ||
              (last.name == n && exists q :: 0 <= q < |last.dependencies| && last.dependencies[q].pluginName == d)
    {
      if p < |plugins| {
        assert plugins[p] == all[p];
      }
    }
  }

  lemma {:induction false} DeclaredByAll(plugins: seq<Plugin>, n: string, d: string)
    ensures d in DeclaredBy(plugins, n) <==> Declares(plugins, n, d)
  {
    if plugins != [] {
      var init, last := plugins[..|plugins| - 1], plugins[|plugins| - 1];
      DeclaredByAll(init, n, d);
      TargetsAre(last.dependencies, d);
      DeclaresMore(init, last, n, d);
      assert plugins == init + [last];
    }
  }

  /** The edges are the declared dependencies, from the dependent to what it depends on. */
  lemma ArcsAreDeclared(plugins: seq<Plugin>)
    ensures forall n, d :: Arc(DeclaredEdges(plugins), n, d) <==> Declares(plugins, n, d)
  {
    forall n, d ensures Arc(DeclaredEdges(plugins), n, d) <==> Declares(plugins, n, d) {
      DeclaredByAll(plugins, n, d);
    }
  }

  /** The three tables hold a node without edges for every name, with the plugin of that name
      that was registered last. */
  ghost predicate Blank(nodes: map<string, Plugin>, edges: Edges, reverseEdges: Edges, plugins: seq<Plugin>) {
    && nodes.Keys == edges.Keys == reverseEdges.Keys == Names(plugins)
    && (forall n :: n in nodes ==> nodes[n] == LastNamed(plugins, n))
    && (forall n :: n in edges ==> edges[n] == [])
    && (forall n :: n in reverseEdges ==> reverseEdges[n] == [])
  }

  /** Of several plugins with one name the last. */
  function LastNamed(plugins: seq<Plugin>, name: string): (p: Plugin)
    requires name in Names(plugins)
    ensures p in plugins && p.name == name
  {
    var last := plugins[|plugins| - 1];
    if last.name == name then last else LastNamed(plugins[..|plugins| - 1], name)
  }

  lemma NamesAppend(plugins: seq<Plugin>, plugin: Plugin)
    ensures Names(plugins + [plugin]) == Names(plugins) + {plugin.name}
  {
  }

  lemma LastNamedAppend(plugins: seq<Plugin>, plugin: Plugin, n: string)
    requires n in Names(plugins + [plugin])
    ensures n == plugin.name ==> LastNamed(plugins + [plugin], n) == plugin
    ensures n != plugin.name ==> n in Names(plugins) && LastNamed(plugins + [plugin], n) == LastNamed(plugins, n)
  {
    NamesAppend(plugins, plugin);
    assert (plugins + [plugin])[..|plugins|] == plugins;
  }

  lemma LastNodeAppend(nodes: map<string, Plugin>, plugins: seq<Plugin>, plugin: Plugin)
    requires nodes.Keys == Names(plugins) && forall n :: n in nodes ==> nodes[n] == LastNamed(plugins, n)
    ensures Names(plugins + [plugin]) == Names(plugins) + {plugin.name}
    ensures var all := nodes[plugin.name := plugin];
            forall n :: n in all ==> n in Names(plugins + [plugin]) && all[n] == LastNamed(plugins + [plugin], n)
  {
    NamesAppend(plugins, plugin);
    var all := nodes[plugin.name := plugin];
    forall n | n in all ensures n in Names(plugins + [plugin]) && all[n] == LastNamed(plugins + [plugin], n) {
      LastNamedAppend(plugins, plugin, n);
    }
  }

  lemma BlankAppend(nodes: map<string, Plugin>, edges: Edges, reverseEdges: Edges, plugins: seq<Plugin>,
                    plugin: Plugin)
    requires Blank(nodes, edges, reverseEdges, plugins)
    ensures Blank(nodes[plugin.name := plugin], edges[plugin.name := []], reverseEdges[plugin.name := []],
                  plugins + [plugin])
  {
    LastNodeAppend(nodes, plugins, plugin);
  }

  lemma BlankIsMirror(nodes: map<string, Plugin>, edges: Edges, reverseEdges: Edges, plugins: seq<Plugin>)
    requires Blank(nodes, edges, reverseEdges, plugins)
    ensures Mirror(edges, reverseEdges)
  {
    forall a, b | a in edges && b in edges ensures Times(edges[a], b) == Times(reverseEdges[b], a) {
      assert edges[a] == [] == reverseEdges[b];
    }
  }

  /** First pass: a node without edges for every name; a repeated name is overwritten. */
  method Register(g: Graph, plugins: seq<Plugin>)
    requires g.nodes == map[] && g.edges == map[] && g.reverseEdges == map[]
    modifies g
    ensures Blank(g.nodes, g.edges, g.reverseEdges, plugins)
  {
    var i := 0;
    while i < |plugins|
      invariant 0 <= i <= |plugins| && Blank(g.nodes, g.edges, g.reverseEdges, plugins[..i])
    {
      var plugin := plugins[i];
      assert plugins[..i + 1] == plugins[..i] + [plugin];
      BlankAppend(g.nodes, g.edges, g.reverseEdges, plugins[..i], plugin);
      g.AddNode(plugin);
      i := i + 1;
    }
    assert plugins[..i] == plugins;
  }

  lemma PresentAdvances(plugins: seq<Plugin>, p: nat, q: nat)
    requires p < |plugins| && q < |plugins[p].dependencies|
    requires NoneMissingBefore(plugins, p, q) && plugins[p].dependencies[q].pluginName in Names(plugins)
    ensures NoneMissingBefore(plugins, p, q + 1)
  {
  }

  lemma RowDone(plugins: seq<Plugin>, p: nat)
    requires p < |plugins| && NoneMissingBefore(plugins, p, |plugins[p].dependencies|)
    ensures NoneMissingBefore(plugins, p + 1, 0)
  {
  }

  /** The report for the dependency at a position. */
  function MissingAt(plugins: seq<Plugin>, p: nat, q: nat): GraphError
    requires p < |plugins| && q < |plugins[p].dependencies|
  {
    var dep := plugins[p].dependencies[q];
    MissingDependency(plugins[p].name, dep.fieldName, dep.pluginName)
  }

  /** Each list of the second table is that of the first, extended by what the
      dependencies of one plugin add. */
  ghost predicate Gained(before: Edges, after: Edges, owner: string, deps: seq<Dependency>) {
    && before.Keys == after.Keys
    && forall n {:trigger TargetsOf(owner, deps, n)} ::
         n in before ==> after[n] == before[n] + TargetsOf(owner, deps, n)
  }

  lemma GainedNone(before: Edges, owner: string)
    ensures Gained(before, before, owner, [])
  {
  }

  lemma TargetsMore(owner: string, deps: seq<Dependency>, q: nat, n: string)
    requires q < |deps|
    ensures TargetsOf(owner, deps[..q + 1], n) ==
            TargetsOf(owner, deps[..q], n) + if owner == n then [deps[q].pluginName] else []
  {
    assert deps[..q + 1][..q] == deps[..q];
  }

  lemma GainedOne(before: Edges, after: Edges, owner: string, deps: seq<Dependency>, q: nat)
    requires q < |deps| && owner in before && Gained(before, after, owner, deps[..q])
    ensures Gained(before, Append(after, owner, deps[q].pluginName), owner, deps[..q + 1])
  {
    var target := deps[q].pluginName;
    forall n | n in before
      ensures Append(after, owner, target)[n] == before[n] + TargetsOf(owner, deps[..q + 1], n)
    {
      TargetsMore(owner, deps, q, n);
      assert after[n] == before[n] + TargetsOf(owner, deps[..q], n);
      assert (before[n] + TargetsOf(owner, deps[..q], n)) + [target] ==
             before[n] + (TargetsOf(owner, deps[..q], n) + [target]);
    }
  }

  /** Each list is what the plugins declare for that name. */
  ghost predicate Declared(edges: Edges, plugins: seq<Plugin>) {
    forall n :: n in edges ==> edges[n] == DeclaredBy(plugins, n)
  }

  lemma DeclaredOne(before: Edges, after: Edges, plugins: seq<Plugin>, p: nat)
    requires p < |plugins| && Declared(before, plugins[..p])
    requires Gained(before, after, plugins[p].name, plugins[p].dependencies)
    ensures Declared(after, plugins[..p + 1])
  {
    assert plugins[..p + 1][..p] == plugins[..p];
  }

  lemma DeclaredIsAll(edges: Edges, plugins: seq<Plugin>)
    requires Declared(edges, plugins) && edges.Keys == Names(plugins)
    ensures edges == DeclaredEdges(plugins)
  {
  }

  lemma NoPluginNoEdges(edges: Edges)
    requires forall n :: n in edges ==> edges[n] == []
    ensures Declared(edges, [])
  {
  }

  lemma AllPresent(plugins: seq<Plugin>)
    requires NoneMissingBefore(plugins, |plugins|, 0)
    ensures !(exists p, q :: Missing(plugins, p, q))
  {
  }

  /** Second pass: the edges, until the first dependency that is not registered. */
  method LinkAll(g: Graph, plugins: seq<Plugin>) returns (error: Option<GraphError>)
    requires g.Consistent() && g.nodes.Keys == Names(plugins)
    requires forall n :: n in g.edges ==> g.edges[n] == []
    modifies g`edges, g`reverseEdges
    ensures error.None? ==> g.Consistent() && g.edges == DeclaredEdges(plugins)
    ensures error.None? ==> !(exists p, q :: Missing(plugins, p, q))
    ensures error.Some? ==> exists p, q :: Missing(plugins, p, q) && NoneMissingBefore(plugins, p, q)
                                           && error.value == MissingAt(plugins, p, q)
  {
    var p := 0;
    NoPluginNoEdges(g.edges);
    assert plugins[..p] == [];
    while p < |plugins|
      invariant 0 <= p <= |plugins|
      invariant g.Consistent() && NoneMissingBefore(plugins, p, 0)
      invariant Declared(g.edges, plugins[..p])
    {
      ghost var before := g.edges;
      var q;
      q, error := LinkOne(g, plugins, p);
      if error.Some? {
        return;
      }
      DeclaredOne(before, g.edges, plugins, p);
      p := p + 1;
    }
    assert plugins[..p] == plugins;
    DeclaredIsAll(g.edges, plugins);
    AllPresent(plugins);
    return None;
  }

  method LinkOne(g: Graph, plugins: seq<Plugin>, p: nat) returns (q: nat, error: Option<GraphError>)
    requires p < |plugins| && g.Consistent() && g.nodes.Keys == Names(plugins)
    requires NoneMissingBefore(plugins, p, 0)
    modifies g`edges, g`reverseEdges
    ensures error.None? ==> NoneMissingBefore(plugins, p + 1, 0) && g.Consistent()
    ensures error.None? ==> Gained(old(g.edges), g.edges, plugins[p].name, plugins[p].dependencies)
    ensures error.Some? ==> Missing(plugins, p, q) && NoneMissingBefore(plugins, p, q)
    ensures error.Some? ==> error.value == MissingAt(plugins, p, q)
  {
    ghost var before, deps := g.edges, plugins[p].dependencies;
    q := 0;
    GainedNone(g.edges, plugins[p].name);
    assert deps[..0] == [];
    while q < |plugins[p].dependencies|
      invariant q <= |deps| && g.Consistent()
      invariant Gained(before, g.edges, plugins[p].name, deps[..q]) && NoneMissingBefore(plugins, p, q)
    {
      error := LinkDependency(g, plugins, p, q, before);
      if error.Some? {
        return;
      }
      q := q + 1;
    }
    error := None;
    assert deps[..q] == deps;
    RowDone(plugins, p);
  }

  /** The edge of one dependency, or the report that it is missing. */
  method LinkDependency(g: Graph, plugins: seq<Plugin>, p: nat, q: nat, ghost before: Edges)
    returns (error: Option<GraphError>)
    requires p < |plugins| && q < |plugins[p].dependencies| && g.Consistent() && g.nodes.Keys == Names(plugins)
    requires NoneMissingBefore(plugins, p, q)
    requires Gained(before, g.edges, plugins[p].name, plugins[p].dependencies[..q])
    modifies g`edges, g`reverseEdges
    ensures error.Some? <==> Missing(plugins, p, q)
    ensures error.Some? ==> error.value == MissingAt(plugins, p, q) && g.edges == old(g.edges)
    ensures error.None? ==> NoneMissingBefore(plugins, p, q + 1) && g.Consistent()
    ensures error.None? ==> Gained(before, g.edges, plugins[p].name, plugins[p].dependencies[..q + 1])
    ensures error.None? ==> g.edges == Append(old(g.edges), plugins[p].name, plugins[p].dependencies[q].pluginName)
  {
    var plugin, dep := plugins[p], plugins[p].dependencies[q];
    if dep.pluginName !in g.nodes {
      return Some(MissingAt(plugins, p, q));
    }
    PresentAdvances(plugins, p, q);
    GainedOne(before, g.edges, plugin.name, plugin.dependencies, q);
    g.AddArc(plugin.name, dep.pluginName);
    return None;
  }

  /** What dependencies of a plugin add to the list of a name. */
  function TargetsOf(owner: string, deps: seq<Dependency>, name: string): seq<string> {
    if owner == name then Targets(deps) else []
  }
}
