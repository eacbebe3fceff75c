/** `DependencyGraphVisualizer` of `depgraph3.py`: the bounded breadth-first
    construction of the dependency graph, the direct-dependency listing, the
    ASCII tree and the D2 document. */
module DepGraph3 {
  import opened Wrappers
  import opened Dependencies
  import opened Maven
  import opened Fixtures
  import Listing
  import Tree
  import Diagram
  import opened Bfs

  /** The part of `self.config` the core reads. */
  datatype Config = Config(packageName: string, maxDepth: int, filterSubstring: Option<string>, mode: Mode)

  /** The dependency source: `None` is an exception of the download or the
      parse. The test fixture never fails and never answers with an empty list. */
  function FetchDependencies(mode: Mode, net: Network, groupId: string, artifactId: string): (r: Option<seq<Dep>>)
    ensures mode.Test? ==> r.Some? && |r.value| > 0
  {
    match mode
    case Test =>
      TestDependencies3NonEmpty(groupId, artifactId);
      Some(TestDependencies3(groupId, artifactId))
    case Remote(url) => FetchRemote(url, net, groupId, artifactId, "latest")
  }

  /** `get_package_dependencies(package, depth)`: `[]` at or beyond the depth
      limit, for a coordinate that does not split into two parts, and when the
      source fails; the source's list otherwise. A non-empty answer is only
      given below the limit for a well-formed coordinate, and in test mode
      always there. */
  function PackageDependencies(config: Config, net: Network, package: string, depth: int): (r: seq<Dep>)
    ensures r != [] ==> depth < config.maxDepth && ParseCoordinate(package).Some?
    ensures config.mode.Test? ==> (r != [] <==> depth < config.maxDepth && ParseCoordinate(package).Some?)
  {
    if depth >= config.maxDepth then []
    else
      match ParseCoordinate(package)
      case None => []
      case Some((g, a)) =>
        match FetchDependencies(config.mode, net, g, a)
        case None => []
        case Some(deps) => deps
  }

  /** Failures are soft: a malformed coordinate or a failing source gives an
      empty list; below the limit a working source's list is passed through,
      and the fixture of the test mode always answers with a non-empty list. */
  lemma PackageDependenciesCases(config: Config, net: Network, package: string, depth: int)
    ensures ParseCoordinate(package).None? ==> PackageDependencies(config, net, package, depth) == []
    ensures depth < config.maxDepth && ParseCoordinate(package).Some? ==>
      var (g, a) := ParseCoordinate(package).value;
      PackageDependencies(config, net, package, depth) ==
        (if FetchDependencies(config.mode, net, g, a).Some? then FetchDependencies(config.mode, net, g, a).value else [])
    ensures depth < config.maxDepth && ParseCoordinate(package).Some? && config.mode.Test? ==>
      |PackageDependencies(config, net, package, depth)| > 0
  {
    if depth < config.maxDepth && ParseCoordinate(package).Some? && config.mode.Test? {
      var (g, a) := ParseCoordinate(package).value;
      TestDependencies3NonEmpty(g, a);
    }
  }

  /** Below the depth limit the answer does not depend on the depth. */
  lemma PackageDependenciesDepthFree(config: Config, net: Network, package: string, depth: int)
    requires 0 <= depth < config.maxDepth
    ensures PackageDependencies(config, net, package, depth) == PackageDependencies(config, net, package, 0)
  {
  }

  /** `get_package_dependencies` as the search sees it: the list for a
      coordinate expanded at a depth. */
  type Source = (string, int) -> seq<Dep>

  function Answers(config: Config, net: Network): Source
  {
    (package, depth) => PackageDependencies(config, net, package, depth)
  }

  /** The stored lists are the filtered answers of the source. */
  ghost predicate Stored(filter: Option<string>, fetch: Source, graph: Graph, depth: map<string, int>)
    requires graph.Keys <= depth.Keys
  {
    forall k :: k in graph ==> graph[k] == Filtered(fetch(k, depth[k]), filter)
  }

  /** One pass of the loop that discards a visited entry keeps the invariant
      and lowers the measure; the primed arguments are the state after it. */
  lemma DiscardLoopStep(config: Config, fetch: Source, q: Queue, via: seq<string>, front: int, split: int,
                        graph: Graph, order: seq<string>, visited: set<string>, depth: map<string, int>,
                        parent: map<string, string>, q': Queue, via': seq<string>, front': int, split': int)
    requires BfsInv(config.packageName, config.maxDepth, q, via, front, split, graph, order, visited, depth, parent)
    requires Stored(config.filterSubstring, fetch, graph, depth)
    requires q != [] && q[0].0 in visited
    requires q' == q[1..] && via' == via[1..]
    requires front' == Advance(front, split, |q| - 1).0 && split' == Advance(front, split, |q| - 1).1
    ensures BfsInv(config.packageName, config.maxDepth, q', via', front', split', graph, order, visited, depth, parent)
    ensures Stored(config.filterSubstring, fetch, graph, depth)
    ensures Rank(q', front', config.maxDepth) < Rank(q, front, config.maxDepth) ||
            (Rank(q', front', config.maxDepth) == Rank(q, front, config.maxDepth) && split' < split)
  {
    DiscardStep(config.packageName, config.maxDepth, q, via, front, split, graph, order, visited, depth, parent);
    assert q[1..] == q[1..] + [];
    RankDrops(config.maxDepth, q, front, split, []);
  }

  /** The entries the expansion of the front entry appends. */
  function Appended(config: Config, q: Queue, visited: set<string>, deps: seq<Dep>): Queue
    requires q != []
  {
    if q[0].1 + 1 < config.maxDepth then Children(deps, visited + {q[0].0}, q[0].1) else []
  }

  /** One pass of the loop that expands an unvisited entry keeps the
      invariant and stores the filtered answer of the source. */
  lemma ExpandLoopStep(config: Config, fetch: Source, q: Queue, via: seq<string>, front: int, split: int,
                       graph: Graph, order: seq<string>, visited: set<string>, depth: map<string, int>,
                       parent: map<string, string>, deps: seq<Dep>)
    requires BfsInv(config.packageName, config.maxDepth, q, via, front, split, graph, order, visited, depth, parent)
    requires Stored(config.filterSubstring, fetch, graph, depth)
    requires q != [] && q[0].0 !in visited
    requires deps == Filtered(fetch(q[0].0, q[0].1), config.filterSubstring)
    ensures var adds := Appended(config, q, visited, deps);
            var g' := graph[q[0].0 := deps];
            var dp' := depth[q[0].0 := q[0].1];
            BfsInv(config.packageName, config.maxDepth, q[1..] + adds, via[1..] + seq(|adds|, _ => q[0].0),
                   Advance(front, split, |q| - 1 + |adds|).0, Advance(front, split, |q| - 1 + |adds|).1,
                   g', order + [q[0].0], visited + {q[0].0}, dp', NewParent(config.packageName, q, via, parent)) &&
            Stored(config.filterSubstring, fetch, g', dp')
  {
    var (c, d) := q[0];
    var m := config.maxDepth;
    var adds := Appended(config, q, visited, deps);
    if d + 1 < m {
      ChildrenEnqueued(m, d, deps, visited + {c});
    }
    ExpandStep(config.packageName, m, q, via, front, split, graph, order, visited, depth, parent, deps, adds);
  }

  /** The same pass lowers the measure. */
  lemma ExpandLoopRank(config: Config, q: Queue, via: seq<string>, front: int, split: int, graph: Graph,
                       order: seq<string>, visited: set<string>, depth: map<string, int>,
                       parent: map<string, string>, deps: seq<Dep>)
    requires BfsInv(config.packageName, config.maxDepth, q, via, front, split, graph, order, visited, depth, parent)
    requires q != []
    ensures var adds := Appended(config, q, visited, deps);
            var q' := q[1..] + adds;
            var f' := Advance(front, split, |q| - 1 + |adds|).0;
            var s' := Advance(front, split, |q| - 1 + |adds|).1;
            Rank(q', f', config.maxDepth) < Rank(q, front, config.maxDepth) ||
            (Rank(q', f', config.maxDepth) == Rank(q, front, config.maxDepth) && s' < split)
  {
    var adds := Appended(config, q, visited, deps);
    if q[0].1 + 1 < config.maxDepth {
      ChildrenEnqueued(config.maxDepth, q[0].1, deps, visited + {q[0].0});
    }
    RankDrops(config.maxDepth, q, front, split, adds);
  }

  /** Both facts about an expanding pass, stated over the state after it (the
      primed arguments), as the loop of `Explore` needs them. */
  lemma ExpandLoopPass(config: Config, fetch: Source, q: Queue, via: seq<string>, front: int, split: int,
                       graph: Graph, order: seq<string>, visited: set<string>, depth: map<string, int>,
                       parent: map<string, string>, deps: seq<Dep>,
                       q': Queue, via': seq<string>, front': int, split': int, graph': Graph, order': seq<string>,
                       visited': set<string>, depth': map<string, int>, parent': map<string, string>)
    requires BfsInv(config.packageName, config.maxDepth, q, via, front, split, graph, order, visited, depth, parent)
    requires Stored(config.filterSubstring, fetch, graph, depth)
    requires q != [] && q[0].0 !in visited
    requires deps == Filtered(fetch(q[0].0, q[0].1), config.filterSubstring)
    requires q' == q[1..] + Appended(config, q, visited, deps)
    requires via' == via[1..] + seq(|Appended(config, q, visited, deps)|, _ => q[0].0)
    requires front' == Advance(front, split, |q'|).0 && split' == Advance(front, split, |q'|).1
    requires graph' == graph[q[0].0 := deps] && order' == order + [q[0].0] && visited' == visited + {q[0].0}
    requires depth' == depth[q[0].0 := q[0].1] && parent' == NewParent(config.packageName, q, via, parent)
    ensures BfsInv(config.packageName, config.maxDepth, q', via', front', split', graph', order', visited', depth', parent')
    ensures Stored(config.filterSubstring, fetch, graph', depth')
    ensures Rank(q', front', config.maxDepth) < Rank(q, front, config.maxDepth) ||
            (Rank(q', front', config.maxDepth) == Rank(q, front, config.maxDepth) && split' < split)
  {
    var adds := Appended(config, q, visited, deps);
    assert |q'| == |q| - 1 + |adds|;
    ExpandLoopStep(config, fetch, q, via, front, split, graph, order, visited, depth, parent, deps);
    ExpandLoopRank(config, q, via, front, split, graph, order, visited, depth, parent, deps);
  }

  /** Once the queue is empty the invariant of the loop gives the result. */
  lemma SearchDone(config: Config, fetch: Source, via: seq<string>, front: int, split: int, graph: Graph,
                   order: seq<string>, visited: set<string>, depth: map<string, int>, parent: map<string, string>)
    requires BfsInv(config.packageName, config.maxDepth, [], via, front, split, graph, order, visited, depth, parent)
    requires Stored(config.filterSubstring, fetch, graph, depth)
    ensures Explored(config, fetch, graph, order, visited, depth, parent)
  {
    LevelOrderSorted(config.packageName, order, depth);
    forall p, j | p in graph && depth[p] + 1 < config.maxDepth && 0 <= j < |graph[p]|
      ensures Key(graph[p][j]) in graph && depth[Key(graph[p][j])] <= depth[p] + 1
    {
      TargetsSpec(graph[p], Key(graph[p][j]));
    }
  }

  /** The inner loop of `build_dependency_graph`: appends `(key, d + 1)` for
      each record, in order, whose key is not yet visited. */
  method EnqueueChildren(queue: Queue, deps: seq<Dep>, visited: set<string>, d: int) returns (q: Queue)
    ensures q == queue + Children(deps, visited, d)
  {
    q := queue;
    for j := 0 to |deps|
      invariant q == queue + Children(deps[..j], visited, d)
    {
      assert deps[..j + 1][..j] == deps[..j];
      var depKey := Key(deps[j]);
      if depKey !in visited {
        q := q + [(depKey, d + 1)];
      }
    }
    assert deps[..|deps|] == deps;
  }

  /** What the loop of `build_dependency_graph` leaves, breadth-first from
      the configured package: the visited set, the depth map and the insertion
      order describe the stored keys; the insertion order starts at the root
      and lists the nodes level by level; the root is stored at depth 0 and every
      node below the depth limit; each stored list is the filtered answer of
      the source at the node's depth; every other stored node hangs below a
      parent, a stored node one level up with a record pointing to it, so it
      was reached from the root one level at a time; and every record of a
      node that could still be expanded points to a stored node no more than
      one level deeper. */
  ghost predicate Explored(config: Config, fetch: Source, graph: Graph, order: seq<string>,
                           visited: set<string>, depth: map<string, int>, parent: map<string, string>)
  {
    visited == graph.Keys && depth.Keys == graph.Keys &&
    Distinct(order) && (forall k :: k in order <==> k in graph) &&
    order != [] && order[0] == config.packageName &&
    (forall i, j :: 0 <= i < j < |order| ==> depth[order[i]] <= depth[order[j]]) &&
    config.packageName in graph && depth[config.packageName] == 0 &&
    (forall k :: k in graph ==> 0 <= depth[k] < config.maxDepth) &&
    Stored(config.filterSubstring, fetch, graph, depth) &&
    Spanning(config.packageName, graph, depth, parent) &&
    (forall p, j :: p in graph && depth[p] + 1 < config.maxDepth && 0 <= j < |graph[p]| ==>
       Key(graph[p][j]) in graph && depth[Key(graph[p][j])] <= depth[p] + 1)
  }

  /** The same with `get_package_dependencies` as the source, whose answer
      below the limit does not depend on the depth. */
  ghost predicate Built(config: Config, net: Network, graph: Graph, order: seq<string>,
                        visited: set<string>, depth: map<string, int>, parent: map<string, string>)
  {
    Explored(config, Answers(config, net), graph, order, visited, depth, parent) &&
    forall k :: k in graph ==>
      graph[k] == Filtered(PackageDependencies(config, net, k, 0), config.filterSubstring)
  }

  lemma ExploredBuilt(config: Config, net: Network, graph: Graph, order: seq<string>,
                      visited: set<string>, depth: map<string, int>, parent: map<string, string>)
    requires Explored(config, Answers(config, net), graph, order, visited, depth, parent)
    ensures Built(config, net, graph, order, visited, depth, parent)
  {
    forall k | k in graph
      ensures graph[k] == Filtered(PackageDependencies(config, net, k, 0), config.filterSubstring)
    {
      PackageDependenciesDepthFree(config, net, k, depth[k]);
    }
  }

  /** One pass of the loop of `build_dependency_graph` on an unvisited front
      entry: its list is fetched and filtered, its unvisited children are
      enqueued while `depth + 1 < max_depth`, and the list is stored. */
  method ExpandFront(config: Config, fetch: Source, q: Queue, graph: Graph, order: seq<string>, visited: set<string>,
                     ghost via: seq<string>, ghost front: int, ghost split: int,
                     ghost depth: map<string, int>, ghost parent: map<string, string>)
    returns (q': Queue, graph': Graph, order': seq<string>, visited': set<string>,
             ghost via': seq<string>, ghost front': int, ghost split': int,
             ghost depth': map<string, int>, ghost parent': map<string, string>)
    requires BfsInv(config.packageName, config.maxDepth, q, via, front, split, graph, order, visited, depth, parent)
    requires Stored(config.filterSubstring, fetch, graph, depth)
    requires q != [] && q[0].0 !in visited
    ensures BfsInv(config.packageName, config.maxDepth, q', via', front', split', graph', order', visited', depth', parent')
    ensures Stored(config.filterSubstring, fetch, graph', depth')
    ensures Rank(q', front', config.maxDepth) < Rank(q, front, config.maxDepth) ||
            (Rank(q', front', config.maxDepth) == Rank(q, front, config.maxDepth) && split' < split)
  {
    var (current, d) := q[0];
    var dependencies := fetch(current, d);
    dependencies := ApplyFilter(dependencies, config.filterSubstring);
    q' := q[1..];
    if d + 1 < config.maxDepth {
      q' := EnqueueChildren(q', dependencies, visited + {current}, d);
    }
    ghost var adds := Appended(config, q, visited, dependencies);
    visited' := visited + {current};
    graph' := graph[current := dependencies];
    order' := order + [current];
    depth' := depth[current := d];
    parent' := NewParent(config.packageName, q, via, parent);
    via' := via[1..] + seq(|adds|, _ => current);
    front', split' := Advance(front, split, |q'|).0, Advance(front, split, |q'|).1;
    ExpandLoopPass(config, fetch, q, via, front, split, graph, order, visited, depth, parent, dependencies,
                   q', via', front', split', graph', order', visited', depth', parent');
  }

  /** The loop of `build_dependency_graph`. Each coordinate is expanded at
      most once, children are enqueued only while `depth + 1 < max_depth`, and
      the loop ends whatever the source answers. */
  method Explore(config: Config, fetch: Source)
    returns (graph: Graph, order: seq<string>, visited: set<string>,
             ghost depth: map<string, int>, ghost parent: map<string, string>)
    requires config.maxDepth >= 1
    ensures Explored(config, fetch, graph, order, visited, depth, parent)
  {
    var queue: Queue := [(config.packageName, 0)];
    graph, order, visited, depth, parent := map[], [], {}, map[], map[];
    ghost var via: seq<string> := [config.packageName];
    ghost var front, split := 0, 1;

    while queue != []
      invariant BfsInv(config.packageName, config.maxDepth, queue, via, front, split, graph, order, visited, depth, parent)
      invariant Stored(config.filterSubstring, fetch, graph, depth)
      decreases Rank(queue, front, config.maxDepth), split
    {
      var current := queue[0].0;
      if current in visited {
        ghost var q0, via0, front0, split0 := queue, via, front, split;
        queue := queue[1..];
        via := via0[1..];
        front, split := Advance(front0, split0, |queue|).0, Advance(front0, split0, |queue|).1;
        DiscardLoopStep(config, fetch, q0, via0, front0, split0, graph, order, visited, depth, parent,
                        queue, via, front, split);
      } else {
        queue, graph, order, visited, via, front, split, depth, parent :=
          ExpandFront(config, fetch, queue, graph, order, visited, via, front, split, depth, parent);
      }
    }
    SearchDone(config, fetch, via, front, split, graph, order, visited, depth, parent);
  }

  const EmptyTree: string := "Граф зависимостей пуст"

  /** The inner loop of `generate_d2_diagram`: one edge statement per
      record of `package`, in stored order, appended to `text`. */
  method AppendEdges(text: string, package: string, dependencies: seq<Dep>) returns (result: string)
    ensures result == text + Diagram.Unlines(Diagram.EdgesOf(package, dependencies))
  {
    result := text;
    for j := 0 to |dependencies|
      invariant result == text + Diagram.Unlines(Diagram.EdgesOf(package, dependencies[..j]))
    {
      Diagram.EdgesOfStep(text, package, dependencies, j);
      result := result + Diagram.EdgeLine(package, dependencies[j]) + "\n";
    }
    assert dependencies[..|dependencies|] == dependencies;
  }

  /** The two loops of `generate_d2_diagram` over the stored order and graph:
      the header, a quoted line per node, then the edge lines of each node. */
  method RenderD2(order: seq<string>, graph: Graph) returns (text: string)
    requires forall k :: k in order ==> k in graph
    ensures text == Diagram.D2Text(order, graph)
  {
    text := Diagram.Header;
    ghost var header := text;
    for i := 0 to |order|
      invariant text == header + Diagram.Unlines(Diagram.NodeDecls(order[..i]))
    {
      Diagram.NodeDeclsStep(header, order, i);
      text := text + Diagram.Quote(order[i]) + "\n";
    }
    ghost var nodes := text;
    for i := 0 to |order|
      invariant text == nodes + Diagram.Unlines(Diagram.EdgeDecls(order[..i], graph))
    {
      text := AppendEdges(text, order[i], graph[order[i]]);
      Diagram.EdgeDeclsStep(nodes, order, graph, i);
    }
    Diagram.D2TextJoin(order, graph);
  }

  /** The lines `print_ascii_tree` prints before the tree; the rule is `"=" * 50`. */
  function TreeHeader(root: string): seq<string>
  {
    ["", "Дерево зависимостей для: " + root, "=================================================="]
  }

  class Visualizer {
    var config: Config
    var dependencyGraph: Graph
    /** The insertion order of `dependencyGraph`'s keys (a Python dict keeps it). */
    var graphOrder: seq<string>
    var visitedPackages: set<string>
    /** The level at which each node was expanded, and the node whose record
        first reached it. */
    ghost var depthOf: map<string, int>
    ghost var parentOf: map<string, string>

    constructor (config: Config)
      ensures this.config == config
      ensures dependencyGraph == map[] && graphOrder == [] && visitedPackages == {} && Valid()
    {
      this.config := config;
      dependencyGraph := map[];
      graphOrder := [];
      visitedPackages := {};
      depthOf := map[];
      parentOf := map[];
    }

    /** The insertion order lists each key of `dependency_graph` once, and
        the visited set is its key set. */
    ghost predicate Valid()
      reads this
    {
      visitedPackages == dependencyGraph.Keys &&
      Distinct(graphOrder) && (forall k :: k in graphOrder <==> k in dependencyGraph)
    }

    /** `build_dependency_graph`: runs the search and stores its result. */
    method BuildDependencyGraph(net: Network)
      requires config.maxDepth >= 1
      modifies this
      ensures config == old(config) && Valid()
      ensures Built(config, net, dependencyGraph, graphOrder, visitedPackages, depthOf, parentOf)
    {
      dependencyGraph, graphOrder, visitedPackages, depthOf, parentOf := Explore(config, Answers(config, net));
      ExploredBuilt(config, net, dependencyGraph, graphOrder, visitedPackages, depthOf, parentOf);
    }

    /** `print_direct_dependencies`: the "not found" message when the root
        has no stored list or an empty one, the numbered listing of its
        stored list otherwise. */
    function DirectDependencies(): (lines: seq<string>)
      reads this
      ensures config.packageName !in dependencyGraph || dependencyGraph[config.packageName] == [] <==>
              lines == [Listing.NotFound]
      ensures config.packageName in dependencyGraph ==>
              |lines| == if dependencyGraph[config.packageName] == [] then 1 else |dependencyGraph[config.packageName]| + 4
    {
      if config.packageName in dependencyGraph then
        Listing.ListingShape(dependencyGraph[config.packageName]);
        Listing.DependencyListing(dependencyGraph[config.packageName])
      else [Listing.NotFound]
    }

    /** `print_ascii_tree`: a message for an empty graph, otherwise a header
        naming the root and the tree of `_print_tree_node` from the root at
        level 0 with an empty path. */
    function AsciiTree(): (lines: seq<string>)
      reads this
      ensures dependencyGraph == map[] <==> lines == [EmptyTree]
      ensures dependencyGraph != map[] ==>
              |lines| >= 4 && lines[..3] == TreeHeader(config.packageName) && lines[3] == config.packageName
    {
      if dependencyGraph == map[] then [EmptyTree]
      else TreeHeader(config.packageName) + Tree.TreeLines(dependencyGraph, config.maxDepth, config.packageName, 0, {})
    }

    /** `generate_d2_diagram`: the header, a quoted line per node in
        insertion order, then an edge line per stored record. */
    method GenerateD2() returns (text: string)
      requires Valid()
      ensures text == Diagram.D2Text(graphOrder, dependencyGraph)
    {
      text := RenderD2(graphOrder, dependencyGraph);
    }

    /** `visualize_graph`: nothing is written for an empty graph; otherwise
        the D2 text goes to the file named after the root. */
    method VisualizeGraph() returns (written: Option<(string, string)>)
      requires Valid()
      ensures dependencyGraph == map[] <==> written == None
      ensures written.Some? ==>
              written.value == (Diagram.D2FileName(config.packageName), Diagram.D2Text(graphOrder, dependencyGraph))
    {
      if dependencyGraph == map[] {
        return None;
      }
      var content := GenerateD2();
      return Some((Diagram.D2FileName(config.packageName), content));
    }
  }
}
