/** The invariant of the breadth-first loop of `build_dependency_graph` and
    the facts that one pass of the loop keeps it. The queue holds
    `(coordinate, depth)` pairs. Beside the program's own state the proof
    keeps three ghost records: `depth`, the level at which each stored node
    was expanded; `parent`, the stored node whose record first put each
    other node in the queue; and `via`, the same for each queue entry. */
module Bfs {
  import opened Dependencies

  type Queue = seq<(string, int)>

  /** The coordinates `group:artifact` the records point to. */
  function Targets(deps: seq<Dep>): set<string>
  {
    if deps == [] then {} else Targets(deps[..|deps| - 1]) + {Key(deps[|deps| - 1])}
  }

  lemma {:induction false} TargetsSpec(deps: seq<Dep>, c: string)
    ensures c in Targets(deps) <==> exists j :: 0 <= j < |deps| && Key(deps[j]) == c
  {
    if deps != [] {
      var init := deps[..|deps| - 1];
      TargetsSpec(init, c);
      if c in Targets(init) {
        var j :| 0 <= j < |init| && Key(init[j]) == c;
        assert deps[j] == init[j];
      }
      if exists j :: 0 <= j < |deps| && Key(deps[j]) == c {
        var j :| 0 <= j < |deps| && Key(deps[j]) == c;
        if j < |init| {
          assert init[j] == deps[j];
        }
      }
    }
  }

  /** The coordinates waiting in the queue at depth `d` or less. */
  function Pending(q: Queue, d: int): set<string>
  {
    if q == [] then {} else (if q[0].1 <= d then {q[0].0} else {}) + Pending(q[1..], d)
  }

  lemma {:induction false} PendingAppend(a: Queue, b: Queue, d: int)
    ensures Pending(a + b, d) == Pending(a, d) + Pending(b, d)
  {
    if a == [] {
      assert a + b == b;
    } else {
      assert (a + b)[1..] == a[1..] + b;
      PendingAppend(a[1..], b, d);
    }
  }

  predicate Distinct(order: seq<string>)
  {
    forall i, j :: 0 <= i < j < |order| ==> order[i] != order[j]
  }

  /** The queue holds `split` entries at depth `front` followed by entries
      one level deeper; a non-empty queue starts at depth `front`. */
  ghost predicate Layered(q: Queue, front: int, split: int)
  {
    0 <= split <= |q| && (q != [] ==> split >= 1) &&
    forall i :: 0 <= i < |q| ==> q[i].1 == if i < split then front else front + 1
  }

  /** No node of the graph is deeper than the front of the queue. */
  ghost predicate Below(graph: Graph, depth: map<string, int>, front: int)
    requires graph.Keys <= depth.Keys
  {
    forall k :: k in graph ==> depth[k] <= front
  }

  /** Every node other than the root hangs below its parent: a stored node
      one level up with a record pointing to it. */
  ghost predicate Spanning(root: string, graph: Graph, depth: map<string, int>, parent: map<string, string>)
    requires graph.Keys <= depth.Keys
  {
    parent.Keys == graph.Keys - {root} &&
    forall k :: k in parent ==>
      parent[k] in graph && depth[parent[k]] + 1 == depth[k] && k in Targets(graph[parent[k]])
  }

  /** Every queue entry lies below the depth limit and is the root seed or
      a target of a stored node one level up. */
  ghost predicate QueueSound(root: string, maxDepth: int, q: Queue, via: seq<string>,
                             graph: Graph, depth: map<string, int>)
    requires graph.Keys <= depth.Keys
  {
    |via| == |q| &&
    forall i :: 0 <= i < |q| ==>
      0 <= q[i].1 < maxDepth &&
      (q[i] == (root, 0) ||
       (via[i] in graph && depth[via[i]] + 1 == q[i].1 && q[i].0 in Targets(graph[via[i]])))
  }

  /** Every target of a node that may be expanded further is stored no
      deeper than one level below it, or waits in the queue at such a depth. */
  ghost predicate Frontier(maxDepth: int, q: Queue, graph: Graph, depth: map<string, int>)
    requires graph.Keys <= depth.Keys
  {
    forall p, c :: p in graph && depth[p] + 1 < maxDepth && c in Targets(graph[p]) ==>
      (c in graph && depth[c] <= depth[p] + 1) || c in Pending(q, depth[p] + 1)
  }

  /** The insertion order starts at the root and never goes back up a
      level: nodes are stored in order of their depth. */
  ghost predicate LevelOrder(root: string, order: seq<string>, depth: map<string, int>)
  {
    (forall k :: k in order ==> k in depth) &&
    (order != [] ==> order[0] == root) &&
    forall i :: 0 < i < |order| ==> depth[order[i - 1]] <= depth[order[i]]
  }

  /** Level by level, any earlier node is no deeper than any later one. */
  lemma {:induction false} LevelOrderSorted(root: string, order: seq<string>, depth: map<string, int>)
    requires LevelOrder(root, order, depth)
    ensures forall i, j :: 0 <= i < j < |order| ==> depth[order[i]] <= depth[order[j]]
  {
    if order != [] {
      var init := order[..|order| - 1];
      assert forall i :: 0 <= i < |init| ==> init[i] == order[i];
      LevelOrderSorted(root, init, depth);
      forall i, j | 0 <= i < j < |order| ensures depth[order[i]] <= depth[order[j]] {
        if j < |order| - 1 {
          assert order[i] == init[i] && order[j] == init[j];
        } else if i < j - 1 {
          assert order[i] == init[i] && order[j - 1] == init[j - 1];
        }
      }
    }
  }

  /** The bookkeeping half of the loop invariant: the visited set, the
      depth map and the insertion order all describe the graph's keys, the
      root is the first node expanded, and the insertion order goes level by
      level. */
  ghost predicate Bookkept(root: string, maxDepth: int, q: Queue, graph: Graph,
                           order: seq<string>, visited: set<string>, depth: map<string, int>)
  {
    visited == graph.Keys && depth.Keys == graph.Keys &&
    Distinct(order) && (forall k :: k in order <==> k in graph) &&
    (graph == map[] ==> q == [(root, 0)]) &&
    (graph != map[] ==> root in graph && depth[root] == 0) &&
    (forall k :: k in graph ==> 0 <= depth[k] < maxDepth) &&
    LevelOrder(root, order, depth)
  }

  /** The breadth-first half of the loop invariant. */
  ghost predicate Searched(root: string, maxDepth: int, q: Queue, via: seq<string>, front: int, split: int,
                           graph: Graph, depth: map<string, int>, parent: map<string, string>)
    requires graph.Keys <= depth.Keys
  {
    Spanning(root, graph, depth, parent) &&
    QueueSound(root, maxDepth, q, via, graph, depth) &&
    Frontier(maxDepth, q, graph, depth) &&
    Below(graph, depth, front) &&
    Layered(q, front, split)
  }

  /** The invariant of the loop. */
  ghost predicate BfsInv(root: string, maxDepth: int, q: Queue, via: seq<string>, front: int, split: int,
                         graph: Graph, order: seq<string>, visited: set<string>,
                         depth: map<string, int>, parent: map<string, string>)
  {
    Bookkept(root, maxDepth, q, graph, order, visited, depth) &&
    Searched(root, maxDepth, q, via, front, split, graph, depth, parent)
  }

  /** What the inner `for dep in dependencies` loop leaves: entries one level
      deeper, each a target of the expanded node, covering every target not
      yet visited, and none at all at the last level. */
  ghost predicate Enqueued(maxDepth: int, d: int, deps: seq<Dep>, visited: set<string>, adds: Queue)
  {
    (forall i :: 0 <= i < |adds| ==> adds[i].1 == d + 1 && adds[i].0 in Targets(deps)) &&
    (d + 1 >= maxDepth ==> adds == []) &&
    (d + 1 < maxDepth ==> forall c :: c in Targets(deps) ==> c in visited || c in Pending(adds, d + 1))
  }

  /** The entries the inner loop appends: one per record, in order, whose
      key is not yet visited, at depth `d + 1`. */
  function Children(deps: seq<Dep>, visited: set<string>, d: int): Queue
  {
    if deps == [] then []
    else
      var last := Key(deps[|deps| - 1]);
      Children(deps[..|deps| - 1], visited, d) + (if last in visited then [] else [(last, d + 1)])
  }

  lemma {:induction false} ChildrenEnqueued(maxDepth: int, d: int, deps: seq<Dep>, visited: set<string>)
    requires d + 1 < maxDepth
    ensures Enqueued(maxDepth, d, deps, visited, Children(deps, visited, d))
  {
    if deps != [] {
      var init := deps[..|deps| - 1];
      var last := Key(deps[|deps| - 1]);
      ChildrenEnqueued(maxDepth, d, init, visited);
      var a := Children(init, visited, d);
      var tail: Queue := if last in visited then [] else [(last, d + 1)];
      var adds := a + tail;
      assert Children(deps, visited, d) == adds;
      assert Targets(deps) == Targets(init) + {last};
      forall i | 0 <= i < |adds| ensures adds[i].1 == d + 1 && adds[i].0 in Targets(deps) {
        if i < |a| {
          assert adds[i] == a[i];
        } else {
          assert adds[i] == (last, d + 1);
        }
      }
      PendingAppend(a, tail, d + 1);
      assert last in visited || last in Pending(tail, d + 1);
    }
  }

  /** The front and split after popping the front entry of a layered queue
      and appending entries one level deeper, `len` entries in all. */
  function Advance(front: int, split: int, len: int): (int, int)
  {
    if split > 1 then (front, split - 1) else (front + 1, len)
  }

  lemma AdvanceLayered(q: Queue, front: int, split: int, adds: Queue)
    requires q != [] && Layered(q, front, split)
    requires forall i :: 0 <= i < |adds| ==> adds[i].1 == front + 1
    ensures var (f', s') := Advance(front, split, |q| - 1 + |adds|);
            Layered(q[1..] + adds, f', s') && front <= f'
  {
    var q' := q[1..] + adds;
    var (f', s') := Advance(front, split, |q'|);
    forall i | 0 <= i < |q'| ensures q'[i].1 == if i < s' then f' else f' + 1 {
      if i < |q| - 1 {
        assert q'[i] == q[i + 1];
      } else {
        assert q'[i] == adds[i - (|q| - 1)];
      }
    }
  }

  // Popping the front entry.

  lemma PopQueueSound(root: string, m: int, q: Queue, via: seq<string>, graph: Graph, depth: map<string, int>)
    requires graph.Keys <= depth.Keys
    requires q != [] && QueueSound(root, m, q, via, graph, depth)
    ensures QueueSound(root, m, q[1..], via[1..], graph, depth)
  {
    forall i | 0 <= i < |q| - 1 ensures q[1..][i] == q[i + 1] && via[1..][i] == via[i + 1] { }
  }

  lemma PopFrontier(m: int, q: Queue, graph: Graph, depth: map<string, int>)
    requires graph.Keys <= depth.Keys
    requires q != [] && Frontier(m, q, graph, depth) && Below(graph, depth, q[0].1)
    requires q[0].0 in graph
    ensures Frontier(m, q[1..], graph, depth)
  {
  }

  /** Discarding an already visited front entry keeps the invariant. */
  lemma DiscardStep(root: string, m: int, q: Queue, via: seq<string>, front: int, split: int, graph: Graph,
                    order: seq<string>, visited: set<string>, depth: map<string, int>, parent: map<string, string>)
    requires BfsInv(root, m, q, via, front, split, graph, order, visited, depth, parent)
    requires q != [] && q[0].0 in visited
    ensures var (f', s') := Advance(front, split, |q| - 1);
            BfsInv(root, m, q[1..], via[1..], f', s', graph, order, visited, depth, parent)
  {
    AdvanceLayered(q, front, split, []);
    assert q[1..] + [] == q[1..];
    PopQueueSound(root, m, q, via, graph, depth);
    PopFrontier(m, q, graph, depth);
  }

  // Expanding the front entry.

  /** The parent record after expanding the front entry: the root seed has
      none, any other entry hangs below the node that enqueued it. */
  function NewParent(root: string, q: Queue, via: seq<string>, parent: map<string, string>): map<string, string>
    requires q != [] && |via| == |q|
  {
    if q[0] == (root, 0) then parent else parent[q[0].0 := via[0]]
  }

  lemma ExpandTree(root: string, m: int, q: Queue, via: seq<string>, graph: Graph,
                   depth: map<string, int>, parent: map<string, string>, deps: seq<Dep>)
    requires depth.Keys == graph.Keys && (graph != map[] ==> root in graph)
    requires Spanning(root, graph, depth, parent) && QueueSound(root, m, q, via, graph, depth)
    requires q != [] && q[0].0 !in graph
    ensures Spanning(root, graph[q[0].0 := deps], depth[q[0].0 := q[0].1], NewParent(root, q, via, parent))
  {
    var (c, d) := q[0];
    var g' := graph[c := deps];
    var dp' := depth[c := d];
    var parent' := NewParent(root, q, via, parent);
    if q[0] != (root, 0) {
      assert via[0] in graph;
      assert c != root;
    }
    forall k | k in parent'
      ensures parent'[k] in g' && dp'[parent'[k]] + 1 == dp'[k] && k in Targets(g'[parent'[k]])
    {
      if k != c {
        assert parent'[k] == parent[k] && parent[k] != c;
      }
    }
  }

  lemma ExpandQueueSound(root: string, m: int, q: Queue, via: seq<string>, graph: Graph,
                         depth: map<string, int>, deps: seq<Dep>, adds: Queue)
    requires graph.Keys <= depth.Keys
    requires QueueSound(root, m, q, via, graph, depth)
    requires q != [] && q[0].0 !in graph
    requires Enqueued(m, q[0].1, deps, graph.Keys + {q[0].0}, adds)
    ensures QueueSound(root, m, q[1..] + adds, via[1..] + seq(|adds|, _ => q[0].0),
                       graph[q[0].0 := deps], depth[q[0].0 := q[0].1])
  {
    var (c, d) := q[0];
    var g' := graph[c := deps];
    var dp' := depth[c := d];
    var q' := q[1..] + adds;
    var via' := via[1..] + seq(|adds|, _ => c);
    forall i | 0 <= i < |q'|
      ensures 0 <= q'[i].1 < m &&
              (q'[i] == (root, 0) ||
               (via'[i] in g' && dp'[via'[i]] + 1 == q'[i].1 && q'[i].0 in Targets(g'[via'[i]])))
    {
      if i < |q| - 1 {
        assert q'[i] == q[i + 1] && via'[i] == via[i + 1];
      } else {
        assert q'[i] == adds[i - (|q| - 1)] && via'[i] == c;
      }
    }
  }

  /** A target of an old node stays covered after the front entry is popped. */
  lemma OldTargetCovered(q: Queue, graph: Graph, depth: map<string, int>, deps: seq<Dep>, adds: Queue,
                         bound: int, k: string)
    requires graph.Keys <= depth.Keys && q != [] && q[0].0 !in graph
    requires (k in graph && depth[k] <= bound) || k in Pending(q, bound)
    ensures var g' := graph[q[0].0 := deps];
            var dp' := depth[q[0].0 := q[0].1];
            (k in g' && dp'[k] <= bound) || k in Pending(q[1..] + adds, bound)
  {
    PendingAppend(q[1..], adds, bound);
  }

  /** A target of a node expanded earlier stays covered. */
  lemma OldNodeCovered(m: int, q: Queue, graph: Graph, depth: map<string, int>, deps: seq<Dep>, adds: Queue,
                       p: string, k: string)
    requires graph.Keys <= depth.Keys && q != [] && q[0].0 !in graph
    requires Frontier(m, q, graph, depth)
    requires p in graph && depth[p] + 1 < m && k in Targets(graph[p])
    ensures var g' := graph[q[0].0 := deps];
            var dp' := depth[q[0].0 := q[0].1];
            (k in g' && dp'[k] <= depth[p] + 1) || k in Pending(q[1..] + adds, depth[p] + 1)
  {
    assert (k in graph && depth[k] <= depth[p] + 1) || k in Pending(q, depth[p] + 1);
    OldTargetCovered(q, graph, depth, deps, adds, depth[p] + 1, k);
  }

  /** A target of the expanded node is covered by the visited set or the
      entries just appended. */
  lemma NewTargetCovered(m: int, q: Queue, graph: Graph, depth: map<string, int>, deps: seq<Dep>, adds: Queue,
                         k: string)
    requires graph.Keys <= depth.Keys && q != [] && q[0].0 !in graph
    requires Below(graph, depth, q[0].1) && q[0].1 + 1 < m && k in Targets(deps)
    requires Enqueued(m, q[0].1, deps, graph.Keys + {q[0].0}, adds)
    ensures var g' := graph[q[0].0 := deps];
            var dp' := depth[q[0].0 := q[0].1];
            (k in g' && dp'[k] <= q[0].1 + 1) || k in Pending(q[1..] + adds, q[0].1 + 1)
  {
    PendingAppend(q[1..], adds, q[0].1 + 1);
  }

  lemma ExpandFrontier(m: int, q: Queue, graph: Graph, depth: map<string, int>, deps: seq<Dep>, adds: Queue)
    requires graph.Keys <= depth.Keys
    requires q != [] && q[0].0 !in graph
    requires Frontier(m, q, graph, depth) && Below(graph, depth, q[0].1)
    requires Enqueued(m, q[0].1, deps, graph.Keys + {q[0].0}, adds)
    ensures Frontier(m, q[1..] + adds, graph[q[0].0 := deps], depth[q[0].0 := q[0].1])
  {
    var rest, g', dp' := q[1..] + adds, graph[q[0].0 := deps], depth[q[0].0 := q[0].1];
    forall p, k | p in g' && dp'[p] + 1 < m && k in Targets(g'[p])
      ensures (k in g' && dp'[k] <= dp'[p] + 1) || k in Pending(rest, dp'[p] + 1)
    {
      TargetCovered(m, q, graph, depth, deps, adds, rest, g', dp', p, k);
    }
  }

  /** One target of one node, old or new, stays covered. */
  lemma TargetCovered(m: int, q: Queue, graph: Graph, depth: map<string, int>, deps: seq<Dep>, adds: Queue,
                      rest: Queue, g': Graph, dp': map<string, int>, p: string, k: string)
    requires graph.Keys <= depth.Keys
    requires q != [] && q[0].0 !in graph
    requires Frontier(m, q, graph, depth) && Below(graph, depth, q[0].1)
    requires Enqueued(m, q[0].1, deps, graph.Keys + {q[0].0}, adds)
    requires rest == q[1..] + adds && g' == graph[q[0].0 := deps] && dp' == depth[q[0].0 := q[0].1]
    requires p in g' && dp'[p] + 1 < m && k in Targets(g'[p])
    ensures (k in g' && dp'[k] <= dp'[p] + 1) || k in Pending(rest, dp'[p] + 1)
  {
    if p == q[0].0 {
      NewTargetCovered(m, q, graph, depth, deps, adds, k);
    } else {
      OldNodeCovered(m, q, graph, depth, deps, adds, p, k);
    }
  }

  /** Expanding an unvisited front entry keeps the invariant. */
  lemma ExpandStep(root: string, m: int, q: Queue, via: seq<string>, front: int, split: int, graph: Graph,
                   order: seq<string>, visited: set<string>, depth: map<string, int>,
                   parent: map<string, string>, deps: seq<Dep>, adds: Queue)
    requires BfsInv(root, m, q, via, front, split, graph, order, visited, depth, parent)
    requires q != [] && q[0].0 !in visited
    requires Enqueued(m, q[0].1, deps, visited + {q[0].0}, adds)
    ensures var (f', s') := Advance(front, split, |q| - 1 + |adds|);
            BfsInv(root, m, q[1..] + adds, via[1..] + seq(|adds|, _ => q[0].0), f', s',
                   graph[q[0].0 := deps], order + [q[0].0], visited + {q[0].0},
                   depth[q[0].0 := q[0].1], NewParent(root, q, via, parent))
  {
    ExpandBookkept(root, m, q, via, front, split, graph, order, visited, depth, parent, deps, adds);
    ExpandTree(root, m, q, via, graph, depth, parent, deps);
    ExpandQueueSound(root, m, q, via, graph, depth, deps, adds);
    ExpandFrontier(m, q, graph, depth, deps, adds);
    AdvanceLayered(q, front, split, adds);
  }

  /** Expanding an unvisited front entry keeps the bookkeeping half. */
  lemma ExpandBookkept(root: string, m: int, q: Queue, via: seq<string>, front: int, split: int, graph: Graph,
                       order: seq<string>, visited: set<string>, depth: map<string, int>,
                       parent: map<string, string>, deps: seq<Dep>, adds: Queue)
    requires BfsInv(root, m, q, via, front, split, graph, order, visited, depth, parent)
    requires q != [] && q[0].0 !in visited
    ensures Bookkept(root, m, q[1..] + adds, graph[q[0].0 := deps], order + [q[0].0], visited + {q[0].0},
                     depth[q[0].0 := q[0].1])
  {
    var c := q[0].0;
    assert c !in order;
    assert 0 <= q[0].1 < m;
    assert graph == map[] ==> c == root && q[0].1 == 0;
    ExpandLevelOrder(root, m, q, via, front, split, graph, order, visited, depth, parent);
  }

  /** Expanding the front entry stores it at the front level, which no
      stored node is deeper than, so the order stays level by level. */
  lemma ExpandLevelOrder(root: string, m: int, q: Queue, via: seq<string>, front: int, split: int, graph: Graph,
                         order: seq<string>, visited: set<string>, depth: map<string, int>,
                         parent: map<string, string>)
    requires BfsInv(root, m, q, via, front, split, graph, order, visited, depth, parent)
    requires q != [] && q[0].0 !in visited
    ensures LevelOrder(root, order + [q[0].0], depth[q[0].0 := q[0].1])
  {
    var (c, d) := q[0];
    var order' := order + [c];
    var depth' := depth[c := d];
    assert d == front;
    assert c !in order;
    if order == [] {
      assert graph == map[];
    }
    forall i | 0 < i < |order'| ensures depth'[order'[i - 1]] <= depth'[order'[i]] {
      assert order'[i - 1] == order[i - 1] && order[i - 1] in graph;
      if i < |order| {
        assert order'[i] == order[i];
      }
    }
  }

  /** The termination measure of the loop: levels left below the front,
      then the entries still at the front level. */
  function Rank(q: Queue, front: int, maxDepth: int): nat
  {
    if q == [] || maxDepth <= front then 0 else maxDepth - front
  }

  /** One pass lowers the measure, so the loop ends whatever the source
      answers. */
  lemma RankDrops(m: int, q: Queue, front: int, split: int, adds: Queue)
    requires q != [] && Layered(q, front, split) && front < m
    requires forall i :: 0 <= i < |q| ==> q[i].1 < m
    requires forall i :: 0 <= i < |adds| ==> adds[i].1 == front + 1
    requires front + 1 >= m ==> adds == []
    ensures var (f', s') := Advance(front, split, |q| - 1 + |adds|);
            Rank(q[1..] + adds, f', m) < Rank(q, front, m) ||
            (Rank(q[1..] + adds, f', m) == Rank(q, front, m) && s' < split)
  {
    var q' := q[1..] + adds;
    AdvanceLayered(q, front, split, adds);
    if split <= 1 && q' != [] {
      if |q| > 1 {
        assert q'[0] == q[1];
      } else {
        assert q'[0] == adds[0];
      }
    }
  }
}
