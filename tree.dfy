/** The cycle-safe ASCII tree of `_print_tree_node`, as the lines it prints.
    The set of coordinates on the path from the root is carried down and each
    child receives its own copy, so the cycle check is local to one path. */
module Tree {
  import opened Text
  import opened Dependencies

  const Last: string := "└── "
  const Middle: string := "├── "
  const CyclicMark: string := " (циклическая зависимость)"
  const LimitMark: string := " (глубина ограничена)"

  /** `"  " * level`. */
  function Indent(level: nat): string
  {
    Repeat("  ", level)
  }

  /** How many more levels may be recursed into below `level`. */
  function Room(maxDepth: int, level: nat): nat
  {
    if maxDepth > level then maxDepth - level else 0
  }

  /** The lines printed by `_print_tree_node(package, level, path)`: the
      node's own line, then, for a node neither on the path nor absent from
      the graph, the lines of its children, at least one per record. */
  function TreeLines(graph: Graph, maxDepth: int, package: string, level: nat, path: set<string>): (lines: seq<string>)
    ensures package !in path && package in graph ==> |lines| >= 1 + |graph[package]|
    ensures package in path || package !in graph ==> |lines| == 1
    decreases Room(maxDepth, level), 1, 0
  {
    if package in path then
      [Indent(level) + Last + package + CyclicMark]
    else
      [Indent(level) + (if level > 0 then Last else "") + package] +
      (if package in graph then ChildLines(graph, maxDepth, graph[package], 0, level, path + {package}) else [])
  }

  /** The lines printed for the children `deps[i..]` of a node at `level`:
      each child is recursed into with its own copy of `path` while
      `level + 1 < maxDepth`, and otherwise printed as a depth-limited leaf.
      Every child prints at least one line. */
  function ChildLines(graph: Graph, maxDepth: int, deps: seq<Dep>, i: nat, level: nat, path: set<string>): (lines: seq<string>)
    requires i <= |deps|
    ensures |lines| >= |deps| - i
    decreases Room(maxDepth, level), 0, |deps| - i
  {
    if i == |deps| then []
    else
      var key := Key(deps[i]);
      var here :=
        if level + 1 < maxDepth then TreeLines(graph, maxDepth, key, level + 1, path)
        else [Indent(level + 1) + (if i == |deps| - 1 then Last else Middle) + key + LimitMark];
      here + ChildLines(graph, maxDepth, deps, i + 1, level, path)
  }

  /** A coordinate already on the path is printed once, marked cyclic, and
      not expanded. */
  lemma CyclicIsLeaf(graph: Graph, maxDepth: int, package: string, level: nat, path: set<string>)
    requires package in path
    ensures TreeLines(graph, maxDepth, package, level, path) == [Indent(level) + Last + package + CyclicMark]
  {
  }

  /** A coordinate that is not a key of the graph is printed with no children. */
  lemma AbsentIsLeaf(graph: Graph, maxDepth: int, package: string, level: nat, path: set<string>)
    requires package !in graph && package !in path
    ensures TreeLines(graph, maxDepth, package, level, path) ==
            [Indent(level) + (if level > 0 then Last else "") + package]
  {
  }

  /** Beyond the depth limit the children are one depth-limited leaf each,
      `└── ` for the last sibling and `├── ` for the others. */
  lemma {:induction false} LimitedChildren(graph: Graph, maxDepth: int, deps: seq<Dep>, i: nat, level: nat, path: set<string>)
    requires i <= |deps| && level + 1 >= maxDepth
    ensures var lines := ChildLines(graph, maxDepth, deps, i, level, path);
            |lines| == |deps| - i &&
            forall j :: i <= j < |deps| ==>
              lines[j - i] == Indent(level + 1) + (if j == |deps| - 1 then Last else Middle) + Key(deps[j]) + LimitMark
    decreases |deps| - i
  {
    if i < |deps| {
      LimitedChildren(graph, maxDepth, deps, i + 1, level, path);
    }
  }

  /** A node at the last level prints its own line and one leaf per stored record. */
  lemma LastLevelNode(graph: Graph, maxDepth: int, package: string, level: nat, path: set<string>)
    requires package in graph && package !in path && level + 1 >= maxDepth
    ensures |TreeLines(graph, maxDepth, package, level, path)| == 1 + |graph[package]|
  {
    LimitedChildren(graph, maxDepth, graph[package], 0, level, path + {package});
  }

  lemma {:induction false} IndentPrefix(level: nat)
    ensures Indent(level + 1) == Indent(level) + "  "
  {
    if level > 0 {
      IndentPrefix(level - 1);
    }
  }

  /** Every line printed for a node at `level` starts with that level's indentation. */
  lemma {:induction false} TreeIndented(graph: Graph, maxDepth: int, package: string, level: nat, path: set<string>)
    ensures forall k :: 0 <= k < |TreeLines(graph, maxDepth, package, level, path)| ==>
              Indent(level) <= TreeLines(graph, maxDepth, package, level, path)[k]
    decreases Room(maxDepth, level), 1, 0
  {
    if package !in path && package in graph {
      ChildrenIndented(graph, maxDepth, graph[package], 0, level, path + {package});
      IndentPrefix(level);
    }
  }

  /** Every line printed for the children of a node at `level` starts with the
      indentation of `level + 1`. */
  lemma {:induction false} ChildrenIndented(graph: Graph, maxDepth: int, deps: seq<Dep>, i: nat, level: nat, path: set<string>)
    requires i <= |deps|
    ensures forall k :: 0 <= k < |ChildLines(graph, maxDepth, deps, i, level, path)| ==>
              Indent(level + 1) <= ChildLines(graph, maxDepth, deps, i, level, path)[k]
    decreases Room(maxDepth, level), 0, |deps| - i
  {
    if i < |deps| {
      if level + 1 < maxDepth {
        TreeIndented(graph, maxDepth, Key(deps[i]), level + 1, path);
      }
      ChildrenIndented(graph, maxDepth, deps, i + 1, level, path);
    }
  }
}
