/** The D2 text of `generate_d2_diagram`: a fixed header, one quoted node line
    per graph key in insertion order, then one `"parent" -> "child"` line per
    stored record; and the name of the file it is written to. */
module Diagram {
  import opened Text
  import opened Dependencies

  /** The lines of the fixed header: title, blank line, direction, the
      `classes` block, blank line. */
  const HeaderLines: seq<string> :=
    ["# Граф зависимостей Maven", "", "direction: right",
     "classes: {", "  style: {", "    stroke: green", "    fill: lightgreen", "  }", "}", ""]

  const Header: string := Unlines(HeaderLines)

  function Quote(s: string): string
  {
    "\"" + s + "\""
  }

  /** One `"parent" -> "child"` statement. */
  function EdgeLine(parent: string, d: Dep): string
  {
    Quote(parent) + " -> " + Quote(Key(d))
  }

  /** The node declarations, one per key. */
  function NodeDecls(keys: seq<string>): (lines: seq<string>)
  {
    seq(|keys|, i requires 0 <= i < |keys| => Quote(keys[i]))
  }

  /** The edge statements of one node, in stored order. */
  function EdgesOf(parent: string, deps: seq<Dep>): seq<string>
  {
    seq(|deps|, j requires 0 <= j < |deps| => EdgeLine(parent, deps[j]))
  }

  /** The edge statements of all nodes, node by node in key order. */
  function EdgeDecls(keys: seq<string>, graph: Graph): seq<string>
    requires forall k :: k in keys ==> k in graph
  {
    if keys == [] then []
    else EdgeDecls(keys[..|keys| - 1], graph) + EdgesOf(keys[|keys| - 1], graph[keys[|keys| - 1]])
  }

  /** Lines joined, each followed by a newline. */
  function Unlines(lines: seq<string>): string
  {
    if lines == [] then [] else lines[0] + "\n" + Unlines(lines[1..])
  }

  /** The whole D2 document for a graph whose keys, in insertion order, are `keys`. */
  function D2Text(keys: seq<string>, graph: Graph): string
    requires forall k :: k in keys ==> k in graph
  {
    Header + Unlines(NodeDecls(keys) + EdgeDecls(keys, graph))
  }

  /** The number of stored records over the keys. */
  function TotalEdges(keys: seq<string>, graph: Graph): nat
    requires forall k :: k in keys ==> k in graph
  {
    if keys == [] then 0 else TotalEdges(keys[..|keys| - 1], graph) + |graph[keys[|keys| - 1]]|
  }

  lemma {:induction false} UnlinesAppend(a: seq<string>, b: seq<string>)
    ensures Unlines(a + b) == Unlines(a) + Unlines(b)
  {
    if a != [] {
      UnlinesAppend(a[1..], b);
      assert (a + b)[1..] == a[1..] + b;
    } else {
      assert a + b == b;
    }
  }

  /** One more node statement extends the node text by one line. */
  lemma NodeDeclsStep(pre: string, keys: seq<string>, i: nat)
    requires i < |keys|
    ensures pre + Unlines(NodeDecls(keys[..i])) + Quote(keys[i]) + "\n" == pre + Unlines(NodeDecls(keys[..i + 1]))
  {
    assert NodeDecls(keys[..i + 1]) == NodeDecls(keys[..i]) + [Quote(keys[i])];
    UnlinesAppend(NodeDecls(keys[..i]), [Quote(keys[i])]);
  }

  /** One more record extends a node's edge text by one line. */
  lemma EdgesOfStep(pre: string, parent: string, deps: seq<Dep>, j: nat)
    requires j < |deps|
    ensures pre + Unlines(EdgesOf(parent, deps[..j])) + EdgeLine(parent, deps[j]) + "\n" ==
            pre + Unlines(EdgesOf(parent, deps[..j + 1]))
  {
    assert EdgesOf(parent, deps[..j + 1]) == EdgesOf(parent, deps[..j]) + [EdgeLine(parent, deps[j])];
    UnlinesAppend(EdgesOf(parent, deps[..j]), [EdgeLine(parent, deps[j])]);
  }

  /** One more node extends the edge text by that node's edges. */
  lemma EdgeDeclsStep(pre: string, keys: seq<string>, graph: Graph, i: nat)
    requires forall k :: k in keys ==> k in graph
    requires i < |keys|
    ensures pre + Unlines(EdgeDecls(keys[..i], graph)) + Unlines(EdgesOf(keys[i], graph[keys[i]])) ==
            pre + Unlines(EdgeDecls(keys[..i + 1], graph))
  {
    var init, last := keys[..i], keys[i];
    assert keys[..i + 1][..i] == init;
    assert EdgeDecls(keys[..i + 1], graph) == EdgeDecls(init, graph) + EdgesOf(last, graph[last]);
    UnlinesAppend(EdgeDecls(init, graph), EdgesOf(last, graph[last]));
  }

  /** The whole edge text follows the whole node text. */
  lemma D2TextJoin(keys: seq<string>, graph: Graph)
    requires forall k :: k in keys ==> k in graph
    ensures Header + Unlines(NodeDecls(keys[..|keys|])) + Unlines(EdgeDecls(keys[..|keys|], graph)) == D2Text(keys, graph)
  {
    assert keys[..|keys|] == keys;
    JoinAfter(Header, NodeDecls(keys), EdgeDecls(keys, graph));
  }

  /** Two runs of lines joined after a prefix. */
  lemma JoinAfter(pre: string, a: seq<string>, b: seq<string>)
    ensures pre + Unlines(a) + Unlines(b) == pre + Unlines(a + b)
  {
    UnlinesAppend(a, b);
  }

  /** Splitting the joined text at newlines gives the lines back, followed by
      the empty remainder after the final newline. */
  lemma {:induction false} UnlinesSplit(lines: seq<string>)
    requires forall i :: 0 <= i < |lines| ==> '\n' !in lines[i]
    ensures Split(Unlines(lines), '\n') == lines + [""]
  {
    if lines != [] {
      UnlinesSplit(lines[1..]);
      SplitAt(lines[0], '\n', Unlines(lines[1..]));
      assert lines[0] + "\n" + Unlines(lines[1..]) == lines[0] + ['\n'] + Unlines(lines[1..]);
      assert lines == [lines[0]] + lines[1..];
    }
  }

  /** No line holds a newline of its own. */
  predicate NewlineFree(lines: seq<string>)
  {
    forall i :: 0 <= i < |lines| ==> '\n' !in lines[i]
  }

  /** The generated text, split at newlines, is the header's lines, the node
      lines and the edge lines, followed by the empty remainder after the
      final newline, provided no node or edge line holds a newline itself. */
  lemma D2TextLines(keys: seq<string>, graph: Graph)
    requires forall k :: k in keys ==> k in graph
    requires NewlineFree(NodeDecls(keys) + EdgeDecls(keys, graph))
    ensures Split(D2Text(keys, graph), '\n') == HeaderLines + NodeDecls(keys) + EdgeDecls(keys, graph) + [""]
  {
    HeaderFree();
    UnlinesSplitAfter(HeaderLines, NodeDecls(keys), EdgeDecls(keys, graph));
  }

  /** `UnlinesSplitAppend` with the second run given in two parts. */
  lemma UnlinesSplitAfter(h: seq<string>, n: seq<string>, e: seq<string>)
    requires NewlineFree(h) && NewlineFree(n + e)
    ensures Split(Unlines(h) + Unlines(n + e), '\n') == h + n + e + [""]
  {
    UnlinesSplitAppend(h, n + e);
    assert h + (n + e) == h + n + e;
  }

  /** Two runs of newline-free lines, joined one after the other, split back
      into the lines of both. */
  lemma UnlinesSplitAppend(a: seq<string>, b: seq<string>)
    requires NewlineFree(a) && NewlineFree(b)
    ensures Split(Unlines(a) + Unlines(b), '\n') == a + b + [""]
  {
    UnlinesAppend(a, b);
    var ab := a + b;
    assert forall i :: 0 <= i < |ab| ==> '\n' !in ab[i] by {
      forall i | 0 <= i < |ab| ensures '\n' !in ab[i] {
        if i < |a| { assert ab[i] == a[i]; } else { assert ab[i] == b[i - |a|]; }
      }
    }
    UnlinesSplit(ab);
  }

  /** No header line holds a newline. */
  lemma HeaderFree()
    ensures NewlineFree(HeaderLines)
  {
  }

  /** There is one edge statement per stored record. */
  lemma {:induction false} EdgeCount(keys: seq<string>, graph: Graph)
    requires forall k :: k in keys ==> k in graph
    ensures |EdgeDecls(keys, graph)| == TotalEdges(keys, graph)
  {
    if keys != [] {
      EdgeCount(keys[..|keys| - 1], graph);
    }
  }

  /** Every edge statement is a stored record of one of the keys, and every
      stored record of every key has its edge statement: no deduplication. */
  lemma {:induction false} EdgesExact(keys: seq<string>, graph: Graph)
    requires forall k :: k in keys ==> k in graph
    ensures forall line :: line in EdgeDecls(keys, graph) ==>
              exists p, j :: p in keys && 0 <= j < |graph[p]| && line == EdgeLine(p, graph[p][j])
    ensures forall p, j :: p in keys && 0 <= j < |graph[p]| ==> EdgeLine(p, graph[p][j]) in EdgeDecls(keys, graph)
  {
    if keys != [] {
      var init := keys[..|keys| - 1];
      var last := keys[|keys| - 1];
      EdgesExact(init, graph);
      assert forall p :: p in keys <==> p in init || p == last;
      var es := EdgesOf(last, graph[last]);
      forall line | line in es
        ensures exists p, j :: p in keys && 0 <= j < |graph[p]| && line == EdgeLine(p, graph[p][j])
      {
        var j :| 0 <= j < |es| && es[j] == line;
        assert line == EdgeLine(last, graph[last][j]);
      }
      forall p, j | p in keys && 0 <= j < |graph[p]|
        ensures EdgeLine(p, graph[p][j]) in EdgeDecls(keys, graph)
      {
        if p == last {
          assert es[j] == EdgeLine(p, graph[p][j]);
        }
      }
    }
  }

  /** A duplicate-free key list covering the graph has one key per node, so the
      document declares exactly `|graph|` nodes. */
  lemma {:induction false} NodeCount(keys: seq<string>, graph: Graph)
    requires forall i, j :: 0 <= i < j < |keys| ==> keys[i] != keys[j]
    requires forall k :: k in keys <==> k in graph
    ensures |NodeDecls(keys)| == |graph|
  {
    DistinctCard(keys);
    assert (set k | k in keys) == graph.Keys;
  }

  lemma {:induction false} DistinctCard(keys: seq<string>)
    requires forall i, j :: 0 <= i < j < |keys| ==> keys[i] != keys[j]
    ensures |set k | k in keys| == |keys|
  {
    if keys != [] {
      var init := keys[..|keys| - 1];
      DistinctCard(init);
      assert (set k | k in keys) == (set k | k in init) + {keys[|keys| - 1]};
      assert keys[|keys| - 1] !in init;
    }
  }

  /** `f"dependency_graph_{package.replace(':', '_')}.d2"`. */
  function D2FileName(package: string): (name: string)
    ensures ':' !in name
  {
    "dependency_graph_" + Replace(package, ':', '_') + ".d2"
  }

  /** The file name determines the package when the package had no `_`. */
  lemma D2FileNameInjective(p: string, q: string)
    requires '_' !in p && '_' !in q
    requires D2FileName(p) == D2FileName(q)
    ensures p == q
  {
    var n := |"dependency_graph_"|;
    assert |p| == |q|;
    assert Replace(p, ':', '_') == D2FileName(p)[n..n + |p|];
    ReplaceRoundTrip(p, ':', '_');
    ReplaceRoundTrip(q, ':', '_');
  }
}
