/** What a three-colour depth-first search knows while it runs, for any graph and any order of visits. */
module DepthFirst {
  import opened Graphs

  /** Not visited yet, on the current search path, fully processed. */
  datatype Color = White | Gray | Black

  /** A node without an entry is white, as a missing key of a Go map reads as zero. */
  function ColorIn(color: map<string, Color>, node: string): Color {
    if node in color then color[node] else White
  }

  /** Where the search stands: `stack` lists the grey nodes along the current search path, `finished` the black
      ones, each after all its dependencies. Nodes outside `universe` are never coloured. */
  ghost predicate Search(g: Graph, universe: set<string>, color: map<string, Color>, stack: seq<string>,
                         finished: seq<string>) {
    && (forall n :: ColorIn(color, n) == Gray <==> n in stack)
    && (forall n :: ColorIn(color, n) == Black <==> n in finished)
    && (forall n :: n in color ==> n in universe && color[n] != White)
    && Path(g, stack) && Distinct(stack)
    && Ordered(g, finished)
  }

  lemma Enter(g: Graph, universe: set<string>, color: map<string, Color>, stack: seq<string>, finished: seq<string>,
              node: string)
    requires Search(g, universe, color, stack, finished) && node in universe && ColorIn(color, node) == White
    requires stack == [] || Edge(g, stack[|stack| - 1], node)
    ensures Search(g, universe, color[node := Gray], stack + [node], finished)
  {
    StackPush(g, stack, node);
  }

  lemma Leave(g: Graph, universe: set<string>, color: map<string, Color>, stack: seq<string>, finished: seq<string>,
              node: string)
    requires Search(g, universe, color, stack + [node], finished) && node !in stack
    requires forall d :: Edge(g, node, d) ==> d in finished
    ensures Search(g, universe, color[node := Black], stack, finished + [node])
  {
    OrderedExtends(g, finished, node);
    StackPop(g, stack, node);
    assert node in stack + [node];
    assert Distinct(stack) by {
      forall i, j | 0 <= i < j < |stack|
        ensures stack[i] != stack[j]
      {
        assert (stack + [node])[i] != (stack + [node])[j];
      }
    }
  }

  /** A grey dependency of the last grey node closes a cycle that repeats no other node. */
  lemma GreyDependency(g: Graph, universe: set<string>, color: map<string, Color>, path: seq<string>,
                       finished: seq<string>, dep: string)
    returns (cycle: seq<string>)
    requires Search(g, universe, color, path, finished) && path != [] && Edge(g, path[|path| - 1], dep)
    requires ColorIn(color, dep) == Gray
    ensures Cycle(g, cycle) && Distinct(cycle[..|cycle| - 1])
    ensures exists k :: 0 <= k < |path| && path[k] == dep && cycle == path[k..] + [dep]
  {
    var k :| 0 <= k < |path| && path[k] == dep;
    BackEdgeCycle(g, path, k, dep);
    cycle := path[k..] + [dep];
    assert cycle[..|cycle| - 1] == path[k..];
  }

  lemma FinishedDependency(g: Graph, universe: set<string>, color: map<string, Color>, path: seq<string>,
                           finished: seq<string>, dep: string)
    requires Search(g, universe, color, path, finished) && ColorIn(color, dep) == Black
    ensures dep in finished
  {
  }
}
