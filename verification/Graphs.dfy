/** Dependency graphs as the source keeps them: a map from a node to the list of nodes it depends on.
    A node without an entry has no dependencies. */
module Graphs {
  import opened Sequences

  type Graph = map<string, seq<string>>

  function Deps(g: Graph, a: string): seq<string> {
    if a in g then g[a] else []
  }

  predicate Edge(g: Graph, a: string, b: string) {
    b in Deps(g, a)
  }

  predicate Path(g: Graph, p: seq<string>) {
    forall i :: 0 < i < |p| ==> Edge(g, p[i - 1], p[i])
  }

  predicate Cycle(g: Graph, p: seq<string>) {
    2 <= |p| && Path(g, p) && p[0] == p[|p| - 1]
  }

  ghost predicate Cyclic(g: Graph) {
    exists p :: Cycle(g, p)
  }

  predicate Distinct(p: seq<string>) {
    forall i, j :: 0 <= i < j < |p| ==> p[i] != p[j]
  }

  /** Every node with an entry or named as a dependency. */
  ghost function Nodes(g: Graph): set<string> {
    g.Keys + (set a, i | a in g && 0 <= i < |g[a]| :: g[a][i])
  }

  lemma EdgeInNodes(g: Graph, a: string, b: string)
    requires Edge(g, a, b)
    ensures a in g && a in Nodes(g) && b in Nodes(g)
  {
  }

  // ----- Depth-first search: what the grey nodes and the finished nodes know

  /** Nodes in the order a depth-first search finished them: each one after all its dependencies. */
  ghost predicate Ordered(g: Graph, finished: seq<string>) {
    && Distinct(finished)
    && forall i, d :: 0 <= i < |finished| && Edge(g, finished[i], d) ==> d in finished[..i]
  }

  lemma OrderedExtends(g: Graph, finished: seq<string>, node: string)
    requires Ordered(g, finished) && node !in finished
    requires forall d :: Edge(g, node, d) ==> d in finished
    ensures Ordered(g, finished + [node])
  {
    var more := finished + [node];
    forall i, d | 0 <= i < |more| && Edge(g, more[i], d)
      ensures d in more[..i]
    {
      assert more[..|finished|] == finished;
      if i < |finished| { assert more[..i] == finished[..i]; }
    }
  }

  ghost function Position(s: seq<string>, x: string): (i: nat)
    requires x in s
    ensures i < |s| && s[i] == x
  {
    var i :| 0 <= i < |s| && s[i] == x; i
  }

  lemma EdgeLowersPosition(g: Graph, finished: seq<string>, a: string, b: string)
    requires Ordered(g, finished) && a in finished && Edge(g, a, b)
    ensures b in finished && Position(finished, b) < Position(finished, a)
  {
    var i := Position(finished, a);
    assert b in finished[..i];
    var j :| 0 <= j < i && finished[j] == b;
  }

  lemma {:induction false} PathLowersPosition(g: Graph, finished: seq<string>, p: seq<string>)
    requires Ordered(g, finished) && Path(g, p) && 0 < |p| && p[0] in finished
    ensures p[|p| - 1] in finished
    ensures Position(finished, p[|p| - 1]) + |p| - 1 <= Position(finished, p[0])
    decreases |p|
  {
    if 1 < |p| {
      EdgeLowersPosition(g, finished, p[0], p[1]);
      PathLowersPosition(g, finished, p[1..]);
    }
  }

  /** A finished order that covers every node with an entry rules out cycles. */
  lemma OrderedAcyclic(g: Graph, finished: seq<string>)
    requires Ordered(g, finished) && forall a :: a in g ==> a in finished
    ensures !Cyclic(g)
  {
    forall p | Cycle(g, p)
      ensures false
    {
      assert Edge(g, p[0], p[1]);
      PathLowersPosition(g, finished, p);
    }
  }

  /** An edge from the last grey node back to a grey node closes a cycle. */
  lemma BackEdgeCycle(g: Graph, stack: seq<string>, i: nat, node: string)
    requires Path(g, stack) && i < |stack| && stack[i] == node && Edge(g, stack[|stack| - 1], node)
    ensures Cycle(g, stack[i..] + [node])
  {
  }

  /** Leaving the last node of a search path. */
  lemma StackPop(g: Graph, stack: seq<string>, node: string)
    requires Path(g, stack + [node]) && node !in stack
    ensures Path(g, stack)
    ensures forall n :: n in stack <==> n in stack + [node] && n != node
  {
    var path := stack + [node];
    forall i | 0 < i < |stack|
      ensures Edge(g, stack[i - 1], stack[i])
    {
      assert Edge(g, path[i - 1], path[i]);
    }
  }

  /** Extending a search path along an edge. */
  lemma StackPush(g: Graph, stack: seq<string>, node: string)
    requires Path(g, stack) && (stack == [] || Edge(g, stack[|stack| - 1], node))
    ensures Path(g, stack + [node])
    ensures forall n :: n in stack + [node] <==> n in stack || n == node
  {
  }

  // ----- Transposition

  /** How many times `a` lists `b`. */
  function Multiplicity(g: Graph, a: string, b: string): nat {
    multiset(Deps(g, a))[b]
  }

  /** `h` has the edges of `g` the other way round, as many times each. */
  ghost predicate Transposed(g: Graph, h: Graph) {
    forall a, b :: Multiplicity(h, b, a) == Multiplicity(g, a, b)
  }

  lemma EdgeMultiplicity(g: Graph, a: string, b: string)
    ensures Edge(g, a, b) <==> 0 < Multiplicity(g, a, b)
  {
  }

  lemma TransposedCycle(g: Graph, h: Graph, p: seq<string>)
    requires Transposed(g, h) && Cycle(g, p)
    ensures Cycle(h, Reversed(p))
  {
    var r := Reversed(p);
    forall i | 0 < i < |r|
      ensures Edge(h, r[i - 1], r[i])
    {
      var j := |p| - i;
      assert Edge(g, p[j - 1], p[j]);
      EdgeMultiplicity(g, p[j - 1], p[j]);
      EdgeMultiplicity(h, p[j], p[j - 1]);
      assert Multiplicity(h, p[j], p[j - 1]) == Multiplicity(g, p[j - 1], p[j]);
    }
  }

  /** Transposing neither makes nor breaks a cycle. */
  lemma TransposedCyclic(g: Graph, h: Graph)
    requires Transposed(g, h)
    ensures Cyclic(g) <==> Cyclic(h)
  {
    if Cyclic(g) {
      var p :| Cycle(g, p);
      TransposedCycle(g, h, p);
    }
    if Cyclic(h) {
      var p :| Cycle(h, p);
      TransposedCycle(h, g, p);
    }
  }

  // ----- Finite graphs without cycles have sinks

  lemma {:induction false} DistinctFits(p: seq<string>, s: set<string>)
    requires Distinct(p) && forall i :: 0 <= i < |p| ==> p[i] in s
    ensures |p| <= |s|
    decreases |p|
  {
    if |p| > 0 {
      DistinctFits(p[1..], s - {p[0]});
    }
  }

  /** A walk longer than the set it stays in repeats a node, so it contains a cycle. */
  lemma LongWalkCyclic(g: Graph, p: seq<string>, s: set<string>) returns (i: nat, j: nat)
    requires Path(g, p) && |s| < |p| && forall i :: 0 <= i < |p| ==> p[i] in s
    ensures i < j < |p| && Cycle(g, p[i..j + 1])
  {
    if Distinct(p) {
      DistinctFits(p, s);
    }
    i, j :| 0 <= i < j < |p| && p[i] == p[j];
  }

  ghost predicate HasEdgeInto(g: Graph, a: string, s: set<string>) {
    exists b :: b in s && Edge(g, a, b)
  }

  /** No node of `s` is free of dependencies in `s`. */
  ghost predicate NoSink(g: Graph, s: set<string>) {
    forall a {:trigger HasEdgeInto(g, a, s)} :: a in s ==> HasEdgeInto(g, a, s)
  }

  /** A walk of any length inside `s`, when every node of `s` has a successor in `s`. */
  lemma {:induction false} WalkWithin(g: Graph, s: set<string>, start: string, n: nat) returns (p: seq<string>)
    requires start in s && NoSink(g, s)
    ensures |p| == n + 1 && p[0] == start && Path(g, p) && forall i :: 0 <= i < |p| ==> p[i] in s
    decreases n
  {
    if n == 0 {
      p := [start];
    } else {
      assert HasEdgeInto(g, start, s);
      var b :| b in s && Edge(g, start, b);
      var rest := WalkWithin(g, s, b, n - 1);
      p := [start] + rest;
    }
  }

  /** A cycle that stays inside `s`. */
  ghost predicate CycleWithin(g: Graph, s: set<string>, p: seq<string>) {
    Cycle(g, p) && forall i :: 0 <= i < |p| ==> p[i] in s
  }

  /** A non-empty finite set in which every node has a successor contains a cycle. */
  lemma NoSinkMeansCycle(g: Graph, s: set<string>) returns (p: seq<string>)
    requires s != {} && NoSink(g, s)
    ensures CycleWithin(g, s, p)
  {
    var start :| start in s;
    var walk := WalkWithin(g, s, start, |s|);
    var i, j := LongWalkCyclic(g, walk, s);
    p := walk[i..j + 1];
  }
}
