/** Component start and deletion order: cycle detection, the transposed graph and the deletion gates. */
module ComponentLifecycle {
  import opened Graphs
  import opened DepthFirst
  import opened Sequences

  /** The three-colour depth-first search of DetectCycle. A node without an entry in `color` is white. */
  class CycleDetector {
    const deps: Graph
    var color: map<string, Color>
    ghost var finished: seq<string>

    constructor (deps: Graph)
      ensures this.deps == deps && finished == [] && color == map[]
    {
      this.deps := deps;
      color, finished := map[], [];
    }

    method Dfs(node: string, ghost stack: seq<string>) returns (found: bool)
      requires Search(deps, Nodes(deps), color, stack, finished) && node in Nodes(deps) && ColorIn(color, node) == White
      requires stack == [] || Edge(deps, stack[|stack| - 1], node)
      modifies this
      ensures found ==> Cyclic(deps)
      ensures !found ==> Search(deps, Nodes(deps), color, stack, finished)
      ensures !found ==> node in finished && old(finished) <= finished
      ensures old(color).Keys <= color.Keys
      decreases Nodes(deps) - color.Keys, 0
    {
      Enter(deps, Nodes(deps), color, stack, finished, node);
      assert node !in stack;
      color := color[node := Gray];
      found := Explore(node, stack + [node]);
      if found { return; }
      Leave(deps, Nodes(deps), color, stack, finished, node);
      color := color[node := Black];
      finished := finished + [node];
    }

    /** Visits the dependencies of the last grey node. */
    method Explore(node: string, ghost path: seq<string>) returns (found: bool)
      requires Search(deps, Nodes(deps), color, path, finished) && path != [] && path[|path| - 1] == node
      modifies this
      ensures found ==> Cyclic(deps)
      ensures !found ==> Search(deps, Nodes(deps), color, path, finished) && old(finished) <= finished
      ensures !found ==> forall d :: Edge(deps, node, d) ==> d in finished
      ensures old(color).Keys <= color.Keys
      decreases Nodes(deps) - color.Keys, 1
    {
      var list := Deps(deps, node);
      for i := 0 to |list|
        invariant Search(deps, Nodes(deps), color, path, finished) && old(finished) <= finished
        invariant old(color).Keys <= color.Keys
        invariant forall j :: 0 <= j < i ==> list[j] in finished
      {
        var dep := list[i];
        assert Edge(deps, node, dep);
        var c := ColorIn(color, dep);
        if c == Gray {
          ghost var cycle := GreyDependency(deps, Nodes(deps), color, path, finished, dep);
          return true;
        } else if c == White {
          EdgeInNodes(deps, node, dep);
          var inner := Dfs(dep, path);
          if inner { return true; }
        } else {
          FinishedDependency(deps, Nodes(deps), color, path, finished, dep);
        }
      }
      return false;
    }
  }

  /** True exactly for a cyclic graph, whichever order the entries are visited in, and also when a dependency
      has no entry of its own. */
  method DetectCycle(deps: Graph) returns (found: bool)
    ensures found <==> Cyclic(deps)
  {
    var search := new CycleDetector(deps);
    var rest := deps.Keys;
    while rest != {}
      invariant rest <= deps.Keys && fresh(search) && search.deps == deps
                && Search(deps, Nodes(deps), search.color, [], search.finished)
      invariant forall n :: n in deps && n !in rest ==> n in search.finished
      decreases rest
    {
      var node :| node in rest;
      if ColorIn(search.color, node) == White {
        var inner := search.Dfs(node, []);
        if inner { return true; }
      }
      rest := rest - {node};
    }
    OrderedAcyclic(deps, search.finished);
    return false;
  }

  // ----- The transposed graph

  /** How often `a` counts as a dependent of `b` once the nodes in `done` and the first `n` dependencies
      of `node` are transposed. */
  ghost function PartCount(deps: Graph, done: set<string>, node: string, n: nat, a: string, b: string): nat
    requires n <= |Deps(deps, node)|
  {
    if a in done then Multiplicity(deps, a, b) else if a == node then multiset(Deps(deps, node)[..n])[b] else 0
  }

  ghost predicate PartlyTransposed(deps: Graph, rev: Graph, done: set<string>, node: string, n: nat)
    requires n <= |Deps(deps, node)|
  {
    forall a, b :: Multiplicity(rev, b, a) == PartCount(deps, done, node, n, a, b)
  }

  method BuildReverseDependencies(deps: Graph) returns (rev: Graph)
    ensures rev.Keys == Nodes(deps)
    ensures Transposed(deps, rev)
  {
    rev := map n | n in deps :: [];
    var rest := deps.Keys;
    while rest != {}
      invariant rest <= deps.Keys <= rev.Keys <= Nodes(deps)
      invariant PartlyTransposed(deps, rev, deps.Keys - rest, "", 0)
      decreases rest
    {
      var node :| node in rest;
      TransposeFirst(deps, rev, deps.Keys - rest, node);
      rev := TransposeNode(deps, rev, deps.Keys - rest, node);
      TransposeNextNode(deps, rev, deps.Keys - rest, node);
      assert deps.Keys - rest + {node} == deps.Keys - (rest - {node});
      rest := rest - {node};
    }
    AllTransposed(deps, rev);
  }

  /** Appends `node` to the dependents of each of its dependencies. */
  method TransposeNode(deps: Graph, before: Graph, ghost done: set<string>, node: string) returns (rev: Graph)
    requires node in deps && node !in done
    requires deps.Keys <= before.Keys <= Nodes(deps) && PartlyTransposed(deps, before, done, node, 0)
    ensures deps.Keys <= rev.Keys <= Nodes(deps) && PartlyTransposed(deps, rev, done, node, |deps[node]|)
  {
    rev := before;
    var nodeDeps := deps[node];
    for i := 0 to |nodeDeps|
      invariant deps.Keys <= rev.Keys <= Nodes(deps)
      invariant PartlyTransposed(deps, rev, done, node, i)
    {
      var dep := nodeDeps[i];
      var dependents := Deps(rev, dep) + [node];
      TransposeStep(deps, rev, rev[dep := dependents], done, node, i);
      EdgeInNodes(deps, node, dep);
      rev := rev[dep := dependents];
    }
  }

  lemma AllTransposed(deps: Graph, rev: Graph)
    requires deps.Keys <= rev.Keys <= Nodes(deps) && PartlyTransposed(deps, rev, deps.Keys, "", 0)
    ensures rev.Keys == Nodes(deps) && Transposed(deps, rev)
  {
    forall a, b
      ensures Multiplicity(rev, b, a) == Multiplicity(deps, a, b)
    {
      assert Multiplicity(rev, b, a) == PartCount(deps, deps.Keys, "", 0, a, b);
    }
    forall b | b in Nodes(deps)
      ensures b in rev
    {
      if b !in deps {
        var a, i :| a in deps && 0 <= i < |deps[a]| && deps[a][i] == b;
        EdgeMultiplicity(deps, a, b);
        assert Multiplicity(rev, b, a) == Multiplicity(deps, a, b);
      }
    }
  }

  lemma TransposeStep(deps: Graph, before: Graph, after: Graph, done: set<string>, node: string, i: nat)
    requires i < |Deps(deps, node)| && node !in done
    requires PartlyTransposed(deps, before, done, node, i)
    requires var dep := Deps(deps, node)[i]; after == before[dep := Deps(before, dep) + [node]]
    ensures PartlyTransposed(deps, after, done, node, i + 1)
  {
    forall a, b
      ensures Multiplicity(after, b, a) == PartCount(deps, done, node, i + 1, a, b)
    {
      assert Multiplicity(before, b, a) == PartCount(deps, done, node, i, a, b);
      TransposeStepAt(deps, before, after, done, node, i, a, b);
    }
  }

  lemma TransposeStepAt(deps: Graph, before: Graph, after: Graph, done: set<string>, node: string, i: nat,
                        a: string, b: string)
    requires i < |Deps(deps, node)| && node !in done
    requires Multiplicity(before, b, a) == PartCount(deps, done, node, i, a, b)
    requires var dep := Deps(deps, node)[i]; after == before[dep := Deps(before, dep) + [node]]
    ensures Multiplicity(after, b, a) == PartCount(deps, done, node, i + 1, a, b)
  {
    var list := Deps(deps, node);
    assert list[..i + 1] == list[..i] + [list[i]];
  }

  lemma TransposeNextNode(deps: Graph, rev: Graph, done: set<string>, node: string)
    requires PartlyTransposed(deps, rev, done, node, |Deps(deps, node)|)
    ensures PartlyTransposed(deps, rev, done + {node}, "", 0)
  {
    var list := Deps(deps, node);
    assert list[..|list|] == list;
    forall a, b
      ensures Multiplicity(rev, b, a) == PartCount(deps, done + {node}, "", 0, a, b)
    {
      assert Multiplicity(rev, b, a) == PartCount(deps, done, node, |list|, a, b);
    }
  }

  lemma TransposeFirst(deps: Graph, rev: Graph, done: set<string>, node: string)
    requires PartlyTransposed(deps, rev, done, "", 0)
    ensures PartlyTransposed(deps, rev, done, node, 0)
  {
    forall a, b
      ensures Multiplicity(rev, b, a) == PartCount(deps, done, node, 0, a, b)
    {
      assert Multiplicity(rev, b, a) == PartCount(deps, done, "", 0, a, b);
    }
  }

  /** Transposing twice gives every edge back as often as it was listed. */
  lemma TransposeInvolution(g: Graph, rev: Graph, back: Graph)
    requires Transposed(g, rev) && Transposed(rev, back)
    ensures forall a, b :: Multiplicity(back, a, b) == Multiplicity(g, a, b)
  {
    forall a, b
      ensures Multiplicity(back, a, b) == Multiplicity(g, a, b)
    {
      assert Multiplicity(rev, b, a) == Multiplicity(g, a, b);
    }
  }

  // ----- Deletion gates

  /** A gate of `a` is a component that starts after `a`, or one that `a` names to be deleted first. */
  predicate Gated(startDeps: Graph, deleteDeps: Graph, a: string, b: string) {
    Edge(startDeps, b, a) || Edge(deleteDeps, a, b)
  }

  /** The gates hold the transposed start graph as it is, and each further deleteAfter entry once. */
  ghost predicate AreGates(rev: Graph, deleteDeps: Graph, gates: Graph) {
    forall a, b :: Multiplicity(gates, a, b) ==
      if Edge(rev, a, b) then Multiplicity(rev, a, b) else if Edge(deleteDeps, a, b) then 1 else 0
  }

  /** Whether `b` is merged as a gate of `a` once the nodes in `done` and the first `n` entries of `node` are. */
  predicate Merged(deleteDeps: Graph, done: set<string>, node: string, n: nat, a: string, b: string)
    requires n <= |Deps(deleteDeps, node)|
  {
    (a in done && Edge(deleteDeps, a, b)) || (a == node && b in Deps(deleteDeps, node)[..n])
  }

  function GateCount(rev: Graph, deleteDeps: Graph, done: set<string>, node: string, n: nat, a: string, b: string): nat
    requires n <= |Deps(deleteDeps, node)|
  {
    if Edge(rev, a, b) then Multiplicity(rev, a, b) else if Merged(deleteDeps, done, node, n, a, b) then 1 else 0
  }

  ghost predicate MergedSoFar(rev: Graph, deleteDeps: Graph, gates: Graph, done: set<string>, node: string, n: nat)
    requires n <= |Deps(deleteDeps, node)|
  {
    forall a, b :: Multiplicity(gates, a, b) == GateCount(rev, deleteDeps, done, node, n, a, b)
  }

  /** The gates are exactly the dependents by start order and the explicit deleteAfter entries; `rev` is the
      transposed start graph they extend. */
  method BuildDeletionGates(startDeps: Graph, deleteDeps: Graph) returns (gates: Graph, ghost rev: Graph)
    ensures forall a, b :: Edge(gates, a, b) <==> Gated(startDeps, deleteDeps, a, b)
    ensures Transposed(startDeps, rev) && AreGates(rev, deleteDeps, gates)
  {
    gates := BuildReverseDependencies(startDeps);
    rev := gates;
    var rest := deleteDeps.Keys;
    while rest != {}
      invariant rest <= deleteDeps.Keys
      invariant MergedSoFar(rev, deleteDeps, gates, deleteDeps.Keys - rest, "", 0)
      decreases rest
    {
      var node :| node in rest;
      var list := deleteDeps[node];
      MergeFirst(rev, deleteDeps, gates, deleteDeps.Keys - rest, node);
      if |list| > 0 {
        gates := MergeNode(rev, deleteDeps, gates, deleteDeps.Keys - rest, node);
      }
      MergeNextNode(rev, deleteDeps, gates, deleteDeps.Keys - rest, node);
      assert deleteDeps.Keys - rest + {node} == deleteDeps.Keys - (rest - {node});
      rest := rest - {node};
    }
    GatesMerged(startDeps, rev, deleteDeps, gates);
  }

  /** Merges one node's deleteAfter entries, skipping those already present. */
  method MergeNode(ghost rev: Graph, deleteDeps: Graph, before: Graph, ghost done: set<string>, node: string)
    returns (gates: Graph)
    requires node !in done && MergedSoFar(rev, deleteDeps, before, done, node, 0)
    ensures MergedSoFar(rev, deleteDeps, gates, done, node, |Deps(deleteDeps, node)|)
  {
    gates := before;
    var list := Deps(deleteDeps, node);
    var existing := set d | d in Deps(gates, node);
    for i := 0 to |list|
      invariant forall d :: d in existing <==> Edge(gates, node, d)
      invariant MergedSoFar(rev, deleteDeps, gates, done, node, i)
    {
      var d := list[i];
      ghost var previous := gates;
      if d !in existing {
        gates := gates[node := Deps(gates, node) + [d]];
        existing := existing + {d};
      }
      MergeStep(rev, deleteDeps, previous, gates, done, node, i);
    }
  }

  lemma MergeStep(rev: Graph, deleteDeps: Graph, gates: Graph, after: Graph, done: set<string>, node: string, i: nat)
    requires i < |Deps(deleteDeps, node)| && node !in done
    requires MergedSoFar(rev, deleteDeps, gates, done, node, i)
    requires var d := Deps(deleteDeps, node)[i];
             after == if Edge(gates, node, d) then gates else gates[node := Deps(gates, node) + [d]]
    ensures MergedSoFar(rev, deleteDeps, after, done, node, i + 1)
  {
    forall a, b
      ensures Multiplicity(after, a, b) == GateCount(rev, deleteDeps, done, node, i + 1, a, b)
    {
      assert Multiplicity(gates, a, b) == GateCount(rev, deleteDeps, done, node, i, a, b);
      MergeStepAt(rev, deleteDeps, gates, after, done, node, i, a, b);
    }
  }

  lemma MergeStepAt(rev: Graph, deleteDeps: Graph, gates: Graph, after: Graph, done: set<string>, node: string, i: nat,
                    a: string, b: string)
    requires i < |Deps(deleteDeps, node)| && node !in done
    requires Multiplicity(gates, a, b) == GateCount(rev, deleteDeps, done, node, i, a, b)
    requires var d := Deps(deleteDeps, node)[i];
             after == if Edge(gates, node, d) then gates else gates[node := Deps(gates, node) + [d]]
    ensures Multiplicity(after, a, b) == GateCount(rev, deleteDeps, done, node, i + 1, a, b)
  {
    var list := Deps(deleteDeps, node);
    var d := list[i];
    assert b in list[..i + 1] <==> b in list[..i] || b == d by { assert list[..i + 1] == list[..i] + [d]; }
    if a == node && b == d {
      EdgeMultiplicity(gates, a, b);
      EdgeMultiplicity(rev, a, b);
      assert Merged(deleteDeps, done, node, i + 1, a, b);
    } else {
      assert Multiplicity(after, a, b) == Multiplicity(gates, a, b);
      assert Merged(deleteDeps, done, node, i + 1, a, b) == Merged(deleteDeps, done, node, i, a, b);
    }
  }

  lemma MergeFirst(rev: Graph, deleteDeps: Graph, gates: Graph, done: set<string>, node: string)
    requires MergedSoFar(rev, deleteDeps, gates, done, "", 0)
    ensures MergedSoFar(rev, deleteDeps, gates, done, node, 0)
  {
    forall a, b
      ensures Merged(deleteDeps, done, node, 0, a, b) == Merged(deleteDeps, done, "", 0, a, b)
    {
    }
  }

  lemma MergeNextNode(rev: Graph, deleteDeps: Graph, gates: Graph, done: set<string>, node: string)
    requires MergedSoFar(rev, deleteDeps, gates, done, node, |Deps(deleteDeps, node)|)
    ensures MergedSoFar(rev, deleteDeps, gates, done + {node}, "", 0)
  {
    var list := Deps(deleteDeps, node);
    assert list[..|list|] == list;
    forall a, b
      ensures Merged(deleteDeps, done + {node}, "", 0, a, b) == Merged(deleteDeps, done, node, |list|, a, b)
    {
    }
  }

  lemma GatesMerged(startDeps: Graph, rev: Graph, deleteDeps: Graph, gates: Graph)
    requires Transposed(startDeps, rev) && MergedSoFar(rev, deleteDeps, gates, deleteDeps.Keys, "", 0)
    ensures AreGates(rev, deleteDeps, gates)
    ensures forall a, b :: Edge(gates, a, b) <==> Gated(startDeps, deleteDeps, a, b)
  {
    forall a, b
      ensures Merged(deleteDeps, deleteDeps.Keys, "", 0, a, b) <==> Edge(deleteDeps, a, b)
    {
    }
    forall a, b
      ensures Edge(gates, a, b) <==> Gated(startDeps, deleteDeps, a, b)
    {
      EdgeMultiplicity(gates, a, b);
      EdgeMultiplicity(rev, a, b);
      EdgeMultiplicity(startDeps, b, a);
      assert Multiplicity(rev, a, b) == Multiplicity(startDeps, b, a);
    }
  }

  /** Start order alone never deadlocks the teardown: with no deleteAfter entries the gates are cyclic
      exactly when the start graph is. */
  lemma StartOnlyGatesCyclic(startDeps: Graph, deleteDeps: Graph, gates: Graph)
    requires forall a, b :: Edge(gates, a, b) <==> Gated(startDeps, deleteDeps, a, b)
    requires forall a :: Deps(deleteDeps, a) == []
    ensures Cyclic(gates) <==> Cyclic(startDeps)
  {
    if Cyclic(gates) {
      var p :| Cycle(gates, p);
      ReversedCycle(gates, startDeps, p);
    }
    if Cyclic(startDeps) {
      var p :| Cycle(startDeps, p);
      ReversedCycle(startDeps, gates, p);
    }
  }

  lemma ReversedCycle(g: Graph, h: Graph, p: seq<string>)
    requires Cycle(g, p) && forall a, b :: Edge(g, a, b) ==> Edge(h, b, a)
    ensures Cycle(h, Reversed(p))
  {
    var r := Reversed(p);
    forall i | 0 < i < |r|
      ensures Edge(h, r[i - 1], r[i])
    {
      var j := |p| - i;
      assert Edge(g, p[j - 1], p[j]);
    }
  }

  // ----- Teardown: each round deletes the components whose gates are all gone

  function Deletable(gates: Graph, remaining: set<string>): set<string> {
    set c | c in remaining && forall d :: d in Deps(gates, c) ==> d !in remaining
  }

  function Teardown(gates: Graph, remaining: set<string>, rounds: nat): set<string> {
    if rounds == 0 then remaining else Teardown(gates, remaining - Deletable(gates, remaining), rounds - 1)
  }

  lemma SomethingDeletable(gates: Graph, remaining: set<string>)
    requires remaining != {} && !exists p :: CycleWithin(gates, remaining, p)
    ensures Deletable(gates, remaining) != {}
  {
    if Deletable(gates, remaining) == {} {
      forall a | a in remaining
        ensures HasEdgeInto(gates, a, remaining)
      {
        assert a !in Deletable(gates, remaining);
        var d :| d in Deps(gates, a) && d in remaining;
        assert Edge(gates, a, d);
      }
      var p := NoSinkMeansCycle(gates, remaining);
    }
  }

  lemma {:induction false} TeardownEmpties(gates: Graph, remaining: set<string>)
    requires !exists p :: CycleWithin(gates, remaining, p)
    ensures Teardown(gates, remaining, |remaining|) == {}
    decreases |remaining|
  {
    if remaining != {} {
      SomethingDeletable(gates, remaining);
      var rest := remaining - Deletable(gates, remaining);
      assert rest < remaining;
      SubsetSize(rest, remaining);
      forall p
        ensures !CycleWithin(gates, rest, p)
      {
        assert CycleWithin(gates, rest, p) ==> CycleWithin(gates, remaining, p);
      }
      TeardownEmpties(gates, rest);
      TeardownStaysEmpty(gates, rest, |rest|, |remaining| - 1);
    }
  }

  lemma SubsetSize(a: set<string>, b: set<string>)
    requires a < b
    ensures |a| < |b|
  {
    assert |b| == |a| + |b - a| by { assert b == a + (b - a); }
    var x :| x in b - a;
  }

  lemma {:induction false} TeardownStaysEmpty(gates: Graph, remaining: set<string>, n: nat, m: nat)
    requires Teardown(gates, remaining, n) == {} && n <= m
    ensures Teardown(gates, remaining, m) == {}
    decreases m
  {
    if m > 0 {
      var rest := remaining - Deletable(gates, remaining);
      if n == 0 {
        assert rest == {};
        TeardownStaysEmpty(gates, rest, 0, m - 1);
      } else {
        TeardownStaysEmpty(gates, rest, n - 1, m - 1);
      }
    }
  }

  lemma {:induction false} CycleNeverDeleted(gates: Graph, remaining: set<string>, p: seq<string>, rounds: nat)
    requires CycleWithin(gates, remaining, p)
    ensures CycleWithin(gates, Teardown(gates, remaining, rounds), p)
    decreases rounds
  {
    if rounds > 0 {
      forall i | 0 <= i < |p|
        ensures p[i] !in Deletable(gates, remaining)
      {
        var next := if i < |p| - 1 then i + 1 else 1;
        assert Edge(gates, p[next - 1], p[next]);
        assert p[next] in Deps(gates, p[i]) && p[next] in remaining;
      }
      CycleNeverDeleted(gates, remaining - Deletable(gates, remaining), p, rounds - 1);
    }
  }

  /** The teardown of a set of components runs to the end if and only if the gates have no cycle among them. */
  lemma TeardownCompletesExactly(gates: Graph, remaining: set<string>)
    ensures (exists n: nat :: Teardown(gates, remaining, n) == {}) <==> !exists p :: CycleWithin(gates, remaining, p)
  {
    if exists p :: CycleWithin(gates, remaining, p) {
      var p :| CycleWithin(gates, remaining, p);
      forall n: nat
        ensures Teardown(gates, remaining, n) != {}
      {
        CycleNeverDeleted(gates, remaining, p, n);
        assert p[0] in Teardown(gates, remaining, n);
      }
    } else {
      TeardownEmpties(gates, remaining);
    }
  }

  /** Gates that DetectCycle clears never deadlock, whichever components are being removed: every remaining
      set has a component whose gates are gone, and as many rounds as components are enough. */
  lemma AcyclicGatesNeverDeadlock(gates: Graph, remaining: set<string>)
    requires !Cyclic(gates)
    ensures remaining != {} ==> Deletable(gates, remaining) != {}
    ensures Teardown(gates, remaining, |remaining|) == {}
  {
    forall p
      ensures !CycleWithin(gates, remaining, p)
    {
      assert CycleWithin(gates, remaining, p) ==> Cycle(gates, p);
    }
    if remaining != {} { SomethingDeletable(gates, remaining); }
    TeardownEmpties(gates, remaining);
  }

  lemma {:induction false} TeardownLast(gates: Graph, remaining: set<string>, rounds: nat)
    requires 0 < rounds
    ensures var before := Teardown(gates, remaining, rounds - 1);
            Teardown(gates, remaining, rounds) == before - Deletable(gates, before)
    decreases rounds
  {
    if 1 < rounds { TeardownLast(gates, remaining - Deletable(gates, remaining), rounds - 1); }
  }

  /** A component goes strictly after everything that starts after it, and strictly after everything it is to be deleted
      after, whichever components are being removed. */
  lemma {:induction false} DeletedInOrder(startDeps: Graph, deleteDeps: Graph, gates: Graph, remaining: set<string>,
                                          a: string, b: string, rounds: nat)
    requires forall x, y :: Edge(gates, x, y) <==> Gated(startDeps, deleteDeps, x, y)
    requires (b in startDeps && a in startDeps[b]) || (a in deleteDeps && b in deleteDeps[a])
    requires a in remaining && a !in Teardown(gates, remaining, rounds)
    ensures exists m :: 0 <= m < rounds && a in Teardown(gates, remaining, m) && b !in Teardown(gates, remaining, m)
    decreases rounds
  {
    TeardownLast(gates, remaining, rounds);
    var before := Teardown(gates, remaining, rounds - 1);
    if a in before {
      assert Edge(gates, a, b);
    } else {
      DeletedInOrder(startDeps, deleteDeps, gates, remaining, a, b, rounds - 1);
    }
  }

  /** And nothing waits for anything else: a component with nothing left that starts after it, and nothing left that it
      is to be deleted after, goes in the next round. */
  lemma DeletedWhenFree(startDeps: Graph, deleteDeps: Graph, gates: Graph, remaining: set<string>, a: string)
    requires forall x, y :: Edge(gates, x, y) <==> Gated(startDeps, deleteDeps, x, y)
    requires forall b :: b in startDeps && a in startDeps[b] ==> b !in remaining
    requires a in deleteDeps ==> forall b :: b in deleteDeps[a] ==> b !in remaining
    ensures a !in Teardown(gates, remaining, 1)
  {
    if a in remaining {
      forall d | d in Deps(gates, a)
        ensures d !in remaining
      {
        assert Edge(gates, a, d);
      }
    }
  }
}
