/** Start order of roles: the longest-path layering of the dependency graph by depth-first search. */
module RoleDependencies {
  import opened Wrappers
  import opened StringOrder
  import opened Graphs

  datatype SortError = CycleAt(role: string) | MissingDependency(role: string, dependency: string)

  // ----- Layers as longest dependency chains

  /** A chain of dependencies from `n` down, with one edge less than it has nodes. */
  predicate Chain(g: Graph, p: seq<string>, n: string) {
    0 < |p| && p[0] == n && Path(g, p)
  }

  /** The longest dependency chain from `n` has exactly `length` edges. */
  ghost predicate LongestChain(g: Graph, n: string, length: int) {
    && (exists p :: Chain(g, p, n) && |p| == length + 1)
    && (forall p :: Chain(g, p, n) ==> |p| <= length + 1)
  }

  /** The layering of a graph: a name is in layer L exactly when its longest chain has L edges, each layer
      is sorted, and no layer is empty. */
  ghost predicate IsLayering(g: Graph, layers: seq<seq<string>>) {
    && (forall l, n :: 0 <= l < |layers| ==> (n in layers[l] <==> n in g && LongestChain(g, n, l)))
    && (forall n :: n in g ==> exists l :: 0 <= l < |layers| && n in layers[l])
    && (forall l :: 0 <= l < |layers| ==> Sorted(layers[l]))
    && (forall l :: 0 <= l < |layers| && g.Keys != {} ==> layers[l] != [])
  }

  /** Every dependency has an entry of its own. */
  predicate Closed(g: Graph) {
    forall a, b :: a in g && b in g[a] ==> b in g
  }

  // ----- Ranks: what the search computes

  /** `order[n]` is one more than the largest order among the dependencies of `n`, or zero. */
  predicate Ranked(g: Graph, order: map<string, int>, n: string) {
    && n in order && 0 <= order[n]
    && (forall d :: d in Deps(g, n) ==> d in order && 0 <= order[d] < order[n])
    && (0 < order[n] ==> exists d :: d in Deps(g, n) && d in order && order[d] == order[n] - 1)
  }

  ghost predicate AllRanked(g: Graph, order: map<string, int>) {
    forall n {:trigger Ranked(g, order, n)} :: n in order ==> Ranked(g, order, n)
  }

  lemma {:induction false} RankBoundsChain(g: Graph, order: map<string, int>, p: seq<string>, n: string)
    requires AllRanked(g, order) && n in order && Chain(g, p, n)
    ensures |p| <= order[n] + 1
    decreases |p|
  {
    assert Ranked(g, order, n);
    if 1 < |p| {
      assert Edge(g, p[0], p[1]);
      RankBoundsChain(g, order, p[1..], p[1]);
    }
  }

  lemma {:induction false} RankHasChain(g: Graph, order: map<string, int>, n: string) returns (p: seq<string>)
    requires AllRanked(g, order) && n in order && 0 <= order[n]
    ensures Chain(g, p, n) && |p| == order[n] + 1
    decreases order[n]
  {
    assert Ranked(g, order, n);
    if order[n] == 0 {
      p := [n];
    } else {
      var d :| d in Deps(g, n) && d in order && order[d] == order[n] - 1;
      var rest := RankHasChain(g, order, d);
      p := [n] + rest;
      assert Edge(g, n, d);
    }
  }

  lemma RankIsLongestChain(g: Graph, order: map<string, int>, n: string)
    requires AllRanked(g, order) && n in order
    ensures forall l: int :: LongestChain(g, n, l) <==> l == order[n]
  {
    assert Ranked(g, order, n);
    var p := RankHasChain(g, order, n);
    forall q | Chain(g, q, n)
      ensures |q| <= order[n] + 1
    {
      RankBoundsChain(g, order, q, n);
    }
    assert LongestChain(g, n, order[n]);
    forall l: int | LongestChain(g, n, l)
      ensures l == order[n]
    {
      var q :| Chain(g, q, n) && |q| == l + 1;
    }
  }

  lemma RanksAcyclic(g: Graph, order: map<string, int>)
    requires AllRanked(g, order) && g.Keys <= order.Keys
    ensures !Cyclic(g)
  {
    forall p | Cycle(g, p)
      ensures false
    {
      assert Edge(g, p[0], p[1]);
      RanksFallOnPath(g, order, p);
    }
  }

  /** Along a path of ranked nodes the rank falls at every edge. */
  lemma {:induction false} RanksFallOnPath(g: Graph, order: map<string, int>, p: seq<string>)
    requires AllRanked(g, order) && 0 < |p| && Path(g, p) && p[0] in order
    ensures p[|p| - 1] in order && order[p[|p| - 1]] <= order[p[0]] - (|p| - 1)
    decreases |p|
  {
    if 1 < |p| {
      assert Ranked(g, order, p[0]) && Edge(g, p[0], p[1]);
      RanksFallOnPath(g, order, p[1..]);
    }
  }

  // ----- The depth-first search

  const NOT_STARTED := -2
  const PROGRESSING := -1

  function Unvisited(order: map<string, int>): set<string> {
    set n | n in order && order[n] == NOT_STARTED
  }

  /** `stack` holds the names in progress along the current search path; every computed order is a rank. */
  ghost predicate Search(g: Graph, order: map<string, int>, stack: seq<string>) {
    && order.Keys == g.Keys
    && (forall n :: n in order ==> NOT_STARTED <= order[n])
    && (forall n :: n in stack <==> n in order && order[n] == PROGRESSING)
    && (forall n {:trigger Ranked(g, order, n)} :: n in order && 0 <= order[n] ==> Ranked(g, order, n))
    && Path(g, stack)
  }

  /** The error names what is wrong with the graph: a node on a cycle, or an edge to a name without an entry. */
  ghost predicate Justified(g: Graph, e: SortError) {
    match e
    case CycleAt(role) => exists p :: Cycle(g, p) && p[0] == role
    case MissingDependency(role, dependency) => role in g && dependency in g[role] && dependency !in g
  }

  /** The orders computed so far do not change any more. */
  ghost predicate Keeps(before: map<string, int>, after: map<string, int>) {
    && (forall n :: n in before && 0 <= before[n] ==> n in after && after[n] == before[n])
    && Unvisited(after) <= Unvisited(before)
  }

  /** `maxOrder` is one more than the largest order among the first `i` dependencies, or zero. */
  ghost predicate Scanned(order: map<string, int>, list: seq<string>, i: nat, maxOrder: int)
    requires i <= |list|
  {
    && 0 <= maxOrder
    && (forall j :: 0 <= j < i ==> list[j] in order && 0 <= order[list[j]] < maxOrder)
    && (0 < maxOrder ==> exists j :: 0 <= j < i && list[j] in order && order[list[j]] == maxOrder - 1)
  }

  lemma StartRole(g: Graph, order: map<string, int>, stack: seq<string>, name: string)
    requires Search(g, order, stack) && name in g && order[name] == NOT_STARTED
    requires stack == [] || Edge(g, stack[|stack| - 1], name)
    ensures Search(g, order[name := PROGRESSING], stack + [name])
    ensures Unvisited(order[name := PROGRESSING]) == Unvisited(order) - {name}
  {
    StackPush(g, stack, name);
    RanksKept(g, order, name, PROGRESSING);
  }

  /** Changing an order that is not computed yet leaves every computed order a rank. */
  lemma RanksKept(g: Graph, order: map<string, int>, name: string, value: int)
    requires forall n {:trigger Ranked(g, order, n)} :: n in order && 0 <= order[n] ==> Ranked(g, order, n)
    requires name in order && order[name] < 0
    ensures forall n {:trigger Ranked(g, order[name := value], n)} :: n in order && 0 <= order[n] ==>
            Ranked(g, order[name := value], n)
  {
    var after := order[name := value];
    forall n | n in order && 0 <= order[n]
      ensures Ranked(g, after, n)
    {
      assert Ranked(g, order, n);
    }
  }

  lemma ScannedRanks(g: Graph, order: map<string, int>, name: string, rank: nat)
    requires name in order && order[name] < 0
    requires Scanned(order, Deps(g, name), |Deps(g, name)|, rank)
    ensures Ranked(g, order[name := rank], name)
  {
    var list := Deps(g, name);
    if 0 < rank {
      var j :| 0 <= j < |list| && list[j] in order && order[list[j]] == rank - 1;
      assert list[j] in list && list[j] != name;
    }
  }

  lemma FinishRole(g: Graph, order: map<string, int>, stack: seq<string>, name: string, rank: nat)
    requires Search(g, order, stack + [name]) && name !in stack
    requires Scanned(order, Deps(g, name), |Deps(g, name)|, rank)
    ensures Search(g, order[name := rank], stack)
    ensures Keeps(order, order[name := rank])
  {
    StackPop(g, stack, name);
    assert name in stack + [name];
    RanksKept(g, order, name, rank);
    ScannedRanks(g, order, name, rank);
  }

  lemma ProgressingCycle(g: Graph, order: map<string, int>, stack: seq<string>, name: string)
    requires Search(g, order, stack) && stack != [] && Edge(g, stack[|stack| - 1], name)
    requires name in order && order[name] == PROGRESSING
    ensures Justified(g, CycleAt(name))
  {
    var k :| 0 <= k < |stack| && stack[k] == name;
    BackEdgeCycle(g, stack, k, name);
  }

  lemma ScanNext(before: map<string, int>, after: map<string, int>, list: seq<string>, i: nat, maxOrder: int, rank: int)
    requires i < |list| && Scanned(before, list, i, maxOrder) && Keeps(before, after)
    requires list[i] in after && 0 <= rank == after[list[i]]
    ensures Scanned(after, list, i + 1, if maxOrder < rank + 1 then rank + 1 else maxOrder)
  {
    if rank + 1 <= maxOrder {
      var j :| 0 <= j < i && list[j] in before && before[list[j]] == maxOrder - 1;
      assert after[list[j]] == maxOrder - 1;
    }
  }

  lemma KeepsTransitive(a: map<string, int>, b: map<string, int>, c: map<string, int>)
    requires Keeps(a, b) && Keeps(b, c)
    ensures Keeps(a, c)
  {
  }

  class LayerSearch {
    const dependencies: Graph
    var order: map<string, int>

    constructor (dependencies: Graph)
      ensures this.dependencies == dependencies
      ensures order == map n | n in dependencies :: NOT_STARTED
    {
      this.dependencies := dependencies;
      order := map n | n in dependencies :: NOT_STARTED;
    }

    method Visit(name: string, ghost stack: seq<string>) returns (r: Result<int, SortError>)
      requires Search(dependencies, order, stack) && name in dependencies
      requires if stack == [] then order[name] != PROGRESSING else Edge(dependencies, stack[|stack| - 1], name)
      modifies this
      ensures r.Failure? ==> Justified(dependencies, r.error)
      ensures r.Success? ==>
                && Search(dependencies, order, stack) && Keeps(old(order), order)
                && 0 <= r.value == order[name]
      decreases Unvisited(order), 1
    {
      if 0 <= order[name] { return Success(order[name]); }
      if order[name] == PROGRESSING {
        ProgressingCycle(dependencies, order, stack, name);
        return Failure(CycleAt(name));
      }
      r := Explore(name, stack);
    }

    /** The rest of the visit, for a name that was not started. */
    method Explore(name: string, ghost stack: seq<string>) returns (r: Result<int, SortError>)
      requires Search(dependencies, order, stack) && name in dependencies && order[name] == NOT_STARTED
      requires stack == [] || Edge(dependencies, stack[|stack| - 1], name)
      modifies this
      ensures r.Failure? ==> Justified(dependencies, r.error)
      ensures r.Success? ==>
                && Search(dependencies, order, stack) && Keeps(old(order), order)
                && 0 <= r.value == order[name]
      decreases Unvisited(order), 0
    {
      StartRole(dependencies, order, stack, name);
      assert name !in stack;
      order := order[name := PROGRESSING];
      ghost var started := order;
      r := VisitDependencies(name, stack);
      if r.Success? {
        FinishRole(dependencies, order, stack, name, r.value);
        KeepsTransitive(started, order, order[name := r.value]);
        order := order[name := r.value];
      }
    }

    /** Visits every dependency of a name in progress; the result is one more than their largest order. */
    method VisitDependencies(name: string, ghost stack: seq<string>) returns (r: Result<int, SortError>)
      requires Search(dependencies, order, stack + [name]) && name in dependencies
      modifies this
      ensures r.Failure? ==> Justified(dependencies, r.error)
      ensures r.Success? ==>
                && Search(dependencies, order, stack + [name]) && Keeps(old(order), order)
                && Scanned(order, dependencies[name], |dependencies[name]|, r.value)
      decreases Unvisited(order), 2
    {
      ghost var path, started := stack + [name], order;
      var maxOrder := 0;
      var list := dependencies[name];
      for i := 0 to |list|
        invariant Search(dependencies, order, path) && Keeps(started, order)
        invariant Scanned(order, list, i, maxOrder)
      {
        var dep := list[i];
        if dep !in dependencies { return Failure(MissingDependency(name, dep)); }
        ghost var before := order;
        assert Edge(dependencies, name, dep);
        r := Visit(dep, path);
        if r.Failure? { return; }
        ScanNext(before, order, list, i, maxOrder, r.value);
        KeepsTransitive(started, before, order);
        maxOrder := if maxOrder < r.value + 1 then r.value + 1 else maxOrder;
      }
      r := Success(maxOrder);
    }
  }

  /** Visits every name that was not started yet. */
  method VisitAll(search: LayerSearch, names: seq<string>) returns (failed: Option<SortError>)
    requires Search(search.dependencies, search.order, [])
    requires forall n :: n in names ==> n in search.dependencies
    modifies search
    ensures failed.Some? ==> Justified(search.dependencies, failed.value)
    ensures failed.None? ==>
              && Search(search.dependencies, search.order, [])
              && forall n :: n in names ==> n in search.order && 0 <= search.order[n]
  {
    for i := 0 to |names|
      invariant Search(search.dependencies, search.order, [])
      invariant forall j :: 0 <= j < i ==> names[j] in search.order && 0 <= search.order[names[j]]
    {
      if search.order[names[i]] == NOT_STARTED {
        var visited := search.Visit(names[i], []);
        if visited.Failure? { return Some(visited.error); }
      }
    }
    return None;
  }

  // ----- The layers

  lemma {:induction false} EveryRankUsed(g: Graph, order: map<string, int>, n: string, l: nat) returns (m: string)
    requires AllRanked(g, order) && n in order && l <= order[n]
    ensures m in order && order[m] == l
    decreases order[n]
  {
    if order[n] == l {
      m := n;
    } else {
      assert Ranked(g, order, n);
      var d :| d in Deps(g, n) && d in order && order[d] == order[n] - 1;
      m := EveryRankUsed(g, order, d, l);
    }
  }

  /** The names of `names`, in their order, split by the order computed for them. */
  ghost predicate Split(names: seq<string>, order: map<string, int>, layers: seq<seq<string>>) {
    && (forall n :: n in names ==> n in order && 0 <= order[n] < |layers|)
    && (forall l, n :: 0 <= l < |layers| ==> (n in layers[l] <==> n in names && order[n] == l))
    && (forall l :: 0 <= l < |layers| ==> Sorted(layers[l]))
  }

  method LargestOrder(names: seq<string>, order: map<string, int>) returns (maxOrder: int)
    requires forall n :: n in names ==> n in order && 0 <= order[n]
    ensures 0 <= maxOrder && forall n :: n in names ==> order[n] <= maxOrder
    ensures names == [] ==> maxOrder == 0
    ensures names != [] ==> exists n :: n in names && order[n] == maxOrder
  {
    maxOrder := 0;
    for i := 0 to |names|
      invariant 0 <= maxOrder && forall j :: 0 <= j < i ==> order[names[j]] <= maxOrder
      invariant maxOrder == 0 || exists j :: 0 <= j < i && order[names[j]] == maxOrder
    {
      maxOrder := if maxOrder < order[names[i]] then order[names[i]] else maxOrder;
    }
    if names != [] && maxOrder == 0 { assert names[0] in names && order[names[0]] == 0; }
  }

  /** Each layer holds the names of its order among those placed so far. */
  ghost predicate Placed(placed: seq<string>, order: map<string, int>, layers: seq<seq<string>>)
    requires forall n :: n in placed ==> n in order
  {
    && (forall l, n :: 0 <= l < |layers| ==> (n in layers[l] <==> n in placed && order[n] == l))
    && (forall l :: 0 <= l < |layers| ==> Sorted(layers[l]))
  }

  lemma PlaceNext(placed: seq<string>, name: string, order: map<string, int>, layers: seq<seq<string>>)
    requires forall n :: n in placed + [name] ==> n in order
    requires Sorted(placed + [name]) && Placed(placed, order, layers) && 0 <= order[name] < |layers|
    ensures Placed(placed + [name], order, layers[order[name] := layers[order[name]] + [name]])
  {
    var o := order[name];
    var after := layers[o := layers[o] + [name]];
    var more := placed + [name];
    forall m | m in layers[o]
      ensures Less(m, name)
    {
      assert m in placed;
      var i :| 0 <= i < |placed| && placed[i] == m;
      assert more[i] == m && more[|placed|] == name;
    }
    forall l, n | 0 <= l < |after|
      ensures n in after[l] <==> n in more && order[n] == l
    {
      assert n in layers[l] <==> n in placed && order[n] == l;
    }
    forall l | 0 <= l < |after|
      ensures Sorted(after[l])
    {
      assert Sorted(layers[l]);
    }
  }

  method BuildLayers(names: seq<string>, order: map<string, int>) returns (layers: seq<seq<string>>)
    requires Sorted(names) && forall n :: n in names ==> n in order && 0 <= order[n]
    ensures Split(names, order, layers)
    ensures 0 < |layers| && (names != [] ==> exists n :: n in names && order[n] == |layers| - 1)
    ensures names == [] ==> layers == [[]]
  {
    var maxOrder := LargestOrder(names, order);
    layers := seq(maxOrder + 1, _ => []);
    for i := 0 to |names|
      invariant |layers| == maxOrder + 1 && (names == [] ==> layers == [[]])
      invariant Placed(names[..i], order, layers)
    {
      var name := names[i];
      assert names[..i + 1] == names[..i] + [name];
      PlaceNext(names[..i], name, order, layers);
      layers := layers[order[name] := layers[order[name]] + [name]];
    }
    assert names[..|names|] == names;
  }

  lemma SplitIsLayering(g: Graph, names: seq<string>, order: map<string, int>, layers: seq<seq<string>>)
    requires AllRanked(g, order) && order.Keys == g.Keys && (forall n :: n in names <==> n in g)
    requires Split(names, order, layers)
    requires names != [] ==> exists n :: n in names && order[n] == |layers| - 1
    ensures IsLayering(g, layers)
  {
    forall l, n | 0 <= l < |layers|
      ensures n in layers[l] <==> n in g && LongestChain(g, n, l)
    {
      if n in g { RankIsLongestChain(g, order, n); }
    }
    forall n | n in g
      ensures exists l :: 0 <= l < |layers| && n in layers[l]
    {
      assert n in layers[order[n]];
    }
    forall l | 0 <= l < |layers| && g.Keys != {}
      ensures layers[l] != []
    {
      var a :| a in g;
      assert a in names;
      var top :| top in names && order[top] == |layers| - 1;
      var m := EveryRankUsed(g, order, top, l);
      assert m in layers[l];
    }
  }

  /** Succeeds exactly for an acyclic graph in which every dependency has an entry, and then returns its layering. */
  method DependencyOrder(dependencies: Graph) returns (r: Result<seq<seq<string>>, SortError>)
    ensures r.Success? <==> !Cyclic(dependencies) && Closed(dependencies)
    ensures r.Success? ==> IsLayering(dependencies, r.value)
    ensures r.Success? && dependencies.Keys == {} ==> r.value == [[]]
    ensures r.Failure? ==> Justified(dependencies, r.error)
  {
    var keys := KeyList(dependencies);
    var names := SortStrings(keys);
    var search := new LayerSearch(dependencies);
    var failed := VisitAll(search, names);
    if failed.Some? {
      JustifiedRejects(dependencies, failed.value);
      return Failure(failed.value);
    }
    var layers := BuildLayers(names, search.order);
    if names != [] { assert names[0] in names; }
    AllRankedAtEnd(dependencies, search.order, names);
    RanksAcyclic(dependencies, search.order);
    SplitIsLayering(dependencies, names, search.order, layers);
    r := Success(layers);
  }

  lemma AllRankedAtEnd(g: Graph, order: map<string, int>, names: seq<string>)
    requires Search(g, order, []) && forall n :: n in names <==> n in g
    requires forall n :: n in names ==> n in order && 0 <= order[n]
    ensures AllRanked(g, order) && Closed(g)
  {
    forall n | n in order
      ensures Ranked(g, order, n)
    {
      assert n in names;
    }
    forall a, b | a in g && b in g[a]
      ensures b in g
    {
      assert Ranked(g, order, a);
    }
  }

  lemma JustifiedRejects(g: Graph, e: SortError)
    requires Justified(g, e)
    ensures Cyclic(g) || !Closed(g)
  {
  }

  method KeyList(g: Graph) returns (keys: seq<string>)
    ensures forall n :: n in keys <==> n in g
    ensures forall i, j :: 0 <= i < j < |keys| ==> keys[i] != keys[j]
  {
    keys := [];
    var rest := g.Keys;
    while rest != {}
      invariant rest <= g.Keys
      invariant forall n :: n in keys <==> n in g && n !in rest
      invariant forall i, j :: 0 <= i < j < |keys| ==> keys[i] != keys[j]
      decreases rest
    {
      var k :| k in rest;
      keys, rest := keys + [k], rest - {k};
    }
  }

  // ----- What a layering gives its users

  /** A dependency of a name in layer l is in a strictly earlier layer. */
  lemma DependencyIsEarlier(g: Graph, layers: seq<seq<string>>, l: nat, n: string, d: string) returns (k: nat)
    requires IsLayering(g, layers) && Closed(g) && l < |layers| && n in layers[l] && Edge(g, n, d)
    ensures k < l && d in layers[k]
  {
    assert d in g;
    k :| 0 <= k < |layers| && d in layers[k];
    assert LongestChain(g, d, k) && LongestChain(g, n, l);
    var p :| Chain(g, p, d) && |p| == k + 1;
    ChainExtends(g, p, n, d);
  }

  /** A name above layer 0 has a dependency in the layer just below it. */
  lemma LayerIsTight(g: Graph, layers: seq<seq<string>>, l: nat, n: string) returns (d: string)
    requires IsLayering(g, layers) && Closed(g) && 0 < l < |layers| && n in layers[l]
    ensures Edge(g, n, d) && d in layers[l - 1]
  {
    assert LongestChain(g, n, l);
    var p :| Chain(g, p, n) && |p| == l + 1;
    d := p[1];
    assert Edge(g, p[0], p[1]) && Chain(g, p[1..], d);
    forall q | Chain(g, q, d)
      ensures |q| <= l
    {
      ChainExtends(g, q, n, d);
    }
    assert LongestChain(g, d, l - 1);
  }

  /** No name is in two layers. */
  lemma LayersDisjoint(g: Graph, layers: seq<seq<string>>, l: nat, k: nat, n: string)
    requires IsLayering(g, layers) && l < |layers| && k < |layers| && n in layers[l] && n in layers[k]
    ensures l == k
  {
    assert LongestChain(g, n, l) && LongestChain(g, n, k);
    var p :| Chain(g, p, n) && |p| == l + 1;
    var q :| Chain(g, q, n) && |q| == k + 1;
  }

  lemma ChainExtends(g: Graph, p: seq<string>, n: string, d: string)
    requires Chain(g, p, d) && Edge(g, n, d)
    ensures Chain(g, [n] + p, n)
  {
  }
}
