/** Admission of role dependencies: self-dependencies, unknown roles and cycles, with the cycle as a witness. */
module RoleValidation {
  import opened Wrappers
  import opened Graphs
  import opened DepthFirst
  import opened RoleSorting

  datatype DependencyError =
    | SelfDependency(role: int, dependency: int)
    | UnknownDependency(role: int, dependency: int)
    | DependencyCycle(cycle: seq<string>)

  /** A reported cycle: it starts and ends at one role, follows dependencies, and repeats no other role. */
  predicate SimpleCycle(g: Graph, c: seq<string>) {
    Cycle(g, c) && Distinct(c[..|c| - 1])
  }

  // ----- The cycle search

  method AppendCycle(path: seq<string>, roleName: string) returns (cycle: seq<string>)
    ensures roleName !in path ==> cycle == path + [roleName]
    ensures roleName in path ==>
              exists k :: 0 <= k < |path| && path[k] == roleName && roleName !in path[..k]
                        && cycle == path[k..] + [roleName]
  {
    for i := 0 to |path|
      invariant roleName !in path[..i]
    {
      if path[i] == roleName { return path[i..] + [roleName]; }
      assert path[..i + 1] == path[..i] + [path[i]];
    }
    assert path[..|path|] == path;
    return path + [roleName];
  }

  class CycleSearch {
    const graph: Graph
    ghost const universe: set<string>
    var state: map<string, Color>
    ghost var finished: seq<string>

    constructor (graph: Graph, ghost universe: set<string>)
      ensures this.graph == graph && this.universe == universe && state == map[] && finished == []
    {
      this.graph, this.universe := graph, universe;
      state, finished := map[], [];
    }

    /** Returns the cycle the search runs into, if any. */
    method Visit(roleName: string, path: seq<string>) returns (cycle: Option<seq<string>>)
      requires Nodes(graph) <= universe && roleName in universe
      requires Search(graph, universe, state, path, finished)
      requires if path == [] then ColorIn(state, roleName) != Gray else Edge(graph, path[|path| - 1], roleName)
      modifies this
      ensures cycle.Some? ==> SimpleCycle(graph, cycle.value)
      ensures cycle.None? ==>
                && Search(graph, universe, state, path, finished)
                && roleName in finished && old(finished) <= finished
      ensures old(state).Keys <= state.Keys
      decreases universe - state.Keys, 1
    {
      var c := ColorIn(state, roleName);
      if c == Gray {
        ghost var closing := GreyDependency(graph, universe, state, path, finished, roleName);
        var reported := AppendCycle(path, roleName);
        SameCycle(path, roleName, closing, reported);
        return Some(reported);
      } else if c == Black {
        return None;
      }
      cycle := Explore(roleName, path);
    }

    method Explore(roleName: string, path: seq<string>) returns (cycle: Option<seq<string>>)
      requires Nodes(graph) <= universe && roleName in universe
      requires Search(graph, universe, state, path, finished) && ColorIn(state, roleName) == White
      requires path == [] || Edge(graph, path[|path| - 1], roleName)
      modifies this
      ensures cycle.Some? ==> SimpleCycle(graph, cycle.value)
      ensures cycle.None? ==>
                && Search(graph, universe, state, path, finished)
                && roleName in finished && old(finished) <= finished
      ensures old(state).Keys <= state.Keys
      decreases universe - state.Keys, 0
    {
      Enter(graph, universe, state, path, finished, roleName);
      assert roleName !in path;
      state := state[roleName := Gray];
      var extended := path + [roleName];
      var list := Deps(graph, roleName);
      for i := 0 to |list|
        invariant Search(graph, universe, state, extended, finished) && old(finished) <= finished
        invariant old(state).Keys + {roleName} <= state.Keys
        invariant forall j :: 0 <= j < i ==> list[j] in finished
      {
        assert Edge(graph, roleName, list[i]);
        EdgeInNodes(graph, roleName, list[i]);
        cycle := Visit(list[i], extended);
        if cycle.Some? { return; }
      }
      Leave(graph, universe, state, path, finished, roleName);
      state := state[roleName := Black];
      finished := finished + [roleName];
      return None;
    }
  }

  lemma SameCycle(path: seq<string>, roleName: string, closing: seq<string>, reported: seq<string>)
    requires Distinct(path)
    requires exists k :: 0 <= k < |path| && path[k] == roleName && closing == path[k..] + [roleName]
    requires exists k :: 0 <= k < |path| && path[k] == roleName && reported == path[k..] + [roleName]
    ensures closing == reported
  {
    var i :| 0 <= i < |path| && path[i] == roleName && closing == path[i..] + [roleName];
    var j :| 0 <= j < |path| && path[j] == roleName && reported == path[j..] + [roleName];
    assert i == j;
  }

  /** Reports a simple cycle of the graph or none; none means that there is no cycle at all, when the graph has
      entries only for the given roles. */
  method ValidateNoRoleDependencyCycle(roles: seq<Role>, graph: Graph) returns (cycle: Option<seq<string>>)
    ensures cycle.Some? ==> SimpleCycle(graph, cycle.value)
    ensures cycle.None? && (forall a :: a in graph ==> HasRole(roles, a)) ==> !Cyclic(graph)
  {
    ghost var names := set i | 0 <= i < |roles| :: roles[i].name;
    var search := new CycleSearch(graph, Nodes(graph) + names);
    for i := 0 to |roles|
      invariant fresh(search) && search.graph == graph && search.universe == Nodes(graph) + names
      invariant Search(graph, search.universe, search.state, [], search.finished)
      invariant forall j :: 0 <= j < i ==> roles[j].name in search.finished
    {
      if ColorIn(search.state, roles[i].name) == White {
        assert roles[i].name in names;
        cycle := search.Visit(roles[i].name, []);
        if cycle.Some? { return; }
      } else {
        assert ColorIn(search.state, roles[i].name) == Black;
      }
    }
    if forall a :: a in graph ==> HasRole(roles, a) {
      OrderedAcyclic(graph, search.finished);
    }
    return None;
  }

  // ----- All dependency errors of a list of roles

  /** Some role named `a` lists `b` as a dependency. */
  ghost predicate RoleEdge(roles: seq<Role>, a: string, b: string) {
    exists i :: 0 <= i < |roles| && roles[i].name == a && b in roles[i].dependencies
  }

  ghost predicate RoleCycle(roles: seq<Role>, c: seq<string>) {
    2 <= |c| && c[0] == c[|c| - 1] && forall i :: 0 < i < |c| ==> RoleEdge(roles, c[i - 1], c[i])
  }

  /** A circle of dependencies that are neither self-dependencies nor unknown. */
  ghost predicate PlainCycle(roles: seq<Role>, c: seq<string>) {
    && RoleCycle(roles, c)
    && forall i :: 0 < i < |c| ==> c[i - 1] != c[i] && HasRole(roles, c[i])
  }

  /** The roles depend on each other in a circle; a role that names itself counts. */
  ghost predicate RolesCyclic(roles: seq<Role>) {
    exists c :: RoleCycle(roles, c)
  }

  /** The dependency at position j of role i exists. */
  predicate IsDependency(roles: seq<Role>, i: int, j: int) {
    0 <= i < |roles| && 0 <= j < |roles[i].dependencies|
  }

  predicate IsSelf(roles: seq<Role>, i: int, j: int) {
    IsDependency(roles, i, j) && roles[i].dependencies[j] == roles[i].name
  }

  ghost predicate IsUnknown(roles: seq<Role>, i: int, j: int) {
    IsDependency(roles, i, j) && !IsSelf(roles, i, j) && !HasRole(roles, roles[i].dependencies[j])
  }

  /** The first `i` roles and the first `j` dependencies of the next one. */
  predicate Before(i: int, j: int, a: int, b: int) {
    a < i || (a == i && b < j)
  }

  ghost predicate ErrorsSoFar(roles: seq<Role>, i: nat, j: nat, errs: seq<DependencyError>) {
    && (forall a, b :: SelfDependency(a, b) in errs <==> IsSelf(roles, a, b) && Before(i, j, a, b))
    && (forall a, b :: UnknownDependency(a, b) in errs <==> IsUnknown(roles, a, b) && Before(i, j, a, b))
    && (forall c :: DependencyCycle(c) !in errs)
  }

  /** A dependency that is neither a self-dependency nor unknown. */
  ghost predicate IsPlain(roles: seq<Role>, i: int, j: int) {
    IsDependency(roles, i, j) && !IsSelf(roles, i, j) && !IsUnknown(roles, i, j)
  }

  ghost predicate GraphSoFar(roles: seq<Role>, i: nat, j: nat, g: Graph) {
    forall a, b :: Edge(g, a, b) <==>
      exists m, n :: IsPlain(roles, m, n) && Before(i, j, m, n) && roles[m].name == a && roles[m].dependencies[n] == b
  }

  lemma NextDependency(roles: seq<Role>, i: nat, j: nat, errs: seq<DependencyError>, g: Graph)
    requires IsDependency(roles, i, j) && ErrorsSoFar(roles, i, j, errs) && GraphSoFar(roles, i, j, g)
    ensures IsSelf(roles, i, j) ==>
              ErrorsSoFar(roles, i, j + 1, errs + [SelfDependency(i, j)]) && GraphSoFar(roles, i, j + 1, g)
    ensures IsUnknown(roles, i, j) ==>
              ErrorsSoFar(roles, i, j + 1, errs + [UnknownDependency(i, j)]) && GraphSoFar(roles, i, j + 1, g)
    ensures IsPlain(roles, i, j) ==> ErrorsSoFar(roles, i, j + 1, errs)
  {
    forall a: int, b: int
      ensures Before(i, j + 1, a, b) <==> Before(i, j, a, b) || (a == i && b == j)
    {
    }
  }

  lemma NextEdge(roles: seq<Role>, i: nat, j: nat, g: Graph, after: Graph)
    requires IsPlain(roles, i, j) && GraphSoFar(roles, i, j, g)
    requires var a := roles[i].name; after == g[a := Deps(g, a) + [roles[i].dependencies[j]]]
    ensures GraphSoFar(roles, i, j + 1, after)
  {
    forall a, b
      ensures Edge(after, a, b) <==>
              exists m, n :: IsPlain(roles, m, n) && Before(i, j + 1, m, n) && roles[m].name == a
                             && roles[m].dependencies[n] == b
    {
      assert Edge(after, a, b) <==> Edge(g, a, b) || (a == roles[i].name && b == roles[i].dependencies[j]);
      if Edge(g, a, b) {
        var m, n :| IsPlain(roles, m, n) && Before(i, j, m, n) && roles[m].name == a && roles[m].dependencies[n] == b;
        assert Before(i, j + 1, m, n);
      } else if a == roles[i].name && b == roles[i].dependencies[j] {
        assert Before(i, j + 1, i, j);
      }
    }
  }

  /** Reports every self-dependency and every unknown dependency by position, and a cycle if the remaining
      dependencies have one. There is nothing to report exactly when every dependency names a role and the
      roles do not depend on each other in a circle. */
  method ValidateRoleDependencies(roles: seq<Role>) returns (errs: seq<DependencyError>)
    ensures forall i, j :: SelfDependency(i, j) in errs <==> IsSelf(roles, i, j)
    ensures forall i, j :: UnknownDependency(i, j) in errs <==> IsUnknown(roles, i, j)
    ensures forall c :: DependencyCycle(c) in errs ==> RoleCycle(roles, c) && Distinct(c[..|c| - 1])
    ensures (exists c :: DependencyCycle(c) in errs) <==> exists c :: PlainCycle(roles, c)
    ensures errs == [] <==> KnownDependencies(roles) && !RolesCyclic(roles)
  {
    var graph: Graph;
    errs, graph := CollectDependencies(roles);
    PositionalErrors(roles, errs);
    GraphOfRoles(roles, graph);
    NothingToReport(roles, errs, graph);
    var cycle := ValidateNoRoleDependencyCycle(roles, graph);
    if cycle.Some? {
      CycleOfRoles(roles, graph, cycle.value);
      errs := errs + [DependencyCycle(cycle.value)];
      assert DependencyCycle(cycle.value) in errs;
    }
    PlainCyclesOfGraph(roles, graph);
  }

  lemma PlainCyclesOfGraph(roles: seq<Role>, g: Graph)
    requires forall a, b :: Edge(g, a, b) <==> RoleEdge(roles, a, b) && a != b && HasRole(roles, b)
    ensures Cyclic(g) <==> exists c :: PlainCycle(roles, c)
  {
    forall c
      ensures Cycle(g, c) <==> PlainCycle(roles, c)
    {
      if PlainCycle(roles, c) {
        forall i | 0 < i < |c|
          ensures Edge(g, c[i - 1], c[i])
        {
          assert RoleEdge(roles, c[i - 1], c[i]);
        }
      }
      if Cycle(g, c) {
        CycleOfRoles(roles, g, c);
        forall i | 0 < i < |c|
          ensures c[i - 1] != c[i] && HasRole(roles, c[i])
        {
          assert Edge(g, c[i - 1], c[i]);
        }
      }
    }
  }

  lemma PositionalErrors(roles: seq<Role>, errs: seq<DependencyError>)
    requires ErrorsSoFar(roles, |roles|, 0, errs)
    ensures forall i, j :: SelfDependency(i, j) in errs <==> IsSelf(roles, i, j)
    ensures forall i, j :: UnknownDependency(i, j) in errs <==> IsUnknown(roles, i, j)
    ensures forall c :: DependencyCycle(c) !in errs
  {
    forall i, j
      ensures IsDependency(roles, i, j) ==> Before(|roles|, 0, i, j)
    {
    }
  }

  method CollectDependencies(roles: seq<Role>) returns (errs: seq<DependencyError>, graph: Graph)
    ensures ErrorsSoFar(roles, |roles|, 0, errs) && GraphSoFar(roles, |roles|, 0, graph)
    ensures forall a :: a in graph ==> HasRole(roles, a)
  {
    var roleNames := set i | 0 <= i < |roles| :: roles[i].name;
    errs, graph := [], map[];
    for i := 0 to |roles|
      invariant ErrorsSoFar(roles, i, 0, errs) && GraphSoFar(roles, i, 0, graph)
      invariant forall a :: a in graph ==> HasRole(roles, a)
    {
      var role := roles[i];
      for j := 0 to |role.dependencies|
        invariant ErrorsSoFar(roles, i, j, errs) && GraphSoFar(roles, i, j, graph)
        invariant forall a :: a in graph ==> HasRole(roles, a)
      {
        var dependency := role.dependencies[j];
        NextDependency(roles, i, j, errs, graph);
        assert dependency in roleNames <==> HasRole(roles, dependency);
        if dependency == role.name {
          errs := errs + [SelfDependency(i, j)];
        } else if dependency !in roleNames {
          errs := errs + [UnknownDependency(i, j)];
        } else {
          var after := graph[role.name := Deps(graph, role.name) + [dependency]];
          NextEdge(roles, i, j, graph, after);
          graph := after;
        }
      }
      NextRole(roles, i, errs, graph);
    }
  }

  lemma NextRole(roles: seq<Role>, i: nat, errs: seq<DependencyError>, g: Graph)
    requires i < |roles|
    requires ErrorsSoFar(roles, i, |roles[i].dependencies|, errs) && GraphSoFar(roles, i, |roles[i].dependencies|, g)
    ensures ErrorsSoFar(roles, i + 1, 0, errs) && GraphSoFar(roles, i + 1, 0, g)
  {
    assert forall a, b :: IsDependency(roles, a, b) ==>
        (Before(i + 1, 0, a, b) <==> Before(i, |roles[i].dependencies|, a, b));
  }

  /** The collected graph has the dependencies that are neither self-dependencies nor unknown. */
  lemma GraphOfRoles(roles: seq<Role>, g: Graph)
    requires GraphSoFar(roles, |roles|, 0, g)
    ensures forall a, b :: Edge(g, a, b) <==> RoleEdge(roles, a, b) && a != b && HasRole(roles, b)
  {
    forall a, b
      ensures Edge(g, a, b) <==> RoleEdge(roles, a, b) && a != b && HasRole(roles, b)
    {
      if Edge(g, a, b) {
        var m, n :| IsPlain(roles, m, n) && Before(|roles|, 0, m, n) && roles[m].name == a
                    && roles[m].dependencies[n] == b;
      }
      if RoleEdge(roles, a, b) && a != b && HasRole(roles, b) {
        var m :| 0 <= m < |roles| && roles[m].name == a && b in roles[m].dependencies;
        var n :| 0 <= n < |roles[m].dependencies| && roles[m].dependencies[n] == b;
        assert IsPlain(roles, m, n) && Before(|roles|, 0, m, n);
      }
    }
  }

  lemma CycleOfRoles(roles: seq<Role>, g: Graph, c: seq<string>)
    requires forall a, b :: Edge(g, a, b) ==> RoleEdge(roles, a, b)
    requires Cycle(g, c)
    ensures RoleCycle(roles, c)
  {
  }

  lemma NoErrorMeansNone(roles: seq<Role>, errs: seq<DependencyError>)
    requires ErrorsSoFar(roles, |roles|, 0, errs)
    ensures errs == [] <==> (forall i, j :: !IsSelf(roles, i, j)) && (forall i, j :: !IsUnknown(roles, i, j))
  {
    if errs != [] {
      var e := errs[0];
      assert e in errs;
      match e {
        case SelfDependency(i, j) => assert IsSelf(roles, i, j);
        case UnknownDependency(i, j) => assert IsUnknown(roles, i, j);
        case DependencyCycle(c) => assert false;
      }
    } else {
      forall i, j
        ensures !IsSelf(roles, i, j) && !IsUnknown(roles, i, j)
      {
        assert SelfDependency(i, j) !in errs && UnknownDependency(i, j) !in errs;
        assert IsDependency(roles, i, j) ==> Before(|roles|, 0, i, j);
      }
    }
  }

  /** With positional errors `errs` and collected graph `g`: nothing is wrong exactly when every dependency names
      a role and the roles are not circular. */
  lemma NothingToReport(roles: seq<Role>, errs: seq<DependencyError>, g: Graph)
    requires ErrorsSoFar(roles, |roles|, 0, errs)
    requires forall a, b :: Edge(g, a, b) <==> RoleEdge(roles, a, b) && a != b && HasRole(roles, b)
    ensures errs == [] && !Cyclic(g) <==> KnownDependencies(roles) && !RolesCyclic(roles)
  {
    NoErrorMeansNone(roles, errs);
    if errs == [] && !Cyclic(g) {
      PlainRolesKnown(roles);
      if RolesCyclic(roles) {
        var c :| RoleCycle(roles, c);
        forall i | 0 < i < |c|
          ensures Edge(g, c[i - 1], c[i])
        {
          assert RoleEdge(roles, c[i - 1], c[i]);
          PlainEdge(roles, c[i - 1], c[i]);
        }
        assert Cycle(g, c);
      }
    }
    if KnownDependencies(roles) && !RolesCyclic(roles) {
      forall i, j
        ensures !IsSelf(roles, i, j) && !IsUnknown(roles, i, j)
      {
        if IsSelf(roles, i, j) {
          var a := roles[i].name;
          assert roles[i].dependencies[j] in roles[i].dependencies;
          assert RoleEdge(roles, a, a);
          assert RoleCycle(roles, [a, a]);
        }
        if IsDependency(roles, i, j) { assert roles[i].dependencies[j] in roles[i].dependencies; }
      }
      if Cyclic(g) {
        var c :| Cycle(g, c);
        CycleOfRoles(roles, g, c);
      }
    }
  }

  lemma PlainRolesKnown(roles: seq<Role>)
    requires forall i, j :: !IsSelf(roles, i, j) && !IsUnknown(roles, i, j)
    ensures KnownDependencies(roles)
  {
    forall i, d | 0 <= i < |roles| && d in roles[i].dependencies
      ensures HasRole(roles, d)
    {
      var j :| 0 <= j < |roles[i].dependencies| && roles[i].dependencies[j] == d;
      assert IsDependency(roles, i, j);
      assert !IsSelf(roles, i, j) && !IsUnknown(roles, i, j);
    }
  }

  lemma PlainEdge(roles: seq<Role>, a: string, b: string)
    requires forall i, j :: !IsSelf(roles, i, j) && !IsUnknown(roles, i, j)
    requires RoleEdge(roles, a, b)
    ensures a != b && HasRole(roles, b)
  {
    PlainRolesKnown(roles);
    var i :| 0 <= i < |roles| && roles[i].name == a && b in roles[i].dependencies;
    var j :| 0 <= j < |roles[i].dependencies| && roles[i].dependencies[j] == b;
    assert !IsSelf(roles, i, j);
  }

  // ----- Admission and the controller agree

  /** What admission accepts (see ValidateRoleDependencies). */
  ghost predicate AdmissionAccepts(roles: seq<Role>) {
    KnownDependencies(roles) && !RolesCyclic(roles)
  }

  /** What the controller can sort (see SortRoles). */
  ghost predicate Sortable(roles: seq<Role>) {
    KnownDependencies(roles) && !Cyclic(LastGraph(roles))
  }

  /** Whatever admission accepts, the controller sorts. */
  lemma AdmittedRolesSort(roles: seq<Role>)
    requires AdmissionAccepts(roles)
    ensures Sortable(roles)
  {
    LastGraphEntries(roles);
    if Cyclic(LastGraph(roles)) {
      var c :| Cycle(LastGraph(roles), c);
      forall a, b | Edge(LastGraph(roles), a, b)
        ensures RoleEdge(roles, a, b)
      {
      }
      CycleOfRoles(roles, LastGraph(roles), c);
    }
  }

  /** For uniquely named roles the two depth-first searches accept exactly the same groups. */
  lemma AdmissionAgreesWithSort(roles: seq<Role>)
    requires UniqueNames(roles)
    ensures AdmissionAccepts(roles) <==> Sortable(roles)
  {
    if AdmissionAccepts(roles) { AdmittedRolesSort(roles); }
    if Sortable(roles) && RolesCyclic(roles) {
      var c :| RoleCycle(roles, c);
      forall i | 0 < i < |c|
        ensures Edge(LastGraph(roles), c[i - 1], c[i])
      {
        assert RoleEdge(roles, c[i - 1], c[i]);
        UniqueRoleEdge(roles, c[i - 1], c[i]);
      }
      assert Cycle(LastGraph(roles), c);
    }
  }

  lemma UniqueRoleEdge(roles: seq<Role>, a: string, b: string)
    requires UniqueNames(roles) && RoleEdge(roles, a, b)
    ensures Edge(LastGraph(roles), a, b)
  {
    var i :| 0 <= i < |roles| && roles[i].name == a && b in roles[i].dependencies;
    DependencyEdge(roles, i, b);
  }

  /** Three roles, the first and the last of one name. */
  const REPEATED := [Role("a", ["b"]), Role("b", ["a"]), Role("a", [])]

  /** With a repeated name they can differ: the controller only sees the last role of that name. */
  lemma RepeatedNamesDisagree()
    ensures !UniqueNames(REPEATED) && Sortable(REPEATED) && !AdmissionAccepts(REPEATED)
  {
    var roles := REPEATED;
    RepeatedNamesGraph();
    OrderedAcyclic(LastGraph(roles), ["a", "b"]);
    assert roles[0].name == "a" && roles[1].name == "b" && roles[2].name == "a";
    assert RoleEdge(roles, "a", "b") && RoleEdge(roles, "b", "a");
    assert RoleCycle(roles, ["a", "b", "a"]);
  }

  lemma RepeatedNamesGraph()
    ensures LastGraph(REPEATED) == map["a" := [], "b" := ["a"]]
    ensures Ordered(LastGraph(REPEATED), ["a", "b"])
  {
    var roles := REPEATED;
    var two, one := roles[..2], roles[..1];
    assert two[..1] == one && one[..0] == [];
    assert LastGraph(one) == map["a" := ["b"]];
    assert LastGraph(two) == map["a" := ["b"], "b" := ["a"]];
    assert ["a", "b"][..1] == ["a"];
  }
}
