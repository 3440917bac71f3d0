/** Sorting the roles of a group into start layers by their dependencies. */
module RoleSorting {
  import opened Wrappers
  import opened Graphs
  import opened RoleDependencies
  import opened StringOrder

  datatype Role = Role(name: string, dependencies: seq<string>)

  ghost predicate HasRole(roles: seq<Role>, name: string) {
    exists i :: 0 <= i < |roles| && roles[i].name == name
  }

  ghost predicate KnownDependencies(roles: seq<Role>) {
    forall i, d :: 0 <= i < |roles| && d in roles[i].dependencies ==> HasRole(roles, d)
  }

  /** The graph SortRoles builds: of several roles with one name the last one's dependencies count. */
  function LastGraph(roles: seq<Role>): (g: Graph) {
    if roles == [] then map[]
    else
      var last := roles[|roles| - 1];
      LastGraph(roles[..|roles| - 1])[last.name := last.dependencies]
  }

  lemma {:induction false} LastGraphEntries(roles: seq<Role>)
    ensures forall n :: n in LastGraph(roles) <==> HasRole(roles, n)
    ensures forall n :: n in LastGraph(roles) ==>
              exists i :: 0 <= i < |roles| && roles[i].name == n && roles[i].dependencies == LastGraph(roles)[n]
  {
    if roles != [] {
      var init, last := roles[..|roles| - 1], roles[|roles| - 1];
      LastGraphEntries(init);
      forall n
        ensures n in LastGraph(roles) <==> HasRole(roles, n)
      {
        if n in LastGraph(roles) && n != last.name {
          assert HasRole(init, n);
          var i :| 0 <= i < |init| && init[i].name == n;
          assert roles[i].name == n;
        }
        if HasRole(roles, n) && n != last.name {
          var i :| 0 <= i < |roles| && roles[i].name == n;
          assert init[i].name == n;
        }
      }
      forall n | n in LastGraph(roles)
        ensures exists i :: 0 <= i < |roles| && roles[i].name == n && roles[i].dependencies == LastGraph(roles)[n]
      {
        if n == last.name {
          assert roles[|roles| - 1].name == n;
        } else {
          var i :| 0 <= i < |init| && init[i].name == n && init[i].dependencies == LastGraph(init)[n];
          assert roles[i].name == n;
        }
      }
    }
  }

  lemma KnownIsClosed(roles: seq<Role>)
    requires KnownDependencies(roles)
    ensures Closed(LastGraph(roles))
  {
    LastGraphEntries(roles);
    var g := LastGraph(roles);
    forall a, b | a in g && b in g[a]
      ensures b in g
    {
      var i :| 0 <= i < |roles| && roles[i].name == a && roles[i].dependencies == g[a];
      assert HasRole(roles, b);
    }
  }

  predicate FirstNamed(roles: seq<Role>, i: nat, name: string) {
    i < |roles| && roles[i].name == name && forall j :: 0 <= j < i ==> roles[j].name != name
  }

  /** `sorted` holds, layer by layer, the position of the first role with each name. */
  ghost predicate RolesOfLayers(roles: seq<Role>, layers: seq<seq<string>>, sorted: seq<seq<nat>>) {
    && |sorted| == |layers|
    && forall l :: 0 <= l < |layers| ==> RolesOfLayer(roles, layers[l], sorted[l])
  }

  ghost predicate RolesOfLayer(roles: seq<Role>, names: seq<string>, positions: seq<nat>) {
    |positions| == |names| && forall k :: 0 <= k < |names| ==> FirstNamed(roles, positions[k], names[k])
  }

  /** Succeeds exactly when every dependency names a role and there is no dependency cycle; the roles then come
      in the layers of their longest dependency chains. */
  method SortRoles(roles: seq<Role>) returns (r: Result<seq<seq<nat>>, SortError>)
    ensures r.Success? <==> KnownDependencies(roles) && !Cyclic(LastGraph(roles))
    ensures r.Success? && roles == [] ==> r.value == []
    ensures r.Success? && roles != [] ==>
              exists layers :: IsLayering(LastGraph(roles), layers) && RolesOfLayers(roles, layers, r.value)
  {
    if |roles| == 0 {
      assert !Cyclic(LastGraph(roles)) by { RanksAcyclic(map[], map[]); }
      return Success([]);
    }
    var graph := DependencyGraph(roles);
    if graph.Failure? { return Failure(graph.error); }
    KnownIsClosed(roles);
    var ordered := DependencyOrder(graph.value);
    if ordered.Failure? { return Failure(ordered.error); }
    LastGraphEntries(roles);
    var sorted := RolesByLayer(roles, ordered.value);
    r := Success(sorted);
  }

  /** The graph of the roles' dependencies, unless one of them names no role. */
  method DependencyGraph(roles: seq<Role>) returns (r: Result<Graph, SortError>)
    ensures r.Success? <==> KnownDependencies(roles)
    ensures r.Success? ==> r.value == LastGraph(roles)
  {
    var roleDependency: Graph := map[];
    for i := 0 to |roles|
      invariant roleDependency == LastGraph(roles[..i])
      invariant forall j, d :: 0 <= j < i && d in roles[j].dependencies ==> HasRole(roles, d)
    {
      var missing := FirstUnknown(roles, i);
      if missing.Some? { return Failure(MissingDependency(roles[i].name, missing.value)); }
      roleDependency := roleDependency[roles[i].name := roles[i].dependencies];
      assert roles[..i + 1][..i] == roles[..i];
    }
    assert roles[..|roles|] == roles;
    r := Success(roleDependency);
  }

  method RolesByLayer(roles: seq<Role>, layers: seq<seq<string>>) returns (sorted: seq<seq<nat>>)
    requires forall l, n :: 0 <= l < |layers| && n in layers[l] ==> HasRole(roles, n)
    ensures RolesOfLayers(roles, layers, sorted)
  {
    sorted := [];
    for l := 0 to |layers|
      invariant |sorted| == l
      invariant forall k :: 0 <= k < l ==> RolesOfLayer(roles, layers[k], sorted[k])
    {
      var positions := PositionsOf(roles, layers[l]);
      sorted := sorted + [positions];
    }
  }

  method FirstUnknown(roles: seq<Role>, i: nat) returns (missing: Option<string>)
    requires i < |roles|
    ensures missing.None? <==> forall d :: d in roles[i].dependencies ==> HasRole(roles, d)
    ensures missing.Some? ==> missing.value in roles[i].dependencies && !HasRole(roles, missing.value)
  {
    var list := roles[i].dependencies;
    for j := 0 to |list|
      invariant forall k :: 0 <= k < j ==> HasRole(roles, list[k])
    {
      var found := false;
      for m := 0 to |roles|
        invariant found <==> exists k :: 0 <= k < m && roles[k].name == list[j]
      {
        if roles[m].name == list[j] { found := true; }
      }
      assert list[j] in roles[i].dependencies;
      if !found { return Some(list[j]); }
    }
    return None;
  }

  method PositionsOf(roles: seq<Role>, names: seq<string>) returns (positions: seq<nat>)
    requires forall n :: n in names ==> HasRole(roles, n)
    ensures RolesOfLayer(roles, names, positions)
  {
    positions := [];
    for k := 0 to |names|
      invariant |positions| == k
      invariant forall m :: 0 <= m < k ==> FirstNamed(roles, positions[m], names[m])
    {
      assert HasRole(roles, names[k]);
      var i := 0;
      while roles[i].name != names[k]
        decreases |roles| - i
        invariant 0 <= i < |roles| && forall j :: 0 <= j < i ==> roles[j].name != names[k]
        invariant exists j :: i <= j < |roles| && roles[j].name == names[k]
      {
        i := i + 1;
      }
      positions := positions + [i];
    }
  }

  // ----- What the layers mean for the roles

  predicate UniqueNames(roles: seq<Role>) {
    forall i, j :: 0 <= i < j < |roles| ==> roles[i].name != roles[j].name
  }

  /** Role i is at position k of layer l. */
  predicate At(sorted: seq<seq<nat>>, l: int, k: int, i: nat) {
    0 <= l < |sorted| && 0 <= k < |sorted[l]| && sorted[l][k] == i
  }

  lemma AtNamed(roles: seq<Role>, layers: seq<seq<string>>, sorted: seq<seq<nat>>, l: int, k: int, i: nat)
    requires RolesOfLayers(roles, layers, sorted) && At(sorted, l, k, i)
    ensures l < |layers| && k < |layers[l]| && i < |roles| && layers[l][k] == roles[i].name
  {
    assert RolesOfLayer(roles, layers[l], sorted[l]);
    assert FirstNamed(roles, sorted[l][k], layers[l][k]);
  }

  lemma SortedOnce(s: seq<string>, k: nat, h: nat)
    requires Sorted(s) && k < |s| && h < |s| && s[k] == s[h]
    ensures k == h
  {
    Trichotomy(s[k], s[h]);
  }

  lemma PlacedOnce(roles: seq<Role>, layers: seq<seq<string>>, sorted: seq<seq<nat>>, i: nat, l: int, k: int, m: int,
                   h: int)
    requires IsLayering(LastGraph(roles), layers) && RolesOfLayers(roles, layers, sorted)
    requires At(sorted, l, k, i) && At(sorted, m, h, i)
    ensures l == m && k == h
  {
    AtNamed(roles, layers, sorted, l, k, i);
    AtNamed(roles, layers, sorted, m, h, i);
    LayersDisjoint(LastGraph(roles), layers, l, m, roles[i].name);
    SortedOnce(layers[l], k, h);
  }

  lemma PlacedSomewhere(roles: seq<Role>, layers: seq<seq<string>>, sorted: seq<seq<nat>>, i: nat)
    returns (l: nat, k: nat)
    requires UniqueNames(roles) && i < |roles|
    requires IsLayering(LastGraph(roles), layers) && RolesOfLayers(roles, layers, sorted)
    ensures At(sorted, l, k, i)
  {
    LastGraphEntries(roles);
    assert HasRole(roles, roles[i].name);
    l :| 0 <= l < |layers| && roles[i].name in layers[l];
    k :| 0 <= k < |layers[l]| && layers[l][k] == roles[i].name;
    assert RolesOfLayer(roles, layers[l], sorted[l]);
    assert FirstNamed(roles, sorted[l][k], roles[i].name);
  }

  /** A role of unique name is sorted into one layer, once. */
  lemma EachRoleOnce(roles: seq<Role>, layers: seq<seq<string>>, sorted: seq<seq<nat>>, i: nat)
    requires UniqueNames(roles) && i < |roles|
    requires IsLayering(LastGraph(roles), layers) && RolesOfLayers(roles, layers, sorted)
    ensures exists l, k :: At(sorted, l, k, i)
    ensures forall l, k, m, h :: At(sorted, l, k, i) && At(sorted, m, h, i) ==> l == m && k == h
  {
    var l, k := PlacedSomewhere(roles, layers, sorted, i);
    forall l, k, m, h | At(sorted, l, k, i) && At(sorted, m, h, i)
      ensures l == m && k == h
    {
      PlacedOnce(roles, layers, sorted, i, l, k, m, h);
    }
  }

  lemma DependencyEdge(roles: seq<Role>, i: nat, d: string)
    requires UniqueNames(roles) && i < |roles| && d in roles[i].dependencies
    ensures Edge(LastGraph(roles), roles[i].name, d)
  {
    LastGraphEntries(roles);
    assert HasRole(roles, roles[i].name);
    var o :| 0 <= o < |roles| && roles[o].name == roles[i].name
             && roles[o].dependencies == LastGraph(roles)[roles[i].name];
    assert o == i;
  }

  /** A role comes in a later layer than every role it depends on. */
  lemma DependenciesStartFirst(roles: seq<Role>, layers: seq<seq<string>>, sorted: seq<seq<nat>>,
                               l: int, k: int, i: nat, m: int, h: int, j: nat)
    requires UniqueNames(roles) && KnownDependencies(roles)
    requires IsLayering(LastGraph(roles), layers) && RolesOfLayers(roles, layers, sorted)
    requires At(sorted, l, k, i) && At(sorted, m, h, j)
    requires i < |roles| && j < |roles| && roles[j].name in roles[i].dependencies
    ensures m < l
  {
    AtNamed(roles, layers, sorted, l, k, i);
    AtNamed(roles, layers, sorted, m, h, j);
    KnownIsClosed(roles);
    DependencyEdge(roles, i, roles[j].name);
    var d := DependencyIsEarlier(LastGraph(roles), layers, l, roles[i].name, roles[j].name);
    LayersDisjoint(LastGraph(roles), layers, d, m, roles[j].name);
  }
}
