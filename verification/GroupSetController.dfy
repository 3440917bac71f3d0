/** The reconcile loop of the RoleBasedGroupSet controller over a cluster of groups. */
module GroupSetController {
  import opened Wrappers
  import opened Decimal
  import opened GroupSetModel
  import opened GroupSetConvergence

  /** The groups of one namespace by name; every create, update and delete that takes effect counts as a write. */
  class Cluster {
    var groups: Groups
    var writes: nat

    constructor (groups: Groups)
      ensures this.groups == groups && writes == 0
    {
      this.groups, writes := groups, 0;
    }

    /** The groups carrying the set's name label, in any order. */
    method List(setName: string) returns (items: seq<string>)
      ensures forall n :: n in items <==>
                n in groups && NAME_KEY in groups[n].labels && groups[n].labels[NAME_KEY] == setName
      ensures forall i, j :: 0 <= i < j < |items| ==> items[i] != items[j]
    {
      items := [];
      var rest := set n | n in groups && NAME_KEY in groups[n].labels && groups[n].labels[NAME_KEY] == setName;
      while rest != {}
        invariant forall n :: n in items || n in rest <==>
                  n in groups && NAME_KEY in groups[n].labels && groups[n].labels[NAME_KEY] == setName
        invariant forall n :: n in rest ==> n !in items
        invariant forall i, j :: 0 <= i < j < |items| ==> items[i] != items[j]
        decreases rest
      {
        var n :| n in rest;
        items, rest := items + [n], rest - {n};
      }
    }

    method Put(name: string, g: Group)
      modifies this
      ensures groups == old(groups)[name := g] && writes == old(writes) + 1
    {
      groups, writes := groups[name := g], writes + 1;
    }

    method Delete(name: string)
      modifies this
      ensures groups == old(groups) - {name}
      ensures writes == if name in old(groups) then old(writes) + 1 else old(writes)
    {
      if name in groups { groups, writes := groups - {name}, writes + 1; }
    }
  }

  function IsOwnedOrAdoptable(s: GroupSet, g: Group): (r: bool)
    ensures NAME_KEY in g.labels && g.labels[NAME_KEY] == s.name ==> (r <==> Manageable(s, g))
  {
    match g.controller
    case None => Get(g.labels, NAME_KEY) == s.name
    case Some(uid) => uid == s.uid
  }

  /** The groups the set owns or may adopt, in their order. */
  function OwnedItems(s: GroupSet, items: seq<Group>): seq<Group> {
    if items == [] then []
    else
      var init, last := OwnedItems(s, items[..|items| - 1]), items[|items| - 1];
      if IsOwnedOrAdoptable(s, last) then init + [last] else init
  }

  /** The list is filtered part by part, and one group stays exactly when the set controls it, or nobody does and it
      carries the set's name. */
  lemma {:induction false} OwnedInOrder(s: GroupSet, a: seq<Group>, b: seq<Group>)
    ensures OwnedItems(s, a + b) == OwnedItems(s, a) + OwnedItems(s, b)
    ensures |a| == 1 ==>
              var own := a[0].controller == Some(s.uid)
                         || (a[0].controller == None && Get(a[0].labels, NAME_KEY) == s.name);
              OwnedItems(s, a) == if own then a else []
    decreases |b|
  {
    if b == [] {
      assert a + b == a;
    } else {
      OwnedInOrder(s, a, b[..|b| - 1]);
      assert (a + b)[..|a + b| - 1] == a + b[..|b| - 1];
    }
    if |a| == 1 { assert OwnedItems(s, a[..0]) == [] && a == [a[0]]; }
  }

  /** Compacts the list in place; its first `n` places are the new list. */
  method FilterOwnedItems(s: GroupSet, a: array<Group>) returns (n: nat)
    modifies a
    ensures n <= a.Length && a[..n] == OwnedItems(s, old(a[..]))
  {
    n := 0;
    ghost var was := a[..];
    for i := 0 to a.Length
      invariant n <= i && a[i..] == was[i..]
      invariant a[..n] == OwnedItems(s, was[..i])
    {
      assert was[..i + 1][..i] == was[..i];
      assert a[i] == a[i..][0] == was[i];
      if IsOwnedOrAdoptable(s, a[i]) {
        a[n] := a[i];
        n := n + 1;
      }
      assert a[i + 1..] == was[i + 1..] by {
        forall k | i + 1 <= k < a.Length
          ensures a[k] == was[k]
        {
          assert a[k] == was[i..][k - i];
        }
      }
    }
    assert was[..a.Length] == was;
  }

  /** The children found, by index, and those without a readable index. */
  ghost predicate Classified(s: GroupSet, G: Groups, items: seq<string>, existing: map<int, string>,
                             unreadable: seq<string>) {
    && (forall n :: n in items ==> n in G)
    && (forall i :: i in existing ==>
          existing[i] in items && Manageable(s, G[existing[i]]) && IndexOf(G[existing[i]]) == Some(i))
    && (forall n :: n in items && Manageable(s, G[n]) && IndexOf(G[n]).Some? ==> IndexOf(G[n]).value in existing)
    && (forall n :: n in unreadable <==> n in items && Manageable(s, G[n]) && IndexOf(G[n]).None?)
  }

  ghost predicate AdoptedAmong(s: GroupSet, before: Groups, after: Groups, items: seq<string>) {
    && after.Keys == before.Keys
    && forall n :: n in before ==> after[n] == if n in items then Adopted(s, before[n]) else before[n]
  }

  lemma ClassifyNext(s: GroupSet, G: Groups, items: seq<string>, n: string, existing: map<int, string>,
                     unreadable: seq<string>)
    requires Classified(s, G, items, existing, unreadable) && n in G && n !in items
    ensures !Manageable(s, G[n]) ==> Classified(s, G, items + [n], existing, unreadable)
    ensures Manageable(s, G[n]) && IndexOf(G[n]).None? ==> Classified(s, G, items + [n], existing, unreadable + [n])
    ensures Manageable(s, G[n]) && IndexOf(G[n]).Some? ==>
              Classified(s, G, items + [n], existing[IndexOf(G[n]).value := n], unreadable)
  {
  }

  /** Sorts the listed children by index, adopting orphans on the way. */
  method Classify(s: GroupSet, c: Cluster, items: seq<string>)
    returns (existing: map<int, string>, unreadable: seq<string>)
    requires forall n :: n in items ==>
               n in c.groups && NAME_KEY in c.groups[n].labels && c.groups[n].labels[NAME_KEY] == s.name
    requires forall i, j :: 0 <= i < j < |items| ==> items[i] != items[j]
    modifies c
    ensures AdoptedAmong(s, old(c.groups), c.groups, items)
    ensures Classified(s, old(c.groups), items, existing, unreadable)
    ensures (forall n :: n in old(c.groups) ==> Adopted(s, old(c.groups)[n]) == old(c.groups)[n]) ==>
            c.writes == old(c.writes)
  {
    existing, unreadable := map[], [];
    ghost var G := c.groups;
    for k := 0 to |items|
      invariant AdoptedAmong(s, G, c.groups, items[..k])
      invariant Classified(s, G, items[..k], existing, unreadable)
      invariant (forall n :: n in G ==> Adopted(s, G[n]) == G[n]) ==> c.writes == old(c.writes)
    {
      var n := items[k];
      assert items[..k + 1] == items[..k] + [n] && n !in items[..k];
      var g := c.groups[n];
      assert g == G[n];
      ClassifyNext(s, G, items[..k], n, existing, unreadable);
      if IsOwnedOrAdoptable(s, g) {
        var index := IndexOf(g);
        if index.None? {
          unreadable := unreadable + [n];
        } else {
          if g.controller.None? { c.Put(n, g.(controller := Some(s.uid))); }
          existing := existing[index.value := n];
        }
      }
    }
    assert items[..|items|] == items;
  }

  method ScaleDown(c: Cluster, names: seq<string>)
    modifies c
    ensures c.groups == old(c.groups) - (set n | n in names)
    ensures names == [] ==> c.writes == old(c.writes)
  {
    for k := 0 to |names|
      invariant c.groups == old(c.groups) - (set n | n in names[..k])
      invariant k == 0 ==> c.writes == old(c.writes)
    {
      c.Delete(names[k]);
      assert names[..k + 1] == names[..k] + [names[k]];
    }
    assert names[..|names|] == names;
  }

  method UpdateExisting(s: GroupSet, c: Cluster, names: seq<string>)
    requires forall n :: n in names ==> n in c.groups
    modifies c
    ensures c.groups == map n | n in old(c.groups) :: if n in names then Sync(s, old(c.groups)[n]) else old(c.groups)[n]
    ensures names == [] ==> c.writes == old(c.writes)
  {
    for k := 0 to |names|
      invariant c.groups == map n | n in old(c.groups) ::
                  if n in names[..k] then Sync(s, old(c.groups)[n]) else old(c.groups)[n]
      invariant k == 0 ==> c.writes == old(c.writes)
    {
      var latest := c.groups[names[k]];
      assert Sync(s, Sync(s, old(c.groups)[names[k]])) == Sync(s, old(c.groups)[names[k]]) by {
        assert |NAME_KEY| != |INDEX_KEY|;
      }
      assert names[..k + 1] == names[..k] + [names[k]];
      c.Put(names[k], Sync(s, latest));
    }
    assert names[..|names|] == names;
  }

  /** Creates the children of the given indices, skipping names that are already taken. */
  method ScaleUp(s: GroupSet, c: Cluster, indices: seq<nat>)
    modifies c
    ensures forall n :: n in old(c.groups) ==> n in c.groups && c.groups[n] == old(c.groups)[n]
    ensures forall i :: i in indices && ChildName(s, i) !in old(c.groups) ==>
              ChildName(s, i) in c.groups && c.groups[ChildName(s, i)] == NewChild(s, i)
    ensures forall n :: n in c.groups && n !in old(c.groups) ==> exists i :: i in indices && n == ChildName(s, i)
    ensures indices == [] ==> c.writes == old(c.writes)
  {
    for k := 0 to |indices|
      invariant forall n :: n in old(c.groups) ==> n in c.groups && c.groups[n] == old(c.groups)[n]
      invariant forall j :: 0 <= j < k && ChildName(s, indices[j]) !in old(c.groups) ==>
                  ChildName(s, indices[j]) in c.groups && c.groups[ChildName(s, indices[j])] == NewChild(s, indices[j])
      invariant forall n :: n in c.groups && n !in old(c.groups) ==>
                exists j :: 0 <= j < k && n == ChildName(s, indices[j])
      invariant k == 0 ==> c.writes == old(c.writes)
    {
      var name := ChildName(s, indices[k]);
      forall j | 0 <= j < k && ChildName(s, indices[j]) == name
        ensures indices[j] == indices[k]
      {
        ChildNameInjective(s, indices[j], indices[k]);
      }
      if name !in c.groups { c.Put(name, NewChild(s, indices[k])); }
    }
  }

  /** The indices below the set's size without a child. */
  method MissingIndices(s: GroupSet, existing: map<int, string>) returns (missing: seq<nat>)
    ensures forall i :: i in missing <==> 0 <= i < s.replicas && i !in existing
  {
    missing := [];
    for i := 0 to s.replicas
      invariant forall j :: j in missing <==> 0 <= j < i && j !in existing
    {
      if i !in existing { missing := missing + [i]; }
    }
  }

  ghost predicate IsSurplus(s: GroupSet, existing: map<int, string>, n: string) {
    exists i :: i in existing && s.replicas <= i && existing[i] == n
  }

  ghost predicate IsExisting(existing: map<int, string>, n: string) {
    exists i :: i in existing && existing[i] == n
  }

  /** The children whose index is beyond the set's size. */
  method Surplus(s: GroupSet, existing: map<int, string>) returns (names: seq<string>)
    ensures forall n :: n in names <==> IsSurplus(s, existing, n)
  {
    names := [];
    var rest := existing.Items;
    while rest != {}
      invariant rest <= existing.Items
      invariant forall n :: n in names <==> exists p :: p in existing.Items - rest && s.replicas <= p.0 && p.1 == n
      decreases rest
    {
      var p :| p in rest;
      if s.replicas <= p.0 { names := names + [p.1]; }
      rest := rest - {p};
    }
    ItemsOf(existing);
  }

  lemma ItemOf(existing: map<int, string>, p: (int, string))
    requires p in existing.Items
    ensures p.0 in existing && existing[p.0] == p.1
  {
  }

  lemma ItemsOf(existing: map<int, string>)
    ensures forall i :: i in existing ==> (i, existing[i]) in existing.Items
    ensures forall p :: p in existing.Items ==> p.0 in existing && existing[p.0] == p.1
  {
  }

  lemma ItemExists(existing: map<int, string>, p: (int, string))
    requires p in existing.Items
    ensures IsExisting(existing, p.1)
  {
    ItemOf(existing, p);
    IndexExists(existing, p.0);
  }

  lemma IndexExists(existing: map<int, string>, i: int)
    requires i in existing
    ensures IsExisting(existing, existing[i])
  {
  }

  /** The children that stay and differ from the template. */
  method Outdated(s: GroupSet, c: Cluster, existing: map<int, string>, deleted: seq<string>)
    returns (names: seq<string>)
    requires forall i :: i in existing && existing[i] !in deleted ==> existing[i] in c.groups
    ensures forall n :: n in names <==> n !in deleted && IsExisting(existing, n) && NeedsUpdate(s, c.groups[n])
  {
    names := [];
    var rest := existing.Items;
    while rest != {}
      invariant rest <= existing.Items
      invariant forall n :: n in names <==>
                  && n !in deleted && n in c.groups && NeedsUpdate(s, c.groups[n])
                  && exists p :: p in existing.Items - rest && p.1 == n
      decreases rest
    {
      var p :| p in rest;
      ItemOf(existing, p);
      var index, name := p.0, p.1;
      assert index in existing && existing[index] == name;
      if name !in deleted && NeedsUpdate(s, c.groups[name]) { names := names + [name]; }
      rest := rest - {p};
    }
    ItemsOf(existing);
    forall p | p in existing.Items
      ensures IsExisting(existing, p.1)
    {
      ItemExists(existing, p);
    }
  }

  // ----- The phases put together

  ghost predicate Listed(s: GroupSet, G: Groups, items: seq<string>) {
    forall n :: n in items <==> n in G && NAME_KEY in G[n].labels && G[n].labels[NAME_KEY] == s.name
  }

  lemma AllAdopted(s: GroupSet, G: Groups, after: Groups, items: seq<string>)
    requires Listed(s, G, items) && AdoptedAmong(s, G, after, items)
    ensures after.Keys == G.Keys && forall n :: n in G ==> after[n] == Adopted(s, G[n])
  {
  }

  /** On any cluster only doomed children are deleted, and on a coherent one all of them. */
  lemma DeletedAreDoomed(s: GroupSet, G: Groups, items: seq<string>, existing: map<int, string>,
                         unreadable: seq<string>, n: string)
    requires Listed(s, G, items) && Classified(s, G, items, existing, unreadable)
    ensures n in unreadable || IsSurplus(s, existing, n) ==> n in G && Doomed(s, G[n])
    ensures Coherent(s, G) && n in G && Doomed(s, G[n]) ==> n in unreadable || IsSurplus(s, existing, n)
  {
    if Coherent(s, G) && n in G && Doomed(s, G[n]) && IndexOf(G[n]).Some? {
      ExistingByIndex(s, G, items, existing, unreadable, n);
    }
  }

  lemma ExistingByIndex(s: GroupSet, G: Groups, items: seq<string>, existing: map<int, string>, unreadable: seq<string>,
                        n: string)
    requires Listed(s, G, items) && Classified(s, G, items, existing, unreadable) && Coherent(s, G)
    requires n in G && Manageable(s, G[n]) && IndexOf(G[n]).Some?
    ensures IndexOf(G[n]).value in existing && existing[IndexOf(G[n]).value] == n
  {
    var i := IndexOf(G[n]).value;
    assert n in items && i in existing;
    assert existing[i] == ChildName(s, i) == n;
  }

  /** Adoption, deletion and updates together, on a coherent cluster: every child that stays is as Kept says. */
  lemma UpdatedAreKept(s: GroupSet, G: Groups, items: seq<string>, existing: map<int, string>, unreadable: seq<string>,
                       n: string, updated: bool)
    requires Listed(s, G, items) && Classified(s, G, items, existing, unreadable) && Coherent(s, G)
    requires n in G && !Doomed(s, G[n])
    requires updated <==> IsExisting(existing, n) && NeedsUpdate(s, Adopted(s, G[n]))
    ensures Kept(s, G[n]) == if updated then Sync(s, Adopted(s, G[n])) else Adopted(s, G[n])
  {
    if Manageable(s, G[n]) {
      ExistingByIndex(s, G, items, existing, unreadable, n);
      assert IsExisting(existing, n);
    }
  }

  /** A missing index is one whose child is not there to stay. */
  lemma MissingIsUnkept(s: GroupSet, G: Groups, items: seq<string>, existing: map<int, string>, unreadable: seq<string>,
                        i: nat)
    requires Listed(s, G, items) && Classified(s, G, items, existing, unreadable) && Coherent(s, G) && i < s.replicas
    ensures i in existing <==> ChildName(s, i) in G && !Doomed(s, G[ChildName(s, i)])
  {
    var n := ChildName(s, i);
    if i in existing {
      assert existing[i] == n;
    } else if n in G && !Doomed(s, G[n]) {
      ExistingByIndex(s, G, items, existing, unreadable, n);
      ChildNameInjective(s, i, IndexOf(G[n]).value);
    }
  }

  /** The final cluster, described group by group, is the target. */
  lemma ReachesTarget(s: GroupSet, G: Groups, after: Groups)
    requires forall n :: n in G && !Doomed(s, G[n]) ==> n in after && after[n] == Kept(s, G[n])
    requires forall i: nat :: i < s.replicas && !(ChildName(s, i) in G && !Doomed(s, G[ChildName(s, i)])) ==>
               ChildName(s, i) in after && after[ChildName(s, i)] == NewChild(s, i)
    requires forall n :: n in after ==> (n in G && !Doomed(s, G[n])) || Wanted(s, n)
    ensures after == Target(s, G)
  {
    var T := Target(s, G);
    forall n | n in T
      ensures n in after && after[n] == T[n]
    {
      if !(n in G && !Doomed(s, G[n])) {
        assert Wanted(s, n);
        assert n == ChildName(s, WantedIndex(s, n));
      }
    }
    forall n | n in after
      ensures n in T
    {
      if Wanted(s, n) { assert n in WantedNames(s); }
    }
  }

  /** One fault-free reconcile. On a coherent cluster it reaches Target, and on a settled one it writes nothing;
      on any cluster whatsoever it leaves foreign groups as they are. */
  method Reconcile(s: GroupSet, c: Cluster)
    modifies c
    ensures Untouched(s, old(c.groups), c.groups)
    ensures Coherent(s, old(c.groups)) ==> c.groups == Target(s, old(c.groups))
    ensures Settled(s, old(c.groups)) ==> c.writes == old(c.writes)
  {
    ghost var G := c.groups;
    var items := c.List(s.name);
    var existing, unreadable := Classify(s, c, items);
    AllAdopted(s, G, c.groups, items);
    if Settled(s, G) { SettledIsFixpoint(s, G); }
    var missing := MissingIndices(s, existing);
    var deleted := RemoveDoomed(s, c, G, items, existing, unreadable);
    forall n | n in deleted
      ensures n in G && Doomed(s, G[n])
    {
      DeletedAreDoomed(s, G, items, existing, unreadable, n);
    }
    RefreshExisting(s, c, G, items, existing, unreadable, deleted);
    CreateMissing(s, c, G, items, existing, unreadable, missing);
  }

  /** Deletes the unreadable and the surplus children. */
  method RemoveDoomed(s: GroupSet, c: Cluster, ghost G: Groups, ghost items: seq<string>, existing: map<int, string>,
                      unreadable: seq<string>)
    returns (deleted: seq<string>)
    requires Listed(s, G, items) && Classified(s, G, items, existing, unreadable)
    requires c.groups.Keys == G.Keys && forall n :: n in G ==> c.groups[n] == Adopted(s, G[n])
    modifies c
    ensures forall n :: n in deleted <==> n in unreadable || IsSurplus(s, existing, n)
    ensures c.groups.Keys == G.Keys - (set n | n in deleted)
    ensures forall n :: n in c.groups ==> c.groups[n] == Adopted(s, G[n])
    ensures Settled(s, G) ==> c.writes == old(c.writes)
  {
    var surplus := Surplus(s, existing);
    deleted := unreadable + surplus;
    forall n
      ensures n in deleted <==> n in unreadable || IsSurplus(s, existing, n)
    {
    }
    forall n | n in deleted
      ensures !Settled(s, G)
    {
      DeletedAreDoomed(s, G, items, existing, unreadable, n);
      if Settled(s, G) { SettledIsFixpoint(s, G); }
    }
    assert deleted != [] ==> deleted[0] in deleted;
    ScaleDown(c, deleted);
  }

  /** Updates the remaining children that differ from the template. */
  method RefreshExisting(s: GroupSet, c: Cluster, ghost G: Groups, ghost items: seq<string>, existing: map<int, string>,
                         ghost unreadable: seq<string>, deleted: seq<string>)
    requires Listed(s, G, items) && Classified(s, G, items, existing, unreadable)
    requires forall n :: n in deleted <==> n in unreadable || IsSurplus(s, existing, n)
    requires c.groups.Keys == G.Keys - (set n | n in deleted)
    requires forall n :: n in c.groups ==> c.groups[n] == Adopted(s, G[n])
    modifies c
    ensures c.groups.Keys == old(c.groups).Keys
    ensures forall n :: n in c.groups && !Manageable(s, G[n]) ==> c.groups[n] == G[n]
    ensures Coherent(s, G) ==> forall n :: n in c.groups ==> !Doomed(s, G[n]) && c.groups[n] == Kept(s, G[n])
    ensures Settled(s, G) ==> c.writes == old(c.writes)
  {
    var outdated := Outdated(s, c, existing, deleted);
    forall n | n in outdated
      ensures n in c.groups && Manageable(s, G[n]) && NeedsUpdate(s, Adopted(s, G[n])) && !Settled(s, G)
    {
      if Settled(s, G) { SettledIsFixpoint(s, G); }
    }
    assert outdated != [] ==> outdated[0] in outdated;
    ghost var before := c.groups;
    UpdateExisting(s, c, outdated);
    if Coherent(s, G) {
      forall n | n in c.groups
        ensures !Doomed(s, G[n]) && c.groups[n] == Kept(s, G[n])
      {
        DeletedAreDoomed(s, G, items, existing, unreadable, n);
        assert n in outdated <==> IsExisting(existing, n) && NeedsUpdate(s, before[n]);
        UpdatedAreKept(s, G, items, existing, unreadable, n, n in outdated);
      }
    }
  }

  /** Creates the children of the missing indices. */
  method CreateMissing(s: GroupSet, c: Cluster, ghost G: Groups, ghost items: seq<string>,
                       ghost existing: map<int, string>, ghost unreadable: seq<string>, missing: seq<nat>)
    requires Listed(s, G, items) && Classified(s, G, items, existing, unreadable)
    requires forall i :: i in missing <==> 0 <= i < s.replicas && i !in existing
    requires c.groups.Keys <= G.Keys
    requires forall n :: n in G && !Doomed(s, G[n]) ==> n in c.groups
    requires forall n :: n in c.groups && !Manageable(s, G[n]) ==> c.groups[n] == G[n]
    requires Coherent(s, G) ==> forall n :: n in c.groups ==> !Doomed(s, G[n]) && c.groups[n] == Kept(s, G[n])
    modifies c
    ensures forall n :: n in G && !Manageable(s, G[n]) ==> n in c.groups && c.groups[n] == G[n]
    ensures Coherent(s, G) ==> c.groups == Target(s, G)
    ensures Settled(s, G) ==> c.writes == old(c.writes)
  {
    if Settled(s, G) && missing != [] {
      SettledIsFixpoint(s, G);
      assert missing[0] in missing;
      MissingIsUnkept(s, G, items, existing, unreadable, missing[0]);
    }
    ScaleUp(s, c, missing);
    if Coherent(s, G) {
      forall i: nat | i < s.replicas
        ensures i in missing <==> !(ChildName(s, i) in G && !Doomed(s, G[ChildName(s, i)]))
      {
        MissingIsUnkept(s, G, items, existing, unreadable, i);
      }
      ReachesTarget(s, G, c.groups);
    }
  }
}
