/** What a settled RoleBasedGroupSet looks like from outside, in terms of the fields of its children. */
module GroupSetMeaning {
  import opened Wrappers
  import opened GroupSetModel
  import opened GroupSetConvergence

  // ----- Roles and metadata of a child

  /** The two spellings of recreation, and of the default, mean the same. */
  predicate SameUpdateType(a: string, b: string) {
    || a == b
    || (a in {"", "InPlaceIfPossible"} && b in {"", "InPlaceIfPossible"})
    || (a in {"Recreate", "RecreatePod"} && b in {"Recreate", "RecreatePod"})
  }

  predicate SameRole(a: Role, b: Role) {
    && a.name == b.name && a.body == b.body
    && (a.updateType.Some? <==> b.updateType.Some?)
    && (a.updateType.Some? ==> SameUpdateType(a.updateType.value, b.updateType.value))
  }

  /** As many roles as wanted, and each wanted one is there. */
  predicate SameRoles(wanted: seq<Role>, roles: seq<Role>) {
    |roles| == |wanted| && forall i :: 0 <= i < |wanted| ==> HasRole(roles, wanted[i])
  }

  predicate HasRole(roles: seq<Role>, wanted: Role) {
    exists j :: 0 <= j < |roles| && SameRole(wanted, roles[j])
  }

  /** Every entry of the template reads the same, and there is no other entry except under the exempt keys. */
  predicate SameEntries(template: map<string, string>, own: map<string, string>, exempt: set<string>) {
    && (forall k :: k in template ==> (if k in own then own[k] else "") == template[k])
    && (forall k :: k in own && k !in exempt ==> k in template)
  }

  predicate FollowsTemplate(s: GroupSet, g: Group) {
    && SameRoles(s.roles, g.roles)
    && SameEntries(s.labels, g.labels, {NAME_KEY, INDEX_KEY})
    && SameEntries(s.annotations, g.annotations, {})
  }

  lemma SameRoleExactly(a: Role, b: Role)
    ensures NormalizeRole(a) == NormalizeRole(b) <==> SameRole(a, b)
  {
  }

  /** A list without repetitions that is as long as another and whose members are all in it is a permutation of it. */
  lemma DistinctMembers(a: seq<Role>, b: seq<Role>)
    requires |a| == |b| && UniqueNames(a) && forall i :: 0 <= i < |a| ==> a[i] in b
    ensures multiset(a) == multiset(b)
  {
    forall r | r in multiset(a)
      ensures multiset(a)[r] <= multiset(b)[r]
    {
      CountedOnce(a, r);
      assert r in b;
    }
    assert multiset(a) <= multiset(b);
    assert |multiset(b) - multiset(a)| == 0;
  }

  lemma {:induction false} CountedOnce(a: seq<Role>, r: Role)
    requires UniqueNames(a)
    ensures multiset(a)[r] <= 1
    decreases |a|
  {
    if a != [] {
      var init, last := a[..|a| - 1], a[|a| - 1];
      CountedOnce(init, r);
      assert a == init + [last];
      assert last !in init;
    }
  }

  /** The comparison of roles says exactly that both lists have the same roles in some order. */
  lemma RolesEqualExactly(wanted: seq<Role>, roles: seq<Role>)
    requires UniqueNames(wanted)
    ensures RolesEqual(roles, wanted) <==> SameRoles(wanted, roles)
  {
    RolesEqualIgnoresOrder(wanted, roles);
    var a, b := Normalize(wanted), Normalize(roles);
    if multiset(a) == multiset(b) {
      assert |a| == |multiset(a)| == |multiset(b)| == |b|;
      forall i | 0 <= i < |wanted|
        ensures HasRole(roles, wanted[i])
      {
        assert a[i] in multiset(b);
        var j :| 0 <= j < |b| && b[j] == a[i];
        SameRoleExactly(wanted[i], roles[j]);
      }
    }
    if SameRoles(wanted, roles) {
      forall i | 0 <= i < |a|
        ensures a[i] in b
      {
        assert HasRole(roles, wanted[i]);
        var j :| 0 <= j < |roles| && SameRole(wanted[i], roles[j]);
        SameRoleExactly(wanted[i], roles[j]);
        assert b[j] == a[i];
      }
      DistinctMembers(a, b);
    }
  }

  /** A child is left alone exactly when it follows the template. */
  lemma NeedsUpdateExactly(s: GroupSet, g: Group)
    requires UniqueNames(s.roles)
    ensures NeedsUpdate(s, g) <==> !FollowsTemplate(s, g)
  {
    RolesEqualExactly(s.roles, g.roles);
  }

  // ----- The whole cluster

  predicate BelongsTo(s: GroupSet, g: Group) {
    && NAME_KEY in g.labels && g.labels[NAME_KEY] == s.name
    && g.controller in {None, Some(s.uid)}
  }

  /** Child i is there under its name and index, is controlled by the set and follows the template. */
  predicate ChildInPlace(s: GroupSet, G: Groups, i: nat) {
    var n := ChildName(s, i);
    && n in G && BelongsTo(s, G[n]) && G[n].controller == Some(s.uid)
    && IndexOf(G[n]) == Some(i) && FollowsTemplate(s, G[n])
  }

  /** A settled cluster has exactly the children 0 to replicas - 1, each in place. */
  lemma SettledExactly(s: GroupSet, G: Groups)
    requires UniqueNames(s.roles)
    ensures Settled(s, G) <==>
            && (forall i: nat :: i < s.replicas ==> ChildInPlace(s, G, i))
            && (forall n :: n in G && BelongsTo(s, G[n]) ==> IsChildName(s, n))
  {
    forall i: nat | i < s.replicas
      ensures ChildName(s, i) in G && ChildSettled(s, G[ChildName(s, i)], i) <==> ChildInPlace(s, G, i)
    {
      if ChildName(s, i) in G { NeedsUpdateExactly(s, G[ChildName(s, i)]); }
    }
    forall n: string
      ensures Wanted(s, n) <==> IsChildName(s, n)
    {
    }
    if forall i: nat :: i < s.replicas ==> ChildInPlace(s, G, i) {
      forall i: nat | i < s.replicas
        ensures ChildName(s, i) in G && ChildSettled(s, G[ChildName(s, i)], i)
      {
        assert ChildInPlace(s, G, i);
      }
    }
  }

  /** The name of one of the children 0 to replicas - 1. */
  ghost predicate IsChildName(s: GroupSet, n: string) {
    exists i: nat :: i < s.replicas && n == ChildName(s, i)
  }

  /** So every existing child carries a changed template after one reconcile. */
  lemma TemplateReachesChildren(s: GroupSet, G: Groups, i: nat)
    requires UniqueNames(s.roles) && Coherent(s, G) && TemplateFits(s, G) && i < s.replicas
    ensures ChildInPlace(s, Target(s, G), i)
  {
    TargetSettledExactly(s, G);
    SettledExactly(s, Target(s, G));
  }

  /** And a child that is in place is not touched, whatever the others are. */
  lemma InPlaceStays(s: GroupSet, G: Groups, i: nat)
    requires UniqueNames(s.roles) && i < s.replicas && ChildInPlace(s, G, i)
    ensures ChildName(s, i) in Target(s, G) && Target(s, G)[ChildName(s, i)] == G[ChildName(s, i)]
  {
    NeedsUpdateExactly(s, G[ChildName(s, i)]);
    assert Wanted(s, ChildName(s, i)) && ChildName(s, i) in WantedNames(s);
  }
}
