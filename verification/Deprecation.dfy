/** Admission of deprecated workload types: existing uses may stay, and in no run of admitted writes does a new
    use appear. */
module Deprecation {
  import opened Wrappers

  const DEPRECATED := {"apps/v1/Deployment", "apps/v1/StatefulSet", "leaderworkerset.x-k8s.io/v1/LeaderWorkerSet"}
  const DEFAULT_TYPE := "workloads.x-k8s.io/v1alpha2/RoleInstanceSet"
  const SET_KIND := "RoleBasedGroupSet"
  const SET_VERSION := "workloads.x-k8s.io/v1alpha2"

  /** `annotation` is the role-workload-type annotation, empty when it is not set. */
  datatype Role = Role(name: string, annotation: string)

  function WorkloadType(r: Role): string {
    if r.annotation == "" then DEFAULT_TYPE else r.annotation
  }

  predicate IsDeprecated(r: Role) {
    WorkloadType(r) in DEPRECATED
  }

  /** A use of a deprecated type: the role's name with the type. */
  function Uses(roles: seq<Role>): set<(string, string)> {
    set i | 0 <= i < |roles| && IsDeprecated(roles[i]) :: (roles[i].name, WorkloadType(roles[i]))
  }

  predicate UniqueNames(roles: seq<Role>) {
    forall i, j :: 0 <= i < j < |roles| ==> roles[i].name != roles[j].name
  }

  // ----- Comparing with the roles there were before

  /** The types by role name; of several roles with one name the last counts. */
  function TypesByName(roles: seq<Role>): map<string, string> {
    if roles == [] then map[]
    else TypesByName(roles[..|roles| - 1])[roles[|roles| - 1].name := WorkloadType(roles[|roles| - 1])]
  }

  method RecordTypes(roles: seq<Role>) returns (types: map<string, string>)
    ensures types == TypesByName(roles)
  {
    types := map[];
    for i := 0 to |roles|
      invariant types == TypesByName(roles[..i])
    {
      assert roles[..i + 1][..i] == roles[..i];
      types := types[roles[i].name := WorkloadType(roles[i])];
    }
    assert roles[..|roles|] == roles;
  }

  predicate Offends(roles: seq<Role>, old': map<string, string>, i: nat)
    requires i < |roles|
  {
    IsDeprecated(roles[i]) && !(roles[i].name in old' && old'[roles[i].name] == WorkloadType(roles[i]))
  }

  /** The positions of the roles that use a deprecated type the old role of that name did not use. */
  method ValidateNoNewDeprecatedWorkloadTypes(roles: seq<Role>, oldRoles: seq<Role>) returns (errs: seq<nat>)
    ensures forall i :: i in errs <==> 0 <= i < |roles| && Offends(roles, TypesByName(oldRoles), i)
    ensures errs == [] <==> NoNewUse(roles, oldRoles)
  {
    var oldTypes := RecordTypes(oldRoles);
    errs := [];
    for i := 0 to |roles|
      invariant forall j :: j in errs <==> 0 <= j < i && Offends(roles, oldTypes, j)
    {
      if IsDeprecated(roles[i]) {
        if roles[i].name !in oldTypes || oldTypes[roles[i].name] != WorkloadType(roles[i]) { errs := errs + [i]; }
      }
    }
    if errs != [] { assert errs[0] in errs; }
  }

  predicate NoNewUse(roles: seq<Role>, oldRoles: seq<Role>) {
    forall i :: 0 <= i < |roles| ==> !Offends(roles, TypesByName(oldRoles), i)
  }

  method ValidateNoDeprecatedWorkloadTypes(roles: seq<Role>) returns (errs: seq<nat>)
    ensures forall i :: i in errs <==> 0 <= i < |roles| && IsDeprecated(roles[i])
    ensures errs == [] <==> Uses(roles) == {}
  {
    errs := [];
    for i := 0 to |roles|
      invariant forall j :: j in errs <==> 0 <= j < i && IsDeprecated(roles[j])
    {
      if IsDeprecated(roles[i]) { errs := errs + [i]; }
    }
    if errs != [] {
      assert errs[0] in errs;
      assert (roles[errs[0]].name, WorkloadType(roles[errs[0]])) in Uses(roles);
    }
  }

  lemma {:induction false} TypesByNameEntries(roles: seq<Role>, n: string)
    ensures n in TypesByName(roles) ==>
              exists i :: 0 <= i < |roles| && roles[i].name == n && WorkloadType(roles[i]) == TypesByName(roles)[n]
    ensures (exists i :: 0 <= i < |roles| && roles[i].name == n) ==> n in TypesByName(roles)
    decreases |roles|
  {
    if roles != [] {
      var init, last := roles[..|roles| - 1], roles[|roles| - 1];
      TypesByNameEntries(init, n);
      if last.name == n {
        assert roles[|roles| - 1].name == n;
      } else {
        if n in TypesByName(init) {
          var i :| 0 <= i < |init| && init[i].name == n && WorkloadType(init[i]) == TypesByName(init)[n];
          assert roles[i] == init[i];
        }
        if exists i :: 0 <= i < |roles| && roles[i].name == n {
          var i :| 0 <= i < |roles| && roles[i].name == n;
          assert init[i].name == n;
        }
      }
    }
  }

  /** Of several roles with one name the last one's type counts. */
  lemma {:induction false} LastTypeCounts(roles: seq<Role>, i: nat)
    requires i < |roles| && forall j :: i < j < |roles| ==> roles[j].name != roles[i].name
    ensures roles[i].name in TypesByName(roles) && TypesByName(roles)[roles[i].name] == WorkloadType(roles[i])
    decreases |roles|
  {
    if i < |roles| - 1 { LastTypeCounts(roles[..|roles| - 1], i); }
  }

  /** A write without a new use only uses what was used before. */
  lemma NoNewUseShrinks(roles: seq<Role>, oldRoles: seq<Role>)
    requires NoNewUse(roles, oldRoles)
    ensures Uses(roles) <= Uses(oldRoles)
  {
    forall i | 0 <= i < |roles| && IsDeprecated(roles[i])
      ensures (roles[i].name, WorkloadType(roles[i])) in Uses(oldRoles)
    {
      assert !Offends(roles, TypesByName(oldRoles), i);
      TypesByNameEntries(oldRoles, roles[i].name);
      var j :| 0 <= j < |oldRoles| && oldRoles[j].name == roles[i].name
               && WorkloadType(oldRoles[j]) == WorkloadType(roles[i]);
      assert IsDeprecated(oldRoles[j]);
    }
  }

  /** With uniquely named old roles, exactly the writes that only use what was used before pass. */
  lemma NoNewUseExactly(roles: seq<Role>, oldRoles: seq<Role>)
    requires UniqueNames(oldRoles)
    ensures NoNewUse(roles, oldRoles) <==> Uses(roles) <= Uses(oldRoles)
  {
    if NoNewUse(roles, oldRoles) { NoNewUseShrinks(roles, oldRoles); }
    if Uses(roles) <= Uses(oldRoles) {
      forall i | 0 <= i < |roles|
        ensures !Offends(roles, TypesByName(oldRoles), i)
      {
        if IsDeprecated(roles[i]) {
          var use := (roles[i].name, WorkloadType(roles[i]));
          assert use in Uses(roles);
          var j :| 0 <= j < |oldRoles| && IsDeprecated(oldRoles[j])
                   && (oldRoles[j].name, WorkloadType(oldRoles[j])) == use;
          TypesByNameEntries(oldRoles, roles[i].name);
          var k :| 0 <= k < |oldRoles| && oldRoles[k].name == roles[i].name
                   && WorkloadType(oldRoles[k]) == TypesByName(oldRoles)[roles[i].name];
          assert j == k;
        }
      }
    }
  }

  // ----- The exemption for children of a set

  datatype Owner = Owner(kind: string, version: string, name: string, uid: string)

  datatype Group = Group(controller: Option<Owner>, roles: seq<Role>)

  datatype GroupSet = GroupSet(uid: string, roles: seq<Role>)

  /** The set a new group belongs to: it is named by the controller reference and has its uid. */
  function ParentOf(g: Group, sets: map<string, GroupSet>): Option<GroupSet> {
    match g.controller
    case None => None
    case Some(owner) =>
      if owner.kind == SET_KIND && owner.version == SET_VERSION && owner.name in sets
         && sets[owner.name].uid == owner.uid
      then Some(sets[owner.name]) else None
  }

  /** How the parent is read: without any reader, with one that fails, or with one that finds what is there. */
  datatype ParentRead = NoReader | Failing | Working

  /** The read that fails refuses the write; without a deprecated use or a reference to a set there is no read. */
  predicate ReadFails(g: Group, read: ParentRead) {
    && Uses(g.roles) != {} && read == Failing
    && g.controller.Some? && g.controller.value.kind == SET_KIND && g.controller.value.version == SET_VERSION
  }

  function Exempt(g: Group, sets: map<string, GroupSet>, read: ParentRead): seq<Role> {
    if read == Working && ParentOf(g, sets).Some? then ExemptIn(g, ParentOf(g, sets).value.roles) else []
  }

  method ContainsDeprecatedWorkloadType(roles: seq<Role>) returns (found: bool)
    ensures found <==> Uses(roles) != {}
  {
    for i := 0 to |roles|
      invariant forall j :: 0 <= j < i ==> !IsDeprecated(roles[j])
    {
      if IsDeprecated(roles[i]) {
        assert (roles[i].name, WorkloadType(roles[i])) in Uses(roles);
        return true;
      }
    }
    return false;
  }

  /** The template roles that carry the name and the type of a deprecated role of the new group. */
  method LegacySetTemplateRoles(g: Group, sets: map<string, GroupSet>, read: ParentRead)
    returns (r: Result<seq<Role>, ()>)
    ensures r.Failure? <==>
            && Uses(g.roles) != {} && read == Failing && g.controller.Some?
            && g.controller.value.kind == "RoleBasedGroupSet"
            && g.controller.value.version == "workloads.x-k8s.io/v1alpha2"
    ensures r.Success? ==> r.value == Exempt(g, sets, read)
  {
    var any := ContainsDeprecatedWorkloadType(g.roles);
    var parent := ParentOf(g, sets);
    if !any {
      if parent.Some? { NothingExempt(g, parent.value.roles); }
      return Success([]);
    }
    if read == NoReader { return Success([]); }
    if g.controller.None? || g.controller.value.kind != SET_KIND || g.controller.value.version != SET_VERSION {
      return Success([]);
    }
    if read == Failing { return Failure(()); }
    if parent.None? { return Success([]); }
    var wanted := CollectWanted(g.roles);
    var exempt := CollectExempt(g, parent.value.roles, wanted);
    return Success(exempt);
  }

  method CollectWanted(roles: seq<Role>) returns (wanted: map<string, string>)
    ensures wanted == WantedTypes(roles)
  {
    wanted := map[];
    for i := 0 to |roles|
      invariant wanted == WantedTypes(roles[..i])
    {
      assert roles[..i + 1][..i] == roles[..i];
      if IsDeprecated(roles[i]) { wanted := wanted[roles[i].name := WorkloadType(roles[i])]; }
    }
    assert roles[..|roles|] == roles;
  }

  method CollectExempt(g: Group, template: seq<Role>, wanted: map<string, string>) returns (exempt: seq<Role>)
    requires wanted == WantedTypes(g.roles)
    ensures exempt == ExemptIn(g, template)
  {
    exempt := [];
    for i := 0 to |template|
      invariant exempt == ExemptIn(g, template[..i])
    {
      assert template[..i + 1][..i] == template[..i];
      if template[i].name in wanted && wanted[template[i].name] == WorkloadType(template[i]) {
        exempt := exempt + [template[i]];
      }
    }
    assert template[..|template|] == template;
  }

  lemma NothingExempt(g: Group, template: seq<Role>)
    requires Uses(g.roles) == {}
    ensures ExemptIn(g, template) == []
  {
    ExemptMembers(g, template);
    if ExemptIn(g, template) != [] {
      var r := ExemptIn(g, template)[0];
      assert r in ExemptIn(g, template);
      WantedMeaning(g.roles, r.name);
    }
  }

  /** The types of the deprecated roles by name. */
  function WantedTypes(roles: seq<Role>): map<string, string> {
    if roles == [] then map[]
    else
      var last := roles[|roles| - 1];
      var init := WantedTypes(roles[..|roles| - 1]);
      if IsDeprecated(last) then init[last.name := WorkloadType(last)] else init
  }

  function ExemptIn(g: Group, template: seq<Role>): seq<Role> {
    if template == [] then []
    else
      var last := template[|template| - 1];
      var init := ExemptIn(g, template[..|template| - 1]);
      if last.name in WantedTypes(g.roles) && WantedTypes(g.roles)[last.name] == WorkloadType(last)
      then init + [last] else init
  }

  lemma {:induction false} ExemptMembers(g: Group, template: seq<Role>)
    ensures forall r :: r in ExemptIn(g, template) <==>
              r in template && r.name in WantedTypes(g.roles) && WantedTypes(g.roles)[r.name] == WorkloadType(r)
    decreases |template|
  {
    if template != [] {
      ExemptMembers(g, template[..|template| - 1]);
      assert template == template[..|template| - 1] + [template[|template| - 1]];
    }
  }

  lemma {:induction false} WantedMeaning(roles: seq<Role>, n: string)
    ensures n in WantedTypes(roles) ==> (n, WantedTypes(roles)[n]) in Uses(roles)
    decreases |roles|
  {
    if roles != [] {
      var init, last := roles[..|roles| - 1], roles[|roles| - 1];
      WantedMeaning(init, n);
      UsesGrow(init, last);
      assert roles == init + [last];
    }
  }

  lemma UsesGrow(init: seq<Role>, last: Role)
    ensures Uses(init) <= Uses(init + [last])
    ensures IsDeprecated(last) ==> (last.name, WorkloadType(last)) in Uses(init + [last])
  {
    forall i | 0 <= i < |init| && IsDeprecated(init[i])
      ensures (init[i].name, WorkloadType(init[i])) in Uses(init + [last])
    {
      assert (init + [last])[i] == init[i];
    }
    assert (init + [last])[|init|] == last;
  }

  lemma {:induction false} DeprecatedIsWanted(roles: seq<Role>, i: nat)
    requires i < |roles| && IsDeprecated(roles[i])
    ensures roles[i].name in WantedTypes(roles)
    decreases |roles|
  {
    if i < |roles| - 1 {
      DeprecatedIsWanted(roles[..|roles| - 1], i);
    }
  }

  // ----- The admission state machine

  datatype Cluster = Cluster(groups: map<string, Group>, sets: map<string, GroupSet>)

  /** A write and whether the other admission checks pass; deletions are never refused. A set keeps its uid. */
  datatype Request =
    | CreateGroup(name: string, group: Group, read: ParentRead, otherChecks: bool)
    | UpdateGroup(name: string, group: Group, otherChecks: bool)
    | DeleteGroup(name: string)
    | CreateSet(name: string, groupSet: GroupSet, otherChecks: bool)
    | UpdateSet(name: string, roles: seq<Role>, otherChecks: bool)
    | DeleteSet(name: string)

  /** The roles that count as there before: the old object's, or those a set template lends to a new child. */
  function Reference(c: Cluster, r: Request): seq<Role> {
    match r
    case CreateGroup(_, g, read, _) => Exempt(g, c.sets, read)
    case UpdateGroup(n, _, _) => if n in c.groups then c.groups[n].roles else []
    case UpdateSet(n, _, _) => if n in c.sets then c.sets[n].roles else []
    case _ => []
  }

  function NewRoles(r: Request): seq<Role> {
    match r
    case CreateGroup(_, g, _, _) => g.roles
    case UpdateGroup(_, g, _) => g.roles
    case CreateSet(_, s, _) => s.roles
    case UpdateSet(_, roles, _) => roles
    case _ => []
  }

  /** Whether the object may be written at all: a new name, or an existing object. */
  predicate Addressable(c: Cluster, r: Request) {
    match r
    case CreateGroup(n, _, _, ok) => ok && n !in c.groups
    case UpdateGroup(n, _, ok) => ok && n in c.groups
    case CreateSet(n, _, ok) => ok && n !in c.sets
    case UpdateSet(n, _, ok) => ok && n in c.sets
    case _ => true
  }

  /** In compatibility mode no new use, in strict mode no use at all. */
  predicate Admitted(c: Cluster, compatibility: bool, r: Request) {
    && Addressable(c, r)
    && (compatibility && r.CreateGroup? ==> !ReadFails(r.group, r.read))
    && (if compatibility then NoNewUse(NewRoles(r), Reference(c, r)) else Uses(NewRoles(r)) == {})
  }

  function Apply(c: Cluster, compatibility: bool, r: Request): Cluster {
    if !Admitted(c, compatibility, r) then c
    else
      match r
      case CreateGroup(n, g, _, _) => c.(groups := c.groups[n := g])
      case UpdateGroup(n, g, _) => c.(groups := c.groups[n := g])
      case DeleteGroup(n) => c.(groups := c.groups - {n})
      case CreateSet(n, s, _) => c.(sets := c.sets[n := s])
      case UpdateSet(n, roles, _) => c.(sets := c.sets[n := c.sets[n].(roles := roles)])
      case DeleteSet(n) => c.(sets := c.sets - {n})
  }

  class ApiServer {
    const compatibility: bool
    var groups: map<string, Group>
    var sets: map<string, GroupSet>

    function State(): Cluster
      reads this
    {
      Cluster(groups, sets)
    }

    constructor (compatibility: bool, groups: map<string, Group>, sets: map<string, GroupSet>)
      ensures this.compatibility == compatibility && State() == Cluster(groups, sets)
    {
      this.compatibility, this.groups, this.sets := compatibility, groups, sets;
    }

    method ValidateDeprecation(newRoles: seq<Role>, oldRoles: seq<Role>) returns (ok: bool)
      ensures ok <==> if compatibility then NoNewUse(newRoles, oldRoles) else Uses(newRoles) == {}
    {
      var errs: seq<nat>;
      if compatibility {
        errs := ValidateNoNewDeprecatedWorkloadTypes(newRoles, oldRoles);
      } else {
        errs := ValidateNoDeprecatedWorkloadTypes(newRoles);
      }
      return errs == [];
    }

    /** In strict mode the parent is not looked at. */
    method ValidateCreate(g: Group, read: ParentRead) returns (ok: bool)
      ensures ok <==>
              if compatibility then !ReadFails(g, read) && NoNewUse(g.roles, Exempt(g, sets, read))
              else Uses(g.roles) == {}
    {
      if !compatibility {
        ok := ValidateDeprecation(g.roles, []);
        return;
      }
      var exempt := LegacySetTemplateRoles(g, sets, read);
      if exempt.Failure? { return false; }
      ok := ValidateDeprecation(g.roles, exempt.value);
    }

    method Handle(r: Request)
      modifies this
      ensures State() == Apply(old(State()), compatibility, r)
    {
      match r {
        case CreateGroup(n, g, read, checks) =>
          var ok := ValidateCreate(g, read);
          if ok && checks && n !in groups { groups := groups[n := g]; }
        case UpdateGroup(n, g, checks) =>
          if n in groups {
            var ok := ValidateDeprecation(g.roles, groups[n].roles);
            if ok && checks { groups := groups[n := g]; }
          }
        case DeleteGroup(n) => groups := groups - {n};
        case CreateSet(n, s, checks) =>
          var ok := ValidateDeprecation(s.roles, []);
          if ok && checks && n !in sets { sets := sets[n := s]; }
        case UpdateSet(n, roles, checks) =>
          if n in sets {
            var ok := ValidateDeprecation(roles, sets[n].roles);
            if ok && checks { sets := sets[n := sets[n].(roles := roles)]; }
          }
        case DeleteSet(n) => sets := sets - {n};
      }
    }
  }

  // ----- Uses only shrink

  ghost predicate UsedIn(c: Cluster, use: (string, string)) {
    || (exists n :: n in c.groups && use in Uses(c.groups[n].roles))
    || (exists n :: n in c.sets && use in Uses(c.sets[n].roles))
  }

  /** No write, in either mode, brings a use into the cluster that was not there. */
  lemma ApplyAddsNoUse(c: Cluster, compatibility: bool, r: Request, use: (string, string))
    requires UsedIn(Apply(c, compatibility, r), use)
    ensures UsedIn(c, use)
  {
    if Admitted(c, compatibility, r) {
      if compatibility { NoNewUseShrinks(NewRoles(r), Reference(c, r)); }
      if use in Uses(NewRoles(r)) {
        ReferenceIsUsed(c, r, use);
      }
    }
  }

  /** What a request may refer to is in the cluster: in the old object, or in the template of a set. */
  lemma ReferenceIsUsed(c: Cluster, r: Request, use: (string, string))
    requires Addressable(c, r) && use in Uses(Reference(c, r))
    ensures UsedIn(c, use)
  {
    match r
    case CreateGroup(_, g, read, _) =>
      if read == Working && ParentOf(g, c.sets).Some? {
        var template := ParentOf(g, c.sets).value.roles;
        ExemptMembers(g, template);
        var i :| 0 <= i < |Reference(c, r)| && IsDeprecated(Reference(c, r)[i])
              && (Reference(c, r)[i].name, WorkloadType(Reference(c, r)[i])) == use;
        assert Reference(c, r)[i] in template;
        assert use in Uses(c.sets[g.controller.value.name].roles);
      }
    case UpdateGroup(n, _, _) => assert use in Uses(c.groups[n].roles);
    case UpdateSet(n, _, _) => assert use in Uses(c.sets[n].roles);
    case _ =>
  }

  function ApplyAll(c: Cluster, compatibility: bool, requests: seq<Request>): Cluster
    decreases |requests|
  {
    if requests == [] then c else ApplyAll(Apply(c, compatibility, requests[0]), compatibility, requests[1..])
  }

  /** Over any run of writes, every use in the cluster was there at the start. */
  lemma {:induction false} UsesOnlyShrink(c: Cluster, compatibility: bool, requests: seq<Request>,
                                          use: (string, string))
    requires UsedIn(ApplyAll(c, compatibility, requests), use)
    ensures UsedIn(c, use)
    decreases |requests|
  {
    if requests != [] {
      UsesOnlyShrink(Apply(c, compatibility, requests[0]), compatibility, requests[1..], use);
      ApplyAddsNoUse(c, compatibility, requests[0], use);
    }
  }

  // ----- Exactly which writes are admitted, in the fields of the objects

  /** The role asks for one of the three deprecated types. */
  predicate Legacy(r: Role) {
    r.annotation in {"apps/v1/Deployment", "apps/v1/StatefulSet", "leaderworkerset.x-k8s.io/v1/LeaderWorkerSet"}
  }

  /** One of the roles has the same name and asks for the same type. */
  predicate Among(r: Role, roles: seq<Role>) {
    exists i :: 0 <= i < |roles| && roles[i].name == r.name && roles[i].annotation == r.annotation
  }

  /** The controller reference of the group is to a set that is there and carries the referenced uid. */
  predicate Verified(c: Cluster, g: Group) {
    && g.controller.Some?
    && g.controller.value.kind == "RoleBasedGroupSet" && g.controller.value.version == "workloads.x-k8s.io/v1alpha2"
    && g.controller.value.name in c.sets && c.sets[g.controller.value.name].uid == g.controller.value.uid
  }

  lemma UseExactly(r: Role, roles: seq<Role>)
    requires Legacy(r)
    ensures (r.name, WorkloadType(r)) in Uses(roles) <==> Among(r, roles)
  {
    if (r.name, WorkloadType(r)) in Uses(roles) {
      var i :| 0 <= i < |roles| && IsDeprecated(roles[i])
               && (roles[i].name, WorkloadType(roles[i])) == (r.name, WorkloadType(r));
      assert roles[i].annotation == r.annotation;
    }
  }

  lemma UsesWithinExactly(roles: seq<Role>, old': seq<Role>)
    ensures Uses(roles) <= Uses(old') <==> forall r :: r in roles && Legacy(r) ==> Among(r, old')
  {
    forall i | 0 <= i < |roles|
      ensures Legacy(roles[i]) <==> IsDeprecated(roles[i])
      ensures Legacy(roles[i]) ==>
                ((roles[i].name, WorkloadType(roles[i])) in Uses(old') <==> Among(roles[i], old'))
      ensures Legacy(roles[i]) ==> (roles[i].name, WorkloadType(roles[i])) in Uses(roles)
    {
      if Legacy(roles[i]) { UseExactly(roles[i], old'); }
    }
  }

  lemma NoUseExactly(roles: seq<Role>)
    ensures Uses(roles) == {} <==> forall r :: r in roles ==> !Legacy(r)
  {
    UsesWithinExactly(roles, []);
    assert Uses([]) == {};
  }

  /** The exemption lets a set's child be created again: a new group passes exactly when the other checks pass, its
      name is free, and each deprecated use is, in compatibility mode, lent by the template of a set that can be read
      and verified. */
  lemma ChildAdmittedExactly(c: Cluster, compatibility: bool, name: string, g: Group, read: ParentRead, checks: bool)
    requires UniqueNames(g.roles)
    requires Verified(c, g) ==> UniqueNames(c.sets[g.controller.value.name].roles)
    ensures Admitted(c, compatibility, CreateGroup(name, g, read, checks)) <==>
            checks && name !in c.groups && forall r :: r in g.roles && Legacy(r) ==>
              compatibility && read == Working && Verified(c, g) && Among(r, c.sets[g.controller.value.name].roles)
  {
    var r := CreateGroup(name, g, read, checks);
    NoUseExactly(g.roles);
    if compatibility && read == Working && Verified(c, g) {
      var template := c.sets[g.controller.value.name].roles;
      ExemptUnique(g, template);
      NoNewUseExactly(g.roles, Reference(c, r));
      ExemptUses(g, template);
      UsesWithinExactly(g.roles, template);
    } else if compatibility {
      NoNewUseExactly(g.roles, []);
      assert Uses([]) == {};
    }
  }

  /** An update of a group passes exactly when the other checks pass, the group is there, and each deprecated use is,
      in compatibility mode, in the old group. */
  lemma GroupUpdateAdmittedExactly(c: Cluster, compatibility: bool, name: string, g: Group, checks: bool)
    requires name in c.groups ==> UniqueNames(c.groups[name].roles)
    ensures Admitted(c, compatibility, UpdateGroup(name, g, checks)) <==>
            checks && name in c.groups && forall r :: r in g.roles && Legacy(r) ==>
              compatibility && Among(r, c.groups[name].roles)
  {
    if name in c.groups {
      NoNewUseExactly(g.roles, c.groups[name].roles);
      UsesWithinExactly(g.roles, c.groups[name].roles);
    }
    NoUseExactly(g.roles);
  }

  /** A new set passes exactly without a deprecated use in its template. */
  lemma SetAdmittedExactly(c: Cluster, compatibility: bool, name: string, s: GroupSet, checks: bool)
    ensures Admitted(c, compatibility, CreateSet(name, s, checks)) <==>
            checks && name !in c.sets && forall r :: r in s.roles ==> !Legacy(r)
  {
    NoUseExactly(s.roles);
    NoNewUseExactly(s.roles, []);
    assert Uses([]) == {};
  }

  /** An update of one passes exactly when each deprecated use is, in compatibility mode, in the old template. */
  lemma SetUpdateAdmittedExactly(c: Cluster, compatibility: bool, name: string, roles: seq<Role>, checks: bool)
    requires name in c.sets ==> UniqueNames(c.sets[name].roles)
    ensures Admitted(c, compatibility, UpdateSet(name, roles, checks)) <==>
            checks && name in c.sets && forall r :: r in roles && Legacy(r) ==>
              compatibility && Among(r, c.sets[name].roles)
  {
    if name in c.sets {
      NoNewUseExactly(roles, c.sets[name].roles);
      UsesWithinExactly(roles, c.sets[name].roles);
    }
    NoUseExactly(roles);
  }

  /** An admitted write leaves the object as requested; an updated set keeps its uid. */
  lemma AdmittedWriteStands(c: Cluster, compatibility: bool, r: Request)
    requires Admitted(c, compatibility, r)
    ensures var after := Apply(c, compatibility, r);
            && (r.CreateGroup? || r.UpdateGroup? ==> r.name in after.groups && after.groups[r.name] == r.group)
            && (r.CreateSet? ==> r.name in after.sets && after.sets[r.name] == r.groupSet)
            && (r.UpdateSet? ==> r.name in c.sets && r.name in after.sets)
            && (r.UpdateSet? ==> after.sets[r.name] == GroupSet(c.sets[r.name].uid, r.roles))
            && (r.DeleteGroup? ==> r.name !in after.groups) && (r.DeleteSet? ==> r.name !in after.sets)
  {
  }

  /** Deletions are never refused, and a write changes nothing but the object it names, and that only if admitted. */
  lemma WritesStayLocal(c: Cluster, compatibility: bool, r: Request, n: string)
    requires n != r.name
    ensures r.DeleteGroup? || r.DeleteSet? ==> Admitted(c, compatibility, r)
    ensures var after := Apply(c, compatibility, r);
            && (n in after.groups <==> n in c.groups) && (n in c.groups ==> after.groups[n] == c.groups[n])
            && (n in after.sets <==> n in c.sets) && (n in c.sets ==> after.sets[n] == c.sets[n])
    ensures !Admitted(c, compatibility, r) ==> Apply(c, compatibility, r) == c
  {
    if r.DeleteGroup? || r.DeleteSet? { assert Uses([]) == {}; }
  }

  lemma {:induction false} ExemptUnique(g: Group, template: seq<Role>)
    requires UniqueNames(template)
    ensures UniqueNames(ExemptIn(g, template))
    decreases |template|
  {
    if template != [] {
      var init, last := template[..|template| - 1], template[|template| - 1];
      ExemptUnique(g, init);
      ExemptMembers(g, init);
      forall i | 0 <= i < |ExemptIn(g, init)|
        ensures ExemptIn(g, init)[i].name != last.name
      {
        assert ExemptIn(g, init)[i] in init;
      }
    }
  }

  /** The uses among the exempt roles are the uses the group and the template share. */
  lemma ExemptUses(g: Group, template: seq<Role>)
    requires UniqueNames(g.roles)
    ensures Uses(ExemptIn(g, template)) == Uses(g.roles) * Uses(template)
  {
    ExemptMembers(g, template);
    var exempt := ExemptIn(g, template);
    forall use | use in Uses(exempt)
      ensures use in Uses(g.roles) * Uses(template)
    {
      var i :| 0 <= i < |exempt| && IsDeprecated(exempt[i]) && (exempt[i].name, WorkloadType(exempt[i])) == use;
      assert exempt[i] in template;
      WantedMeaning(g.roles, exempt[i].name);
    }
    forall use | use in Uses(g.roles) * Uses(template)
      ensures use in Uses(exempt)
    {
      var i :| 0 <= i < |g.roles| && IsDeprecated(g.roles[i]) && (g.roles[i].name, WorkloadType(g.roles[i])) == use;
      var j :| 0 <= j < |template| && IsDeprecated(template[j]) && (template[j].name, WorkloadType(template[j])) == use;
      DeprecatedIsWanted(g.roles, i);
      WantedMeaning(g.roles, use.0);
      var k :| 0 <= k < |g.roles| && IsDeprecated(g.roles[k])
               && (g.roles[k].name, WorkloadType(g.roles[k])) == (use.0, WantedTypes(g.roles)[use.0]);
      assert i == k;
      assert template[j] in exempt;
    }
  }
}
