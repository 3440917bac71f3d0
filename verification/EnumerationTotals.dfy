/** Theorems about the enumeration: the listed instances of all roles add up to the group size, the ordinals of a
    LeaderWorkerSet role have no gaps, and no two pods of a role share an address. */
module EnumerationTotals {
  import opened Wrappers
  import opened Sequences
  import opened Enumeration

  // ----- All roles of a group

  datatype RoleInstances = RoleInstances(size: nat, instances: seq<Instance>)

  /** A role with its workload's name and its headless service, or None when looking the service up fails. */
  datatype Listing = Listing(role: Role, workload: string, service: Option<string>)

  function RoleOf(l: Listing): Role {
    l.role
  }

  function InfoOf(l: Listing): RoleInstances {
    var instances := Listed(l.role, Addresser(l.workload, l.service.GetOr("")), PortMap(l.role.ports));
    RoleInstances(|instances|, instances)
  }

  /** The config's roles by name; of several roles with one name the last stays. */
  function Info(roles: seq<Role>, entries: seq<RoleInstances>): map<string, RoleInstances>
    requires |roles| == |entries|
  {
    if roles == [] then map[]
    else
      var n := |roles| - 1;
      Info(roles[..n], entries[..n])[roles[n].name := entries[n]]
  }

  method BuildRolesInfo(listings: seq<Listing>) returns (info: Option<map<string, RoleInstances>>)
    ensures info.Some? <==> forall l :: l in listings ==> l.service.Some?
    ensures info.Some? ==> info.value == GroupInfo(listings)
  {
    var m: map<string, RoleInstances> := map[];
    GroupInfoLengths([]);
    for k := 0 to |listings|
      invariant forall l :: l in listings[..k] ==> l.service.Some?
      invariant m == GroupInfo(listings[..k])
    {
      var l := listings[k];
      if l.service.None? { return None; }
      var entry := BuildEntry(l);
      TakeOneMore(listings, k);
      GroupInfoStep(listings[..k], l, entry);
      m := m[l.role.name := entry];
    }
    assert listings[..|listings|] == listings;
    return Some(m);
  }

  lemma TakeOneMore<A>(s: seq<A>, k: nat)
    requires k < |s|
    ensures s[..k + 1] == s[..k] + [s[k]]
  {
  }

  method BuildEntry(l: Listing) returns (entry: RoleInstances)
    requires l.service.Some?
    ensures entry == InfoOf(l)
  {
    var instances := BuildInstances(l.role, l.workload, l.service.GetOr(""));
    entry := RoleInstances(|instances|, instances);
  }

  function GroupInfo(listings: seq<Listing>): map<string, RoleInstances> {
    GroupInfoLengths(listings);
    Info(Mapped(RoleOf, listings), Mapped(InfoOf, listings))
  }

  lemma GroupInfoLengths(listings: seq<Listing>)
    ensures |Mapped(RoleOf, listings)| == |listings| == |Mapped(InfoOf, listings)|
  {
    MappedAt(RoleOf, listings);
    MappedAt(InfoOf, listings);
  }

  lemma GroupInfoStep(listings: seq<Listing>, l: Listing, entry: RoleInstances)
    requires entry == InfoOf(l)
    ensures GroupInfo(listings + [l]) == GroupInfo(listings)[l.role.name := entry]
  {
    GroupInfoLengths(listings);
    MappedPush(RoleOf, listings, l);
    MappedPush(InfoOf, listings, l);
    InfoStep(Mapped(RoleOf, listings), l.role, Mapped(InfoOf, listings), entry);
  }

  lemma InfoStep(roles: seq<Role>, role: Role, entries: seq<RoleInstances>, entry: RoleInstances)
    requires |entries| == |roles|
    ensures Info(roles + [role], entries + [entry]) == Info(roles, entries)[role.name := entry]
  {
    assert (roles + [role])[..|roles|] == roles;
    assert (entries + [entry])[..|entries|] == entries;
  }

  predicate UniqueNames(roles: seq<Role>) {
    forall i, j :: 0 <= i < j < |roles| ==> roles[i].name != roles[j].name
  }

  predicate Describes(info: map<string, RoleInstances>, roles: seq<Role>) {
    forall k :: 0 <= k < |roles| ==> roles[k].name in info
  }

  function TotalListed(roles: seq<Role>, info: map<string, RoleInstances>): nat
    requires Describes(info, roles)
  {
    if roles == [] then 0
    else TotalListed(roles[..|roles| - 1], info) + info[roles[|roles| - 1].name].size
  }

  lemma {:induction false} TotalUnchanged(roles: seq<Role>, info: map<string, RoleInstances>, name: string,
                                          r: RoleInstances)
    requires Describes(info, roles) && forall k :: 0 <= k < |roles| ==> roles[k].name != name
    ensures TotalListed(roles, info[name := r]) == TotalListed(roles, info)
    decreases |roles|
  {
    if roles != [] { TotalUnchanged(roles[..|roles| - 1], info, name, r); }
  }

  predicate EntriesCounted(roles: seq<Role>, entries: seq<RoleInstances>)
    requires |roles| == |entries|
  {
    forall k :: 0 <= k < |roles| ==> entries[k].size == SubGroupSize(roles[k]) * roles[k].replicas
  }

  lemma {:induction false} TotalIsGroupSize(roles: seq<Role>, entries: seq<RoleInstances>)
    requires |roles| == |entries| && UniqueNames(roles) && EntriesCounted(roles, entries)
    ensures Describes(Info(roles, entries), roles)
    ensures TotalListed(roles, Info(roles, entries)) == GroupSize(roles)
    decreases |roles|
  {
    if roles != [] {
      var n := |roles| - 1;
      TotalIsGroupSize(roles[..n], entries[..n]);
      var info := Info(roles[..n], entries[..n]);
      forall k | 0 <= k < n
        ensures roles[k].name in info
      {
        assert roles[..n][k].name in info;
      }
      TotalUnchanged(roles[..n], info, roles[n].name, entries[n]);
    }
  }

  /** For uniquely named roles whose own counts agree, the discovery config lists as many instances as the gang
      scheduler counts pods. */
  lemma EnumerationMatchesSize(listings: seq<Listing>)
    requires UniqueNames(Mapped(RoleOf, listings))
    requires forall l :: l in listings ==> CountsAgree(l.role)
    ensures Describes(GroupInfo(listings), Mapped(RoleOf, listings))
    ensures TotalListed(Mapped(RoleOf, listings), GroupInfo(listings)) == GroupSize(Mapped(RoleOf, listings))
  {
    MappedAt(RoleOf, listings);
    MappedAt(InfoOf, listings);
    var roles, entries := Mapped(RoleOf, listings), Mapped(InfoOf, listings);
    forall k | 0 <= k < |roles|
      ensures entries[k].size == SubGroupSize(roles[k]) * roles[k].replicas
    {
      var l := listings[k];
      assert l in listings;
      assert entries[k] == InfoOf(l);
      RoleCountExactly(l.role, Addresser(l.workload, l.service.GetOr("")), PortMap(l.role.ports));
    }
    TotalIsGroupSize(roles, entries);
  }

  // ----- The ordinals of a LeaderWorkerSet role

  predicate IsLeaderWorkerSet(role: Role) {
    role.components.None? && role.leaderWorker.Some? && role.workloadType == LEADER_WORKER_SET
  }

  lemma OrdinalRuns(a: nat, b: nat)
    ensures OrdinalPods(0, a) + OrdinalPods(a, b) == OrdinalPods(0, a + b)
  {
    OrdinalCount(0, a);
    OrdinalCount(a, b);
    OrdinalCount(0, a + b);
  }

  lemma {:induction false} OrdinalsInOrder(role: Role, n: nat)
    requires IsLeaderWorkerSet(role) && LeaderWorkerSize(role.leaderWorker.value) >= 1
    ensures Pods(role, n) == OrdinalPods(0, n * LeaderWorkerSize(role.leaderWorker.value))
  {
    var size := LeaderWorkerSize(role.leaderWorker.value);
    if n > 0 {
      OrdinalsInOrder(role, n - 1);
      assert (n - 1) * size + size == n * size;
      assert (n - 1) * size >= 0;
      OrdinalRuns((n - 1) * size, size);
    }
  }

  lemma {:induction false} LeadersOnly(role: Role, n: nat, k: nat)
    requires IsLeaderWorkerSet(role) && LeaderWorkerSize(role.leaderWorker.value) <= 1 && k < n
    ensures |Pods(role, n)| == n
    ensures Pods(role, n)[k] == Ordinal(k * LeaderWorkerSize(role.leaderWorker.value))
  {
    PodCount(role, n);
    PodCount(role, n - 1);
    var size := LeaderWorkerSize(role.leaderWorker.value);
    if k < n - 1 {
      LeadersOnly(role, n - 1, k);
    } else {
      OrdinalCount((n - 1) * size, 1);
    }
  }

  /** The ordinals are 0, 1, 2 and so on, up to the last pod of the last group, exactly when groups have a positive
      size or there is at most one group. */
  lemma OrdinalsExactly(role: Role)
    requires IsLeaderWorkerSet(role) && role.replicas >= 0
    ensures Pods(role, role.replicas) == OrdinalPods(0, role.replicas * SubGroupSize(role))
            <==> LeaderWorkerSize(role.leaderWorker.value) >= 1 || role.replicas <= 1
  {
    var size, r := LeaderWorkerSize(role.leaderWorker.value), role.replicas;
    if size >= 1 {
      OrdinalsInOrder(role, r);
    } else if r == 1 {
      SingleLeader(role);
    } else if r > 1 {
      LeadersOnly(role, r, 1);
      OrdinalCount(0, r * SubGroupSize(role));
      assert OrdinalPods(0, r * SubGroupSize(role))[1] == Ordinal(1);
    }
  }

  lemma SingleLeader(role: Role)
    requires IsLeaderWorkerSet(role) && LeaderWorkerSize(role.leaderWorker.value) <= 1
    ensures Pods(role, 1) == OrdinalPods(0, 1)
  {
    LeadersOnly(role, 1, 0);
    OrdinalCount(0, 1);
  }
}
