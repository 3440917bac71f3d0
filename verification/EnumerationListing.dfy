/** What is listed where: each address in a role's discovery config, written out, and the pod behind it. */
module EnumerationListing {
  import opened Wrappers
  import opened Sequences
  import opened Decimal
  import opened Arithmetic
  import opened Enumeration

  /** The number of instances in a role's discovery config. */
  function InstanceCount(role: Role, workload: string, service: string): nat {
    |Listed(role, Addresser(workload, service), PortMap(role.ports))|
  }

  /** What is listed at a position. */
  predicate ListedAt(role: Role, workload: string, service: string, k: int, address: string) {
    && 0 <= k < InstanceCount(role, workload, service)
    && Listed(role, Addresser(workload, service), PortMap(role.ports))[k].address == address
  }

  lemma AddressOfPod(role: Role, workload: string, service: string, k: nat)
    requires k < |Pods(role, role.replicas)|
    ensures ListedAt(role, workload, service, k, Address(Pods(role, role.replicas)[k], workload, service))
  {
    var pods, format, ports := Pods(role, role.replicas), Addresser(workload, service), PortMap(role.ports);
    MappedAt(format, pods);
    MappedAt(WithPort(ports), Mapped(format, pods));
  }

  /** Position j of replica i, when every replica lists that many instances. */
  function Slot(count: nat, i: nat, j: nat): nat {
    i * count + j
  }

  lemma {:induction false} PodAt(role: Role, n: nat, i: nat, j: nat)
    requires i < n && j < ReplicaCount(role)
    ensures Slot(ReplicaCount(role), i, j) < |Pods(role, n)| && j < |ReplicaPods(role, i)|
    ensures Pods(role, n)[Slot(ReplicaCount(role), i, j)] == ReplicaPods(role, i)[j]
    decreases n
  {
    PodCount(role, n - 1);
    ReplicaPodCount(role, n - 1);
    if i < n - 1 {
      PodAt(role, n - 1, i, j);
    } else {
      assert ReplicaCount(role) * i == i * ReplicaCount(role);
    }
  }

  /** A pod that every replica i has at position j, under its address. */
  lemma ListedAtReplica(role: Role, workload: string, service: string, i: nat, j: nat, count: nat, pod: Pod)
    requires i < role.replicas && j < count == ReplicaCount(role)
    requires j < |ReplicaPods(role, i)| ==> ReplicaPods(role, i)[j] == pod
    ensures ListedAt(role, workload, service, Slot(count, i, j), Address(pod, workload, service))
  {
    PodAt(role, role.replicas, i, j);
    AddressOfPod(role, workload, service, Slot(count, i, j));
  }

  /** The pods of one replica. */
  function PodsEach(role: Role): nat {
    if role.components.Some? then Before(role.components.value, |role.components.value|)
    else if role.leaderWorker.Some? then GroupOf(role.leaderWorker.value)
    else 1
  }

  lemma PodsEachCounted(role: Role)
    ensures PodsEach(role) == ReplicaCount(role)
  {
    if role.components.Some? { BeforeTotal(role.components.value); }
  }

  /** Every replica lists all its pods, and there are no other instances. */
  lemma InstanceTotal(role: Role, workload: string, service: string)
    requires 0 <= role.replicas
    ensures InstanceCount(role, workload, service) == PodsEach(role) * role.replicas
  {
    PodsEachCounted(role);
    ListedCount(role, Addresser(workload, service), PortMap(role.ports));
  }

  // ----- The addresses of the four kinds of roles

  lemma SlotOfOne(i: nat)
    ensures Slot(1, i, 0) == i
  {
  }

  /** A role without a pattern of several pods lists its pods by their ordinals. */
  lemma SinglePodAddresses(role: Role, workload: string, service: string, i: nat)
    requires role.components.None? && role.leaderWorker.None? && i < role.replicas
    ensures ListedAt(role, workload, service, i, workload + "-" + FormatInt(i) + "." + service)
  {
    ListedAtReplica(role, workload, service, i, 0, 1, Ordinal(i));
    SlotOfOne(i);
  }

  /** The size of a group, one if it is not given or not positive. */
  function GroupOf(lw: LeaderWorker): nat {
    if lw.size.Some? && 1 < lw.size.value then lw.size.value else 1
  }

  /** A leader-worker group of a RoleInstanceSet lists the leader, number 0, and the workers after it. */
  lemma LeaderWorkerAddresses(role: Role, workload: string, service: string, i: nat, j: nat)
    requires role.components.None? && role.leaderWorker.Some?
    requires role.workloadType != "leaderworkerset.x-k8s.io/v1/LeaderWorkerSet"
    requires i < role.replicas && j < GroupOf(role.leaderWorker.value)
    ensures ListedAt(role, workload, service, Slot(PodsEach(role), i, j),
                     workload + "-" + FormatInt(i) + "-" + FormatInt(j) + "." + service)
  {
    MemberCount(i, GroupOf(role.leaderWorker.value));
    ListedAtReplica(role, workload, service, i, j, PodsEach(role), Member(i, j));
  }

  lemma OrdinalOfMember(role: Role, i: nat, j: nat)
    requires role.components.None? && role.leaderWorker.Some? && role.workloadType == LEADER_WORKER_SET
    requires j < GroupOf(role.leaderWorker.value)
    ensures ReplicaCount(role) == GroupOf(role.leaderWorker.value)
    ensures j < |ReplicaPods(role, i)|
    ensures ReplicaPods(role, i)[j] == Ordinal(i * role.leaderWorker.value.size.GetOr(1) + j)
  {
    var start := i * LeaderWorkerSize(role.leaderWorker.value);
    OrdinalCount(start, GroupOf(role.leaderWorker.value));
    assert ReplicaPods(role, i) == OrdinalPods(start, GroupOf(role.leaderWorker.value));
  }

  /** Member j of group i of a LeaderWorkerSet has the ordinal size times i plus j. */
  lemma LeaderWorkerSetAddresses(role: Role, workload: string, service: string, i: nat, j: nat)
    requires role.components.None? && role.leaderWorker.Some?
    requires role.workloadType == "leaderworkerset.x-k8s.io/v1/LeaderWorkerSet"
    requires i < role.replicas && j < GroupOf(role.leaderWorker.value)
    ensures ListedAt(role, workload, service, Slot(PodsEach(role), i, j),
                     workload + "-" + FormatInt(i * role.leaderWorker.value.size.GetOr(1) + j) + "." + service)
  {
    OrdinalOfMember(role, i, j);
    var k := i * role.leaderWorker.value.size.GetOr(1) + j;
    ListedAtReplica(role, workload, service, i, j, PodsEach(role), Ordinal(k));
    assert Address(Ordinal(k), workload, service) == workload + "-" + FormatInt(k) + "." + service;
  }

  /** The pods before those of component m, in one instance. */
  function Before(components: seq<Component>, m: nat): nat
    requires m <= |components|
  {
    if m == 0 then 0 else Before(components, m - 1) + Max(components[m - 1].size.GetOr(1), 0)
  }

  lemma {:induction false} ComponentPodAt(components: seq<Component>, i: nat, m: nat, j: nat)
    requires m < |components| && j < Max(components[m].size.GetOr(1), 0)
    ensures 0 <= Before(components, m) + j < |ComponentPods(components, i)|
    ensures ComponentPods(components, i)[Before(components, m) + j] ==
            ComponentPod(i, components[m].name, j, components[m].serviceName)
    decreases |components|
  {
    var n := |components| - 1;
    var init, last := components[..n], components[n];
    OnePartCount(last, i, ComponentSize(last));
    BeforePrefix(components, n, m);
    if m < n {
      ComponentPodAt(init, i, m, j);
      assert ComponentPods(components, i)[..|ComponentPods(init, i)|] == ComponentPods(init, i);
    } else {
      ComponentPodCount(init, i);
      BeforeTotal(init);
    }
  }

  lemma {:induction false} BeforePrefix(components: seq<Component>, n: nat, m: nat)
    requires m <= n <= |components|
    ensures Before(components[..n], m) == Before(components, m)
  {
    if 0 < m { BeforePrefix(components, n, m - 1); }
  }

  lemma {:induction false} BeforeTotal(components: seq<Component>)
    ensures Before(components, |components|) == ComponentTotal(components)
    decreases |components|
  {
    if components != [] {
      var n := |components| - 1;
      BeforeTotal(components[..n]);
      BeforePrefix(components, n, n);
    }
  }

  lemma ComponentPodListed(role: Role, workload: string, service: string, i: nat, m: nat, j: nat, pod: Pod)
    requires role.components.Some? && i < role.replicas
    requires m < |role.components.value| && j < Max(role.components.value[m].size.GetOr(1), 0)
    requires pod == ComponentPod(i, role.components.value[m].name, j, role.components.value[m].serviceName)
    ensures ListedAt(role, workload, service, Slot(PodsEach(role), i, Before(role.components.value, m) + j),
                     Address(pod, workload, service))
  {
    var components := role.components.value;
    PodsEachCounted(role);
    ComponentPodAt(components, i, m, j);
    ComponentPodCount(components, i);
    ListedAtReplica(role, workload, service, i, Before(components, m) + j, PodsEach(role), pod);
  }

  /** Pod j of component m of instance i: the component's own service overrides the shared one. */
  lemma ComponentPodAddresses(role: Role, workload: string, service: string, i: nat, m: nat, j: nat)
    requires role.components.Some? && i < role.replicas
    requires m < |role.components.value| && j < Max(role.components.value[m].size.GetOr(1), 0)
    ensures var c := role.components.value[m];
            ListedAt(role, workload, service, Slot(PodsEach(role), i, Before(role.components.value, m) + j),
                     workload + "-" + FormatInt(i) + "-" + c.name + "-" + FormatInt(j) + "."
                     + (if c.serviceName != "" then c.serviceName else service))
  {
    var c := role.components.value[m];
    ComponentPodListed(role, workload, service, i, m, j, ComponentPod(i, c.name, j, c.serviceName));
  }
}
