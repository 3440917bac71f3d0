/** The addresses written into a role's discovery config, and their agreement with the size of the group. */
module Enumeration {
  import opened Wrappers
  import opened Sequences
  import opened Decimal
  import opened Arithmetic

  const LEADER_WORKER_SET := "leaderworkerset.x-k8s.io/v1/LeaderWorkerSet"

  datatype Component = Component(name: string, size: Option<int>, serviceName: string)

  datatype LeaderWorker = LeaderWorker(size: Option<int>)

  datatype Port = Port(name: string, port: int)

  datatype Role = Role(
    name: string,
    replicas: int,
    workloadType: string,
    components: Option<seq<Component>>,
    leaderWorker: Option<LeaderWorker>,
    ports: seq<Port>)

  datatype Instance = Instance(address: string, ports: map<string, int>)

  // ----- The pods of a role

  /** What an address stands for; of a component's pod, `service` is the component's own service or empty. */
  datatype Pod =
    | Ordinal(ordinal: int)
    | Member(instance: nat, member: nat)
    | ComponentPod(instance: nat, component: string, member: nat, service: string)

  function ComponentSize(c: Component): nat {
    match c.size
    case None => 1
    case Some(n) => Max(n, 0)
  }

  function LeaderWorkerSize(lw: LeaderWorker): int {
    match lw.size
    case None => 1
    case Some(n) => n
  }

  function ComponentPods(components: seq<Component>, i: nat): seq<Pod> {
    if components == [] then []
    else
      var c := components[|components| - 1];
      ComponentPods(components[..|components| - 1], i) + OnePartPods(c, i, ComponentSize(c))
  }

  function OnePartPods(c: Component, i: nat, n: nat): seq<Pod> {
    if n == 0 then [] else OnePartPods(c, i, n - 1) + [ComponentPod(i, c.name, n - 1, c.serviceName)]
  }

  function OrdinalPods(start: int, n: nat): seq<Pod> {
    if n == 0 then [] else OrdinalPods(start, n - 1) + [Ordinal(start + n - 1)]
  }

  function MemberPods(i: nat, n: nat): seq<Pod> {
    if n == 0 then [] else MemberPods(i, n - 1) + [Member(i, n - 1)]
  }

  /** The pods of replica i: custom components before a leader-worker group before a single pod. */
  function ReplicaPods(role: Role, i: nat): seq<Pod> {
    if role.components.Some? then ComponentPods(role.components.value, i)
    else if role.leaderWorker.Some? then
      var size := LeaderWorkerSize(role.leaderWorker.value);
      if role.workloadType == LEADER_WORKER_SET then OrdinalPods(i * size, Max(size, 1))
      else MemberPods(i, Max(size, 1))
    else [Ordinal(i)]
  }

  function Pods(role: Role, n: int): seq<Pod> {
    if n <= 0 then [] else Pods(role, n - 1) + ReplicaPods(role, n - 1)
  }

  // ----- Addresses

  function Address(pod: Pod, workload: string, service: string): string {
    match pod
    case Ordinal(k) => workload + "-" + FormatInt(k) + "." + service
    case Member(i, j) => workload + "-" + FormatInt(i) + "-" + FormatInt(j) + "." + service
    case ComponentPod(i, c, j, own) =>
      workload + "-" + FormatInt(i) + "-" + c + "-" + FormatInt(j) + "." + (if own == "" then service else own)
  }

  function Addresser(workload: string, service: string): Pod -> string {
    (pod: Pod) => Address(pod, workload, service)
  }

  function Lower(c: char): char {
    if 'A' <= c <= 'Z' then c + 32 as char else c
  }

  function PortKey(p: Port): string {
    if p.name != "" then
      seq(|p.name|, k requires 0 <= k < |p.name| => if p.name[k] == '-' then '_' else Lower(p.name[k]))
    else "port" + FormatInt(p.port)
  }

  const UPPER := "ABCDEFGHIJKLMNOPQRSTUVWXYZ"
  const LOWER := "abcdefghijklmnopqrstuvwxyz"

  lemma LowerLetter(i: nat)
    requires i < |UPPER|
    ensures |UPPER| == |LOWER| && Lower(UPPER[i]) == LOWER[i]
  {
  }

  /** A named port is listed under its name in lower case with underscores, another one under its number. */
  lemma PortKeyMeaning(p: Port)
    ensures p.name == "" ==> PortKey(p) == "port" + FormatInt(p.port)
    ensures p.name != "" ==> |PortKey(p)| == |p.name|
    ensures p.name != "" ==> forall k, i :: 0 <= k < |p.name| && 0 <= i < |UPPER| && p.name[k] == UPPER[i] ==>
              PortKey(p)[k] == LOWER[i]
    ensures p.name != "" ==> forall k :: 0 <= k < |p.name| && p.name[k] == '-' ==> PortKey(p)[k] == '_'
    ensures p.name != "" ==> forall k :: 0 <= k < |p.name| && p.name[k] != '-' && p.name[k] !in UPPER ==>
              PortKey(p)[k] == p.name[k]
  {
    forall i | 0 <= i < |UPPER|
      ensures Lower(UPPER[i]) == LOWER[i] && UPPER[i] != '-'
    {
      LowerLetter(i);
    }
    forall c: char | 'A' <= c <= 'Z'
      ensures c in UPPER
    {
      assert UPPER[c as int - 'A' as int] == c;
    }
  }

  function PortNumber(p: Port): int {
    p.port
  }

  function PortMap(ports: seq<Port>): map<string, int> {
    LastByKey(PortKey, PortNumber, ports)
  }

  method OneComponentAddresses(c: Component, i: nat, format: Pod -> string) returns (addresses: seq<string>)
    ensures addresses == Mapped(format, OnePartPods(c, i, ComponentSize(c)))
  {
    addresses := [];
    var j := 0;
    while j < c.size.GetOr(1)
      invariant 0 <= j <= ComponentSize(c)
      invariant addresses == Mapped(format, OnePartPods(c, i, j))
    {
      var pod := ComponentPod(i, c.name, j, c.serviceName);
      MappedPush(format, OnePartPods(c, i, j), pod);
      addresses := addresses + [format(pod)];
      j := j + 1;
    }
  }

  method ComponentAddresses(components: seq<Component>, i: nat, format: Pod -> string) returns (addresses: seq<string>)
    ensures addresses == Mapped(format, ComponentPods(components, i))
  {
    addresses := [];
    for k := 0 to |components|
      invariant addresses == Mapped(format, ComponentPods(components[..k], i))
    {
      assert components[..k + 1][..k] == components[..k];
      var more := OneComponentAddresses(components[k], i, format);
      addresses := addresses + more;
      MappedConcat(format, ComponentPods(components[..k], i),
                   OnePartPods(components[k], i, ComponentSize(components[k])));
    }
    assert components[..|components|] == components;
  }

  method OrdinalAddresses(groupStart: int, size: int, format: Pod -> string) returns (addresses: seq<string>)
    ensures addresses == Mapped(format, OrdinalPods(groupStart, Max(size, 1)))
  {
    MappedPush(format, [], Ordinal(groupStart));
    addresses := [format(Ordinal(groupStart))];
    assert OrdinalPods(groupStart, 1) == [] + [Ordinal(groupStart)];
    var j := 0;
    while j < size - 1
      invariant 0 <= j <= Max(size, 1) - 1
      invariant addresses == Mapped(format, OrdinalPods(groupStart, j + 1))
    {
      var worker := Ordinal(groupStart + j + 1);
      MappedPush(format, OrdinalPods(groupStart, j + 1), worker);
      addresses := addresses + [format(worker)];
      j := j + 1;
    }
  }

  method MemberAddresses(i: nat, size: int, format: Pod -> string) returns (addresses: seq<string>)
    ensures addresses == Mapped(format, MemberPods(i, Max(size, 1)))
  {
    MappedPush(format, [], Member(i, 0));
    addresses := [format(Member(i, 0))];
    assert MemberPods(i, 1) == [] + [Member(i, 0)];
    var j := 0;
    while j < size - 1
      invariant 0 <= j <= Max(size, 1) - 1
      invariant addresses == Mapped(format, MemberPods(i, j + 1))
    {
      var worker := Member(i, j + 1);
      MappedPush(format, MemberPods(i, j + 1), worker);
      addresses := addresses + [format(worker)];
      j := j + 1;
    }
  }

  method ReplicaAddresses(role: Role, i: nat, format: Pod -> string) returns (addresses: seq<string>)
    ensures addresses == Mapped(format, ReplicaPods(role, i))
  {
    if role.components.Some? {
      addresses := ComponentAddresses(role.components.value, i, format);
    } else if role.leaderWorker.Some? {
      var size := LeaderWorkerSize(role.leaderWorker.value);
      if role.workloadType == LEADER_WORKER_SET {
        addresses := OrdinalAddresses(i * size, size, format);
      } else {
        addresses := MemberAddresses(i, size, format);
      }
    } else {
      MappedPush(format, [], Ordinal(i));
      assert ReplicaPods(role, i) == [] + [Ordinal(i)];
      addresses := [format(Ordinal(i))];
    }
  }

  method BuildPortMap(ports: seq<Port>) returns (portMap: map<string, int>)
    ensures portMap == PortMap(ports)
    ensures forall k :: k in portMap <==> exists i: nat :: LastWith(PortKey, ports, i, k)
    ensures forall k, i: nat :: LastWith(PortKey, ports, i, k) ==> k in portMap && portMap[k] == ports[i].port
  {
    portMap := map[];
    for k := 0 to |ports|
      invariant portMap == PortMap(ports[..k])
    {
      assert ports[..k + 1][..k] == ports[..k];
      portMap := portMap[PortKey(ports[k]) := ports[k].port];
    }
    assert ports[..|ports|] == ports;
    forall k: string
      ensures k in portMap <==> exists i: nat :: LastWith(PortKey, ports, i, k)
      ensures forall i: nat :: LastWith(PortKey, ports, i, k) ==> k in portMap && portMap[k] == ports[i].port
    {
      LastByKeyMeaning(PortKey, PortNumber, ports, k);
    }
  }

  function WithPort(ports: map<string, int>): string -> Instance {
    (address: string) => Instance(address, ports)
  }

  /** One instance for every pod of the role, all with the role's ports. */
  function Listed(role: Role, format: Pod -> string, ports: map<string, int>): seq<Instance> {
    ListedBelow(role, format, ports, role.replicas)
  }

  method InstancesByReplica(role: Role, format: Pod -> string, portMap: map<string, int>)
    returns (instances: seq<Instance>)
    ensures instances == Listed(role, format, portMap)
  {
    instances := [];
    var i := 0;
    while i < role.replicas
      invariant 0 <= i <= Max(role.replicas, 0)
      invariant instances == ListedBelow(role, format, portMap, i)
    {
      var addresses := ReplicaAddresses(role, i, format);
      var more := WithPorts(addresses, portMap);
      ListedNext(role, format, portMap, i);
      instances := instances + more;
      i := i + 1;
    }
    ListedAll(role, format, portMap, i);
  }

  /** The instances of the first n replicas. */
  function ListedBelow(role: Role, format: Pod -> string, ports: map<string, int>, n: int): seq<Instance> {
    Mapped(WithPort(ports), Mapped(format, Pods(role, n)))
  }

  lemma ListedNext(role: Role, format: Pod -> string, ports: map<string, int>, n: nat)
    ensures ListedBelow(role, format, ports, n + 1) ==
            ListedBelow(role, format, ports, n) + Mapped(WithPort(ports), Mapped(format, ReplicaPods(role, n)))
  {
    var pods, more := Pods(role, n), ReplicaPods(role, n);
    assert Pods(role, n + 1) == pods + more;
    MappedConcat(format, pods, more);
    MappedConcat(WithPort(ports), Mapped(format, pods), Mapped(format, more));
  }

  lemma ListedAll(role: Role, format: Pod -> string, ports: map<string, int>, n: nat)
    requires n == Max(role.replicas, 0)
    ensures ListedBelow(role, format, ports, n) == Listed(role, format, ports)
  {
    assert Pods(role, n) == Pods(role, role.replicas);
  }

  method BuildInstances(role: Role, workload: string, service: string) returns (instances: seq<Instance>)
    ensures instances == Listed(role, Addresser(workload, service), PortMap(role.ports))
    ensures forall k :: 0 <= k < |instances| ==> instances[k].ports == PortMap(role.ports)
  {
    var portMap := BuildPortMap(role.ports);
    instances := InstancesByReplica(role, Addresser(workload, service), portMap);
    MappedAt(WithPort(portMap), Mapped(Addresser(workload, service), Pods(role, role.replicas)));
  }

  method WithPorts(addresses: seq<string>, portMap: map<string, int>) returns (instances: seq<Instance>)
    ensures instances == Mapped(WithPort(portMap), addresses)
  {
    instances := [];
    for k := 0 to |addresses|
      invariant instances == Mapped(WithPort(portMap), addresses[..k])
    {
      assert addresses[..k + 1][..k] == addresses[..k];
      instances := instances + [Instance(addresses[k], portMap)];
    }
    assert addresses[..|addresses|] == addresses;
  }

  // ----- Agreement with the size of the group

  /** The pods one replica counts for: a leader-worker group before custom components before a single pod. */
  function SubGroupSize(role: Role): nat {
    if role.leaderWorker.Some? then Max(LeaderWorkerSize(role.leaderWorker.value), 1)
    else if role.components.Some? then ComponentTotal(role.components.value)
    else 1
  }

  function ComponentTotal(components: seq<Component>): nat {
    if components == [] then 0
    else ComponentTotal(components[..|components| - 1]) + ComponentSize(components[|components| - 1])
  }

  method ComputeSubGroupSize(role: Role) returns (size: nat)
    ensures size == SubGroupSize(role)
  {
    if role.leaderWorker.Some? {
      if role.leaderWorker.value.size.Some? { return Max(role.leaderWorker.value.size.value, 1); }
      return 1;
    }
    if role.components.Some? {
      var components := role.components.value;
      size := 0;
      for k := 0 to |components|
        invariant size == ComponentTotal(components[..k])
      {
        assert components[..k + 1][..k] == components[..k];
        if components[k].size.None? {
          size := size + 1;
        } else {
          size := size + Max(components[k].size.value, 0);
        }
      }
      assert components[..|components|] == components;
      return;
    }
    return 1;
  }

  function GroupSize(roles: seq<Role>): int {
    if roles == [] then 0
    else GroupSize(roles[..|roles| - 1]) + SubGroupSize(roles[|roles| - 1]) * roles[|roles| - 1].replicas
  }

  method GetGroupSize(roles: seq<Role>) returns (size: int)
    ensures size == GroupSize(roles)
  {
    size := 0;
    for k := 0 to |roles|
      invariant size == GroupSize(roles[..k])
    {
      assert roles[..k + 1][..k] == roles[..k];
      var one := ComputeSubGroupSize(roles[k]);
      size := size + one * roles[k].replicas;
    }
    assert roles[..|roles|] == roles;
  }

  lemma {:induction false} ComponentPodCount(components: seq<Component>, i: nat)
    ensures |ComponentPods(components, i)| == ComponentTotal(components)
    decreases |components|
  {
    if components != [] {
      ComponentPodCount(components[..|components| - 1], i);
      OnePartCount(components[|components| - 1], i, ComponentSize(components[|components| - 1]));
    }
  }

  lemma {:induction false} OnePartCount(c: Component, i: nat, n: nat)
    ensures |OnePartPods(c, i, n)| == n
    ensures forall j :: 0 <= j < n ==> OnePartPods(c, i, n)[j] == ComponentPod(i, c.name, j, c.serviceName)
  {
    if n > 0 { OnePartCount(c, i, n - 1); }
  }

  lemma {:induction false} OrdinalCount(start: int, n: nat)
    ensures |OrdinalPods(start, n)| == n
    ensures forall j :: 0 <= j < n ==> OrdinalPods(start, n)[j] == Ordinal(start + j)
  {
    if n > 0 { OrdinalCount(start, n - 1); }
  }

  lemma {:induction false} MemberCount(i: nat, n: nat)
    ensures |MemberPods(i, n)| == n
    ensures forall j :: 0 <= j < n ==> MemberPods(i, n)[j] == Member(i, j)
  {
    if n > 0 { MemberCount(i, n - 1); }
  }

  /** The pods listed for one replica. */
  function ReplicaCount(role: Role): nat {
    if role.components.Some? then ComponentTotal(role.components.value) else SubGroupSize(role)
  }

  lemma ReplicaPodCount(role: Role, i: nat)
    ensures |ReplicaPods(role, i)| == ReplicaCount(role)
  {
    if role.components.Some? {
      ComponentPodCount(role.components.value, i);
    } else if role.leaderWorker.Some? {
      var size := LeaderWorkerSize(role.leaderWorker.value);
      OrdinalCount(i * size, Max(size, 1));
      MemberCount(i, Max(size, 1));
    }
  }

  lemma {:induction false} PodCount(role: Role, n: int)
    ensures |Pods(role, n)| == ReplicaCount(role) * Max(n, 0)
    decreases n
  {
    if n > 0 {
      PodCount(role, n - 1);
      ReplicaPodCount(role, n - 1);
      assert ReplicaCount(role) * n == ReplicaCount(role) * (n - 1) + ReplicaCount(role);
    }
  }

  lemma ListedCount(role: Role, format: Pod -> string, ports: map<string, int>)
    ensures |Listed(role, format, ports)| == ReplicaCount(role) * Max(role.replicas, 0)
  {
    var pods := Pods(role, role.replicas);
    PodCount(role, role.replicas);
    MappedAt(format, pods);
    MappedAt(WithPort(ports), Mapped(format, pods));
  }

  predicate CountsAgree(role: Role) {
    || role.replicas == 0
    || (role.replicas > 0 && (role.components.None? || role.leaderWorker.None? ||
                              ComponentTotal(role.components.value) == SubGroupSize(role)))
    || (role.replicas < 0 && SubGroupSize(role) == 0)
  }

  /** A role with replicas lists as many instances as it counts for exactly when it does not carry both patterns,
      or both happen to have the same number of pods. */
  lemma RoleCountExactly(role: Role, format: Pod -> string, ports: map<string, int>)
    ensures |Listed(role, format, ports)| == SubGroupSize(role) * role.replicas <==> CountsAgree(role)
  {
    ListedCount(role, format, ports);
    var r := role.replicas;
    if r > 0 && ReplicaCount(role) != SubGroupSize(role) {
      ProductsDiffer(ReplicaCount(role), SubGroupSize(role), r);
    }
    if r < 0 && SubGroupSize(role) > 0 {
      ProductsDiffer(0, SubGroupSize(role), -r);
    }
  }

  lemma ProductsDiffer(a: nat, b: nat, n: int)
    requires n > 0 && a != b
    ensures a * n != b * n
  {
    assert a * n - b * n == (a - b) * n;
    if a < b { assert (b - a) * n > 0; } else { assert (a - b) * n > 0; }
  }
}
