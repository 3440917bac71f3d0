/** What a container of a role instance finally reads from its variables, and that the leader address it reads is the
    one listed for discovery and the host name of the leader pod. */
module LeaderAddress {
  import opened Wrappers
  import opened Decimal
  import opened Arithmetic
  import opened EnvMerge
  import Enumeration
  import opened EnumerationListing

  type Role = Enumeration.Role

  // ----- Starting a container: references are replaced in the order of the variables

  /** The first position of c in s from `from` on, or the length of s. */
  function Find(s: string, c: char, from: nat): (k: nat)
    requires from <= |s|
    ensures from <= k <= |s| && (k < |s| ==> s[k] == c) && forall i :: from <= i < k ==> s[i] != c
    decreases |s| - from
  {
    if from == |s| || s[from] == c then from else Find(s, c, from + 1)
  }

  /** As Kubernetes expands `$(NAME)`: an unknown name is left as it stands, and `$$` is a dollar sign. */
  function Expand(text: string, env: map<string, string>): string
    decreases |text|
  {
    if |text| < 2 then text
    else if text[0] != '$' then [text[0]] + Expand(text[1..], env)
    else if text[1] == '$' then "$" + Expand(text[2..], env)
    else if text[1] == '(' && Find(text, ')', 2) < |text| then
      var close := Find(text, ')', 2);
      var name := text[2..close];
      (if name in env then env[name] else text[..close + 1]) + Expand(text[close + 1..], env)
    else [text[0]] + Expand(text[1..], env)
  }

  lemma {:induction false} ExpandPlain(text: string, env: map<string, string>)
    requires '$' !in text
    ensures Expand(text, env) == text
    decreases |text|
  {
    if 2 <= |text| {
      ExpandPlain(text[1..], env);
      assert text == [text[0]] + text[1..];
    }
  }

  lemma ExpandReference(name: string, rest: string, env: map<string, string>)
    requires ')' !in name && name in env
    ensures Expand("$(" + name + ")" + rest, env) == env[name] + Expand(rest, env)
  {
    var text := "$(" + name + ")" + rest;
    var close := 2 + |name|;
    assert text[close] == ')';
    assert forall i :: 2 <= i < close ==> text[i] == name[i - 2];
    assert Find(text, ')', 2) == close;
    assert text[2..close] == name && text[close + 1..] == rest;
  }

  function Resolve(v: Value, env: map<string, string>, labels: map<string, string>): string {
    match v
    case Literal(text) => Expand(text, env)
    case Label(key) => if key in labels then labels[key] else ""
  }

  /** The variables as the container reads them, in a pod with these labels. */
  function Evaluate(envs: seq<EnvVar>, labels: map<string, string>): map<string, string> {
    if envs == [] then map[]
    else
      var before, last := Evaluate(envs[..|envs| - 1], labels), envs[|envs| - 1];
      before[last.name := Resolve(last.value, before, labels)]
  }

  lemma {:induction false} EvaluateAt(envs: seq<EnvVar>, labels: map<string, string>, j: nat)
    requires DistinctNames(envs) && j < |envs|
    ensures envs[j].name in Evaluate(envs, labels)
    ensures Evaluate(envs, labels)[envs[j].name] == Resolve(envs[j].value, Evaluate(envs[..j], labels), labels)
    decreases |envs|
  {
    var init := envs[..|envs| - 1];
    if j < |envs| - 1 {
      EvaluateAt(init, labels, j);
      assert init[..j] == envs[..j];
      assert envs[j].name != envs[|envs| - 1].name;
    }
  }

  // ----- The values that are injected

  /** What the builders put under a name; the leader-worker variables end in the leader address. */
  function SystemValue(n: string, group: string, role: string, indexLabel: string, service: string, namespace: string)
    : Option<Value>
  {
    if n == "RBG_GROUP_NAME" then Some(Literal(group))
    else if n == "RBG_ROLE_NAME" then Some(Literal(role))
    else if n == "RBG_ROLE_INDEX" then Some(Label(indexLabel))
    else if n == "RBG_ROLE_INSTANCE_NAME" then Some(Label("rbg.workloads.x-k8s.io/role-instance-name"))
    else if n == "RBG_COMPONENT_NAME" then Some(Label("rbg.workloads.x-k8s.io/component-name"))
    else if n == "RBG_COMPONENT_INDEX" then Some(Label("rbg.workloads.x-k8s.io/component-id"))
    else if n == "RBG_LWP_LEADER_ADDRESS" then
      Some(Literal("$(" + "RBG_ROLE_INSTANCE_NAME" + ")-0." + service + "." + namespace))
    else if n == "RBG_LWP_WORKER_INDEX" then Some(Label("rbg.workloads.x-k8s.io/component-index"))
    else if n == "RBG_LWP_GROUP_SIZE" then Some(Label("rbg.workloads.x-k8s.io/component-size"))
    else None
  }

  /** A batch that only defines system variables, with the values they should have. */
  predicate Valued(batch: seq<EnvVar>, group: string, role: string, indexLabel: string, service: string,
                   namespace: string)
  {
    forall e :: e in batch ==> SystemValue(e.name, group, role, indexLabel, service, namespace) == Some(e.value)
  }

  /** So are the batches of the two builders. */
  lemma CommonValued(group: string, role: string, stateful: bool, roleInstanceSet: bool, indexLabel: string,
                     service: string, namespace: string)
    ensures Valued(CommonEnv(group, role, stateful, roleInstanceSet, indexLabel), group, role, indexLabel, service,
                   namespace)
  {
  }

  lemma LeaderWorkerValued(group: string, role: string, indexLabel: string, service: string, namespace: string)
    ensures Valued(LeaderWorkerEnv(service, namespace), group, role, indexLabel, service, namespace)
  {
  }

  lemma {:induction false} LookupInBatch(batch: seq<EnvVar>, n: string, v: Value)
    requires forall e :: e in batch && e.name == n ==> e.value == v
    ensures Lookup(batch, n) == if Defines(batch, n) then Some(v) else None
    decreases |batch|
  {
    LookupDefined(batch, n);
    if Defines(batch, n) { LookupIsMember(batch, n); }
  }

  /** When every batch gives a name the same value, a name that some batch defines ends up with it. */
  lemma {:induction false} ValueAfterRun(envs: seq<EnvVar>, batches: seq<seq<EnvVar>>, n: string, v: Value)
    requires forall k, e :: 0 <= k < |batches| && e in batches[k] && e.name == n ==> e.value == v
    requires exists k :: 0 <= k < |batches| && Defines(batches[k], n)
    ensures LastValue(envs, batches, n) == Some(v)
    decreases |batches|
  {
    var init, last := batches[..|batches| - 1], batches[|batches| - 1];
    LookupInBatch(last, n, v);
    if !Defines(last, n) {
      var k :| 0 <= k < |batches| && Defines(batches[k], n);
      assert Defines(init[k], n);
      ValueAfterRun(envs, init, n, v);
    }
  }

  /** A run of injections with the values a role's builders produce, in any order and number. */
  ghost predicate RoleInjections(batches: seq<seq<EnvVar>>, group: string, role: string, indexLabel: string,
                                 service: string, namespace: string)
  {
    forall k :: 0 <= k < |batches| ==>
      Homogeneous(batches[k]) && Valued(batches[k], group, role, indexLabel, service, namespace)
  }

  /** Whatever the container had before, a system variable that was injected holds its value, and holds it once. */
  lemma SystemVariableValue(envs: seq<EnvVar>, batches: seq<seq<EnvVar>>, group: string, role: string,
                            indexLabel: string, service: string, namespace: string, n: string)
    returns (j: nat)
    requires RoleInjections(batches, group, role, indexLabel, service, namespace)
    requires exists k :: 0 <= k < |batches| && Defines(batches[k], n)
    ensures var result := Injections(envs, batches);
            && DistinctNames(result) && j < |result| && result[j].name == n
            && Some(result[j].value) == SystemValue(n, group, role, indexLabel, service, namespace)
  {
    var result := Injections(envs, batches);
    var k :| 0 <= k < |batches| && Defines(batches[k], n);
    var i :| 0 <= i < |batches[k]| && batches[k][i].name == n;
    assert batches[k][i] in batches[k];
    var v := batches[k][i].value;
    InjectionsOrderedAndCurrent(envs, batches, n);
    ValueAfterRun(envs, batches, n, v);
    LookupDefined(result, n);
    j :| 0 <= j < |result| && result[j].name == n;
    LookupOfDistinct(result, result[j]);
  }

  // ----- The pods of a role instance, as their controllers name them

  datatype TemplateType = LeaderWorkerTemplate | ComponentsTemplate | PodTemplate

  function InstanceName(workload: string, ordinal: nat): string {
    workload + "-" + FormatInt(ordinal)
  }

  /** Workers count on from the leader. */
  function ComponentPodName(instance: string, component: string, id: nat, t: TemplateType): string {
    match t
    case LeaderWorkerTemplate =>
      instance + "-" + FormatInt(if component == "worker" then id + 1 else id)
    case ComponentsTemplate => instance + "-" + component + "-" + FormatInt(id)
    case PodTemplate => instance
  }

  const ROLE_INSTANCE_SET := "workloads.x-k8s.io/v1alpha2/RoleInstanceSet"

  /** Whom the shared service of a leader-worker role is for. */
  datatype Selection = All | LeaderOnly

  /** The service a component of a leader-worker instance is under: without a choice a RoleInstanceSet gives one to the
      leader only. */
  function ComponentService(component: string, service: string, selection: Option<Selection>): string {
    if component == "worker" && selection.GetOr(LeaderOnly) == LeaderOnly then "" else service
  }

  /** The name a pod is reached by: only under a service does it have a host name. */
  function HostAddress(pod: string, service: string): Option<string> {
    if service == "" then None else Some(pod + "." + service)
  }

  /** Discovery lists the pods a RoleInstanceSet runs under their host names: the single pod of an instance. */
  lemma SinglePodIsListed(role: Role, workload: string, service: string, i: nat)
    requires role.components.None? && role.leaderWorker.None? && i < role.replicas && service != ""
    ensures var host := HostAddress(ComponentPodName(InstanceName(workload, i), role.name, 0, PodTemplate), service);
            host.Some? && ListedAt(role, workload, service, i, host.value)
  {
    SinglePodAddresses(role, workload, service, i);
  }

  function LeaderWorkerPod(workload: string, i: nat, j: nat): string {
    if j == 0 then ComponentPodName(InstanceName(workload, i), "leader", 0, LeaderWorkerTemplate)
    else ComponentPodName(InstanceName(workload, i), "worker", j - 1, LeaderWorkerTemplate)
  }

  /** The leader and then the workers of a leader-worker instance. All are listed, and the listed address is the host
      name of every pod that has one; the workers have none exactly when the service is for the leader only. */
  lemma LeaderWorkerIsListed(role: Role, workload: string, service: string, selection: Option<Selection>, i: nat,
                             j: nat)
    requires role.components.None? && role.leaderWorker.Some? && role.workloadType == ROLE_INSTANCE_SET
    requires i < role.replicas && j < GroupOf(role.leaderWorker.value) && service != ""
    ensures var component := if j == 0 then "leader" else "worker";
            var host := HostAddress(LeaderWorkerPod(workload, i, j), ComponentService(component, service, selection));
            && (host.Some? <==> j == 0 || selection == Some(All))
            && (host.Some? ==> ListedAt(role, workload, service, Slot(PodsEach(role), i, j), host.value))
            && ListedAt(role, workload, service, Slot(PodsEach(role), i, j),
                        LeaderWorkerPod(workload, i, j) + "." + service)
  {
    LeaderWorkerAddresses(role, workload, service, i, j);
    LeaderWorkerHost(workload, i, j, service);
  }

  lemma LeaderWorkerHost(workload: string, i: nat, j: nat, service: string)
    ensures LeaderWorkerPod(workload, i, j) + "." + service ==
            workload + "-" + FormatInt(i) + "-" + FormatInt(j) + "." + service
  {
  }

  lemma ComponentHost(workload: string, i: nat, component: string, j: nat, service: string)
    ensures ComponentPodName(InstanceName(workload, i), component, j, ComponentsTemplate) + "." + service ==
            workload + "-" + FormatInt(i) + "-" + component + "-" + FormatInt(j) + "." + service
  {
  }

  /** And the pods of the components of an instance. */
  lemma ComponentPodIsListed(role: Role, workload: string, service: string, i: nat, m: nat, j: nat)
    requires role.components.Some? && i < role.replicas && service != ""
    requires m < |role.components.value| && j < Max(role.components.value[m].size.GetOr(1), 0)
    ensures var c := role.components.value[m];
            var host := HostAddress(ComponentPodName(InstanceName(workload, i), c.name, j, ComponentsTemplate),
                                    if c.serviceName != "" then c.serviceName else service);
            && host.Some?
            && ListedAt(role, workload, service, Slot(PodsEach(role), i, Before(role.components.value, m) + j),
                        host.value)
  {
    var c := role.components.value[m];
    ComponentPodAddresses(role, workload, service, i, m, j);
    ComponentHost(workload, i, c.name, j, if c.serviceName != "" then c.serviceName else service);
  }

  // ----- The leader address

  /** What follows the instance name in the leader address. */
  function LeaderSuffix(service: string, namespace: string): string {
    "-0." + service + "." + namespace
  }

  lemma LeaderText(name: string, service: string, namespace: string)
    ensures "$(" + name + ")-0." + service + "." + namespace == "$(" + name + ")" + LeaderSuffix(service, namespace)
    ensures '$' !in service && '$' !in namespace ==> '$' !in LeaderSuffix(service, namespace)
  {
  }

  lemma LeaderValues(group: string, role: string, indexLabel: string, service: string, namespace: string)
    ensures SystemValue(ROLE_INSTANCE_NAME, group, role, indexLabel, service, namespace) == Some(Label(INSTANCE_NAME))
    ensures SystemValue(LEADER_ADDRESS, group, role, indexLabel, service, namespace) ==
            Some(Literal("$(" + ROLE_INSTANCE_NAME + ")" + LeaderSuffix(service, namespace)))
    ensures ')' !in ROLE_INSTANCE_NAME
  {
    LeaderText(ROLE_INSTANCE_NAME, service, namespace);
  }

  /** A variable that refers to an earlier one, followed by a text without references. */
  lemma ReferenceRead(envs: seq<EnvVar>, labels: map<string, string>, a: nat, b: nat, suffix: string)
    requires DistinctNames(envs) && a < b < |envs| && ')' !in envs[a].name && '$' !in suffix
    requires envs[b].value == Literal("$(" + envs[a].name + ")" + suffix)
    ensures envs[a].name in Evaluate(envs[..b], labels) && envs[b].name in Evaluate(envs, labels)
    ensures Evaluate(envs, labels)[envs[b].name] == Resolve(envs[a].value, Evaluate(envs[..a], labels), labels) + suffix
  {
    EvaluateAt(envs, labels, b);
    EvaluateAt(envs[..b], labels, a);
    assert envs[..b][..a] == envs[..a];
    ExpandReference(envs[a].name, suffix, Evaluate(envs[..b], labels));
    ExpandPlain(suffix, Evaluate(envs[..b], labels));
  }

  /** The reference in the leader address is to the instance name, which is there before it. */
  lemma LeaderAddressRead(envs: seq<EnvVar>, batches: seq<seq<EnvVar>>, labels: map<string, string>, group: string,
                          role: string, indexLabel: string, service: string, namespace: string)
    requires '$' !in service && '$' !in namespace && INSTANCE_NAME in labels
    requires RoleInjections(batches, group, role, indexLabel, service, namespace)
    requires exists k :: 0 <= k < |batches| && Defines(batches[k], ROLE_INSTANCE_NAME)
    requires exists k :: 0 <= k < |batches| && Defines(batches[k], LEADER_ADDRESS)
    ensures var read := Evaluate(Injections(envs, batches), labels);
            LEADER_ADDRESS in read && read[LEADER_ADDRESS] == labels[INSTANCE_NAME] + LeaderSuffix(service, namespace)
  {
    var result := Injections(envs, batches);
    var a := SystemVariableValue(envs, batches, group, role, indexLabel, service, namespace, ROLE_INSTANCE_NAME);
    var b := SystemVariableValue(envs, batches, group, role, indexLabel, service, namespace, LEADER_ADDRESS);
    InjectionsOrderedAndCurrent(envs, batches, LEADER_ADDRESS);
    LeaderAddressAfterInstanceName(result, a, b);
    LeaderValues(group, role, indexLabel, service, namespace);
    LeaderText(ROLE_INSTANCE_NAME, service, namespace);
    ReferenceRead(result, labels, a, b, LeaderSuffix(service, namespace));
  }

  lemma LeaderName(workload: string, i: nat, service: string, namespace: string)
    ensures InstanceName(workload, i) + LeaderSuffix(service, namespace) ==
            workload + "-" + FormatInt(i) + "-" + FormatInt(0) + "." + service + "." + namespace
  {
    assert FormatInt(0) == "0";
  }

  /** In a pod of instance i of a leader-worker role, whatever variables the container brought along and in whatever
      order the two batches were injected, the leader address reads as the listed address of the instance's leader,
      completed by the namespace. */
  lemma LeaderAddressIsListed(envs: seq<EnvVar>, batches: seq<seq<EnvVar>>, labels: map<string, string>, role: Role,
                              group: string, indexLabel: string, workload: string, service: string, namespace: string,
                              i: nat)
    returns (leader: string)
    requires role.components.None? && role.leaderWorker.Some?
    requires role.workloadType != "leaderworkerset.x-k8s.io/v1/LeaderWorkerSet" && i < role.replicas
    requires '$' !in service && '$' !in namespace
    requires INSTANCE_NAME in labels && labels[INSTANCE_NAME] == InstanceName(workload, i)
    requires RoleInjections(batches, group, role.name, indexLabel, service, namespace)
    requires exists k :: 0 <= k < |batches| && Defines(batches[k], ROLE_INSTANCE_NAME)
    requires exists k :: 0 <= k < |batches| && Defines(batches[k], LEADER_ADDRESS)
    ensures ListedAt(role, workload, service, Slot(PodsEach(role), i, 0), leader)
    ensures var read := Evaluate(Injections(envs, batches), labels);
            LEADER_ADDRESS in read && read[LEADER_ADDRESS] == leader + "." + namespace
  {
    leader := workload + "-" + FormatInt(i) + "-" + FormatInt(0) + "." + service;
    LeaderAddressRead(envs, batches, labels, group, role.name, indexLabel, service, namespace);
    LeaderWorkerAddresses(role, workload, service, i, 0);
    LeaderName(workload, i, service, namespace);
  }
}
