/** Converting a role between the v1alpha1 and v1alpha2 schemas. */
module Conversion {
  import opened Wrappers
  import opened Decimal
  import opened Sequences

  /** The annotation keys the conversion knows by name, and all the others. */
  datatype Key =
    | RoleWorkloadType
    | ExclusiveTopologyV1
    | GroupExclusiveTopology
    | SavedPodGroupPolicy
    | SavedCoordination
    | GangScheduling
    | GangTimeout
    | GangVolcanoQueue
    | GangVolcanoPriority
    | Other(name: string)

  datatype RollingUpdate = RollingUpdate(
    updateType: string,
    partition: Option<string>,
    maxUnavailable: Option<string>,
    maxSurge: Option<string>,
    paused: bool,
    gracePeriodSeconds: Option<int>)

  datatype RolloutStrategy = RolloutStrategy(strategyType: string, rollingUpdate: Option<RollingUpdate>)

  datatype Component = Component(name: string, size: Option<int>, serviceName: string, template: string)

  datatype EngineRuntime = EngineRuntime(profileName: string, injectContainers: seq<string>, containers: seq<string>)

  /** What both schemas have alike: labels, replicas, dependencies and the like. */
  datatype Common = Common(
    name: string,
    labels: map<string, string>,
    replicas: Option<int>,
    dependencies: seq<string>,
    servicePorts: seq<string>,
    engineRuntimes: seq<EngineRuntime>,
    minReadySeconds: int)

  // ----- v1alpha1

  datatype Workload = Workload(apiVersion: string, kind: string)

  datatype LeaderWorkerTemplate = LeaderWorkerTemplate(
    size: Option<int>, patchLeaderTemplate: Option<string>, patchWorkerTemplate: Option<string>)

  /** Which pods a role has. `templatePatch` is the raw patch, empty when there is none. */
  datatype Pods = Pods(
    restartPolicy: string,
    template: Option<string>,
    templateRef: Option<string>,
    templatePatch: string,
    leaderWorkerSet: Option<LeaderWorkerTemplate>,
    components: seq<Component>)

  datatype RoleV1 = RoleV1(
    common: Common,
    annotations: map<Key, string>,
    rollout: Option<RolloutStrategy>,
    workload: Workload,
    pods: Pods,
    scalingAdapter: Option<bool>)

  // ----- v1alpha2

  datatype TemplateRef = TemplateRef(name: string, patch: Option<string>)

  datatype TemplateSource = TemplateSource(template: Option<string>, templateRef: Option<TemplateRef>)

  datatype RestartConfig = RestartConfig(
    policy: string, baseDelaySeconds: Option<int>, maxDelaySeconds: Option<int>)

  /** `restartLegacy` is the restart policy in the field that the config replaces. */
  datatype LeaderWorkerPattern = LeaderWorkerPattern(
    size: Option<int>, source: TemplateSource, leaderPatch: Option<string>, workerPatch: Option<string>,
    sharedService: Option<string>, restartConfig: Option<RestartConfig>, restartLegacy: string)

  /** `plain` is what both schemas have of a component. */
  datatype ComponentV2 = ComponentV2(plain: Component, labels: map<string, string>, annotations: map<string, string>)

  datatype CustomComponentsPattern = CustomComponentsPattern(
    components: seq<ComponentV2>, restartConfig: Option<RestartConfig>, restartLegacy: string)

  datatype ScalingAdapter = ScalingAdapter(enable: bool, labels: map<string, string>)

  datatype Pattern = Pattern(
    standalone: Option<TemplateSource>,
    leaderWorker: Option<LeaderWorkerPattern>,
    customComponents: Option<CustomComponentsPattern>)

  datatype RoleV2 = RoleV2(
    common: Common,
    annotations: map<Key, string>,
    rollout: Option<RolloutStrategy>,
    pattern: Pattern,
    scalingAdapter: Option<ScalingAdapter>,
    podManagementPolicy: string)

  // ----- Workload types: "apiVersion/kind", cut at the last slash

  const DEFAULT_WORKLOAD := Workload("workloads.x-k8s.io/v1alpha2", "RoleInstanceSet")

  function LastSlash(s: string): int {
    if s == "" then -1
    else if s[|s| - 1] == '/' then |s| - 1
    else LastSlash(s[..|s| - 1])
  }

  lemma {:induction false} LastSlashCuts(s: string)
    ensures -1 <= LastSlash(s) < |s|
    ensures LastSlash(s) >= 0 ==> s[LastSlash(s)] == '/'
    ensures forall k :: LastSlash(s) < k < |s| ==> s[k] != '/'
    decreases |s|
  {
    if s != "" && s[|s| - 1] != '/' {
      LastSlashCuts(s[..|s| - 1]);
    }
  }

  function ParseWorkload(s: string): Option<Workload> {
    LastSlashCuts(s);
    var i := LastSlash(s);
    if i > 0 then Some(Workload(s[..i], s[i + 1..])) else None
  }

  function FormatWorkload(w: Workload): string {
    w.apiVersion + "/" + w.kind
  }

  /** What is read off a workload type is what was written, if the kind has no slash. */
  lemma ParseFormat(w: Workload)
    requires w.apiVersion != ""
    ensures ParseWorkload(FormatWorkload(w)).Some?
    ensures ParseWorkload(FormatWorkload(w)) == Some(w) <==> '/' !in w.kind
  {
    var s := FormatWorkload(w);
    LastSlashCuts(s);
    var i := LastSlash(s);
    assert s[|w.apiVersion|] == '/';
    assert i >= |w.apiVersion|;
    if i == |w.apiVersion| {
      forall k | 0 <= k < |w.kind|
        ensures w.kind[k] != '/'
      {
        assert s[i + 1 + k] == w.kind[k];
      }
      assert s[..i] == w.apiVersion && s[i + 1..] == w.kind;
    } else {
      assert s[i] == w.kind[i - |w.apiVersion| - 1];
    }
  }

  lemma FormatParse(s: string)
    requires ParseWorkload(s).Some?
    ensures ParseWorkload(s).value.apiVersion != "" && '/' !in ParseWorkload(s).value.kind
    ensures FormatWorkload(ParseWorkload(s).value) == s
  {
    LastSlashCuts(s);
    var i := LastSlash(s);
    assert s == s[..i] + [s[i]] + s[i + 1..];
  }

  // ----- v1alpha1 to v1alpha2

  function UpdateTypeToHub(t: string): string {
    if t == "Recreate" then "RecreatePod" else t
  }

  function UpdateTypeFromHub(t: string): string {
    if t == "RecreatePod" then "Recreate" else t
  }

  function RolloutToHub(r: Option<RolloutStrategy>): Option<RolloutStrategy> {
    match r
    case None => None
    case Some(s) =>
      match s.rollingUpdate
      case None => Some(s)
      case Some(u) => Some(s.(rollingUpdate := Some(u.(updateType := UpdateTypeToHub(u.updateType)))))
  }

  function RolloutFromHub(r: Option<RolloutStrategy>): Option<RolloutStrategy> {
    match r
    case None => None
    case Some(s) =>
      match s.rollingUpdate
      case None => Some(s)
      case Some(u) => Some(s.(rollingUpdate := Some(u.(updateType := UpdateTypeFromHub(u.updateType)))))
  }

  function SourceToHub(p: Pods): TemplateSource {
    if p.template.Some? then TemplateSource(p.template, None)
    else if p.templateRef.Some? then
      var patch := if p.templatePatch == "" then None else Some(p.templatePatch);
      TemplateSource(None, Some(TemplateRef(p.templateRef.value, patch)))
    else TemplateSource(None, None)
  }

  function ComponentToHub(c: Component): ComponentV2 {
    ComponentV2(c, map[], map[])
  }

  function ComponentFromHub(c: ComponentV2): Component {
    c.plain
  }

  function RestartToHub(policy: string): Option<RestartConfig> {
    Some(RestartConfig(policy, None, None))
  }

  /** A leader-worker template before components before a standalone pod. */
  function PatternToHub(p: Pods): Pattern {
    if p.leaderWorkerSet.Some? then
      var lw := p.leaderWorkerSet.value;
      Pattern(None, Some(LeaderWorkerPattern(
        lw.size, SourceToHub(p), lw.patchLeaderTemplate, lw.patchWorkerTemplate, None, RestartToHub(p.restartPolicy),
        "")), None)
    else if p.components != [] then
      Pattern(None, None, Some(CustomComponentsPattern(
        Mapped(ComponentToHub, p.components), RestartToHub(p.restartPolicy), "")))
    else
      Pattern(Some(SourceToHub(p)), None, None)
  }

  predicate WorkloadSet(w: Workload) {
    w.apiVersion != "" && w.kind != ""
  }

  function AnnotationsToHub(r: RoleV1): map<Key, string> {
    if WorkloadSet(r.workload) then r.annotations[RoleWorkloadType := FormatWorkload(r.workload)] else r.annotations
  }

  function AdapterToHub(adapter: Option<bool>): Option<ScalingAdapter> {
    match adapter
    case None => None
    case Some(enable) => Some(ScalingAdapter(enable, map[]))
  }

  function RoleToHub(r: RoleV1): RoleV2 {
    RoleV2(r.common, AnnotationsToHub(r), RolloutToHub(r.rollout), PatternToHub(r.pods), AdapterToHub(r.scalingAdapter),
           "")
  }

  // ----- v1alpha2 to v1alpha1

  /** The restart policy as it was set, without the defaults of the pattern. */
  function ResolveRestart(config: Option<RestartConfig>, legacy: string): string {
    if config.Some? && config.value.policy != "" then config.value.policy else legacy
  }

  function RawRestartPolicy(p: Pattern): string {
    if p.leaderWorker.Some? then ResolveRestart(p.leaderWorker.value.restartConfig, p.leaderWorker.value.restartLegacy)
    else if p.customComponents.Some? then
      ResolveRestart(p.customComponents.value.restartConfig, p.customComponents.value.restartLegacy)
    else ""
  }

  /** The workload an annotation map stands for: a missing or malformed type reads as the default. */
  function WorkloadFromHub(annotations: map<Key, string>): Workload {
    if RoleWorkloadType in annotations then ParseWorkload(annotations[RoleWorkloadType]).GetOr(DEFAULT_WORKLOAD)
    else DEFAULT_WORKLOAD
  }

  function WithSource(p: Pods, source: TemplateSource): Pods {
    if source.template.Some? then p.(template := source.template)
    else if source.templateRef.Some? then
      p.(templateRef := Some(source.templateRef.value.name), templatePatch := source.templateRef.value.patch.GetOr(""))
    else p
  }

  function PodsFromHub(p: Pattern): Pods {
    var base := Pods(RawRestartPolicy(p), None, None, "", None, []);
    if p.leaderWorker.Some? then
      var lw := p.leaderWorker.value;
      WithSource(base.(leaderWorkerSet := Some(LeaderWorkerTemplate(lw.size, lw.leaderPatch, lw.workerPatch))),
                 lw.source)
    else if p.customComponents.Some? then
      base.(components := Mapped(ComponentFromHub, p.customComponents.value.components))
    else if p.standalone.Some? then WithSource(base, p.standalone.value)
    else base
  }

  function AdapterFromHub(adapter: Option<ScalingAdapter>): Option<bool> {
    match adapter
    case None => None
    case Some(a) => Some(a.enable)
  }

  function RoleFromHub(r: RoleV2): RoleV1 {
    RoleV1(r.common, r.annotations, RolloutFromHub(r.rollout), WorkloadFromHub(r.annotations), PodsFromHub(r.pattern),
           AdapterFromHub(r.scalingAdapter))
  }

  // ----- There and back

  function RoleTrip(r: RoleV1): RoleV1 {
    RoleFromHub(RoleToHub(r))
  }

  /** A role as it should come back: with its workload noted in the annotation. */
  function Noted(r: RoleV1): RoleV1 {
    r.(annotations := AnnotationsToHub(r))
  }

  predicate SourceKept(p: Pods) {
    if p.template.Some? then p.templateRef.None? && p.templatePatch == ""
    else p.templateRef.None? ==> p.templatePatch == ""
  }

  /** One pattern, with a template source only where the pattern has one, and no restart policy on a single pod. */
  predicate PatternKept(p: Pods) {
    if p.leaderWorkerSet.Some? then p.components == [] && SourceKept(p)
    else if p.components != [] then p.template.None? && p.templateRef.None? && p.templatePatch == ""
    else p.restartPolicy == "" && SourceKept(p)
  }

  /** The kind has no slash, or there is no kind and the annotation already says so. */
  predicate WorkloadKept(r: RoleV1) {
    && r.workload.apiVersion != ""
    && '/' !in r.workload.kind
    && (r.workload.kind == "" ==>
          RoleWorkloadType in r.annotations && r.annotations[RoleWorkloadType] == r.workload.apiVersion + "/")
  }

  predicate UpdateTypeKept(r: Option<RolloutStrategy>) {
    r.Some? && r.value.rollingUpdate.Some? ==> r.value.rollingUpdate.value.updateType != "RecreatePod"
  }

  predicate WellFormedRole(r: RoleV1) {
    PatternKept(r.pods) && WorkloadKept(r) && UpdateTypeKept(r.rollout)
  }

  lemma PatternTrip(p: Pods)
    ensures PodsFromHub(PatternToHub(p)) == p <==> PatternKept(p)
    ensures PatternKept(PodsFromHub(PatternToHub(p)))
  {
    PatternReturns(p);
  }

  /** A template before a reference, and a patch only for a reference. */
  function OneSource(p: Pods): Pods {
    if p.template.Some? then p.(templateRef := None, templatePatch := "")
    else if p.templateRef.Some? then p
    else p.(templatePatch := "")
  }

  /** The pod fields that come back. */
  function Returned(p: Pods): Pods {
    if p.leaderWorkerSet.Some? then OneSource(p).(components := [])
    else if p.components != [] then p.(template := None, templateRef := None, templatePatch := "")
    else OneSource(p).(restartPolicy := "")
  }

  lemma PatternReturns(p: Pods)
    ensures PodsFromHub(PatternToHub(p)) == Returned(p)
  {
    if p.leaderWorkerSet.Some? {
      assert PodsFromHub(PatternToHub(p)) == OneSource(p).(components := []);
    } else if p.components != [] {
      ComponentsTrip(p.components);
    }
  }

  function SameComponent(c: Component): Component {
    ComponentFromHub(ComponentToHub(c))
  }

  lemma ComponentsTrip(components: seq<Component>)
    ensures Mapped(ComponentFromHub, Mapped(ComponentToHub, components)) == components
  {
    MappedTwice(ComponentToHub, ComponentFromHub, SameComponent, components);
    MappedAt(SameComponent, components);
  }

  lemma RolloutTrip(r: Option<RolloutStrategy>)
    ensures RolloutFromHub(RolloutToHub(r)) == r <==> UpdateTypeKept(r)
    ensures UpdateTypeKept(RolloutFromHub(RolloutToHub(r)))
  {
  }

  lemma WorkloadTrip(r: RoleV1)
    ensures RoleTrip(r).workload == r.workload <==> WorkloadKept(r)
  {
    assert RoleTrip(r).workload == WorkloadFromHub(AnnotationsToHub(r));
    DefaultHasNoSlash();
    if WorkloadSet(r.workload) {
      ParseFormat(r.workload);
    } else {
      if RoleWorkloadType in r.annotations && ParseWorkload(r.annotations[RoleWorkloadType]).Some? {
        FormatParse(r.annotations[RoleWorkloadType]);
      }
      if WorkloadKept(r) {
        ParseFormat(r.workload);
        assert FormatWorkload(r.workload) == r.workload.apiVersion + "/";
      }
    }
  }

  lemma DefaultHasNoSlash()
    ensures DEFAULT_WORKLOAD.apiVersion != "" && DEFAULT_WORKLOAD.kind != "" && '/' !in DEFAULT_WORKLOAD.kind
  {
  }

  /** A role survives the trip, up to the noted workload type, exactly when it is well formed. */
  lemma RoleTripExactly(r: RoleV1)
    ensures RoleTrip(r) == Noted(r) <==> WellFormedRole(r)
  {
    PatternTrip(r.pods);
    WorkloadTrip(r);
    RolloutTrip(r.rollout);
    assert AdapterFromHub(AdapterToHub(r.scalingAdapter)) == r.scalingAdapter;
  }

  // ----- A second trip

  /** The workload is not set and the annotation does not give one, so the default is filled in. */
  predicate Defaulted(r: RoleV1) {
    !WorkloadSet(r.workload) && WorkloadMissing(r.annotations)
  }

  lemma TripWorkload(r: RoleV1)
    ensures WorkloadKept(RoleTrip(r))
    ensures Noted(RoleTrip(r)) == RoleTrip(r) <==> !Defaulted(r)
    ensures !Defaulted(RoleTrip(r))
  {
    var t := RoleTrip(r);
    assert t.workload == WorkloadFromHub(t.annotations);
    if WorkloadSet(r.workload) { ParseFormat(r.workload); }
    WorkloadRead(t);
    assert Defaulted(r) <==> WorkloadMissing(t.annotations);
  }

  predicate WorkloadMissing(annotations: map<Key, string>) {
    RoleWorkloadType in annotations ==> ParseWorkload(annotations[RoleWorkloadType]).None?
  }

  /** A workload read from the annotations is written back as it was, and a default is written anew. */
  lemma WorkloadRead(t: RoleV1)
    requires t.workload == WorkloadFromHub(t.annotations)
    ensures WorkloadKept(t)
    ensures Noted(t) == t <==> !WorkloadMissing(t.annotations)
    ensures !Defaulted(t)
  {
    DefaultHasNoSlash();
    if WorkloadMissing(t.annotations) {
      ParseFormat(DEFAULT_WORKLOAD);
      assert Noted(t).annotations[RoleWorkloadType] == FormatWorkload(DEFAULT_WORKLOAD);
    } else {
      var read := t.annotations[RoleWorkloadType];
      FormatParse(read);
      assert t.annotations[RoleWorkloadType := read] == t.annotations;
    }
  }

  /** A second trip changes nothing, exactly unless the first filled in the default workload. */
  lemma RoleTwiceExactly(r: RoleV1)
    ensures RoleTrip(RoleTrip(r)) == RoleTrip(r) <==> !Defaulted(r)
    ensures !Defaulted(RoleTrip(r))
  {
    PatternTrip(r.pods);
    RolloutTrip(r.rollout);
    TripWorkload(r);
    RoleTripExactly(RoleTrip(r));
  }
}
