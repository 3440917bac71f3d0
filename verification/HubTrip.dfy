/** The trip the other way: what is left of a v1alpha2 object that a v1alpha1 client reads and writes back. */
module HubTrip {
  import opened Wrappers
  import opened Sequences
  import opened Decimal
  import opened Conversion
  import opened GroupConversion

  function RoleHubTrip(r: RoleV2): RoleV2 {
    RoleToHub(RoleFromHub(r))
  }

  // ----- Patterns

  /** Not both a template and a reference, and no empty patch. */
  predicate SourceReturns(s: TemplateSource) {
    s.templateRef.Some? ==> s.template.None? && s.templateRef.value.patch != Some("")
  }

  /** v1alpha1 has a policy, but neither delays nor a second place for it. */
  predicate RestartReturns(config: Option<RestartConfig>, legacy: string) {
    && legacy == ""
    && config.Some? && config.value.baseDelaySeconds.None? && config.value.maxDelaySeconds.None?
  }

  predicate ComponentReturns(c: ComponentV2) {
    c.labels == map[] && c.annotations == map[]
  }

  /** Exactly one pattern, without the fields that only v1alpha2 has. */
  predicate PatternSpoken(p: Pattern) {
    if p.leaderWorker.Some? then
      var lw := p.leaderWorker.value;
      && p.standalone.None? && p.customComponents.None?
      && SourceReturns(lw.source) && lw.sharedService.None? && RestartReturns(lw.restartConfig, lw.restartLegacy)
    else if p.customComponents.Some? then
      var custom := p.customComponents.value;
      && p.standalone.None?
      && custom.components != [] && (forall c :: c in custom.components ==> ComponentReturns(c))
      && RestartReturns(custom.restartConfig, custom.restartLegacy)
    else
      p.standalone.Some? && SourceReturns(p.standalone.value)
  }

  function SourceLeft(s: TemplateSource): TemplateSource {
    if s.template.Some? then TemplateSource(s.template, None)
    else if s.templateRef.Some? && s.templateRef.value.patch == Some("") then
      TemplateSource(None, Some(s.templateRef.value.(patch := None)))
    else s
  }

  function ComponentLeft(c: ComponentV2): ComponentV2 {
    ComponentToHub(ComponentFromHub(c))
  }

  const EMPTY_POD := Pattern(Some(TemplateSource(None, None)), None, None)

  /** The pattern that comes back: custom components without any component become an empty single pod. */
  function PatternLeft(p: Pattern): Pattern {
    if p.leaderWorker.Some? then
      var lw := p.leaderWorker.value;
      Pattern(None, Some(lw.(source := SourceLeft(lw.source), sharedService := None,
                             restartConfig := RestartToHub(RawRestartPolicy(p)), restartLegacy := "")), None)
    else if p.customComponents.Some? then
      var components := p.customComponents.value.components;
      if components == [] then EMPTY_POD
      else Pattern(None, None, Some(CustomComponentsPattern(
        Mapped(ComponentLeft, components), RestartToHub(RawRestartPolicy(p)), "")))
    else if p.standalone.Some? then Pattern(Some(SourceLeft(p.standalone.value)), None, None)
    else EMPTY_POD
  }

  lemma PatternIsLeft(p: Pattern)
    ensures PatternToHub(PodsFromHub(p)) == PatternLeft(p)
  {
    if p.leaderWorker.Some? {
      LeaderWorkerIsLeft(p);
    } else if p.customComponents.Some? {
      var components := p.customComponents.value.components;
      MappedTwice(ComponentFromHub, ComponentToHub, ComponentLeft, components);
      MappedAt(ComponentFromHub, components);
    }
  }

  lemma LeaderWorkerIsLeft(p: Pattern)
    requires p.leaderWorker.Some?
    ensures PatternToHub(PodsFromHub(p)) == PatternLeft(p)
  {
  }

  lemma ComponentsLeft(components: seq<ComponentV2>)
    ensures Mapped(ComponentLeft, components) == components <==>
            forall c :: c in components ==> ComponentReturns(c)
  {
    MappedAt(ComponentLeft, components);
    forall i | 0 <= i < |components|
      ensures ComponentLeft(components[i]) == components[i] <==> ComponentReturns(components[i])
    {
    }
  }

  /** The pattern of a role survives exactly when v1alpha1 can say it. */
  lemma PatternHubTrip(p: Pattern)
    ensures PatternToHub(PodsFromHub(p)) == p <==> PatternSpoken(p)
  {
    PatternIsLeft(p);
    if p.customComponents.Some? { ComponentsLeft(p.customComponents.value.components); }
  }

  /** The restart policy keeps its meaning wherever it was set, exactly unless there are no components to restart. */
  lemma RestartHubTrip(p: Pattern)
    ensures RawRestartPolicy(PatternToHub(PodsFromHub(p))) == RawRestartPolicy(p) <==>
            || p.leaderWorker.Some? || p.customComponents.None?
            || p.customComponents.value.components != [] || RawRestartPolicy(p) == ""
  {
    PatternIsLeft(p);
  }

  lemma PatternLeftSpoken(p: Pattern)
    ensures PatternSpoken(PatternLeft(p))
  {
    if p.customComponents.Some? { ComponentsLeftOnce(p.customComponents.value.components); }
  }

  lemma ComponentsLeftOnce(components: seq<ComponentV2>)
    ensures |Mapped(ComponentLeft, components)| == |components|
    ensures forall c :: c in Mapped(ComponentLeft, components) ==> ComponentReturns(c)
  {
    MappedAt(ComponentLeft, components);
  }

  // ----- Roles

  /** The older spelling becomes the newer one. */
  predicate UpdateTypeReturns(r: Option<RolloutStrategy>) {
    r.Some? && r.value.rollingUpdate.Some? ==> r.value.rollingUpdate.value.updateType != "Recreate"
  }

  predicate AdapterReturns(adapter: Option<ScalingAdapter>) {
    adapter.Some? ==> adapter.value.labels == map[]
  }

  /** What v1alpha1 has no words for is not used, and the workload type is written out. */
  predicate RoleSpoken(r: RoleV2) {
    && PatternSpoken(r.pattern) && UpdateTypeReturns(r.rollout) && AdapterReturns(r.scalingAdapter)
    && r.podManagementPolicy == ""
    && !WorkloadMissing(r.annotations)
  }

  /** The default workload type is filled in where none can be read. */
  function AnnotationsLeft(a: map<Key, string>): map<Key, string> {
    if WorkloadMissing(a) then a[RoleWorkloadType := FormatWorkload(DEFAULT_WORKLOAD)] else a
  }

  lemma AnnotationsHubTrip(r: RoleV2)
    ensures RoleHubTrip(r).annotations == AnnotationsLeft(r.annotations)
    ensures AnnotationsLeft(r.annotations) == r.annotations <==> !WorkloadMissing(r.annotations)
    ensures !WorkloadMissing(AnnotationsLeft(r.annotations))
  {
    var v1 := RoleFromHub(r);
    WorkloadRead(v1);
    ParseFormat(DEFAULT_WORKLOAD);
    DefaultHasNoSlash();
  }

  /** A v1alpha2 role survives being read and written back as v1alpha1, exactly when v1alpha1 can say all of it. */
  lemma RoleHubTripExactly(r: RoleV2)
    ensures RoleHubTrip(r) == r <==> RoleSpoken(r)
  {
    PatternHubTrip(r.pattern);
    AnnotationsHubTrip(r);
    RolloutHubTrip(r.rollout);
  }

  lemma RolloutHubTrip(r: Option<RolloutStrategy>)
    ensures RolloutToHub(RolloutFromHub(r)) == r <==> UpdateTypeReturns(r)
    ensures UpdateTypeReturns(RolloutToHub(RolloutFromHub(r)))
  {
  }

  /** The first trip loses everything that is ever lost. */
  lemma RoleHubTripOnce(r: RoleV2)
    ensures RoleSpoken(RoleHubTrip(r))
    ensures RoleHubTrip(RoleHubTrip(r)) == RoleHubTrip(r)
  {
    PatternIsLeft(r.pattern);
    PatternLeftSpoken(r.pattern);
    AnnotationsHubTrip(r);
    RolloutHubTrip(r.rollout);
    RoleHubTripExactly(RoleHubTrip(r));
  }

  // ----- Groups

  /** A group read as v1alpha1 and written back; Failure when a saved field cannot be read. */
  function GroupHubTrip(c: Codec, g: GroupV2): Result<GroupV2, ()> {
    match FromHub(c, g)
    case Failure(e) => Failure(e)
    case Success(v) => Success(ToHub(c, v))
  }

  function Find(a: map<Key, string>, k: Key): Option<string> {
    if k in a then Some(a[k]) else None
  }

  /** What the conversion writes under one of its own keys, given the v1alpha1 fields. */
  function Written(c: Codec, g: GroupV1, k: Key): Option<string> {
    var policy := g.podGroupPolicy;
    var kube := policy.Some? && policy.value.kube.Some?;
    var volcano := policy.Some? && !kube && policy.value.volcano.Some?;
    match k
    case SavedPodGroupPolicy => if policy.Some? then Some(c.writePolicy(policy.value)) else None
    case SavedCoordination => if g.coordination != [] then Some(c.writeCoordination(g.coordination)) else None
    case GangScheduling => if kube || volcano then Some("true") else None
    case GangTimeout =>
      if kube && policy.value.kube.value.Some? then Some(FormatInt(policy.value.kube.value.value)) else None
    case GangVolcanoQueue =>
      if volcano && policy.value.volcano.value.queue != "" then Some(policy.value.volcano.value.queue) else None
    case GangVolcanoPriority =>
      if volcano && policy.value.volcano.value.priorityClassName != ""
      then Some(policy.value.volcano.value.priorityClassName) else None
    case GroupExclusiveTopology => Find(g.annotations, ExclusiveTopologyV1)
    case _ => None
  }

  lemma PreservedAt(c: Codec, g: GroupV1, k: Key)
    requires g.annotations.Keys !! OWNED
    ensures Find(Preserved(c, g), k) == if k in OWNED then Written(c, g, k) else Find(g.annotations, k)
  {
    assert k in OWNED ==> k !in g.annotations;
    PolicyAt(c, TranslateTopology(g.annotations), g, k);
  }

  lemma PolicyAt(c: Codec, a: map<Key, string>, g: GroupV1, k: Key)
    ensures Find(SavePolicy(c, a, g.podGroupPolicy), k) ==
            if k !in {SavedCoordination, GroupExclusiveTopology} && Written(c, g, k).Some? then Written(c, g, k)
            else Find(a, k)
  {
  }

  const GANG_KEYS := {GangScheduling, GangTimeout, GangVolcanoQueue, GangVolcanoPriority}

  predicate Readable(c: Codec, g: GroupV2) {
    RestorePolicy(c, g.annotations).Success? && RestoreCoordination(c, g.annotations).Success?
  }

  /** After the trip a key of the conversion holds what the saved fields say, whatever it held before, and every other
      annotation is kept. */
  lemma AnnotationsAfterHubTrip(c: Codec, g: GroupV2, k: Key)
    requires Readable(c, g)
    ensures Find(GroupHubTrip(c, g).value.annotations, k) ==
            if k in OWNED then Written(c, FromHub(c, g).value, k) else Find(g.annotations, k)
  {
    PreservedAt(c, FromHub(c, g).value, k);
  }

  /** A gang, or an exclusive topology, asked for in v1alpha2 alone is gone after the trip. */
  lemma NativeSettingsLost(c: Codec, g: GroupV2)
    requires Readable(c, g)
    ensures SavedPodGroupPolicy !in g.annotations ==>
              forall k :: k in GANG_KEYS ==> k !in GroupHubTrip(c, g).value.annotations
    ensures ExclusiveTopologyV1 !in g.annotations ==> GroupExclusiveTopology !in GroupHubTrip(c, g).value.annotations
  {
    forall k | k in GANG_KEYS + {GroupExclusiveTopology}
      ensures Find(GroupHubTrip(c, g).value.annotations, k) == Written(c, FromHub(c, g).value, k)
    {
      AnnotationsAfterHubTrip(c, g, k);
    }
  }

  /** The annotations of the conversion agree with the fields saved among them, and v1alpha1 can say every role. */
  ghost predicate Spoken(c: Codec, g: GroupV2) {
    && Readable(c, g)
    && (forall k :: k in OWNED ==> Find(g.annotations, k) == Written(c, FromHub(c, g).value, k))
    && (forall r :: r in g.roles ==> RoleSpoken(r))
  }

  lemma RolesHubTrip(roles: seq<RoleV2>)
    ensures Mapped(RoleToHub, Mapped(RoleFromHub, roles)) == Mapped(RoleHubTrip, roles)
    ensures Mapped(RoleHubTrip, roles) == roles <==> forall r :: r in roles ==> RoleSpoken(r)
  {
    MappedTwice(RoleFromHub, RoleToHub, RoleHubTrip, roles);
    MappedAt(RoleHubTrip, roles);
    forall i | 0 <= i < |roles|
      ensures RoleHubTrip(roles[i]) == roles[i] <==> RoleSpoken(roles[i])
    {
      RoleHubTripExactly(roles[i]);
    }
  }

  lemma SameAnnotations(a: map<Key, string>, b: map<Key, string>)
    requires forall k :: Find(a, k) == Find(b, k)
    ensures a == b
  {
    forall k: Key
      ensures k in a <==> k in b
      ensures k in a ==> a[k] == b[k]
    {
      assert Find(a, k) == Find(b, k);
    }
  }

  /** A v1alpha2 group survives being read and written back as v1alpha1, exactly when v1alpha1 can say all of it. */
  lemma GroupHubTripExactly(c: Codec, g: GroupV2)
    ensures GroupHubTrip(c, g) == Success(g) <==> Spoken(c, g)
  {
    RolesHubTrip(g.roles);
    if Readable(c, g) {
      var after := GroupHubTrip(c, g).value;
      forall k: Key
        ensures Find(after.annotations, k) ==
                if k in OWNED then Written(c, FromHub(c, g).value, k) else Find(g.annotations, k)
      {
        AnnotationsAfterHubTrip(c, g, k);
      }
      if Spoken(c, g) { SameAnnotations(after.annotations, g.annotations); }
    }
  }

  /** A second trip succeeds and changes nothing: whatever comes back, v1alpha1 can say. */
  lemma GroupHubTripOnce(c: Codec, g: GroupV2)
    requires Faithful(c) && GroupHubTrip(c, g).Success?
    ensures GroupHubTrip(c, GroupHubTrip(c, g).value) == GroupHubTrip(c, g)
    ensures Spoken(c, GroupHubTrip(c, g).value)
  {
    GroupHubTripExactly(c, GroupHubTrip(c, g).value);
    var v := FromHub(c, g).value;
    TripSucceeds(c, v);
    TripValue(c, v);
    assert v.annotations - OWNED == v.annotations;
    var back := GroupTrip(c, v).value;
    assert Preserved(c, back) == Preserved(c, v);
    RolesHubTripOnce(g.roles);
  }

  lemma RolesHubTripOnce(roles: seq<RoleV2>)
    ensures var spoke := Mapped(RoleFromHub, roles);
            Mapped(RoleToHub, Mapped(RoleTrip, spoke)) == Mapped(RoleToHub, spoke)
  {
    var spoke := Mapped(RoleFromHub, roles);
    MappedAt(RoleFromHub, roles);
    MappedAt(RoleToHub, spoke);
    MappedAt(RoleTrip, spoke);
    MappedAt(RoleToHub, Mapped(RoleTrip, spoke));
    forall i | 0 <= i < |roles|
      ensures RoleToHub(RoleTrip(spoke[i])) == RoleToHub(spoke[i])
    {
      RoleHubTripOnce(roles[i]);
    }
  }
}
