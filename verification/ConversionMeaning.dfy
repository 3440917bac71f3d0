/** What a role says in v1alpha1 and in v1alpha2, field by field, and that both conversions say the same. */
module ConversionMeaning {
  import opened Wrappers
  import opened Sequences
  import opened Conversion

  predicate SameUpdate(u: RollingUpdate, v: RollingUpdate) {
    && u.partition == v.partition && u.maxUnavailable == v.maxUnavailable && u.maxSurge == v.maxSurge
    && u.paused == v.paused && u.gracePeriodSeconds == v.gracePeriodSeconds
    && (u.updateType == v.updateType || (u.updateType == "Recreate" && v.updateType == "RecreatePod"))
  }

  predicate SameRollout(a: Option<RolloutStrategy>, b: Option<RolloutStrategy>) {
    && (a.Some? <==> b.Some?)
    && (a.Some? ==>
          && a.value.strategyType == b.value.strategyType
          && (a.value.rollingUpdate.Some? <==> b.value.rollingUpdate.Some?)
          && (a.value.rollingUpdate.Some? ==> SameUpdate(a.value.rollingUpdate.value, b.value.rollingUpdate.value)))
  }

  /** An inline template goes before a reference, which may carry a patch. */
  predicate SameSource(p: Pods, s: TemplateSource) {
    if p.template.Some? || s.template.Some? then p.template == s.template
    else if p.templateRef.Some? || s.templateRef.Some? then
      && p.templateRef.Some? && s.templateRef.Some?
      && p.templateRef.value == s.templateRef.value.name
      && p.templatePatch == s.templateRef.value.patch.GetOr("")
    else true
  }

  /** The policy in the config, or else in the older field. */
  predicate SameRestart(policy: string, config: Option<RestartConfig>, legacy: string) {
    if config.Some? && config.value.policy != "" then policy == config.value.policy else policy == legacy
  }

  predicate SameLeaderWorker(p: Pods, lw: LeaderWorkerPattern) {
    && p.leaderWorkerSet.Some?
    && p.leaderWorkerSet.value.size == lw.size
    && p.leaderWorkerSet.value.patchLeaderTemplate == lw.leaderPatch
    && p.leaderWorkerSet.value.patchWorkerTemplate == lw.workerPatch
    && SameSource(p, lw.source)
    && SameRestart(p.restartPolicy, lw.restartConfig, lw.restartLegacy)
  }

  predicate SameComponents(p: Pods, custom: CustomComponentsPattern) {
    && |p.components| == |custom.components|
    && (forall i :: 0 <= i < |p.components| ==> p.components[i] == custom.components[i].plain)
    && SameRestart(p.restartPolicy, custom.restartConfig, custom.restartLegacy)
  }

  /** The first pattern of the two orders that is there: leader and workers, components, a single pod. */
  predicate SamePods(p: Pods, q: Pattern) {
    if p.leaderWorkerSet.Some? || q.leaderWorker.Some? then
      q.leaderWorker.Some? && SameLeaderWorker(p, q.leaderWorker.value)
    else if p.components != [] || q.customComponents.Some? then
      q.customComponents.Some? && SameComponents(p, q.customComponents.value)
    else
      q.standalone.Some? ==> SameSource(p, q.standalone.value)
  }

  predicate SameAdapter(a: Option<bool>, b: Option<ScalingAdapter>) {
    (a.Some? <==> b.Some?) && (a.Some? ==> a.value == b.value.enable)
  }

  predicate SaysSame(r: RoleV1, h: RoleV2) {
    && r.common == h.common
    && SameRollout(r.rollout, h.rollout)
    && SamePods(r.pods, h.pattern)
    && SameAdapter(r.scalingAdapter, h.scalingAdapter)
  }

  /** A workload that is set is written into the annotation of the hub's role. */
  lemma WorkloadToHub(r: RoleV1)
    requires r.workload.apiVersion != "" && r.workload.kind != ""
    ensures var a := RoleToHub(r).annotations;
            RoleWorkloadType in a && a[RoleWorkloadType] == r.workload.apiVersion + "/" + r.workload.kind
  {
  }

  predicate SlashInside(s: string) {
    exists k :: 0 < k < |s| && s[k] == '/'
  }

  /** A role without the annotation is one of a RoleInstanceSet; one with it names the workload up to the last slash. */
  lemma WorkloadOfHub(h: RoleV2)
    ensures RoleWorkloadType !in h.annotations ==>
              RoleFromHub(h).workload == Workload("workloads.x-k8s.io/v1alpha2", "RoleInstanceSet")
    ensures RoleWorkloadType in h.annotations && SlashInside(h.annotations[RoleWorkloadType]) ==>
              var w := RoleFromHub(h).workload;
              && h.annotations[RoleWorkloadType] == w.apiVersion + "/" + w.kind
              && '/' !in w.kind
  {
    if RoleWorkloadType in h.annotations {
      var s := h.annotations[RoleWorkloadType];
      LastSlashCuts(s);
      if SlashInside(s) { FormatParse(s); }
    }
  }

  lemma PodsToHub(p: Pods)
    ensures SamePods(p, PatternToHub(p))
  {
    MappedAt(ComponentToHub, p.components);
  }

  lemma PatternFromHub(q: Pattern)
    ensures SamePods(PodsFromHub(q), q)
  {
    if q.customComponents.Some? { MappedAt(ComponentFromHub, q.customComponents.value.components); }
  }

  /** The hub says of a role what v1alpha1 said. */
  lemma ToHubSaysSame(r: RoleV1)
    ensures SaysSame(r, RoleToHub(r))
  {
    PodsToHub(r.pods);
  }

  /** And v1alpha1 says of it what the hub says. */
  lemma FromHubSaysSame(h: RoleV2)
    ensures SaysSame(RoleFromHub(h), h)
  {
    PatternFromHub(h.pattern);
  }
}
