/** Convergence of a rolling update: how many reconciles a rollout takes, and when it completes at all. */
module Rollout {
  import opened Wrappers
  import opened IntOrPercents
  import opened RollingPartition
  import opened RollingPlanner
  import opened RollingSafety
  import opened Arithmetic

  /** A rollout under way for a role whose size was recorded by the last apply. Its partition may lie above the
      role's size: a resize or a coordinated rollout can leave it there. */
  predicate Underway(role: Role, w: Workload) {
    w.Applied? && 0 <= w.partition && role.replicas <= w.replicas && w.roleSize == Some(role.replicas)
  }

  /** A rollout whose partition is one of the role's own replicas, or past the last of them. */
  predicate UnderwayWithin(role: Role, w: Workload) {
    Underway(role, w) && w.partition <= role.replicas
  }

  /** The strategy resolves and has no negative value. */
  predicate Resolved(role: Role) {
    && Surge(role).Some? && 0 <= Surge(role).value
    && MaxUnavailable(role).Some? && 0 <= MaxUnavailable(role).value
    && OwnPartition(role).Some? && 0 <= OwnPartition(role).value
  }

  /** It also holds nothing back with a partition of its own. */
  predicate Unrestricted(role: Role) {
    Resolved(role) && OwnPartition(role) == Some(0)
  }

  /** The reconcile sees the same spec, no coordinated rollout, and an environment that has made every replica
      at or above the partition ready and updated; at most `b` replicas below it are unready. */
  predicate Served(role: Role, w: Workload, inp: Input, b: nat) {
    && inp.role == role && !inp.stsUpdated && !Coordinated(inp.coordination)
    && inp.observed.Some? && w.Applied? && |inp.observed.value| == w.replicas && 0 <= w.partition
    && (forall i :: w.partition <= i < w.replicas ==> Done(inp.observed.value[i]))
    && CountIn(Unready, inp.observed.value, 0, Min(w.partition, w.replicas)) <= b
  }

  predicate ServedRun(role: Role, w: Workload, inputs: seq<Input>, b: nat)
    decreases |inputs|
  {
    |inputs| == 0 || (Served(role, w, inputs[0], b) && ServedRun(role, Next(w, inputs[0]), inputs[1..], b))
  }

  /** Any spec change of an existing workload starts a rollout at a partition no higher than the role's size. */
  lemma UpdateStartsRollout(role: Role, w: Workload, inp: Input)
    requires Inv(w) && w.Applied? && Unrestricted(role)
    requires inp.role == role && inp.stsUpdated && !Coordinated(inp.coordination)
    ensures UnderwayWithin(role, Next(w, inp))
    ensures Next(w, inp).partition == Min(role.replicas, w.replicas)
    ensures Next(w, inp).replicas == WantReplicas(role.replicas, Surge(role).value, role.replicas)
  {
  }

  /** The reconcile is skipped although the workload still records another size. */
  predicate SkipsStale(w: Workload, inp: Input) {
    var r := Plan(inp.role, w, inp.stsUpdated, inp.coordination, inp.observed);
    r.Success? && Skips(w, inp, r.value) && w.roleSize != Some(inp.role.replicas)
  }

  /** Whatever the workload was and whichever case decided, a reconcile with a plan leaves a rollout under way,
      exactly unless it skips a workload of stale size. */
  lemma ReconcileLeadsUnderway(role: Role, w: Workload, inp: Input)
    requires Resolved(role) && inp.role == role
    requires Plan(inp.role, w, inp.stsUpdated, inp.coordination, inp.observed).Success?
    ensures Underway(role, Next(w, inp)) <==> !SkipsStale(w, inp)
  {
    PlanWithinBand(w, inp);
  }

  lemma ServedUnreadyBelow(states: seq<ReplicaState>, k: nat, partition: nat)
    requires k <= partition <= |states|
    ensures CountIn(Unready, states, 0, k) <= CountIn(Unready, states, 0, partition)
  {
    CountSplit(Unready, states, 0, k, partition);
  }

  /** The partition planned for states that are done from `partition` on. */
  lemma ServedPlanBound(states: seq<ReplicaState>, partition: nat, step: int, b: nat)
    requires 0 <= step && partition <= |states|
    requires forall i :: partition <= i < |states| ==> Done(states[i])
    requires CountIn(Unready, states, 0, partition) <= b
    ensures 0 <= PlannedPartition(states, step)
    ensures b <= step ==> PlannedPartition(states, step) <= Max(0, partition - (step - b))
  {
    assert |states| - ContinuousReady(states) <= partition;
    PlannedPartitionLeast(states, step);
    ServedUnreadyBelow(states, StepFloor(states, step), partition);
  }

  /** One served reconcile lowers the partition by at least maxUnavailable - b, down to the role's own. */
  lemma ServedStepLowersPartition(role: Role, w: Workload, inp: Input, b: nat)
    requires Underway(role, w) && Resolved(role) && Served(role, w, inp, b) && OwnPartition(role).value <= w.partition
    ensures Underway(role, Next(w, inp))
    ensures OwnPartition(role).value <= Next(w, inp).partition <= w.partition
    ensures b <= MaxUnavailable(role).value ==>
              Next(w, inp).partition <= Max(OwnPartition(role).value, w.partition - (MaxUnavailable(role).value - b))
  {
    PlanWithinBand(w, inp);
    var step := RollingStep(role, Surge(role).value, MaxUnavailable(role).value, w.replicas);
    ServedPlanBound(inp.observed.value, Min(w.partition, w.replicas), step, b);
  }

  /** What a served reconcile makes of a partition above the role's own. */
  lemma ServedStepPlans(role: Role, w: Workload, inp: Input, b: nat)
    requires Underway(role, w) && Resolved(role) && Served(role, w, inp, b) && OwnPartition(role).value < w.partition
    ensures var step := RollingStep(role, Surge(role).value, MaxUnavailable(role).value, w.replicas);
            && StepInRange(inp.observed.value, step)
            && Next(w, inp).partition ==
               Max(OwnPartition(role).value, Min(PlannedPartition(inp.observed.value, step), w.partition))
  {
    var step := RollingStep(role, Surge(role).value, MaxUnavailable(role).value, w.replicas);
    PlannedNonNegative(inp.observed.value, step);
    PlanWithinBand(w, inp);
  }

  /** A served reconcile makes progress exactly when either the unready replicas below the step floor leave it below
      the partition, or the step reaches below it and the next replica to release costs no available one. */
  lemma ServedStepMovesExactly(role: Role, w: Workload, inp: Input, b: nat)
    requires Underway(role, w) && Resolved(role) && Served(role, w, inp, b) && OwnPartition(role).value < w.partition
    ensures var states, top := inp.observed.value, Min(w.partition, w.replicas);
            var step := RollingStep(role, Surge(role).value, MaxUnavailable(role).value, w.replicas);
            Next(w, inp).partition < w.partition <==>
            || StepFloor(states, step) + UnreadyBelow(states, step) < w.partition
            || (StepFloor(states, step) < top && !Pinned(states[top - 1]))
  {
    var states, p, top := inp.observed.value, w.partition, Min(w.partition, w.replicas);
    var step := RollingStep(role, Surge(role).value, MaxUnavailable(role).value, w.replicas);
    var k, u := StepFloor(states, step), UnreadyBelow(states, step);
    PlannedPartitionLeast(states, step);
    ServedStepPlans(role, w, inp, b);
    if p <= k + u && k < top && !Pinned(states[top - 1]) {
      assert Clear(states, top - 1, Min(k + u, |states| - 1));
    }
  }

  lemma ServedFloor(states: seq<ReplicaState>, p: nat, step: nat)
    requires p <= |states| && forall i :: p <= i < |states| ==> Done(states[i])
    ensures StepFloor(states, step) <= Max(0, p - step)
  {
  }

  /** While the partition or the role is smaller than twice maxUnavailable, a served reconcile makes progress however
      many replicas are unready: those below the step floor cannot raise it back to the partition. */
  lemma SmallStepMoves(role: Role, w: Workload, inp: Input, b: nat)
    requires Underway(role, w) && Resolved(role) && Served(role, w, inp, b) && OwnPartition(role).value < w.partition
    requires Min(w.partition, role.replicas) < 2 * MaxUnavailable(role).value
    ensures Next(w, inp).partition < w.partition
  {
    var states := inp.observed.value;
    var step := RollingStep(role, Surge(role).value, MaxUnavailable(role).value, w.replicas);
    ServedFloor(states, Min(w.partition, w.replicas), step);
    CountBounds(Unready, states, 0, StepFloor(states, step));
    ServedStepMovesExactly(role, w, inp, b);
  }

  // ----- How many unready replicas hold a rollout up

  /** The first `u` replicas unready, those from the partition on released and served, the others on the old
      revision. */
  function Holding(role: Role, p: nat, u: nat): Input {
    Input(role, false, None, Some(seq(role.replicas, i => ReplicaState(u <= i, p <= i))), true)
  }

  lemma HoldingServed(role: Role, p: nat, u: nat, b: nat)
    requires u <= p <= role.replicas && u <= b
    ensures Served(role, Applied(p, role.replicas, Some(role.replicas)), Holding(role, p, u), b)
    ensures ContinuousReady(Holding(role, p, u).observed.value) == role.replicas - p
  {
    var states := Holding(role, p, u).observed.value;
    CountSplit(Unready, states, 0, u, p);
    CountAll(Unready, states, 0, u);
    CountNone(Unready, states, u, p);
    ContinuousReadyUnique(states, role.replicas - p);
  }

  /** At the role's size, whatever surge it may have, an environment with at most b unready unreleased replicas can hold
      the rollout at partition p exactly when b reaches maxUnavailable and p is at least twice that number. */
  lemma HeldUpExactly(role: Role, p: nat, b: nat)
    requires Resolved(role) && OwnPartition(role).value < p <= role.replicas
    ensures var w, u := Applied(p, role.replicas, Some(role.replicas)), MaxUnavailable(role).value;
            (exists inp :: Served(role, w, inp, b) && Next(w, inp).partition == p) <==> u <= b && 2 * u <= p
  {
    var w, u := Applied(p, role.replicas, Some(role.replicas)), MaxUnavailable(role).value;
    if u <= b && 2 * u <= p {
      HoldingServed(role, p, u, b);
      HoldingStays(role, p);
    } else {
      forall inp | Served(role, w, inp, b)
        ensures Next(w, inp).partition < p
      {
        if b < u {
          ServedStepLowersPartition(role, w, inp, b);
        } else {
          SmallStepMoves(role, w, inp, b);
        }
      }
    }
  }

  lemma HoldingStays(role: Role, p: nat)
    requires Resolved(role) && OwnPartition(role).value < p <= role.replicas
    requires 2 * MaxUnavailable(role).value <= p
    ensures var w := Applied(p, role.replicas, Some(role.replicas));
            Next(w, Holding(role, p, MaxUnavailable(role).value)) == w
  {
    var w, u := Applied(p, role.replicas, Some(role.replicas)), MaxUnavailable(role).value;
    var states := Holding(role, p, u).observed.value;
    HoldingServed(role, p, u, u);
    var k := p - u;
    assert StepFloor(states, u) == k;
    CountSplit(Unready, states, 0, u, k);
    CountAll(Unready, states, 0, u);
    CountNone(Unready, states, u, k);
    ServedStepMovesExactly(role, w, Holding(role, p, u), u);
    assert k < p ==> Pinned(states[p - 1]);
    ServedStepLowersPartition(role, w, Holding(role, p, u), u);
  }

  /** So maxUnavailable unready replicas that are never released hold the rollout up for as long as they stay unready,
      although everything released is served. */
  lemma {:induction false} UnreadyReplicasHoldUp(role: Role, p: nat, b: nat, inputs: seq<Input>)
    requires Resolved(role) && OwnPartition(role).value < p <= role.replicas
    requires MaxUnavailable(role).value <= b && 2 * MaxUnavailable(role).value <= p
    requires forall i :: 0 <= i < |inputs| ==> inputs[i] == Holding(role, p, MaxUnavailable(role).value)
    ensures var w := Applied(p, role.replicas, Some(role.replicas));
            ServedRun(role, w, inputs, b) && Run(w, inputs) == w
    decreases |inputs|
  {
    if |inputs| > 0 {
      HoldingServed(role, p, MaxUnavailable(role).value, b);
      HoldingStays(role, p);
      UnreadyReplicasHoldUp(role, p, b, inputs[1..]);
    }
  }

  // ----- Convergence

  /** With everything released and served, the surge is given back and the rollout is complete. */
  lemma LastServedStepCompletes(role: Role, w: Workload, inp: Input, b: nat)
    requires Underway(role, w) && Unrestricted(role) && Served(role, w, inp, b) && w.partition == 0
    ensures Next(w, inp) == Applied(0, role.replicas, Some(role.replicas))
  {
    var states := inp.observed.value;
    CountAll(Done, states, 0, role.replicas);
    assert RoleUnready(states, role.replicas) == 0;
    var step := RollingStep(role, Surge(role).value, MaxUnavailable(role).value, w.replicas);
    PlannedNonNegative(states, step);
  }

  /** A completed rollout stays put whatever the pods do, as long as the spec does not change. */
  lemma {:induction false} CompletedStays(role: Role, w: Workload, inputs: seq<Input>)
    requires Unrestricted(role) && w == Applied(0, role.replicas, Some(role.replicas))
    requires forall i :: 0 <= i < |inputs| ==>
               inputs[i].role == role && !inputs[i].stsUpdated && !Coordinated(inputs[i].coordination)
    ensures Run(w, inputs) == w
    decreases |inputs|
  {
    if |inputs| > 0 {
      assert Next(w, inputs[0]) == w;
      CompletedStays(role, w, inputs[1..]);
    }
  }

  /** Reconciles enough to bring `partition` to zero in strides of `stride`, plus one to give back the surge. */
  function StepsNeeded(partition: nat, stride: nat): (n: nat)
    requires 0 < stride
    ensures n <= partition + 1
  {
    if partition == 0 then 1 else 1 + StepsNeeded(Max(0, partition - stride), stride)
  }

  lemma {:induction false} StepsNeededMonotone(low: nat, high: nat, stride: nat)
    requires 0 < stride && low <= high
    ensures StepsNeeded(low, stride) <= StepsNeeded(high, stride)
  {
    if 0 < low { StepsNeededMonotone(Max(0, low - stride), Max(0, high - stride), stride); }
  }

  lemma ServedRunKeepsSpec(role: Role, w: Workload, inputs: seq<Input>, b: nat)
    requires ServedRun(role, w, inputs, b)
    ensures forall i :: 0 <= i < |inputs| ==>
               inputs[i].role == role && !inputs[i].stsUpdated && !Coordinated(inputs[i].coordination)
    decreases |inputs|
  {
    if |inputs| > 0 {
      ServedRunKeepsSpec(role, Next(w, inputs[0]), inputs[1..], b);
      forall i | 0 < i < |inputs|
        ensures inputs[i].role == role && !inputs[i].stsUpdated && !Coordinated(inputs[i].coordination)
      {
        assert inputs[i] == inputs[1..][i - 1];
      }
    }
  }

  lemma ServedRunFromZero(role: Role, w: Workload, inputs: seq<Input>, b: nat)
    requires Underway(role, w) && Unrestricted(role) && ServedRun(role, w, inputs, b)
    requires w.partition == 0 && 0 < |inputs|
    ensures Run(w, inputs) == Applied(0, role.replicas, Some(role.replicas))
  {
    LastServedStepCompletes(role, w, inputs[0], b);
    ServedRunKeepsSpec(role, w, inputs, b);
    CompletedStays(role, Next(w, inputs[0]), inputs[1..]);
  }

  lemma StrideSavesStep(partition: nat, next: nat, stride: nat)
    requires 0 < stride && 0 < partition && next <= Max(0, partition - stride)
    ensures StepsNeeded(next, stride) < StepsNeeded(partition, stride)
  {
    StepsNeededMonotone(next, Max(0, partition - stride), stride);
  }

  /** Convergence against any environment that keeps fewer than maxUnavailable unreleased replicas unready:
      the rollout completes within StepsNeeded reconciles, at most the partition plus one, and stays complete. */
  lemma {:induction false} RolloutConverges(role: Role, w: Workload, inputs: seq<Input>, b: nat)
    requires Underway(role, w) && Unrestricted(role) && b < MaxUnavailable(role).value
    requires ServedRun(role, w, inputs, b)
    requires StepsNeeded(w.partition, MaxUnavailable(role).value - b) <= |inputs|
    ensures Run(w, inputs) == Applied(0, role.replicas, Some(role.replicas))
    decreases |inputs|
  {
    if w.partition == 0 {
      ServedRunFromZero(role, w, inputs, b);
    } else {
      var next := Next(w, inputs[0]);
      ServedStepLowersPartition(role, w, inputs[0], b);
      StrideSavesStep(w.partition, next.partition, MaxUnavailable(role).value - b);
      RolloutConverges(role, next, inputs[1..], b);
    }
  }

  /** Fewer unready replicas than maxUnavailable, or a role smaller than twice that. */
  predicate NeverHeld(role: Role, b: nat)
    requires Resolved(role)
  {
    b < MaxUnavailable(role).value || role.replicas < 2 * MaxUnavailable(role).value
  }

  lemma ServedStepMoves(role: Role, w: Workload, inp: Input, b: nat)
    requires Underway(role, w) && Resolved(role) && Served(role, w, inp, b) && NeverHeld(role, b)
    requires OwnPartition(role).value <= w.partition
    ensures Underway(role, Next(w, inp)) && OwnPartition(role).value <= Next(w, inp).partition <= w.partition
    ensures OwnPartition(role).value < w.partition ==> Next(w, inp).partition < w.partition
  {
    ServedStepLowersPartition(role, w, inp, b);
    if OwnPartition(role).value < w.partition && MaxUnavailable(role).value <= b { SmallStepMoves(role, w, inp, b); }
  }

  lemma {:induction false} PartitionReachesOwn(role: Role, w: Workload, inputs: seq<Input>, b: nat)
    requires Underway(role, w) && Resolved(role) && OwnPartition(role).value <= w.partition
    requires ServedRun(role, w, inputs, b) && NeverHeld(role, b)
    requires w.partition - OwnPartition(role).value <= |inputs|
    ensures Underway(role, Run(w, inputs)) && Run(w, inputs).partition == OwnPartition(role).value
    decreases |inputs|
  {
    if |inputs| > 0 {
      ServedStepMoves(role, w, inputs[0], b);
      PartitionReachesOwn(role, Next(w, inputs[0]), inputs[1..], b);
    }
  }

  /** With fewer unready replicas than maxUnavailable, strides count instead of single replicas. */
  lemma {:induction false} PartitionReachesOwnInStrides(role: Role, w: Workload, inputs: seq<Input>, b: nat)
    requires Underway(role, w) && Resolved(role) && OwnPartition(role).value <= w.partition
    requires ServedRun(role, w, inputs, b) && b < MaxUnavailable(role).value
    requires StepsNeeded(w.partition - OwnPartition(role).value, MaxUnavailable(role).value - b) <= |inputs| + 1
    ensures Underway(role, Run(w, inputs)) && Run(w, inputs).partition == OwnPartition(role).value
    decreases |inputs|
  {
    if |inputs| > 0 {
      var own, stride := OwnPartition(role).value, MaxUnavailable(role).value - b;
      var next := Next(w, inputs[0]);
      ServedStepLowersPartition(role, w, inputs[0], b);
      if own < w.partition { StrideSavesStep(w.partition - own, next.partition - own, stride); }
      PartitionReachesOwnInStrides(role, next, inputs[1..], b);
    }
  }

  lemma {:induction false} RolloutCompletes(role: Role, w: Workload, inputs: seq<Input>, b: nat)
    requires Underway(role, w) && Unrestricted(role) && ServedRun(role, w, inputs, b) && NeverHeld(role, b)
    requires w.partition < |inputs|
    ensures Run(w, inputs) == Applied(0, role.replicas, Some(role.replicas))
    decreases |inputs|
  {
    if w.partition == 0 {
      ServedRunFromZero(role, w, inputs, b);
    } else {
      ServedStepMoves(role, w, inputs[0], b);
      RolloutCompletes(role, Next(w, inputs[0]), inputs[1..], b);
    }
  }

  /** A rollout of the role with at most `n` replicas to release. */
  predicate HasToGo(role: Role, w: Workload, n: nat)
    requires Resolved(role)
  {
    Underway(role, w) && 0 <= w.partition - OwnPartition(role).value <= n
  }

  predicate ReachesOwn(role: Role, w: Workload)
    requires Resolved(role)
  {
    w.Applied? && w.partition == OwnPartition(role).value
  }

  /** Every rollout of the role brings the partition down to the role's own within as many served reconciles as it has
      to go. */
  ghost predicate PartitionConverges(role: Role, b: nat)
    requires Resolved(role)
  {
    forall w, inputs :: HasToGo(role, w, |inputs|) && ServedRun(role, w, inputs, b) ==> ReachesOwn(role, Run(w, inputs))
  }

  /** Every rollout of the role completes within one served reconcile more than its partition. */
  ghost predicate Converges(role: Role, b: nat) {
    forall w, inputs ::
      Underway(role, w) && ServedRun(role, w, inputs, b) && w.partition < |inputs| ==>
        Run(w, inputs) == Applied(0, role.replicas, Some(role.replicas))
  }

  /** Whatever the role's own partition, its rollouts reach it against every environment with at most b unready
      unreleased replicas, exactly when b is less than maxUnavailable or the role is smaller than twice that. */
  lemma PartitionConvergesExactly(role: Role, b: nat)
    requires Resolved(role) && OwnPartition(role).value < role.replicas
    ensures PartitionConverges(role, b) <==> NeverHeld(role, b)
  {
    if NeverHeld(role, b) {
      forall w, inputs | HasToGo(role, w, |inputs|) && ServedRun(role, w, inputs, b)
        ensures ReachesOwn(role, Run(w, inputs))
      {
        PartitionReachesOwn(role, w, inputs, b);
      }
    } else {
      HeldRun(role, b);
    }
  }

  /** Without a partition of the role's own, its rollouts complete under the same condition. */
  lemma RolloutConvergesExactly(role: Role, b: nat)
    requires Unrestricted(role) && 0 < role.replicas
    ensures Converges(role, b) <==> NeverHeld(role, b)
  {
    if NeverHeld(role, b) {
      forall w, inputs | Underway(role, w) && ServedRun(role, w, inputs, b) && w.partition < |inputs|
        ensures Run(w, inputs) == Applied(0, role.replicas, Some(role.replicas))
      {
        RolloutCompletes(role, w, inputs, b);
      }
    } else {
      HeldRun(role, b);
    }
  }

  /** A run as long as may be asked for that is held at the role's size. */
  lemma HeldRun(role: Role, b: nat)
    requires Resolved(role) && OwnPartition(role).value < role.replicas && !NeverHeld(role, b)
    ensures exists inputs :: HeldFor(role, b, inputs)
  {
    var inputs := seq(role.replicas + 1, _ => Holding(role, role.replicas, MaxUnavailable(role).value));
    UnreadyReplicasHoldUp(role, role.replicas, b, inputs);
    assert HeldFor(role, b, inputs);
  }

  predicate HeldFor(role: Role, b: nat, inputs: seq<Input>) {
    var w := Applied(role.replicas, role.replicas, Some(role.replicas));
    role.replicas < |inputs| && ServedRun(role, w, inputs, b) && Run(w, inputs) == w
  }

  /** Served reconciles enough to complete a rollout at `partition`. */
  predicate LongEnough(role: Role, partition: int, b: nat, n: nat)
    requires Resolved(role)
  {
    partition < n
    || (0 <= partition && b < MaxUnavailable(role).value && StepsNeeded(partition, MaxUnavailable(role).value - b) <= n)
  }

  /** A rollout that starts with any reconcile at all converges: a spec change, a resize in the middle of a rollout,
      or the last apply of a coordinated one. */
  lemma RolloutConvergesFromAnywhere(role: Role, w: Workload, first: Input, inputs: seq<Input>, b: nat)
    requires Unrestricted(role) && first.role == role && NeverHeld(role, b)
    requires Plan(role, w, first.stsUpdated, first.coordination, first.observed).Success? && !SkipsStale(w, first)
    requires ServedRun(role, Next(w, first), inputs, b)
    requires Next(w, first).Applied? ==> LongEnough(role, Next(w, first).partition, b, |inputs|)
    ensures Run(w, [first] + inputs) == Applied(0, role.replicas, Some(role.replicas))
  {
    var next := Next(w, first);
    ReconcileLeadsUnderway(role, w, first);
    if next.partition < |inputs| {
      RolloutCompletes(role, next, inputs, b);
    } else {
      RolloutConverges(role, next, inputs, b);
    }
    RunSplit(w, [first], inputs);
  }

  /** A resize in the middle of a rollout, case 5, keeps the partition, but for the role's own and for the replicas
      there can be, the surge included; from there the rollout goes on. */
  lemma ResizeLeadsUnderway(role: Role, w: Workload, inp: Input)
    requires Inv(w) && w.Applied? && Resolved(role) && OwnPartition(role).value <= role.replicas
    requires inp.role == role && !inp.stsUpdated && !Coordinated(inp.coordination) && inp.observed.Some?
    requires w.roleSize != Some(role.replicas) && !Completed(role, w) && !SkipsStale(w, inp)
    ensures Underway(role, Next(w, inp)) && Next(w, inp).partition <= role.replicas + Surge(role).value
    ensures Next(w, inp).partition <= 2 * role.replicas
    ensures OwnPartition(role).value <= w.partition <= role.replicas + Surge(role).value ==>
              Next(w, inp).partition == w.partition
    ensures role.replicas + Surge(role).value < w.partition ==>
              Next(w, inp).partition == role.replicas + Surge(role).value
    ensures w.partition < OwnPartition(role).value ==> Next(w, inp).partition == OwnPartition(role).value
  {
    ReconcileLeadsUnderway(role, w, inp);
  }
}
