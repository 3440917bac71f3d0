/** What every reconcile of the rolling-update planner keeps, over any sequence of spec changes, observed
    pod states and coordinated rollouts. */
module RollingSafety {
  import opened Wrappers
  import opened IntOrPercents
  import opened RollingPartition
  import opened RollingPlanner
  import opened Arithmetic

  /** Every applied workload records the size of the role it was applied for, and has at least that many replicas. */
  predicate Inv(w: Workload) {
    w.Applied? ==> 0 <= w.partition && w.roleSize.Some? && 0 <= w.roleSize.value <= w.replicas
  }

  /** Admission does not reject a negative maxSurge; everything about replica counts needs it non-negative. */
  predicate SurgeNonNegative(role: Role) {
    Surge(role).Some? ==> 0 <= Surge(role).value
  }

  lemma PlannedNonNegative(states: seq<ReplicaState>, step: int)
    requires StepInRange(states, step)
    ensures 0 <= PlannedPartition(states, step)
  {
    PlannedPartitionLeast(states, step);
  }

  /** Cases 3, 5 and 6, which are the ones that may surge. */
  predicate Surges(w: Workload, inp: Input) {
    w.Applied? && !Coordinated(inp.coordination) && (inp.stsUpdated || !Completed(inp.role, w))
  }

  /** A workload that is created releases everything the role does not hold back itself. */
  lemma CreatedReleased(inp: Input)
    requires OwnPartition(inp.role).Some? && 0 <= OwnPartition(inp.role).value
    ensures Next(Absent, inp) == Applied(OwnPartition(inp.role).value, inp.role.replicas, Some(inp.role.replicas))
  {
  }

  /** Coordination without a partition is none. */
  lemma CoordinationNeedsPartition(w: Workload, inp: Input, unavailable: Option<IntOrPercent>,
                                   surge: Option<IntOrPercent>)
    ensures Next(w, inp.(coordination := Some(RollingUpdate(None, unavailable, surge)))) ==
            Next(w, inp.(coordination := None))
  {
  }

  /** A workload without a controller is never skipped: whatever is planned is applied, which gives it its controller
      and records the role's size. */
  lemma OrphanAlwaysApplied(w: Workload, inp: Input)
    requires !inp.controlled && Plan(inp.role, w, inp.stsUpdated, inp.coordination, inp.observed).Success?
    requires var d := Plan(inp.role, w, inp.stsUpdated, inp.coordination, inp.observed).value;
             0 <= d.partition && 0 <= d.replicas
    ensures Next(w, inp).Applied? && Next(w, inp).roleSize == Some(inp.role.replicas)
  {
  }

  /** Whatever a successful plan decides lies between the role's size and the size plus the surge, whichever of the
      two is larger, and never below the role's own partition. */
  lemma PlanWithinBand(w: Workload, inp: Input)
    requires Plan(inp.role, w, inp.stsUpdated, inp.coordination, inp.observed).Success?
    ensures var d := Plan(inp.role, w, inp.stsUpdated, inp.coordination, inp.observed).value;
            && OwnPartition(inp.role).Some? && OwnPartition(inp.role).value <= d.partition
            && (Surges(w, inp) ==>
                  && Surge(inp.role).Some?
                  && inp.role.replicas + Min(0, Surge(inp.role).value) <= d.replicas
                  && d.replicas <= inp.role.replicas + Max(0, Surge(inp.role).value))
            && (!Surges(w, inp) ==> d.replicas == inp.role.replicas)
  {
  }

  /** The surge is rounded up, and never more than the role's size. */
  lemma NeverMoreThanDouble(w: Workload, inp: Input)
    requires Plan(inp.role, w, inp.stsUpdated, inp.coordination, inp.observed).Success?
    ensures var d := Plan(inp.role, w, inp.stsUpdated, inp.coordination, inp.observed).value;
            var surge := Scaled(inp.role.strategy.maxSurge, inp.role.replicas, true);
            && d.replicas <= 2 * inp.role.replicas
            && (inp.role.replicas < d.replicas ==> surge.Some? && d.replicas <= inp.role.replicas + surge.value)
  {
  }

  /** A decision drops below the role's size exactly when it surges with a negative surge. */
  lemma BandNeedsSurge(w: Workload, inp: Input)
    requires Plan(inp.role, w, inp.stsUpdated, inp.coordination, inp.observed).Success?
    ensures Plan(inp.role, w, inp.stsUpdated, inp.coordination, inp.observed).value.replicas < inp.role.replicas
            <==> Surges(w, inp) && Surge(inp.role).value < 0
  {
  }

  lemma PlanPartitionNonNegative(w: Workload, inp: Input)
    requires Inv(w) && SurgeNonNegative(inp.role) && !Coordinated(inp.coordination)
    requires Plan(inp.role, w, inp.stsUpdated, inp.coordination, inp.observed).Success?
    ensures 0 <= Plan(inp.role, w, inp.stsUpdated, inp.coordination, inp.observed).value.partition
  {
    if w.Applied? && !inp.stsUpdated && !Completed(inp.role, w) && w.roleSize.value == inp.role.replicas {
      var step := RollingStep(inp.role, Surge(inp.role).value, MaxUnavailable(inp.role).value, w.replicas);
      PlannedNonNegative(inp.observed.value, step);
    }
  }

  /** A decision that is applied although it is below the role's size. */
  predicate AppliesBelow(w: Workload, inp: Input) {
    var r := Plan(inp.role, w, inp.stsUpdated, inp.coordination, inp.observed);
    && r.Success? && !Skips(w, inp, r.value) && 0 <= r.value.partition && 0 <= r.value.replicas
    && Surges(w, inp) && Surge(inp.role).value < 0
  }

  /** A reconcile keeps the invariant exactly unless it applies a negative surge. */
  lemma NextKeepsInv(w: Workload, inp: Input)
    requires Inv(w)
    ensures Inv(Next(w, inp)) <==> !AppliesBelow(w, inp)
  {
    if Plan(inp.role, w, inp.stsUpdated, inp.coordination, inp.observed).Success? {
      PlanWithinBand(w, inp);
      BandNeedsSurge(w, inp);
    }
  }

  /** No reconcile of the run applies a negative surge. */
  predicate NeverBelow(w: Workload, inputs: seq<Input>)
    decreases |inputs|
  {
    |inputs| == 0 || (!AppliesBelow(w, inputs[0]) && NeverBelow(Next(w, inputs[0]), inputs[1..]))
  }

  lemma {:induction false} RunKeepsInv(w: Workload, inputs: seq<Input>)
    requires Inv(w) && NeverBelow(w, inputs)
    ensures Inv(Run(w, inputs))
    decreases |inputs|
  {
    if |inputs| > 0 {
      NextKeepsInv(w, inputs[0]);
      RunKeepsInv(Next(w, inputs[0]), inputs[1..]);
    }
  }

  lemma {:induction false} NonNegativeNeverBelow(w: Workload, inputs: seq<Input>)
    requires forall i :: 0 <= i < |inputs| ==> SurgeNonNegative(inputs[i].role)
    ensures NeverBelow(w, inputs)
    decreases |inputs|
  {
    if |inputs| > 0 { NonNegativeNeverBelow(Next(w, inputs[0]), inputs[1..]); }
  }

  /** After any run without negative surges, one more reconcile whose plan succeeds leaves the workload inside the
      band, at or above the role's own partition, with at least as many replicas as it records. Only a coordinated
      partition can be negative and be rejected. */
  lemma ReachableWorkloadWithinBand(inputs: seq<Input>, last: Input)
    requires NeverBelow(Absent, inputs) && SurgeNonNegative(last.role)
    requires var r := Plan(last.role, Run(Absent, inputs), last.stsUpdated, last.coordination, last.observed);
             r.Success? && (Coordinated(last.coordination) ==> 0 <= r.value.partition)
    ensures var w := Run(Absent, inputs + [last]);
            && Inv(w) && w.Applied?
            && last.role.replicas <= w.replicas
            && w.replicas <= last.role.replicas + (if Surge(last.role).Some? then Surge(last.role).value else 0)
            && OwnPartition(last.role).value <= w.partition
  {
    var before := Run(Absent, inputs);
    RunKeepsInv(Absent, inputs);
    RunSplit(Absent, inputs, [last]);
    assert Run(before, [last]) == Next(before, last);
    PlanWithinBand(before, last);
    if !Coordinated(last.coordination) { PlanPartitionNonNegative(before, last); }
    NextKeepsInv(before, last);
  }

  lemma {:induction false} RunSplit(w: Workload, first: seq<Input>, second: seq<Input>)
    ensures Run(w, first + second) == Run(Run(w, first), second)
    decreases |first|
  {
    if |first| == 0 {
      assert first + second == second;
    } else {
      RunSplit(Next(w, first[0]), first[1..], second);
      assert (first + second)[1..] == first[1..] + second;
    }
  }

  /** The surge in use is one replica short of the unready ones, and never more than the surge allowed. */
  lemma SurgeFollowsUnready(roleReplicas: nat, surge: nat, unready: nat)
    ensures WantReplicas(roleReplicas, surge, unready) == roleReplicas + Min(surge, Max(0, unready - 1))
  {
  }

  /** Once a rollout is under way the replicas asked for are the role's and one short of its lagging ones, up to the
      surge. */
  lemma SurgeInUseExactly(role: Role, surge: int, w: Workload, states: seq<ReplicaState>)
    requires w.Applied? && PlanUnderway(role, surge, w, states).Success?
    ensures var lagging := |Lagging(states, role.replicas)|;
            PlanUnderway(role, surge, w, states).value.replicas ==
            role.replicas + if surge < lagging then surge else Max(0, lagging - 1)
  {
    RoleUnreadyIsNumber(states, role.replicas);
  }

  /** So no surge is given back that makes up for a replica of the role that is not ready, or not updated yet. */
  lemma SurgeMakesUpForUnready(role: Role, surge: int, w: Workload, states: seq<ReplicaState>, bad: set<int>)
    requires w.Applied? && PlanUnderway(role, surge, w, states).Success?
    requires forall i :: i in bad ==> 0 <= i < role.replicas
    requires forall i :: i in bad ==> |states| <= i || !states[i].ready || !states[i].updated
    ensures role.replicas + Min(surge, |bad| - 1) <= PlanUnderway(role, surge, w, states).value.replicas
  {
    SurgeInUseExactly(role, surge, w, states);
    SubsetCount(bad, Lagging(states, role.replicas));
  }

  /** Case 6: the next step of a rolling update, with everything it needs at hand. */
  predicate StepsOn(w: Workload, inp: Input) {
    && Surges(w, inp) && !inp.stsUpdated && inp.observed.Some?
    && w.roleSize == Some(inp.role.replicas) && Surge(inp.role).Some? && MaxUnavailable(inp.role).Some?
  }

  /** The scan indexes past the replica states exactly when case 6 sees a done suffix that does not make up for a
      negative maxUnavailable, the replicas above the role's size counting as well. */
  lemma OutOfRangeExactly(w: Workload, inp: Input)
    ensures Plan(inp.role, w, inp.stsUpdated, inp.coordination, inp.observed) == Failure(IndexOutOfRange) <==>
            && StepsOn(w, inp)
            && ContinuousReady(inp.observed.value) + MaxUnavailable(inp.role).value < inp.role.replicas - w.replicas
  {
  }

  /** So on every reachable workload the scan stays inside the replica states, and the step of case 6 is at least
      maxUnavailable, as long as maxUnavailable is not negative. */
  lemma ScanInRange(w: Workload, inp: Input)
    requires Inv(w)
    requires MaxUnavailable(inp.role).Some? ==> 0 <= MaxUnavailable(inp.role).value
    ensures Plan(inp.role, w, inp.stsUpdated, inp.coordination, inp.observed) != Failure(IndexOutOfRange)
    ensures w.Applied? && w.roleSize == Some(inp.role.replicas) ==>
              Surge(inp.role).Some? && MaxUnavailable(inp.role).Some? ==>
                MaxUnavailable(inp.role).value
                <= RollingStep(inp.role, Surge(inp.role).value, MaxUnavailable(inp.role).value, w.replicas)
  {
  }

  /** A coordinated rollout never surges, whatever the role allows: it runs exactly the role's replicas, and the
      coordinated partition is only raised to the role's own. */
  lemma CoordinationNeverSurges(w: Workload, inp: Input)
    requires w.Applied? && Coordinated(inp.coordination)
    ensures var r := Plan(inp.role, w, inp.stsUpdated, inp.coordination, inp.observed);
            var coordinated := Scaled(inp.coordination.value.partition, inp.role.replicas, true);
            && (r.Success? <==> coordinated.Some? && OwnPartition(inp.role).Some?)
            && (r.Success? ==> r.value.replicas == inp.role.replicas)
            && (r.Success? ==> coordinated.value <= r.value.partition)
            && (r.Success? ==> OwnPartition(inp.role).value <= r.value.partition)
            && (r.Success? ==> r.value.partition in {coordinated.value, OwnPartition(inp.role).value})
  {
  }

  /** With the spec unchanged the partition only moves down: no reconcile raises it. */
  lemma PartitionDescends(w: Workload, inp: Input)
    requires w.Applied? && !inp.stsUpdated && !Coordinated(inp.coordination)
    requires OwnPartition(inp.role).Some? ==> OwnPartition(inp.role).value <= w.partition
    ensures Next(w, inp).Applied? && Next(w, inp).partition <= w.partition
    ensures OwnPartition(inp.role).Some? ==> OwnPartition(inp.role).value <= Next(w, inp).partition
  {
  }

  lemma {:induction false} PartitionDescendsOverRuns(w: Workload, role: Role, inputs: seq<Input>)
    requires w.Applied?
    requires OwnPartition(role).Some? ==> OwnPartition(role).value <= w.partition
    requires forall i :: 0 <= i < |inputs| ==>
               inputs[i].role == role && !inputs[i].stsUpdated && !Coordinated(inputs[i].coordination)
    ensures Run(w, inputs).Applied? && Run(w, inputs).partition <= w.partition
    decreases |inputs|
  {
    if |inputs| > 0 {
      PartitionDescends(w, inputs[0]);
      PartitionDescendsOverRuns(Next(w, inputs[0]), role, inputs[1..]);
    }
  }

  // ----- maxUnavailable over one reconcile

  lemma ExposedAntitone(states: seq<ReplicaState>, current: nat, low: nat, high: nat)
    requires low <= high
    ensures NewlyExposed(states, current, high) <= NewlyExposed(states, current, low)
  {
    var top := Min(current, |states|);
    if high <= top { CountSplit(Pinned, states, low, high, top); }
  }

  /** A step of case 6 keeps `role - maxUnavailable` replicas available, less the unready ones at the step
      floor, or takes none down: the surge handed back so far is accounted for in the step. */
  lemma StepKeepsAvailable(w: Workload, inp: Input)
    requires Inv(w) && SurgeNonNegative(inp.role) && Observes(inp.observed, w) && inp.observed.Some?
    requires w.Applied? && w.roleSize == Some(inp.role.replicas) && !inp.stsUpdated && !Coordinated(inp.coordination)
    requires MaxUnavailable(inp.role).Some? && 0 <= MaxUnavailable(inp.role).value
    requires Plan(inp.role, w, inp.stsUpdated, inp.coordination, inp.observed).Success? && !Completed(inp.role, w)
    ensures var states := inp.observed.value;
            var d := Plan(inp.role, w, inp.stsUpdated, inp.coordination, inp.observed).value;
            var unavailable := MaxUnavailable(inp.role).value;
            var step := RollingStep(inp.role, Surge(inp.role).value, unavailable, w.replicas);
            && 0 <= step && 0 <= d.partition
            && w.replicas - UnavailableAfter(states, w.partition, d.partition)
               >= Min(w.replicas - CountIn(Unready, states, 0, |states|),
                      inp.role.replicas - unavailable
                      - UnreadyAtFloor(states, StepFloor(states, step), UnreadyBelow(states, step)))
  {
    var states, d := inp.observed.value, Plan(inp.role, w, inp.stsUpdated, inp.coordination, inp.observed).value;
    var step := RollingStep(inp.role, Surge(inp.role).value, MaxUnavailable(inp.role).value, w.replicas);
    UnavailableWithinStepPlusFloor(states, step, w.partition);
    PlannedNonNegative(states, step);
    var planned := Min(PlannedPartition(states, step), w.partition);
    assert d.partition == Max(planned, OwnPartition(inp.role).value);
    ExposedAntitone(states, w.partition, planned, d.partition);
  }
}
