/** The two validations of a rollout strategy, at admission and in the reconciler, and what passing them
    means for the rollout. */
module RolloutValidation {
  import opened Wrappers
  import opened IntOrPercents
  import opened RollingPartition
  import opened RollingPlanner
  import opened RollingSafety
  import opened Rollout
  import opened RolloutCompletion

  datatype StrategyError = InvalidSurge | InvalidUnavailable | BothZero | InvalidPartition | PartitionTooHigh

  // ----- In the reconciler

  const DEFAULT_STRATEGY := RollingUpdate(Some(Count(0)), Some(Count(1)), Some(Count(0)))

  /** A missing strategy is replaced by the default; a missing partition becomes zero. */
  method ValidateRolloutStrategy(strategy: Option<RollingUpdate>, replicas: nat)
    returns (r: Result<RollingUpdate, StrategyError>)
    ensures r.Success? <==> strategy.None? || ReconcilerAccepts(strategy.value, replicas)
    ensures r.Failure? ==> strategy.Some?
    ensures r == Failure(InvalidSurge) <==> strategy.Some? && Scaled(strategy.value.maxSurge, replicas, true).None?
    ensures r == Failure(InvalidUnavailable) ==> Scaled(strategy.value.maxUnavailable, replicas, true).None?
    ensures r == Failure(BothZero) <==>
            && strategy.Some? && 0 < replicas && Scaled(strategy.value.maxSurge, replicas, true) == Some(0)
            && Scaled(strategy.value.maxUnavailable, replicas, true) == Some(0)
    ensures r.Failure? ==> r.error in {InvalidSurge, InvalidUnavailable, BothZero}
    ensures r.Success? ==> r.value.partition.Some?
    ensures r.Success? && strategy.None? ==>
              r.value == RollingUpdate(partition := Some(Count(0)), maxUnavailable := Some(Count(1)),
                                       maxSurge := Some(Count(0)))
    ensures r.Success? && strategy.Some? ==>
              && r.value.maxUnavailable == strategy.value.maxUnavailable && r.value.maxSurge == strategy.value.maxSurge
              && (strategy.value.partition.Some? ==> r.value.partition == strategy.value.partition)
              && (strategy.value.partition.None? ==> r.value.partition == Some(Count(0)))
  {
    if strategy.None? { return Success(DEFAULT_STRATEGY); }
    var ru := strategy.value;
    if ru.partition.None? { ru := ru.(partition := Some(Count(0))); }
    var maxSurge := Scaled(ru.maxSurge, replicas, true);
    if maxSurge.None? { return Failure(InvalidSurge); }
    var maxUnavailable := Scaled(ru.maxUnavailable, replicas, maxSurge.value == 0);
    if maxUnavailable.None? { return Failure(InvalidUnavailable); }
    if replicas > 0 && maxUnavailable.value == 0 && maxSurge.value == 0 { return Failure(BothZero); }
    return Success(ru);
  }

  /** Both values resolve, and not both are zero when maxUnavailable is rounded up. */
  predicate ReconcilerAccepts(ru: RollingUpdate, replicas: nat) {
    && Scaled(ru.maxSurge, replicas, true).Some?
    && Scaled(ru.maxUnavailable, replicas, true).Some?
    && (0 < replicas && Scaled(ru.maxSurge, replicas, true).value == 0 ==>
        Scaled(ru.maxUnavailable, replicas, true).value != 0)
  }

  // ----- At admission

  function ScaledOrDefault(v: Option<IntOrPercent>, replicas: int, roundUp: bool, default: int): Option<int> {
    if v.None? then Some(default) else Scaled(v, replicas, roundUp)
  }

  /** The partition, if there is one, leaves a replica to update. */
  predicate PartitionInRange(ru: RollingUpdate, replicas: nat) {
    ru.partition.Some? ==>
      Scaled(ru.partition, replicas, true).Some? && Scaled(ru.partition, replicas, true).value < replicas
  }

  /** Both values resolve with their defaults, not both are zero when maxUnavailable is rounded down,
      and the partition leaves a replica to update. */
  predicate AdmissionAccepts(ru: RollingUpdate, replicas: nat) {
    var surge := ScaledOrDefault(ru.maxSurge, replicas, true, 0);
    var unavailable := ScaledOrDefault(ru.maxUnavailable, replicas, false, 1);
    && surge.Some? && unavailable.Some?
    && (surge.value == 0 ==> unavailable.value != 0)
    && PartitionInRange(ru, replicas)
  }

  method ValidateRoleRollingUpdate(ru: RollingUpdate, replicas: nat) returns (errs: seq<StrategyError>)
    ensures errs == [] <==> AdmissionAccepts(ru, replicas)
    ensures InvalidSurge in errs <==> ScaledOrDefault(ru.maxSurge, replicas, true, 0).None?
    ensures InvalidUnavailable in errs <==> ScaledOrDefault(ru.maxUnavailable, replicas, false, 1).None?
    ensures BothZero in errs <==>
            && ScaledOrDefault(ru.maxSurge, replicas, true, 0) == Some(0)
            && ScaledOrDefault(ru.maxUnavailable, replicas, false, 1) == Some(0)
    ensures InvalidPartition in errs <==> ru.partition.Some? && Scaled(ru.partition, replicas, true).None?
    ensures PartitionTooHigh in errs <==>
            && ru.partition.Some? && Scaled(ru.partition, replicas, true).Some?
            && replicas <= Scaled(ru.partition, replicas, true).value
  {
    errs := [];
    var maxSurge := ScaledOrDefault(ru.maxSurge, replicas, true, 0);
    if maxSurge.None? { errs := errs + [InvalidSurge]; }
    var maxUnavailable := ScaledOrDefault(ru.maxUnavailable, replicas, false, 1);
    if maxUnavailable.None? { errs := errs + [InvalidUnavailable]; }
    if maxSurge.Some? && maxUnavailable.Some? && maxSurge.value == 0 && maxUnavailable.value == 0 {
      errs := errs + [BothZero];
    }
    if ru.partition.Some? {
      var partition := Scaled(ru.partition, replicas, true);
      if partition.None? {
        errs := errs + [InvalidPartition];
      } else if partition.value >= replicas {
        errs := errs + [PartitionTooHigh];
      }
    }
  }

  /** A missing value counts at admission as the one the schema fills in: no surge, one replica unavailable. */
  lemma AdmissionFillsIn(ru: RollingUpdate, replicas: nat)
    ensures AdmissionAccepts(ru, replicas) <==>
            AdmissionAccepts(ru.(maxSurge := if ru.maxSurge.None? then Some(Count(0)) else ru.maxSurge,
                                 maxUnavailable :=
                                   if ru.maxUnavailable.None? then Some(Count(1)) else ru.maxUnavailable),
                             replicas)
  {
  }

  // ----- How they relate

  /** For strategies with the values the schema fills in, neither validation is the stricter one. Admission lets more
      through exactly when, without surge, maxUnavailable is below zero by less than one replica; the reconciler does
      when the partition is out of range or, without surge, maxUnavailable is above zero by less than one replica. */
  lemma ValidationsDifferExactly(ru: RollingUpdate, replicas: nat)
    requires ru.maxSurge.Some? && ru.maxUnavailable.Some?
    ensures AdmissionAccepts(ru, replicas) && !ReconcilerAccepts(ru, replicas) <==>
            && PartitionInRange(ru, replicas) && 0 < replicas
            && Scaled(ru.maxSurge, replicas, true) == Some(0)
            && Scaled(ru.maxUnavailable, replicas, false) == Some(-1)
            && Scaled(ru.maxUnavailable, replicas, true) == Some(0)
    ensures ReconcilerAccepts(ru, replicas) ==>
              (AdmissionAccepts(ru, replicas) <==> PartitionInRange(ru, replicas) && !UnderOneReplica(ru, replicas))
  {
    RoundingGap(ru.maxUnavailable, replicas);
  }

  /** No surge, and a maxUnavailable that only rounding up makes a replica, or that is zero for a role of size zero. */
  predicate UnderOneReplica(ru: RollingUpdate, replicas: nat) {
    && Scaled(ru.maxSurge, replicas, true) == Some(0)
    && Scaled(ru.maxUnavailable, replicas, false) == Some(0)
    && (0 < replicas ==> Scaled(ru.maxUnavailable, replicas, true) == Some(1))
  }

  /** One replica, no surge, and half a replica less than none: admitted, and then refused by every reconcile. */
  lemma AdmittedThenRefused()
    ensures var ru := RollingUpdate(None, Some(Percent(-50)), Some(Count(0)));
            AdmissionAccepts(ru, 1) && !ReconcilerAccepts(ru, 1)
  {
  }

  /** Negative counts pass both: a negative maxUnavailable with any surge, and a negative surge with any
      maxUnavailable. */
  lemma NegativeCountsPass(replicas: nat, negative: int, other: int)
    requires negative < 0
    ensures var ru := RollingUpdate(None, Some(Count(negative)), Some(Count(other)));
            AdmissionAccepts(ru, replicas) && ReconcilerAccepts(ru, replicas)
    ensures var ru := RollingUpdate(None, Some(Count(other)), Some(Count(negative)));
            AdmissionAccepts(ru, replicas) && ReconcilerAccepts(ru, replicas)
  {
  }

  // ----- A strategy both accept and the planner cannot scan for

  const SHORT_ROLE := Role(3, RollingUpdate(Some(Count(0)), Some(Count(-1)), Some(Count(0))))

  const SHORT_INPUT := Input(SHORT_ROLE, false, None, Some(seq(3, _ => ReplicaState(true, false))), true)

  /** Three ready old replicas and a maxUnavailable of minus one pass both validations, and the scan of the first step
      indexes past the replica states. */
  lemma AdmittedOutOfRange()
    ensures AdmissionAccepts(SHORT_ROLE.strategy, 3) && ReconcilerAccepts(SHORT_ROLE.strategy, 3)
    ensures Inv(Applied(3, 3, Some(3))) && Observes(SHORT_INPUT.observed, Applied(3, 3, Some(3)))
    ensures Plan(SHORT_ROLE, Applied(3, 3, Some(3)), false, None, SHORT_INPUT.observed) == Failure(IndexOutOfRange)
  {
    var states := SHORT_INPUT.observed.value;
    assert !Done(states[2]);
    assert ContinuousReady(states) == 0;
    OutOfRangeExactly(Applied(3, 3, Some(3)), SHORT_INPUT);
  }

  /** A workload at which a rollout with maxUnavailable zero can go no further although the role may surge: one at the
      role's size, or a single replica whose partition is past all replicas. */
  predicate SurgeNotTakenUp(role: Role, w: Workload)
    requires w.Applied?
  {
    if w.partition <= role.replicas then 0 < w.partition && w.replicas == role.replicas
    else role.replicas == 1 && w.replicas <= w.partition
  }

  /** The rollouts admission lets through, with non-negative values and no partition of their own, complete from any
      workload except with a maxUnavailable that rounds down to zero where the surge is not taken up. */
  lemma AdmittedRolloutCompletes(role: Role, w: Workload)
    requires 0 < role.replicas && Unrestricted(role) && Underway(role, w)
    requires AdmissionAccepts(role.strategy, role.replicas)
    ensures (exists n: nat :: CompletesAfter(role, w, n))
            <==> !(MaxUnavailable(role) == Some(0) && SurgeNotTakenUp(role, w))
  {
    RolloutCompletesExactly(role, w);
  }

  /** For rollouts just started by a spec change, the only exception is a single replica. */
  lemma AdmittedUpdateCompletes(role: Role, before: nat)
    requires 0 < role.replicas && 0 < before && Unrestricted(role)
    requires AdmissionAccepts(role.strategy, role.replicas)
    ensures (exists n: nat :: CompletesAfter(role, Fresh(role, before), n))
            <==> !(role.replicas == 1 && MaxUnavailable(role) == Some(0))
  {
    FreshCompletesExactly(role, before);
  }

  const TAKEN_OVER := Role(10, RollingUpdate(Some(Count(0)), Some(Count(0)), Some(Count(1))))

  /** The last reconcile of a coordinated rollout that stopped at partition 5. */
  const LAST_COORDINATED := Input(TAKEN_OVER, false, Some(RollingUpdate(Some(Count(5)), None, None)), None, true)

  /** Ten replicas that may surge by one pass both validations, and a spec change alone would complete. Taken over from
      coordination at partition 5, the rollout never does. */
  lemma TakenOverNeverCompletes(n: nat)
    ensures AdmissionAccepts(TAKEN_OVER.strategy, 10) && ReconcilerAccepts(TAKEN_OVER.strategy, 10)
    ensures Unrestricted(TAKEN_OVER) && exists m: nat :: CompletesAfter(TAKEN_OVER, Fresh(TAKEN_OVER, 10), m)
    ensures Next(Applied(10, 11, Some(10)), LAST_COORDINATED) == Applied(5, 10, Some(10))
    ensures !CompletesAfter(TAKEN_OVER, Applied(5, 10, Some(10)), n)
  {
    FreshCompletesExactly(TAKEN_OVER, 10);
    CoordinationLeavesStuck(TAKEN_OVER, Applied(10, 11, Some(10)), LAST_COORDINATED, n);
  }

  /** The strategies only the reconciler accepts are rollouts that never complete. */
  lemma UnadmittedRolloutStalls(role: Role, before: nat)
    requires 0 < role.replicas && 0 < before && Unrestricted(role)
    requires ReconcilerAccepts(role.strategy, role.replicas) && !AdmissionAccepts(role.strategy, role.replicas)
    requires role.strategy.partition.Some? && OwnPartition(role).value < role.replicas
    ensures forall n: nat :: !CompletesAfter(role, Fresh(role, before), n)
  {
    ValidationsDifferExactly(role.strategy, role.replicas);
    FreshCompletesExactly(role, before);
  }
}
