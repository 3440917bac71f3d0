/** The StatefulSet rolling-update planner: which partition and replica count the next apply carries,
    and the workload object that those applies change. */
module RollingPlanner {
  import opened Wrappers
  import opened IntOrPercents
  import opened RollingPartition
  import opened Arithmetic

  datatype RollingUpdate = RollingUpdate(
    partition: Option<IntOrPercent>, maxUnavailable: Option<IntOrPercent>, maxSurge: Option<IntOrPercent>)

  datatype Role = Role(replicas: nat, strategy: RollingUpdate)

  /** The StatefulSet as last applied. `roleSize` is the role-size annotation, None when it does not parse. */
  datatype Workload = Absent | Applied(partition: int, replicas: nat, roleSize: Option<int>)

  datatype Decision = Decision(partition: int, replicas: int)

  datatype PlanError =
    | InvalidValue       // an int-or-percent that does not resolve
    | Unobserved         // the pods or the controller revision could not be read
    | NoRoleSize         // the role-size annotation does not parse
    | IndexOutOfRange    // the partition scan would index past the replica states

  /** One reconcile: the desired role, whether it differs from the applied one, the coordinated rollout if any,
      the observed replica states (None when reading them fails), and whether the workload has a controller. */
  datatype Input = Input(role: Role, stsUpdated: bool, coordination: Option<RollingUpdate>,
                         observed: Option<seq<ReplicaState>>, controlled: bool)

  // ----- The quantities the decision is made of

  function Surge(role: Role): Option<int> {
    match Scaled(role.strategy.maxSurge, role.replicas, true)
    case Some(surge) => Some(Min(surge, role.replicas))
    case None => None
  }

  function MaxUnavailable(role: Role): Option<int> {
    Scaled(role.strategy.maxUnavailable, role.replicas, false)
  }

  function OwnPartition(role: Role): Option<int> {
    Scaled(role.strategy.partition, role.replicas, true)
  }

  /** With enough unready replicas the full surge is kept; otherwise it is handed back one by one. */
  function WantReplicas(roleReplicas: int, surge: int, unready: int): int {
    if unready <= surge then roleReplicas + Max(0, unready - 1) else roleReplicas + surge
  }

  function RollingStep(role: Role, surge: int, maxUnavailable: int, stsReplicas: int): int {
    maxUnavailable + (surge - (role.replicas + surge - stsReplicas))
  }

  predicate Completed(role: Role, w: Workload) {
    w.Applied? && w.partition == 0 && w.replicas == role.replicas
  }

  predicate Coordinated(coordination: Option<RollingUpdate>) {
    coordination.Some? && coordination.value.partition.Some?
  }

  /** Cases 5 and 6: a rollout is under way and the replica states were read. */
  function PlanUnderway(role: Role, surge: int, w: Workload, states: seq<ReplicaState>): Result<Decision, PlanError>
    requires w.Applied?
  {
    var replicas := WantReplicas(role.replicas, surge, RoleUnready(states, role.replicas));
    if w.roleSize.None? then Failure(NoRoleSize)
    else if w.roleSize.value != role.replicas then
      Success(Decision(Min(w.partition, role.replicas + surge), replicas))
    else if MaxUnavailable(role).None? then Failure(InvalidValue)
    else
      var step := RollingStep(role, surge, MaxUnavailable(role).value, w.replicas);
      if !StepInRange(states, step) then Failure(IndexOutOfRange)
      else Success(Decision(Min(PlannedPartition(states, step), w.partition), replicas))
  }

  /** The decision before the role's own partition is applied as a lower bound. */
  function PlanUnbounded(role: Role, w: Workload, stsUpdated: bool, coordination: Option<RollingUpdate>,
                         observed: Option<seq<ReplicaState>>): Result<Decision, PlanError>
  {
    if w.Absent? then Success(Decision(0, role.replicas))
    else if Coordinated(coordination) then
      match Scaled(coordination.value.partition, role.replicas, true)
      case None => Failure(InvalidValue)
      case Some(partition) => Success(Decision(partition, role.replicas))
    else if Surge(role).None? then Failure(InvalidValue)
    else if stsUpdated then
      Success(Decision(Min(role.replicas, w.replicas), WantReplicas(role.replicas, Surge(role).value, role.replicas)))
    else if Completed(role, w) then Success(Decision(0, role.replicas))
    else if observed.None? then Failure(Unobserved)
    else PlanUnderway(role, Surge(role).value, w, observed.value)
  }

  function Plan(role: Role, w: Workload, stsUpdated: bool, coordination: Option<RollingUpdate>,
                observed: Option<seq<ReplicaState>>): Result<Decision, PlanError>
  {
    match PlanUnbounded(role, w, stsUpdated, coordination, observed)
    case Failure(e) => Failure(e)
    case Success(d) =>
      if OwnPartition(role).None? then Failure(InvalidValue)
      else Success(d.(partition := Max(d.partition, OwnPartition(role).value)))
  }

  /** The replica states are read with as many entries as the applied StatefulSet has replicas. */
  predicate Observes(observed: Option<seq<ReplicaState>>, w: Workload) {
    observed.Some? && w.Applied? ==> |observed.value| == w.replicas
  }

  /** The workload already stands as planned, at the role's size and under a controller. */
  predicate Skips(w: Workload, inp: Input, d: Decision) {
    w.Applied? && !inp.stsUpdated && d.partition == w.partition && w.replicas == inp.role.replicas && inp.controlled
  }

  /** The reconcile's whole effect on the workload. Nothing is applied when the plan fails, when there is nothing to
      do, or when the API server rejects a negative value. Every apply records the role's size. */
  function Next(w: Workload, inp: Input): Workload {
    match Plan(inp.role, w, inp.stsUpdated, inp.coordination, inp.observed)
    case Failure(_) => w
    case Success(d) =>
      if Skips(w, inp, d) then w
      else if d.partition < 0 || d.replicas < 0 then w
      else Applied(d.partition, d.replicas, Some(inp.role.replicas))
  }

  function Run(w: Workload, inputs: seq<Input>): Workload
    decreases |inputs|
  {
    if |inputs| == 0 then w else Run(Next(w, inputs[0]), inputs[1..])
  }

  class StatefulSetReconciler {
    var created: bool
    var partition: int
    var replicas: nat
    var roleSize: Option<int>

    ghost function Snapshot(): Workload
      reads this
    {
      if created then Applied(partition, replicas, roleSize) else Absent
    }

    constructor ()
      ensures Snapshot() == Absent
    {
      created, partition, replicas, roleSize := false, 0, 0, None;
    }

    /** Cases 1 to 6. The deferred lower bound by the role's own partition is the code after the six cases. */
    method RollingUpdateParameters(role: Role, stsUpdated: bool, coordination: Option<RollingUpdate>,
                                   observed: Option<seq<ReplicaState>>)
      returns (r: Result<Decision, PlanError>)
      requires Observes(observed, Snapshot())
      ensures r == Plan(role, Snapshot(), stsUpdated, coordination, observed)
    {
      r := SixCases(role, stsUpdated, coordination, observed);
      if r.Failure? { return; }
      var own := Scaled(role.strategy.partition, role.replicas, true);
      if own.None? { return Failure(InvalidValue); }
      r := Success(r.value.(partition := Max(r.value.partition, own.value)));
    }

    method SixCases(role: Role, stsUpdated: bool, coordination: Option<RollingUpdate>,
                    observed: Option<seq<ReplicaState>>)
      returns (r: Result<Decision, PlanError>)
      requires Observes(observed, Snapshot())
      ensures r == PlanUnbounded(role, Snapshot(), stsUpdated, coordination, observed)
    {
      // Case 1: not created yet.
      if !created { return Success(Decision(0, role.replicas)); }
      // Case 2: coordination; the surge is not considered.
      if coordination.Some? && coordination.value.partition.Some? {
        var coordinated := Scaled(coordination.value.partition, role.replicas, true);
        if coordinated.None? { return Failure(InvalidValue); }
        return Success(Decision(coordinated.value, role.replicas));
      }
      var scaledSurge := Scaled(role.strategy.maxSurge, role.replicas, true);
      if scaledSurge.None? { return Failure(InvalidValue); }
      var maxSurge := scaledSurge.value;
      if maxSurge > role.replicas { maxSurge := role.replicas; }
      // Case 3: a new rolling update.
      if stsUpdated {
        return Success(Decision(Min(role.replicas, replicas), WantReplicas(role.replicas, maxSurge, role.replicas)));
      }
      // Case 4: completed.
      if partition == 0 && replicas == role.replicas { return Success(Decision(0, role.replicas)); }
      if observed.None? { return Failure(Unobserved); }
      r := LastTwoCases(role, maxSurge, observed.value);
    }

    method LastTwoCases(role: Role, maxSurge: int, states: seq<ReplicaState>)
      returns (r: Result<Decision, PlanError>)
      requires created && |states| == replicas
      ensures r == PlanUnderway(role, maxSurge, Snapshot(), states)
    {
      var burstReplicas := role.replicas + maxSurge;
      var roleUnreadyReplicas := CalculateRoleUnreadyReplicas(states, role.replicas);
      if roleSize.None? { return Failure(NoRoleSize); }
      // Case 5: the role's size changed during the rolling update.
      if roleSize.value != role.replicas {
        return Success(Decision(Min(partition, burstReplicas),
                                WantReplicas(role.replicas, maxSurge, roleUnreadyReplicas)));
      }
      // Case 6: the next step of the rolling update.
      var maxUnavailable := Scaled(role.strategy.maxUnavailable, role.replicas, false);
      if maxUnavailable.None? { return Failure(InvalidValue); }
      var rollingStep := maxUnavailable.value + (maxSurge - (burstReplicas - replicas));
      var continuous := CalculateContinuousReadyReplicas(states);
      if continuous + rollingStep < 0 { return Failure(IndexOutOfRange); }
      var next := RollingUpdatePartition(states, replicas, rollingStep, partition);
      return Success(Decision(next, WantReplicas(role.replicas, maxSurge, roleUnreadyReplicas)));
    }

    method Reconcile(inp: Input)
      requires Observes(inp.observed, Snapshot())
      modifies this
      ensures Snapshot() == Next(old(Snapshot()), inp)
    {
      var r := RollingUpdateParameters(inp.role, inp.stsUpdated, inp.coordination, inp.observed);
      if r.Failure? { return; }
      if created && !inp.stsUpdated && r.value.partition == partition && replicas == inp.role.replicas
         && inp.controlled {
        return;
      }
      if r.value.partition < 0 || r.value.replicas < 0 { return; }
      created, partition, replicas, roleSize := true, r.value.partition, r.value.replicas, Some(inp.role.replicas);
    }
  }
}
