/** Which rollouts complete, and where held ones rest, when every unreleased replica keeps running the old revision and
    every released one is served. */
module RolloutCompletion {
  import opened Wrappers
  import opened IntOrPercents
  import opened RollingPartition
  import opened RollingPlanner
  import opened RollingSafety
  import opened Rollout
  import opened Arithmetic

  /** Every replica below the partition runs the old revision, every other one the new. */
  function Ideal(role: Role, w: Workload): Input
    requires w.Applied?
  {
    Input(role, false, None, Some(seq(w.replicas, i => ReplicaState(true, w.partition <= i))), true)
  }

  function IdealRun(role: Role, w: Workload, n: nat): (r: Workload)
    requires w.Applied?
    ensures r.Applied?
    decreases n
  {
    if n == 0 then w else IdealRun(role, Next(w, Ideal(role, w)), n - 1)
  }

  lemma IdealObservation(role: Role, w: Workload)
    requires Underway(role, w)
    ensures Served(role, w, Ideal(role, w), 0)
    ensures ContinuousReady(Ideal(role, w).observed.value) == w.replicas - Min(w.partition, w.replicas)
    ensures RoleUnready(Ideal(role, w).observed.value, role.replicas) == Min(w.partition, role.replicas)
  {
    var states := Ideal(role, w).observed.value;
    var top, low := Min(w.partition, w.replicas), Min(w.partition, role.replicas);
    CountNone(Unready, states, 0, top);
    ContinuousReadyUnique(states, w.replicas - top);
    CountNone(Done, states, 0, low);
    CountSplit(Done, states, 0, low, role.replicas);
    CountAll(Done, states, low, role.replicas);
  }

  /** Where one reconcile brings the partition. */
  function Lowered(role: Role, w: Workload): int
    requires Resolved(role) && w.Applied?
  {
    Max(OwnPartition(role).value,
        Min(w.partition, w.replicas) - (MaxUnavailable(role).value + w.replicas - role.replicas))
  }

  /** The replicas the planner asks for while `partition` holds back that many replicas of the role. */
  function Asked(role: Role, partition: nat): nat
    requires Resolved(role)
  {
    role.replicas + Min(Surge(role).value, Max(0, Min(partition, role.replicas) - 1))
  }

  /** One reconcile in closed form: nothing exactly when the partition cannot move and the workload has the role's
      size, and else the lowered partition with the replicas asked for. */
  lemma IdealStep(role: Role, w: Workload)
    requires Underway(role, w) && Resolved(role) && OwnPartition(role).value <= w.partition
    ensures Next(w, Ideal(role, w)) ==
            if Lowered(role, w) == w.partition && w.replicas == role.replicas then w
            else Applied(Lowered(role, w), Asked(role, w.partition), Some(role.replicas))
  {
    IdealObservation(role, w);
    var states := Ideal(role, w).observed.value;
    var step := RollingStep(role, Surge(role).value, MaxUnavailable(role).value, w.replicas);
    PlannedPartitionLeast(states, step);
    CountNone(Unready, states, 0, StepFloor(states, step));
    SurgeFollowsUnready(role.replicas, Surge(role).value, Min(w.partition, role.replicas));
  }

  // ----- Rest

  /** At the role's own partition, and left alone by a reconcile. */
  predicate AtRest(role: Role, w: Workload)
    requires Resolved(role)
  {
    w.Applied? && w.partition == OwnPartition(role).value && Next(w, Ideal(role, w)) == w
  }

  /** Where a rollout rests that the role's own partition holds, unless it rests at the role's size. */
  function Rest(role: Role): Workload
    requires Resolved(role)
  {
    Applied(OwnPartition(role).value, Asked(role, OwnPartition(role).value), Some(role.replicas))
  }

  /** A workload rests exactly at the role's own partition with the role's size or as Rest says. */
  lemma AtRestExactly(role: Role, w: Workload)
    requires Underway(role, w) && Resolved(role) && OwnPartition(role).value <= w.partition
    ensures AtRest(role, w) <==>
            w.partition == OwnPartition(role).value && (w.replicas == role.replicas || w == Rest(role))
  {
    IdealStep(role, w);
  }

  /** The surge is not given back while more than one replica of the role is held: Rest has the role's size exactly when
      there is no surge or at most one held replica. */
  lemma RestKeepsSurge(role: Role)
    requires Resolved(role)
    ensures var held := Min(OwnPartition(role).value, role.replicas);
            && (Rest(role).replicas == role.replicas <==> Surge(role).value == 0 || held <= 1)
            && Rest(role).replicas == WantReplicas(role.replicas, Surge(role).value, held)
  {
    SurgeFollowsUnready(role.replicas, Surge(role).value, Min(OwnPartition(role).value, role.replicas));
  }

  /** Without a partition of the role's own, to rest is to be complete. */
  lemma RestIsCompletion(role: Role, w: Workload)
    requires Underway(role, w) && Unrestricted(role)
    ensures AtRest(role, w) <==> Completed(role, w)
  {
    AtRestExactly(role, w);
  }

  predicate RestsAfter(role: Role, w: Workload, n: nat)
    requires Resolved(role) && w.Applied?
  {
    AtRest(role, IdealRun(role, w, n))
  }

  predicate CompletesAfter(role: Role, w: Workload, n: nat)
    requires w.Applied?
  {
    Completed(role, IdealRun(role, w, n))
  }

  lemma IdealNext(role: Role, w: Workload)
    requires Underway(role, w) && Resolved(role) && OwnPartition(role).value <= w.partition
    ensures Underway(role, Next(w, Ideal(role, w))) && OwnPartition(role).value <= Next(w, Ideal(role, w)).partition
    ensures Next(w, Ideal(role, w)).partition == Lowered(role, w)
  {
    IdealStep(role, w);
  }

  lemma IdealUnroll(role: Role, w: Workload, n: nat)
    requires w.Applied?
    ensures IdealRun(role, w, n + 1) == IdealRun(role, Next(w, Ideal(role, w)), n)
  {
  }

  lemma IdealAgain(role: Role, w: Workload, n: nat)
    requires w.Applied? && Resolved(role)
    ensures RestsAfter(role, Next(w, Ideal(role, w)), n) <==> RestsAfter(role, w, n + 1)
  {
    IdealUnroll(role, w, n);
  }

  /** On a run of an unrestricted role, resting and completing are the same. */
  lemma {:induction false} RestsIsCompletes(role: Role, w: Workload, n: nat)
    requires Underway(role, w) && Unrestricted(role)
    ensures RestsAfter(role, w, n) <==> CompletesAfter(role, w, n)
    decreases n
  {
    if n == 0 {
      RestIsCompletion(role, w);
    } else {
      IdealNext(role, w);
      RestsIsCompletes(role, Next(w, Ideal(role, w)), n - 1);
      IdealUnroll(role, w, n - 1);
    }
  }

  // ----- Exactly which rollouts come to rest

  /** Nothing more to release, one step is enough, every step releases something, or the surge in use lasts: within the
      role's size it must be in use already, and above it a role of two or more replicas takes it up. */
  predicate CanRest(role: Role, w: Workload)
    requires Resolved(role) && w.Applied?
  {
    || w.partition == OwnPartition(role).value
    || 0 < MaxUnavailable(role).value
    || Lowered(role, w) == OwnPartition(role).value
    || (0 < Surge(role).value &&
        if w.partition <= role.replicas then role.replicas < w.replicas else 2 <= role.replicas)
  }

  /** Every further step releases something. */
  predicate Moving(role: Role, w: Workload)
    requires Resolved(role) && w.Applied?
  {
    || 0 < MaxUnavailable(role).value
    || (0 < Surge(role).value && w.partition <= role.replicas < w.replicas)
  }

  lemma SettledRests(role: Role, w: Workload) returns (n: nat)
    requires Underway(role, w) && Resolved(role) && w.partition == OwnPartition(role).value
    ensures RestsAfter(role, w, n)
  {
    IdealStep(role, w);
    IdealNext(role, w);
    AtRestExactly(role, Next(w, Ideal(role, w)));
    assert RestsAfter(role, Next(w, Ideal(role, w)), 0);
    IdealAgain(role, w, 0);
    n := 1;
  }

  lemma MovingKeepsMoving(role: Role, w: Workload)
    requires Underway(role, w) && Resolved(role) && OwnPartition(role).value < w.partition && Moving(role, w)
    ensures var next := Next(w, Ideal(role, w));
            && Underway(role, next) && OwnPartition(role).value <= next.partition < w.partition
            && (next.partition == OwnPartition(role).value || Moving(role, next))
  {
    IdealStep(role, w);
  }

  lemma {:induction false} MovingRests(role: Role, w: Workload) returns (n: nat)
    requires Underway(role, w) && Resolved(role) && OwnPartition(role).value <= w.partition
    requires w.partition == OwnPartition(role).value || Moving(role, w)
    ensures RestsAfter(role, w, n)
    decreases w.partition
  {
    if w.partition == OwnPartition(role).value {
      n := SettledRests(role, w);
    } else {
      MovingKeepsMoving(role, w);
      n := MovingRests(role, Next(w, Ideal(role, w)));
      IdealAgain(role, w, n);
      n := n + 1;
    }
  }

  /** The first step leaves a workload that moves on, or one at the role's own partition. */
  lemma FirstStepMoves(role: Role, w: Workload)
    requires Underway(role, w) && Resolved(role) && OwnPartition(role).value < w.partition && CanRest(role, w)
    ensures var next := Next(w, Ideal(role, w));
            && Underway(role, next) && OwnPartition(role).value <= next.partition
            && (next.partition == OwnPartition(role).value || Moving(role, next))
  {
    IdealStep(role, w);
  }

  lemma CanRestRests(role: Role, w: Workload) returns (n: nat)
    requires Underway(role, w) && Resolved(role) && OwnPartition(role).value <= w.partition && CanRest(role, w)
    ensures RestsAfter(role, w, n)
  {
    if w.partition == OwnPartition(role).value {
      n := SettledRests(role, w);
    } else {
      FirstStepMoves(role, w);
      n := MovingRests(role, Next(w, Ideal(role, w)));
      IdealAgain(role, w, n);
      n := n + 1;
    }
  }

  /** At the role's size with maxUnavailable zero every reconcile is skipped, whatever surge the role has. */
  lemma {:induction false} StuckForever(role: Role, w: Workload, n: nat)
    requires Underway(role, w) && Resolved(role) && MaxUnavailable(role).value == 0
    requires OwnPartition(role).value < w.partition <= role.replicas == w.replicas
    ensures IdealRun(role, w, n) == w && !RestsAfter(role, w, n)
    decreases n
  {
    if 0 < n {
      IdealStep(role, w);
      StuckForever(role, w, n - 1);
    }
  }

  lemma CannotRestSticks(role: Role, w: Workload)
    requires Underway(role, w) && Resolved(role) && OwnPartition(role).value <= w.partition && !CanRest(role, w)
    ensures !AtRest(role, w) && MaxUnavailable(role).value == 0
    ensures var next := Next(w, Ideal(role, w));
            Underway(role, next) && OwnPartition(role).value < next.partition <= role.replicas == next.replicas
  {
    IdealStep(role, w);
  }

  lemma CannotRest(role: Role, w: Workload, n: nat)
    requires Underway(role, w) && Resolved(role) && OwnPartition(role).value <= w.partition && !CanRest(role, w)
    ensures !RestsAfter(role, w, n)
  {
    CannotRestSticks(role, w);
    if 0 < n {
      StuckForever(role, Next(w, Ideal(role, w)), n - 1);
      IdealAgain(role, w, n - 1);
    }
  }

  /** From any workload a reconcile may leave, the rollout comes to rest at the role's own partition if and only if
      CanRest. */
  lemma RolloutRestsExactly(role: Role, w: Workload)
    requires Underway(role, w) && Resolved(role) && OwnPartition(role).value <= w.partition
    ensures (exists n: nat :: RestsAfter(role, w, n)) <==> CanRest(role, w)
  {
    if CanRest(role, w) {
      var n := CanRestRests(role, w);
    } else {
      forall n: nat { CannotRest(role, w, n); }
    }
  }

  /** And it completes under the same condition when the role has no partition of its own. */
  lemma RolloutCompletesExactly(role: Role, w: Workload)
    requires Underway(role, w) && Unrestricted(role)
    ensures (exists n: nat :: CompletesAfter(role, w, n)) <==> CanRest(role, w)
  {
    RolloutRestsExactly(role, w);
    forall n: nat
      ensures RestsAfter(role, w, n) <==> CompletesAfter(role, w, n)
    {
      RestsIsCompletes(role, w, n);
    }
  }

  // ----- Rollouts just started, and rollouts taken over from coordination

  /** The workload right after a spec change of a StatefulSet that had `before` replicas. */
  function Fresh(role: Role, before: nat): Workload
    requires Unrestricted(role)
  {
    Applied(Min(role.replicas, before), WantReplicas(role.replicas, Surge(role).value, role.replicas),
            Some(role.replicas))
  }

  /** A rollout just started completes exactly when there is nothing to release, maxUnavailable rounds down to at least
      one, or a role of two or more may surge. In particular a single replica with maxUnavailable 0 never updates. */
  lemma FreshCompletesExactly(role: Role, before: nat)
    requires Unrestricted(role)
    ensures (exists n: nat :: CompletesAfter(role, Fresh(role, before), n)) <==>
            || before == 0 || role.replicas == 0 || 0 < MaxUnavailable(role).value
            || (0 < Surge(role).value && 2 <= role.replicas)
  {
    RolloutCompletesExactly(role, Fresh(role, before));
    SurgeFollowsUnready(role.replicas, Surge(role).value, role.replicas);
  }

  /** A coordinated rollout that stops at a partition of the role leaves it at the role's size. With maxUnavailable zero
      it then never completes once the coordination is gone: the surge the role allows is not taken up. */
  lemma CoordinationLeavesStuck(role: Role, w: Workload, inp: Input, n: nat)
    requires Unrestricted(role) && MaxUnavailable(role).value == 0 && inp.role == role
    requires w.Applied? && Coordinated(inp.coordination) && !SkipsStale(w, inp)
    requires Scaled(inp.coordination.value.partition, role.replicas, true).Some?
    requires 0 < Scaled(inp.coordination.value.partition, role.replicas, true).value <= role.replicas
    ensures var p := Scaled(inp.coordination.value.partition, role.replicas, true).value;
            && Next(w, inp) == Applied(p, role.replicas, Some(role.replicas))
            && !CompletesAfter(role, Next(w, inp), n)
  {
    CoordinationNeverSurges(w, inp);
    var next := Next(w, inp);
    StuckForever(role, next, n);
  }
}
