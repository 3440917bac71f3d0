/** The partition scan of the StatefulSet rolling update: how far the partition may drop in one step
    given the readiness of each replica. */
module RollingPartition {
  import opened Arithmetic

  datatype ReplicaState = ReplicaState(ready: bool, updated: bool)

  /** Ready on the newest revision. */
  predicate Done(s: ReplicaState) { s.ready && s.updated }

  predicate Unready(s: ReplicaState) { !s.ready }

  /** Ready on an old revision: updating such a replica takes an available replica away. */
  predicate Pinned(s: ReplicaState) { s.ready && !s.updated }

  /** The number of replicas in [lo, hi) that satisfy `p`. */
  function CountIn(p: ReplicaState -> bool, states: seq<ReplicaState>, lo: int, hi: int): (n: nat)
    requires 0 <= lo && hi <= |states|
    decreases hi - lo
  {
    if hi <= lo then 0 else CountIn(p, states, lo, hi - 1) + (if p(states[hi - 1]) then 1 else 0)
  }

  lemma {:induction false} CountBounds(p: ReplicaState -> bool, states: seq<ReplicaState>, lo: int, hi: int)
    requires 0 <= lo && hi <= |states|
    ensures CountIn(p, states, lo, hi) <= Max(0, hi - lo)
    decreases hi - lo
  {
    if lo < hi { CountBounds(p, states, lo, hi - 1); }
  }

  lemma {:induction false} CountSplit(p: ReplicaState -> bool, states: seq<ReplicaState>, lo: int, mid: int, hi: int)
    requires 0 <= lo <= mid <= hi <= |states|
    ensures CountIn(p, states, lo, hi) == CountIn(p, states, lo, mid) + CountIn(p, states, mid, hi)
    decreases hi - mid
  {
    if mid < hi { CountSplit(p, states, lo, mid, hi - 1); }
  }

  lemma {:induction false} CountNone(p: ReplicaState -> bool, states: seq<ReplicaState>, lo: int, hi: int)
    requires 0 <= lo && hi <= |states|
    requires forall i :: lo <= i < hi ==> !p(states[i])
    ensures CountIn(p, states, lo, hi) == 0
    decreases hi - lo
  {
    if lo < hi { CountNone(p, states, lo, hi - 1); }
  }

  lemma {:induction false} CountAll(p: ReplicaState -> bool, states: seq<ReplicaState>, lo: int, hi: int)
    requires 0 <= lo <= hi <= |states|
    requires forall i :: lo <= i < hi ==> p(states[i])
    ensures CountIn(p, states, lo, hi) == hi - lo
    decreases hi - lo
  {
    if lo < hi { CountAll(p, states, lo, hi - 1); }
  }

  /** A count is the number of the indices counted. */
  lemma {:induction false} CountIsNumber(p: ReplicaState -> bool, states: seq<ReplicaState>, lo: int, hi: int,
                                         counted: set<int>)
    requires 0 <= lo && hi <= |states|
    requires counted == set i | lo <= i < hi && p(states[i])
    ensures CountIn(p, states, lo, hi) == |counted|
    decreases hi - lo
  {
    if lo < hi {
      var fewer := set i | lo <= i < hi - 1 && p(states[i]);
      CountIsNumber(p, states, lo, hi - 1, fewer);
      assert counted == if p(states[hi - 1]) then fewer + {hi - 1} else fewer;
    }
  }

  /** Every replica is unready, pinned or done, and only one of these. */
  lemma {:induction false} CountPartition(states: seq<ReplicaState>, lo: int, hi: int)
    requires 0 <= lo <= hi <= |states|
    ensures hi - lo ==
            CountIn(Unready, states, lo, hi) + CountIn(Pinned, states, lo, hi) + CountIn(Done, states, lo, hi)
    decreases hi - lo
  {
    if lo < hi { CountPartition(states, lo, hi - 1); }
  }

  /** Length of the longest suffix of replicas that are all done. */
  function ContinuousReady(states: seq<ReplicaState>): (n: nat)
    ensures n <= |states|
    ensures forall i :: |states| - n <= i < |states| ==> Done(states[i])
    ensures n < |states| ==> !Done(states[|states| - n - 1])
  {
    if |states| == 0 || !Done(states[|states| - 1]) then 0 else 1 + ContinuousReady(states[..|states| - 1])
  }

  lemma ContinuousReadyUnique(states: seq<ReplicaState>, n: nat)
    requires n <= |states|
    requires forall i :: |states| - n <= i < |states| ==> Done(states[i])
    requires n < |states| ==> !Done(states[|states| - n - 1])
    ensures n == ContinuousReady(states)
  {
    assert !(ContinuousReady(states) < n);
  }

  method CalculateContinuousReadyReplicas(states: seq<ReplicaState>) returns (count: nat)
    ensures count == ContinuousReady(states)
  {
    count := 0;
    var idx := |states| - 1;
    while 0 <= idx
      invariant -1 <= idx < |states|
      invariant count == |states| - 1 - idx
      invariant forall i :: idx < i < |states| ==> Done(states[i])
      decreases idx
    {
      if !states[idx].ready || !states[idx].updated { break; }
      count := count + 1;
      idx := idx - 1;
    }
    ContinuousReadyUnique(states, count);
  }

  /** Among the first `roleReplicas` replicas, how many are not done; a missing replica counts. */
  function RoleUnready(states: seq<ReplicaState>, roleReplicas: nat): (n: nat)
  {
    roleReplicas - DoneAmong(states, roleReplicas)
  }

  function DoneAmong(states: seq<ReplicaState>, roleReplicas: nat): (n: nat)
    ensures n <= roleReplicas
  {
    CountBounds(Done, states, 0, Min(roleReplicas, |states|));
    CountIn(Done, states, 0, Min(roleReplicas, |states|))
  }

  method CalculateRoleUnreadyReplicas(states: seq<ReplicaState>, roleReplicas: nat) returns (unreadyCount: nat)
    ensures unreadyCount == RoleUnready(states, roleReplicas)
  {
    unreadyCount := 0;
    for idx := 0 to roleReplicas
      invariant unreadyCount == idx - CountIn(Done, states, 0, Min(idx, |states|))
    {
      if idx >= |states| || !states[idx].ready || !states[idx].updated {
        unreadyCount := unreadyCount + 1;
      }
    }
  }

  /** The replicas of the role that are missing, not ready, or not on the newest revision. */
  function Lagging(states: seq<ReplicaState>, roleReplicas: nat): set<int> {
    set i | 0 <= i < roleReplicas && (|states| <= i || !states[i].ready || !states[i].updated)
  }

  lemma {:induction false} RoleUnreadyIsNumber(states: seq<ReplicaState>, roleReplicas: nat)
    ensures RoleUnready(states, roleReplicas) == |Lagging(states, roleReplicas)|
  {
    if 0 < roleReplicas {
      var n := roleReplicas - 1;
      RoleUnreadyIsNumber(states, n);
      var more := if |states| <= n || !states[n].ready || !states[n].updated then {n} else {};
      assert Lagging(states, roleReplicas) == Lagging(states, n) + more;
    }
  }

  lemma {:induction false} SubsetCount(a: set<int>, b: set<int>)
    requires a <= b
    ensures |a| <= |b|
  {
    assert b == a + (b - a);
  }

  /** The lowest partition of one step when the replicas below it are disregarded. */
  function StepFloor(states: seq<ReplicaState>, step: int): (k: nat) {
    Max(0, |states| - ContinuousReady(states) - step)
  }

  /** The scan indexes `states` below StepFloor, so a step that puts it past the end is out of range. */
  predicate StepInRange(states: seq<ReplicaState>, step: int) {
    0 <= ContinuousReady(states) + step
  }

  /** Unready replicas below the step floor: each one raises the partition by one. */
  function UnreadyBelow(states: seq<ReplicaState>, step: int): (u: nat)
    requires StepInRange(states, step)
  {
    CountIn(Unready, states, 0, StepFloor(states, step))
  }

  /** The downward loop: the partition drops over replicas that are not pinned. */
  function Slide(states: seq<ReplicaState>, floor: nat, idx: int, partition: int): int
    requires idx < |states|
    decreases idx
  {
    if idx >= floor && !Pinned(states[idx]) then Slide(states, floor, idx - 1, idx) else partition
  }

  function PlannedPartition(states: seq<ReplicaState>, step: int): int
    requires StepInRange(states, step)
  {
    var k := StepFloor(states, step);
    var top := k + UnreadyBelow(states, step);
    Slide(states, k, Min(top, |states| - 1), top)
  }

  method RollingUpdatePartition(states: seq<ReplicaState>, stsReplicas: int, rollingStep: int, currentPartition: int)
    returns (result: int)
    requires stsReplicas == |states|
    requires StepInRange(states, rollingStep)
    ensures result == Min(PlannedPartition(states, rollingStep), currentPartition)
  {
    var continuousReadyReplicas := CalculateContinuousReadyReplicas(states);
    var rollingStepPartition := Max(0, stsReplicas - continuousReadyReplicas - rollingStep);
    var unavailable := 0;
    for idx := 0 to rollingStepPartition
      invariant unavailable == CountIn(Unready, states, 0, idx)
    {
      if !states[idx].ready { unavailable := unavailable + 1; }
    }
    var partition := rollingStepPartition + unavailable;
    var idx := Min(partition, stsReplicas - 1);
    while rollingStepPartition <= idx
      invariant idx < |states|
      invariant Slide(states, rollingStepPartition, idx, partition) == PlannedPartition(states, rollingStep)
      decreases idx
    {
      if !states[idx].ready || states[idx].updated {
        partition := idx;
      } else {
        break;
      }
      idx := idx - 1;
    }
    result := Min(partition, currentPartition);
  }

  // ----- What the scan computes

  /** No replica in [lo, hi] is pinned: lowering the partition over them costs no available replica. */
  predicate Clear(states: seq<ReplicaState>, lo: int, hi: int)
    requires 0 <= lo && hi < |states|
  {
    forall i :: lo <= i <= hi ==> !Pinned(states[i])
  }

  lemma {:induction false} SlideLeast(states: seq<ReplicaState>, floor: nat, idx: int, partition: int)
    requires idx < |states|
    ensures var p := Slide(states, floor, idx, partition);
            && (p == partition || (floor <= p <= idx && Clear(states, p, idx)))
            && (forall q :: floor <= q <= idx && Clear(states, q, idx) ==> p <= q)
    decreases idx
  {
    if idx >= floor && !Pinned(states[idx]) {
      SlideLeast(states, floor, idx - 1, idx);
      forall q | floor <= q <= idx && Clear(states, q, idx)
        ensures Slide(states, floor, idx, partition) <= q
      {
        if q < idx { assert Clear(states, q, idx - 1); }
      }
    }
  }

  /** The planned partition is the least value, between the step floor k and k + u, that can be reached
      from k + u without passing a pinned replica. */
  lemma PlannedPartitionLeast(states: seq<ReplicaState>, step: int)
    requires StepInRange(states, step)
    ensures var k, u, p := StepFloor(states, step), UnreadyBelow(states, step), PlannedPartition(states, step);
            var hi := Min(k + u, |states| - 1);
            && k <= p <= k + u
            && (p != k + u ==> p <= hi && Clear(states, p, hi))
            && (forall q :: k <= q <= hi && Clear(states, q, hi) ==> p <= q)
  {
    var k, u := StepFloor(states, step), UnreadyBelow(states, step);
    SlideLeast(states, k, Min(k + u, |states| - 1), k + u);
  }

  // ----- The disruption budget of one step

  /** Replicas made unavailable by one step: the pinned ones the partition newly uncovers. */
  function NewlyExposed(states: seq<ReplicaState>, before: nat, after: nat): (n: nat)
  {
    CountIn(Pinned, states, after, Min(before, |states|))
  }

  /** What is unavailable once the pinned replicas uncovered by moving the partition have been taken down. */
  function UnavailableAfter(states: seq<ReplicaState>, current: nat, next: nat): nat {
    CountIn(Unready, states, 0, |states|) + NewlyExposed(states, current, next)
  }

  /** The replicas that are not ready, or are on an old revision and newly uncovered. */
  function OutOfService(states: seq<ReplicaState>, current: nat, next: nat): set<int> {
    set i | 0 <= i < |states| && (!states[i].ready || (!states[i].updated && next <= i < current))
  }

  lemma UnavailableIsNumber(states: seq<ReplicaState>, current: nat, next: nat)
    ensures UnavailableAfter(states, current, next) == |OutOfService(states, current, next)|
  {
    var top := Min(current, |states|);
    var unready := set i | 0 <= i < |states| && Unready(states[i]);
    var exposed := set i | next <= i < top && Pinned(states[i]);
    CountIsNumber(Unready, states, 0, |states|, unready);
    CountIsNumber(Pinned, states, next, top, exposed);
    assert OutOfService(states, current, next) == unready + exposed;
    assert unready !! exposed;
  }

  /** Unready replicas at the step floor k, which the u unready ones below it raise the partition over:
      those in [k, k + u). */
  function UnreadyAtFloor(states: seq<ReplicaState>, k: nat, u: nat): nat {
    CountIn(Unready, states, k, Min(k + u, |states|))
  }

  /** Where the replicas stand around the planned partition p: the step floor k, the u unready replicas
      below it, and m, where the done suffix starts. */
  ghost predicate Layout(states: seq<ReplicaState>, step: int, k: nat, u: nat, m: nat, p: nat) {
    && k <= m <= |states| && m - k <= step && (0 < k ==> m - k == step)
    && u == CountIn(Unready, states, 0, k) && u <= k <= p <= k + u
    && (forall i :: p <= i < |states| && i < k + u ==> !Pinned(states[i]))
    && (forall i :: m <= i < |states| ==> Done(states[i]))
  }

  lemma PlanLayout(states: seq<ReplicaState>, step: int)
    requires 0 <= step
    ensures PlannedPartition(states, step) >= 0
    ensures Layout(states, step, StepFloor(states, step), UnreadyBelow(states, step),
                   |states| - ContinuousReady(states), PlannedPartition(states, step))
  {
    CountBounds(Unready, states, 0, StepFloor(states, step));
    PlannedPartitionLeast(states, step);
  }

  /** Pinned replicas in [p, top) all lie between k + u and m. */
  lemma PinnedAbovePlan(states: seq<ReplicaState>, step: int, k: nat, u: nat, m: nat, p: nat, top: nat)
    requires Layout(states, step, k, u, m, p) && top <= |states|
    ensures CountIn(Pinned, states, p, top) == CountIn(Pinned, states, k + u, Min(top, m))
  {
    var mid := Max(p, Min(k + u, top));
    if p < top {
      CountSplit(Pinned, states, p, mid, top);
      CountNone(Pinned, states, p, mid);
      if m < top {
        var high := Max(m, mid);
        if high <= top { CountSplit(Pinned, states, mid, high, top); }
        CountNone(Pinned, states, high, top);
      }
    }
  }

  /** One step exposes at most `step - u` pinned replicas, and none when u exceeds the step. */
  lemma ExposedWithinStep(states: seq<ReplicaState>, step: int, current: nat)
    requires 0 <= step
    ensures var next := Min(PlannedPartition(states, step), current);
            0 <= next && NewlyExposed(states, current, next) <= Max(0, step - UnreadyBelow(states, step))
  {
    PlanLayout(states, step);
    ExposedInLayout(states, step, StepFloor(states, step), UnreadyBelow(states, step),
                    |states| - ContinuousReady(states), PlannedPartition(states, step), current);
  }

  lemma ExposedInLayout(states: seq<ReplicaState>, step: int, k: nat, u: nat, m: nat, p: nat, current: nat)
    requires Layout(states, step, k, u, m, p)
    ensures CountIn(Pinned, states, Min(p, current), Min(current, |states|)) <= Max(0, step - u)
  {
    var top := Min(current, |states|);
    PinnedAbovePlan(states, step, k, u, m, p, top);
    CountBounds(Pinned, states, k + u, Min(top, m));
  }

  /** The unready replicas, counted around k, k + u and the done suffix. */
  lemma UnreadyInLayout(states: seq<ReplicaState>, step: int, k: nat, u: nat, m: nat, p: nat)
    requires Layout(states, step, k, u, m, p) && k + u <= m
    ensures CountIn(Unready, states, 0, |states|)
            == u + CountIn(Unready, states, k, k + u) + CountIn(Unready, states, k + u, m)
  {
    var n := |states|;
    CountNone(Unready, states, m, n);
    CountSplit(Unready, states, 0, k, n);
    CountSplit(Unready, states, k, k + u, n);
    CountSplit(Unready, states, k + u, m, n);
  }

  /** Total unavailability after a step that exposes a pinned replica, as an exact sum: x counts the unready
      replicas in [k, k + u), and the done and the already uncovered replicas above them come off it. */
  lemma UnavailableInLayout(states: seq<ReplicaState>, step: int, k: nat, u: nat, m: nat, p: nat, current: nat)
    requires Layout(states, step, k, u, m, p)
    requires 0 < CountIn(Pinned, states, p, Min(current, |states|))
    ensures k + u <= m
    ensures CountIn(Unready, states, 0, |states|) + CountIn(Pinned, states, p, Min(current, |states|))
            + CountIn(Done, states, k + u, m) + CountIn(Pinned, states, Max(current, k + u), m)
            == u + CountIn(Unready, states, k, k + u) + m - k - u
  {
    var top := Min(current, |states|);
    PinnedAbovePlan(states, step, k, u, m, p, top);
    CountBounds(Pinned, states, k + u, Min(top, m));
    UnreadyInLayout(states, step, k, u, m, p);
    CountPartition(states, k + u, m);
    CountSplit(Pinned, states, k + u, Min(top, m), m);
  }

  lemma UnavailableBoundInLayout(states: seq<ReplicaState>, step: int, k: nat, u: nat, m: nat, p: nat, current: nat)
    requires Layout(states, step, k, u, m, p)
    ensures UnavailableAfter(states, current, Min(p, current))
            <= Max(CountIn(Unready, states, 0, |states|), step + UnreadyAtFloor(states, k, u))
  {
    if p < current && 0 < CountIn(Pinned, states, p, Min(current, |states|)) {
      UnavailableInLayout(states, step, k, u, m, p, current);
    }
  }

  /** The documented budget plus x, the unready replicas in [k, k + u), bounds every step: what is
      unavailable afterwards is no more than before, or within the step plus x. */
  lemma UnavailableWithinStepPlusFloor(states: seq<ReplicaState>, step: int, current: nat)
    requires 0 <= step
    ensures var next := Min(PlannedPartition(states, step), current);
            && 0 <= next
            && UnavailableAfter(states, current, next)
               <= Max(CountIn(Unready, states, 0, |states|),
                      step + UnreadyAtFloor(states, StepFloor(states, step), UnreadyBelow(states, step)))
  {
    PlanLayout(states, step);
    UnavailableBoundInLayout(states, step, StepFloor(states, step), UnreadyBelow(states, step),
                             |states| - ContinuousReady(states), PlannedPartition(states, step), current);
  }

  /** With the step floor k, u unready replicas below it and the done suffix from m on: no pinned replica
      is left for this step to uncover above k + u. */
  predicate NothingToExpose(states: seq<ReplicaState>, k: nat, u: nat, current: nat) {
    CountIn(Pinned, states, k + u, Min(current, |states|)) == 0
  }

  /** The unready replicas at the floor are made up for by replicas above it that need no budget:
      the done ones, and the pinned ones an earlier step already uncovered. */
  predicate FloorCovered(states: seq<ReplicaState>, k: nat, u: nat, m: nat, current: nat)
    requires m <= |states|
  {
    UnreadyAtFloor(states, k, u) <= CountIn(Done, states, k + u, m) + CountIn(Pinned, states, Max(current, k + u), m)
  }

  lemma BudgetInLayout(states: seq<ReplicaState>, step: int, k: nat, u: nat, m: nat, p: nat, current: nat)
    requires Layout(states, step, k, u, m, p)
    ensures UnavailableAfter(states, current, Min(p, current)) <= Max(CountIn(Unready, states, 0, |states|), step)
            <==> NothingToExpose(states, k, u, current) || FloorCovered(states, k, u, m, current)
  {
    var top := Min(current, |states|);
    PinnedAbovePlan(states, step, k, u, m, p, top);
    if m < top && k + u <= m {
      CountSplit(Pinned, states, k + u, m, top);
      CountNone(Pinned, states, m, top);
    } else if m < k + u {
      CountNone(Pinned, states, k + u, top);
    }
    if 0 < CountIn(Pinned, states, p, top) {
      UnavailableInLayout(states, step, k, u, m, p, current);
    }
  }

  /** The budget without x (`maxUnavailable is respected`) holds exactly when the step has nothing to expose
      or the unready replicas at the floor are covered. */
  lemma BudgetHoldsExactly(states: seq<ReplicaState>, step: int, current: nat)
    requires 0 <= step
    ensures var k, u, m := StepFloor(states, step), UnreadyBelow(states, step), |states| - ContinuousReady(states);
            var next := Min(PlannedPartition(states, step), current);
            && 0 <= next
            && (UnavailableAfter(states, current, next) <= Max(CountIn(Unready, states, 0, |states|), step)
                <==> NothingToExpose(states, k, u, current) || FloorCovered(states, k, u, m, current))
  {
    PlanLayout(states, step);
    BudgetInLayout(states, step, StepFloor(states, step), UnreadyBelow(states, step),
                   |states| - ContinuousReady(states), PlannedPartition(states, step), current);
  }

  /** Ten replicas on the old revision, numbers 0 and 8 unready, a step of two: the partition drops to 9,
      so three replicas are unavailable. */
  lemma BudgetExceeded()
    ensures exists states: seq<ReplicaState> ::
              && |states| == 10
              && CountIn(Unready, states, 0, |states|) == 2
              && PlannedPartition(states, 2) == 9
              && UnavailableAfter(states, 10, 9) == 3
  {
    var was, bad := ReplicaState(true, false), ReplicaState(false, false);
    var states := [bad, was, was, was, was, was, was, was, bad, was];
    assert ContinuousReady(states) == 0;
    CountNone(Unready, states, 1, 8);
    CountSplit(Unready, states, 0, 1, 8);
    assert CountIn(Unready, states, 0, 1) == 1;
    CountSplit(Unready, states, 0, 8, 10);
    assert CountIn(Unready, states, 8, 9) == 1;
    assert CountIn(Unready, states, 8, 10) == 1;
    assert StepFloor(states, 2) == 8 && UnreadyBelow(states, 2) == 1;
    assert CountIn(Pinned, states, 9, 10) == 1;
  }
}
