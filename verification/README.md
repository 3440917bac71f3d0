# A verified model of the RoleBasedGroup operator

The operator runs groups of roles on Kubernetes. This project models the algorithms and state machines in it, apart
from the calls to the API server, and proves what they promise:

- **Rolling updates** (`Arithmetic`, `IntOrPercent`, `RollingPartition`, `RollingPlanner`, `RollingSafety`, `Rollout`,
  `RolloutCompletion`, `RolloutValidation`). The planner that picks the next partition and replica count of a
  StatefulSet is a class whose `Reconcile` refines one function, `Next`. Over any run of spec changes and pod states,
  replica counts stay in the surge band exactly while no negative surge is applied; while the spec is unchanged the
  partition never goes back up; a step's disruption is bounded; rollouts converge with an explicit number of
  reconciles, from any reconcile that starts them. How many unready replicas convergence allows, which rollouts
  complete from which workload when nothing fails, when the documented budget holds and when the scan leaves the
  replica states are exact conditions.
- **Dependencies** (`Graphs`, `DepthFirst`, `StringOrder`, `RoleDependencies`, `RoleSorting`, `RoleValidation`,
  `ComponentLifecycle`). Three depth-first searches: the longest-chain layering, the admission check that reports a
  cycle, and the three-colour cycle detector with transposition and deletion gates. Each is sound, complete and
  terminating, and the first two accept the same groups.
- **RoleBasedGroupSet** (`Decimal`, `GroupSetModel`, `GroupSetConvergence`, `GroupSetMeaning`, `GroupSetController`).
  One fault-free reconcile reaches the wanted children and further ones write nothing, exactly unless the template
  sets a system label to a value of its own; objects of other owners are never changed.
- **Environment variables** (`EnvMerge`, `EnvOrder`, `LeaderAddress`), **revisions** (`Revisions`, `RevisionHistory`),
  **version conversion** (`Conversion`, `ConversionMeaning`, `GroupConversion`, `HubTrip`), **deprecated workload
  types** (`Deprecation`), **chart RBAC** (`HelmRbac`) and **discovery addresses** (`Sequences`, `Enumeration`,
  `EnumerationTotals`, `EnumerationAddresses`, `EnumerationListing`).

Code that changes things step by step is a method with loops or a class with fields; it is tied by its `ensures` to a
function, and the theorems are lemmas about that function. The API server is a map of objects; the observed pod
states, the addresses of services, the order of map iterations and the LRU evictions are arbitrary inputs.

## Where the code differs from what it promises

Each of these is a theorem here, with its exact condition or a concrete input.

- The comment that `maxUnavailable` is always respected does not hold: ten old replicas with numbers 0 and 8 unready
  and a step of two end with three unavailable (`BudgetExceeded`). `BudgetHoldsExactly` says when it holds, and
  `UnavailableWithinStepPlusFloor` gives the bound that always does.
- A single replica whose `maxUnavailable` rounds down to zero never updates, whatever its surge: the surge is given
  back one replica too early (`FreshCompletesExactly`, `AdmittedUpdateCompletes`).
- With `maxUnavailable` zero, a rollout that a coordinated policy leaves halfway never completes once the policy is
  gone: the reconcile that would take up the surge is skipped, because the skip compares the applied replicas with the
  role's size and not with the planned count (`pkg/reconciler/sts_reconciler.go:153-158`). Ten replicas with surge one
  at partition 5 are an example (`TakenOverNeverCompletes`, `CoordinationLeavesStuck`); `RolloutCompletesExactly` gives
  the condition from any workload, `AdmittedRolloutCompletes` what it is for an admitted strategy.
- A rollout does not converge just because everything released becomes ready: at the role's size, `maxUnavailable`
  unready unreleased replicas hold it up at every partition of at least twice their number, and at no lower one,
  whatever its surge (`HeldUpExactly`, `UnreadyReplicasHoldUp`). So a role's rollouts converge with up to b such
  replicas if and only if b is below `maxUnavailable` or the role is smaller than twice `maxUnavailable`
  (`RolloutConvergesExactly`). `ServedStepMovesExactly` says when a step makes progress, and `RolloutConverges` counts
  the steps in strides.
- The planner's comment says that replicas equal the role's size except during a rollout. A rollout held by the role's
  own partition can rest with its surge (`AtRestExactly`, `RestKeepsSurge`), as the v1alpha1 field documentation says;
  `RolloutRestsExactly` says when it comes to rest.
- The reconciler rounds `maxUnavailable` up when it validates without surge, while admission and the planner round it
  down. So the reconciler accepts strategies that never complete (`UnadmittedRolloutStalls`), and admission accepts
  some that every reconcile then refuses (`AdmittedThenRefused`); `ValidationsDifferExactly` gives both sets.
- Negative counts pass both validations (`NegativeCountsPass`). With a negative surge the workload drops below the
  role's size (`BandNeedsSurge`), and with a negative `maxUnavailable` the scan can index past the replica states
  (`AdmittedOutOfRange`, `OutOfRangeExactly`).
- The group conversion to the hub writes into the annotation map the two objects share, so the source object changes
  too; the conversion back strips the hub in the same way (`V1Object.ConvertTo`, `V1Object.ConvertFrom`). A group with a
  role whose workload kind is explicitly empty needs two round trips to settle (`GroupTwiceExactly`).
- A v1alpha2 group that a v1alpha1 client reads and writes back loses its gang scheduling and exclusive topology
  annotations unless v1alpha1 fields asked for them (`NativeSettingsLost`), and every role without a workload type gets
  the default one written out. The comment that such a round trip does not change what is stored holds only under the
  condition of `RoleHubTripExactly` and `GroupHubTripExactly`; the restart policy keeps its meaning, but for custom
  components without any component (`RestartHubTrip`).
- Discovery lists every worker of a leader-worker instance under the shared service. By default that service is for the
  leader only, and then the workers have no host name and their listed addresses stand for nothing
  (`LeaderWorkerIsListed`).
- A LeaderWorkerSet role of size zero or less with two or more groups has wrong or repeated ordinals
  (`OrdinalsExactly`); a role with both patterns is counted one way and listed the other (`RoleCountExactly`).

Where a theorem asks for uniquely named roles, the schema supplies it: `spec.roles` is a list map keyed by name
(`api/workloads/v1alpha2/rolebasedgroup_types.go:69-70`), so the API server refuses repeated names before admission.
`RepeatedNamesDisagree` shows that the agreement of admission and the controller rests on that.

## Model

| member | source | states |
|---|---|---|
| IntOrPercents.RoundingExact | pkg/reconciler/sts_reconciler.go:648-654 | a percentage resolves to the largest whole number below, or the smallest above, its exact share |
| IntOrPercents.RoundingGap | pkg/reconciler/sts_reconciler.go:648-654 | rounding one value up and down for the same total differs by at most one, and a value that fails to resolve fails both ways |
| IntOrPercents.ScaledRange | pkg/reconciler/sts_reconciler.go:315-318 | a percentage of up to 100 never resolves outside the replica count |
| RollingPartition.CalculateContinuousReadyReplicas | pkg/reconciler/sts_reconciler.go:448-458 | the loop counts the longest suffix of replicas that are ready and updated |
| RollingPartition.ContinuousReadyUnique | pkg/reconciler/sts_reconciler.go:448-458 | that count is the only one whose suffix is all done and stopped by a replica that is not |
| RollingPartition.CalculateRoleUnreadyReplicas | pkg/reconciler/sts_reconciler.go:334-342 | the replicas of the role that are not ready and updated, missing ones included |
| RollingPartition.RoleUnreadyIsNumber | pkg/reconciler/sts_reconciler.go:334-342 | that number is of the indices within the role that are missing, not ready or not updated |
| RollingPartition.RollingUpdatePartition | pkg/reconciler/sts_reconciler.go:406-446 | the method computes the lesser of the planned partition and the current one |
| RollingPartition.SlideLeast | pkg/reconciler/sts_reconciler.go:435-441 | the downward loop ends at the least partition, at or above the floor, reachable without passing a ready old replica |
| RollingPartition.PlannedPartitionLeast | pkg/reconciler/sts_reconciler.go:413-441 | the planned partition lies between the step floor k and k plus the unready replicas below it, and is the least such value with no ready old replica in between |
| RollingPartition.ExposedWithinStep | pkg/reconciler/sts_reconciler.go:416-426 | one step newly exposes at most step minus u ready old replicas, u being the unready ones below the floor |
| RollingPartition.UnavailableWithinStepPlusFloor | pkg/reconciler/sts_reconciler.go:411-445 | unavailability after a step is no more than before, or at most the step plus the unready replicas in [k, k + u) |
| RollingPartition.BudgetHoldsExactly | pkg/reconciler/sts_reconciler.go:321-324 | the documented budget holds if and only if there is nothing to expose or the unready replicas at the floor are covered |
| RollingPartition.BudgetExceeded | pkg/reconciler/sts_reconciler.go:321-324 | a concrete state in which one step of two makes three replicas unavailable |
| RollingPartition.UnavailableIsNumber | pkg/reconciler/sts_reconciler.go:428-441 | what the budget counts are the replicas not ready, and those on an old revision that the step newly uncovers |
| RollingPlanner.StatefulSetReconciler.RollingUpdateParameters | pkg/reconciler/sts_reconciler.go:204-332 | the six cases with the deferred lower bound refine the function Plan of role, workload and observed states |
| RollingPlanner.StatefulSetReconciler.LastTwoCases | pkg/reconciler/sts_reconciler.go:293-331 | a changed role size keeps the partition within the burst; otherwise one step of the partition |
| RollingPlanner.StatefulSetReconciler.Reconcile | pkg/reconciler/sts_reconciler.go:152-176 | one reconcile applies the plan, or nothing when it fails, changes nothing or is negative |
| RollingSafety.PlanWithinBand | pkg/reconciler/sts_reconciler.go:212-224 | every successful decision is within the role's size plus the surge, on either side of the size by the surge's sign, at the size when nothing surges, and never below the role's own partition |
| RollingSafety.NextKeepsInv | pkg/reconciler/sts_reconciler.go:204-332 | a reconcile keeps "partition not negative, size recorded, replicas at least the recorded size" if and only if it does not apply a negative surge |
| RollingSafety.RunKeepsInv | pkg/reconciler/sts_reconciler.go:204-332 | any run in which no reconcile applies a negative surge keeps it |
| RollingSafety.ReachableWorkloadWithinBand | pkg/reconciler/sts_reconciler.go:204-332 | after any such run from nothing, one more planned reconcile leaves the workload within the surge band and above the role's own partition |
| RollingSafety.BandNeedsSurge | pkg/reconciler/sts_reconciler.go:244-331 | a decision of any case drops below the role's size if and only if it surges with a negative surge |
| RollingSafety.OutOfRangeExactly | pkg/reconciler/sts_reconciler.go:413-425 | on any workload and states the scan indexes past the states if and only if case 6 decides and the done suffix, maxUnavailable and the replicas above the role's size add up to less than zero |
| RollingSafety.ScanInRange | pkg/reconciler/sts_reconciler.go:413-425 | so with a maxUnavailable that is not negative the scan stays in range on every reachable workload, and the step is at least maxUnavailable |
| RollingSafety.PartitionDescends | pkg/reconciler/sts_reconciler.go:444-445 | with the spec unchanged a reconcile never raises the partition |
| RollingSafety.PartitionDescendsOverRuns | pkg/reconciler/sts_reconciler.go:444-445 | nor does any run of them, as long as the spec stays unchanged |
| RollingSafety.StepKeepsAvailable | pkg/reconciler/sts_reconciler.go:315-325 | after a case 6 step the role keeps its replicas minus maxUnavailable available, less the unready ones at the floor, or nothing new is taken down |
| RollingSafety.SurgeInUseExactly | pkg/reconciler/sts_reconciler.go:258-269 | once a rollout is under way the replicas asked for exceed the role by one less than its missing, unready or outdated ones, up to the surge |
| RollingSafety.SurgeMakesUpForUnready | pkg/reconciler/sts_reconciler.go:258-269 | no surge is given back that makes up for any set of such replicas |
| RollingSafety.NeverMoreThanDouble | pkg/reconciler/sts_reconciler.go:244-256 | the replicas stay within the rounded-up surge and within twice the role |
| RollingSafety.CreatedReleased | pkg/reconciler/sts_reconciler.go:226-231 | a created workload holds back only the role's own partition and has the role's size |
| RollingSafety.CoordinationNeedsPartition | pkg/reconciler/sts_reconciler.go:233-242 | coordination without a partition changes nothing |
| RollingSafety.OrphanAlwaysApplied | pkg/reconciler/sts_reconciler.go:152-158 | a workload without a controller is always applied |
| Rollout.UpdateStartsRollout | pkg/reconciler/sts_reconciler.go:271-278 | a spec change starts a rollout at the lesser of old and new size, with the surge added |
| Rollout.ReconcileLeadsUnderway | pkg/reconciler/sts_reconciler.go:152-332 | a planned reconcile of any workload by any case leaves a rollout under way, if and only if it does not skip a workload that records another size |
| Rollout.ResizeLeadsUnderway | pkg/reconciler/sts_reconciler.go:299-311 | a resize in the middle of a rollout leaves one under way and keeps its partition, unless that is above the role's size with the surge or below the role's own |
| Rollout.ServedStepLowersPartition | pkg/reconciler/sts_reconciler.go:315-325 | a reconcile of a served workload lowers the partition by maxUnavailable minus b, b bounding the unready unreleased replicas, down to the role's own partition |
| Rollout.ServedStepMovesExactly | pkg/reconciler/sts_reconciler.go:411-445 | a served reconcile lowers the partition, wherever it is, if and only if the unready replicas below the floor leave it below, or the step reaches below it and the next replica is no available old one |
| Rollout.HeldUpExactly | pkg/reconciler/sts_reconciler.go:411-445 | at the role's size, whatever its surge, some environment with at most b unready unreleased replicas holds partition p if and only if b reaches maxUnavailable and p is at least twice maxUnavailable |
| Rollout.UnreadyReplicasHoldUp | pkg/reconciler/sts_reconciler.go:411-445 | for every role and every such p, maxUnavailable unready replicas hold the rollout up over any number of served reconciles |
| Rollout.LastServedStepCompletes | pkg/reconciler/sts_reconciler.go:293-331 | once everything is released and served, one reconcile gives the surge back |
| Rollout.CompletedStays | pkg/reconciler/sts_reconciler.go:280-287 | a completed rollout stays at partition zero and the role's size over any run with the spec unchanged |
| Rollout.RolloutConvergesExactly | pkg/reconciler/sts_reconciler.go:204-332 | every served run of a role's rollouts, one reconcile longer than the partition, ends complete against all environments with at most b unready unreleased replicas, if and only if b is below maxUnavailable or the role is smaller than twice maxUnavailable |
| Rollout.PartitionConvergesExactly | pkg/reconciler/sts_reconciler.go:204-332 | with a partition of the role's own, its rollouts come down to that partition under the same condition, and under no other |
| Rollout.RolloutConverges | pkg/reconciler/sts_reconciler.go:280-331 | with b below the rounded-down maxUnavailable, strides of the difference are enough: every served run of the stated number of reconciles ends complete, wherever the partition starts |
| Rollout.RolloutConvergesFromAnywhere | pkg/reconciler/sts_reconciler.go:204-332 | so does a run that begins with any planned reconcile, under the exact condition: a spec change, a resize, or the end of a coordinated rollout |
| Rollout.PartitionReachesOwn | pkg/reconciler/sts_reconciler.go:212-224 | under the exact condition a served run brings the partition down to the role's own and keeps it there |
| Rollout.PartitionReachesOwnInStrides | pkg/reconciler/sts_reconciler.go:212-224 | and in strides when b is below maxUnavailable |
| RolloutCompletion.RestKeepsSurge | pkg/reconciler/sts_reconciler.go:194-201 | a rollout held by the role's own partition rests with the surge, capped at one less than the held replicas; at the role's size if and only if there is no surge or at most one held replica |
| RolloutCompletion.AtRestExactly | pkg/reconciler/sts_reconciler.go:152-158 | a workload is at rest if and only if it is at the role's own partition with that count of replicas or at the role's size |
| RolloutCompletion.RolloutRestsExactly | pkg/reconciler/sts_reconciler.go:204-332 | from any workload under way, with any own partition and surge, a rollout whose unreleased replicas keep running comes to rest at that partition if and only if nothing is left to release, one step is enough, maxUnavailable rounds down to at least one, or the surge is in use or is taken up |
| RolloutCompletion.IdealStep | pkg/reconciler/sts_reconciler.go:313-331 | one reconcile when all unreleased replicas run: nothing exactly when the partition cannot move and the workload has the role's size, otherwise the lowered partition and the replicas asked for |
| RolloutCompletion.StuckForever | pkg/reconciler/sts_reconciler.go:152-158 | at the role's size with maxUnavailable zero the workload never changes again, whatever the surge |
| RolloutCompletion.RolloutCompletesExactly | pkg/reconciler/sts_reconciler.go:204-332 | from any workload under way, a rollout without a partition of its own completes under the same condition, and under no other |
| RolloutCompletion.FreshCompletesExactly | pkg/reconciler/sts_reconciler.go:271-278 | a rollout just started by a spec change completes if and only if there is nothing to release, maxUnavailable rounds down to at least one, or two or more replicas may surge |
| RolloutCompletion.CoordinationLeavesStuck | pkg/reconciler/sts_reconciler.go:152-158 | with maxUnavailable zero, a coordinated reconcile at any partition within the role leaves a workload from which the rollout never completes without coordination |
| RolloutValidation.ValidateRolloutStrategy | pkg/reconciler/sts_reconciler.go:630-666 | what the reconciler accepts, and the defaults it fills in |
| RolloutValidation.ValidateRoleRollingUpdate | api/workloads/v1alpha2/rolebasedgroup_validation.go:151-193 | what admission accepts, and for each error exactly which values cause it |
| RolloutValidation.AdmissionFillsIn | api/workloads/v1alpha2/rolebasedgroup_validation.go:151-177 | at admission a missing value counts as no surge and one unavailable replica |
| RolloutValidation.ValidationsDifferExactly | api/workloads/v1alpha2/rolebasedgroup_validation.go:151-193 | for strategies with the schema's values filled in: when admission accepts what the reconciler refuses, and when the reconciler accepts what admission refuses, both if and only if |
| RolloutValidation.AdmittedThenRefused | pkg/reconciler/sts_reconciler.go:648-663 | a concrete strategy that admission accepts and the reconciler refuses |
| RolloutValidation.NegativeCountsPass | api/workloads/v1alpha2/rolebasedgroup_validation.go:154-175 | a negative count for either value passes both validations, with any count for the other |
| RolloutValidation.AdmittedOutOfRange | pkg/reconciler/sts_reconciler.go:413-425 | a concrete strategy both accept whose first step scans past the replica states |
| RolloutValidation.AdmittedRolloutCompletes | api/workloads/v1alpha2/rolebasedgroup_validation.go:154-189 | an admitted rollout completes from any workload under way, except, if and only if, with a maxUnavailable that rounds to zero at a workload where the surge is not taken up |
| RolloutValidation.AdmittedUpdateCompletes | api/workloads/v1alpha2/rolebasedgroup_validation.go:154-189 | one just started by a spec change completes, except a single replica whose maxUnavailable rounds to zero |
| RolloutValidation.TakenOverNeverCompletes | pkg/reconciler/sts_reconciler.go:152-158 | a concrete strategy both validations accept and a spec change completes, which never completes after a coordinated reconcile |
| RolloutValidation.UnadmittedRolloutStalls | pkg/reconciler/sts_reconciler.go:648-663 | what only the reconciler accepts never completes |
| StringOrder.SortStrings | pkg/dependency/dependency.go:135-139 | names come out sorted, none lost and none added |
| StringOrder.LessExactly | pkg/dependency/dependency.go:135-139 | the first character that differs decides, and a proper prefix comes first |
| RoleDependencies.LayerSearch.Visit | pkg/dependency/dependency.go:149-182 | visiting a name computes its rank over finished dependencies or names a real defect of the graph, and changes no computed rank |
| RoleDependencies.LayerSearch.VisitDependencies | pkg/dependency/dependency.go:166-180 | the result is one more than the largest rank among the dependencies, zero without any |
| RoleDependencies.VisitAll | pkg/dependency/dependency.go:184-192 | every name ends up with a rank, or a real defect is named |
| RoleDependencies.BuildLayers | pkg/dependency/dependency.go:194-204 | each name is placed in the layer of its rank, in sorted order, with no layer beyond the largest rank |
| RoleDependencies.RankIsLongestChain | pkg/dependency/dependency.go:157-182 | a rank is the length of the longest dependency chain, and nothing else is |
| RoleDependencies.DependencyOrder | pkg/dependency/dependency.go:129-205 | succeeds if and only if there is no cycle and no missing dependency; then layer L holds, sorted, exactly the names whose longest chain has L edges, and no layer is empty |
| RoleDependencies.DependencyIsEarlier | pkg/dependency/dependency.go:129-205 | a dependency is in a strictly earlier layer |
| RoleDependencies.LayerIsTight | pkg/dependency/dependency.go:129-205 | a name above layer 0 has a dependency in the layer just below |
| RoleDependencies.LayersDisjoint | pkg/dependency/dependency.go:129-205 | no name is in two layers |
| RoleSorting.SortRoles | pkg/dependency/dependency.go:43-92 | succeeds if and only if every dependency names a role and there is no cycle; roles come in the layers of their names |
| RoleSorting.DependencyGraph | pkg/dependency/dependency.go:52-70 | the graph handed to the layering, or a dependency that names no role |
| RoleSorting.RolesByLayer | pkg/dependency/dependency.go:78-89 | each name is replaced by the first role that carries it |
| RoleSorting.EachRoleOnce | pkg/dependency/dependency.go:43-92 | a uniquely named role appears in exactly one place of the layers |
| RoleSorting.DependenciesStartFirst | pkg/dependency/dependency.go:43-92 | a role is sorted after every role it depends on |
| RoleValidation.AppendCycle | api/workloads/v1alpha2/rolebasedgroup_validation.go:141-149 | the search path from the repeated role on, closed by it |
| RoleValidation.CycleSearch.Visit | api/workloads/v1alpha2/rolebasedgroup_validation.go:107-129 | a visit returns a simple cycle of the graph, or finishes the role after all its dependencies |
| RoleValidation.ValidateNoRoleDependencyCycle | api/workloads/v1alpha2/rolebasedgroup_validation.go:100-139 | a reported list starts and ends at one role, follows edges and repeats no other role; no report means no cycle |
| RoleValidation.ValidateRoleDependencies | api/workloads/v1alpha2/rolebasedgroup_validation.go:65-98 | every self and unknown dependency is reported by position, a cycle if and only if the remaining dependencies have one, and nothing if and only if all dependencies name roles and are not circular |
| RoleValidation.CollectDependencies | api/workloads/v1alpha2/rolebasedgroup_validation.go:72-92 | the positional errors and the graph of the remaining dependencies |
| RoleValidation.AdmittedRolesSort | api/workloads/v1alpha2/rolebasedgroup_validation.go:61-98 | whatever admission accepts, the controller can sort |
| RoleValidation.AdmissionAgreesWithSort | pkg/dependency/dependency.go:43-75 | for uniquely named roles admission accepts if and only if the controller can sort |
| RoleValidation.RepeatedNamesDisagree | pkg/dependency/dependency.go:56-70 | three roles with a repeated name that sort but are not admitted |
| DepthFirst.GreyDependency | pkg/component-discovery/component_lifecycle.go:171-185 | meeting a grey node closes a cycle that repeats no other node |
| Graphs.OrderedAcyclic | pkg/component-discovery/component_lifecycle.go:170-195 | a graph whose nodes all finish after their dependencies has no cycle |
| Graphs.TransposedCyclic | pkg/component-discovery/component_lifecycle.go:204-218 | transposing neither makes nor breaks a cycle |
| ComponentLifecycle.CycleDetector.Dfs | pkg/component-discovery/component_lifecycle.go:170-185 | a search from a white node finds a cycle or finishes everything it reaches |
| ComponentLifecycle.DetectCycle | pkg/component-discovery/component_lifecycle.go:162-195 | true if and only if the edges have a cycle, for any iteration order and dependencies without entries |
| ComponentLifecycle.BuildReverseDependencies | pkg/component-discovery/component_lifecycle.go:204-218 | every edge is reversed as often as it is listed, and every node gets an entry |
| ComponentLifecycle.TransposeInvolution | pkg/component-discovery/component_lifecycle.go:204-218 | transposing twice restores every edge with its multiplicity |
| ComponentLifecycle.BuildDeletionGates | pkg/component-discovery/component_lifecycle.go:240-261 | the gates are exactly the reversed start edges and the explicit deletion edges, none merged twice |
| ComponentLifecycle.StartOnlyGatesCyclic | pkg/component-discovery/component_lifecycle.go:240-261 | without deletion edges the gates are cyclic if and only if the start graph is |
| ComponentLifecycle.TeardownCompletesExactly | pkg/reconciler/roleinstance/sync/instance_scale.go:200-209 | deleting components whose gates are gone runs to the end if and only if the gates have no cycle among them |
| ComponentLifecycle.DeletedInOrder | pkg/component-discovery/component_lifecycle.go:220-261 | over any teardown a component goes strictly after all that start after it and all it is to be deleted after |
| ComponentLifecycle.DeletedWhenFree | pkg/component-discovery/component_lifecycle.go:220-261 | and waits for nothing else |
| ComponentLifecycle.AcyclicGatesNeverDeadlock | pkg/component-discovery/component_lifecycle.go:162-261 | on gates the detector clears, every remaining set has a deletable component and as many rounds as components suffice |
| Decimal.AtoiItoa | internal/controller/workloads/rolebasedgroupset_controller.go:612-621 | an index written as a label is read back as the same number |
| GroupSetModel.ChildNameInjective | internal/controller/workloads/rolebasedgroupset_controller.go:612-645 | children of different index have different names |
| GroupSetModel.NormalizedEqual | internal/controller/workloads/rolebasedgroupset_controller.go:397-473 | a normalised template compares equal to the template |
| GroupSetModel.RolesEqualIgnoresOrder | internal/controller/workloads/rolebasedgroupset_controller.go:397-433 | for uniquely named roles the comparison is equality of the normalised roles in any order |
| GroupSetModel.SyncSettlesExactly | internal/controller/workloads/rolebasedgroupset_controller.go:476-609 | after an update a child needs none, if and only if the template does not set the system labels to other values |
| GroupSetConvergence.TargetSettledExactly | internal/controller/workloads/rolebasedgroupset_controller.go:97-217 | one reconcile of a coherent cluster leaves exactly the children 0 to replicas - 1, all matching the template if and only if the template gives the system labels no other values than the children carry |
| GroupSetConvergence.SettledIsFixpoint | internal/controller/workloads/rolebasedgroupset_controller.go:97-217 | on a settled cluster there is nothing to adopt, delete, create or update |
| GroupSetConvergence.SettlesAtOnceOrNever | internal/controller/workloads/rolebasedgroupset_controller.go:97-217 | under that condition any positive number of reconciles ends where the first did; without it none settles the cluster |
| GroupSetMeaning.RolesEqualExactly | internal/controller/workloads/rolebasedgroupset_controller.go:397-473 | for uniquely named roles the comparison is: equally many, and each role there with its name, body and update type, old spellings aside |
| GroupSetMeaning.NeedsUpdateExactly | internal/controller/workloads/rolebasedgroupset_controller.go:476-534 | a child is left alone if and only if its roles, labels and annotations are those of the template |
| GroupSetMeaning.SettledExactly | internal/controller/workloads/rolebasedgroupset_controller.go:97-217 | a cluster is settled if and only if each child is there by name, index, controller and template, and there is no other child |
| GroupSetMeaning.TemplateReachesChildren | internal/controller/workloads/rolebasedgroupset_controller.go:97-217 | after one reconcile every existing and new child carries the template |
| GroupSetMeaning.InPlaceStays | internal/controller/workloads/rolebasedgroupset_controller.go:97-217 | a child in place is not touched, whatever the others need |
| GroupSetConvergence.ForeignUntouched | internal/controller/workloads/rolebasedgroupset_controller.go:225-241 | groups controlled by another owner, or not of this set, come through any number of reconciles unchanged |
| GroupSetController.IsOwnedOrAdoptable | internal/controller/workloads/rolebasedgroupset_controller.go:231-239 | among the listed groups, exactly those controlled by the set's uid or by nobody |
| GroupSetController.FilterOwnedItems | internal/controller/workloads/rolebasedgroupset_controller.go:243-254 | the in-place compaction keeps the owned and adoptable items in order |
| GroupSetController.OwnedInOrder | internal/controller/workloads/rolebasedgroupset_controller.go:225-254 | what is kept is what the set controls, and what nobody controls under its name, in order |
| GroupSetController.Classify | internal/controller/workloads/rolebasedgroupset_controller.go:98-135 | the manageable children by index, those without a readable index, and orphans adopted on the way |
| GroupSetController.ScaleDown | internal/controller/workloads/rolebasedgroupset_controller.go:302-319 | deletes exactly the named groups |
| GroupSetController.UpdateExisting | internal/controller/workloads/rolebasedgroupset_controller.go:537-582 | brings exactly the named groups in line with the template |
| GroupSetController.ScaleUp | internal/controller/workloads/rolebasedgroupset_controller.go:257-299 | creates the missing children and touches no existing group |
| GroupSetController.Reconcile | internal/controller/workloads/rolebasedgroupset_controller.go:97-217 | the whole loop reaches the target on a coherent cluster, writes nothing on a settled one, and leaves foreign groups as they are on any cluster |
| EnvMerge.ReverseInPlace | pkg/discovery/injector.go:241-243 | the two-pointer loop reverses the array |
| EnvMerge.DedupeEnvVarsPreserveLast | pkg/discovery/injector.go:226-246 | the last definition of each name stays, in order |
| EnvMerge.KeepLastMeaning | pkg/discovery/injector.go:226-246 | afterwards names are distinct, none is lost, and each has its last value |
| EnvMerge.MergeEnvVars | pkg/discovery/injector.go:183-216 | the passes of the merge refine the function Merged |
| EnvMerge.MergedDistinct | pkg/discovery/injector.go:183-216 | after a merge each name is defined once |
| EnvMerge.MergedValue | pkg/discovery/injector.go:183-216 | after a merge a name has its injected value, or else the value it had |
| EnvMerge.MergedOrdered | pkg/discovery/injector.go:183-216 | a merge of one builder's variables puts base before derived before user variables, whatever the order was |
| EnvMerge.MergedTwice | pkg/discovery/injector.go:183-216 | repeating a merge changes nothing |
| EnvMerge.InjectionsOrderedAndCurrent | pkg/discovery/injector.go:125-163 | after any run of injections names are distinct and ordered, and each holds the last injected or last initial value |
| EnvOrder.SystemVariablesFirst | pkg/discovery/injector.go:165-216 | after any run no system variable is behind a user's, and no common one behind one of the leader-worker pattern |
| EnvOrder.UserVariablesKeepOrder | pkg/discovery/injector.go:183-246 | any two user variables keep the order of their last definitions over any run |
| EnvMerge.BatchesHomogeneous | pkg/discovery/env_builder.go:50-133 | each of the two builders produces variables of one kind only |
| EnvMerge.LeaderAddressResolves | pkg/discovery/env_builder.go:50-74 | after any run of injections, a leader address has the instance name it refers to defined before it if and only if some batch injected that name or it was there at the start |
| EnvMerge.InstanceNameInjected | pkg/discovery/env_builder.go:76-133 | the variables of a role include the instance name if and only if it is a RoleInstanceSet |
| EnvMerge.CommonVariables | pkg/discovery/env_builder.go:76-133 | which other variables a role gets: the index if and only if it is stateful, the component's if and only if it is a RoleInstanceSet |
| LeaderAddress.SystemVariableValue | pkg/discovery/env_builder.go:50-133 | after any run each injected variable has the value its name stands for, once |
| LeaderAddress.LeaderAddressIsListed | pkg/discovery/env_builder.go:50-74 | in a pod of a leader-worker instance the leader address, its reference replaced, is the address discovery lists for the instance's leader, completed by the namespace |
| Revisions.ApplyRevision | pkg/utils/revision_utils.go:167-197 | applies the stored lists and fills in replica counts, or fails on bytes that do not parse |
| Revisions.LastCountTaken | pkg/utils/revision_utils.go:167-197 | of several roles with one name the last one's count is taken |
| Revisions.RepatchGivesRevision | pkg/utils/revision_utils.go:402-440 | patching what a revision restored gives the revision's own patch, on any current group |
| Revisions.RollbackRestores | pkg/utils/revision_utils.go:167-197 | a rollback restores the old roles and templates, with present replica counts by name, or one |
| Revisions.RevisionMatcher.SetMatchesRevision | pkg/utils/revision_utils.go:124-162 | one call answers from the cache or by applying and patching again, and caches a match |
| Revisions.MatchesMeansSamePatch | pkg/utils/revision_utils.go:124-162 | the uncached answer depends only on the proposed and the stored bytes |
| Revisions.CacheAgrees | pkg/utils/revision_utils.go:105-162 | over any calls and any evictions the cached answer is the uncached one |
| Revisions.RememberedUnlessEvicted | pkg/utils/revision_utils.go:124-162 | a positive answer is cached unless evicted at once, and nothing else is |
| RevisionHistory.GetHighestRevision | pkg/utils/revision_utils.go:77-92 | the last of the revisions with the largest number, none only when all numbers are negative |
| RevisionHistory.CleanExpired | pkg/utils/revision_utils.go:199-242 | splits the history into kept and deleted, the kept ones up to the limit and never older |
| RevisionHistory.History.HandleRevisions | internal/controller/workloads/rolebasedgroup_controller.go:290-325 | afterwards the newest revision has the group's patch; nothing is stored when it already had |
| RevisionHistory.History.Cleanup | internal/controller/workloads/rolebasedgroup_controller.go:635-642 | the history is within the limit and keeps its newest revision |
| RevisionHistory.History.Reconcile | internal/controller/workloads/rolebasedgroup_controller.go:290-325 | after a reconcile the history is well formed, bounded and current |
| RevisionHistory.KeptHistory | pkg/utils/revision_utils.go:199-242 | what the cleanup keeps is well formed, includes the newest, and is newer than all it deletes |
| Conversion.ParseFormat | api/workloads/v1alpha1/rolebasedgroup_conversion.go:361-379 | a workload type reads back as written if and only if the kind has no slash |
| Conversion.PatternTrip | api/workloads/v1alpha1/rolebasedgroup_conversion.go:155-210 | the pod fields survive both conversions if and only if they are of one pattern with a fitting template source |
| Conversion.WorkloadTrip | api/workloads/v1alpha1/rolebasedgroup_conversion.go:359-379 | the workload survives if and only if its kind has no slash, and no missing kind is unnoted |
| Conversion.RolloutTrip | api/workloads/v1alpha1/rolebasedgroup_conversion.go:241-256 | the rollout strategy survives if and only if its type is not the v1alpha2 spelling |
| Conversion.RoleTripExactly | api/workloads/v1alpha1/rolebasedgroup_conversion.go:125-213 | a role survives the round trip, up to the noted workload type, if and only if it is well formed |
| Conversion.RoleTwiceExactly | api/workloads/v1alpha1/rolebasedgroup_conversion.go:347-437 | a second trip changes nothing if and only if the first did not fill in the default workload |
| ConversionMeaning.ToHubSaysSame | api/workloads/v1alpha1/rolebasedgroup_conversion.go:125-256 | field by field the hub's role says what the v1alpha1 role says: patches, sizes, template source, restart policy, components, strategy |
| ConversionMeaning.FromHubSaysSame | api/workloads/v1alpha1/rolebasedgroup_conversion.go:343-485 | and a v1alpha1 role what the hub says |
| ConversionMeaning.WorkloadToHub | api/workloads/v1alpha1/rolebasedgroup_conversion.go:139-150 | a workload that is set is written out as version, slash and kind |
| ConversionMeaning.WorkloadOfHub | api/workloads/v1alpha1/rolebasedgroup_conversion.go:356-379 | without the annotation the workload is a RoleInstanceSet, and with a slash inside it is cut at the last one |
| GroupConversion.V1Object.ConvertTo | api/workloads/v1alpha1/rolebasedgroup_conversion.go:42-65 | the hub becomes the converted group over what it held, and the annotation map is shared with the source |
| GroupConversion.V1Object.PreserveV1alpha1Fields | api/workloads/v1alpha1/rolebasedgroup_conversion.go:519-567 | the lossy fields and their controller-readable translations are written into the hub's annotations |
| GroupConversion.V1Object.ConvertFrom | api/workloads/v1alpha1/rolebasedgroup_conversion.go:68-94 | succeeds if and only if the saved fields can be read; the object becomes the converted group, and both annotation maps lose the conversion's keys |
| GroupConversion.V1Object.RestoreV1alpha1Fields | api/workloads/v1alpha1/rolebasedgroup_conversion.go:571-593 | the lossy fields are read back, kept when not saved, and an unreadable one is an error |
| GroupConversion.NothingShowsThrough | api/workloads/v1alpha1/rolebasedgroup_conversion.go:100-118 | converting into a new object leaves nothing of it |
| GroupConversion.ShowsThroughExactly | api/workloads/v1alpha1/rolebasedgroup_conversion.go:100-118 | converting into a used object leaves its lists if and only if the source's are empty |
| GroupConversion.ShowsThroughBackExactly | api/workloads/v1alpha1/rolebasedgroup_conversion.go:571-593 | and on the way back its saved fields if and only if none are saved |
| GroupConversion.HubIsReadable | api/workloads/v1alpha1/rolebasedgroup_conversion.go:519-555 | the hub asks for a gang, and its timeout, if and only if the v1alpha1 object does |
| GroupConversion.HubSaysVolcano | api/workloads/v1alpha1/rolebasedgroup_conversion.go:544-553 | the queue and the priority class of Volcano are there, each under its key, if and only if set |
| GroupConversion.HubSaysTopology | api/workloads/v1alpha1/rolebasedgroup_conversion.go:524-528 | the exclusive topology is under the controller's key if and only if it is under the v1alpha1 one |
| GroupConversion.SavedFieldsTrip | api/workloads/v1alpha1/rolebasedgroup_conversion.go:519-593 | the lossy fields come back as they were, or as a stray annotation of the input held them |
| GroupConversion.FromHubFailsExactly | api/workloads/v1alpha1/rolebasedgroup_conversion.go:571-593 | the conversion back fails if and only if a saved field cannot be read |
| GroupConversion.AnnotationsReturn | api/workloads/v1alpha1/rolebasedgroup_conversion.go:596-609 | a round trip removes exactly the seven keys of the conversion and keeps every other annotation, the user's topology among them |
| GroupConversion.HubKeepsAnnotations | api/workloads/v1alpha1/rolebasedgroup_conversion.go:519-567 | on the way to the hub no other annotation is written |
| GroupConversion.GroupTripExactly | api/workloads/v1alpha1/rolebasedgroup_conversion.go:42-94 | a group survives the round trip, up to the noted workload types, if and only if it is well formed |
| GroupConversion.GroupTwiceExactly | api/workloads/v1alpha1/rolebasedgroup_conversion.go:42-94 | a second trip succeeds, and changes nothing if and only if no role got the default workload |
| GroupConversion.GroupTripSettles | api/workloads/v1alpha1/rolebasedgroup_conversion.go:42-94 | a third trip never changes anything |
| HubTrip.PatternHubTrip | api/workloads/v1alpha1/rolebasedgroup_conversion.go:381-437 | a v1alpha2 pattern survives being read and written back as v1alpha1 if and only if it is the only one, has one template source with no empty patch, and uses no field that only v1alpha2 has |
| HubTrip.RestartHubTrip | api/workloads/v1alpha2/helper.go:350-365 | the restart policy keeps its meaning, if and only if it is not that of custom components without any component |
| HubTrip.AnnotationsHubTrip | api/workloads/v1alpha1/rolebasedgroup_conversion.go:356-379 | the role's annotations survive if and only if a workload type can be read off them; otherwise the default one is written out |
| HubTrip.RoleHubTripExactly | api/workloads/v1alpha1/rolebasedgroup_conversion.go:125-213 | a v1alpha2 role survives if and only if v1alpha1 can say all of it |
| HubTrip.RoleHubTripOnce | api/workloads/v1alpha1/rolebasedgroup_conversion.go:125-213 | the first trip leaves a role that v1alpha1 can say, so a second one changes nothing |
| HubTrip.AnnotationsAfterHubTrip | api/workloads/v1alpha1/rolebasedgroup_conversion.go:519-618 | every key of the conversion holds afterwards what the restored v1alpha1 fields call for, whatever it held before, and other annotations are kept |
| HubTrip.NativeSettingsLost | api/workloads/v1alpha1/rolebasedgroup_conversion.go:596-609 | gang scheduling and exclusive topology asked for in v1alpha2 alone are gone |
| HubTrip.GroupHubTripExactly | api/workloads/v1alpha1/rolebasedgroup_conversion.go:42-94 | a v1alpha2 group survives if and only if the saved fields can be read, the keys of the conversion agree with them, and every role survives |
| HubTrip.GroupHubTripOnce | api/workloads/v1alpha1/rolebasedgroup_conversion.go:42-94 | a second trip succeeds and changes nothing |
| Deprecation.ValidateNoNewDeprecatedWorkloadTypes | api/workloads/v1alpha2/rolebasedgroup_validation.go:327-353 | reports exactly the roles whose deprecated type the old role of that name did not have |
| Deprecation.ValidateNoDeprecatedWorkloadTypes | api/workloads/v1alpha2/rolebasedgroup_validation.go:295-311 | reports exactly the roles of deprecated type |
| Deprecation.NoNewUseShrinks | api/workloads/v1alpha2/rolebasedgroup_validation.go:313-353 | a write that passes only uses what the old roles used |
| Deprecation.NoNewUseExactly | api/workloads/v1alpha2/rolebasedgroup_validation.go:313-353 | with uniquely named old roles exactly those writes pass |
| Deprecation.LastTypeCounts | api/workloads/v1alpha2/rolebasedgroup_validation.go:328-331 | of several old roles with one name the last one's type counts |
| Deprecation.ContainsDeprecatedWorkloadType | api/workloads/v1alpha2/rolebasedgroup_admission.go:174-181 | true if and only if the roles have a deprecated use |
| Deprecation.LegacySetTemplateRoles | api/workloads/v1alpha2/rolebasedgroup_admission.go:112-169 | fails if and only if a needed read of the parent fails; else the exempt roles are the matching template roles of the parent verified by name and uid, none without a reader |
| Deprecation.ApiServer.ValidateCreate | api/workloads/v1alpha2/rolebasedgroup_admission.go:71-87 | a new group is checked against its exemption in compatibility mode, and against nothing in strict mode |
| Deprecation.ExemptUses | api/workloads/v1alpha2/rolebasedgroup_admission.go:149-168 | the exemption covers exactly the uses the child and the template share |
| Deprecation.ChildAdmittedExactly | api/workloads/v1alpha2/rolebasedgroup_admission.go:54-169 | a new group passes if and only if each deprecated use is, in compatibility mode, lent by the template of a set that its controller reference names by kind, version, name and uid and that can be read |
| Deprecation.GroupUpdateAdmittedExactly | api/workloads/v1alpha2/rolebasedgroup_admission.go:184-216 | an update of a group passes if and only if each deprecated use is, in compatibility mode, in the old group |
| Deprecation.SetAdmittedExactly | api/workloads/v1alpha2/rolebasedgroupset_admission.go:43-72 | a new set passes if and only if its template has no deprecated use |
| Deprecation.SetUpdateAdmittedExactly | api/workloads/v1alpha2/rolebasedgroupset_admission.go:74-101 | an update of a set passes if and only if each deprecated use is, in compatibility mode, in the old template |
| Deprecation.ApiServer.ValidateDeprecation | api/workloads/v1alpha2/rolebasedgroup_admission.go:71-87 | the check of either mode, as a predicate of new and old roles |
| Deprecation.ApiServer.Handle | api/workloads/v1alpha2/rolebasedgroupset_admission.go:43-101 | a write of a group or a set changes the stored objects exactly as the admission state machine says |
| Deprecation.WritesStayLocal | api/workloads/v1alpha2/rolebasedgroupset_admission.go:43-101 | deletions are never refused, a refused write changes nothing, and an admitted one only the object it names |
| Deprecation.ApplyAddsNoUse | api/workloads/v1alpha2/rolebasedgroup_admission.go:54-216 | no admitted write in either mode brings a deprecated use that was not in the cluster |
| Deprecation.UsesOnlyShrink | api/workloads/v1alpha2/rolebasedgroup_admission.go:54-216 | over any run of writes every use in the cluster was there at the start |
| HelmRbac.BaseMeaning | hack/gen-helm-rbac/main.go:201-205 | the base resource is the part before the first slash |
| HelmRbac.GatedExactly | hack/gen-helm-rbac/main.go:201-222 | gated are the three deprecated workload resources with their subresources, and nothing else |
| HelmRbac.IsDeprecated | hack/gen-helm-rbac/main.go:201-222 | fails if and only if the groups disagree about the resource, and else says whether it is deprecated |
| HelmRbac.GroupsAgreeExactly | hack/gen-helm-rbac/main.go:201-222 | groups agree if and only if the resource is deprecated in all of them or in none |
| HelmRbac.SplitRules | hack/gen-helm-rbac/main.go:166-196 | succeeds if and only if every rule can be split, else names the first that cannot |
| HelmRbac.SelectPartitions | hack/gen-helm-rbac/main.go:169-193 | no resource of a rule is lost or doubled by the split |
| HelmRbac.SelectInOrder | hack/gen-helm-rbac/main.go:169-193 | the resources of a block keep their order |
| HelmRbac.PlainBlockFirst | hack/gen-helm-rbac/main.go:188-193 | of one rule the block outside the conditional comes first |
| HelmRbac.Render | hack/gen-helm-rbac/main.go:232-256 | read with the toggle on or off, the document is balanced, unnested, and yields the visible rules in order; neighbouring conditionals are merged |
| HelmRbac.TemplateMeaning | hack/gen-helm-rbac/main.go:232-256 | what the tokens stand for, and that unbalanced ones stand for nothing |
| HelmRbac.RuleConserved | hack/gen-helm-rbac/main.go:166-196 | the blocks of a rule grant what it grants, and the ungated block what is left without the toggle |
| HelmRbac.OffOnResource | hack/gen-helm-rbac/main.go:201-222 | the toggle takes exactly the deprecated resources away |
| HelmRbac.OrderKept | hack/gen-helm-rbac/main.go:159-196 | blocks keep the order of the rules and leave none out |
| HelmRbac.Generate | hack/gen-helm-rbac/main.go:109-152 | generation succeeds if and only if there are rules and all can be split; on conserves every grant, off exactly those not deprecated |
| Enumeration.BuildInstances | pkg/discovery/config_builder.go:119-186 | one instance per pod of the role in replica order, with the pod's address and the role's ports |
| Enumeration.ComponentAddresses | pkg/discovery/config_builder.go:139-152 | the addresses of one replica's component pods, component by component |
| Enumeration.OrdinalAddresses | pkg/discovery/config_builder.go:158-163 | the leader and its workers by consecutive ordinals |
| Enumeration.MemberAddresses | pkg/discovery/config_builder.go:164-169 | the leader and its workers by number within the instance |
| Enumeration.BuildPortMap | pkg/discovery/config_builder.go:129-132 | exactly the normalised names of the ports are keys, and each has the number of the last port of that name |
| Enumeration.PortKeyMeaning | pkg/discovery/config_builder.go:188-193 | a named port is listed in lower case with underscores, another one by its number |
| Enumeration.ComputeSubGroupSize | api/workloads/v1alpha2/helper.go:81-109 | the pods one replica counts for |
| Enumeration.GetGroupSize | api/workloads/v1alpha2/helper.go:69-76 | the sum of those over all roles and replicas |
| Enumeration.RoleCountExactly | api/workloads/v1alpha2/helper.go:78-109 | a role lists as many instances as it counts for if and only if it does not carry both patterns, or they have equally many pods |
| EnumerationTotals.BuildRolesInfo | pkg/discovery/config_builder.go:104-117 | the config by role name, or an error if and only if a service lookup fails |
| EnumerationTotals.EnumerationMatchesSize | pkg/discovery/config_builder.go:104-186 | for uniquely named roles whose counts agree the listed instances total the group size |
| EnumerationTotals.OrdinalsExactly | pkg/discovery/config_builder.go:153-163 | a LeaderWorkerSet role's ordinals are 0 to replicas times size minus one in order, if and only if the size is positive or there is at most one group |
| EnumerationAddresses.AddressInjective | pkg/discovery/config_builder.go:138-172 | pods of one role with the same address are the same pod |
| EnumerationAddresses.AddressesDistinct | pkg/discovery/config_builder.go:134-184 | no two pods of a role are listed under one address, given well-named components and sized groups |
| EnumerationListing.SinglePodAddresses | pkg/discovery/config_builder.go:170-172 | pod i of a plain role is listed at position i as workload, i and service |
| EnumerationListing.LeaderWorkerAddresses | pkg/discovery/config_builder.go:164-169 | member j of instance i is listed at its position as workload, i, j and service |
| EnumerationListing.LeaderWorkerSetAddresses | pkg/discovery/config_builder.go:158-163 | member j of group i of a LeaderWorkerSet as workload, i times the size plus j, and service |
| EnumerationListing.ComponentPodAddresses | pkg/discovery/config_builder.go:139-152 | pod j of a component as workload, i, component, j, and its own service before the shared one |
| EnumerationListing.InstanceTotal | pkg/discovery/config_builder.go:134-184 | and there are no other instances |
| LeaderAddress.SinglePodIsListed | pkg/reconciler/roleinstance/utils/instance_utils.go:75-88 | the listed address is the host name of the pod the role instance controller creates |
| LeaderAddress.LeaderWorkerIsListed | pkg/reconciler/roleinstance/core/instance_core.go:133-163 | so it is for a leader, and for a worker if and only if the shared service is for all pods |
| LeaderAddress.ComponentPodIsListed | pkg/reconciler/roleinstance/utils/instance_utils.go:75-88 | and for the pods of components |

## Left out

- API-server clients, informers, events, retries, status updates, logging and manager setup; each read or write of
  the modelled loops is atomic and succeeds.
- 32-bit wrap-around of replica counts and ordinals, and the 64-bit range of parsed indices: integers are unbounded.
- Floating-point rounding in percentages: rounding up and down is exact.
- Nil and empty collections are one value, and so are a missing map key and an empty string where the code reads it so.
- JSON, YAML and hashing: serialised values are abstract and read back as written; a revision may be written in
  different bytes by different serialisers.
- Pod templates, containers, patches and conditions are opaque values compared by equality.
- GroupSetModel.RolesEqualIgnoresOrder: for repeated role names the source's sort is unstable, and the model's is one
  stable sort.
- GroupSetController.FilterOwnedItems: only the compaction; the status computed from its result is not modelled.
- RollingPlanner.StatefulSetReconciler.Reconcile: whether the spec differs from the applied one is an input, not
  computed from the two objects. The source's comparison includes the recorded size, so a workload that records another
  size always differs; case 5, and the skip that `ReconcileLeadsUnderway` excepts, arise only for inputs it does not
  produce.
- Rollout.RolloutConverges: counts reconciles, not time, and asks that the environment serve the released replicas
  before each one.
- Conversion.RoleTripExactly: status and the other fields copied unchanged are equal by construction.
- The conversion of a RoleBasedGroupSet, which applies the group's functions to its template.
- HelmRbac.Generate: the file header, the metadata and the way the deprecated resources are derived from the workload
  types; the three resources are constants.
- Deprecation.ApiServer.Handle: the other admission checks are one boolean of the request, and all objects are in one
  namespace.
- EnumerationAddresses.AddressesDistinct: names of different roles may collide after truncation, so it is stated per
  role.
- ComponentLifecycle.TeardownCompletesExactly: the scale-in of a role instance is modelled only by the rule that a
  component is deleted once its gates are gone.
- LeaderAddress.LeaderWorkerIsListed: only the names of pods and their services are modelled of the role instance
  controllers, and only instances numbered by the stateful mode; the expansion of references is the one Kubernetes
  documents.
- The Deployment, LeaderWorkerSet and RoleInstanceSet reconcilers, sidecars, services, port allocation, the scaling
  adapter, gang-scheduler plugins and the command line: object construction or sequencing of API calls.
