# Kapro: a Dafny model of its reconcilers

Kapro promotes versions across a fleet of clusters. On the hub it is a set of Kubernetes
reconcilers: loops that read a versioned object store, take a few API steps, and may crash or be
retried between any two of them. On each spoke an agent renews a heartbeat Lease and runs a
delivery loop. This project models the parts of Kapro where correctness depends on more than one
call, and proves what holds over every input, every interleaving or every run.

`dafny verify dfyconfig.toml` checks the whole project with Dafny 4.11.

| files | what they cover |
|---|---|
| BootstrapModel, BootstrapProtocol, BootstrapSafety, BootstrapDeadline, ConflictRetry | the one-shot cluster bootstrap slot: optimistic concurrency and CSR approval under any interleaving |
| BootstrapRecovery, BootstrapReconcile, BootstrapProgress | crash recovery: the scan loop as passes, every error-free reconcile of the protocol as a pass, and what follows in every reachable state |
| BootstrapTeardown, BootstrapLeaks | finalizer cleanup, and exactly when resources outlive the finalizer |
| RetentionSpec, Retention, RetentionTies, RetentionController | PromotionRun garbage collection: the two-pass selector, what it promises and how it breaks ties |
| RetentionDrainSpec, RetentionDrain | the capped drain over reconciles, with deletes that are forbidden |
| PromotionAttempts | stamping, superseding and restarting the attempts of one Promotion |
| Heartbeat, HeartbeatTiming | the miss counter behind Ready, the target gate, and the renewal/read timing |
| DeliveryLoop, Utf8Truncation | what spoke ticks keep in `status.currentVersions`; byte-capped error text |
| ValueMerge, HeapMerge, SourceCatalog, WaveBundle, FluxDiscovery, PlanNames | value merging, catalog validation against wave chains, the discovery cache, DNS labels |
| Text, RunPhase, Wrappers | strings and numerals, run phases, optional values |

How the models are built:

- **Protocols** are transition systems. Objects keep their whole version history, a resourceVersion
  is an index into it, and a reconciler's copy may be any version that ever existed. A run is any
  sequence of events; an event that is not enabled changes nothing.
- **Imperative code** is imperative here: loops over slices and maps, classes for state the source
  updates in place. Each such method is proved against a function or predicate, and the lemmas are
  about that function. Map iteration order is arbitrary (a parameter or a nondeterministic choice).
- **Clocks, failures, caches and foreign calls** are parameters of the step they affect: delete
  results, failed patches, Lease reads, provider results, what other writers land between two calls.

Where a property one would expect of the code is false, the code is modelled as it is, a lemma gives a
concrete failing case, and another states exactly when the property holds:

- The comment at internal/controller/promotionrun_gc_controller.go:212-215 says that nothing is pruned
  when active runs exceed the cap. The code sets the budget to 0, so every terminal run is selected
  (`ActiveRunsFillTheCap`).
- Which runs are deleted can depend on map iteration order (`TieFollowsMapOrder`): it does exactly when
  the number to delete falls inside a group of within-floor runs of one creation time and several outcomes
  (`SelectionDeterminedIff`, and for the drain `ReconcilesConfluentIff`).
- Forbidden deletes can starve the drain (`StarvingRun`): without a tie it reaches the cap exactly when no
  victim is forbidden (`DrainEndsIff`), and it stops for good exactly when a whole batch is
  (`StuckForeverIff`).
- Returning a Promotion to an earlier spec re-selects the old, superseded run (`RevertLosesCurrent`,
  `OnlyCurrentIff`); promotions that share their first fifty characters share run names
  (`LongNamesCollide`); a crash between superseding a run and cancelling its targets or releasing their
  clusters is not made good by a retry (`RetrySkipsTargets`, `SettledIff`).
- A bound CSR that is relabelled before its approval is never looked at again (`RelabelStrands`); recovery
  works exactly as long as the CSR is listable (`RecoveryIff`), and always while labels do not change
  (`ReachableRecovery`).
- Resources can outlive the finalizer: documented for a cleared `spec.bootstrap`
  (internal/controller/cluster_bootstrap_controller.go:148-153, `ClearedBootstrapLeaks`), but also after a
  stale read (`StaleReadLeaks`) and when the slot is restored too soon (`RestoredBootstrapLeaks`).
  `GuardedIff` is the exact condition.
- A unit-scoped override is dropped on a non-object value (`ScopedIsLiftedIff`).
- A file edited without `git add` (`DirtyTreeServedStale`) and a failed read (`ReadErrorServedStale`) are
  served from the discovery cache; `TransparentIff` is the exact condition. Unit names with a NUL
  character can share a key (`StraddleExample`, `DedupeExactIff`).
- A registry's bundle file can be overwritten by a unit's (`ClashExample`, `NothingOverwrittenIff`).

## Model

| member | source | states |
|---|---|---|
| ConflictRetry.ApiObject.StatusUpdate | internal/controller/conflict_retry.go:55-62 | A status update lands exactly when its resourceVersion is the current one, and then appends one version; otherwise nothing changes. |
| ConflictRetry.ApiObject.StatusUpdateWithRetry | internal/controller/conflict_retry.go:37-65 | Success means the current version is `mutate` of exactly the version before it, whatever other writers land in between and however stale the refetches; every other outcome leaves only other writers' versions. The outcome is that of the first of five attempts that does not conflict (landed, unreadable, refused or faulty exactly when that attempt is), and the races are lost if and only if all five conflict. |
| ConflictRetry.UndisturbedLands | internal/controller/conflict_retry.go:37-65 | With current reads, no faults and an accepting mutation, one undisturbed attempt within five makes the update land, at the first such attempt. |
| BootstrapModel.ClassifyBySubmitter | internal/controller/cluster_bootstrap_controller.go:514-536 | Bootstrap and renewal CSRs are told apart by the submitting identity, never by the state of the slot; only renewal before registration depends on it. |
| BootstrapModel.PurposeIff | internal/controller/cluster_bootstrap_controller.go:514-536 | A CSR has a purpose if and only if it asks for exactly this cluster's client identity (signer, common name, sole organization, no alternative names, client auth only); its username, the bootstrap ServiceAccount or the common name, tells bootstrap from renewal, and every other CSR has none. |
| BootstrapProtocol.StepKeepsInv | internal/controller/cluster_bootstrap_controller.go:407-686 | Every event of any reconciler, other writer, user or clock keeps the protocol's inductive invariant and loses no object history. |
| BootstrapSafety.RunKeepsInv | internal/controller/cluster_bootstrap_controller.go:145-228 | The invariant over every interleaving of any number of reconcilers with stale copies and crashes at any call. |
| BootstrapSafety.SlotClaimedOnce | internal/controller/cluster_bootstrap_controller.go:618-651 | Once the slot is used its bound CSR name is non-empty and the same in every continuation. |
| BootstrapSafety.ApprovedIsEntitled | internal/controller/cluster_bootstrap_controller.go:514-610 | In every reachable state an approved CSR has the kube-apiserver-client signer, common name "kapro-cluster:" and the cluster, sole organization "kapro:cluster-controllers", no alternative names and client auth only; its username is the bootstrap ServiceAccount, and the slot is bound to it, or the common name; the slot is used, and the cluster RBAC is in place unless deletion has begun. |
| BootstrapSafety.AtMostOneBootstrapApproval | internal/controller/cluster_bootstrap_controller.go:573-610 | Two approved bootstrap CSRs of one cluster are the same CSR. |
| BootstrapSafety.VerdictIsFinal | internal/controller/cluster_bootstrap_controller.go:656-686 | No CSR is ever both approved and denied, and a verdict once given is the verdict of every continuation. |
| BootstrapSafety.CrashWindow | internal/controller/cluster_bootstrap_controller.go:188-207 | Every reachable state with a used slot and a bound CSR without verdict is the crash window recovery starts from: the bound CSR was submitted for bootstrap. |
| BootstrapDeadline.ClaimedInTime | internal/controller/cluster_bootstrap_controller.go:573-651 | In every run a step that consumes the slot is `markBootstrapUsed` of a reconciler whose scan took up the CSR it binds when the clock had not passed the deadline of the copy it read, a live Cluster's with an unused slot, and that worked on nothing else since. |
| BootstrapDeadline.ApprovedInTime | internal/controller/cluster_bootstrap_controller.go:573-610 | In every reachable state an approved CSR of the bootstrap ServiceAccount was taken up like that. |
| BootstrapDeadline.ClaimSurvivesIff | internal/controller/cluster_bootstrap_controller.go:618-651 | A reconciler that refetches what other writers land still claims the slot if and only if they beat at most four attempts in a row. |
| BootstrapRecovery.Hub.HandleBootstrap | internal/controller/cluster_bootstrap_controller.go:573-610 | Past the deadline of an unused slot, and for a second claimant, the CSR is denied and the slot kept; otherwise RBAC is ensured, the slot bound to the CSR and the CSR approved. |
| BootstrapRecovery.Hub.ProcessCsrs | internal/controller/cluster_bootstrap_controller.go:407-463 | The scan loop over listed CSRs equals the recursive pass the other lemmas are about, late when the clock is past the deadline. |
| BootstrapRecovery.PassOutcome | internal/controller/cluster_bootstrap_controller.go:413-461 | A pass, CSR by CSR: the first listed CSR it handles (the bootstrap CSR for an unused slot; a renewal or the bound CSR for a consumed one) is approved with RBAC and, for an unused slot, bound, or denied when the deadline has passed; what it refuses before that (renewals before registration, second claimants) is denied; nothing else changes. |
| BootstrapRecovery.PassProgress | internal/controller/cluster_bootstrap_controller.go:413-461 | From the crash window, one pass over a list with the bound CSR gives a verdict to some waiting CSR and either approves the bound one or stays in the window. |
| BootstrapRecovery.CrashRecovery | internal/controller/cluster_bootstrap_controller.go:188-207 | As many passes as there are waiting CSRs approve the bound CSR and keep the slot, whatever the order of each list. |
| BootstrapRecovery.ListCsrs | internal/controller/cluster_bootstrap_controller.go:465-496 | The labelled query and the unlabelled fallback together list exactly the CSRs with this cluster's label or none. |
| BootstrapReconcile.ReconcileIsPass | internal/controller/cluster_bootstrap_controller.go:183-207 | Every error-free reconcile of any reconciler on a live Cluster, used slot or not (read the current Cluster, list current copies, then its calls until idle, however upserts find the RBAC and while the clock runs): with an unused slot past its deadline nothing changes; otherwise the first listed CSR it handles gets its verdict, so that the first pending bootstrap CSR claims an unused slot and is approved, unless the deadline passed during the reconcile, and nothing but the slot is written to the Cluster. |
| BootstrapReconcile.ResumedIsPass | internal/controller/cluster_bootstrap_controller.go:188-207 | On a consumed slot such a reconcile has the effect of one pass over its list and writes no Cluster version. |
| BootstrapReconcile.SomeReconcile | internal/controller/cluster_bootstrap_controller.go:188-207 | From every such state, past the deadline or not, an idle reconciler can complete a reconcile over any list. |
| BootstrapReconcile.TurnsArePasses | internal/controller/cluster_bootstrap_controller.go:188-207 | Every sequence of error-free reconciles, by whichever reconcilers, has the effect of the passes over its lists. |
| BootstrapProgress.VerdictsAreOurs | internal/controller/cluster_bootstrap_controller.go:413-461 | In every reachable state a CSR that was approved or denied, by any reconciler and from any copy, asked for this cluster's identity in the name of its bootstrap ServiceAccount or of the cluster itself. |
| BootstrapProgress.BoundWasListable | internal/controller/cluster_bootstrap_controller.go:465-496 | In every reachable state some version of the bound CSR was one that `listCSRsForCluster` returns. |
| BootstrapProgress.BoundIsListable | internal/controller/cluster_bootstrap_controller.go:465-496 | While nobody relabels CSRs, in every reachable state the bound CSR is one that `listCSRsForCluster` returns. |
| BootstrapProgress.RecoveryByAnyTurns | internal/controller/cluster_bootstrap_controller.go:413-461 | From any crash window of a live Cluster, every sequence of at least as many error-free reconciles as CSRs are waiting, over lists that have the bound CSR, approves it and keeps the slot. |
| BootstrapProgress.ReachableRecovery | internal/controller/cluster_bootstrap_controller.go:188-207 | While nobody relabels CSRs: from every reachable state of a live Cluster with a used slot and a pending bound CSR, every sequence of at least as many error-free reconciles as CSRs are waiting, by any reconcilers and over complete lists in any order, approves the bound CSR and keeps the slot. |
| BootstrapProgress.StrandedForever | internal/controller/cluster_bootstrap_controller.go:465-496 | A pending CSR labelled for something else gets no verdict in any continuation until it is relabelled, whatever copies any reconciler holds. |
| BootstrapProgress.RecoveryIff | internal/controller/cluster_bootstrap_controller.go:465-496 | From any crash window of a live Cluster some continuation without relabelling approves the bound CSR if and only if that CSR is listable. |
| BootstrapProgress.RelabelStrands | internal/controller/cluster_bootstrap_controller.go:465-496 | A run that binds a CSR, crashes, and after a relabel keeps it pending in every continuation. |
| BootstrapTeardown.RunKeepsInv | internal/controller/cluster_bootstrap_controller.go:165-258 | The finalizer invariant over every run of one reconciler with lagging reads, crashes and user edits. |
| BootstrapTeardown.NothingLeaks | internal/controller/cluster_bootstrap_controller.go:232-258 | With reads that do not go back and a slot that is kept: while any ServiceAccount, role, binding, Secret or per-cluster RBAC exists the finalizer is present; once deletion removed it nothing is left, then and ever after. |
| BootstrapTeardown.ReconcileDoes | internal/controller/cluster_bootstrap_controller.go:131-228 | One undisturbed reconcile, by the Cluster's fields: a deletion removes everything and then the finalizer; a suspended Cluster is left alone; without a slot the finalizer goes, with one it comes first; an expired slot loses its bootstrap resources; only a live, unexpired slot gets what the reconcile makes. |
| BootstrapLeaks.GuardedIff | internal/controller/cluster_bootstrap_controller.go:145-258 | Whatever is read and edited: every prefix of a run keeps all resources guarded by the finalizer if and only if no reconcile of a live copy without slot takes the finalizer off existing resources, and none creates a resource from a copy older than the last removal of the finalizer while nobody has added it again. |
| BootstrapLeaks.StaleCreationLeaks | internal/controller/cluster_bootstrap_controller.go:145-228 | With monotone reads or a kept slot every creation from a copy older than the last removal of the finalizer is such a leak: nobody has added it again by then. |
| BootstrapLeaks.KeptSlotLeaksIff | internal/controller/cluster_bootstrap_controller.go:232-258 | While the slot is kept, a run leaks if and only if a resource is created after the finalizer was removed. |
| BootstrapLeaks.StaleReadLeaks | internal/controller/cluster_bootstrap_controller.go:145-228 | A run in which a read older than an acted-upon deletion recreates RBAC for a Cluster that is gone. |
| BootstrapLeaks.ClearedBootstrapLeaks | internal/controller/cluster_bootstrap_controller.go:148-163 | A run in which clearing `spec.bootstrap` drops the finalizer and leaves the cluster's RBAC. |
| BootstrapLeaks.RestoredBootstrapLeaks | internal/controller/cluster_bootstrap_controller.go:148-174 | A run with monotone reads in which the slot is restored while the finalizer is being removed, and RBAC is created without it. |
| RetentionSpec.SurvivorsAreNewer | internal/controller/promotionrun_gc_controller.go:194-272 | No surviving run is older than a deleted run of the same outcome. |
| RetentionSpec.WithinFloorSize | internal/controller/promotionrun_gc_controller.go:227-245 | Exactly min(size, floor) runs of an outcome have fewer than `floor` newer ones. |
| RetentionSpec.KeepsFloorIff | internal/controller/promotionrun_gc_controller.go:227-272 | An outcome keeps min(size, floor) runs if and only if no run within its floor is deleted. |
| RetentionSpec.FloorsKeptIff | internal/controller/promotionrun_gc_controller.go:227-308 | All outcomes keep their floors if and only if the floors together fit what is left. |
| RetentionSpec.TieIsInTheInput | internal/controller/promotionrun_gc_controller.go:279-307 | Whether a cross-outcome tie straddles the cut is a property of the runs, the floor and the number deleted, whichever victim set was taken. |
| RetentionSpec.NoTieOneSet | internal/controller/promotionrun_gc_controller.go:279-307 | Without a tie at the cut there is one set of that size that respects the deletion order. |
| RetentionSpec.BatchesCompose | internal/controller/promotionrun_gc_controller.go:108-168 | A batch followed by a legal deletion order of what is left is a legal order of the whole: a cut changes no remaining rank. |
| RetentionDrainSpec.DrainIsPurgeOrder | internal/controller/promotionrun_gc_controller.go:108-168 | After n successful capped passes exactly min(n * cap, excess) runs are gone, and none went before one that had to precede it, however map order changes between passes. |
| RetentionDrainSpec.DrainConfluent | internal/controller/promotionrun_gc_controller.go:108-168 | Enough capped passes end within the budget; without a tie at the cut they delete exactly the one set a single unbounded pass can delete. |
| RetentionDrainSpec.VictimStaysAhead | internal/controller/promotionrun_gc_controller.go:227-308 | A victim that could not be deleted stays ahead of every survivor of the unbounded pass, even when its own rank drops because newer victims of its outcome are gone. |
| Retention.SortedBucket | internal/controller/promotionrun_gc_controller.go:194-205 | A sorted bucket lists exactly the outcome's runs, oldest first and without duplicates. |
| Retention.DonorsAreAboveFloor | internal/controller/promotionrun_gc_controller.go:227-245 | The prefix of a sorted bucket that pass 1 may take is exactly the runs above the floor. |
| Retention.PoolOrder | internal/controller/promotionrun_gc_controller.go:227-257 | The globally sorted candidates are every above-floor run once, oldest first, for every map order. |
| Retention.MergeIsOrdered | internal/controller/promotionrun_gc_controller.go:274-308 | The cursor merge takes min(k, remaining) runs, none twice, and each time one that nothing left has to precede. |
| Retention.SelectionIsPurgeOrder | internal/controller/promotionrun_gc_controller.go:174-309 | For every list and map order both passes together give a legal deletion order of exactly max(0, t - max(cap - a, 0)) runs, for t terminal and a active runs and a cap that is 50 unless overridden; the floor is 10 unless overridden. |
| RetentionTies.SelectionFollows | internal/controller/promotionrun_gc_controller.go:274-308 | A deleted and a surviving run within their floors are ordered by creation time, then map order, then name. |
| RetentionTies.SelectionDeterminedIff | internal/controller/promotionrun_gc_controller.go:279-307 | All list orders and map orders select the same runs if and only if the number to delete does not fall inside a group of within-floor runs of one creation time and several outcomes. |
| RetentionTies.SelectionKeepsNewest | internal/controller/promotionrun_gc_controller.go:194-272 | No run a selection leaves is older than one of the same outcome it takes, or of the same age with a smaller name. |
| RetentionTies.SelectionKeepsFloorsIff | internal/controller/promotionrun_gc_controller.go:207-308 | A selection leaves every outcome min(size, floor) runs if and only if those floors together fit the budget, or nothing has to go. |
| Retention.ActiveRunsFillTheCap | internal/controller/promotionrun_gc_controller.go:207-219 | When the active runs reach the cap every terminal run is selected. |
| Retention.TieFollowsMapOrder | internal/controller/promotionrun_gc_controller.go:290-298 | Two runs of equal age and different outcome: which one is deleted follows the map order. |
| RetentionController.DonatedCount | internal/controller/promotionrun_gc_controller.go:257-272 | What pass 1 took from a bucket never exceeds what it donated, and equals it once all candidates are taken, so trimming by count loses and repeats nothing. |
| RetentionController.FirstPass | internal/controller/promotionrun_gc_controller.go:227-272 | The collecting, sorting, taking and trimming loops yield the oldest candidates and the exact remainders of the buckets. |
| RetentionController.MergeCursors | internal/controller/promotionrun_gc_controller.go:274-308 | The loop over mutable cursors equals the specified merge. |
| RetentionController.SelectVictims | internal/controller/promotionrun_gc_controller.go:174-309 | The whole selector's result is a legal deletion order of the terminal runs, above the floor of 10 or its override first, of exactly max(0, t - max(cap - a, 0)) runs with a cap of 50 or its override. |
| RetentionController.RunStore.Reconcile | internal/controller/promotionrun_gc_controller.go:93-169 | One reconcile removes a run if and only if it is among the first 25 (or the override) of the selection, its delete succeeds or finds it gone, and no delete before it failed hard; it asks for another pass exactly when victims were left over. |
| RetentionDrain.ForbiddenStay | internal/controller/promotionrun_gc_controller.go:135-158 | When exactly the forbidden deletes fail, the delete loop removes the rest of its batch. |
| RetentionDrain.ReconcileIsDrainPass | internal/controller/promotionrun_gc_controller.go:93-169 | A reconcile is one drain pass over the terminal runs, keeps the active ones and leaves the next pass the same budget. |
| RetentionDrain.ReconcilesConfluent | internal/controller/promotionrun_gc_controller.go:93-169 | Over any long enough run of successful capped reconciles: no excess is left, active runs stay, no run is deleted while one that has to precede it stays, and without a tie at the cut the runs left are those one unbounded selection of the first list leaves. |
| RetentionDrain.DrainedWithinCap | internal/controller/promotionrun_gc_controller.go:207-219 | A full drain keeps every active run and leaves in all what there was if that is within the cap, else the cap, or only the active runs when they exceed it. |
| RetentionDrain.ReconcilesConfluentIff | internal/controller/promotionrun_gc_controller.go:93-169 | Every full drain agrees with every unbounded selection, whatever the map orders of either, if and only if no tie straddles the cut. |
| RetentionDrain.ForbiddenVictimsStay | internal/controller/promotionrun_gc_controller.go:142-147 | Over every run with forbidden deletes and no tie at the cut, no survivor of the unbounded selection is ever deleted and the excess never falls below the number of forbidden victims. |
| RetentionDrain.DrainEndsIff | internal/controller/promotionrun_gc_controller.go:142-147 | Without a tie, enough reconciles reach the cap if and only if no victim of one unbounded selection is forbidden, and then they leave what that selection leaves. |
| RetentionDrain.DrainLeavesForbidden | internal/controller/promotionrun_gc_controller.go:142-147 | With fewer forbidden victims than a reconcile may delete, every other victim goes. |
| RetentionDrain.StuckForeverIff | internal/controller/promotionrun_gc_controller.go:108-168 | A reconcile whose batch is cut off without a tie is repeated forever, deleting nothing, if and only if its whole batch is forbidden. |
| RetentionDrain.StarvingRun | internal/controller/promotionrun_gc_controller.go:108-168 | Three runs, room for one, one delete per reconcile and the oldest forbidden: no run of reconciles ever deletes anything. |
| PromotionAttempts.AttemptNames | internal/controller/promotion_controller.go:634-641 | A run name is promotion, hyphen and hash, the promotion cut to fifty characters less trailing hyphens when it is longer; names fit 63 characters and are equal if and only if hash and shortened promotion name are. |
| PromotionAttempts.LongNamesCollide | internal/controller/promotion_controller.go:634-641 | Promotions that agree on fifty characters get the same run name for equal specs. |
| PromotionAttempts.PromotionHub.CancelSupersededRunTargets | internal/controller/promotion_controller.go:367-413 | The loop with its writes, each possibly the last, equals the specified cancellation. |
| PromotionAttempts.PromotionHub.SupersedePrevious | internal/controller/promotion_controller.go:337-365 | The loop over listed runs equals the specified superseding, cut off after any write. |
| PromotionAttempts.PromotionHub.ReconcileAttempt | internal/controller/promotion_controller.go:147-209 | A reconcile that finds a run for the hash changes nothing; otherwise it supersedes and stamps, cut off after any write. |
| PromotionAttempts.SupersedeRuns | internal/controller/promotion_controller.go:337-365 | Superseding changes only listed non-terminal runs, and if it completes every listed run is terminal. |
| PromotionAttempts.SupersedeClosedForm | internal/controller/promotion_controller.go:337-413 | A completed pass supersedes exactly the listed non-terminal runs, cancels exactly their unfinished targets and changes no other run or target. |
| PromotionAttempts.SupersedeClaims | internal/controller/promotion_controller.go:367-413 | A completed pass releases exactly the clusters claimed by a run it moved and in which it cancels a target of that run. |
| PromotionAttempts.StampLeavesOnlyCurrentIff | internal/controller/promotion_controller.go:147-209 | A completed stamping reconcile on a fresh list leaves the new run as the only non-terminal one if and only if no foreign run held its name. |
| PromotionAttempts.OnlyCurrentIff | internal/controller/promotion_controller.go:147-209 | After any completed reconcile on a fresh list the current spec's run is the only non-terminal one if and only if it was stamped under a free name, or it already was the only one. |
| PromotionAttempts.RevertLosesCurrent | internal/controller/promotion_controller.go:157-164 | For every promotion and specs A, B and A again, three completed reconciles from a world without runs end with B's run live and A's superseded. |
| PromotionAttempts.RestartReachesSameRuns | internal/controller/promotion_controller.go:147-209 | Crash after any write, list again, reconcile to the end: the runs are those of one reconcile that never crashed. |
| PromotionAttempts.SettledIff | internal/controller/promotion_controller.go:342-413 | A completed stamping reconcile ends with every superseded run's targets cancelled and their clusters released if and only if it started so and none of the runs it moves has a target cancelled earlier that still holds its cluster. |
| PromotionAttempts.RetrySkipsTargets | internal/controller/promotion_controller.go:342-413 | A crash after the first write whose retry leaves a superseded run's target running, and one after the second whose retry leaves its cluster claimed. |
| PromotionAttempts.ReconcileIsHistory | internal/controller/promotion_controller.go:147-209 | Whatever list a reconcile works on and wherever it crashes, its writes to runs are: listed runs superseded, then at most one run created, for its own hash. |
| PromotionAttempts.OneRunPerHash | internal/controller/promotion_controller.go:236-290 | However reconcilers with stale lists, run controllers, other promotions and the garbage collector interleave, no two runs of one promotion carry the same hash. |
| Heartbeat.HeartbeatReconciler.ApplyDesired | internal/controller/cluster_heartbeat_controller.go:332-377 | Condition and count are stored together, or neither when the patch fails. |
| Heartbeat.HeartbeatReconciler.Reconcile | internal/controller/cluster_heartbeat_controller.go:130-275 | A reconcile is one step of the verdict machine; deletion and failed patches leave the status as it was. |
| Heartbeat.CountIsStreak | internal/controller/cluster_heartbeat_controller.go:170-275 | Over every trace the stored count is the number of stale or missing Lease observations since the last reset, in int32; a reset is a cluster that is not tracked or whose Lease was renewed, or else acquired, or else created, less than two minutes before. Lease read errors leave it unchanged. |
| Heartbeat.UnreachableIff | internal/controller/cluster_heartbeat_controller.go:170-275 | Ready and its reason by the latest applied observation: False, Unreachable, if and only if it was a miss that brought the streak to the cluster's threshold, 3 by default; True if and only if it saw a cluster that is not suspended and is in push mode or registered with a Lease heard from within two minutes; every reason has its cause. |
| Heartbeat.TargetGate.RequireFreshHeartbeat | internal/controller/heartbeat.go:59-115 | The gate opens if and only if the cluster is not in pull mode or Ready is True; it then clears both staleness fields, and otherwise counts and keeps the first time. |
| Heartbeat.GateFieldsAgree | internal/controller/heartbeat.go:59-115 | Over every run the stale count is the number of consecutive holds, and staleSince is empty exactly when it is zero and otherwise the time of the first hold. |
| HeartbeatTiming.AgeBound | cmd/kapro-cluster-controller/heartbeat.go:34-109 | With at most k failed ticks in a row a Lease read is younger than (k + 1) intervals plus the landing latency, and the latency once more while the first tick, whose duration delays the ticker, is the last renewal. |
| HeartbeatTiming.ReadFindsRenewal | cmd/kapro-cluster-controller/heartbeat.go:34-109 | After a landed renewal every read finds a last one. |
| HeartbeatTiming.NeverStale | internal/controller/cluster_heartbeat_controller.go:289-310 | When that limit fits the two-minute window, no reconcile of a live registered pull cluster counts a miss, through any failed reads and patches; the count stays zero, Ready does not turn False, and it is True with the target gate open when the latest applied reconcile got an answer. |
| HeartbeatTiming.BoundIsTight | cmd/kapro-cluster-controller/heartbeat.go:34-109 | Past the limit, for the first renewal and for any later one, a spoke that keeps to the loop's schedule is read stale. |
| DeliveryLoop.MergedDesiredVersions | cmd/kapro-cluster-controller/delivery_loop.go:387-403 | The map loop and the legacy pair give exactly the non-empty wishes, the map winning. |
| DeliveryLoop.Spoke.WriteStatus | cmd/kapro-cluster-controller/delivery_loop.go:286-336 | Current versions move only for converged apps, entries for every result, and nothing when the patch fails. |
| DeliveryLoop.Spoke.RunTick | cmd/kapro-cluster-controller/delivery_loop.go:82-145 | A tick, with its suspended, unreachable and substrate-error paths, is one step of the status machine; it fails exactly when the hub cannot be read or, with something to do and not suspended, the patch fails. |
| DeliveryLoop.TickMoves | cmd/kapro-cluster-controller/delivery_loop.go:286-336 | One tick sets an app's current version if and only if the hub was read, the patch landed, the cluster was not suspended, the substrate resolved to a spoke-pull profile with registry and provider, and the provider reported the app converged; the version is the map's, or else the legacy one under its key. |
| DeliveryLoop.TickRecords | cmd/kapro-cluster-controller/delivery_loop.go:286-336 | Such a tick, converged or not, records the version asked for and the phase its inputs give for every app asked for, and touches no other entry. |
| DeliveryLoop.CurrentIsLastLanded | cmd/kapro-cluster-controller/delivery_loop.go:82-145 | Over every run an app's current version is the one desired at its last landed convergence. |
| DeliveryLoop.CurrentUntouched | cmd/kapro-cluster-controller/delivery_loop.go:363-382 | Without a landed convergence an entry is neither added, changed nor removed. |
| Utf8Truncation.TruncateError | cmd/kapro-cluster-controller/delivery_loop.go:430-439 | Short text is returned as it is; otherwise the result is the prefix up to the largest rune start not past the cap, and an ellipsis. |
| Utf8Truncation.BoundaryIff | cmd/kapro-cluster-controller/delivery_loop.go:430-439 | In valid UTF-8 a byte starts a character if and only if the text before it is valid. |
| Utf8Truncation.TruncationKeepsCharacters | cmd/kapro-cluster-controller/delivery_loop.go:430-439 | For valid text the cut keeps the longest whole-character prefix of at most `max` bytes, gives up at most three bytes, and the result is valid and at most `max` + 3 bytes. |
| ValueMerge.DeepMerge | internal/controller/fleet_controller.go:687-702 | The in-place loop over keys in any order equals the recursive merge. |
| HeapMerge.DeepMerge | internal/controller/fleet_controller.go:687-702 | On the heap, with nested maps as objects updated in place or taken over: for separate trees the destination ends with the merge of both values and is a tree again, and no object of the source changes. |
| ValueMerge.MergeAtPath | internal/controller/fleet_controller.go:687-702 | At every path the source decides below the first point where not both sides are objects, the destination is kept where the source has nothing, and two objects have the keys of both. |
| ValueMerge.MergeTwice | internal/controller/fleet_controller.go:687-702 | Merging the same patch twice is merging it once. |
| ValueMerge.OverrideMatches | internal/controller/fleet_controller.go:705-726 | A cluster list decides alone; otherwise every selector entry must equal the label, a missing label counting as empty. |
| ValueMerge.MergeValues | internal/controller/fleet_controller.go:644-684 | The loop is the left fold of the matching overrides over the defaults. |
| ValueMerge.LastSettingWins | internal/controller/fleet_controller.go:644-684 | The last matching override that sets a value at a path decides it, unless its component held a value it cannot merge into; where no matching override sets anything the defaults stand. |
| ValueMerge.ScopedIsLiftedIff | internal/controller/fleet_controller.go:664-682 | A unit-scoped override acts as its patch lifted under that key if and only if the key is free, null or an object, and is dropped otherwise. |
| ValueMerge.OverrideTwice | internal/controller/fleet_controller.go:664-682 | Applying an override twice in a row is applying it once. |
| SourceCatalog.Validate | internal/bundle/validate.go:21-124 | The errors reported are exactly the catalog's defects, each naming its unit, registry, dependency and waves, and there are none if and only if the catalog is well formed. |
| SourceCatalog.CheckUnit | internal/bundle/validate.go:53-98 | The per-unit checks report exactly the unit's defects, an unnamed unit only that. |
| SourceCatalog.CheckOrder | internal/bundle/validate.go:103-119 | The ordering loops report exactly the dependencies whose first declaration is in a later wave. |
| SourceCatalog.DefectFreeIffWellFormed | internal/bundle/validate.go:21-124 | A catalog without defects has unique good names, resolvable repos, existing dependencies and no dependency in a later wave, and conversely. |
| WaveBundle.GroupByWave | internal/bundle/bundle.go:420-426 | The keys are exactly the units' waves, each with its units in catalog order. |
| WaveBundle.SortedWaveNumbers | internal/bundle/bundle.go:428-435 | The result is strictly increasing and holds exactly the map's keys. |
| WaveBundle.WaveOrderUnique | internal/bundle/bundle.go:428-435 | There is one such order, so map iteration order and sort algorithm do not matter. |
| WaveBundle.WaveKustomizations | internal/bundle/bundle.go:254-309 | One Kustomization per wave in increasing order, with that wave's units as health checks and its predecessor as only dependency. |
| WaveBundle.SingleChain | internal/bundle/bundle.go:288-300 | Names are unique, and one Kustomization depends on another if and only if it is its successor. |
| WaveBundle.ReachesIff | internal/bundle/bundle.go:288-300 | A Kustomization transitively depends on exactly the earlier ones. |
| WaveBundle.HealthCheckedOnce | internal/bundle/bundle.go:262-271 | Every unit is health-checked exactly once in the whole chain, by its own wave. |
| WaveBundle.ChainHonoursIff | internal/bundle/validate.go:103-119 | Every dependency's wave is the unit's own or one its Kustomization waits for, if and only if the catalog meets the wave rule. |
| WaveBundle.EarlierWavesFirst | internal/bundle/bundle.go:250-253 | In every order in which Kustomizations become ready after their dependencies, a wave is ready only after every earlier one. |
| WaveBundle.DependenciesRollOutFirst | internal/bundle/bundle.go:250-253 | In every such rollout of a valid catalog, a dependency in an earlier wave is health-checked ready strictly before its dependent's wave. |
| WaveBundle.Generate | internal/bundle/bundle.go:224-248 | The bundle has exactly the registries' and units' paths, registries in the first wave, and a unit wins over a registry on the same path; no units means no result (the code panics). |
| WaveBundle.PathServesItsWave | internal/bundle/bundle.go:224-309 | The bundle files under a Kustomization's path are exactly those of its wave, whose number is its label; single digits are padded. |
| WaveBundle.NothingOverwrittenIff | internal/bundle/bundle.go:235-245 | Every unit's file is its own, and every registry's is too if and only if no first-wave unit has a registry's file name. |
| WaveBundle.ClashExample | internal/bundle/bundle.go:235-245 | A valid catalog with such a clash. |
| FluxDiscovery.DiscoveryCache.Discover | cmd/kapro/discover_flux.go:148-185 | The scan loop with its cache map and counters equals the specified cached scan, and refuses more units than allowed. |
| FluxDiscovery.PlainJoins | cmd/kapro/discover_flux.go:148-185 | The report of a tree joins those of any split of it: counts add up, lists follow each other. |
| FluxDiscovery.PlainOne | cmd/kapro/discover_flux.go:148-185 | One file is counted once, and once more when it has documents, and reports exactly what parsing it yields. |
| FluxDiscovery.HitsAre | cmd/kapro/discover_flux.go:160-173 | The hits of a scan are exactly the files whose path is cached with the same blob. |
| FluxDiscovery.RescanHits | cmd/kapro/discover_flux.go:160-173 | A second scan of the same tree parses nothing. |
| FluxDiscovery.DedupeUnits | cmd/kapro/discover_argo.go:735-749 | A key holds a unit if and only if that is the last named unit with the key. |
| FluxDiscovery.KeysCollideIff | cmd/kapro/discover_argo.go:735-749 | Two units share a key if and only if name and version field agree, or a NUL inside one name lines up with one in the other's field. |
| FluxDiscovery.DedupeExactIff | cmd/kapro/discover_argo.go:735-749 | Every named unit is kept, up to later ones of its name and field, if and only if no two of them collide that way. |
| FluxDiscovery.StraddleExample | cmd/kapro/discover_argo.go:735-749 | Two different units with one key, of which the first is lost. |
| FluxDiscovery.CacheTransparent | cmd/kapro/discover_flux.go:160-173 | With entries that are the parse of what their blob stands for and reads that yield just that, the report is that of a scan without cache, hits and misses add up to the files, and entries stay so. |
| FluxDiscovery.DiscoveryTransparent | cmd/kapro/discover_flux.go:148-185 | Over any sequence of trees whose reads yield what their blobs stand for, with the cache carried, lost or unreadable from run to run, counts, objects, skipped items, errors and units are those of a scan without cache. |
| FluxDiscovery.TransparentIff | cmd/kapro/discover_flux.go:160-173 | After any history the cache is transparent for every parser if and only if every file it serves was read then as it is read now. |
| FluxDiscovery.DirtyTreeServedStale | cmd/kapro/discover_argo.go:307-354 | A file edited without `git add` is reported with its earlier content. |
| FluxDiscovery.ReadErrorServedStale | cmd/kapro/discover_flux.go:187-199 | A file that could not be read once is reported with that error, and without its objects, although it can be read now. |
| PlanNames.DnsLabelValue | cmd/kapro/main.go:1061-1086 | The builder loop, trimming and hash truncation equal the specified label value. |
| PlanNames.WordIsKept | cmd/kapro/main.go:1061-1086 | A value of letters and digits alone is lower-cased as it is. |
| PlanNames.SeparatorSplits | cmd/kapro/main.go:1061-1086 | Any other character separates: the label is that of both sides with one hyphen between them, or of the one that is not empty. |
| PlanNames.LongLabelCut | cmd/kapro/main.go:1061-1086 | A label longer than 63 characters is cut to 54, less a hyphen at the end, and gets a hyphen and the hash of the value. |
| PlanNames.LabelValueValid | cmd/kapro/main.go:1061-1086 | Whatever the input, the value is empty or a label of section 2.1 of RFC 1123 of at most 63 characters. |
| PlanNames.LabelIdempotent | cmd/kapro/main.go:1053-1059 | `dnsLabel` always gives a valid label, "promotion" for an empty one, and labelling a label changes nothing. |
| PlanNames.NumberedShape | cmd/kapro/main.go:1103-1123 | A numbered candidate is a valid label that ends in a hyphen and its number; the base is kept whole if both fit 63 characters, else cut to fit. |
| PlanNames.NumberedDistinct | cmd/kapro/main.go:1103-1123 | Candidates with different numbers differ. |
| PlanNames.CandidatesCount | cmd/kapro/main.go:1088-1101 | A window of numbers gives as many names, the measure on which the search terminates. |
| PlanNames.UniquePlanRefName | cmd/kapro/main.go:1088-1101 | The search terminates for every set of used names and returns the label itself if it is free, else the candidate with the smallest free number from 2 on, which it records. |
| PlanNames.PlanRefs | cmd/kapro/main.go:938-946 | The plan references of one promote command keep the plans' order and have pairwise different valid names. |

## Left out

Assumptions the models make, and what they therefore do not say:

- API server: `Status().Update` and `UpdateApproval` succeed only on the current resourceVersion, merge patches write only changed fields, CSR names are not reused.
- Bootstrap protocol: the API server's own clean-up of old CSRs is not modelled; nobody but these reconcilers approves or denies the CSRs, marks the slot or deletes the cluster RBAC, and a deleted Cluster is not re-created under its name. A nil `status.bootstrap` is the unused slot.
- BootstrapTeardown.NothingLeaks: one active reconciler, reads that do not go backwards, and `spec.bootstrap` kept; BootstrapLeaks has the exact condition without the last two.
- BootstrapRecovery.CrashRecovery: passes without further failures, on a live, unsuspended Cluster; retry delays are not modelled.
- BootstrapReconcile.ReconcileIsPass: what an expired slot's reconcile cleans up is in BootstrapTeardown; the conditions it writes are not modelled.
- BootstrapRecovery.Hub.ProcessCsrs: calls that fail or conflict end a reconcile in BootstrapProtocol, not in this loop.
- `computeExpiresAt`, `markExpired`, `markRegistered` and the conditions they write; `shouldProvision` and token issuing are a single provisioning choice in BootstrapTeardown.
- X.509 parsing, PEM, SHA-256, TokenRequest, kubeconfig rendering, RBAC rule contents: CSR fields and hashes are given.
- Retention: `sort.Slice` is an insertion sort function; the order is total on distinct names, so every sort agrees with it.
- PromotionAttempts: a list may miss or add runs, but the phases of the runs it has are read as they are; the Promotion's own status, conditions, attempt list (`upsertAttempt`, capped at twenty) and phase mapping, completion timestamps, label backfill, suspend and resume. The spec hash is any twelve characters.
- Heartbeat.HeartbeatReconciler.ApplyDesired: the timestamps observedAt, leaseObservedAt and lastTransitionAt, and the messages.
- Heartbeat: the fleet controller's own writes of Ready (internal/controller/fleet_controller.go:1052), transition events, and a reconcile that reads a copy older than its last write.
- Heartbeat.GateFieldsAgree: HeartbeatStaleCount is unbounded; its 64-bit overflow is not modelled.
- HeapMerge.DeepMerge: destination and source share no map, as in every caller, which unmarshals both afresh.
- ValueMerge.DeepMerge: the same loop on values, for `mergeValues`; JSON parsing is outside, numbers are text.
- ValueMerge.MergeValues: serialisation of the result (the empty string for no values), defaults that are a JSON null, and `mergeUnitValues`, which is one more merge over defaults.
- SourceCatalog.Validate: message wording, order and repetition of errors; waves are unbounded integers since they are only compared.
- WaveBundle: YAML rendering of HelmRepositories, HelmReleases and Kustomizations; OCI packaging and pushing.
- FluxDiscovery.DiscoveryCache.Discover: the YAML parser (a function of the path and of what reading yields) and the final sort of the report; the Argo parser, whose result depends on other files than the one cached.
- HeartbeatTiming: ticks that the ticker drops or delays; a start may be no later than the loop's gap allows. Spoke and hub share one clock, and a read of the Lease is never behind the last renewal that landed.
- PlanNames: lower-casing and hash are parameters with the properties the labels need; fewer than 2^63 - 1 names are in use.
- DeliveryLoop: providers, staging and parameters are arbitrary results; error text, timestamps and staging status of an entry.
- Watches, predicates, workqueues, requeue delays, metrics, events, tracing and notifications.
- The target and run state machines, planner, gates, delivery engine, archiver, certificate rotation on the spoke, and the rendering, demo and display commands of the CLI.
