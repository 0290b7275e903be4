# Verified model of rblib

rblib builds Ethereum block payloads. A payload is a chain of immutable checkpoints; a pipeline of steps
grows and rewrites it; pools decide which orders are tried next. This project models the parts that carry
state and branching, in the form the code has, and proves what they promise.

| part | files |
|---|---|
| pipeline executor: navigator, iterator, scopes, limits, cursor | Pipelines, Navigator, StepPaths, StructuredRuns, Refinement, EmptyPipelines, StepIteration, Limits, Scopes, StepRuns, ScopeReentry, ScopeGaps, Executor |
| nonce-aware pools | PoolState, PrioritizedPool, SimTreeState, SimTree, NonceScan |
| checkpoints, spans, overlay reads, cache | Payload, Spans, Gas, StateReads, CachedState |
| executing and rewriting payloads | BundleExecution, RepeatedTransactions, Extension, Multimaps, OrderingRules, Ordering, RevertRemoval, RevertFates, AppendRules, AppendOrders, PriorityRules, FiledNonces, PriorityStep, StalePool, OrdersTried, Sequencer |
| whole blocks | NonceOrder, BlockBuilding |
| shared | Wrappers, Sequences |

What is a parameter: the EVM is one deterministic function from a checkpoint, the changes already made on
top of it and a transaction to either an error or a result with state changes. Hashes of transactions are
fields, hashes of bundles and orders are functions. Priorities and scores are integers, which stand for any
total order on finitely many orders. Whether the deadline has passed is a function of how often a step has asked. Limits factories, job hooks
and step outputs are arbitrary. `dafny verify dfyconfig.toml` checks everything.

A panic of the original (`expect`, `assert`, an index) is either shown not to happen, by a precondition that
every caller meets, or modelled as an outcome.

## Where the code does not do what its comments or names promise

Each of these is modelled as the code has it, with a lemma that shows it or says exactly when it happens.

- An empty nested pipeline ends the whole run, and what follows it never runs (`NeverCutShortIff`,
  `EmptyPipelineSwallowsSuccessor`).
- A first step inside a nested pipeline runs while its own scope is inactive (`FirstStepInActiveScopeIff`), with
  limits that were made when the scopes were built. Entering the root applies its factory once more, to limits that
  were already scaled. So the first step's limits can be looser than those of the active root, unless the root has
  no factory, the step is directly in the root, or the outermost factory on the way to it is the root's own
  (`FirstStepLimitsIff`, `NestedFirstStepExceedsRoot`).
- A scope that is entered again right after its pipeline is over is not left and not renewed if the pipeline is the
  only item of a loop, possibly inside pipelines that hold nothing else (`StartsOverIff`, `ScopeIsKeptIff`).
- Clamping drops a transaction cap or a deadline if either side has none (`ClampKeepsCapsIff`). So no scope ever has one
  that the platform has not, whatever the factories say (`CapsComeFromPlatformIff`). The limits of both platforms come
  without a transaction cap, and a cap from a limits factory never takes effect.
- Removing a ready order from the prioritized pool succeeds but returns nothing (`RemoveOrder`).
- The info of a deleted account stays readable (`AccountReadsAgreeIff`, `DeletedAccountIsStillRead`), so the
  nonces cached by a pool go wrong when an account that has used a nonce is deleted (`CoherentAfterIff`).
- The step that appends by priority updates a copy of its pool. The shared pool keeps old nonces from call to call,
  so it pops orders in vain whose nonces are used up, and leaves others stuck whose turn it is (`StillCoherentIff`,
  `JudgesRightIff`, `OldNonceMisleads`, `CalledTwice`).
- A bundle whose transactions were all dropped is not rejected (`NeverEmptyIff`). If a bundle repeats a
  transaction, the results may belong to other transactions than they line up with, unless the occurrences of each
  optional one are consecutive (`ResultsBelongIff`, `RepeatedTransactionShiftsResults`).
- If a bundle repeats an optional transaction with others in between, removing reverted transactions can blame a
  transaction that has succeeded and take it out (`TakenOutForGoodReason`, `FaultlessIsBlamed`).
- A bundle whose window of timestamps is empty counts as temporarily ineligible, though no block will ever admit it
  (`AdmittedFromIff`).
- A bundle with two transactions of one signer blocks itself in the score ordering. The step then returns the
  payload unsorted if nothing could be placed, and fails its assertion otherwise (`PlacesAllIff`,
  `BundleOfOneSignerIsStuck`, `OrderBy`). The staged history begins with a barrier, which has no hash, so the
  comparison with the current order never finds a sorted payload sorted: it is always rebuilt.
- A bundle is filed under the lowest nonce of each signer, and an optional transaction with that nonce hides a required
  one with the same or a higher nonce, so the bundle can be popped too early or in vain (`ReadinessCoversRequiredIff`).
- The blob gas of bundles that mix blob transactions with others is not counted (`CountedIffUnmixed`,
  `MixedBundleIsNotCounted`).
- Extracting the external transactions counts matches after a mismatch as well (`ExtractionIsExactIff`,
  `MismatchLosesTransaction`).

## Model

| member | source | states |
|---|---|---|
| `Navigator.Enter` | crates/pipeline/src/pipelines/exec/navi.rs:516-548 | digging from an item ends, if it ends anywhere, at an executable step below that item, on a chain of pipelines nested in each other |
| `Navigator.Entrypoint` | crates/pipeline/src/pipelines/exec/navi.rs:327-350 | the first step, if there is one, is an executable step of this pipeline |
| `Navigator.NextOk` | crates/pipeline/src/pipelines/exec/navi.rs:401-444 | after Ok the navigator is at an executable step of the same top-level pipeline, or the run is over; no path access fails |
| `Navigator.NextBreak` | crates/pipeline/src/pipelines/exec/navi.rs:450-458 | the same after Break |
| `Navigator.NextInParent` | crates/pipeline/src/pipelines/exec/navi.rs:576-596 | going on in the parent pipeline never leaves the chain of pipelines |
| `Refinement.FlatRefinesStructured` | crates/pipeline/src/pipelines/exec/navi.rs:327-596 | iterating the navigator over any pipeline and any outputs visits exactly the steps of the recursive interpreter, in order, and leaves the same outputs unused |
| `Refinement.PipelineRefines` | crates/pipeline/src/pipelines/exec/navi.rs:516-596 | the same for a pipeline anywhere inside others: the navigator goes through it as the interpreter does and goes on with what follows it in its parent |
| `Refinement.BodyRefines` | crates/pipeline/src/pipelines/exec/navi.rs:401-458 | a body runs once, or again and again until a step breaks, and then comes the epilogue |
| `EmptyPipelines.NeverCutShortIff` | crates/pipeline/src/pipelines/exec/navi.rs:516-548 | no run ends before the structured semantics says so if and only if no empty pipeline can be reached |
| `EmptyPipelines.NoEmptyNestedNeverHalts` | crates/pipeline/src/pipelines/exec/navi.rs:542-547 | without empty nested pipelines no run is cut short |
| `EmptyPipelines.EmptyPipelineSwallowsSuccessor` | crates/pipeline/src/pipelines/exec/navi.rs:545 | an empty pipeline between two steps: the second never runs |
| `StepPaths.BindNavigator` | crates/pipeline/src/pipelines/exec/navi.rs:37-64 | walking a path down from the top-level pipeline yields exactly the resolved navigator, or nothing |
| `StepPaths.ResolveAtStep` | crates/pipeline/src/pipelines/exec/navi.rs:37-64 | the path of a navigator at a step resolves to that very navigator |
| `StepPaths.StepPathsAreNavigable` | crates/pipeline/src/pipelines/exec/navi.rs:37-64 | a path leads to a step if and only if a navigator with that path stands at a step |
| `StepPaths.CommonAncestor` | crates/pipeline/src/pipelines/exec/navi.rs:166-182 | the common ancestor is the longest common prefix |
| `StepPaths.CommonPrefixIsLongest` | crates/pipeline/src/pipelines/exec/navi.rs:166-182 | a path is a prefix of both if and only if it is a prefix of the common ancestor |
| `StepPaths.Between` | crates/pipeline/src/pipelines/exec/navi.rs:197-223 | the paths between two scopes, in the direction of travel |
| `StepIteration.StepPathIter.Next` | crates/pipeline/src/pipelines/iter.rs:34-75 | the explicit stack yields the rest of the recursive preorder, one path at a time |
| `StepIteration.StepPathIter.constructor` | crates/pipeline/src/pipelines/iter.rs:18-28 | a new iterator has the whole preorder before it |
| `StepIteration.StepPathIter.Round` | crates/pipeline/src/pipelines/iter.rs:34-75 | one round of the loop yields the next path, or brings it nearer without losing one |
| `StepIteration.PreorderMembers` | crates/pipeline/src/pipelines/iter.rs:34-75 | the preorder lists a path if and only if it leads to a step |
| `StepIteration.PreorderDistinct` | crates/pipeline/src/pipelines/iter.rs:34-75 | no step is listed twice |
| `Limits.ClampIsMeet` | crates/core/src/platform/limits.rs:108-131 | for gas and blobs, clamped limits are exactly the loosest that are within both |
| `Limits.ClampKeepsCapsIff` | crates/core/src/platform/limits.rs:132-133 | clamping keeps to the transaction cap or deadline of one side if and only if that side has none or the other has one too, and to both if and only if both have one or neither has; the result has one if and only if both have |
| `Scopes.BuildScope` | crates/pipeline/src/pipelines/exec/scope.rs:209-241 | the scope tree of a pipeline, the limits of each scope made by its factory and clamped by its parent's |
| `Scopes.BuildMirrors` | crates/pipeline/src/pipelines/exec/scope.rs:209-241 | there is a scope for each nested pipeline and for nothing else |
| `Scopes.BuildInactive` | crates/pipeline/src/pipelines/exec/scope.rs:209-241 | no scope of a new tree is active |
| `Scopes.StepHasScope` | crates/pipeline/src/pipelines/exec/scope.rs:106-136 | every step has a scope, so looking one up on the way to a step succeeds |
| `Scopes.ScopeLimitsNoLooser` | crates/pipeline/src/pipelines/exec/scope.rs:243-258 | whatever the factory does, a scope's gas and blob limits are no looser than its parent's |
| `Scopes.LeaveInnermost` | crates/pipeline/src/pipelines/exec/scope.rs:260-281 | leaving the innermost active scope changes nothing else |
| `Scopes.LeaveDeactivates` | crates/pipeline/src/pipelines/exec/scope.rs:260-281 | leaving a scope deactivates everything below it |
| `Scopes.CapsComeFromPlatformIff` | crates/pipeline/src/pipelines/exec/scope.rs:209-258 | some choice of limits factories gives some scope of the tree a transaction cap, or a deadline, if and only if the platform's limits have one |
| `Scopes.RootScope.constructor` | crates/pipeline/src/pipelines/exec/scope.rs:73-82 | a new root scope is idle and within the limits of the platform; as after every entering, switching and leaving, no scope has a transaction cap or deadline that the platform has not |
| `Scopes.RootScope.Enter` | crates/pipeline/src/pipelines/exec/scope.rs:138-142 | exactly the root is active, with its factory applied to its own limits and its counter one higher; nothing nested in it changes |
| `Scopes.RootScope.SwitchContext` | crates/pipeline/src/pipelines/exec/scope.rs:106-136 | from any running state, exactly the prefixes of the next scope are active; every scope on the way down to it has the limits that its factory makes of its parent's, every scope on the way up loses only its mark, and all others, the common ancestor included, keep their limits and counters; scopes are left from the deepest and entered from the outermost; no assertion or lookup fails |
| `Scopes.RootScope.LeaveUp` | crates/pipeline/src/pipelines/exec/scope.rs:106-136 | the scopes below the common ancestor are left, deepest first |
| `Scopes.RootScope.EnterDown` | crates/pipeline/src/pipelines/exec/scope.rs:106-136 | the scopes down to the next one are entered, outermost first |
| `Scopes.RootScope.Leave` | crates/pipeline/src/pipelines/exec/scope.rs:144-147 | leaving the root deactivates every scope and keeps all limits and counters |
| `Scopes.RootScope.LimitsOf` | crates/pipeline/src/pipelines/exec/scope.rs:85-91 | the limits of the scope that the step is in, which exist for every step of the pipeline, without a transaction cap or deadline that the platform has not |
| `ScopeGaps.FirstStepInActiveScopeIff` | crates/pipeline/src/pipelines/exec/mod.rs:212-229 | the first step runs in an active scope if and only if the top-level pipeline has a prologue, has no items, or starts with a step |
| `ScopeGaps.NestedFirstStepExceedsRoot` | crates/pipeline/src/pipelines/exec/scope.rs:138-142 | a nested first step with twice the gas of the active scope around it |
| `ScopeGaps.FirstStepLimitsIff` | crates/pipeline/src/pipelines/exec/scope.rs:138-258 | the first step's gas and blob limits are no looser than those of the active root, whatever the factories do, if and only if the root has no factory, the step is directly in the root, or the outermost factory on the way to it is the root's own |
| `ScopeReentry.StartsOverIff` | crates/pipeline/src/pipelines/exec/navi.rs:576-596 | when a pipeline is over, the next step is in that same pipeline if and only if the nearest pipeline around it that repeats has a single item and those between have nothing but that item |
| `ScopeReentry.LeftIff` | crates/pipeline/src/pipelines/exec/scope.rs:106-136 | of the active scopes exactly those around which the next step is not are left, and none of them is entered |
| `ScopeReentry.ScopeIsKeptIff` | crates/pipeline/src/pipelines/exec/scope.rs:114 | after the last step of a pipeline its scope is neither left nor entered, and keeps limits and counter, if and only if the pipeline starts over alone; otherwise it is left |
| `Executor.PipelineExecutor.Initialize` | crates/pipeline/src/pipelines/exec/mod.rs:212-229 | if `before_job` succeeds on every step and there is a first step, it is next, with only the root scope entered and renewed; otherwise the job ends with the first failure or with the empty payload, and no scope has changed |
| `Executor.PipelineExecutor.StartStep` | crates/pipeline/src/pipelines/exec/mod.rs:135-154 | the step at the cursor's path exists, has limits, and was prepared; the instances started so far, this one included, are exactly the steps that the recursive interpreter executes when it reads them off the tree; it gets the input of the cursor |
| `Executor.PipelineExecutor.AdvanceCursor` | crates/pipeline/src/pipelines/exec/mod.rs:161-208 | the next step is the one the recursive interpreter visits next, with scopes switched to its scope; a run that ends has visited exactly the paths, and started exactly the steps, of the interpreter; Fail ends the run at once |
| `Executor.PipelineExecutor.Finish` | crates/pipeline/src/pipelines/exec/mod.rs:233-268 | after `after_job` on every step every scope is left and the output is the one of the run; the first failing hook replaces it and leaves the scopes as they are |
| `Executor.PipelineExecutor.CallHooks` | crates/pipeline/src/pipelines/exec/mod.rs:233-268 | the outcome is that of calling the hook on prologue, items and epilogue of each pipeline, read off the tree of pipelines together with the tree of scopes, up to the first failure; without one the hook was called on every step |
| `Executor.ListedStepIsUsable` | crates/pipeline/src/pipelines/exec/mod.rs:247-255 | every listed path binds to a navigator at that very step and has a scope, and every step that can run is listed |
| `Executor.OneStepOn` | crates/pipeline/src/pipelines/exec/mod.rs:161-208 | the path alone recovers the navigator, and one transition extends the structured run by one step |
| `StepRuns.SamePipeline` | crates/pipeline/src/pipelines/exec/navi.rs:354-378 | the paths that the recursive interpreter visits lead, one by one, to the steps that it executes when it reads them off the tree without any path |
| `StepRuns.InstanceIsStep` | crates/pipeline/src/pipelines/exec/mod.rs:140-152 | the navigator bound to a path has the step at that path as its instance |
| `StepRuns.HookCallsAt` | crates/pipeline/src/pipelines/exec/mod.rs:247-255 | the listed paths lead, one by one, to the steps and the limits of the hook calls read off the trees |
| `PoolState.QueueHoldsExactlyTheReadyOrders` | crates/pipeline/src/orderpool2/prioritized_pool/mod.rs:75-234 | in every consistent state an order is queued if and only if it is held and each of its required nonces is the recorded one |
| `PoolState.BeginUpdateKeepsInv` | crates/pipeline/src/orderpool2/prioritized_pool/mod.rs:103-159 | after recording new nonces, only the orders listed under a changed account, or waiting for a reported nonce, are in the wrong place |
| `PoolState.OverrideLast` | crates/pipeline/src/orderpool2/prioritized_pool/mod.rs:103-112 | of several reported nonces for one account the last one is recorded |
| `PrioritizedPool.PrioritizedOrderpool.constructor` | crates/pipeline/src/orderpool2/prioritized_pool/mod.rs:53-65 | the empty pool is consistent |
| `PrioritizedPool.PrioritizedOrderpool.PopOrder` | crates/pipeline/src/orderpool2/prioritized_pool/mod.rs:75-83 | a ready order of the highest priority leaves the pool; nothing is popped if and only if nothing is ready |
| `PrioritizedPool.PrioritizedOrderpool.RemovePoppedOrder` | crates/pipeline/src/orderpool2/prioritized_pool/mod.rs:85-101 | the order leaves the lists of all its accounts |
| `PrioritizedPool.PrioritizedOrderpool.UpdateOnchainNonces` | crates/pipeline/src/orderpool2/prioritized_pool/mod.rs:103-159 | the recorded nonces become the reported ones, the pool stays consistent, the nonce source is not asked and no error is returned, no order is new, an order is dropped only if it can never run, or was ready and nothing in it matches any more, and what was ready and uses a changed account is kept only if it is still useful |
| `PrioritizedPool.PrioritizedOrderpool.Nonce` | crates/pipeline/src/orderpool2/prioritized_pool/mod.rs:165-178 | the source is asked once per account |
| `PrioritizedPool.PrioritizedOrderpool.InsertOrder` | crates/pipeline/src/orderpool2/prioritized_pool/mod.rs:180-226 | a new order is held unless one of its required nonces is used up; a known one changes nothing; an error of the source leaves the orders alone |
| `PrioritizedPool.PrioritizedOrderpool.Classify` | crates/pipeline/src/orderpool2/prioritized_pool/mod.rs:189-206 | an order is rejected if and only if it can never run, and otherwise waits for exactly the nonces it is too early for |
| `PrioritizedPool.PrioritizedOrderpool.RemoveOrder` | crates/pipeline/src/orderpool2/prioritized_pool/mod.rs:228-234 | the order is gone and the pool consistent; it is returned only if it was not ready |
| `SimTreeState.CounterIsNumberOfLists` | crates/pipeline/src/orderpool2/sim_tree.rs:79-116 | the counter of a waiting order is the number of lists that name it, and no list belongs to a nonce that is filled |
| `SimTreeState.FillKeyIsSound` | crates/pipeline/src/orderpool2/sim_tree.rs:222-244 | releasing those who wait for a nonce keeps counters and lists exact; the released orders lack nothing, so they are neither invalid nor waiting again |
| `SimTreeState.FilledConserves` | crates/pipeline/src/orderpool2/sim_tree.rs:222-244 | counting down moves orders from waiting to released and loses none |
| `SimTreeState.AddWaitingIsSound` | crates/pipeline/src/orderpool2/sim_tree.rs:79-116 | filing a waiting order keeps counters and lists exact |
| `SimTreeState.BestFillerWins` | crates/pipeline/src/orderpool2/sim_tree.rs:205-221 | the filler of a nonce is never worse than a result that could have filled it, gives way only to a better one, and other nonces keep theirs |
| `SimTree.SimTree.PushOrder` | crates/pipeline/src/orderpool2/sim_tree.rs:79-116 | an accepted order is held: waiting for exactly the nonces it lacks, or ready on top of the fillers |
| `SimTree.SimTree.GetOrderNonceState` | crates/pipeline/src/orderpool2/sim_tree.rs:118-173 | stale, waiting for exactly the missing nonces, or ready with the fillers of its nonces |
| `NonceScan.ScanMeaning` | crates/pipeline/src/orderpool2/sim_tree.rs:118-173 | told by the nonces and the source alone: the first nonce that is used up and required, or for which the source fails, decides; without one, the needed nonces are, for each account of which no earlier listed nonce is the current one, the first listed nonce above the current one |
| `NonceScan.StaleIff` | crates/pipeline/src/orderpool2/sim_tree.rs:134-140 | an order is invalid if and only if some required nonce is below the account's, with no error of the source before it |
| `NonceScan.ParentsMeaning` | crates/pipeline/src/orderpool2/sim_tree.rs:150-158 | for every needed nonce that is filled, the parents hold the orders that its filler was simulated on and right after them the filler |
| `NonceScan.OnlyParents` | crates/pipeline/src/orderpool2/sim_tree.rs:150-158 | and no other orders |
| `SimTree.SimTree.PopSimulationTasks` | crates/pipeline/src/orderpool2/sim_tree.rs:185-191 | the oldest ready requests are handed out, in order, and what is handed out and what is held together stay the same |
| `SimTree.SimTree.ProcessSimulationTaskResult` | crates/pipeline/src/orderpool2/sim_tree.rs:195-263 | no error, no order lost, none of the three branches for bugs taken; the result fills its nonce unless a better one does; every released order is to be simulated on top of the orders that now fill its nonces |
| `SimTree.SimTree.SubmitSimulationTasksResults` | crates/pipeline/src/orderpool2/sim_tree.rs:265-273 | each result in turn does what one result does, parents of released orders included; the known simulations and the fillers are those after all results |
| `Spans.Between` | crates/core/src/payload/span.rs:39-90 | a span exists if and only if one checkpoint is an ancestor of the other, or the same; it is the path between them |
| `Spans.BetweenIsSymmetric` | crates/core/src/payload/span.rs:39-90 | the order of the two checkpoints does not matter |
| `Spans.PathIsLinked` | crates/core/src/payload/span.rs:39-90 | the path is linked, and has as many checkpoints as the depths differ plus one |
| `Spans.LinkedSpanIsPath` | crates/core/src/payload/span.rs:143-155 | there is no other linked span between the two |
| `Spans.FindRoot` | crates/core/src/payload/ext/checkpoint.rs:185-191 | the first checkpoint of the chain |
| `Spans.GetHistory` | crates/core/src/payload/ext/checkpoint.rs:240-243 | the history exists: the expectation that root and checkpoint are related never fails |
| `Spans.HistoryIsPathFromRoot` | crates/core/src/payload/ext/checkpoint.rs:240-243 | the history is the linked path from the root and has depth plus one checkpoints |
| `Spans.SealedAndStagingRebuildHistory` | crates/core/src/payload/ext/checkpoint.rs:71-91 | sealed and staging history overlap in exactly the last barrier and together are the history |
| `Spans.ApplyExtends` | crates/core/src/payload/checkpoint.rs:245-260 | an applied order extends the staging history; a barrier seals everything |
| `Spans.TransactionsConcat` | crates/core/src/payload/ext/span.rs:75-79 | the transactions of two adjoining spans are those of the one and then those of the other |
| `StateReads.AccountReadsAgreeIff` | crates/core/src/payload/checkpoint.rs:390-418 | reading an account gives what merging all changes in order gives, unless the last checkpoint that touches the account deletes it and the parent block or a checkpoint before the deletion has an info of it; then and only then it differs |
| `StateReads.CommitIsBoth` | crates/core/src/payload/exec.rs:207-267 | the changes of two runs, committed one on top of the other, leave the accounts and codes that both leave in turn, and the storage unless one of them deletes an account that both touch |
| `StateReads.StorageReadsAgreeIff` | crates/core/src/payload/checkpoint.rs:445-474 | the same for a slot: it differs if and only if a deletion cleared the slot, nothing has written it since, and the newest write before the deletion, or the parent block if there is none, is not zero |
| `StateReads.FoundIff` | crates/core/src/payload/checkpoint.rs:390-418 | an account is found if and only if the parent block has it or some checkpoint leaves an info |
| `StateReads.CodeReadsAgree` | crates/core/src/payload/checkpoint.rs:421-442 | reading code always agrees with merging |
| `StateReads.ReadsAgreeWithoutDeletions` | crates/core/src/payload/checkpoint.rs:390-474 | on every chain and every fork without deletions, scanning from the newest checkpoint is lookup in the merged world |
| `StateReads.DeletedAccountIsStillRead` | crates/core/src/payload/checkpoint.rs:398-407 | after deleting any existing account its old info is still read |
| `CachedState.CachedStateProvider.BasicAccount` | crates/core/src/payload/ext/cached_state.rs:69-80 | through a coherent cache an account reads as from the provider, and only that entry is added |
| `CachedState.CachedStateProvider.Storage` | crates/core/src/payload/ext/cached_state.rs:95-109 | the same for a slot, up to absent being zero; errors are passed on and not cached |
| `CachedState.CachedStateProvider.BytecodeByHash` | crates/core/src/payload/ext/cached_state.rs:113-124 | the same for code |
| `CachedState.ExecutionCache.GetStorage` | crates/core/src/payload/ext/cached_state.rs:275-280 | tells apart what is not cached, cached as empty, and cached with a value |
| `CachedState.ExecutionCache.InsertState` | crates/core/src/payload/ext/cached_state.rs:335-391 | fails if and only if a modified account that was not destroyed has no info; otherwise updates exactly the changed entries, drops those of destroyed accounts, and turns a cache coherent with the state before into one coherent with the state after |
| `CachedState.KeptStorageIsStaleIff` | crates/core/src/payload/ext/cached_state.rs:352-359 | why a destroyed account loses its slots as well: inserting without that leaves a cache that agrees with the state after if and only if no slot of the account was cached with a value other than zero |
| `BundleExecution.ExecuteBundle` | crates/core/src/payload/exec.rs:195-280 | the loop computes the outcome that the lemmas below explain |
| `BundleExecution.BundleMeaning` | crates/core/src/payload/exec.rs:195-280 | without repeated transactions: fails if and only if the bundle is not eligible or a transaction that is not optional cannot be kept; otherwise exactly the kept transactions remain, results line up with them, and the state is that of running only them |
| `BundleExecution.TurnMeaning` | crates/core/src/payload/exec.rs:207-262 | a transaction that runs, and succeeds or is marked as allowed to fail, has its result and changes taken in; any other is dropped if it is marked so, and else makes the bundle fail |
| `BundleExecution.FailureMeaning` | crates/core/src/payload/exec.rs:238-256 | the error is that of the first transaction that must not be dropped and cannot be kept: reverted if it ran, invalid if not |
| `BundleExecution.EligibleIff` | crates/core/src/platform/bundle/flashbots.rs:213-240 | a block admits exactly the bundles that ask for it, or for none, and whose window it is in |
| `BundleExecution.PermanentStays` | crates/core/src/platform/bundle/flashbots.rs:213-240 | what is permanently ineligible is so at every later block |
| `BundleExecution.AdmittedFromIff` | crates/core/src/platform/bundle/flashbots.rs:213-240 | this or a later block admits a bundle if and only if it is not permanently ineligible and its window is not empty |
| `BundleExecution.SingleMeaning` | crates/core/src/payload/exec.rs:108-132 | a loose transaction is executed whether it succeeds or not, unless it is invalid |
| `BundleExecution.KeptIsWhatRemains` | crates/core/src/payload/exec.rs:207-262 | only optional transactions are missing from a successful bundle |
| `BundleExecution.NeverEmptyIff` | crates/core/src/payload/exec.rs:157-159 | a successful bundle is never empty if and only if one of its transactions is not optional |
| `RepeatedTransactions.ResultsBelongIff` | crates/core/src/payload/exec.rs:195-280 | the results of a successful bundle are those of the transactions that remain, one by one and whatever the transactions do, if and only if the occurrences of each optional hash are consecutive |
| `RepeatedTransactions.RepeatedTransactionShiftsResults` | crates/core/src/payload/exec.rs:195-280 | a bundle with a repeated transaction whose results line up with the wrong ones |
| `BundleExecution.ReducedTransactions` | crates/core/src/platform/bundle/flashbots.rs:115-133 | taking out transactions keeps all others in their order |
| `BundleExecution.ReducedMarks` | crates/core/src/platform/bundle/flashbots.rs:115-133 | the marks of the others stay, those of removed ones go |
| `BundleExecution.ReducedRest` | crates/core/src/platform/bundle/flashbots.rs:115-133 | nothing else about the bundle changes |
| `BundleExecution.Apply` | crates/core/src/payload/checkpoint.rs:186-197 | the new checkpoint records what execution yields on this checkpoint, or the error is passed on |
| `BundleExecution.RecordedTransactions` | crates/core/src/payload/exec.rs:195-280 | what is recorded has no transaction that the order did not have, and repeats none |
| `Extension.ExtensionKeepsSealed` | crates/core/src/payload/ext/checkpoint.rs:71-91 | applying orders keeps the sealed history and adds one staged checkpoint each |
| `Extension.StagedShareSealed` | crates/core/src/payload/ext/checkpoint.rs:71-91 | the last barrier and everything after it have the same sealed history |
| `Extension.StagedAreOrders` | crates/core/src/payload/ext/checkpoint.rs:71-91 | after the last barrier there are only orders, and the payload's transactions are the sealed ones and then theirs |
| `Ordering.SortedOrders.TryFrom` | crates/pipeline/src/steps/ordering/mod.rs:123-163 | the four maps describe the orders of the span, one for each hash; fails only if a score fails |
| `Ordering.SortedOrders.NthOrderByScore` | crates/pipeline/src/steps/ordering/mod.rs:245-258 | the n-th order by descending score and, of equal scores, ascending hash |
| `Ordering.SortedOrders.IsBlocked` | crates/pipeline/src/steps/ordering/mod.rs:192-200 | comparing with the smallest remaining nonces tells if another order uses a lower nonce of one of the signers |
| `Ordering.SortedOrders.PopBest` | crates/pipeline/src/steps/ordering/mod.rs:184-208 | takes the best order that is not blocked, or none if and only if all are |
| `Ordering.SortedOrders.RemoveOrder` | crates/pipeline/src/steps/ordering/mod.rs:210-243 | the four maps describe the orders without this one |
| `Ordering.SortedOrders.IntoIter` | crates/pipeline/src/steps/ordering/mod.rs:172-180 | the greedy order, until all that is left is blocked |
| `Ordering.OrderBy` | crates/pipeline/src/steps/ordering/mod.rs:42-95 | a payload that is reordered has all its staged orders, each once, in greedy order on top of the last barrier, with the same depth and sealed history; it is returned as it is if all are blocked; the assertion fails only on payloads that are not orderable |
| `Ordering.BundleOfOneSignerIsStuck` | crates/pipeline/src/steps/ordering/mod.rs:192-199 | a bundle with two transactions of one signer is never placed, while an unrelated order is |
| `OrderingRules.PlacesAllIff` | crates/pipeline/src/steps/ordering/mod.rs:172-258 | all orders are placed, each once, if and only if no two have the same hash and none has two transactions of one signer |
| `OrderingRules.PlacedNoncesIncrease` | crates/pipeline/src/steps/ordering/mod.rs:184-208 | the nonces of every signer increase along the placed orders, whatever the scores |
| `OrderingRules.SomeIsNotBlocked` | crates/pipeline/src/steps/ordering/mod.rs:184-208 | the earliest remaining order of the payload is never blocked |
| `OrderingRules.BestIsUnique` | crates/pipeline/src/steps/ordering/mod.rs:184-208 | what is popped is determined |
| `OrderingRules.BestHasHighestScore` | crates/pipeline/src/steps/ordering/mod.rs:184-208 | what is popped has the highest score of all that are not blocked, and of equal scores the smallest hash |
| `Multimaps.RankingMeaning` | crates/pipeline/src/steps/ordering/mod.rs:245-258 | reading the sorted map of sorted sets backwards yields every entry once, by score and then hash |
| `RevertRemoval.RemoveReverted` | crates/pipeline/src/steps/revert.rs:60-170 | ends; what it returns has no removable failure and the same sealed history; its staged orders are a subsequence of the staged orders it was given, bundles possibly without some optional transactions; a payload without removable failures is returned as it is |
| `RevertFates.RemovalFates` | crates/pipeline/src/steps/revert.rs:80-170 | every order from the first failure on goes to its fate on top of what is kept before it: a loose transaction stays if and only if it can be applied and succeeds, a bundle if and only if the last of its tries can be applied, and then as that try |
| `RevertFates.CleanOrderStays` | crates/pipeline/src/steps/revert.rs:120-146 | an order that runs without a removable failure stays as it is |
| `RevertFates.AbsentIff` | crates/pipeline/src/steps/revert.rs:84-167 | an order is absent if and only if it cannot be applied, is a loose transaction that fails, or is a bundle of which the last retry cannot be applied |
| `RevertFates.TakenOutForGoodReason` | crates/pipeline/src/steps/revert.rs:110-167 | each hash taken out of a kept bundle is optional, and failed or could not be included in one of the tries, if the occurrences of each optional transaction are consecutive |
| `RevertFates.FaultlessIsBlamed` | crates/pipeline/src/steps/revert.rs:131-160 | otherwise a transaction that has succeeded can be blamed |
| `RevertFates.RemovableFailureIff` | crates/pipeline/src/steps/revert.rs:230-251 | anything that failed of a loose transaction, and anything optional that failed of a bundle, is removable |
| `RevertRemoval.FailedOptionalMeaning` | crates/core/src/payload/ext/checkpoint.rs:320-335 | one hash for each recorded failure of an optional transaction, in order |
| `RevertRemoval.TryBundle` | crates/pipeline/src/steps/revert.rs:110-167 | retries a bundle until it fails or none of its optional transactions does |
| `RevertRemoval.RetryIsSmaller` | crates/pipeline/src/steps/revert.rs:154-160 | each retry has strictly fewer transactions |
| `RevertRemoval.SettleMeaning` | crates/pipeline/src/steps/revert.rs:110-167 | the version that is kept runs without removable failures and lacks only optional transactions |
| `RevertRemoval.TryOrder` | crates/pipeline/src/steps/revert.rs:84-167 | a loose transaction is applied or left out, a bundle is applied as the version it settles on or left out; `RevertFates` says when |
| `RevertRemoval.StrippedMeaning` | crates/pipeline/src/steps/revert.rs:84-169 | the orders that are kept are a subsequence and have no removable failures |
| `AppendOrders.AppendOrders.Step` | crates/pipeline/src/pool/step.rs:169-211 | every order looked at is included exactly if it was never attempted in this job and fits, and the looking ends at the deadline, at a limit or after the last order, and not before; transactions, orders and bundles stay within the caps, the gas of all results recorded in the payload, successful or not, within the limit; the known transactions are those of the payload, which has no duplicates if the orders have none; sealed history unchanged; breaks if and only if nothing was added and the default setting is on |
| `AppendOrders.AppendOrders.LookAtAll` | crates/pipeline/src/pool/step.rs:184-210 | the states of a run are those of looking at the orders one after the other |
| `AppendOrders.ScanKeepsUnderway` | crates/pipeline/src/pool/step.rs:169-211 | any such run keeps counters, caps, limits and freedom from duplicates |
| `AppendOrders.AppendOrders.BeforeJob` | crates/pipeline/src/pool/step.rs:147-157 | a job starts with nothing attempted |
| `AppendOrders.Run.ShouldStop` | crates/pipeline/src/pool/step.rs:265-299 | stops if and only if the deadline has passed or a limit is reached |
| `AppendOrders.Run.SkipOrder` | crates/pipeline/src/pool/step.rs:303-345 | which orders are skipped |
| `AppendOrders.Run.TryInclude` | crates/pipeline/src/pool/step.rs:349-422 | an order is included if and only if it is not skipped, can be applied and its gas fits; otherwise nothing changes |
| `AppendOrders.RepeatWhileAppending` | crates/pipeline/src/pool/step.rs:133-211 | with the default settings a loop around the step is left after at most as many rounds as the pool has distinct order hashes, and no order is applied twice in the job, whatever other steps do to the payload in between, whatever the limits and in whatever order the pool offers its orders |
| `AppendRules.IncludingKeepsLimits` | crates/pipeline/src/pool/step.rs:349-422 | including an order keeps the payload within gas and blob limits |
| `AppendRules.LimitReachedIff` | crates/pipeline/src/pool/step.rs:265-299 | a limit is reached exactly if one more order, transaction or bundle is too much, or less gas is left than the cheapest transaction needs |
| `AppendRules.NotSkippedIff` | crates/pipeline/src/pool/step.rs:303-345 | an order is not skipped exactly if with all its transactions the caps and the blob gas hold and no transaction is in the payload already |
| `AppendRules.FitsIff` | crates/pipeline/src/pool/step.rs:349-404 | an order fits exactly if it is not skipped, can be applied, and the gas of all results together is within the limit |
| `AppendRules.MaxTransactionsIff` | crates/pipeline/src/pool/step.rs:233-236 | within the cap means within the cap of the step and that of the scope |
| `AppendRules.BundlesMeaning` | crates/pipeline/src/pool/step.rs:408-410 | each bundle counts as one, and nothing else counts |
| `AppendRules.BlobGasMeaning` | crates/pipeline/src/pool/step.rs:329-333 | blob gas adds up over transactions |
| `Gas.SumGasMeaning` | crates/core/src/payload/exec.rs:437-439 | gas adds up over results, whether they are successes or not |
| `Gas.GasInIsTotal` | crates/core/src/payload/ext/checkpoint.rs:194-196 | the gas of a payload is that of all results recorded in its history |
| `AppendRules.IncludingAddsNoDuplicate` | crates/pipeline/src/pool/step.rs:320-327 | including an order that is not skipped repeats no transaction |
| `AppendRules.CountedIffUnmixed` | crates/core/src/payload/ext/checkpoint.rs:209-215 | blob gas is counted right if and only if no bundle mixes blob transactions with others |
| `AppendRules.MixedBundleIsNotCounted` | crates/core/src/payload/ext/checkpoint.rs:209-215 | a payload full of blobs that still takes a block's worth of blobs more |
| `PriorityRules.NoncesForMeaning` | crates/pipeline/src/orderpool2/prioritized_pool/step.rs:46-65 | a bundle is filed under the lowest nonce of each of its signers |
| `FiledNonces.FiledAreLeading` | crates/pipeline/src/orderpool2/prioritized_pool/step.rs:46-65 | the filed nonces are exactly those of the transactions that have the lowest nonce of their signer and, of those, come first; each is required exactly if that transaction is |
| `FiledNonces.ReadinessCoversRequiredIff` | crates/pipeline/src/orderpool2/prioritized_pool/step.rs:46-65 | for any bundle: it is ready only when the lowest required nonce of each of its signers is the recorded one, if and only if no optional transaction is filed for a signer that has a required one as well |
| `PriorityRules.ChangedNonces` | crates/core/src/payload/ext/checkpoint.rs:350-377 | exactly the accounts whose nonce changed, each once, with the new nonce |
| `PriorityRules.IsChangedIff` | crates/core/src/payload/ext/checkpoint.rs:350-377 | a nonce has changed if the account had another one before, an account that does not exist having nonce zero |
| `PriorityRules.ExecutionIsHonest` | crates/core/src/payload/exec.rs:195-280 | if single transactions report accounts as they found them, whole orders do |
| `PriorityRules.CoherentAfterIff` | crates/pipeline/src/orderpool2/prioritized_pool/step.rs:224-235 | after apply and update the cached nonces agree with the payload if and only if no account that has used a nonce was deleted |
| `PriorityStep.Step` | crates/pipeline/src/orderpool2/prioritized_pool/step.rs:207-239 | from any consistent pool, however old its nonces: ends when nothing in the copied pool is ready; starts with the best ready order of the shared pool and pops none twice; every popped order was the best ready one then, and is included exactly if it can be applied; only the popped order leaves the copied pool, and what the update after an applied order drops for a reason; pending orders, and no others, are filed in the shared pool, which loses none and only learns nonces it did not have; sealed history unchanged. If execution is honest, the pool agreed with the payload at the start and no nonce was lost, every popped order was filed under nonces whose required ones were those of the payload |
| `PriorityStep.Round` | crates/pipeline/src/orderpool2/prioritized_pool/step.rs:224-237 | one round takes an order out for good and keeps all of this |
| `OrdersTried.NoneLost` | crates/pipeline/src/orderpool2/prioritized_pool/step.rs:219-237 | every order of the copied pool is left at the end, or was tried, or was dropped after an applied order because a required nonce of it was used up, or because it had been ready, one of its accounts changed and none of its nonces is the recorded one any more |
| `OrdersTried.ReadyIsTried` | crates/pipeline/src/orderpool2/prioritized_pool/step.rs:219-237 | an order that is ready in the copied pool is always tried if no applied order changes the nonce of an account that it uses |
| `StalePool.StillCoherentIff` | crates/pipeline/src/orderpool2/prioritized_pool/step.rs:219-235 | a shared pool that agreed with the payload before a call agrees with the payload after it if and only if the newest nonce that the applied orders have left for each cached account is the cached one |
| `StalePool.JudgesRightIff` | crates/pipeline/src/orderpool2/prioritized_pool/step.rs:219-235 | the pool takes exactly those orders for ready that require the nonces of the payload if and only if its nonces are those of the payload |
| `StalePool.OldNonceMisleads` | crates/pipeline/src/orderpool2/prioritized_pool/step.rs:219-235 | one old nonce, and an order is popped in vain while another one is stuck |
| `StalePool.CalledTwice` | crates/pipeline/src/orderpool2/prioritized_pool/step.rs:207-239 | in two calls with no new order in between, the second one first pops the order that the first one popped first, if that was the only best one, whatever became of it |
| `Sequencer.Prologue` | crates/pipeline/src/steps/optimism.rs:12-83 | either fails, or the payload holds exactly the sequencer's transactions, sealed, and every prefix of them was within the gas and data limits; fails if the payload was not empty, if a transaction cannot be applied or if a prefix exceeds a limit (for an execution that does not depend on how checkpoints are named), and for no other reason |
| `Sequencer.ExtractExternal` | crates/core/src/platform/optimism/mod.rs:169-201 | drops as many leading transactions as sequencer transactions are in place; what remains is the payload without the sequencer's transactions exactly under the condition below |
| `Sequencer.ExtractionIsExactIff` | crates/core/src/platform/optimism/mod.rs:153-201 | what is extracted is the payload without the sequencer's transactions if and only if, for some k, the payload starts with the first k of them and has none of them after that |
| `Sequencer.MismatchLosesTransaction` | crates/core/src/platform/optimism/mod.rs:186-194 | a payload from which the wrong transaction is dropped |
| `Sequencer.BlockIsPayload` | crates/core/src/platform/optimism/mod.rs:169-201 | after the prologue and any run of steps that keep the sealed history, the sequencer's transactions followed by the extracted ones are the payload |
| `NonceOrder.StagedNoncesRise` | crates/pipeline/src/steps/ordering/mod.rs:184-208 | if execution enforces the nonces of all but deposits, the nonces of every signer rise along the staged part of any payload built of orders without deposits and without a transaction twice, and all are used up; the ordering relies on it |
| `BlockBuilding.BuildBlock` | crates/core/src/platform/optimism/mod.rs:169-201 | prologue, then any sequence of appending, ordering, revert removal and appending by priority, each call doing what its step is for, then extraction: the sequencer's transactions followed by the extracted ones are the payload, the extracted ones with nonces that rise for each signer; unless ordering is among the steps, nothing but the prologue can fail |

## Left out

- BundleExecution.ExecuteBundle: does not model the validation of a bundle after execution, which never fails for this bundle type.
- CachedState.CachedStateProvider.Storage: does not distinguish an absent slot from one that holds zero, because inserting changes stores zeros.
- Scopes.BuildScope: does not model limits extensions or the fraction and cap combinators; factories are arbitrary functions.
- Executor.PipelineExecutor.AdvanceCursor: models transitions of the cursor, not polling, wakers or the futures of steps.
- Ordering.SortedOrders.TryFrom: visits orders in any order, as a hash map does, so which of several score errors is returned is left open.
- SimTree.SimTree.ProcessSimulationTaskResult: takes the nonce source as unchanging, as the bug branches of the original presuppose.
- BlockBuilding.BuildBlock: takes a step that breaks like one that goes on, because which step comes next is up to the pipeline; orders hold no deposits and repeat no transaction.
- PriorityStep.NonceSource: reading a nonce from the payload never fails here; the original swallows a provider error and does not file the order.
- AppendOrders.AppendOrders.Step: gets the orders of the pool as any finite sequence; how the pool selects them is not modelled.
- Orders whose signature cannot be recovered: an order already holds recovered transactions, so that error cannot occur.
- The EVM, the merging of state inside it, signatures, encodings and the computation of hashes.
- Block assembly by the node, the builder epilogue, payload jobs, services, RPC and the host pool.
- Concurrent use of the pools, the attempted set and the caches: histories are sequential.
- Real clocks: a step is told when its deadline has passed, and limits keep deadlines as plain numbers.
- Metrics, events, names and formatting.
- Integer overflow of gas and nonces, which are unbounded here.
- The effective gas price of a bundle, and the scores by tip and by profit.
- The combinators `Atomic` and `Chain`, and the utility methods of spans that only slice or sum.
