# Governance model of the manufacturing AI cost platform

This project models the decision-making core of the backend (`manufacturing-ai-cost-platform/backend/app`)
in Dafny and proves what that core is meant to guarantee. `dafny verify dfyconfig.toml` checks all of it.

| file | models |
|---|---|
| `PolicyLifecycle.dfy`, `PolicyStack.dfy`, `PolicyRuns.dfy` | routing-policy approval, activation and rollback; the stack of live versions it implements; whole runs |
| `PolicyNesting.dfy`, `PolicyRetirement.dfy`, `PolicyRecovery.dfy` | nested runs that undo themselves; whether a rolled-back version stays out; whether an applied one can be rolled back |
| `ModelRegistry.dfy`, `ModelSelection.dfy`, `ModelFallback.dfy` | registry queries, the per-capability merge, model choice and pinning; the fallback |
| `RateLimit.dfy` | the sliding-window limiter |
| `Principals.dfy`, `Identity.dfy`, `Scope.dfy` | roles, permissions, principals from claims, scope resolution, and the SQL predicate under three-valued logic |
| `BudgetPolicy.dfy`, `Calendar.dfy`, `CostAggregation.dfy`, `BudgetService.dfy` | budget decisions, calendar windows, spend aggregation, and evaluation end to end |
| `CostEngine.dfy`, `LeastSquares.dfy`, `Forecast.dfy`, `MonthProjection.dfy` | provenance and rounding; least squares; the forecast and its band; when its month-end projection covers the month |
| `Classification.dfy`, `ContextGuard.dfy`, `ExecutionBudget.dfy` | payload measurement, context admission and consumable limits |
| `Ordering.dfy`, `Wrappers.dfy` | stable sorting, permutations, text order, `Option` and `Result` |

Code that changes state in place is a class or a loop proved against a specification function; the
theorems are then about that function. Tables are sequences of rows, money is exact `real`, instants
are microseconds since the start of year 1, and clocks and identities arrive as parameters.

## Where the code and its stated intent differ

The model follows the code. Each point is a theorem: the exact condition where there is one, and a lemma at an input that shows it.

- A rollback of a version that a later apply has superseded revives its predecessor beside the newer
  live row (`PolicyRuns.OutOfOrderRollbackBreaksLookup`). Uniqueness survives exactly when the rolled-back
  row is live or had no predecessor (`PolicyStack.RollbackKeepsUniquenessExactlyWhen`).
- A rolled-back version can serve again: rolling back a buried first version and then the one above it revives
  it (`PolicyRetirement.RolledBackVersionServesAgain`), although one live row per key is kept throughout. It can
  then not be rolled back any more (`PolicyRecovery.RevivedVersionIsStuck`).
- The orchestrator's lookup reads ACTIVE rows only, so a CANARY on top of the stack is invisible to it
  (`PolicyStack.LookupFindsTop`, at an input `PolicyRuns.CanaryIsInvisible`), and a superseded CANARY returns
  from a rollback as ACTIVE (`PolicyNesting.CanaryComesBackActive`).
- The approve route is for pending recommendations, but a decision never looks at the current status
  (`PolicyRecovery.DecisionIgnoresStatus`). Approving or rejecting an applied recommendation again leaves its
  version live and takes its rollback away (`PolicyRecovery.ReapprovalForfeitsRollback`,
  `PolicyRecovery.RejectionLeavesVersionLive`), exactly when `PolicyRecovery.DecisionForfeitsExactlyWhen` says.
- `auto_approve_override` bypasses the configured setting for low risk (`PolicyRecovery.OverrideNeedsNobody`).
- "An unmeasured model is never preferred over a measured one" holds neither under downgrade, where a cheaper
  unmeasured model wins over any score (`ModelSelection.DowngradePrefersUnmeasured`), nor for a measured score
  of zero, which ties with an unknown one. `ModelSelection.MeasuredPickExactlyWhen` says when it does.
- The fallback queries the registry again without the policy's floor and pin, so it can relax the requirements
  it is documented to keep (`ModelFallback.FallbackRelaxesFloor`, `ModelFallback.FallbackIgnoresPin`). When it
  meets the floor and when it is the plan's next choice are `ModelFallback.FallbackMeetsFloorExactlyWhen` and
  `ModelFallback.FallbackIsRunnerUpExactlyWhen`.
- A pinned model is looked for only among the first fifty suitable ones by name
  (`ModelSelection.PinIsHonouredExactlyWhen`, at an input `ModelSelection.PinBehindFiftyIsLost`).
- `from_record` reads an empty ownership column as absent while the SQL filter compares it as text. A request
  with an empty `plant_id` or `department_id` is where the two part company
  (`Scope.RequestedFilterMatchesExactlyWhen`, at an input `Scope.EmptyPlantFilterMisreads`).
- The projected-breach rule overwrites the mapped outcome, so a custom policy that treats EXCEEDED more
  leniently than REQUIRE_APPROVAL loosens as its budget fills (`BudgetPolicy.NeverLooserExactlyWhen`, at an
  input `BudgetPolicy.LenientPolicyLoosens`).
- An ENTERPRISE budget filed under an id other than the tenant's accumulates spend but never gates a request
  (`BudgetService.GatesExactlyWhenSpendCounts`, at an input `BudgetService.EnterpriseBudgetNeverGates`).
- No window can be computed for a period that contains 9999-12-31 (`Calendar.WindowFailsExactlyWhen`, at an
  input `Calendar.LastDayHasNoWindow`).
- The classifier makes one image MEDIUM but several, still below an image threshold above two, SIMPLE again
  (`Classification.ClassDropsExactlyWhen`, at an input `Classification.SecondImageLowers`).
- Paths reported with untrusted text are not unique (`Classification.LabelsCollide`).
- The month-end projection leaves out the days left beyond a short horizon (`MonthProjection.WeekLeavesDaysOut`)
  and counts days twice when the forecast starts on or before the current one
  (`MonthProjection.TodayCountsTwice`). `MonthProjection.CoversMonthExactlyWhen` says when it is the whole month.
- The fitted line depends on arrival order when one date has two different figures
  (`Forecast.LineOrderIndependentExactlyWhen`, at an input `Forecast.TwoFiguresOfOneDate`).
- The context guard's too-large refusal cannot occur for a nonnegative ceiling
  (`ContextGuard.TooLargeExactlyWhen`, otherwise `ContextGuard.NothingIsTooLarge`).
- `weakest()` of no values is UNAVAILABLE, so it is a lattice meet only on nonempty inputs
  (`CostEngine.CombiningExactlyWhen`, at an input `CostEngine.EmptyPartIsUnavailable`).

## Model

| member | source | states |
|---|---|---|
| `PolicyLifecycle.PolicyLifecycleService.ApproveRecommendation` | manufacturing-ai-cost-platform/backend/app/services/policy_lifecycle.py:93-161 | the decision table of an approval: unknown id, missing or unprivileged principal unless low-risk auto-approval (setting or override), otherwise APPROVED with its decider or REJECTED with the reason appended; a refusal changes nothing; the current status is not looked at |
| `PolicyLifecycle.PolicyLifecycleService.ApplyPolicy` | manufacturing-ai-cost-platform/backend/app/services/policy_lifecycle.py:204-312 | in-place apply equals the transition `Apply`: only an APPROVED and valid recommendation, the newest live row of the key is superseded, one row is appended, both ids are stored; errors leave both tables as they were |
| `PolicyLifecycle.PolicyLifecycleService.RollbackPolicy` | manufacturing-ai-cost-platform/backend/app/services/policy_lifecycle.py:316-363 | in-place rollback equals the transition `Rollback`: applied row ROLLED_BACK, superseded row ACTIVE if it exists, recommendation closed; the returned row is the reactivated one; errors change nothing |
| `PolicyLifecycle.PolicyLifecycleService.GetActivePolicy` | manufacturing-ai-cost-platform/backend/app/repositories/routing_policy_repository.py:81-109 | the scan finds the live (ACTIVE or CANARY) row of the key with the highest version |
| `PolicyLifecycle.LiveBest` | manufacturing-ai-cost-platform/backend/app/repositories/routing_policy_repository.py:81-109 | result is live at the key, and no live row of the key has a higher version (none exists when there is no result) |
| `PolicyLifecycle.PolicyLifecycleService.GetLatestVersionNumber` | manufacturing-ai-cost-platform/backend/app/repositories/routing_policy_repository.py:111-124 | the scan computes the highest version of the tenant and workload type, over every complexity and status, or 0 |
| `PolicyLifecycle.LatestVersion` | manufacturing-ai-cost-platform/backend/app/repositories/routing_policy_repository.py:111-124 | a version that occurs in the family and that no member of the family exceeds |
| `PolicyLifecycle.GetActive` | manufacturing-ai-cost-platform/backend/app/repositories/routing_policy_repository.py:22-44 | no row, one row or several: the single-row lookup for ACTIVE status, several being the error case |
| `PolicyLifecycle.PolicyLifecycleService.SetStatus` | manufacturing-ai-cost-platform/backend/app/repositories/routing_policy_repository.py:126-133 | only the status of the one existing row changes, and that row is returned; an unknown id changes nothing and returns none |
| `PolicyLifecycle.DecidedExactlyWhen` | manufacturing-ai-cost-platform/backend/app/services/policy_lifecycle.py:93-161 | a decision is accepted exactly when the recommendation exists and either auto-approval is on and its risk is LOW or the principal holds FINOPS_MANAGER or ADMIN; what it records, approval and rejection apart, with each error's exact condition |
| `PolicyLifecycle.AppliedExactlyWhen` | manufacturing-ai-cost-platform/backend/app/services/policy_lifecycle.py:204-312 | an apply is accepted exactly for an existing APPROVED recommendation with a nonempty strategy and a known nonnegative saving; the row it adds, column by column: key from the catalogue, next version of tenant and workload type, status, canary share, reason, creator, approver; which row it supersedes and what it stores |
| `PolicyLifecycle.RolledBackExactlyWhen` | manufacturing-ai-cost-platform/backend/app/services/policy_lifecycle.py:316-363 | a rollback is accepted exactly for an existing APPLIED recommendation; it makes the stored superseded row ACTIVE and the stored applied row ROLLED_BACK, closes the recommendation and touches nothing else |
| `PolicyStack.InitialInv` | manufacturing-ai-cost-platform/backend/app/repositories/routing_policy_repository.py:22-109 | tables with no applied recommendation and at most one live row per key satisfy the stack invariant |
| `PolicyStack.InvImpliesAtMostOneLive` | manufacturing-ai-cost-platform/backend/app/repositories/routing_policy_repository.py:81-109 | the invariant gives at most one ACTIVE or CANARY row per routing key |
| `PolicyStack.PredecessorIsTop` | manufacturing-ai-cost-platform/backend/app/repositories/routing_policy_repository.py:81-109 | `get_active_policy` finds exactly the top of the key's stack, and nothing when the stack is empty |
| `PolicyStack.LookupFindsTop` | manufacturing-ai-cost-platform/backend/app/repositories/routing_policy_repository.py:22-44 | `get_active` never sees two rows; it returns the stack top when that is ACTIVE, and nothing when it is a CANARY |
| `PolicyStack.ApplyPushes` | manufacturing-ai-cost-platform/backend/app/services/policy_lifecycle.py:242-310 | a successful apply pushes its row on the stack of its target key and keeps the invariant for every key |
| `PolicyStack.RollbackPops` | manufacturing-ai-cost-platform/backend/app/services/policy_lifecycle.py:335-351 | rolling back the live row pops the stack and revives the row below, which the stored ids name |
| `PolicyStack.RollbackOfBuriedBottom` | manufacturing-ai-cost-platform/backend/app/services/policy_lifecycle.py:335-351 | rolling back a buried row that superseded nothing leaves every stack as it is |
| `PolicyStack.RollbackKeepsUniquenessExactlyWhen` | manufacturing-ai-cost-platform/backend/app/services/policy_lifecycle.py:335-351 | from any state of the invariant, a rollback keeps one live row per key if and only if the applied row is live or the recommendation superseded nothing |
| `PolicyRuns.StepRefines` | manufacturing-ai-cost-platform/backend/app/services/policy_lifecycle.py:93-363 | each proposal, decision, apply and safe rollback of the tables is a push, a pop or no move of the per-key stacks |
| `PolicyRuns.RunRefines` | manufacturing-ai-cost-platform/backend/app/services/policy_lifecycle.py:93-363 | whole runs with safe rollbacks refine a stack per key; at every point there is at most one live row per key |
| `PolicyRuns.OutOfOrderRollbackBreaksLookup` | manufacturing-ai-cost-platform/backend/app/services/policy_lifecycle.py:335-351 | a concrete run (apply A, apply B, roll back A) after which the single-row lookup sees two rows |
| `PolicyRuns.CanaryIsInvisible` | manufacturing-ai-cost-platform/backend/app/repositories/routing_policy_repository.py:22-44 | a concrete canary activation after which the lookup finds no version although one is live |
| `PolicyRuns.StepPreservesHistory` | manufacturing-ai-cost-platform/backend/app/services/policy_lifecycle.py:257-300 | one step adds at most one row, changes nothing but statuses of the old ones, and a new version exceeds the family's versions |
| `PolicyRuns.HistoryIsImmutable` | manufacturing-ai-cost-platform/backend/app/services/policy_lifecycle.py:257-300 | over any run at all no row is deleted or altered except in status, and each new version exceeds every version ever present for its tenant and workload type |
| `PolicyRuns.StepTouchesOneKey` | manufacturing-ai-cost-platform/backend/app/services/policy_lifecycle.py:242-351 | a step leaves every row of other routing keys exactly as it was |
| `PolicyRuns.OtherKeysUntouched` | manufacturing-ai-cost-platform/backend/app/services/policy_lifecycle.py:242-351 | rows of a key that no step of a run targets are unchanged at the end |
| `PolicyNesting.NestedRunRestores` | manufacturing-ai-cost-platform/backend/app/services/policy_lifecycle.py:242-363 | every properly nested run of accepted applies and their rollbacks, of any keys and from any state, restores every original row; a superseded CANARY comes back ACTIVE; the new rows stay as ROLLED_BACK; other recommendations are untouched |
| `PolicyNesting.UndoingInReverseRestores` | manufacturing-ai-cost-platform/backend/app/services/policy_lifecycle.py:242-363 | in particular n applies rolled back in reverse order |
| `PolicyNesting.CanaryComesBackActive` | manufacturing-ai-cost-platform/backend/app/services/policy_lifecycle.py:345-349 | a concrete canary that returns as ACTIVE |
| `PolicyRuns.ApprovedHasStandingApproval` | manufacturing-ai-cost-platform/backend/app/services/policy_lifecycle.py:93-161 | from a start with nothing approved, an APPROVED recommendation has an approving step that is its latest settled step, by the recorded approver |
| `PolicyRetirement.RollbackRevivesExactlyWhen` | manufacturing-ai-cost-platform/backend/app/services/policy_lifecycle.py:335-351 | a rollback brings a ROLLED_BACK row back into service exactly when the recommendation's superseded row is ROLLED_BACK |
| `PolicyRetirement.RolledBackStays` | manufacturing-ai-cost-platform/backend/app/services/policy_lifecycle.py:335-351 | in every run whose accepted rollbacks all target a live row, a row that is ROLLED_BACK at any point stays so |
| `PolicyRetirement.InitialNoneRetired` | manufacturing-ai-cost-platform/backend/app/services/policy_lifecycle.py:335-351 | every table with unique live rows and nothing applied can start such a run |
| `PolicyRetirement.RolledBackVersionServesAgain` | manufacturing-ai-cost-platform/backend/app/services/policy_lifecycle.py:335-351 | a concrete run of rollbacks that each keep one live row per key, after which a rolled-back version is ACTIVE |
| `PolicyRuns.EveryPolicyWasApproved` | manufacturing-ai-cost-platform/backend/app/services/policy_lifecycle.py:214-312 | each row a run adds comes from an apply under a standing approval, by a principal whose roles include FINOPS_MANAGER or ADMIN, or by auto-approval at LOW risk; its `approved_by` is that principal's subject, or the system |
| `PolicyRecovery.DecisionIgnoresStatus` | manufacturing-ai-cost-platform/backend/app/services/policy_lifecycle.py:93-142 | a decision has the same outcome whatever status the recommendation had |
| `PolicyRecovery.StepLosesExactlyWhen` | manufacturing-ai-cost-platform/backend/app/services/policy_lifecycle.py:93-363 | a row that an applied recommendation records stops being recoverable exactly by an accepted decision on, or rollback of, that recommendation |
| `PolicyRecovery.DecisionForfeitsExactlyWhen` | manufacturing-ai-cost-platform/backend/app/services/policy_lifecycle.py:93-142 | from any state of the stack invariant, a decision takes a row's rollback away exactly when it is accepted on the applied recommendation that records the row |
| `PolicyRecovery.RecoverableExactlyWhen` | manufacturing-ai-cost-platform/backend/app/services/policy_lifecycle.py:93-363 | in any run, a row the run added is recoverable at the end exactly when no step accepted a decision on, or a rollback of, the recommendation that records it |
| `PolicyRecovery.RecoverableUnlessRetired` | manufacturing-ai-cost-platform/backend/app/services/policy_lifecycle.py:93-363 | as long as no decision is accepted on an applied recommendation, an added row is recoverable exactly when it was never rolled back |
| `PolicyRecovery.LiveRowsAreRecoverable` | manufacturing-ai-cost-platform/backend/app/services/policy_lifecycle.py:93-363 | if besides every accepted rollback is of a live row, every live row the run added can be rolled back |
| `PolicyRecovery.RevivedVersionIsStuck` | manufacturing-ai-cost-platform/backend/app/services/policy_lifecycle.py:335-351 | a concrete run that keeps one live row per key, decides nothing, and ends with a live row that no rollback reaches |
| `PolicyRecovery.ReapprovalForfeitsRollback` | manufacturing-ai-cost-platform/backend/app/api/v1/routes/optimization.py:176-218 | approving an applied recommendation again is accepted, and its rollback is then refused while its row stays live |
| `PolicyRecovery.RejectionLeavesVersionLive` | manufacturing-ai-cost-platform/backend/app/api/v1/routes/optimization.py:176-218 | rejecting an applied recommendation leaves its row live and beyond rollback |
| `PolicyRecovery.ReapplicationOverwritesIds` | manufacturing-ai-cost-platform/backend/app/services/policy_lifecycle.py:296-300 | applied a second time, the recommendation records the new row over its first one |
| `PolicyRecovery.OverrideNeedsNobody` | manufacturing-ai-cost-platform/backend/app/services/policy_lifecycle.py:107-114 | a low-risk recommendation is approved without a principal when the call asks for it, and refused otherwise |
| `ModelRegistry.PagesTile` | manufacturing-ai-cost-platform/backend/app/repositories/model_repository.py:63-83 | consecutive pages of a query concatenate to the one long page: nothing is repeated or skipped |
| `ModelRegistry.PagingDoesNotFilter` | manufacturing-ai-cost-platform/backend/app/repositories/model_repository.py:63-83 | which rows match a query does not depend on limit and offset |
| `ModelRegistry.FindModelsForWorkload` | manufacturing-ai-cost-platform/backend/app/services/model_registry.py:172-211 | per-capability name-ordered queries of at most `limit` rows, merged by id, re-sorted and truncated, return exactly the first `limit` rows by name of all suitable rows, for any registry and limit |
| `ModelRegistry.PageKeepsOverallFirst` | manufacturing-ai-cost-platform/backend/app/services/model_registry.py:187-211 | a row of the overall first `limit` is on the page of its own capability, so the early cut loses nothing |
| `ModelRegistry.PartHasSameFirstK` | manufacturing-ai-cost-platform/backend/app/services/model_registry.py:209-211 | a subset that holds the first k rows of a set has the same first k |
| `ModelRegistry.PagesAreSuitable` | manufacturing-ai-cost-platform/backend/app/repositories/model_repository.py:99-138 | every row on a capability page satisfies `is_compatible` and the numeric thresholds |
| `ModelRegistry.SuitableRows` | manufacturing-ai-cost-platform/backend/app/services/model_registry.py:213-228 | the one-pass reference: exactly the rows that `is_compatible` accepts and that meet the thresholds |
| `ModelRegistry.MergePage` | manufacturing-ai-cost-platform/backend/app/services/model_registry.py:187-208 | merging a page into the dictionary keyed by id keeps exactly the union, without duplicates |
| `ModelRegistry.Put` | manufacturing-ai-cost-platform/backend/app/services/model_registry.py:206-208 | a dictionary assignment keyed by id adds the row or leaves the set unchanged |
| `ModelRegistry.CompatibleExactlyWhen` | manufacturing-ai-cost-platform/backend/app/services/model_registry.py:74-85 | which enabled models serve which workload: quality checks need a vision or multimodal model known to support vision, the other two known workloads a reasoning or text model, any other workload none; and the modality asked for |
| `ModelRegistry.FoundExactlyWhen` | manufacturing-ai-cost-platform/backend/app/services/model_registry.py:172-228 | a model is found exactly when it serves the workload, meets each threshold that is set by a known value, and fewer such models than the limit come before it by name |
| `ModelRegistry.ListedExactly` | manufacturing-ai-cost-platform/backend/app/repositories/model_repository.py:63-138 | a listing is the rows that meet each criterion set, on its own column, in order of names, from the offset on, at most as many as the limit, with the count of them all |
| `ModelSelection.SelectionIsLeast` | manufacturing-ai-cost-platform/backend/app/orchestrator/orchestrator.py:605-634 | the selected model is a candidate and least under the four-part key with the name last |
| `ModelSelection.SelectionOrderIndependent` | manufacturing-ai-cost-platform/backend/app/orchestrator/orchestrator.py:605-634 | with distinct names the selection is the same for every order of the candidates |
| `ModelSelection.DowngradePicksCheapest` | manufacturing-ai-cost-platform/backend/app/orchestrator/orchestrator.py:605-634 | under downgrade the pick is unpriced only if every candidate is, and no candidate is cheaper |
| `ModelSelection.NothingBeatsThePick` | manufacturing-ai-cost-platform/backend/app/orchestrator/orchestrator.py:605-634 | otherwise no candidate beats the pick on quality, then known cost, then latency |
| `ModelSelection.PickedExactlyWhen` | manufacturing-ai-cost-platform/backend/app/orchestrator/orchestrator.py:605-634 | a candidate is picked exactly when it precedes every other: under downgrade by price, score, latency, name, and otherwise by score, price, latency, name, told from the metadata with the unknown last |
| `ModelSelection.MeasuredPickExactlyWhen` | manufacturing-ai-cost-platform/backend/app/orchestrator/orchestrator.py:605-634 | for any candidates, the pick is measured exactly when, normally, some measured score is positive or a zero-scored measured model precedes every unmeasured one by price, latency and name; and under downgrade, a measured model precedes every unmeasured one by price, then score, latency and name |
| `ModelSelection.UnmeasuredNeverPreferredExactlyWhen` | manufacturing-ai-cost-platform/backend/app/orchestrator/orchestrator.py:605-634 | as a promise over all lists it holds exactly in the normal ordering with measured scores bounded above zero |
| `ModelSelection.DowngradePrefersUnmeasured` | manufacturing-ai-cost-platform/backend/app/orchestrator/orchestrator.py:605-634 | under downgrade a cheaper unmeasured model is picked over a measured one of any score |
| `ModelSelection.PickHasExactlyWhen` | manufacturing-ai-cost-platform/backend/app/orchestrator/orchestrator.py:605-634 | the pick has a property exactly when a candidate with it precedes every candidate without it |
| `ModelSelection.BestWithout` | manufacturing-ai-cost-platform/backend/app/orchestrator/orchestrator.py:644-652 | the best of a list without one model is the first of its ranking that is not that model |
| `ModelFallback.FallbackExactlyWhen` | manufacturing-ai-cost-platform/backend/app/orchestrator/orchestrator.py:605-652 | for any registry, the fallback is the enabled model for the workload other than the failed one, among the first fifty by name, that precedes all such by the ordering in force, told from the metadata; there is none exactly when there is no such model |
| `ModelFallback.FallbackIsBestOfRest` | manufacturing-ai-cost-platform/backend/app/orchestrator/orchestrator.py:636-652 | the fallback is the first of the ranking of everything found for the workload, without floor or pin, that is not the failed model |
| `ModelFallback.FallbackMeetsFloorExactlyWhen` | manufacturing-ai-cost-platform/backend/app/orchestrator/orchestrator.py:636-652 | the fallback meets the policy's quality floor exactly when a remaining model that does precedes, in the ordering used, every one that does not, told in prices, scores, latencies and names |
| `ModelFallback.FallbackKeepsPositiveFloor` | manufacturing-ai-cost-platform/backend/app/orchestrator/orchestrator.py:636-652 | in the normal ordering, with no floor or a positive one, it meets the floor exactly when any remaining model does |
| `ModelFallback.FallbackIsRunnerUpExactlyWhen` | manufacturing-ai-cost-platform/backend/app/orchestrator/orchestrator.py:576-652 | without a pin the fallback is the plan's own runner-up exactly when no other model is left, or a remaining model at the floor leads those below it and fewer than fifty compatible models precede the runner-up by name |
| `ModelFallback.PinnedFallbackExactlyWhen` | manufacturing-ai-cost-platform/backend/app/orchestrator/orchestrator.py:576-652 | with a pin the plan has no runner-up, and there is a fallback exactly when another compatible model is found |
| `ModelFallback.FallbackRelaxesFloor` | manufacturing-ai-cost-platform/backend/app/orchestrator/orchestrator.py:636-652 | a concrete registry where, under a floor of 0.9, the fallback scores 0.1 although another model meets the floor |
| `ModelFallback.FallbackIgnoresPin` | manufacturing-ai-cost-platform/backend/app/orchestrator/orchestrator.py:636-652 | a concrete registry where a pinned model that fails is replaced by one the policy never named |
| `ModelSelection.PinIsHonouredExactlyWhen` | manufacturing-ai-cost-platform/backend/app/orchestrator/orchestrator.py:576-603 | a pinned model is the sole candidate exactly when it is suitable and fewer than fifty suitable models precede it by name; otherwise there is no candidate |
| `ModelSelection.EmptyPinIsNoPin` | manufacturing-ai-cost-platform/backend/app/orchestrator/orchestrator.py:576-603 | no pin, or an empty one, leaves the first fifty as they are found |
| `ModelSelection.PinBehindFiftyIsLost` | manufacturing-ai-cost-platform/backend/app/orchestrator/orchestrator.py:576-603 | a concrete registry of fifty-one suitable models whose last one cannot be pinned |
| `RateLimit.InMemoryRateLimiter.Check` | manufacturing-ai-cost-platform/backend/app/core/rate_limit.py:75-99 | the pruned deque decides as the complete admission history would, with exact `remaining`; a refusal's retry time is exact in both directions; other keys are unaffected |
| `RateLimit.InMemoryRateLimiter.Prune` | manufacturing-ai-cost-platform/backend/app/core/rate_limit.py:80-82 | the while loop drops exactly the leading timestamps at or before the cutoff |
| `RateLimit.InMemoryRateLimiter.NeverOverfull` | manufacturing-ai-cost-platform/backend/app/core/rate_limit.py:75-99 | in every reachable state no window-long interval holds more than `max_requests` admissions of a key |
| `RateLimit.NoIntervalOverfull` | manufacturing-ai-cost-platform/backend/app/core/rate_limit.py:75-99 | admissions spaced as the limiter spaces them never overfill any half-open window |
| `RateLimit.LoadExactly` | manufacturing-ai-cost-platform/backend/app/core/rate_limit.py:75-99 | the load is the number of admissions after the start of the window, up to and including now |
| `RateLimit.RetryTimeIsExact` | manufacturing-ai-cost-platform/backend/app/core/rate_limit.py:84-93 | every retry before the oldest counted admission leaves the window is refused, and one at that moment is admitted |
| `RateLimit.InMemoryRateLimiter.Reset` | manufacturing-ai-cost-platform/backend/app/core/rate_limit.py:101-106 | clears the history of one key, or of all keys, and of no other |
| `Principals.PermissionsFor` | manufacturing-ai-cost-platform/backend/app/security/permissions.py:168-178 | the accumulating loop returns the union of what the given roles grant |
| `Principals.HoldingMeansGranting` | manufacturing-ai-cost-platform/backend/app/security/permissions.py:188-212 | the endpoint check, which looks in the union over all roles held, succeeds exactly when some assignment grants the permission by its own role |
| `Principals.GrantedExactlyWhen` | manufacturing-ai-cost-platform/backend/app/security/permissions.py:107-165 | for each permission, the roles that grant it, role by role |
| `Principals.DutiesAreSeparated` | manufacturing-ai-cost-platform/backend/app/security/permissions.py:107-165 | who may both approve an optimization and apply it is an ADMIN or holds FINOPS_MANAGER and AI_ENGINEER at once |
| `Identity.ToPrincipal` | manufacturing-ai-cost-platform/backend/app/security/identity.py:64-112 | no tenant claim is refused; plain roles are held over the tenant; incomplete entries grant nothing |
| `Identity.MappedExactlyWhen` | manufacturing-ai-cost-platform/backend/app/security/identity.py:64-112 | claims can produce exactly the principals with a tenant and a scope id in every assignment |
| `Identity.AssignedExactlyWhen` | manufacturing-ai-cost-platform/backend/app/security/identity.py:64-112 | an accepted principal has exactly the assignments of its plain roles, over the tenant, and of its complete scoped entries, and the tenant of its claims |
| `Scope.ResolveAuthorizedScope` | manufacturing-ai-cost-platform/backend/app/security/scope.py:215-298 | the branch-building method with plant and department parameters equals the specified resolution, errors included |
| `Scope.ResolveUnfiltered` | manufacturing-ai-cost-platform/backend/app/security/scope.py:242-284 | denied without a granting assignment; a tenant-wide grant collapses all branches to one |
| `Scope.BranchesOf` | manufacturing-ai-cost-platform/backend/app/security/scope.py:253-276 | one branch per granting assignment, in order |
| `Scope.NarrowedToPlant` | manufacturing-ai-cost-platform/backend/app/security/scope.py:155-182 | the loop keeps branches of that plant, restricts unbounded ones and refuses when none is left |
| `Scope.NarrowedToDepartment` | manufacturing-ai-cost-platform/backend/app/security/scope.py:185-212 | likewise for a department |
| `Scope.AuthorizedScopeFilter` | manufacturing-ai-cost-platform/backend/app/repositories/scope_filter.py:23-62 | the nested loops compile a scope to the SQL predicate `ScopePredicate`, with the early return for a tenant-wide branch |
| `Scope.ResolvedScopeShape` | manufacturing-ai-cost-platform/backend/app/security/scope.py:242-284 | a resolved scope names the principal's tenant in every branch and is never empty |
| `Scope.RecordCheckIsCoverage` | manufacturing-ai-cost-platform/backend/app/security/authorization.py:157-194 | `authorize_resource_permission` succeeds exactly when scope resolution succeeds and the scope covers the resource |
| `Scope.AuthorizedExactlyWhen` | manufacturing-ai-cost-platform/backend/app/security/authorization.py:98-194 | a record may be touched exactly when it is of the principal's own tenant and one assignment both grants the permission and reaches it, as the tenant, its plant or its department; another tenant's record is the cross-tenant error |
| `Scope.FilterIsCoverage` | manufacturing-ai-cost-platform/backend/app/repositories/scope_filter.py:23-62 | under three-valued logic the compiled predicate is TRUE for a row, NULL columns included, exactly when the row has a tenant and the scope covers it |
| `Scope.FilterIsFalseExactlyWhen` | manufacturing-ai-cost-platform/backend/app/repositories/scope_filter.py:23-62 | the compiled predicate is FALSE exactly for a known other tenant or a row known to lie outside every branch; with NULL columns it is otherwise UNKNOWN, never FALSE |
| `Scope.GuardIsCoverage` | manufacturing-ai-cost-platform/backend/app/guardrails/context_guard.py:210-222 | `_within_scope` agrees with `covers` |
| `Scope.FourCodingsAgree` | manufacturing-ai-cost-platform/backend/app/security/authorization.py:157-194 | record check, resolved scope, SQL predicate and context-guard test accept the same resources for every principal, permission and resource |
| `Scope.PlantNarrowingIntersects` | manufacturing-ai-cost-platform/backend/app/security/scope.py:155-182 | narrowing to a plant covers exactly the original's resources of that plant, and is refused exactly when there can be none |
| `Scope.DepartmentNarrowingIntersects` | manufacturing-ai-cost-platform/backend/app/security/scope.py:185-212 | likewise for a department |
| `Scope.NarrowingsCommute` | manufacturing-ai-cost-platform/backend/app/security/scope.py:155-212 | narrowing by an optional plant and an optional department in either order gives the same scope or the same refusal |
| `Scope.ResolutionIsExact` | manufacturing-ai-cost-platform/backend/app/security/scope.py:286-298 | a resolution with requested plant and department covers exactly what the permission covers there, and fails exactly when that is nothing |
| `Scope.FilterMatchesRecordsExactlyWhen` | manufacturing-ai-cost-platform/backend/app/security/principal.py:59-90 | for any scope, the SQL filter and `covers` on the ownership read by `from_record` agree on every row exactly when the tenant is named and each branch that names an empty id lies within one that does not |
| `Scope.RequestedFilterMatchesExactlyWhen` | manufacturing-ai-cost-platform/backend/app/security/scope.py:286-298 | for every principal the claims mapper can produce, filter and record check agree exactly when neither requested filter is the empty string |
| `Scope.EmptyPlantFilterMisreads` | manufacturing-ai-cost-platform/backend/app/security/dependencies.py:192-205 | an empty `plant_id` resolves to a scope whose filter returns a row its own record check refuses |
| `BudgetPolicy.DecisionIsSortedAndWorst` | manufacturing-ai-cost-platform/backend/app/policies/budget_policy.py:361-403 | the evaluations are a sorted permutation of one per limit and the outcome is the most severe among them, ALLOW when there are none |
| `BudgetPolicy.StateExactlyWhen` | manufacturing-ai-cost-platform/backend/app/policies/budget_policy.py:254-358 | the state of a limit from its amount, its actual plus estimated consumption and its thresholds, without division: EXCEEDED when the amount is nothing or all consumed, then CRITICAL and WARNING at their percentages |
| `BudgetPolicy.DefaultOutcomeExactly` | manufacturing-ai-cost-platform/backend/app/policies/budget_policy.py:134-358 | under the default policy, exactly when one limit blocks, asks for approval, downgrades or allows, from its amount, actual plus estimated consumption, critical threshold and the request's cost |
| `BudgetPolicy.OutcomeExactly` | manufacturing-ai-cost-platform/backend/app/policies/budget_policy.py:289-358 | for any policy, the outcome of an evaluable limit: approval on a projected breach if the policy asks for it, otherwise its outcome for the state, BLOCK where it has none |
| `BudgetPolicy.PercentsAreShares` | manufacturing-ai-cost-platform/backend/app/policies/budget_policy.py:254-358 | the percentages shown, times the amount, are a hundred times the consumption without and with the request |
| `BudgetPolicy.ComposedExactly` | manufacturing-ai-cost-platform/backend/app/policies/budget_policy.py:361-403 | a decision blocks exactly when some limit does, otherwise asks for approval exactly when some limit does, and so on down to ALLOW |
| `BudgetPolicy.DecidingExactly` | manufacturing-ai-cost-platform/backend/app/policies/budget_policy.py:374-403 | the limit reported as deciding: none is more severe, and among equally severe ones none has a narrower scope, nor an earlier id in the same scope |
| `BudgetPolicy.DecisionIsHomomorphism` | manufacturing-ai-cost-platform/backend/app/policies/budget_policy.py:374-403 | deciding on A and B together gives the more severe of the two decisions |
| `BudgetPolicy.OutcomeOrderIndependent` | manufacturing-ai-cost-platform/backend/app/policies/budget_policy.py:374-403 | the outcome is the same for every permutation of the limits |
| `BudgetPolicy.OrderIndependentExactlyWhen` | manufacturing-ai-cost-platform/backend/app/policies/budget_policy.py:361-403 | the whole decision, deciding limit included, is independent of order exactly when no two different evaluations tie in the sort key |
| `BudgetPolicy.GraduatedNeverLooser` | manufacturing-ai-cost-platform/backend/app/policies/budget_policy.py:254-358 | one limit's outcome never drops as consumption or request cost grows, under a graduated policy |
| `BudgetPolicy.NeverLooserExactlyWhen` | manufacturing-ai-cost-platform/backend/app/policies/budget_policy.py:268-358 | that monotonicity holds exactly for policies whose outcomes climb with the state and, with the projected-breach rule on, put REQUIRE_APPROVAL between CRITICAL and EXCEEDED |
| `BudgetPolicy.LenientPolicyLoosens` | manufacturing-ai-cost-platform/backend/app/policies/budget_policy.py:289-358 | under a policy that allows EXCEEDED, a limit that asks for approval at 95 percent lets the same request through at 100 |
| `BudgetPolicy.DecisionNeverLoosens` | manufacturing-ai-cost-platform/backend/app/policies/budget_policy.py:289-403 | a whole decision never gets looser when limits fill up, the request gets dearer or limits are added |
| `BudgetPolicy.DefaultPolicyNeverLooser` | manufacturing-ai-cost-platform/backend/app/policies/budget_policy.py:134-178 | the default policy is graduated, so all of this holds for it |
| `BudgetService.Evaluate` | manufacturing-ai-cost-platform/backend/app/services/budget_service.py:199-242 | evaluation equals the decision on the loaded limits followed by the request's ceiling; a period without a window is an error |
| `BudgetService.EvaluatedExactly` | manufacturing-ai-cost-platform/backend/app/services/budget_service.py:199-318 | under the default policy, from the books: a request is blocked exactly when a budget that gates it has an amount of nothing or recorded actual plus estimated spend in its window up to its converted amount, or its ceiling is nothing; otherwise it needs approval exactly when it would spend the rest of one or a currency is unknown; otherwise it is downgraded exactly when one is at its critical threshold; an error exactly when a period has no window |
| `BudgetService.RecordedIsSpend` | manufacturing-ai-cost-platform/backend/app/repositories/cost_repository.py:303-374 | the spend of a scope from the rows alone: actual money, estimated money and the number of rows without a cost, over the rows in the interval, both ends included, whose column matches the scope |
| `BudgetService.LimitExactly` | manufacturing-ai-cost-platform/backend/app/services/budget_service.py:244-292 | every figure of a stored budget's limit: its thresholds, its window's actual and estimated spend, and its amount in the base currency or as it stands with the reason it cannot be evaluated |
| `BudgetService.CeilingExactly` | manufacturing-ai-cost-platform/backend/app/services/budget_service.py:294-318 | every figure of a request ceiling's limit |
| `BudgetService.LoadLimits` | manufacturing-ai-cost-platform/backend/app/services/budget_service.py:244-254 | the loop builds one limit per gating budget in query order and stops at the first error |
| `BudgetService.LoadedExactly` | manufacturing-ai-cost-platform/backend/app/repositories/budget_repository.py:76-101 | loaded are exactly the tenant's active budgets of the scopes the request falls under, ordered by scope name, then scope id, then id |
| `BudgetService.GatesExactlyWhenSpendCounts` | manufacturing-ai-cost-platform/backend/app/services/budget_service.py:132-151 | a budget gates a request exactly when it is active and the request's own usage event would count against it, except for enterprise budgets filed under another id and budgets filed under the empty id |
| `BudgetService.EnterpriseBudgetNeverGates` | manufacturing-ai-cost-platform/backend/app/services/budget_service.py:132-151 | a concrete enterprise budget that the request's spend counts against and that never gates it |
| `BudgetService.LoadingIsReproducible` | manufacturing-ai-cost-platform/backend/app/repositories/budget_repository.py:76-101 | the loaded budgets and their order do not depend on the layout of the table |
| `BudgetService.SpendingNeverLoosens` | manufacturing-ai-cost-platform/backend/app/services/budget_service.py:199-292 | recording further nonnegative spend, or a dearer request, never loosens the decision, from cost rows through windows and limits to the outcome |
| `BudgetService.TenantsAreIsolated` | manufacturing-ai-cost-platform/backend/app/repositories/cost_repository.py:303-374 | budgets and spend of other tenants never change a decision |
| `BudgetService.CeilingIsEnforced` | manufacturing-ai-cost-platform/backend/app/services/budget_service.py:294-318 | under the default policy a request ceiling adds one vote: approval exactly when the cost reaches it or its currency is unknown, a block for a ceiling of nothing |
| `Calendar.WindowFailsExactlyWhen` | manufacturing-ai-cost-platform/backend/app/services/budget_service.py:66-113 | a period has no window exactly when it contains the last representable date |
| `Calendar.LastDayHasNoWindow` | manufacturing-ai-cost-platform/backend/app/services/budget_service.py:66-113 | on the last representable day no period has a window |
| `Calendar.WindowIsPeriod` | manufacturing-ai-cost-platform/backend/app/services/budget_service.py:66-113 | an instant lies in the window of `now` exactly when it is in the same calendar day, month, quarter or year |
| `Calendar.WindowIsStable` | manufacturing-ai-cost-platform/backend/app/services/budget_service.py:66-113 | every instant of a window yields that same window |
| `Calendar.WindowsTouch` | manufacturing-ai-cost-platform/backend/app/services/budget_service.py:66-113 | consecutive windows are one microsecond apart at their inclusive bounds: no gap, no overlap |
| `Calendar.WindowsNest` | manufacturing-ai-cost-platform/backend/app/services/budget_service.py:66-113 | day within month within quarter within year, leap years included |
| `Calendar.EveryDayHasADate` | manufacturing-ai-cost-platform/backend/app/services/budget_service.py:66-113 | day numbers and calendar dates correspond: each day number has a date |
| `Calendar.EveryInstantHasOneMoment` | manufacturing-ai-cost-platform/backend/app/services/budget_service.py:66-113 | each instant from the first to the last representable one is exactly one calendar moment |
| `CostAggregation.EveryEventCountsOnce` | manufacturing-ai-cost-platform/backend/app/repositories/cost_repository.py:130-164 | each cost event counts toward exactly one of actual money, estimated money and the unavailable count |
| `CostAggregation.RequestsCountOnce` | manufacturing-ai-cost-platform/backend/app/repositories/cost_repository.py:130-164 | requests are counted as different usage events, however many cost events one has |
| `CostAggregation.JoinExactly` | manufacturing-ai-cost-platform/backend/app/repositories/cost_repository.py:208-246 | the join pairs every cost event whose usage event exists with it, in order, and drops the others |
| `CostAggregation.SummaryReadsAuthorizedRows` | manufacturing-ai-cost-platform/backend/app/repositories/cost_repository.py:176-246 | under any resolved scope, client filters included, a summary totals exactly the rows in range whose owner passes the record-level check and was asked for |
| `CostAggregation.GroupKeysAreKeys` | manufacturing-ai-cost-platform/backend/app/repositories/cost_repository.py:249-277 | one row per occurring key, NULL included, in order and without repetition |
| `CostAggregation.GroupsAddUp` | manufacturing-ai-cost-platform/backend/app/repositories/cost_repository.py:249-300 | the per-field sum over all groups equals the totals of the rows, distinct request counts included |
| `CostAggregation.BreakdownConserves` | manufacturing-ai-cost-platform/backend/app/repositories/cost_repository.py:234-300 | for any visible rows of any join and any dimension or time bucket, breakdown rows add up to the totals and none is empty |
| `CostAggregation.BreakdownAddsUpToSummary` | manufacturing-ai-cost-platform/backend/app/repositories/cost_repository.py:234-300 | breakdown and trend add up to the summary of the same scope and dates |
| `CostAggregation.SpendAdjoins` | manufacturing-ai-cost-platform/backend/app/repositories/cost_repository.py:303-374 | spend over adjoining inclusive intervals adds up |
| `CostAggregation.MonthIsItsDays` | manufacturing-ai-cost-platform/backend/app/repositories/cost_repository.py:303-374 | the spend of a month is the sum of the spend of its days, for any events and budget scope |
| `CostAggregation.QuarterIsItsMonths` | manufacturing-ai-cost-platform/backend/app/repositories/cost_repository.py:303-374 | the spend of a quarter is the sum over its months |
| `CostAggregation.YearIsItsMonthsAndQuarters` | manufacturing-ai-cost-platform/backend/app/repositories/cost_repository.py:303-374 | the spend of a year is the sum over its months and over its quarters |
| `CostEngine.WeakestIsLeast` | manufacturing-ai-cost-platform/backend/app/services/cost_engine.py:77-85 | the combined provenance is a member's and no member is weaker |
| `CostEngine.WeakestDependsOnMembersOnly` | manufacturing-ai-cost-platform/backend/app/services/cost_engine.py:77-85 | order and repetition do not matter: associative, commutative and idempotent on nonempty inputs |
| `CostEngine.CombiningExactlyWhen` | manufacturing-ai-cost-platform/backend/app/services/cost_engine.py:77-85 | combining parts and then their results equals combining everything exactly when no part is empty or the whole is unavailable anyway |
| `CostEngine.EmptyPartIsUnavailable` | manufacturing-ai-cost-platform/backend/app/services/cost_engine.py:77-85 | an empty part makes the piecewise label UNAVAILABLE where the whole is ACTUAL |
| `CostEngine.ProvenanceOfComponents` | manufacturing-ai-cost-platform/backend/app/services/cost_engine.py:383-402 | the resolved provenance is the weakest of the components that contribute |
| `CostEngine.ProvenanceIsHonest` | manufacturing-ai-cost-platform/backend/app/services/cost_engine.py:280-371 | a total exists exactly when provenance is not UNAVAILABLE; ACTUAL exactly when tokens are provider-reported with usable pricing and no estimated component |
| `CostEngine.CostsAreMetered` | manufacturing-ai-cost-platform/backend/app/services/cost_engine.py:267-371 | with prices and a unit, each stored component is within half a quantum of its own tokens at its own price, and a total exists exactly with both token counts and is within half a quantum of input plus output plus tool calls at their price plus infrastructure |
| `CostEngine.ChargedPerToken` | manufacturing-ai-cost-platform/backend/app/services/cost_engine.py:267-277 | a rate per token, quoted per token, per thousand or per million, charges tokens times rate |
| `CostEngine.SurchargesAreMetered` | manufacturing-ai-cost-platform/backend/app/services/cost_engine.py:280-371 | tool cost exists exactly with calls and a price per call and is within half a quantum of their product; infrastructure likewise, whether tokens are priced or not |
| `CostEngine.ReasonExactlyWhen` | manufacturing-ai-cost-platform/backend/app/services/cost_engine.py:280-371 | the reason a cost is unavailable is the first thing missing: prices, unit, token counts |
| `CostEngine.MoreUsageNeverCheaper` | manufacturing-ai-cost-platform/backend/app/services/cost_engine.py:267-371 | at nonnegative rates more tokens never lower a stored total, rounding included |
| `CostEngine.UnitsAgree` | manufacturing-ai-cost-platform/backend/app/services/cost_engine.py:267-277 | a per-token rate quoted per token, per thousand or per million tokens costs the same: tokens times rate |
| `CostEngine.RoundingError` | manufacturing-ai-cost-platform/backend/app/services/cost_engine.py:263-264 | rounding half to even is within half a quantum |
| `CostEngine.RoundedExactlyWhen` | manufacturing-ai-cost-platform/backend/app/services/cost_engine.py:263-264 | rounding to an integer, with ties to the even one, characterised without the floor |
| `CostEngine.TotalNearComponents` | manufacturing-ai-cost-platform/backend/app/services/cost_engine.py:340-371 | the quantized total differs from the sum of its quantized components by at most two quanta |
| `LeastSquares.DenominatorClosedForm` | manufacturing-ai-cost-platform/backend/app/intelligence/cost_forecaster.py:115-120 | the regression denominator is n(n^2-1)/12, hence positive from two points on |
| `LeastSquares.NormalEquations` | manufacturing-ai-cost-platform/backend/app/intelligence/cost_forecaster.py:108-125 | residuals sum to zero and are orthogonal to the day index |
| `LeastSquares.FitIsLeastSquares` | manufacturing-ai-cost-platform/backend/app/intelligence/cost_forecaster.py:108-125 | every other line has a strictly larger squared error |
| `LeastSquares.CollinearHistoryIsRecovered` | manufacturing-ai-cost-platform/backend/app/intelligence/cost_forecaster.py:108-125 | a history on a line is fitted by that line without residual |
| `Forecast.GenerateForecast` | manufacturing-ai-cost-platform/backend/app/intelligence/cost_forecaster.py:64-177 | the three history-length cases yield a report of the specified estimates, with rounding, totals and the month-end projection |
| `Forecast.BandIsResidualError` | manufacturing-ai-cost-platform/backend/app/intelligence/cost_forecaster.py:108-154 | over three days or more, every point is the line with its band around it, floored at zero and rounded to the cent, and the square of the first half-width times n - 2 is 1.96 squared times the sum of squared misses of the line that misses least |
| `Forecast.FlatForecastExactly` | manufacturing-ai-cost-platform/backend/app/intelligence/cost_forecaster.py:179-223 | every point of a flat forecast is shown at the base, or at nothing for a negative one, with a band of 70 to 130 percent |
| `Forecast.ReportExactly` | manufacturing-ai-cost-platform/backend/app/intelligence/cost_forecaster.py:127-223 | a report has one point per day of the horizon, the number of days used, the confidence for that number and the rounded daily average; with fewer than three days it is flat around the default cost or the average |
| `Forecast.CostsAreByDate` | manufacturing-ai-cost-platform/backend/app/intelligence/cost_forecaster.py:78-80 | the costs fitted are a permutation of the history's, in order of dates |
| `Forecast.ExtrapolatedForecast` | manufacturing-ai-cost-platform/backend/app/intelligence/cost_forecaster.py:127-177 | the accumulating loop over the horizon matches the line and its widening band day by day |
| `Forecast.FallbackForecast` | manufacturing-ai-cost-platform/backend/app/intelligence/cost_forecaster.py:179-223 | the flat forecast around a base cost with the fixed 70 and 130 percent band, projecting the base over the whole month |
| `Forecast.ForecastIsSound` | manufacturing-ai-cost-platform/backend/app/intelligence/cost_forecaster.py:127-223 | for every history, rounded points satisfy 0 <= lower <= predicted <= upper, and the total is within half a cent per figure of the shown predictions |
| `Forecast.BandWidens` | manufacturing-ai-cost-platform/backend/app/intelligence/cost_forecaster.py:140-144 | with a residual error the band strictly widens with the horizon, by half its first width every thirty days |
| `Forecast.CollinearForecastIsExact` | manufacturing-ai-cost-platform/backend/app/intelligence/cost_forecaster.py:108-154 | a history on a line is extrapolated along that line with a band of no width |
| `Forecast.MonthEndCoversHorizonOnly` | manufacturing-ai-cost-platform/backend/app/intelligence/cost_forecaster.py:225-257 | a forecast from tomorrow on projects the month as what was spent plus the predictions its horizon reaches; days beyond a short horizon count for nothing unless no prediction shows |
| `Forecast.MonthEndExactly` | manufacturing-ai-cost-platform/backend/app/intelligence/cost_forecaster.py:225-257 | the month ends at the month's costs in the history; while days are left, plus the predictions shown for the month, or the daily average for each day left where there are none |
| `Forecast.FlatMonthEndExactly` | manufacturing-ai-cost-platform/backend/app/intelligence/cost_forecaster.py:179-223 | with fewer than three days the month ends at the default cost, or the average, for each of its days |
| `MonthProjection.MonthEndIsReached` | manufacturing-ai-cost-platform/backend/app/intelligence/cost_forecaster.py:225-257 | whatever the start date, the month is projected from the figures whose dates fall in it |
| `MonthProjection.CoversMonthExactlyWhen` | manufacturing-ai-cost-platform/backend/app/intelligence/cost_forecaster.py:225-257 | for any start date, the projection is the spend so far plus a figure for each day left exactly when no day is left, or what is counted twice makes up for what is missed, or one sum is nothing and the other equals the average for each day left |
| `MonthProjection.NoHorizonTakesTheAverage` | manufacturing-ai-cost-platform/backend/app/intelligence/cost_forecaster.py:225-257 | a concrete history with nothing predicted projects the average for each day left |
| `MonthProjection.CoversMonthFromTomorrowExactlyWhen` | manufacturing-ai-cost-platform/backend/app/intelligence/cost_forecaster.py:225-257 | from tomorrow on it covers the month exactly when no day is left, or every day left beyond the horizon shows zero, or it reaches nothing and the days left amount to their average |
| `MonthProjection.WeekLeavesDaysOut` | manufacturing-ai-cost-platform/backend/app/intelligence/cost_forecaster.py:225-257 | a week's forecast at ten a day projects a 31-day month at 100 where each day left counted makes 310 |
| `MonthProjection.TodayCountsTwice` | manufacturing-ai-cost-platform/backend/app/intelligence/cost_forecaster.py:225-257 | started on the current day it projects 320, counting that day twice |
| `Forecast.ForecastOrderIndependent` | manufacturing-ai-cost-platform/backend/app/intelligence/cost_forecaster.py:78-80 | with one figure per date, or fewer than three figures, the forecast does not depend on the order of the history |
| `Forecast.LineOrderIndependentExactlyWhen` | manufacturing-ai-cost-platform/backend/app/intelligence/cost_forecaster.py:78-125 | the fitted line is the same for every order of the history exactly when no date carries two different figures |
| `Forecast.TwoFiguresOfOneDate` | manufacturing-ai-cost-platform/backend/app/intelligence/cost_forecaster.py:78-125 | a concrete history with two figures of one date whose line depends on arrival order |
| `LeastSquares.ExchangeMovesLine` | manufacturing-ai-cost-platform/backend/app/intelligence/cost_forecaster.py:108-125 | exchanging two different neighbouring costs changes the fitted slope |
| `ContextGuard.FilterFragments` | manufacturing-ai-cost-platform/backend/app/guardrails/context_guard.py:98-145 | the admission loop equals the specified greedy decision |
| `ContextGuard.FilterInterleaves` | manufacturing-ai-cost-platform/backend/app/guardrails/context_guard.py:98-145 | admitted and dropped fragments riffle back, each in order, to the input |
| `ContextGuard.CeilingHolds` | manufacturing-ai-cost-platform/backend/app/guardrails/context_guard.py:98-145 | the reported total is the cost of the admitted set and within the ceiling |
| `ContextGuard.CostIsTokens` | manufacturing-ai-cost-platform/backend/app/guardrails/context_guard.py:125-139 | a fragment costs its estimated tokens, and nothing without an estimate |
| `ContextGuard.TotalExactly` | manufacturing-ai-cost-platform/backend/app/guardrails/context_guard.py:98-145 | the total reported is the sum of the admitted fragments' token estimates, front to back |
| `ContextGuard.BudgetDropsWouldNotFit` | manufacturing-ai-cost-platform/backend/app/guardrails/context_guard.py:125-139 | with nonnegative counts no budget-dropped fragment would fit beside the final admitted set |
| `ContextGuard.ReasonsAreTrue` | manufacturing-ai-cost-platform/backend/app/guardrails/context_guard.py:147-173 | admitted fragments may be sent: owned by the tenant, in scope, sendable and relevant; each recorded reason is true of its fragment, and only the budget drops one that may be sent |
| `ContextGuard.AdmittedAreAuthorized` | manufacturing-ai-cost-platform/backend/app/guardrails/context_guard.py:147-222 | what is admitted under a resolved scope would pass the record-level permission check |
| `ContextGuard.TooLargeExactlyWhen` | manufacturing-ai-cost-platform/backend/app/guardrails/context_guard.py:175-207 | the too-large refusal needs a negative ceiling and no fragments; it is unreachable otherwise |
| `ContextGuard.EnforcedExactly` | manufacturing-ai-cost-platform/backend/app/guardrails/context_guard.py:175-207 | enforcement passes the decision on unchanged, and rejects exactly when there were fragments and none was admitted |
| `ContextGuard.NothingIsTooLarge` | manufacturing-ai-cost-platform/backend/app/guardrails/context_guard.py:175-207 | no fragments at all are too large for a negative ceiling |
| `ExecutionBudget.Budget.ConsumeIteration` | manufacturing-ai-cost-platform/backend/app/guardrails/limits.py:77-108 | time is checked before the step count; a refused step is not counted |
| `ExecutionBudget.Budget.ConsumeToolCall` | manufacturing-ai-cost-platform/backend/app/guardrails/limits.py:110-130 | a refused batch of tool calls is not counted |
| `ExecutionBudget.Budget.ConsumeTokens` | manufacturing-ai-cost-platform/backend/app/guardrails/limits.py:132-153 | tokens are recorded even when they overrun |
| `ExecutionBudget.CountersAccountForCalls` | manufacturing-ai-cost-platform/backend/app/guardrails/limits.py:77-153 | after any call sequence the counters equal what was allowed, and steps and tool calls are within their limits |
| `ExecutionBudget.RefusedExactlyWhen` | manufacturing-ai-cost-platform/backend/app/guardrails/limits.py:77-153 | for any call sequence and any call in it, which error it gets, from the calls alone: tokens exactly when a nonnegative spend brings the tokens reported so far over the ceiling, steps, tool calls and time likewise |
| `ExecutionBudget.LimitsBiteExactlyWhen` | manufacturing-ai-cost-platform/backend/app/guardrails/limits.py:77-153 | whether a limit is ever hit in a sequence, from the totals it reports and requests |
| `ExecutionBudget.UsedExactly` | manufacturing-ai-cost-platform/backend/app/guardrails/limits.py:77-153 | the counters after any call sequence, from the calls alone |
| `ExecutionBudget.LoopIsStopped` | manufacturing-ai-cost-platform/backend/app/guardrails/limits.py:77-108 | a loop that consumes a step per pass is refused within `max_iterations` passes |
| `ExecutionBudget.OverrunStaysRefused` | manufacturing-ai-cost-platform/backend/app/guardrails/limits.py:132-153 | after a token overrun every later token spend is refused |
| `Classification.PayloadSize` | manufacturing-ai-cost-platform/backend/app/orchestrator/classification.py:87-107 | the explicit-stack traversal terminates and equals the structural size of any nested payload |
| `Classification.SizeLaws` | manufacturing-ai-cost-platform/backend/app/orchestrator/classification.py:87-107 | the laws that fix the size of every payload: strings and printed scalars count their characters, missing values nothing, dictionaries their keys and values, lists their items |
| `Classification.UntrustedStrings` | manufacturing-ai-cost-platform/backend/app/guardrails/workload_guardrails.py:44-60 | the recursive loops return the string values in order, each under its path rendered as text |
| `Classification.LeavesInOrder` | manufacturing-ai-cost-platform/backend/app/guardrails/workload_guardrails.py:44-60 | the laws that fix what is collected and in which order |
| `Classification.DecimalReadsBack` | manufacturing-ai-cost-platform/backend/app/guardrails/workload_guardrails.py:52-58 | an index is rendered as the decimal number that reads back as itself, without leading zeros |
| `Classification.LeavesAreThePayloadsStrings` | manufacturing-ai-cost-platform/backend/app/guardrails/workload_guardrails.py:44-60 | a text is collected at a path exactly when following that path through the payload leads to it |
| `Classification.LabelledExactlyWhen` | manufacturing-ai-cost-platform/backend/app/guardrails/workload_guardrails.py:44-60 | a text is reported under a rendered label exactly when some path to it renders as that label |
| `Classification.LabelsCollide` | manufacturing-ai-cost-platform/backend/app/guardrails/workload_guardrails.py:52-58 | two texts of one payload can be reported under the same label, by a dotted and a nested key |
| `Classification.LeavesFitInSize` | manufacturing-ai-cost-platform/backend/app/guardrails/workload_guardrails.py:44-60 | the collected text is never longer than the measured payload size |
| `Classification.ClassifyComplexity` | manufacturing-ai-cost-platform/backend/app/orchestrator/classification.py:110-138 | the branches compute the highest class that size, images or quality call for on their own: no signal masks another |
| `Classification.ClassExactly` | manufacturing-ai-cost-platform/backend/app/orchestrator/classification.py:110-138 | COMPLEX exactly when images, size or quality reach their thresholds, and SIMPLE exactly when none does, the size is below the medium one and there is not exactly one image |
| `Classification.DefaultClassExactly` | manufacturing-ai-cost-platform/backend/app/orchestrator/classification.py:52-138 | with the default thresholds: two images, 12000 characters or a bar of 0.9 are COMPLEX; then one image or 2000 characters are MEDIUM |
| `Classification.ClassDropsExactlyWhen` | manufacturing-ai-cost-platform/backend/app/orchestrator/classification.py:110-138 | raising size, images and quality together lowers the class exactly when one image becomes several below the threshold and size and quality call for SIMPLE |
| `Classification.MoreImagesLowerExactlyWhen` | manufacturing-ai-cost-platform/backend/app/orchestrator/classification.py:110-138 | per request: more images alone lower the class exactly from one to several below the threshold, on a small request with a low bar |
| `Classification.ClassNeverDrops` | manufacturing-ai-cost-platform/backend/app/orchestrator/classification.py:110-138 | the class never drops with size and quality, nor with images from a count other than one |
| `Classification.NeverLowerExactlyWhen` | manufacturing-ai-cost-platform/backend/app/orchestrator/classification.py:52-71 | a configuration never lowers a growing request exactly when its image threshold is at most two or a character threshold is met by nothing; the defaults qualify |
| `Classification.DefaultThresholdsNeverLower` | manufacturing-ai-cost-platform/backend/app/orchestrator/classification.py:52-71 | the default thresholds never lower the class of a growing request |
| `Classification.SecondImageLowers` | manufacturing-ai-cost-platform/backend/app/orchestrator/classification.py:110-138 | a concrete request whose second image lowers its class |

## Left out

- PolicyLifecycle.PolicyLifecycleService.ApplyPolicy: policy ids are row positions, so the freshness of generated ids is built in; timestamps, audit records and log lines are not modelled, and `activation_mode` is already resolved to canary or full.
- PolicyLifecycle.PolicyLifecycleService.GetActivePolicy: among live rows of equal version the database may return any; the model returns the first.
- PolicyLifecycle.LatestVersion: `add`, `create` and `create_many` are appends inside the transitions; the tenant-less variants of the repository queries are not modelled.
- ModelRegistry.FindModelsForWorkload: the dictionary keyed by id is a sequence without repeated ids; database and Python text order are taken to agree, names and ids are unique, and limits are not negative.
- ModelSelection.SelectionIsLeast: latency and quality are exact numbers; `_effective_priority` is one comparison and is left out.
- RateLimit.InMemoryRateLimiter.Check: one policy per key and a nondecreasing clock; concurrent callers and a policy that changes between calls for one key are not modelled.
- Scope.AuthorizedScopeFilter: the SQL predicate is an expression tree with the comparison, conjunction and disjunction the compiler emits; column collation is exact text equality.
- BudgetPolicy.DecisionNeverLoosens: thresholds are fixed between the two decisions; `Decimal` context limits are not modelled.
- BudgetService.Evaluate: currency codes arrive normalised and budget status is a flag; `status_for_budgets` evaluates the same limits one by one with no request cost.
- Calendar.WindowIsPeriod: times are already in UTC; unknown period names are excluded by the period type.
- CostAggregation.BreakdownConserves: a time bucket is any function of the usage event; the text formats of the bucket expressions are not modelled.
- CostEngine.TotalNearComponents: `Decimal` is exact; the parsing of cost-unit text is not modelled.
- Forecast.GenerateForecast: the square root is a parameter that squares to the variance, costs are exact, the current day is a parameter and dates are unbounded day numbers; history parsing from dictionaries and text is not modelled.
- Classification.PayloadSize: payloads are finite trees; a number or boolean carries its printed form, so printing is not modelled.
- Classification.UntrustedStrings: dictionary keys are text, printed scalars or nothing; a tuple as a key is not modelled.
- Identity.ToPrincipal: role names and scope types are already looked up, with none for an unknown one; a roles claim that is not a list is the empty list.
- ContextGuard.FilterFragments: the count of reasons for reporting (`drop_reasons`) is left out.
- Routes, middleware, sessions, migrations, seed data, logging and audit writes: input and output only.
- The model gateway, token validation, and the pattern tables of the input and output guards.
- `orchestrator.execute` end to end, the optimization engine, anomaly detectors, simulation and supply-chain optimizer: outside this core.
