# Verified model of the apcore runtime core

A Dafny model of the parts of apcore (TypeScript) whose behaviour is decided by
recursion, loops over shared state, or interleaving, with proofs about every input,
every run or every reachable state.

- **Access control** (`acl_conditions.dfy`, `acl.dfy`, `wildcards.dfy`). The condition
  evaluator is proved to compute strong Kleene logic over *unsatisfied < unevaluable <
  satisfied*, and to say yes and no exactly when the tree does; the structural precheck and
  the evaluator are proved to agree; which rule decides a call is said of the rules
  themselves; and, on lists that passed the doors, the decision with unevaluable rules is proved to be exactly the
  most restrictive decision that any way of answering those rules would give; for other
  lists the exact condition is given. The two wildcard matchers are proved equal to the
  plain meaning of `*` and `?`, which two laws on patterns fix completely.
- **Asynchronous tasks** (`async_task.dfy`, `async_safety.dfy`, `async_runs.dfy`,
  `async_race.dfy`, `async_settle.dfy`, `async_outcome.dfy`, `async_witness.dfy`,
  `async_manager.dfy`). The
  protocol is a transition system: one action is the code a participant runs between two
  awaits, and a run is any interleaving. Slots, FIFO grants, retries, the admission cap,
  terminal statuses and shutdown are proved over all runs, and every status is traced back
  to what the executor answered. `async_manager.dfy` is the
  manager as an object with mutable fields: each of its segments is one action of the
  protocol and keeps the state reachable, so that every theorem about runs holds of the
  object.
- **Execution lifetimes and cancellation** (`execution_lifetime.dfy`,
  `task_lifetimes.dfy`). A scope's pending set covers exactly the unsettled executions at
  or below it; a drain ends exactly when none is left; cancellation reaches exactly the
  descendants. The manager and the scopes together give the physical bound on unsettled
  module bodies.
- **Pipeline** (`strategy.dfy`, `pipeline.dfy`, `pipeline_safety.dfy`,
  `pipeline_turns.dfy`, `standard.dfy`). The
  strategy's mutators keep names unique, the index exact and the gates unweakened; the
  engine's runs list steps in order, nest hooks like an onion, do not bypass gates, and
  run only sound steps in a dry run; every turn is the one that filters, hooks, bodies and
  results call for; on the standard strategy the module body runs only
  after an allow and, when asked for, an approval.
- **Redaction** (`json.dfy`, `redaction.dfy`, `redaction_schemas.dfy`). The worklist returns
  exactly the reachable schemas, the walk computes a redaction that depends on the set of
  schemas only, and which positions it marks is said in the schemas' own keywords.
- **Merging and configuration paths** (`object_tree.dfy`, `merging.dfy`,
  `config_paths.dfy`, `config_suffix.dfy`).
- **W3C Trace Context** (`text.dfy`, `trace_context.dfy`, `trace_members.dfy`), sections 3.2
  and 3.3 of the W3C recommendation.

Modules follow the source files. Code that updates fields is a class with `modifies`
clauses, a source loop is a Dafny loop with invariants, and each such method is proved
against a function whose meaning is then the subject of lemmas.

## Where the code and its documentation disagree

- `src/async-task.ts:431-433` says a cancel that slips between the runner's terminal
  check and its write costs one extra terminal write. For the retry write the code does
  more: it replaces CANCELLED by PENDING, and since the runner is flagged it then exits
  without running the task again. The three runs in `async_witness.dfy`, each in an
  order the in-memory store gives, show a cancelled task left PENDING, a task that a
  shutdown found cancelled and that is PENDING after it, and a broken admission cap.
  `SettledExactly`, `ShutdownSettlesExactly`, `AdmissionCap`, `AbsorptionExactly` and
  `MovesAreLegalExactly` say, for every run, exactly what holds; `FusedRunsAbsorb` and
  `FusedRunsSettle` are their corollaries for runs in which check and write are one step.
- Merging configuration layers is not associative. `AssociativeExactly` gives the exact
  condition and `SeparatedLayers` a concrete failure.
- `matchSuffixToTree` also sees inherited names: a suffix that ends in `_CONSTRUCTOR` can
  resolve to a path that is in no defaults tree, and the write to it is then refused.
  `OwnPathsOnlyExactly` says for which suffixes that cannot happen.
- A chunk or a layer with an own `__proto__` takes the merge out of the two values;
  `DeepMergeChunk` and `DeepMergeDicts` return nothing exactly then.
- `setNested` changes one value beside its path: the `length` of a list it makes longer.
- The ACL fails closed on lists that passed the doors. `FailClosedExactly` says exactly
  when a list whose effects were changed afterwards still does, and
  `OpenForeignEffectFailsOpen` gives one that does not.
- `remove` and `replace` do not validate dependencies again;
  `RemovalKeepsDependenciesExactly` and `ReplacementKeepsDependenciesExactly` say exactly
  when the list stays constructible.

## Model

| member | source | states |
|---|---|---|
| AclConditions.Min | src/acl.ts:1392-1426 | conjunction is the minimum of the order unsatisfied < unevaluable < satisfied |
| AclConditions.Max | src/acl-handlers.ts:379-397 | disjunction, defined as the De Morgan dual, is the maximum of that order |
| AclConditions.AllOfByMembers | src/acl.ts:1392-1426 | the outcome of an object depends only on which outcomes occur among its keys: a "no" decides, then a missing answer, else satisfied |
| AclConditions.AnyOfByMembers | src/acl-handlers.ts:379-397 | the same for the elements of an `$or` list |
| AclConditions.OrderIrrelevant | src/acl.ts:1392-1426 | reordering or repeating keys and `$or` elements anywhere in the tree never changes the outcome |
| AclConditions.DenoteMonotone | src/acl.ts:1337-1426 | when leaves only gain answers, a definite outcome of any tree is unchanged |
| AclConditions.OnlyLeavesLeaveItOpen | src/acl.ts:615-701 | a tree that passed the precheck is unevaluable only because of a leaf handler or a missing projection |
| AclConditions.OutcomeIsWhatItSays | src/acl.ts:1337-1426 | the outcome is satisfied exactly when the tree says yes and unsatisfied exactly when it says no, both read off keys, elements, argument names and handler answers with quantifiers, without a third value |
| AclConditions.EvaluateConditions | src/acl.ts:1392-1426 | the short-circuiting loop returns the Kleene minimum; every unevaluable result leaves a recorded position under the evaluated object; on prechecked trees only handler causes are ever recorded |
| AclConditions.EvaluateCondition | src/acl.ts:1319-1375 | one key: unknown keys, promises in the sync path and throws are unevaluable and recorded; a bare "no answer" is named unless its subtree already spoke |
| AclConditions.EvaluateOr | src/acl-handlers.ts:379-397 | the loop over alternatives returns the Kleene maximum without stopping at a missing answer |
| AclConditions.EvaluateNot | src/acl-handlers.ts:418-425 | negation that keeps a missing answer missing |
| AclConditions.EvaluateArguments | src/acl-handlers.ts:274-305 | satisfied exactly when the block is well formed, a projection exists and every predicate holds of the projected keys |
| AclConditions.Frame.Record | src/acl.ts:1288-1307 | the first cause at a path wins; the position is queued for reporting |
| AclConditions.Frame.RecordBare | src/acl.ts:1319-1335 | a bare "no answer" is recorded exactly when the subtree recorded nothing |
| Acl.DescribeShape | src/acl.ts:366-408 | no fault exactly for the closed set of pattern-array shapes; otherwise a fault the array has, and the first of those it has in the reporting order |
| Acl.LegalShapeReadsEveryOperand | src/acl.ts:2093-2108 | on a legal array the matcher is an OR over all operands or the negation of the one operand; no operator is read as a pattern |
| Acl.NoFaultsIffWellFormed | src/acl.ts:615-701 | the precheck reports nothing exactly on trees with no unknown key and no malformed value |
| Acl.PrecheckConditions | src/acl.ts:615-701 | the walk never stops early: it reports exactly the faulty positions and keeps what was reported before |
| Acl.FaultsAreReportedExactly | src/acl.ts:615-701 | a position is reported exactly when walking its path through the tree ends at an unknown key or a malformed value |
| Acl.DescribeArguments | src/acl-handlers.ts:199-242 | every faulty predicate of an `arguments` block is reported |
| Acl.MatchesRule | src/acl.ts:2133-2177 | one rule is classified as its meaning says, which `RuleOutcomeExactly` gives in terms of the rule; an unevaluable one leaves a non-empty error map |
| Acl.RuleOutcomeExactly | src/acl.ts:2133-2177 | a rule matches exactly when its legal fields let caller and target through and it has no conditions, or well-formed ones that say yes in a given context; it is unevaluable exactly when a field is illegal, or it is meant for the call and its conditions are ill-formed or say neither yes nor no in a given context |
| Acl.DecisionExplained | src/acl.ts:1755-1800 | the decision is that of the first rule that applies, or is a deny that may apply; else the default; an allow asks for approval exactly when its rule does or an earlier allow that may apply does |
| Acl.PendingIsAFloor | src/acl.ts:1779-1800 | a pending requirement lifts the decision to at least "ask first" and changes nothing else |
| Acl.FailClosedExactly | src/acl.ts:2231-2276 | with allow < allow-with-approval < deny, the decision on a list with unevaluable rules is always one of the decisions that answering them can give, and is their maximum exactly when, whenever an unevaluable rule with an effect outside the closed set stands before the first deciding rule, that rule (or the default) is not an allow |
| Acl.AllowedExactly | src/acl.ts:1739-1753 | every answer to the unevaluable rules allows without approval exactly when the decision does and no such rule was met; on a list that passed the doors none is |
| Acl.OpenForeignEffectFailsOpen | src/acl.ts:1881-1945 | outside the closed effect set the maximum property fails, with a concrete rule |
| Acl.ClassifyMonotone | src/acl.ts:2133-2177 | a definite rule outcome survives any gain of handlers, answers or projection |
| Acl.MonotoneExactly | src/acl.ts:1755-1800 | knowing more never makes a decision more restrictive exactly when, whenever an unevaluable rule with an effect outside the closed set stands before the first deciding rule, that rule (or the default) is not an allow |
| Acl.DecisionMonotone | src/acl.ts:1755-1800 | end to end, for any rule list meeting that condition: more handlers, answers or projection never make the decision more restrictive; lists that passed the doors meet it |
| Acl.ACL.Create | src/acl.ts:1494-1550 | construction succeeds exactly when the default effect and every rule pass the doors; else the first fault in order |
| Acl.RejectedExactly | src/acl.ts:1494-1550 | a rule is turned away exactly for an unknown effect, a deny that asks for approval, or a string list with a shape fault |
| Acl.ACL.AddRule | src/acl.ts:2292-2325 | a passing rule goes to the head; a rejected one leaves the list as it was |
| Acl.ACL.CheckAccess | src/acl.ts:1755-1800 | the loop decides by the first rule that settles the call, or by the default, said of the rules themselves; this is the fail-closed decision; the error map is non-empty exactly when an examined rule met a malformed field, a faulty tree or a reached condition without an answer |
| Acl.ACL.Check | src/acl.ts:1739-1753 | for any rule list: "yes" and no foreign unevaluable rule met exactly when every way of answering the unevaluable rules gives an unconditional allow |
| Wildcards.SegmentsAreTheMeaning | src/utils/pattern.ts:17-42 | matching character by character equals placing the segments between stars in order |
| Wildcards.LeftmostIsEnough | src/utils/pattern.ts:29-34 | taking a middle segment at its leftmost place loses no match |
| Wildcards.PatternsCompose | src/utils/pattern.ts:17-42 | patterns written one after the other match exactly the texts written one after the other |
| Wildcards.OneSymbol | src/utils/pattern.ts:74-100 | a star matches every text, any other symbol one character: itself, or in a glob any for the question mark |
| Wildcards.MatchPattern | src/utils/pattern.ts:17-42 | the greedy module-id matcher accepts exactly the ids the pattern means, `*` being the only wildcard |
| Wildcards.MatchGlob | src/utils/pattern.ts:74-100 | the glob matcher accepts exactly the values the pattern means, with `*` and `?` |
| AsyncTask.StepKeepsSlots | src/async-task.ts:528-547 | every step of every participant keeps: counter = slot holders, within the cap, nobody queued while a slot is free, queue = waiting runners |
| AsyncTask.ReleaseKeepsSlots | src/async-task.ts:541-547 | a release hands the slot to the head of the queue or frees it |
| AsyncSafety.StepKeepsInv | src/async-task.ts:549-675 | every step keeps the whole invariant: slots, call counts, module bodies, status by position, cancel flags |
| AsyncSafety.BystanderRecord | src/async-task.ts:297-327 | a task's record is changed only by its own runner or by a cancel |
| AsyncRuns.SlotsConserved | src/async-task.ts:528-675 | over every run the counter equals the slot holders and stays within maxConcurrent, waiting implies full, and it is 0 with an empty queue once all runners exited |
| AsyncRuns.NoOvertaking | src/async-task.ts:528-547 | slots are granted first come, first served |
| AsyncRuns.RetriesBounded | src/async-task.ts:620-660 | retryCount never exceeds maxRetries and a task is called at most maxRetries + 1 times |
| TaskLifetimes.DrainEndsExactly | src/async-task.ts:640-664 | over the manager and the scopes together: the drain of a task's token ends exactly when no unsettled execution is tracked at the token or below it, and the protocol's count is their number |
| TaskLifetimes.PhysicalCapacity | src/async-task.ts:640-664 | in every joint run at most maxConcurrent tasks have an execution, at their token or below, that has not settled |
| TaskLifetimes.ProtocolPart | src/async-task.ts:567-675 | the manager's part of a joint run is a run of the protocol |
| TaskLifetimes.OneRoot | src/cancel.ts:49-50 | two root tokens are never on one chain, so an execution belongs to at most one task |
| AsyncRuns.StartedAtWrittenOnce | src/async-task.ts:590-598 | startedAt, once set, never changes |
| AsyncSettle.SettledExactly | src/async-task.ts:567-675 | in every run, when all runners, cancels and shutdowns have finished, a submitted record is terminal exactly when every resurrection of it (a retry write over a cancelled record) was followed by another cancel |
| AsyncSettle.ShutdownSettlesExactly | src/async-task.ts:361-400 | in every run, once a shutdown's sweep and cancels are done, a record stored when it began is terminal exactly when every resurrection of it was followed by another cancel |
| AsyncSettle.RevivedExactly | src/async-task.ts:620-646 | a resurrected record's runner never writes again, and the record is terminal exactly when a later cancel marked it |
| AsyncSettle.AdmissionCap | src/async-task.ts:235-241 | in every run the active records that were never resurrected do not outnumber the larger of maxTasks and the number present at start; without resurrections that bounds all active records |
| AsyncOutcome.StatusFollowsAnswer | src/async-task.ts:596-660 | in every run a record becomes COMPLETED only by the write after a call that returned, FAILED only after one that threw with all maxRetries + 1 calls made, PENDING again only after one that threw with at most maxRetries made, RUNNING by the start of an attempt, CANCELLED by a cancel |
| AsyncOutcome.RunnerEndsAsAnswered | src/async-task.ts:577-660 | in every run a runner that ended unflagged and uncancelled left its record COMPLETED if its last call returned, and FAILED after maxRetries + 1 calls if it threw |
| AsyncOutcome.FlaggedCallsNoMore | src/async-task.ts:577-652 | in every run a flagged runner makes no executor call any more, unless it was already past its check of the flag |
| AsyncOutcome.FlaggedCallsOnce | src/async-task.ts:577-652 | and at most one even then |
| AsyncOutcome.LimitIsSubmitted | src/async-task.ts:203-260 | the retry limit of a running task is the one it was submitted with |
| AsyncOutcome.SubmitAdmitsExactly | src/async-task.ts:235-241 | in every run a submit saves its record, PENDING and untouched, exactly when fewer than maxTasks of the records its list showed were active when it counted them |
| AsyncOutcome.StartedAtIsBegin | src/async-task.ts:590-598 | startedAt is set by the start of an attempt, to its time |
| AsyncRace.OverwriteNeedsLateCancel | src/async-task.ts:418-438 | unfused, an overwrite implies a cancel stored its status after the runner's own latest check, and the runner did nothing in between |
| AsyncRace.AbsorptionExactly | src/async-task.ts:418-438 | in any run a terminal record stays unchanged over a stretch exactly when the stretch holds no write whose check was answered before the record became terminal |
| AsyncRace.ReplacedAtExactly | src/async-task.ts:435-438 | a step of a run replaces a terminal record exactly when it is such a write |
| AsyncRace.MovesAreLegalExactly | src/async-task.ts:567-660 | a step of a run makes a legal status move exactly when it is not such a write over a terminal record |
| AsyncWitness.WindowCanStrandATask | src/async-task.ts:620-646 | a concrete run, in an order the in-memory store gives, in which CANCELLED becomes PENDING and stays so with nobody left to run it |
| AsyncWitness.WindowCanOutliveShutdown | src/async-task.ts:361-400 | a concrete run in such an order in which a shutdown has finished, having found a record already cancelled by a concurrent cancel, and that record is PENDING again |
| AsyncWitness.WindowCanBreakTheCap | src/async-task.ts:235-241 | a concrete run in such an order, from an empty store, in which two records are active under a cap of one |
| AsyncManager.AsyncTaskManager.AcquireASlot | src/async-task.ts:528-539 | the caller gets a slot exactly when fewer than maxConcurrent runners hold one, else it waits behind all others; the slot account is kept |
| AsyncManager.AsyncTaskManager.ReleaseASlot | src/async-task.ts:541-547 | the runner that waited longest, if any, comes to hold a slot and leaves the queue, and nobody else does; the counter falls exactly when nobody waited |
| AsyncManager.AsyncTaskManager.CountActiveTasks | src/async-task.ts:440-449 | the loop counts exactly the listed records that are PENDING or RUNNING |
| AsyncManager.AsyncTaskManager.CountAdmission | src/async-task.ts:235-241 | the count segment stores the number of listed records that are PENDING or RUNNING, and is the protocol's action |
| AsyncManager.AsyncTaskManager.DecideAdmission | src/async-task.ts:235-241 | the record is saved exactly when the count is below maxTasks; an admission adds exactly one active record, and stays under the larger of maxTasks and the present number whenever the count it is based on covers the active records |
| AsyncManager.AsyncTaskManager.Begin | src/async-task.ts:580-599 | a terminal record is never turned into RUNNING and ends the runner with the store untouched; an attempt that starts leaves the record RUNNING with startedAt set, never reset |
| AsyncManager.AsyncTaskManager.Settle | src/async-task.ts:608-635 | no record is touched; a flagged runner ends; any other goes to its check with COMPLETED after a call that returned, and after one that threw with a retry while at most maxRetries calls were made, else with FAILED |
| AsyncManager.AsyncTaskManager.Write | src/async-task.ts:610-660 | a runner told the record is terminal changes nothing; a runner whose write ends it leaves the record terminal, and one that goes on leaves it PENDING with a call left |
| AsyncManager.AsyncTaskManager.Finish | src/async-task.ts:660-676 | the ended runner holds no slot and no handle and has no unsettled body; its slot, if it held one, went to the head of the queue or is free |
| AsyncManager.SegmentKeeps | src/async-task.ts:549-675 | every segment leads to a reachable state; a record is touched only by its own runner and by a cancel, startedAt is written once, and terminal records stay and moves are legal unless a write overwrites a terminal record |
| AsyncManager.AsyncTaskManager.Drive | src/async-task.ts:549-675 | any sequence of segments run on the object is a stretch of a run of the protocol; at its end the slot account, the capacity bound and the call bounds hold |
| AsyncManager.AsyncTaskManager.CancelFinish | src/async-task.ts:297-327 | a cancel succeeds exactly on an active record it found, flags the handle if there is one, and marks the record |
| AsyncManager.AsyncTaskManager.ShutdownBegin | src/async-task.ts:361-384 | every handle is flagged and nothing else, and the list taken is the whole store |
| AsyncManager.AsyncTaskManager.IssueCancels | src/async-task.ts:385-393 | one cancel per listed record that is still active, whatever the order of the list |
| ExecutionLifetime.Lifetimes.Track | src/execution-lifetime.ts:10-25 | the execution becomes pending at its scope and every ancestor; the covering invariant is kept |
| ExecutionLifetime.Lifetimes.Settle | src/execution-lifetime.ts:22-24 | a settled execution leaves every set it was added to and no other |
| ExecutionLifetime.Lifetimes.DrainEnds | src/execution-lifetime.ts:27-30 | the drain's loop test holds exactly when no unsettled execution is tracked at the scope or below it |
| ExecutionLifetime.Lifetimes.Drain | src/execution-lifetime.ts:27-30 | the waiting loop, whatever starts and settles meanwhile, returns only when nothing unsettled is left at the scope or below it, and is still waiting only while something is |
| ExecutionLifetime.Lifetimes.CancelledByChain | src/cancel.ts:85-87 | a token is cancelled exactly when some token on its chain was |
| ExecutionLifetime.Lifetimes.Cancel | src/cancel.ts:89-95 | a cancel reaches the token and its descendants and nobody else |
| ExecutionLifetime.Lifetimes.Reset | src/cancel.ts:124-160 | a reset clears the token's own flag and no other; its signal stays fired and an ancestor's cancel stays visible |
| ExecutionLifetime.Lifetimes.CancelledImpliesSignal | src/cancel.ts:85-95 | whoever reads a token as cancelled also finds a fired abort signal on its chain |
| ExecutionLifetime.ChainIsAncestry | src/execution-lifetime.ts:13 | a chain holds exactly the scopes reached by going from parent to parent |
| ExecutionLifetime.ChainIgnoresNew | src/execution-lifetime.ts:5-7 | linking a new scope changes no existing chain |
| Strategy.InsertionKeeps | src/pipeline.ts:554-581 | an insertion of a fresh, unweakened step keeps names unique and gates unweakened |
| Strategy.ExecutionStrategy.Create | src/pipeline.ts:488-509 | construction succeeds exactly when gates are unweakened, names unique and dependencies met, judged in that order |
| Strategy.ExecutionStrategy.RebuildIndex | src/pipeline.ts:512-523 | the index is exactly the position map |
| Strategy.ExecutionStrategy.Missing | src/pipeline.ts:525-547 | nothing exactly when all dependencies are met; else the first offending step and exactly its missing keys |
| Strategy.ExecutionStrategy.InsertAt | src/pipeline.ts:554-582 | the step is inserted next to the anchor and stays inserted even when the dependency error is raised; every other error changes nothing |
| Strategy.ExecutionStrategy.Remove | src/pipeline.ts:584-595 | removes the named step exactly when there is one that may be removed, without validating dependencies again |
| Strategy.ExecutionStrategy.Replace | src/pipeline.ts:597-643 | replaces in place exactly when the new step is unweakened, the old replaceable and the name free |
| Strategy.RemoveCanBreakDependencies | src/pipeline.ts:584-595 | a removal can leave a list that construction would have refused |
| Strategy.RemovalKeepsDependenciesExactly | src/pipeline.ts:584-595 | a removal keeps the list constructible exactly when no later step needs something only the removed step provides |
| Strategy.ReplacementKeepsDependenciesExactly | src/pipeline.ts:597-643 | a replacement keeps the list constructible exactly when its own needs are met and no later step loses its only provider |
| Pipeline.Run | src/pipeline.ts:1027-1368 | the engine's loop ends and computes the run function, whose turns `PipelineTurns.RunGoesByTurns` gives in terms of filters, hooks, bodies and results |
| Pipeline.RunBeforeHooks | src/pipeline.ts:1111-1133 | before hooks run 0 upward and stop at the first that fails |
| Pipeline.RunAfterHooks | src/pipeline.ts:905-919 | after hooks run from the last down and stop at one that throws |
| Pipeline.RunErrorHooks | src/pipeline.ts:930-952 | error hooks run from the last down to the first that recovers; a throwing one counts as no answer |
| Pipeline.RunCleanupHooks | src/pipeline.ts:972-990 | every middleware entered is told, innermost first |
| Pipeline.PositionIsIndex | src/pipeline.ts:1341-1360 | on unique names, looking a skip_to target up by name finds its one position |
| PipelineSafety.TraceListsSteps | src/pipeline.ts:1042-1368 | the trace names a prefix of the step list in order; a run to the end lists every step exactly once |
| PipelineSafety.RunIsAnOnion | src/pipeline.ts:1111-1291 | around every step of every run the hook calls have one of the onion shapes, and no step is entered twice |
| PipelineSafety.OnionMatchesFate | src/pipeline.ts:1111-1291 | which shape goes with which fate: success, failed before hook, recovery, failure |
| PipelineSafety.GatesAreNotBypassed | src/pipeline.ts:1052-1360 | in a non-dry run, however it ends, every gate before the step it ended at (after a normal return every gate listed) was run to a non-abort result, jumped by an earlier skip_to, or recovered by a middleware |
| PipelineSafety.NothingRecovered | src/pipeline.ts:1206-1247 | without step middleware nothing is ever recovered |
| PipelineSafety.DryTurnIsExact | src/pipeline.ts:1053-1093 | failedProvides is exactly the set of keys whose last provider so far did not succeed |
| PipelineSafety.DryRunIsSound | src/pipeline.ts:1053-1310 | a dry run, however it ends, enters only pure steps, each with its requirements seeded or last provided by a success; at a normal end failedProvides is exact |
| PipelineTurns.BeforeHooksExactly | src/pipeline.ts:1111-1133 | the before hooks stop at the first that throws, each on the context the one before left |
| PipelineTurns.AfterHooksExactly | src/pipeline.ts:905-919 | the after hooks stop at the first, from the last down, that throws |
| PipelineTurns.ErrorHooksExactly | src/pipeline.ts:930-952 | the error hooks stop at the first, from the last down, that recovers |
| PipelineTurns.TurnFollowsAnswers | src/pipeline.ts:1042-1360 | trace entry, position, context, failed keys and calls of every turn, for each answer of filter, hooks, body, result, recovery and runUntil |
| PipelineTurns.RunGoesByTurns | src/pipeline.ts:1027-1368 | every run is a chain of such turns to its end, and a normal end is successful exactly when nothing listed failed or aborted |
| PipelineTurns.ListedExactly | src/pipeline.ts:1052-1093 | in every run, however it ends, a listed step is marked as jumped, filtered out, impure or lacking a dependency exactly when it is, and was entered exactly when it is none of these |
| PipelineTurns.NoMatchExactly | src/pipeline.ts:1052-1073 | in every run a listed step that was not jumped is marked NoMatch exactly when it has a filter and no pattern of the filter fits the module id |
| PipelineTurns.EnteredMatches | src/pipeline.ts:1052-1073 | hooks and bodies are called only for steps without a filter or with a pattern that fits the module id |
| PipelineTurns.DryRunsEnterNoImpureGate | src/pipeline.ts:422-459 | a dry run enters a governance gate only when the gate is pure by default |
| Standard.StandardIsConstructible | src/builtin-steps.ts:1201-1216 | the standard strategy passes construction |
| Standard.PipelineContext.CheckAcl | src/builtin-steps.ts:360-381 | raises exactly on a deny; a call that passes has been allowed, and the context carries the approval requirement of that decision |
| Standard.PipelineContext.PassGate | src/builtin-steps.ts:510-664 | raises exactly on a malformed token, a refusal, or, when approval is needed, a missing handler under a strict policy; with a handler, a call that was allowed and passes was approved whenever the module, the policy or the ACL asked; the gate never runs the module |
| Standard.PipelineContext.ExecuteModule | src/builtin-steps.ts:875-945 | a ready call runs the module body once and raises, skips to the end or continues as it raised, streams or returned; after the gate it ran authorized; a call that is not ready runs nothing |
| Standard.PipelineContext.RunStandard | src/builtin-steps.ts:1201-1216 | the standard strategy run on the mutable context leaves it as the engine's run function says, and the module body ran only authorized |
| Standard.ModuleRunsOnlyAuthorized | src/builtin-steps.ts:360-945 | with an ACL, a handler and no step middleware, the module body runs at most once, after an allow and after an approval whenever one is asked for |
| Standard.ExecuteIsSafe | src/builtin-steps.ts:875-945 | the execute step adds the module body to a history that has passed ACL and gate |
| Redaction.SchemaVariants | src/executor.ts:198-224 | the worklist ends on cyclic graphs, lists no schema twice, and returns exactly the schemas reachable through references and combinators |
| Redaction.RedactBySchema | src/executor.ts:229-247 | the walk's result is the redaction by the reachable schemas, also when the value was redacted before |
| Redaction.RedactArrayBySchema | src/executor.ts:249-259 | every element is redacted by the schema this variant gives its index, in both tuple dialects |
| RedactionSchemas.DescribedAtExactly | src/executor.ts:198-273 | the schemas at a position are exactly those reached from the root by references, branches, properties and the element keyword of each schema's dialect |
| RedactionSchemas.PositionRedactedExactly | src/executor.ts:229-273 | below nothing sensitive, a non-null value becomes the marker exactly when a sensitive schema so reached describes it, and any other plain value stays |
| RedactionSchemas.UniformItemsRedacted | src/executor.ts:249-259 | without a tuple keyword of its dialect, the schema under `items` decides every element |
| RedactionSchemas.SlotRedacted | src/executor.ts:249-259 | an element under a slot of the tuple is decided by that slot |
| RedactionSchemas.PastTheTupleRedacted | src/executor.ts:249-259 | an element past the tuple is decided by `items`, in a legacy dialect by `additionalItems` |
| RedactionSchemas.PrefixItemsUnreadInLegacy | src/executor.ts:249-259 | what a legacy schema holds under `prefixItems` changes the redaction of no value |
| Redaction.RedactFields | src/executor.ts:261-273 | every field is redacted by all properties declared in any variant, whatever the order of variants and properties |
| Redaction.RedactionsCompose | src/executor.ts:229-273 | redacting by one set of schemas and then another equals redacting once by both |
| Redaction.RedactIdempotent | src/executor.ts:229-273 | redacting twice equals redacting once |
| Redaction.RedactedPosition | src/executor.ts:229-273 | below no sensitive position, every non-null value described by a sensitive schema becomes the marker and every other scalar is unchanged |
| Redaction.NoNewPositions | src/executor.ts:229-273 | redaction adds no position to the value |
| Redaction.RedactSecretPrefix | src/executor.ts:275-289 | the walk replaces exactly the non-null fields named with the secret prefix, at any depth |
| RedactionSchemas.SecretPosition | src/executor.ts:275-289 | position by position: a field named `_secret_...` becomes the marker unless it is null, any other plain value stays |
| Redaction.SecretsCommute | src/executor.ts:175-185 | the schema rule and the secret rule give the same value in either order |
| Redaction.RedactSensitive | src/executor.ts:175-185 | both rules at the capture point: every secret or sensitive top-level field is the marker, every other field is redacted inside |
| Merging.DeepMergeChunk | src/executor.ts:329-363 | the loop stays inside the two values exactly when no object it enters has an own `__proto__` that the other lacks; then it computes the capped merge, entering at most maxDepth levels |
| Merging.DeepMergeDicts | src/config.ts:202-226 | the same for configuration layers and the uncapped merge |
| Merging.LeavesValuesExactly | src/executor.ts:342-361 | the capped walk leaves the two values exactly when at some place it enters, under objects of both, only the chunk has an own `__proto__` |
| Merging.LeavesLayersExactly | src/config.ts:202-226 | the same for layers, at any depth |
| Merging.ChunkWithOwnPrototype | src/executor.ts:342-361 | a chunk with an own `__proto__` leaves the two values whatever it is merged into |
| Merging.MergedAt | src/executor.ts:329-363 | what the merge holds at every path, in terms of its two inputs alone |
| Merging.AddsNothing | src/config.ts:202-226 | a merge gives back the overlay exactly when the overlay covers the base |
| Merging.CapExact | src/executor.ts:329-363 | exactly when the depth cap makes no difference |
| Merging.CapInvisibleToShallowChunks | src/executor.ts:329-363 | a chunk nested no deeper than the cap is merged as without it |
| Merging.MergeTwice | src/executor.ts:329-363 | merging the same chunk again changes nothing |
| Merging.AssociativeExactly | src/config.ts:202-226 | grouping three layers differently gives the same result exactly when no plain value in the middle separates objects |
| Merging.SeparatedLayers | src/config.ts:202-226 | a concrete failure of associativity |
| ConfigPaths.GetNested | src/config.ts:228-247 | the loop returns the value the path addresses, and nothing for missing segments or the three refused names |
| ConfigPaths.ReadAfterAssign | src/config.ts:277-304 | every path read after one in-place assignment |
| ConfigPaths.IndexExactly | src/config.ts:303 | a property name stands for a list index exactly when it is that number in decimal, below 2^32 - 1 |
| ConfigPaths.LengthAfterAssign | src/config.ts:303 | after assigning an index, a list's length is what it was, or one more than the index if that is more |
| ConfigPaths.SetNested | src/config.ts:277-304 | the written value and all beneath it read back, objects on the way keep their kind, everything beside the path is unchanged but the length of a grown list; exactly a refused name refuses the write, and exactly a path through a list's length ends in `ListLength` |
| ConfigSuffix.MatchSuffixToTree | src/config.ts:455-484 | finds a reading of the suffix as at most max(1, maxDepth) keys the tree is seen to have, own or inherited, whenever one exists, and the most preferred one |
| ConfigSuffix.PreferenceDecides | src/config.ts:455-484 | the most preferred reading is unique |
| ConfigSuffix.FitsFromFirstSeparator | src/config.ts:466-481 | a reading of several keys is a split at an inner underscore and a reading of the rest |
| ConfigSuffix.OwnPathsAddressValues | src/config.ts:455-484 | a reading of own keys without dots is a dot-path that exists in the tree |
| ConfigSuffix.OwnPathsOnlyExactly | src/config.ts:462-470 | for exactly which suffixes every reading, in every tree, is a path of own keys: those that are not, and do not end in an underscore and, `constructor` or `__proto__` |
| ConfigSuffix.OtherReadingsAreRefused | src/config.ts:462-484 | any other reading ends in an inherited name, so the write it leads to is refused |
| ConfigSuffix.ConstructorOfADictionary | src/config.ts:462-484 | the suffix A_B_CONSTRUCTOR against defaults with an empty dictionary a_b resolves to a_b.constructor, which is no path of own keys |
| ConfigSuffix.AutoResolveSuffix | src/config.ts:490-501 | a key of the defaults if the suffix reads as one, else the nested conversion |
| ConfigSuffix.EnvSuffixToDotPathWithDepth | src/config.ts:424-450 | the scanner is the depth-limited reading without its outer dots |
| ConfigSuffix.LimitedIsLegacyExactly | src/config.ts:402-450 | it equals the legacy decoder without outer dots exactly when the suffix has at most maxDepth - 1 separators |
| ConfigSuffix.DecodeBeyond | src/config.ts:424-450 | past the last dot: the legacy reading up to the first separator too many, then an underscore, then the rest with only doubled underscores read |
| ConfigSuffix.StripTakesOuterDots | src/config.ts:448 | stripping takes away exactly the dots at the two ends |
| ConfigSuffix.RoundTripExactly | src/config.ts:402-406 | writing a path as a variable name and decoding it is the identity exactly on lower-case paths where no dot is followed by a dot or underscore |
| TraceContext.ParseTracestate | src/trace-context.ts:176-210 | the loop with its early exit returns the entries of the first 32 members that count; which count, and for what, `TraceMembers` gives on the raw text |
| TraceMembers.MemberCountsExactly | src/trace-context.ts:181-205 | a member is dropped exactly when it has no equals sign, a blank key, a blank value or white space inside its key; any other gives the entry that stands in it between white space |
| TraceMembers.BlanksDoNotMatter | src/trace-context.ts:181-205 | any white space around the members and their first equals signs changes nothing |
| TraceMembers.ListsCompose | src/trace-context.ts:176-210 | a list of two parts gives the entries of both in order, up to 32 |
| TraceContext.ParsedIsNormal | src/trace-context.ts:176-210 | whatever the header, at most 32 entries with non-empty, trimmed, comma-free members |
| TraceContext.PrintedListReadsBackExactly | src/trace-context.ts:216-218 | a list survives printing and parsing exactly when it is in normal form |
| TraceContext.ParseIsStable | src/trace-context.ts:176-218 | parse, print, parse equals parse, for every string |
| TraceContext.Extract | src/trace-context.ts:107-136 | the receiver's checks in order: header, grammar, version ff, zero ids, state list |
| TraceMembers.ExtractsExactly | src/trace-context.ts:107-136 | the parts taken over are exactly those that the first traceparent header, trimmed and in lower case, spells out with non-zero ids in a version other than ff, and the state of the first tracestate header |
| TraceMembers.InjectedParent | src/trace-context.ts:63-80 | the parent id sent is the explicit one, else the innermost span's, else the drawn one; a malformed explicit id is refused |
| TraceMembers.InjectedState | src/trace-context.ts:82-104 | flags and state sent are the call's own, else the inbound ones, else 01 and none |
| TraceContext.ExtractOfInjectExactly | src/trace-context.ts:63-136 | the receiver recovers ids, flags and state exactly when they are well formed, non-zero and in normal form |
| Text.JoinOfSplit | src/config.ts:277-278 | joining the pieces of a split gives the text back |
| Text.SplitOfJoin | src/config.ts:464-484 | splitting a join of separator-free pieces gives the pieces back |

## Left out

- Access control: audit entries, warning texts and fault messages; condition paths are structured rather than strings and faults are not sorted; handlers do not see the path; `removeRule`, `reload` and file loading; interleaved `asyncCheckAccess` calls sharing the frame slot; re-registration of the built-in condition handlers; the identity, role and depth handlers are leaf handlers like any other.
- Acl.MatchesRule: reads patterns by their meaning, which `Wildcards.MatchPattern` is proved to compute.
- Asynchronous tasks: results, errors, timestamps other than `startedAt`, store failures and stores shared between processes; the age filter of cleanup and reaper and all timers are nondeterministic; a missing retry configuration is `maxRetries` 0; microtask order is over-approximated by arbitrary interleaving in what is proved of every run.
- Execution lifetimes: promises are settled by an explicit call; garbage collection of scopes and `AbortSignal` wiring.
- Pipeline: step bodies, middleware and context data are functions of the context; a missing hook is one that returns at once; step timeouts, per-step outputs, events, spans and `pipeline.configure`; the step list is fixed during a run.
- Standard strategy: `ExecutionPolicy.resolve`, the governance union and token handling are oracles; steps other than ACL, gate and execute only continue or raise.
- Redaction: values are trees without sharing and the walk returns the new value; `$ref` URIs are resolved already; inherited property names; the configured rules (`RedactionConfig.redact`, not part of this model).
- Merging: objects are values, so a merged chunk never aliases an earlier one; what the host does once the walk has left the two values.
- ConfigPaths.SetNested: a write to a list's own `length` ends in `ListLength`; the resize or error the host then produces is not modelled.
- Configuration: value coercion, namespaces, file loading; letter case is folded for ASCII only.
- Trace Context: header containers are lists of name and value strings; random id generation is a parameter.
- Client facade, registry, decorators, serialization, observability and error classes: thin or library-backed.
