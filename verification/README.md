# lakeFS core protocols and data structures, in Dafny

A model of the parts of lakeFS where several actors or several writes have to agree, and
proofs of what they promise. One file per component:

| files | component |
|---|---|
| `Batch`, `BatchExecutor` | request batching: callers, the `Run` loop, timers and batch goroutines as a state machine over atomic steps; the executor object's methods are proved to be those steps |
| `OnlyOne`, `OnlyOneObject` | single-flight evaluation: load-or-store, evaluate, close, delete, as a state machine and as an object whose methods are proved to be its steps |
| `Arena`, `PaddedKeys`, `SortedEntries`, `BoundedMap` | the typed arena, the map on top of it, and the two-level bounded-key map with its in-place `Optimize` |
| `Variables` | embedding values of variables in a text as references, and expanding them again |
| `Conditions`, `Arn`, `Policy`, `PolicyConditions`, `PolicyGrowth`, `PolicyMeaning`, `PolicyExamples` | policy conditions, resource names, the three-valued permission evaluator and the two evaluators that filter listings; how far decisions depend on map iteration; which trees keep Allow when statements are added; what a decision means in terms of the texts of the statements; inputs on which the evaluators do what their descriptions do not promise |
| `Options`, `Kv` | optional values; the ordered key-value store: byte order, paths, prefix scans and iterators |
| `HookRunIds`, `Manifests`, `HookRuns` | hook run IDs; allocation, concurrent execution and the manifest of the hooks of one event |
| `RunKeys`, `RunIterators`, `RunStore`, `RunProtocol`, `RunReadBack`, `RunPipeline` | storing runs with secondary indexes in several writes, under any interleaving and any crash point, and reading them back |
| `Paging`, `RunPages`, `RunHistory` | listing runs and hook runs page by page; what the store holds as a history of its writes |
| `AuthKeys`, `AuthStore`, `Credentials`, `CredentialHistory`, `PrincipalPages` | users, credentials with their index, and external principals, operation by operation; which addition a credential comes from; listing external principals page by page |
| `CredentialSteps`, `CredentialWrites`, `CredentialLimit`, `CredentialCrashes` | adding credentials and deleting users at work together, one read or write at a time: how far the limit can be exceeded, and when index entries and credentials agree |

Conventions. A concurrent protocol is a step function over a state, and its theorems speak of
the state after an arbitrary sequence of steps. Code that updates objects or arrays in place
is a class or a method over an array whose contract ties the new state to the old one; maps
and slices it reassigns are fields of type `map` and `seq`. Go's map iteration order is a
parameter (any order), as are the glob matcher, the JSON decoder, IP parsing, the expression
language of `if`, the outcome of a hook, the slack a reallocation adds, and the clock. Strings
stand for byte strings, one character per byte; a time is a number and 0 is the zero time.
The store of runs is a map ordered by byte-wise comparison of keys, all in one partition.

Where code and comments disagree the model follows the code:

- `pkg/auth/service.go:1309-1313` says an And node is denied when one permission is; the code
  stops at the first neutral permission. `Policy.AndBreaksPromiseIff` says exactly when the two
  differ, `PolicyExamples.AndCanMissDeny` gives policies and a tree.
- `pkg/auth/policy_filter.go:28-30` calls the filter similar to the evaluator.
  `Policy.FilterDiffers` says exactly where they differ, with an input for each direction in
  `PolicyExamples`.
- `pkg/auth/basic_service.go:402-432`: deleting a user leaves the index entry of an empty
  access key behind (`Credentials.DanglingIffEmptyKey`), which does happen
  (`Credentials.DanglingIsReachable`), and that key is then blocked for everyone
  (`Credentials.DanglingBlocksKey`).
- `pkg/auth/basic_service.go:597-646`: the page token of a user's external principals is an ID
  that the next call compares with whole keys, and `pkg/api/controller.go:6707-6724` hands it
  out as the next offset. `PrincipalPages.TokensShowAllIff` says exactly when following the
  tokens shows every principal. For IDs that come before the keys, as ARNs do, it ends if and
  only if some page asks for more principals than there are (`PrincipalPages.BeforeEndsIff`);
  with one principal, listed one by one, it never does (`PrincipalPages.OnePrincipalLoops`).
  For IDs that come after the keys everything behind the first page is lost
  (`PrincipalPages.BehindShowsFirstPage`).
- `pkg/auth/basic_service.go:324-400`: the limit of ten credentials is checked before the new
  one is stored. With n additions at work together a user can get 9 + n credentials, and never
  more (`CredentialSteps.LimitExceededByAdders`, `CredentialLimit.LimitIsReached`).
- `pkg/auth/basic_service.go:190-214,361-432`: when a user is deleted while a credential is
  being added for it, or an addition stops between its two writes, a credential can outlive its
  user, and another user's credential can become impossible to look up. `CredentialCrashes`
  has a run for each, and the theorem for runs in which neither happens.
- `pkg/actions/service.go:611-613`: the order of hook run IDs is that of the indices exactly
  below 10000 (`HookRunIds.OrderHoldsExactlyBelow10000`).
- `pkg/actions/kv_task_results_iterator.go:17-29` and `kv_run_results_iterator.go:31-42`: the
  scan prefixes of a run, a commit and a branch do not end with a delimiter. Following the
  pages shows exactly what was asked for if and only if nothing is stored under an ID that
  continues the one asked for (`RunPages.PagesShowTasksIff`, `RunPages.PagesShowIndexIff`). The
  ID comes from the request: asked for a saved run's ID without its last character, the pages
  of its hooks go round in circles (`RunPages.PagingCanLoop`).

Not a disagreement, but worth knowing: a call of `Compute` (`pkg/cache/only_one.go:28-40`) can
get a result that is older than the call, from the moment fn has returned until the entry is
deleted (`OnlyOne.OlderIff` says exactly when, `OnlyOne.LateJoinerGetsFinishedResult` has a
schedule).

## Model

| member | source | states |
|---|---|---|
| Batch.InvAlways | pkg/batch/executor.go:119-192 | every state of every interleaving satisfies the protocol invariant: FIFO channel, one place per request, one token per waiting key, sound waiters, batches and deliveries |
| Batch.EachRequestInOnePlace | pkg/batch/executor.go:119-192 | at every moment an issued request is in exactly one of: the queue, the waiters of its key, the undelivered part of one dispatched batch, the answered ones; and nothing else is anywhere |
| Batch.NoSecondAnswer | pkg/batch/executor.go:186-188 | no request is answered twice |
| Batch.TokenIffWaiting | pkg/batch/executor.go:153-177 | a key is in the waiter table if and only if exactly one timer or queued exec token is outstanding for it, and then its list is not empty |
| Batch.DispatchNeverNil | pkg/batch/executor.go:171-177 | the lookup on dispatch always finds a non-empty waiter list |
| Batch.ResultsAreFresh | pkg/batch/executor.go:153-188 | a value a caller receives comes from an Execute for the same key that started after the caller's own request was enqueued |
| Batch.BatchesAreFrozen | pkg/batch/executor.go:171-189 | whatever happens later, a dispatched batch keeps its waiters, its start and its result |
| Batch.LateRequestsGoToLaterBatches | pkg/batch/executor.go:153-189 | a request not yet accepted when a batch is dispatched is never in that batch nor answered by it |
| Batch.OneBatchPerRequest | pkg/batch/executor.go:171-189 | a request belongs to at most one dispatched batch |
| Batch.OthersGetAnError | pkg/batch/executor.go:137-152 | whoever is answered by no batch gets an error, and only once the context is done |
| Batch.BuffersAreBounded | pkg/batch/executor.go:10-112 | neither channel ever holds more than its buffer of 2^17 |
| Batch.JoinersAreTold | pkg/batch/executor.go:165-169 | Batched is called exactly on the trackable requests of a batch other than its first |
| Batch.ShutdownLosesNothing | pkg/batch/executor.go:137-152 | once Run has returned, every request it dequeued was answered or is in a dispatched batch, and what is left in the channel was sent later |
| BatchExecutor.Executor.SendRequest | pkg/batch/executor.go:119-132 | the send of BatchFor is a step of the protocol and queues the request last |
| BatchExecutor.Executor.HandleRequest | pkg/batch/executor.go:153-170 | accepting a request is the protocol's Accept step and keeps the invariant |
| BatchExecutor.Executor.HandleExec | pkg/batch/executor.go:171-190 | dispatching is the protocol's Dispatch step; the new batch has waiters |
| BatchExecutor.Executor.HandleDone | pkg/batch/executor.go:137-152 | the shutdown loops are a run of the protocol that ends stopped with an empty channel, having told all waiters in map order and then all queued requests |
| BatchExecutor.ToldKeysTellsAll | pkg/batch/executor.go:139-143 | every waiter of every key is told |
| BatchExecutor.ToldAppends | pkg/batch/executor.go:140-149 | a list of requests is answered with one cancellation each, in order |
| OnlyOne.InvAlways | pkg/cache/only_one.go:28-40 | every reachable state of any number of concurrent calls satisfies the invariant relating the map, the entries and the calls |
| OnlyOne.OneEvaluationPerKey | pkg/cache/only_one.go:28-40 | at most one fn per key runs at a time |
| OnlyOne.OwnerDeletesItsOwnEntry | pkg/cache/only_one.go:36-37 | the delete of a call removes its own entry, never another's |
| OnlyOne.ReturnsOneEvaluation | pkg/cache/only_one.go:32-39 | a caller returns the result of one completed evaluation for its key by the owner of the entry it found, and no entry is evaluated twice |
| OnlyOne.LookupIsInsideTheWindow | pkg/cache/only_one.go:30-37 | the entry a caller used was stored before its lookup and deleted after it |
| OnlyOne.JoinersAreReleased | pkg/cache/only_one.go:32-36 | a waiting joiner can proceed, or the owner has a step that leads to closing its channel |
| OnlyOne.OlderIff | pkg/cache/only_one.go:28-40 | for every joiner in every reachable state: the result it gets was complete before its lookup if and only if, at that step, the entry's owner had already assigned it |
| OnlyOne.LateJoinerGetsFinishedResult | pkg/cache/only_one.go:36-37 | a schedule in which a joiner gets a result completed before its lookup |
| OnlyOneObject.ChanOnlyOne.LoadOrStore | pkg/cache/only_one.go:29-31 | in any state that the other calls have left: finds the entry of the key or stores a new open one, as the protocol's step does |
| OnlyOneObject.ChanOnlyOne.Assign | pkg/cache/only_one.go:35 | the owner's entry gets the result, its channel is still open; the protocol's step |
| OnlyOneObject.ChanOnlyOne.Close | pkg/cache/only_one.go:36 | the owner's channel is closed, its entry still in the map; the protocol's step |
| OnlyOneObject.ChanOnlyOne.Delete | pkg/cache/only_one.go:37-39 | the key is gone from the map and the owner returns its result; the protocol's step |
| OnlyOneObject.ChanOnlyOne.Receive | pkg/cache/only_one.go:32-39 | once the entry is closed, a joiner returns its result and leaves the map alone; the protocol's step |
| OnlyOneObject.ChanOnlyOne.Compute | pkg/cache/only_one.go:28-40 | one call that is not interrupted: the owner's result if the key is taken, otherwise that of fn; the map is unchanged afterwards, and the call is a run of the protocol that returns the same result |
| OnlyOneObject.OneCallReturns | pkg/cache/only_one.go:28-40 | from any reachable state, the protocol's run of one call is reachable, returns that result, and leaves the map and the other entries alone |
| Arena.SliceArena.Append | pkg/arena/arena.go:51-58 | appends one element, returns its index, leaves all earlier elements at their indices, and keeps the amortised bound |
| Arena.SliceArena.Get | pkg/arena/arena.go:60-66 | the element at an index in range, nothing otherwise |
| Arena.AppendAll | pkg/arena/arena.go:33-58 | over any n appends with any slack, reallocation copies at most 23n/3 elements and every index keeps denoting its element |
| Arena.ArenaMap.Put | pkg/arena/arena.go:105-114 | behaves as a plain map update while keeping its values in the arena |
| Arena.ArenaMap.Get | pkg/arena/arena.go:116-121 | the value of a plain map |
| PaddedKeys.TrimIsInjective | pkg/arena/arena.go:145-153 | zero-padding is injective on keys that do not end in a zero byte |
| PaddedKeys.TrimCollidesIff | pkg/arena/arena.go:145-164 | two keys of at most 32 bytes are confused exactly when they differ in trailing zero bytes only |
| PaddedKeys.TrimKeepsOrder | pkg/arena/arena.go:145-153 | zero-padding keeps the byte order of such keys |
| PaddedKeys.StripInvertsTrim | pkg/arena/arena.go:145-153 | dropping trailing zeros undoes the padding |
| SortedEntries.SortStableIsUnique | pkg/arena/arena.go:217 | two sorted lists with the same entries of each key in the same order are equal, so the stable sort has one possible outcome |
| SortedEntries.SortStableIsStable | pkg/arena/arena.go:217 | the entries of each key keep their order |
| SortedEntries.DedupKeepsLast | pkg/arena/arena.go:219-230 | deduplication keeps each key with its last occurrence's value |
| SortedEntries.DedupIsStrict | pkg/arena/arena.go:219-230 | deduplicating a sorted list gives a strictly sorted one |
| BoundedMap.CompactLoop | pkg/arena/arena.go:221-227 | the in-place read/write-index loop leaves the deduplicated entries in front |
| BoundedMap.BinarySearch | pkg/arena/arena.go:200-204 | finds a key exactly when it is there, at its position |
| BoundedMap.OptimizeMerges | pkg/arena/arena.go:211-230 | appending the small map in any order, sorting stably and deduplicating merges the two levels, the newer value winning |
| BoundedMap.BoundedArenaMap.Put | pkg/arena/arena.go:188-190 | the map's contents are updated as a plain map's |
| BoundedMap.BoundedArenaMap.Get | pkg/arena/arena.go:192-205 | the latest value put, for every key of at most 32 bytes not ending in a zero byte |
| BoundedMap.BoundedArenaMap.Len | pkg/arena/arena.go:207-209 | over-counts by exactly the keys present in both levels |
| BoundedMap.BoundedArenaMap.Optimize | pkg/arena/arena.go:211-233 | changes no value, for any iteration order, and leaves no key in both levels, so Len is exact after it |
| Variables.ReverseMap | esti/lakectl_util.go:121-130 | fails exactly when two variables share a value; otherwise inverts the map |
| Variables.EmbedVariables | esti/lakectl_util.go:120-143 | for any iteration order and any outcome of the unstable sort: fails exactly on a shared value, otherwise embeds in a longest-first order |
| Variables.EmbedIsComplete | esti/lakectl_util.go:106-143 | the embedded text is the original with marked references, which stand for what they replaced, and no literal run still holds a value |
| Variables.RoundTripsIff | esti/lakectl_util.go:91-143 | for any non-empty values, also ones that hold syntax: if no value can overlap the reference of a variable processed before it, a text survives embedding and expanding exactly when it holds no reference |
| Variables.MeetsOnlyNames | esti/lakectl_util.go:91-143 | for values without syntax this condition says that no name contains a value processed later |
| Variables.ReplaceAllIff | esti/lakectl_util.go:138-140 | replacing all occurrences of a text that cannot overlap itself: the pieces between them stay in order, with the replacement between them, and nothing else is the result |
| Variables.ReplaceEmptyIs | esti/lakectl_util.go:138-140 | replacing the empty text puts the replacement before, between and after the characters |
| Variables.RoundTripLaw | esti/lakectl_util.go:91-143 | every reference-free text survives if and only if no name contains a value that is processed later |
| Variables.RoundTripLawForAllOrders | esti/lakectl_util.go:91-143 | the same over all processing orders: the law holds for all of them if and only if no name contains another value that is no longer than its own |
| Variables.DollarValueBreaks | esti/lakectl_util.go:138-140 | what values that hold syntax can do: with a value that is a dollar sign, an order that the code may use makes expansion fail |
| Conditions.EvaluateField | pkg/auth/condition.go:78-126 | missing or empty context fails, unparseable context is an error, and the first value that is no plain mismatch decides |
| Conditions.Evaluate | pkg/auth/condition.go:68-130 | for any iteration order of the fields: the first field that does not pass decides; the nil context |
| Conditions.EvaluateConditions | pkg/auth/condition.go:148-179 | for the given iteration orders: the first operator that does not pass decides, each in the order of its fields; so the result is one that some orders allow, and it is a pass exactly when every field holds in the sense of ConditionsMean |
| Conditions.GivenIsUnique | pkg/auth/condition.go:148-179 | the iteration orders determine the result |
| Conditions.InOrderLaw | pkg/auth/condition.go:78-126 | which results the iteration orders of a map can give: pass exactly when all keys pass, any other result exactly when some key gives it |
| Conditions.ConditionsLaw | pkg/auth/condition.go:148-179 | conditions can pass exactly when every field of every operator passes, and can fail in a way exactly when some operator or field does |
| Conditions.ConditionsMean | pkg/auth/condition.go:68-179 | for every map of conditions, context and result, in terms of addresses and networks: IpAddress needs a first readable value that hits the address, NotIpAddress that all values are readable misses; when a condition fails, and which error it can give |
| Conditions.PassIsOrderIndependent | pkg/auth/condition.go:148-179 | if some order passes, every order passes |
| Conditions.FailureIsOrderIndependentIff | pkg/auth/condition.go:148-179 | two orders can disagree exactly when two operators or fields fail in different ways |
| Arn.ParseARN | pkg/auth/arn.go:60-85 | the loop over the parts accepts exactly what parsing means, and an accepted text is the one its name is written as |
| Arn.ParseIff | pkg/auth/arn.go:31-85 | parsing accepts exactly the texts of valid names and returns the name written |
| Arn.SplitOfJoin | pkg/auth/arn.go:69 | splitting undoes joining, the last part may contain colons |
| Arn.JoinOfSplit | pkg/auth/arn.go:69 | joining undoes splitting |
| Arn.Arn.ParseField | pkg/auth/arn.go:31-58 | sets one field, or refuses its text and sets none |
| Arn.ArnMatchIff | pkg/auth/arn.go:87-113 | a pattern matches everything, or well-formed names of the same service, partition and account whose resource it globs |
| Policy.CheckPermissions | pkg/auth/service.go:1230-1327 | the evaluator with its loops and short-circuits computes the meaning of the tree over the set of statements; its audit trail records the denying action of a statement, and as not allowed only actions that were neutral |
| PolicyMeaning.LeafMeans | pkg/auth/service.go:1243-1292 | the decision at a permission in terms of the texts: Deny if some statement's conditions or resources cannot be evaluated, or it applies, denies and covers the permission; otherwise Allow if one applies, does not deny and covers it |
| PolicyMeaning.ReachesIff | pkg/auth/service.go:1268-1272 | a resource of a statement hits a permission's exactly when, with the user's name in place of each ${user}, it is everything or a well-formed name that matches |
| PolicyMeaning.ListsIff | pkg/auth/arn.go:115-130 | the resources of a statement: the text itself, or the JSON list in it; none for an empty text or a list that cannot be decoded |
| PolicyMeaning.OwnResourceDecides | pkg/auth/service.go:1329-1331 | a statement on the user's own resource decides on another user's exactly when the matcher takes one name for the other |
| PolicyMeaning.OnlyOwnResource | pkg/auth/setup/setup.go:103-108 | with literal matching, a policy on one's own user allows it for oneself and for nobody else |
| Policy.CheckLeaf | pkg/auth/service.go:1245-1292 | the leaf decision depends on nothing but the set of statements, not on their order or grouping |
| Policy.CheckOr | pkg/auth/service.go:1294-1307 | denied if a child denies, allowed if one allows and none denies |
| Policy.CheckAnd | pkg/auth/service.go:1309-1320 | the first result that is not Allow, if any |
| Policy.AndBreaksPromiseIff | pkg/auth/service.go:1309-1320 | on every And with a denied child: it misses the documented Deny exactly when its first child that is not allowed is neutral, and it is never Allow |
| PolicyExamples.AndCanMissDeny | pkg/auth/service.go:1309-1320 | policies and an And with a denied child that come out Neutral |
| Policy.AddingDeny | pkg/auth/service.go:1243-1326 | on every tree, one more deny statement leaves the result or makes it Deny |
| Policy.AddingAllow | pkg/auth/service.go:1243-1326 | on every tree, one more well-formed allow statement keeps Deny and takes Allow to Allow or Deny only |
| Policy.AddingAllowKeepsAllow | pkg/auth/service.go:1243-1326 | on trees with no And below an Or, it keeps Allow |
| Policy.AllowCanHurtBelowOr | pkg/auth/service.go:1294-1320 | below an Or the restriction is needed: a family of trees where an added allow turns Allow into Deny |
| PolicyExamples.AddedAllowCanDeny | pkg/auth/service.go:1294-1320 | policies, a tree and an allow statement that turns its Allow into Deny |
| PolicyGrowth.MakesMove | pkg/auth/service.go:1243-1326 | whatever the policies and the tree, adding a well-formed allow statement changes the result in one of the ways computed along the shape of the tree |
| PolicyGrowth.MoveIsMade | pkg/auth/service.go:1243-1326 | for leaves with different actions, some policies and some allow statement change the result in each of these ways |
| PolicyGrowth.KeepsAllowIff | pkg/auth/service.go:1243-1326 | for leaves with different actions: every added allow statement keeps Allow, under any policies, if and only if Allow to Deny is not among the ways computed from the shape |
| PolicyGrowth.AndOfOneBelowOr | pkg/auth/service.go:1294-1320 | an And of one permission below an Or keeps Allow |
| PolicyGrowth.AndOfTwoBelowOr | pkg/auth/service.go:1294-1320 | an And of two below an Or does not |
| Policy.LeafOfUnion | pkg/auth/service.go:1248-1289 | two groups of statements decide together as an Or of their decisions |
| PolicyConditions.EvalIsPossible | pkg/auth/service.go:1243-1326 | the evaluator with one outcome for each condition map is one of the possibilities when every visit of a statement iterates its maps anew |
| PolicyConditions.TreeIsFixed | pkg/auth/service.go:1243-1326 | with an independent order at each visit of a statement: if no statement can both be skipped and fail, every tree has one result |
| PolicyConditions.LeafIsFixedIff | pkg/auth/service.go:1251-1261 | with an independent order for each statement, a leaf has one result if and only if no statement can both be skipped and fail, or some other statement opposes anyway |
| PolicyExamples.OrderCanDecide | pkg/auth/service.go:1251-1261 | a request and an allow statement with a condition on two fields: one order denies, the other leaves it neutral |
| Policy.CheckPermission | pkg/auth/policy_filter.go:31-77 | the filter is the leaf decision over the condition-free, parseable statements |
| Policy.FilterAgrees | pkg/auth/policy_filter.go:28-77 | on such policies the filter and the evaluator agree |
| Policy.FilterDiffers | pkg/auth/policy_filter.go:37-47 | on all policies, exactly where the filter errs: it grants too much if and only if a plain statement allows, none denies, and one that is not plain opposes; it misses a grant if and only if nothing opposes and only statements with conditions allow |
| PolicyExamples.FilterCanGrantTooMuch | pkg/auth/policy_filter.go:37-47 | an allow and a conditional deny: the filter grants what the evaluator denies |
| PolicyExamples.FilterCanMissGrant | pkg/auth/policy_filter.go:37-47 | a conditional allow: the filter misses what the evaluator allows |
| Policy.HasActionOnAnyResource | pkg/auth/policy_filter.go:12-26 | true exactly when some allow statement names the action |
| Policy.FilterImpliesHasAction | pkg/auth/policy_filter.go:8-77 | a granted permission is found by the cheaper check |
| Policy.ListAllEffectivePolicies | pkg/auth/service.go:894-912 | following page tokens collects every page once, in order, or ends with the error of one of them |
| Kv.PrefixIsInterval | pkg/kv/scan.go:15-29 | the keys of a prefix are one interval, so the scan may stop at the first key without it |
| Kv.NothingBetween | pkg/kv/mem/store.go:239-247 | a key with a zero byte appended is the first key after it |
| Kv.SortedIsUnique | pkg/kv/scan.go:51-69 | there is one list of a set of keys in byte order |
| Kv.PrimaryIterator.Next | pkg/kv/iterators.go:80-105 | returns the least key of the prefix still to come after the given one, until none is left |
| HookRunIds.HookRunIdIsInjective | pkg/actions/service.go:611-613 | different index pairs have different IDs, however large they are |
| HookRunIds.HookRunIdOrder | pkg/actions/service.go:611-613 | below 10000 the byte order of IDs is the order of index pairs |
| HookRunIds.OrderHoldsExactlyBelow10000 | pkg/actions/service.go:611-613 | the orders agree for all indices below a bound if and only if the bound is at most 10000 |
| HookRuns.AllocateTasks | pkg/actions/service.go:307-332 | one row of tasks per action with hooks, or an error exactly when some hook cannot be made; the tasks are fresh, one for each hook, named after run, action and hook |
| HookRuns.AllocatedInOrder | pkg/actions/service.go:307-332 | the IDs of the allocated tasks come in strictly increasing byte order while indices are below 10000 |
| HookRuns.RunAction | pkg/actions/service.go:337-398 | for any surroundings: a hook without an expression is called unless an earlier one failed; one with an expression is called if it is true, left alone if false, and has an error if it has no truth value; a failed task does not end the action, an unwritten log does; and the loop is a run of the goroutine's steps in the interleaving model |
| HookRuns.InvAlways | pkg/actions/service.go:334-401 | the invariant of every action at every moment of every interleaving of all of them |
| HookRuns.PlainHookRunsAfterSuccess | pkg/actions/service.go:350-366 | at every moment, a hook without an expression has been called only if no earlier task of its action failed |
| HookRuns.ExpressionsDecide | pkg/actions/service.go:403-421 | in every interleaving, at every moment: what became of a task that had its turn follows from its expression, or the lack of one, and from whether an earlier task of its action failed |
| HookRuns.ReturnsAreRecorded | pkg/actions/service.go:350-398 | in every interleaving, at every moment: a hook that is not running is recorded as returned, with or without an error, exactly when it returned so |
| HookRuns.RunIsNilIff | pkg/actions/service.go:334-401 | runTasks reports no error exactly when no task has one and every log was written, and with all logs written a hook without an expression was called exactly when nothing failed before it |
| HookRuns.BuildRunManifestFromTasks | pkg/actions/service.go:453-491 | HooksRun has a record for each task of the rows in their order, with its names and times, passed exactly if it started and has no error; the start is the earliest of the tasks that started, the end the latest, and Passed means no task erred |
| HookRuns.RunIsNilIffPassed | pkg/actions/service.go:334-491 | runTasks returns nil exactly when the manifest passed and every log was written |
| HookRuns.PassedIffReturnedSuccess | pkg/actions/service.go:453-491 | a hook is recorded as passed if and only if it was called and returned success; a skipped one has no start and has not passed |
| RunKeys.KeyReadsBack | pkg/actions/service.go:163-189 | repository, section and rest can be read back from a key |
| RunKeys.KeyedAgree | pkg/actions/service.go:155-189 | what belongs at a key is of one kind, and there is one possible index entry for it |
| RunIterators.KVTaskResultIterator.Next | pkg/actions/kv_task_results_iterator.go:31-47 | yields the tasks in key order; a foreign record is an error that ends it |
| RunIterators.KVRunResultIterator.Next | pkg/actions/kv_run_results_iterator.go:57-72 | yields the runs in key order, directly or through an index, passing over entries whose run is missing |
| RunIterators.NewKVRunResultIterator | pkg/actions/kv_run_results_iterator.go:18-55 | refuses a branch together with a commit, otherwise stands before all keys of the branch, the commit or the repository after the offset |
| RunStore.ActionsStore.SaveRunManifest | pkg/actions/store.go:117-130 | performs exactly the writes of the protocol in order, up to the first conditional write that fails; none does if and only if no task of the manifest is stored yet and no two have one ID |
| RunStore.ActionsStore.StoreRun | pkg/actions/store.go:132-158 | branch index, commit index, then the run |
| RunStore.ActionsStore.UpdateCommitID | pkg/actions/store.go:66-115 | nothing for a missing run or the same commit; otherwise stores the run under the new commit and returns it with its tasks in key order |
| RunProtocol.InvAlways | pkg/actions/store.go:66-158 | the store's invariant, in every state of any interleaving of saves and updates that advance one write at a time and may stop anywhere |
| RunProtocol.LastWriteIsWhole | pkg/actions/store.go:117-158 | by its last write an operation has stored all indexes and tasks of the run it is about to store |
| RunReadBack.StoredRunIsWhole | pkg/actions/store.go:66-158 | at every crash point, a stored run has its branch entry and the entry of its present commit pointing at it, and all the tasks it was saved with |
| RunReadBack.EqualLengthsDoNotExtend | pkg/actions/id.go:7-17 | unique run IDs of one length satisfy the condition of the read-back theorems |
| RunReadBack.ReadsBackExactly | pkg/actions/store.go:97-111 | reading a run's tasks in key order gives the manifest's tasks in their order |
| RunReadBack.ReadsBackIff | pkg/actions/store.go:97-111 | while a manifest's tasks are stored, reading gives exactly them if and only if nothing else is stored under the run's prefix |
| RunReadBack.FindsInOneState | pkg/kv/mem/store.go:206-247 | a read that looks for each key in the state of that moment, and is not disturbed, is the reading of all tasks in key order |
| RunReadBack.UpdateReturnsManifest | pkg/actions/store.go:66-115 | an updater in any interleaving, which looks for each task in a later state of its own, returns the manifest its run was saved with, with the commit ID replaced and nothing else, while no other run is saved under the run's prefix |
| RunReadBack.UpdateReturnsManifestIff | pkg/actions/store.go:66-115 | the condition is exact: it returns that manifest if and only if no other key lies between two tasks, before the first or after the last, in the state in which it looks there |
| RunReadBack.UndisturbedUpdate | pkg/actions/store.go:66-115 | what the method UpdateCommitID returns when it is started in any reachable state and not disturbed |
| RunPipeline.ManifestInOrder | pkg/actions/service.go:307-491 | allocated, run in any interleaving and gathered, the hooks of a manifest have simple IDs in byte order |
| RunPipeline.RunSaveUpdate | pkg/actions/service.go:265-505 | from allocation over execution and saving to a commit update that other operations interleave with, also between one read and the next, the manifest comes back with only its commit ID replaced |
| RunPipeline.StatusTellsOutcome | pkg/actions/service.go:337-491 | what a listing tells of a hook of a finished run: completed iff it returned success, skipped iff nothing was done about it, failed iff it returned a failure or its expression had no truth value |
| Paging.PaginationAmount | pkg/api/controller.go:6365-6377 | always a positive amount of at most 1000: a valid request is granted as it is, a larger one cut to the maximum, and without a positive one it is 100 |
| Paging.ListRepositoryRuns | pkg/api/controller.go:2880-2904 | an error exactly when one of the records it looks at cannot be read; otherwise the page past the offset, each result telling of the run behind its key field by field |
| Paging.ListRunHooks | pkg/api/controller.go:2962-3019 | the same for hook runs, with their status |
| Paging.FollowShowsAll | pkg/api/controller.go:2886-2898 | when every key is its listing's own, following next offsets with any amounts ends, and shows every key past the first offset once, in key order |
| Paging.PagesShowIff | pkg/api/controller.go:2886-2898 | on any listing and for any amounts, following the pages ends and shows exactly a set of its own keys if and only if the listing has no other keys |
| RunPages.PagesShowAllRuns | pkg/api/controller.go:2886-2898 | in every reachable store, the pages of the unfiltered listing show every stored run of the repository exactly once |
| RunPages.PagesShowIndexIff | pkg/actions/kv_run_results_iterator.go:18-72 | in every reachable store, for any commit or branch and any amounts: following the pages ends and shows exactly its entries whose runs are there, if and only if no such entry belongs to an ID that continues it |
| RunPages.PresentRunsAreIndexed | pkg/actions/store.go:132-158 | among these entries are all runs that have the commit or branch now |
| RunPages.EqualLengthsDoNotContinue | pkg/actions/kv_run_results_iterator.go:33-37 | commit IDs of one length, the one asked for included, satisfy that condition |
| RunPages.PagesShowTasksIff | pkg/api/controller.go:2962-3019 | in every reachable store, for any run ID in the request, saved or not, and any amounts: following the pages of ListRunHooks ends and shows exactly that run's tasks, if and only if no stored task belongs to a run whose ID continues it |
| RunPages.PagesShowManifestIff | pkg/api/controller.go:2962-3019 | for a run whose tasks are stored, the pages show its manifest's hooks, each once, in order, if and only if nothing else is stored under the run's prefix |
| RunPages.PagingCanLoop | pkg/actions/kv_task_results_iterator.go:17-29 | a store reached by saving one run of two hooks, and a request for its ID without the last character: the listing never ends |
| RunPages.CommitPagesCanFail | pkg/actions/kv_run_results_iterator.go:31-42 | the same store listed by a commit ID that its commit continues: for no amounts are the commit's entries shown exactly |
| RunHistory.HoldsLastWritten | pkg/actions/store.go:66-158 | in every run, the store holds at a key what was last written there |
| RunHistory.ListedUnderIff | pkg/actions/kv_run_results_iterator.go:57-72 | an entry of a commit whose run is there is in the commit's listing, with the run as it is now |
| RunHistory.ListedWithOtherCommitIff | pkg/actions/store.go:66-158 | in every reachable store: a run is listed under a commit while it has another if and only if some step has written that entry and the last step that stored the run stored it with another |
| RunHistory.ListedWithOtherCommit | pkg/actions/store.go:82-88 | both ways in which it happens: before an updater's last write the run is listed under the new commit with the old one, after it under the old one with the new |
| AuthStore.IndexIffPrimary | pkg/auth/basic_service.go:276-300 | for a non-empty key, the index entry points at a user's credential exactly when it exists |
| AuthStore.KeyHasOneUser | pkg/auth/basic_service.go:361-400 | an access key has at most one user |
| AuthStore.AddKeepsOk | pkg/auth/basic_service.go:361-400 | adding a credential keeps the store's invariant, the limit included |
| Credentials.BasicAuthService.CreateUser | pkg/auth/basic_service.go:174-188 | refuses invalid and existing names, otherwise adds the user |
| Credentials.BasicAuthService.GetCredentials | pkg/auth/basic_service.go:276-300 | finds a credential of the key exactly when some user has one, and returns that one |
| Credentials.BasicAuthService.AddCredentials | pkg/auth/basic_service.go:324-344 | succeeds exactly with the key and secret asked for, or those of the one previous record to import, for an existing user with fewer than ten credentials and a key nobody has; the credential can then be looked up; any refusal leaves the store unchanged |
| Credentials.BasicAuthService.StoreCredential | pkg/auth/basic_service.go:361-400 | the conditional writes with rollback store both records or leave the store unchanged |
| Credentials.ListUserCredentials | pkg/auth/basic_service.go:434-461 | the credentials under a prefix in key order, at most eleven of them |
| Credentials.BasicAuthService.DeleteUserCredentials | pkg/auth/basic_service.go:402-432 | deleting while iterating removes exactly the user's credentials and the index entries of their non-empty keys |
| Credentials.BasicAuthService.DeleteUser | pkg/auth/basic_service.go:190-214 | removes exactly the user's own records |
| Credentials.BasicAuthService.CreateUserExternalPrincipal | pkg/auth/basic_service.go:492-543 | a principal and its user's entry appear together, or nothing does |
| Credentials.BasicAuthService.DeleteUserExternalPrincipal | pkg/auth/basic_service.go:545-577 | only the owner's principal is deleted, with its entry |
| Credentials.BasicAuthService.ListUserExternalPrincipals | pkg/auth/basic_service.go:597-646 | the user's principals after a position in key order, up to the amount, and the token of the next page |
| PrincipalPages.TokensShowAllIff | pkg/auth/basic_service.go:597-646 | for any IDs and amounts: following the tokens ends and shows every principal once if and only if each full page's token leads on to the very next key |
| PrincipalPages.BeforeEndsIff | pkg/auth/basic_service.go:597-646 | IDs that come before the keys: it ends if and only if some page's amount is not positive or exceeds the number of principals, and shows all if and only if the first page's is |
| PrincipalPages.BehindShowsFirstPage | pkg/auth/basic_service.go:597-646 | IDs that come after the keys: it ends after the first page and loses the rest |
| PrincipalPages.ByFirstCharacter | pkg/auth/basic_service.go:612-625 | the first character of an ID tells which, unless it is a u |
| PrincipalPages.OnePrincipalLoops | pkg/api/controller.go:6690-6729 | a store reached by two operations, with one principal: listed one by one, following the offsets never ends |
| Credentials.AlwaysOk | pkg/auth/basic_service.go:174-646 | the store's invariant holds after any sequence of completed operations |
| Credentials.IndexAgreesAlways | pkg/auth/basic_service.go:174-646 | after any sequence of operations: index entry if and only if credential, one user per key, at most 10 credentials per user |
| CredentialHistory.FoundIffAdded | pkg/auth/basic_service.go:174-461 | after any sequence of operations, a key leads to a credential, with its secret, if and only if some operation added just that and no later one deleted its user |
| CredentialHistory.NoLaterAddition | pkg/auth/basic_service.go:361-400 | that operation is the last successful addition of the key |
| Credentials.DeleteUserKeepsOk | pkg/auth/basic_service.go:190-214 | what is left after a user is deleted satisfies the invariant |
| Credentials.DanglingIffEmptyKey | pkg/auth/basic_service.go:402-432 | after a user is deleted an index entry dangles exactly if it is that of the empty key and it dangled before or the user had that key |
| Credentials.DanglingIsReachable | pkg/auth/basic_service.go:174-432 | it happens: three operations leave a dangling entry, and a new user cannot have that key |
| Credentials.DanglingBlocksKey | pkg/auth/basic_service.go:361-400 | a dangling entry makes every later attempt to add that key fail |
| CredentialSteps.LimitExceededByAdders | pkg/auth/basic_service.go:324-461 | in every run of interleaved additions, deletions and crashes, with listings that read key by key: a user has at most nine credentials more than additions for it were at work together at some moment |
| CredentialLimit.LimitIsReached | pkg/auth/basic_service.go:324-461 | the bound is exact: for any number there is a run in which never more operations are at work, and which gives the user nine credentials more than that |
| CredentialWrites.StepIsOneWrite | pkg/auth/basic_service.go:190-432 | on the records of the store, each step is one read or one write and does what the state machine says |
| CredentialCrashes.EntriesAndCredentialsAgree | pkg/auth/basic_service.go:190-432 | in every state of a run where no other operation on a user is at work while it is deleted and none stops between two writes that belong together: entries of non-empty keys lead to credentials of users, and every credential can be looked up or some operation will settle it |
| CredentialCrashes.LookupIffStored | pkg/auth/basic_service.go:276-300 | when nothing is at work in such a run, a credential is found exactly when it is stored |
| CredentialCrashes.GoneUserHasCredential | pkg/auth/basic_service.go:190-214 | a user deleted while a credential is added: the credential can be looked up afterwards |
| CredentialCrashes.CrashLosesAnothersEntry | pkg/auth/basic_service.go:361-432 | an addition stops between its writes: deleting its user later removes the index entry of another user's credential |
| CredentialCrashes.LateRollbackLeavesEntry | pkg/auth/basic_service.go:381-397 | a late rollback removes a credential stored by another addition and leaves its entry |

## Left out

- Liveness, fairness, real time and panics: all theorems are about safety, and callbacks return.
- BatchExecutor.Executor.HandleDone: the method runs the shutdown loops with the other goroutines quiet; their interleaving with sends and batches is covered by the state machine in module Batch.
- OnlyOneObject.ChanOnlyOne.Compute: the method is one call that is not interrupted; the methods it is made of are proved for any state that other calls have left, and their interleavings are the state machine in module OnlyOne.
- `ConditionalExecutor` and `NoOpBatchingExecutor` (pkg/batch/executor.go:36-66): they only bypass the batching.
- Arena.ArenaMap.Put: does not model the pointer into the arena that the source returns; a write through it is SetAt of the arena, and keeping it across later appends is not modelled. The same holds for the Get methods, which return values.
- Clearing the tail of the slice for the garbage collector (pkg/arena/arena.go:228) is not modelled.
- BoundedMap.SortStableFunc: the library's stable sort is characterised by its outcome, which SortStableIsUnique shows to be the only one.
- BoundedMap.BoundedArenaMap.Put: the panic on keys longer than 32 bytes is a precondition, and so is the documented rule that keys do not end in a zero byte.
- Variables.RoundTripLaw: names and values are non-empty and free of the characters of a reference; values that hold them are covered in one direction, by RoundTripsIff. The other functions of esti/lakectl_util.go (normalising times, paths and IDs) are single regular-expression replacements.
- Glob matching, JSON, IP and CIDR parsing, the expression language, protobuf and encryption are parameters or identities; validating conditions when a policy is written is not modelled.
- Webhook, Airflow and Lua hooks are an arbitrary success or failure; a failing hook's error text is not modelled, nor are statistics and the contents of logs.
- Saving the manifest to the object store (pkg/actions/service.go:438-447) and loading and matching actions come from packages outside the model.
- RunStore.ActionsStore.UpdateCommitID: the method runs undisturbed; with other operations in between it is the updater of module RunProtocol, which looks for each task in a later state of its own (UpdateReturnsManifestIff). Failures of the store other than a failed condition appear in the state machine as operations that stop.
- User paging (`ListUsers`): the code mixes IDs and key paths in `After`.
- `Migrate` (pkg/auth/basic_service.go:74-111): it bypasses the credential limit by calling addCredentials directly.
- The auth cache, secrets' encryption and issue dates; GetUser and GetCredentials read the store, as with `DummyCache`. In the modules on interleaved credential operations imports and external principals are left out, and a failing write is an operation that stops; that the code goes on when deleting an index entry or rolling back fails is not modelled.
- Groups, policies and other operations of `BasicAuthService` that are not implemented in the source.
