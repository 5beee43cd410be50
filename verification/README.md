# A verified model of backlog-server

backlog-server is a Go service that keeps a table of tasks, ranks them, moves them through review
workflows and serves cached reads. This project models its three connected cores, plus the rule
registry that picks owners, and proves what they promise over all inputs, all runs and all
interleavings.

## What is modelled

**Scoring** (`Graphs`, `Reachability`, `Rounding`, `Propagation`, `Bounds`, `KeptEdges`, `Scoring`,
`OrderDependence`, `PlainTasks`). `RecalculateAll` builds a map from each task to the tasks that wait for it,
drops the edges that lie on cycles with the help of a stack-based search, and runs a fixpoint over a
Go map: whatever order the map is ranged over, a score is stored only if it moved by more than 0.1,
and at most ten rounds run. Scores are integers counted in tenths, rounding is roundTiesToEven
(section 4.3.1 of IEEE 754-2019), and the iteration order is an arbitrary choice in every round.
Proved: the search computes exactly the nodes reached along one edge or more; the kept edges are those
between different strongly connected components and form an acyclic relation; a task gets nothing from
its own cycle; after round h everything of height at most h is final; ten rounds end within a
computable error of the exact bottom-up score; the iteration order never shows in the scores of tasks of
height at most h exactly when h is at most one; scores only rise exactly when no first visit would lower
one, which non-negative bases ensure.

**Rescoring after DONE** (`Rescore`). The in-place filter over the blocker slices, the recomputation,
the change detection and the batch statement with its numbered parameters.

**The task store** (`Tasks`, `Lifecycle`, `Advancing`, `Updates`, `Merging`, `Store`, `MergeOutcome`,
`UpdateOutcome`, `Outcomes`, `AuditChains`, `StepEffects`, `Histories`, `Verdicts`, `Dependencies`, `Undo`).
`Store.Store` has a method for each operation on tasks, reviews and audit rows; each is proved to be one
step of the state machine in `Lifecycle`. What a step does is then told once more without the state
machine's own functions, on the columns of the rows: `Advancing` says which stage follows which and what
each asks for on entry, `MergeOutcome`, `UpdateOutcome` and `Outcomes` say when an operation goes through,
which columns of which rows it changes, what the trail gets, and that nothing else moves. The other
theorems are about every serial run of such steps: how a task gets to DONE, that the audit trail
replays to the table, which statuses cannot be left, what `is_latest` means, exactly when the dependency
graph stays acyclic. Merging two tasks is proved to be a contraction of that graph. The UPDATE statement that
`UpdateTask` assembles is given a meaning and shown to do what was asked, and to be undone by the
values in the audit trail.

**The cache** (`Text`, `CacheKeys`, `CacheProtocol`, `CacheRaces`, `CachedReads`). The version-keyed cache as a state
machine in which readers take five separate steps, writers commit and later bump, notifications bump
at any time, entries expire and calls fail at any time; and the same cache without overlap, where the cached store
answers as the store without a cache. Keys are injective on the arguments a read uses.

**Owner rules** (`Taskowners`). Two stacked stable sorts and a memo are proved to find the matching rule
that comes first by number of patterns, priority, load of its owner and place in the file.

## Where the code and its documentation differ, and other results about limits

- The service's own README (line 12) says that stale entries become unreachable instantly.
  `Cache.Set` loads the version again, so an answer fetched before a commit can be stored under the
  version that follows the commit's bump: `CacheProtocol.StaleHitHappens` is such a run, and
  `CacheRaces.StaleIffBumpedBetween` says on the trace of a run exactly which commits such a hit misses.
- Potentials are not order-independent: `OrderDependence.ScoresDependOnOrder` shows four ordinary tasks
  for which two iteration orders report 15.0 and 15.1 (as doubles, too, 15.1 - 15.0 stays below the
  threshold). They have height two; `OrderDependence.OrderIndependentIff` shows that nothing lower can,
  and `Bounds.RunsAgreeWithin` bounds the difference in general.
- Potentials can go down when a base is negative: `PlainTasks.PotentialsFall` is a pair of tasks where
  10.0 falls to 7.0, and `Bounds.NeverDecreasesIff` has the exact condition.
- A merge can close a cycle of blockers: it does so exactly when one of the two tasks blocks the other
  through a third (`Merging.MergeKeepsAcyclicIff`; `Dependencies.MergeClosesCycle` is such a merge). A
  merge may leave the absorbed task in the absorber's own list (`Merging.MergeIsContraction`) and leaves
  `closed_at` as it was.
- The service does not check the blockers of a new task. Where the database accepts edges to tasks that
  do not exist yet, two creations that name each other's ids close a cycle
  (`Dependencies.DanglingBlockersCloseCycle`); `Dependencies.CreateKeepsAcyclicIff` has the exact
  condition, and `Dependencies.RunsStayAcyclicIff` the one for whole runs.
- A comment in `internal/store/create.go:274-276` says that a failed write to `task_edges` is only an
  advisory. A failed statement aborts its PostgreSQL transaction, so the commit at line 286 fails and
  nothing is created; the model follows the code.
- A comment in `internal/store/store.go:541-542` says an unknown workflow advances like `code_task`; the
  code refuses it. Another at line 911 calls taking an IN_PROGRESS task a no-op; the code changes the
  owner and writes audit rows. The model follows the code.
- `verify --failed` leaves any status, DONE included; `take` skips the planning gates; the first id on an
  empty table is 2, because the sequence is set to 1 before it is advanced.
- Rescoring after DONE reads neither the client, nor the capability, nor the impact dial of a task, so
  the impact part of its score is zero there.

## Model

| member | source | states |
|---|---|---|
| Reachability.Reachable | internal/scoring/reachability.go:12-25 | the stack search ends on every finite map, cycles included, having seen exactly the nodes reached along one edge or more |
| Reachability.BlocksReachability | internal/scoring/reachability.go:11-37 | keys are exactly the nodes that occur as a blocked task, each mapped to exactly what it reaches |
| Rounding.RoundHalfEven | internal/scoring/scoring.go:53-59 | the result is a nearest tenth, and the even one of two nearest |
| Rounding.RoundedMonotone | internal/scoring/scoring.go:53-59 | any two rounded values are ordered as their arguments, so rounding is unique and monotone |
| KeptEdges.KeptJoinsComponents | internal/scoring/scoring.go:236-244 | an edge passes the cycle guard iff it joins different strongly connected components |
| KeptEdges.KidsCount | internal/scoring/scoring.go:235-244 | a task hands on to each task as often as the list mentions it, or not at all when that task leads back to it |
| KeptEdges.KeptIsAcyclic | internal/scoring/scoring.go:236-244 | the kept edges form an acyclic graph for every blocks map |
| KeptEdges.HeightIsAttained | internal/scoring/scoring.go:230-255 | height is the length of an actual kept path |
| KeptEdges.KeptPathDescends | internal/scoring/scoring.go:230-255 | no kept path is longer than the difference of its ends' heights |
| KeptEdges.OwnCycleAddsNothing | internal/scoring/scoring.go:238-243 | changing the bases of the other tasks on its cycles never changes a task's score, in any run |
| Propagation.EquationIsNear | internal/scoring/scoring.go:245-246 | the equation is base plus three tenths of the sum, up to half a tenth |
| Propagation.RoundsSettle | internal/scoring/scoring.go:230-255 | after h rounds, in any orders, every task of height at most h is within 0.1 of its own equation and so is all below it |
| Propagation.RoundsKeepStable | internal/scoring/scoring.go:230-255 | no later round changes such a task |
| Propagation.QuietForever | internal/scoring/scoring.go:252-254 | once a round changes nothing, running on would change nothing |
| Bounds.ExactIsTheSolution | internal/scoring/scoring.go:236-246 | the equations have exactly one solution, the bottom-up score E |
| Bounds.RunNearExact | internal/scoring/scoring.go:230-255 | a task with as many rounds as its height ends within err of E, where err is 0 for a leaf and else 0.2 + 0.3 times the sum over its children |
| Bounds.NeverDecreasesIff | internal/scoring/scoring.go:246-250 | no score ever decreases in any run iff no first visit lowers one |
| Bounds.NonNegativeNeverDecreases | internal/scoring/scoring.go:246-250 | non-negative bases below suffice for that |
| Bounds.Sandwich | internal/scoring/scoring.go:223-255 | with them a score stays between its base and E, and ends at most err below E |
| Bounds.VisitsBelowExact | internal/scoring/scoring.go:230-255 | no visit in any order lifts a score above E |
| Bounds.RunsAgreeWithin | internal/scoring/scoring.go:230-255 | two runs with different orders differ by at most twice err |
| Bounds.NonNegativeRunsAgreeWithin | internal/scoring/scoring.go:230-255 | and by at most err when bases are non-negative |
| OrderDependence.FrozenKidsDecide | internal/scoring/scoring.go:230-255 | a task whose waiting tasks never ask to leave their bases gets one and the same score in every run, whatever the orders |
| OrderDependence.OrderMatters | internal/scoring/scoring.go:246-250 | on one net of height two, two first orders end 0.1 apart whatever the later rounds do |
| OrderDependence.ScoresDependOnOrder | internal/scoring/scoring.go:76-286 | for four ordinary tasks two runs of the cap's length report effective scores of 15.0 and 15.1 |
| OrderDependence.OrderIndependentIff | internal/scoring/scoring.go:223-255 | all task lists of height at most h get the same scores in all orders iff h is at most 1 |
| OrderDependence.FallingForEveryOrder | internal/scoring/scoring.go:246-250 | in the falling example every run ends with the lower score |
| PlainTasks.PotentialsFall | internal/scoring/scoring.go:246-250 | two tasks on which the first visit lowers a potential from 10.0 to 7.0 |
| Scoring.AgentTypePenalty | internal/scoring/penalty.go:8-36 | every penalty lies between 0.5 and 3.0 |
| Scoring.PenaltiesByValue | internal/scoring/penalty.go:8-36 | which agents pay 0.5, 1.0, 1.5 and 3.0 for which task types; everything else is 2.0 |
| Scoring.EntryIsMadeOf | internal/scoring/scoring.go:109-221 | a base is made of the spec, the client and capability or the dial, the penalty, the broken mark, at most five consumers, the release bonus and the override; a task is blocked iff its list is not empty |
| Scoring.BaseFloor | internal/scoring/scoring.go:161-208 | the base is at least 5.0 plus the priority override unless the impact dial is negative |
| Scoring.BlocksOfEdges | internal/scoring/scoring.go:85-91 | b leads to t iff some task with id t lists b as a blocker |
| Scoring.BlocksOfTimes | internal/scoring/scoring.go:85-91 | without repeated ids, b mentions t as often as the list of t holds b |
| Scoring.BlocksOfCount | internal/scoring/scoring.go:263 | `unblocks` counts how often an id is listed, repetitions included |
| Scoring.EntriesKeys | internal/scoring/scoring.go:109-221 | exactly the ids of the input have a base, each computed from an input task with that id |
| Scoring.BuildBlocks | internal/scoring/scoring.go:85-91 | the nested loops build that reverse map |
| Scoring.SumKept | internal/scoring/scoring.go:235-244 | the inner loop sums over exactly the kept successors, with repetitions |
| Scoring.OneRound | internal/scoring/scoring.go:231-250 | one pass over the map in an arbitrary order is one round; it reports no change iff it changed nothing, and then every task is settled |
| Scoring.Propagate | internal/scoring/scoring.go:223-255 | the loop equals ten rounds and ends within err of E up to height 10; if every height is at most 9 it leaves through the no-change exit |
| Scoring.EntryIsOwn | internal/scoring/scoring.go:109-221 | without repeated ids each task has the entry computed from its own fields |
| Scoring.BuildResults | internal/scoring/scoring.go:257-284 | one result per task, in input order: a blocked task reports 0 and any other its potential, blocker value and base add up to the potential, and `unblocks` counts mentions |
| Scoring.RecalculateAll | internal/scoring/scoring.go:76-286 | every reported potential of height at most 10 is within err of E, for all inputs and all iteration orders; without repeated ids a task with a nonempty list reports 0 and one with an empty list its potential, its breakdown is made of its own fields, and base and blocker value add up to the potential |
| Scoring.OrdinaryTasksAreSandwiched | internal/scoring/scoring.go:76-286 | for non-negative inputs scores rise only, stay below E, and two calls agree within err |
| Scoring.EffectiveScores | internal/scoring/scoring.go:315-319 | the map by id gives every blocked task 0 and every other task of height at most 10 a score within err of E; without repeated ids blocked means a nonempty list |
| Rescore.Cell.Drop | internal/scoring/scoring.go:297-309 | reading ahead of writing in one backing array leaves the list without the closed id, in order |
| Tasks.WithoutRemovesExactly | internal/scoring/scoring.go:297-309 | all occurrences of the closed id go and nothing else |
| Tasks.WithoutKeepsOrder | internal/scoring/scoring.go:297-309 | what stays keeps its order |
| Rescore.FreedWereBlockedOnlyByClosed | internal/scoring/scoring.go:296-313 | the returned ids are exactly the tasks whose only blocker entries were the closed id |
| Rescore.FreedInOrder | internal/scoring/scoring.go:296-313 | the returned ids keep the order of the tasks |
| Rescore.DropAll | internal/scoring/scoring.go:296-313 | filtering every slice in place filters each once and disturbs no other |
| Rescore.RecalculateUnblocked | internal/scoring/scoring.go:295-341 | lists, freed ids and scores after one call |
| Rescore.ChangedRowsMoved | internal/store/rescore.go:49-68 | a row is written iff it exists and its list differs or its score moved by more than 0.001 |
| Rescore.PartialPersistIsEnough | internal/store/rescore.go:49-68 | writing only the changed rows leaves the table that writing all would: equal lists, scores within 0.001 |
| Rescore.UpdateScoresBatch | internal/store/rescore.go:131-157 | the numbered parameters give each row its own id, score and list |
| Rescore.RescoreAfterDone | internal/store/rescore.go:33-73 | every active row loses exactly the closed id; a list that is still not empty stores 0 and an empty one the score of some ten rounds, which is within err of E, up to 0.001, whatever the iteration orders; every other row is untouched |
| Rescore.RescoreUnblocks | internal/store/rescore.go:75-93 | those lists are the ones the task store promises after DONE |
| Store.Store.Gates | internal/store/store.go:693-831 | the gate failures, all of them and in order |
| Advancing.TargetIsNextStage | internal/store/store.go:505-562 | from s an advance aims at s' iff s' follows s in the list of stages of the workflow |
| Advancing.RequiredAreNeeded | internal/store/store.go:590-641 | whose verdicts the approval gate asks for: the task's own list, or else the closure reviewer and the one of its workflow or of its mode |
| Advancing.FailuresTell | internal/store/store.go:693-831 | each failure is reported iff its condition is unmet on the way to the next stage, and no other |
| Advancing.AdvanceGoesThroughIff | internal/store/store.go:673-831 | an advance passes iff there is a next stage and the task has what that stage asks for |
| Advancing.AdvanceMeans | internal/store/store.go:833-894 | with a next stage: the status, the closing mark on DONE, one audit row and after DONE the shorter lists, and nothing else; or nothing at all |
| Advancing.NoStageNoAdvance | internal/store/store.go:680-692 | without a next stage nothing changes and the one failure is that there is none |
| Store.Store.UnblockDependents | internal/store/rescore.go:33-73 | every active list loses the closed id, whatever the order of the rows |
| Store.Store.Advance | internal/store/store.go:673-894 | the whole new state, success iff some next stage exists that the task may enter, and otherwise the failures in order |
| Store.Store.Take | internal/store/store.go:919-976 | one step of the state machine, and its outcome |
| Store.Store.Release | internal/store/store.go:2295-2341 | one step of the state machine, and its outcome |
| Store.Store.Cancel | internal/store/store.go:988-1037 | one step of the state machine, and its outcome |
| Store.Store.Supersede | internal/store/store.go:1074-1135 | one step of the state machine, and its outcome |
| Store.Store.Verify | internal/store/store.go:1283-1353 | one step of the state machine, and its outcome |
| Store.Store.RequestRevision | internal/store/store.go:1424-1477 | one step of the state machine, and its outcome |
| Outcomes.TakeMeans | internal/store/store.go:919-976 | from six statuses the task is IN_PROGRESS and owned by its taker, with a row for the status and one for a changed owner; else nothing |
| Outcomes.ReleaseMeans | internal/store/store.go:2295-2341 | from two statuses the task is READY; else nothing |
| Outcomes.CancelMeans | internal/store/store.go:988-1037 | an unfinished task is CANCELLED and closed, the reason in the trail; else nothing |
| Outcomes.SupersedeMeans | internal/store/store.go:1074-1135 | status, note and closing mark name the replacement; else nothing |
| Outcomes.VerifyMeans | internal/store/store.go:1283-1353 | a failed verification takes the mark away and reopens the investigation, a positive one sets it |
| Outcomes.RevisionMeans | internal/store/store.go:1424-1477 | only a task that awaits approval goes into revision |
| Store.Store.Create | internal/store/create.go:159-303 | one step of the state machine, rolled back when an edge row is refused, and its outcome |
| Outcomes.CreateMeans | internal/store/create.go:159-303 | a creation goes through iff it is valid, its parent exists and no edge row is refused; then the row holds what was asked for, a DONE parent is reopened, and nothing else moves; else nothing at all |
| Store.Store.SubtasksFromPlan | internal/store/store.go:2929-3026 | one subtask per phase and the reopened parent, or nothing, and its outcome |
| Outcomes.SubtasksMeans | internal/store/store.go:2929-3026 | one child per phase on consecutive ids, with inherited fields and at most ten items, one row each, and a DONE parent reopened; or nothing |
| Store.Store.SubmitReview | internal/store/store.go:1188-1254 | the new verdict replaces the reviewer's latest; ACCEPT changes nothing |
| Outcomes.SubmitReviewMeans | internal/store/store.go:1188-1254 | the sent verdict, NEEDS_WORK for a reopening, becomes the one latest of its reviewer on the task, with its row in the trail |
| Store.Store.BeginAggregateReview | internal/store/store.go:3548-3684 | an automatic closure PASS iff the children are few and cheap and neither flag is set, and its outcome |
| Outcomes.AggregateMeans | internal/store/store.go:3548-3684 | the closure PASS is written iff an agent asks, the children cost less than the one limit and are no more than the other, and neither flag is set |
| Store.Store.MergeTasks | internal/store/store.go:2387-2692 | the contracted tables with their audit rows, or nothing, and the outcome with its reason |
| Outcomes.MergeMeans | internal/store/store.go:2387-2692 | two different tasks that are neither cancelled nor superseded merge, and any other request or a dry run changes nothing |
| MergeOutcome.MergedIsMerge | internal/store/store.go:2443-2557 | column by column: tags, consumers and blockers are ascending unions, done_when and references keep the old list and gain exactly the missing items, notes are joined, b changes in status and note, dependents in their list, and nothing else moves |
| MergeOutcome.MergeAuditTells | internal/store/store.go:2604-2668 | the trail has exactly one kind of row for each changed column of a, one for each dependent and one for b, with old and new values |
| Store.MergeIntSetSortedExclude | internal/store/store.go:2698-2713 | the one ascending list of both sets without the excluded id, however the set is ranged over |
| Store.MergeStringSetSorted | internal/store/store.go:2715-2729 | the one ascending list of both sets |
| Store.RedirectList | internal/store/store.go:2538-2551 | b becomes a and the first of equal ids stays |
| Merging.UnionExceptIs | internal/store/store.go:2698-2713 | a list is that union iff it is ascending and has its members |
| Merging.UnionTextsIs | internal/store/store.go:2715-2729 | the same for texts in byte order |
| Merging.MergeIsContraction | internal/store/store.go:2443-2557 | over all tasks but b the new relation is the old one with b renamed to a and self-loops on a removed; the only difference is b in a's list, iff a or b listed b |
| Merging.MergeKeepsAcyclicIff | internal/store/store.go:2511-2557 | an acyclic graph stays acyclic iff neither task blocks the other through a third |
| Merging.MergeOfUnrelatedTasks | internal/store/store.go:2511-2557 | in particular if neither transitively blocks the other |
| Updates.BuildStatement | internal/store/store.go:2178-2207 | executing the assembled clauses with the positional arguments applies exactly the changed fields to exactly that task, for every table |
| Updates.AppliedSetsExactly | internal/store/store.go:2178-2207 | each field in the list reads back as its new text, all others are kept, and the one failure is a parent id that is no integer |
| Undo.AuditKeepsOldTexts | internal/store/store.go:2208-2216 | the audit rows hold the old text of each written field, in order |
| Undo.UpdateStepIsUndone | internal/store/store.go:2132-2233 | updating again with the audited old values restores the table of tasks |
| Store.Store.UpdateTask | internal/store/store.go:2132-2233 | nothing, or all changed fields with their audit rows; which outcome is told by the texts the columns show |
| UpdateOutcome.UpdateMeans | internal/store/store.go:2132-2233 | an update goes through iff all fields are known and a new parent reads as a number; then the listed columns hold their texts, every other column is kept, and the trail has one row for each column that differed, in the order of their names; else nothing |
| StepEffects.StepEffect | internal/store/store.go:673-3026 | for each operation the status moves it can make, on which task and from which statuses, and that its audit rows lead from old status and owner to new |
| Histories.AuditReplays | internal/store/store.go:853-858 | between any two moments of any run the status rows of a task form an unbroken chain and its owner rows replay |
| Histories.CreatedTaskReplays | internal/store/create.go:263-272 | a task's status chain starts from nothing, its owner rows from the owner it was created with |
| Histories.SinksAreClosed | internal/store/store.go:906-913 | INVESTIGATING, REVISION, CANCELLED and SUPERSEDED are never left for any other status, so such a task never gets DONE |
| Histories.TerminalIsClosed | internal/store/store.go:843-852 | in every run DONE or CANCELLED implies that closed_at is set |
| Histories.AdvanceEnters | internal/store/store.go:673-894 | in every run an advance enters READY only from PLANNING with a done_when list and a spec PASS, SCOPED only from BACKLOG with such a list, IN_PROGRESS only from READY or, in the fix workflow, SCOPED |
| Histories.DoneIsEarned | internal/store/store.go:673-894 | a task created in the run is DONE only after three consecutive status changes, all advance, each with the latest PASS of the reviewers named by its list, workflow and mode, the last with the closure reviewer's and the operator's approval |
| Verdicts.RecordedVerdict | internal/store/store.go:1201-1223 | a new verdict replaces the latest one of its task and reviewer and no other |
| Verdicts.LatestIsLastCommitted | internal/store/store.go:564-577 | a latest row says v iff the last verdict that reviewer committed for the task was v |
| Verdicts.LatestTellsLastEvent | internal/store/store.go:1188-1254 | in every run the latest verdict is PASS iff the last event was a sent PASS or an automatic one, FAIL iff it was a sent FAIL, NEEDS_WORK iff a sent NEEDS_WORK or REOPEN |
| Verdicts.AcceptChangesNothing | internal/store/store.go:1137-1154 | an ACCEPT leaves all tables as they were |
| Verdicts.AtMostOneLatest | internal/store/store.go:1201-1223 | no task and reviewer ever have two latest rows |
| Store.SyncBlockedByToEdges | internal/store/create.go:556-571 | the loop succeeds iff the database accepts the row of every positive blocker |
| Dependencies.CreateKeepsAcyclicIff | internal/store/create.go:232-261 | from any acyclic graph, a new task keeps it acyclic iff none of its blockers is the task itself or already waits for its id |
| Dependencies.StepKeepsAcyclicIff | internal/store/store.go:673-3026 | an operation keeps an acyclic graph acyclic iff it is no such creation and no merge of two tasks that block each other through a third |
| Dependencies.RunsStayAcyclicIff | internal/store/store.go:673-3026 | the graph is acyclic throughout a run iff that holds of every operation where it ran |
| Dependencies.StepStaysGrounded | internal/store/store.go:673-3026 | every operation keeps all lists to existing tasks if new tasks name existing ones |
| Dependencies.RunsStaySound | internal/store/store.go:673-3026 | then no creation is harmful, and a run with harmless merges keeps the graph acyclic and all lists to existing tasks |
| Dependencies.DanglingBlockersCloseCycle | internal/store/create.go:232-261 | two creations that name each other close a cycle where edges to absent tasks are accepted |
| Dependencies.MergeClosesCycle | internal/store/store.go:2387-2692 | a merge that passes every gate and leaves two tasks waiting for each other |
| Text.ParseRendered | internal/store/store.go:2236-2261 | a rendered integer reads back as itself |
| Text.ParseIntMeans | internal/store/store.go:2187-2199 | a text is cast to n iff it writes n in decimal, with or without a sign, and n fits 32 bits |
| Text.TrimMeans | internal/store/store.go:543-562 | only blanks are cut off, and none is left at either end |
| CacheKeys.SuffixDeterminesRead | internal/store/store.go:207-308 | the suffix determines the kind of read and the arguments it uses |
| CacheKeys.NormalAsksAlike | internal/store/store.go:207-308 | two reads use the same arguments iff they differ only in letter case and in which of the numbers up to zero, or five, is their limit |
| CacheKeys.KeysAreInjective | internal/cache/cache.go:89-91 | two reads share a key iff the versions agree and the reads ask for the same |
| CacheProtocol.NextKeepsInv | internal/cache/cache.go:74-123 | every step of every participant keeps the invariant and rewrites no history |
| CacheProtocol.AlwaysInv | internal/cache/cache.go:74-123 | in every interleaving an entry holds the answer of a database state that includes every commit bumped before its fetch |
| CacheProtocol.UnchangedVersionIsFresh | internal/cache/cache.go:89-123 | a hit fetched and set under one version misses only commits whose own bump is outstanding |
| CacheRaces.HitCame | internal/store/store.go:93-105 | every hit goes back to one fetch of one reader that kept the answer until its Set loaded the version |
| CacheRaces.StaleIffBumpedBetween | internal/cache/cache.go:114-123 | the bumped commits a hit misses are exactly those that were committed, and then bumped, after that fetch and before that load |
| CacheProtocol.MissedBumpsAreFixed | internal/cache/cache.go:114-123 | what an entry misses is settled then and no later step changes it |
| CacheProtocol.StaleHitHappens | internal/cache/cache.go:114-123 | such a stale hit is reachable |
| CachedReads.Store.Read | internal/store/store.go:93-105 | a cached read answers what the query answers now, hit or miss, with failing cache calls |
| CachedReads.Store.Write | internal/store/store.go:871-882 | commit and bump leave no entry that could be served wrongly |
| CachedReads.Store.RunAll | internal/store/store.go:93-105 | any sequence of reads, writes, extra bumps and expiries gets the answers of a store without a cache |
| Taskowners.SortedIsStable | internal/config/taskowners.go:140-143 | the sort orders, loses and adds nothing, and keeps equals in their order |
| Taskowners.FilterSorted | internal/config/taskowners.go:355-367 | filtering and stable sorting commute |
| Taskowners.BestWins | internal/config/taskowners.go:348-354 | the one-pass winner is the unique first lexicographic best match, and absent iff nothing matches |
| Taskowners.FieldMatchesMeans | internal/config/taskowners.go:265-337 | what each kind of pattern asks of a task |
| Taskowners.BestIsChosen | internal/config/taskowners.go:355-395 | the winner matches, and every other matching rule has fewer patterns, or as many and a lower priority, or that too and a busier owner, or ties and stands later |
| Taskowners.TwoSortsFindBest | internal/config/taskowners.go:355-393 | load-time sort, filter and match-time sort put that winner in front |
| Taskowners.Comparator.GetCap | internal/config/taskowners.go:371-382 | the memo answers as the capacity function |
| Taskowners.SortStable | internal/config/taskowners.go:383-392 | the in-place sort with the memoising comparison is the stable sort |
| Taskowners.Registry.Reparse | internal/config/taskowners.go:117-146 | a file with a nameless rule is rejected and the old rules kept, otherwise all rules are installed as written, code_task standing for an empty workflow |
| Taskowners.Registry.MatchRule | internal/config/taskowners.go:355-395 | the winner on the rules' own fields: more patterns, then higher priority, then the less busy owner, then the place in the file; none iff no rule matches |
| Taskowners.Registry.SuggestMatches | internal/config/taskowners.go:401-424 | the first owners of matching rules, each once, in rule order, up to the limit |
| Taskowners.OwnersInOrder | internal/config/taskowners.go:401-424 | the owners stand in the order of the first rule of each that matches |

## Left out

- IEEE floating-point bits: scores are exact tenths, so noise around the 0.1 threshold and in the sums is outside the model.
- Scoring.RecalculateAll: release bonus, keyword bonus, spec detection, task type and the owner of the current stage are inputs, because they read clocks and word lists.
- Rescore.RescoreAfterDone: the score breakdown and `updated_at` are not modelled; the order of rows is the order of their ids.
- Rescore.Cell.Drop: the slice and its array are modelled, growth of Go slices is not needed.
- Store.Store.Create: validation, cross-database checks and the resolution of owner and workflow are one given verdict and a resolved request; which rows of `task_edges` the database refuses is given, its contents and schema are not part of this model.
- Dependencies.DanglingBlockersCloseCycle: needs a schema that accepts an edge to a task that does not exist yet.
- Rescore.UpdateScoresBatch: the limit of 65535 parameters per statement is not modelled.
- Bounds.NeverDecreasesIff: the condition has its boundary at a fall of exactly 0.1, where the service decides on doubles.
- Store.Store.SubtasksFromPlan: the parsed phases are given; reading and parsing the plan file is not modelled.
- Store.Store.BeginAggregateReview: the parent flag, the summed cost and the thresholds are given; the aggregate-state trigger is not modelled.
- Store.Store.Verify: the progress text and all timestamps are not modelled; `closed` stands for a set `closed_at`.
- Store.Store.Advance: the comma-separated `required_reviews` is given as a list; a status is a value, so odd spelling of stored statuses is not modelled.
- Store.Store.MergeTasks: audit values of list columns are kept as lists, not as printed text.
- Store.Store.UpdateTask: the assembled SQL is a list of clauses with positions, not text; strings the database would cast with surrounding blanks are rejected.
- Updates.BuildStatement: sorting of names is the fixed order of the nine columns.
- CachedReads.Store.Read: JSON encoding is a lossless round trip, and a key-value store that fails is a miss.
- CacheProtocol.NextKeepsInv: the version is unbounded; wrap-around of the 64-bit counter is not modelled.
- CacheKeys.KeysAreInjective: case folding is that of ASCII.
- Taskowners.Registry.MatchRule: case folding is that of ASCII; the capacity function answers the same throughout one call; required agents and reviews of a rule are not modelled.
- Taskowners.Registry.Reparse: reading the file, its modification time, the git pull and locking are not modelled.
- Interleaved write transactions: writes are serial, since the code has no guards against overlap.
- PostgreSQL, Redis, JSON, YAML and git themselves; HTTP handlers, authentication, the client and the command line.
- Sprints, freezes, postmortems, session closing, search, analytics, anomalies, recommendations and SMM runs: they would add only easy members.
