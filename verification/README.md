# Verified model of the Orloj control plane

Orloj runs *tasks* made of AI agents. This project models the parts of its control plane where
the logic is subtle, in Dafny, and proves what they promise for every input, every interleaving
or every run. Nothing here executes Orloj: the statements are about the model, which follows the
code branch by branch.

`dafny verify dfyconfig.toml` checks the whole project.

## Components

| file | part of the system | main results |
|---|---|---|
| `AgentGraph`, `GraphCycle`, `ExecutionOrder`, `ExecutionTheorems`, `ReleaseOrder`, `GraphValidation` | agent graphs: three-colour cycle test, Kahn ordering with a declaration-order tail (two copies), validation, entrypoint test, entry agents | the cycle test is exact for every map order; the order is the one sequence that follows a rule stated on the graph alone, followed by the blocked agents as declared; an accepted acyclic graph runs every agent once, each after its predecessors; the two algorithms and the command-line copy agree |
| `Calendar`, `Cron` | five-field cron expressions and the bounded scan | a table holds exactly the values its text names, and which steps panic; a whole expression written out parses back; `Next` and `Prev` are the least later and greatest earlier slot, and fail only for expressions no calendar date satisfies; slots are stated on dates and anchored weekdays |
| `LineDiff` | line diff of the command line | the script has the fewest edits of all scripts; the rendered text, read back line by line, has a header that counts its body and a body that patches the old lines into the new ones |
| `Review`, `ReviewOutcome`, `Retry`, `ReviewRetry` | request-changes loop, retries and dead letters, and both together | the outcome of every decision; review ends exactly when the last agent and the whole output are not reviewed under two checkpoints; attempts times review cycles bound the decisions on a task; M failures give M−1 reschedules and a dead letter; the exact range of backoff bases that do not overflow |
| `Pagination`, `Watch`, `WatchLive`, `WatchArrival`, `RateLimit` | fast forms against simple ones | pages concatenate to the filtered listing exactly for listings in key order; a watch follows the store exactly when every write that changes what it keeps is announced to it; eviction is unobservable exactly when ten idle minutes refill a bucket |
| `WorkQueue`, `EventBus`, `Approvals`, `Webhook`, `WebhookAnswers` | protocols as interleaved steps | no lost wakeup and no double hand-out; no gap between replay and live events; at most one decision, whose task an accepted webhook delivery gets and when it is reset, each with its exact condition |
| `Schedule`, `Placement`, `TaskPhase` | cron triggering and worker placement | no slot acted on twice; capacity, least load and balance of one pass |
| `Text`, `Lists` | shared text and sequence functions | inverse laws of trimming, splitting, joining and decimal numbers |

State that the source mutates is a class or a method with loops (`CycleFinder`, `WatchStream`,
`IpRateLimiter`, `KeyQueue`, `MemoryBus`, `ScheduleController`, the Kahn and diff loops, the
page-filling loops). Each is proved against a specification function or predicate, and the
theorems are about that specification. Protocols between goroutines are step functions over one
state; the theorems quantify over every sequence of steps.

## Where the code does less than one would expect

Each of these is a theorem, with the exact condition under which the expected property holds.

- The graph entrypoint check never rejects anything the cycle check and the scope check accept
  (`GraphValidation.GraphAccepted`).
- A last agent with its own review beside a differently named completion review: approvals go
  round for ever, because the completion approval resumes at the first agent
  (`Review.AlwaysEndsExactly`).
- A cron step that, added to its start, leaves the 64-bit integer makes the parser index out of
  range; no other text does (`Cron.Parse`, `Cron.StepPanicsExactly`).
- A backoff base above (2^63−1)/1024 nanoseconds wraps to a negative delay at some attempt
  (`Retry.DelayRangeExact`).
- The in-memory stores list by bare name and cut by namespace/name, so pages over all namespaces
  can hide items; pages of every size are right exactly for listings in key order
  (`Pagination.PlainPagesExact`, `Pagination.NameOrderLosesItems`).
- A webhook run task is found by its key and its hook's labels, not by its event, and is written
  without a version: two deliveries that work out one key for different events or hooks can be
  accepted onto one task. Every accepted delivery keeps a task of its own exactly when no two
  keys collide, which for one hook means that the digest tells the events apart
  (`Webhook.OwnEventsExactly`, `Webhook.OneHookExactly`).
- The SQL dedupe insert takes an entry with the caller's own task name for its own insert, so
  concurrent deliveries can both answer `duplicate=false`; at most one does exactly with the
  in-memory store (`Webhook.OneFirstExactly`).
- Concurrent deliveries with one key, even of one event, can write a task afresh that is already
  being worked on; an accepted delivery's task is never reset exactly when no two deliveries share
  a key (`Webhook.NeverResetExactly`).
- A post of an approval writes back the status its handler read, and only a resource version the
  client sent is compared: an empty one, or one the store has yet to reach, can put a decided
  approval back to Pending. So does the controller when a retried task reaches the checkpoint again
  at the same cycle (`ReviewRetry.RetryReachesAgain`), since it writes the approval without a
  version. At most one decision succeeds exactly when every post carries a version no later than
  the one its handler reads and no decided checkpoint is reached again
  (`Approvals.AtMostOneExactly`).
- A watch hears only of the API server's own writes, and skips an object published with the version
  from before its write: it misses what controllers write and the tasks that webhooks create. Its
  memory is the filtered store, for all ids and snapshot points, exactly when every write that
  changes that store is announced (`WatchLive.FollowsExactly`, `WatchLive.ControllersAreMissed`).
- A watch has a gap when a matching event left the history before it subscribed
  (`EventBus.NoGapExactly`). Replayed events are sent beside live ones and can be overtaken by
  them: over all orders of arrival the watch ends up right exactly when no kept change was published
  between its reading of the latest id and its subscription (`WatchArrival.ArrivalExactly`).
- One wakeup token serves all consumers of a work queue, so that with two of them one can stay
  blocked beside a queued key while the other works; none does exactly with at most one consumer
  (`WorkQueue.PromptExactly`).

## Model

| member | source | states |
|---|---|---|
| GraphCycle.HasGraphCycle | orloj_beta/controllers/task_controller.go:1551-1590 | answers true exactly when some nonempty edge path returns to its start, whatever order the map is walked in |
| GraphCycle.CycleFinder.constructor | orloj_beta/controllers/task_controller.go:1558-1561 | starts with every graph key white, an empty stack and nothing finished |
| GraphCycle.CycleFinder.Visit | orloj_beta/controllers/task_controller.go:1563-1580 | terminates; a positive answer comes with a real cycle, a negative one leaves the stack as it was, blackens the node and loses no finished node |
| GraphCycle.CycleFinder.VisitSuccessors | orloj_beta/controllers/task_controller.go:1566-1577 | finds a cycle, or leaves every successor that is a key finished |
| GraphCycle.CycleFinder.VisitSuccessor | orloj_beta/controllers/task_controller.go:1567-1576 | an edge to a grey node closes a cycle; otherwise its target ends up finished if it is a key |
| GraphCycle.FinishedAcyclic | orloj_beta/controllers/task_controller.go:1551-1590 | a finish order over all keys rules out every cycle |
| GraphCycle.BackEdge | orloj_beta/controllers/task_controller.go:1571-1573 | the grey nodes form a path, so an edge back into it is a cycle |
| ExecutionOrder.CountInDegrees | orloj_beta/resources/agent_execution_order.go:20-29 | counts, for each agent, the edge occurrences into it, independent of map order |
| ExecutionOrder.SeedQueue | orloj_beta/resources/agent_execution_order.go:31-44 | queues exactly the agents of in-degree zero, in declaration order |
| ExecutionOrder.DrainQueue | orloj_beta/resources/agent_execution_order.go:46-73 | terminates and computes the drained prefix, with the visited set equal to its elements |
| ExecutionOrder.AppendTail | orloj_beta/resources/agent_execution_order.go:75-82 | appends exactly the unvisited agents, in declaration order |
| ExecutionOrder.ExecutionAgentOrder | orloj_beta/resources/agent_execution_order.go:8-83 | computes the order that the theorems below describe, the early returns included |
| ExecutionOrder.TaskOrderFromSystem | orloj_beta/cli/orlojctl.go:1407-1472 | the command-line copy returns the same list on every system |
| ExecutionTheorems.StepInv | orloj_beta/resources/agent_execution_order.go:46-73 | each queue step keeps: placed agents in dependency order, in-degrees counting the unplaced predecessors, queued exactly at zero |
| ExecutionTheorems.KahnPrefixExact | orloj_beta/resources/agent_execution_order.go:46-73 | the drained prefix is, each once and after its predecessors, exactly the agents no cycle and no unlisted key leads to |
| ExecutionTheorems.OrderExact | orloj_beta/resources/agent_execution_order.go:8-83 | on every nonempty graph the order is that prefix followed by the blocked agents as declared |
| ReleaseOrder.SiblingOrder | orloj_beta/resources/agent_execution_order.go:46-73 | of two placed agents with predecessors, the one whose last-placed predecessor comes first runs first; with the same one, the one whose last place in its outgoing list is first |
| ReleaseOrder.PrefixEntriesFirst | orloj_beta/resources/agent_execution_order.go:31-44 | agents without predecessors come first, as listed |
| ReleaseOrder.PrefixDetermined | orloj_beta/resources/agent_execution_order.go:31-73 | the drained prefix is the only sequence of the unblocked agents, each once and after its predecessors, that starts with the entry agents as listed and orders the others by their release |
| ReleaseOrder.BlockedSnoc | orloj_beta/resources/agent_execution_order.go:75-82 | the tail keeps the listed order: one more listed agent comes last or not at all |
| ExecutionTheorems.AcyclicOrder | orloj_beta/resources/agent_execution_order.go:8-83 | for listed keys and no cycle the order has the agents' elements with every predecessor first, none twice when there is a graph, and is a permutation of agents listed once |
| ExecutionTheorems.PlacedNotBlocked | orloj_beta/resources/agent_execution_order.go:46-73 | nothing in a dependency-ordered list has a cycle among its ancestors |
| ExecutionTheorems.UnplacedBlocked | orloj_beta/resources/agent_execution_order.go:75-82 | an agent left over can be traced back to a cycle or to an unlisted key |
| GraphValidation.HasGraphEntrypoint | orloj_beta/controllers/task_controller.go:1592-1613 | true exactly when some listed agent has no incoming edge (or, without a graph, when there is an agent) |
| ExecutionTheorems.AcyclicHasEntry | orloj_beta/controllers/task_controller.go:1551-1613 | no cycle and a nonempty agent list imply an entrypoint |
| GraphValidation.ValidateGraph | orloj_beta/controllers/task_controller.go:1516-1549 | reports no error exactly on graphs whose keys and edge targets are listed agents and whose join mode, quorum and failure options are supported |
| GraphValidation.GraphAccepted | orloj_beta/controllers/task_controller.go:1503-1514 | the graph part of validation accepts exactly: listed keys and targets, supported joins, and no cycle unless max_turns is positive; the entrypoint check adds nothing |
| GraphValidation.EntryAgentsFromSystem | orloj_beta/controllers/task_controller.go:1622-1660 | returns the entry agents in declaration order; the trimmed first agent when there is no graph |
| GraphValidation.EntryAgentsExact | orloj_beta/controllers/task_controller.go:1634-1659 | they are exactly the agents nothing hands over or delegates to |
| GraphValidation.EntryAgentsFirst | orloj_beta/controllers/task_controller.go:1634-1659 | without delegations the entry agents, each once, form a prefix of the execution order |
| Cron.MarkSegment | orloj_beta/cronexpr/cronexpr.go:152-213 | an error exactly on malformed segments, an index out of range exactly when start plus step leaves the 64-bit integer, and otherwise exactly the terms of the progression are set beside the entries that were |
| Cron.MarkSegments | orloj_beta/cronexpr/cronexpr.go:138-147 | the first segment that fails decides between error and panic; without one the table holds exactly what some segment names |
| Cron.ParseField | orloj_beta/cronexpr/cronexpr.go:127-150 | succeeds exactly when every segment is well formed and steps safely, panics exactly at a first unsafe one; the table holds exactly the values the text names, at least one; `any` holds exactly when all are set |
| Cron.Parse | orloj_beta/cronexpr/cronexpr.go:28-62 | succeeds exactly on five acceptable fields, and each table means its field; panics exactly when the first field that fails does |
| Cron.StepPanicsExactly | orloj_beta/cronexpr/cronexpr.go:209-211 | `v/step` panics exactly when v + step exceeds the largest 64-bit integer |
| Cron.ExpressionRoundTrip | orloj_beta/cronexpr/cronexpr.go:28-62 | any choice of values for the five fields, written out and joined by blanks, is accepted, and its tables hold exactly those values |
| Cron.SegmentRoundTrip | orloj_beta/cronexpr/cronexpr.go:152-213 | a range with a step, written out in decimal, parses back to the same progression |
| Cron.ListRoundTrip | orloj_beta/cronexpr/cronexpr.go:127-150 | any nonempty list of values in range, joined by commas, is accepted and means just those values |
| Cron.NeverMatchesExact | orloj_beta/cronexpr/cronexpr.go:91-118 | no minute ever matches exactly when only the day of month restricts and no selected month has a selected day |
| Cron.DayAhead | orloj_beta/cronexpr/cronexpr.go:65-89 | a satisfiable expression matches some day among the next 3309 after any day |
| Cron.DayBehind | orloj_beta/cronexpr/cronexpr.go:71-89 | and some day among the 3309 before any day |
| Cron.HorizonReaches | orloj_beta/cronexpr/cronexpr.go:65-89 | so the scan horizon of 10·366 days reaches a slot both ways from every minute, in every whole-minute zone |
| Cron.Scan | orloj_beta/cronexpr/cronexpr.go:76-89 | returns the first slot in its direction within the step bound, or none if there is none in it |
| Cron.SlotExact | orloj_beta/cronexpr/cronexpr.go:91-118 | a minute is a slot exactly when its hour, minute and month are selected and its date or weekday is, by either day field when both restrict and by both otherwise; weekdays are any reading that makes 1 January 1970 a Thursday |
| Cron.Next | orloj_beta/cronexpr/cronexpr.go:65-68 | returns the least slot strictly after the instant; fails exactly for unsatisfiable expressions |
| Cron.Prev | orloj_beta/cronexpr/cronexpr.go:71-74 | returns the greatest slot at or before the instant; fails exactly for unsatisfiable expressions |
| Calendar.DateRoundTrip | orloj_beta/cronexpr/cronexpr.go:91-118 | the calendar reading of a day and the day number of a date are inverse |
| Calendar.NextDate | orloj_beta/cronexpr/cronexpr.go:91-118 | day numbers count the dates one by one, over months and years |
| Calendar.CivilYear | orloj_beta/cronexpr/cronexpr.go:91-118 | the twelve month lengths, years of 365 and 366 days, and 146097 days in 400 years |
| Calendar.WeekdayExact | orloj_beta/cronexpr/cronexpr.go:106-106 | the weekday of a day is the only reading that goes round from Sunday to Saturday and makes 1 January 1970 a Thursday |
| Calendar.LeapAhead | orloj_beta/cronexpr/cronexpr.go:65-74 | a leap year lies within eight years of any year (Appendix C of RFC 3339) |
| LineDiff.FillTable | orloj_beta/cli/orlojctl_extended.go:695-711 | every cell holds the longest common length of the two suffixes |
| LineDiff.WalkStep | orloj_beta/cli/orlojctl_extended.go:713-729 | each step extends the script while keeping common lines so far plus the cell equal to the optimum |
| LineDiff.LineDiffOps | orloj_beta/cli/orlojctl_extended.go:694-739 | the ' ' and '-' lines spell the old text, the ' ' and '+' lines the new one, and the common part is as long as possible |
| LineDiff.LcsIsBound | orloj_beta/cli/orlojctl_extended.go:695-711 | no common subsequence is longer than the table's value |
| LineDiff.FewestEdits | orloj_beta/cli/orlojctl_extended.go:694-739 | no script between the two texts has fewer edits |
| LineDiff.SplitDiffLines | orloj_beta/cli/orlojctl_extended.go:686-692 | no line contains a newline, and joining the lines gives back the text without its last newline; there are none exactly when that is empty |
| LineDiff.RenderUnifiedDiff | orloj_beta/cli/orlojctl_extended.go:741-756 | for labels without a newline, the text read back by lines has the two labels, a hunk header whose numbers count the body's old and new lines, and a body that patches the old lines into the new ones with as many kept as possible |
| LineDiff.RenderedReads | orloj_beta/cli/orlojctl_extended.go:741-756 | the rendering of any optimal script reads back so |
| LineDiff.HeaderReads | orloj_beta/cli/orlojctl_extended.go:749-749 | the hunk header's two numbers read back as the old and the new line count |
| Review.ReviewCycleExact | orloj_beta/controllers/task_controller.go:1670-1684 | a cycle written into any input reads back, and an input without one is at cycle 1 |
| Review.ExecuteFrom | orloj_beta/controllers/task_controller.go:2314-2548 | the agent loop computes the specified pause, failure or completion |
| ReviewOutcome.ExecuteOutcome | orloj_beta/controllers/task_controller.go:2314-2548 | a run follows the inputs its agents hand on to the first that fails, is reviewed, or is past the last: it fails, waits there with that input and the next one, or succeeds or waits for the completion review |
| ReviewOutcome.CompletionInput | orloj_beta/controllers/task_controller.go:2185-2222 | the review of the whole output carries the last agent's input |
| Review.ExecuteConsistent | orloj_beta/controllers/task_controller.go:1817-2222 | running from a position pauses only at that or a later stage with a consistent resume context, at cycle 1 when its input carries no cycle |
| Review.HandoffErasesReview | orloj_beta/controllers/task_controller.go:2429-2456 | the next agent's input carries no review cycle |
| ReviewOutcome.HandoffExact | orloj_beta/controllers/task_controller.go:2429-2456 | the next agent's input has the handed-over values, the earlier ones otherwise, and none of the six review keys |
| ReviewOutcome.FeedbackExact | orloj_beta/controllers/task_controller.go:1074-1083 | the feedback input has the comment, the output, the checkpoint and the reviewer, over the old input |
| Review.FeedbackRaisesCycle | orloj_beta/controllers/task_controller.go:1074-1083 | the feedback input reads back as one cycle more and as replacing the decided approval |
| Review.ApproveAdvances | orloj_beta/controllers/task_controller.go:1059-1151 | an approval ends the task or pauses at a strictly later stage at cycle 1 |
| ReviewOutcome.RefusalFails | orloj_beta/controllers/task_controller.go:738-790 | denial, expiry, and a request for changes that is switched off or out of cycles fail the task |
| ReviewOutcome.LastApprovalSucceeds | orloj_beta/controllers/task_controller.go:1084-1106 | approving the last review succeeds, unless a completion review under another id is owed, which then starts at cycle 1 |
| ReviewOutcome.ApprovalRunsOn | orloj_beta/controllers/task_controller.go:1072-1125 | any other approval runs on from the next agent with the input handed over to it, and comes to what that run comes to |
| ReviewOutcome.ApprovalFailsExactly | orloj_beta/controllers/task_controller.go:1072-1125 | it fails exactly when some agent up to the next checkpoint fails on the input it gets |
| ReviewOutcome.ChangesRunAgain | orloj_beta/controllers/task_controller.go:1072-1083 | an allowed request for changes runs again from the reviewed agent with the feedback as input |
| Review.RequestChangesRaisesCycle | orloj_beta/controllers/task_controller.go:785-804 | a request for changes ends the task or pauses at the same stage, one cycle on, within the limit, with an approval that names the one it replaces |
| Review.DecisionDecreases | orloj_beta/controllers/task_controller.go:705-757 | every decision strictly lowers the decisions left (cycles left here and at later stages) |
| Review.ReviewEnds | orloj_beta/controllers/task_controller.go:1737-2222 | from any start, the sum of all review cycles bounds the number of decisions |
| Review.ApprovalsLoop | orloj_beta/controllers/task_controller.go:870-931 | with both final reviews, any number of approvals leaves the task waiting |
| Review.AlwaysEndsExactly | orloj_beta/controllers/task_controller.go:870-931 | review is bounded exactly when the two final reviews are not both present under different checkpoint ids |
| ReviewRetry.DecideTaskDecreases | orloj_beta/controllers/task_controller.go:1059-1151 | every decision lowers attempts left times all review cycles plus the decisions left, also when a resumed run fails and starts again |
| ReviewRetry.TaskEnds | orloj_beta/controllers/task_controller.go:1290-1356 | the decisions on a task are bounded by its attempts times the sum of its review cycles, whatever its agents do |
| ReviewRetry.RetryReachesAgain | orloj_beta/controllers/task_controller.go:1701-1734 | for every pipeline with a reviewed first agent and another after it, a retry waits at the same checkpoint and cycle as the approved attempt |
| Retry.DelaysGrow | orloj_beta/controllers/task_controller.go:2675-2697 | delays stay in [0, 24h], never shrink, double until capped, and stop growing after the tenth doubling |
| Retry.LargeBaseWraps | orloj_beta/controllers/task_controller.go:2691-2695 | every larger 64-bit base gives a negative delay at some attempt |
| Retry.DelayRangeExact | orloj_beta/controllers/task_controller.go:2675-2697 | delays lie in [0, 24h] at all attempts exactly for bases up to (2^63−1)/1024 |
| Retry.FailureHistory | orloj_beta/controllers/task_controller.go:1290-1356 | after any sequence of failures: dead letter, failed or pending exactly by which of the first M were retryable, with the delays of the attempts |
| Retry.RescheduledThenDeadLetter | orloj_beta/controllers/task_controller.go:1290-1405 | M retryable failures: exactly M−1 reschedules, then a dead letter that nobody claims again |
| Pagination.FetchListPageWithSelector | orloj_beta/api/pagination.go:74-144 | for every listing order: terminates and serves the page that the theorems below describe |
| Pagination.FillPage | orloj_beta/api/pagination.go:95-143 | the batch loop ends for every listing order, with a token (the last item's key) exactly when the page is full |
| Pagination.FillBatch | orloj_beta/api/pagination.go:100-133 | a batch fills the page, ends the listing, or moves the cursor on so that strictly fewer items are left |
| Pagination.PageMember | orloj_beta/api/pagination.go:74-144 | whatever the order, a page holds only listed, selected items beyond the cursor |
| Pagination.PageOfOrdered | orloj_beta/api/pagination.go:74-144 | in key order the page served is the first selected items beyond the cursor, as if everything were filtered |
| Pagination.BoundedSelectorPageLimit | orloj_beta/api/pagination.go:31-39 | the page limit lies between 1 and 1000 for every request |
| Pagination.TokenShrinks | orloj_beta/api/pagination.go:42-47 | a token comes with a nonempty page, is its last key, and leaves strictly fewer items, for any listing order |
| Pagination.FollowFrom | orloj_beta/api/pagination.go:74-144 | following tokens from any cursor gives exactly the selected items beyond it |
| Pagination.PagesCoverListing | orloj_beta/api/pagination.go:42-144 | from the start the pages concatenate to the namespace's selected items, each once, in key order |
| Pagination.SelectorPages | orloj_beta/api/pagination.go:95-143 | with a selector, pages of every size are right for a listing in key order, and only if the selected items are in key order |
| Pagination.PlainPagesExact | orloj_beta/store/resource_stores.go:19-38 | plain pages of every size cover a listing exactly when it is in key order, and so do the pages of all selectors |
| Pagination.NameOrderWithinNamespace | orloj_beta/store/resource_stores.go:2404-2424 | the in-memory order by name is key order inside one namespace |
| Pagination.NameOrderLosesItems | orloj_beta/store/resource_stores.go:2404-2424 | two namespaces for which pages of one lose an item |
| Watch.WatchStream.SendSnapshot | orloj_beta/api/watch.go:351-422 | emits the changes in record order, then one deletion per vanished key, and remembers exactly the filtered snapshot |
| Watch.WatchStream.SendDeletions | orloj_beta/api/watch.go:393-413 | one deletion for each key held and no longer present, and no other |
| Watch.KeepsKeyOfRecord | orloj_beta/api/watch.go:369-374 | filtering a remembered key agrees with filtering the record it came from |
| Watch.StepSynchronises | orloj_beta/api/watch.go:351-422 | replaying one snapshot's events turns the client's map into the filtered snapshot |
| Watch.EventsJustified | orloj_beta/api/watch.go:377-413 | added only for keys not held, updated only for changed versions, deleted only for held keys that are gone |
| Watch.StreamSynchronises | orloj_beta/api/watch.go:351-422 | over any sequence of snapshots the replayed stream equals the latest filtered one |
| Watch.WatchStream.SendLive | orloj_beta/api/watch.go:278-303 | the live loop skips versions at or below the start and versions already sent, forgets removed keys, and sends the rest |
| Watch.SentExactly | orloj_beta/api/watch.go:278-303 | a kept creation is sent as added and any other kept write as updated unless old or already sent, a removal as deleted if held, nothing else |
| Watch.LiveFollows | orloj_beta/api/watch.go:252-304 | over any changes it hears of, the loop's memory, and a client that replays what it sent, follow them |
| WatchLive.FollowsExactly | orloj_beta/api/watch.go:225-304 | for all ids, snapshot points and moments the watch's memory is the filtered store, exactly when every write that changes that store is announced |
| WatchLive.MissedWrite | orloj_beta/api/watch.go:240-250 | any write that changes the filtered store and is not announced leaves the watch behind |
| WatchLive.ControllersAreMissed | orloj_beta/api/watch.go:284-293 | after any history: a controller's update, and a creation published with the object from before its write, are missed |
| WatchLive.WatchFollowsStore | orloj_beta/api/watch.go:225-304 | with all writes announced, replaying the snapshot's events and the live ones, old ones included, gives the filtered store |
| WatchArrival.DeliveredMessages | orloj_beta/eventbus/memory_bus.go:106-136 | a subscription's replay is what matches between its SinceID and its birth, its live events what matches after |
| WatchArrival.ArrivalExactly | orloj_beta/eventbus/memory_bus.go:126-136 | over all later changes and all interleavings of replay and live events, the memory ends up right exactly when the replay holds no kept change |
| WatchArrival.ReplayOvertaken | orloj_beta/eventbus/memory_bus.go:126-136 | any kept change in the replay can be overtaken by a newer one of its key and then wins |
| RateLimit.IpRateLimiter.AllowRequest | orloj_beta/api/auth_ratelimit.go:45-72 | the stateful limiter makes the specified decision and state change |
| RateLimit.IpRateLimiter.CleanupLocked | orloj_beta/api/auth_ratelimit.go:74-88 | every five minutes drops exactly the entries idle for over ten |
| RateLimit.AllowSimulates | orloj_beta/api/auth_ratelimit.go:45-88 | one request decides as a never-evicting limiter would, and the two stay indistinguishable |
| RateLimit.EvictionUnobservable | orloj_beta/api/auth_ratelimit.go:33-88 | so do all requests of all addresses in any sequence, when idle buckets refill in time |
| RateLimit.ServerSettingsRefill | orloj_beta/api/server.go:205-244 | the authentication, watch and A2A settings do |
| RateLimit.EvictionObserved | orloj_beta/api/auth_ratelimit.go:74-88 | otherwise a burst, an idle spell and a second burst tell the limiters apart |
| RateLimit.UnobservableExactly | orloj_beta/api/auth_ratelimit.go:33-88 | eviction is unobservable exactly when 600 seconds times the rate reach the burst |
| WorkQueue.KeyQueue.EnqueueLocked | orloj_beta/controllers/workqueue.go:27-39 | the trimmed key joins the end unless blank or pending |
| WorkQueue.KeyQueue.Enqueue | orloj_beta/controllers/workqueue.go:27-44 | and a wakeup token is left exactly when it did |
| WorkQueue.KeyQueue.TryPop | orloj_beta/controllers/workqueue.go:60-69 | hands out the oldest key, which stays pending |
| WorkQueue.KeyQueue.Done | orloj_beta/controllers/workqueue.go:71-79 | the key is no longer pending |
| WorkQueue.StepInv | orloj_beta/controllers/workqueue.go:27-79 | every step of every producer and consumer keeps the invariant |
| WorkQueue.QueueSafety | orloj_beta/controllers/workqueue.go:27-79 | in every reachable state pending is the disjoint union of queued and in-flight keys, and keys leave in arrival order |
| WorkQueue.NoDoubleHandout | orloj_beta/controllers/workqueue.go:46-79 | no key is handed out while it is still being worked on |
| WorkQueue.NoLostWakeup | orloj_beta/controllers/workqueue.go:40-58 | for any number of consumers, all blocked on a nonempty queue implies a token in the channel or on its way |
| WorkQueue.SecondStaysBlocked | orloj_beta/controllers/workqueue.go:40-58 | with two consumers, a run in which one stays blocked beside a queued key with no token while the other works |
| WorkQueue.PromptExactly | orloj_beta/controllers/workqueue.go:40-58 | a blocked consumer beside a queued key always means a token, a sender or a checking consumer, exactly with at most one consumer |
| EventBus.MemoryBus.constructor | orloj_beta/eventbus/memory_bus.go:56-65 | starts empty, with 2048 entries of history when no positive size is given |
| EventBus.MemoryBus.Publish | orloj_beta/eventbus/memory_bus.go:67-86 | stamps the next id, keeps the history the last entries of the log, and reaches exactly the matching subscribers |
| EventBus.MemoryBus.Subscribe | orloj_beta/eventbus/memory_bus.go:106-124 | registers the filter and takes the matching history after SinceID in one step |
| EventBus.MemoryBus.LatestID | orloj_beta/eventbus/memory_bus.go:141-145 | the number of events published so far |
| EventBus.MemoryBus.RemoveSubscriber | orloj_beta/eventbus/memory_bus.go:147-151 | drops one subscriber and nothing else |
| EventBus.WindowAppend | orloj_beta/eventbus/memory_bus.go:74-77 | trimming after each append keeps exactly the last historyMax events with consecutive ids |
| EventBus.MatchesExactly | orloj_beta/eventbus/memory_bus.go:153-170 | each nonblank filter field admits only events equal in it up to case and padding |
| EventBus.DeliveredExactly | orloj_beta/eventbus/memory_bus.go:67-139 | which events a subscriber gets by replay and which live, and that no event comes by both |
| EventBus.NoGapExactly | orloj_beta/eventbus/memory_bus.go:106-124 | nothing after SinceID is missed exactly when no matching event had left the history |
| EventBus.WatchHasNoGap | orloj_beta/api/watch.go:225-250 | reading the latest id before the snapshot leaves no gap while at most historyMax events intervene |
| Approvals.StepInv | orloj_beta/api/server.go:2224-2278 | every read, write, careful post, re-creation of an undecided approval and unrelated version bump keeps the invariant |
| Approvals.PostInv | orloj_beta/api/server.go:2158-2165 | a post that carries a version already reached writes back the current status or is refused |
| Approvals.DecisionWithinLimits | orloj_beta/api/server.go:2246-2259 | the write that takes effect finds the approval pending, and asks for changes only where allowed and below the cycle limit |
| Approvals.AtMostOneDecision | orloj_beta/api/server.go:2224-2278 | over any interleaving of decisions and careful posts at most one call succeeds, the stored decision is that call's, and it is decided exactly if a call succeeded |
| Approvals.SuccessStores | orloj_beta/api/server.go:2260-2265 | a successful approval stores Approved, a denial Denied, a request for changes ChangesRequested, with its author |
| Approvals.DecisionIsFinal | orloj_beta/api/server.go:2090-2133 | with careful posts and no decided checkpoint reached again, a decided status stays |
| Approvals.CallsAnswer | orloj_beta/api/server.go:2237-2277 | whatever else happens, a call takes at most ten steps of its own and has answered once it has taken ten |
| Approvals.StalePostReopens | orloj_beta/api/server.go:2158-2165 | for every carried version that is empty or not yet reached, a run in which two decisions succeed |
| Approvals.RecreationReopens | orloj_beta/controllers/task_controller.go:1701-1734 | for every decision: if the checkpoint is reached again after it, a second decision succeeds |
| Approvals.AtMostOneExactly | orloj_beta/store/versioning.go:46-50 | at most one decision succeeds over all runs exactly when every post carries a version no later than the one its handler reads and no decided checkpoint is reached again at its cycle |
| Webhook.RunKeyExact | orloj_beta/api/task_webhook_api.go:722-737 | two events of a hook share a task key exactly when their digests agree, padding and the cut of long names aside |
| Webhook.AdmittedCoherent | orloj_beta/api/task_webhook_api.go:656-658 | handlers of one event, however its id was padded, work out one key, and the dedupe store keeps it unchanged |
| Webhook.StepNamed | orloj_beta/api/task_webhook_api.go:232-283 | every step of every delivery of every event, a death or a prune keeps: answers, entries and tasks carry the keys their events determine |
| Webhook.StepKept | orloj_beta/store/webhook_dedupe_store.go:81-106 | inside a window of an event its entry stays, and is there once a delivery was answered first |
| Webhook.OneTaskKey | orloj_beta/api/task_webhook_api.go:656-709 | over deliveries of any events, with any clocks and dying handlers: each accepted answer names the key of its own event and that task exists; two of one hook name one task exactly when the digests agree |
| WebhookAnswers.DeliveriesAnswer | orloj_beta/api/task_webhook_api.go:232-283 | whatever the others do, a delivery whose handler lives is answered by its fourth step |
| WebhookAnswers.RejectedExactly | orloj_beta/api/task_webhook_api.go:659-671 | a delivery is rejected exactly when it found under its key a task whose hook name or namespace label differs from its hook's |
| WebhookAnswers.NeverRejectsExactly | orloj_beta/api/task_webhook_api.go:659-671 | no delivery is ever rejected, over all runs on fresh keys, exactly when deliveries that share a key belong to hooks with the same labels |
| WebhookAnswers.LaterDeliveryAccepted | orloj_beta/api/task_webhook_api.go:656-709 | for one hook, a delivery that has taken its steps is accepted and names the key of its event, also after another handler of the event died halfway |
| Webhook.Overwritten | orloj_beta/api/task_webhook_api.go:659-703 | two deliveries with one key and different events or hooks: one is accepted and finds its task overwritten |
| Webhook.OwnEventsExactly | orloj_beta/api/task_webhook_api.go:659-703 | the tasks of accepted deliveries are at all times their own exactly when no two deliveries of different events or hooks share a key |
| Webhook.OneHookExactly | orloj_beta/api/task_webhook_api.go:659-737 | for one hook: exactly when the digest tells the events apart |
| Webhook.WorkLost | orloj_beta/store/resource_stores.go:2334-2351 | any two deliveries with one key: one is accepted, its task is worked on, and the other writes it afresh |
| Webhook.NeverResetExactly | orloj_beta/store/resource_stores.go:2334-2351 | an accepted delivery's task is never reset, over all runs, exactly when no two deliveries share a key |
| Webhook.OneFirstDelivery | orloj_beta/store/webhook_dedupe_store.go:81-106 | with the in-memory store at most one delivery of an event is answered duplicate=false inside a window |
| Webhook.SqlBothFirst | orloj_beta/store/sql_backend.go:1172-1199 | with the SQL store any two deliveries of one event can both answer duplicate=false |
| Webhook.OneFirstExactly | orloj_beta/store/sql_backend.go:1172-1199 | at most one delivery is answered as the first, over all runs in a window, exactly with the in-memory store |
| Schedule.NameInjective | orloj_beta/controllers/task_schedule_controller.go:476-486 | different slots of a schedule have different run names |
| Schedule.NameReads | orloj_beta/controllers/task_schedule_controller.go:476-486 | the name ends in the slot's year, month, day, hour and minute in decimal |
| Schedule.EvaluateDueSlot | orloj_beta/controllers/task_schedule_controller.go:207-229 | finds the latest slot if it is later than the last one acted on, and whether it is within the deadline |
| Schedule.LastSlotAdvances | orloj_beta/controllers/task_schedule_controller.go:132-141 | over any clock readings the last slot never goes back, and each slot acted on is strictly later than all before |
| Schedule.Expired | orloj_beta/controllers/task_schedule_controller.go:307-326 | what is dropped from a class of finished runs leaves its newest N |
| Schedule.ScheduleController.EnsureRunTask | orloj_beta/controllers/task_schedule_controller.go:231-292 | creates the slot's run, accepts it when it is there already, and fails without a template or on a foreign task of that name |
| Schedule.ScheduleController.CleanupHistory | orloj_beta/controllers/task_schedule_controller.go:294-327 | cuts both classes of finished runs to their newest and leaves every other run |
| Schedule.ScheduleController.Trigger | orloj_beta/controllers/task_schedule_controller.go:140-166 | remembers the slot and creates its run exactly when in time, not forbidden by an active run, with a template and a free name |
| Schedule.ScheduleController.Reconcile | orloj_beta/controllers/task_schedule_controller.go:105-186 | one reconciliation at any clock reading: creations strictly increase and happen exactly as above, retention applies, active runs stay; a suspended schedule does nothing |
| Placement.SelectWorker | orloj_beta/controllers/task_scheduler_controller.go:154-185 | picks the least loaded fitting worker with room, the first by name among equals, and none only if there is none |
| Placement.ReconcileTaskAssignment | orloj_beta/controllers/task_scheduler_controller.go:122-152 | keeps a placement that still fits, otherwise places or clears it, counting the placement |
| Placement.ReconcileOnce | orloj_beta/controllers/task_scheduler_controller.go:76-120 | a pass places the tasks one after another; with no eligible worker it changes nothing |
| Placement.CapsRespected | orloj_beta/controllers/task_scheduler_controller.go:168-175 | the tasks a pass newly puts on a worker and those it reported never exceed its cap |
| Placement.CountsMatchAssignments | orloj_beta/controllers/task_scheduler_controller.go:144-150 | the pass's counter equals the number of tasks without a standing placement before that sit on the worker after |
| Placement.UnassignedMeansFull | orloj_beta/controllers/task_scheduler_controller.go:122-185 | a pending task ends on a fitting worker, or unassigned with every fitting worker full |
| Placement.NewPlacementFits | orloj_beta/controllers/task_scheduler_controller.go:205-217 | a newly placed task gets its region, a GPU if it asks for one, and its model where the worker lists models |
| Placement.LoadsBalance | orloj_beta/controllers/task_scheduler_controller.go:161-180 | for tasks without requirements, a worker given work ends at most one above any worker with room left |
| Text.TrimExact | orloj_beta/cronexpr/cronexpr.go:127-150 | trimming removes exactly the blank ends |
| Text.AtoiItoa | orloj_beta/controllers/task_controller.go:1670-1684 | every machine integer written in decimal reads back as itself |

## Left out

- HTTP routing, JSON, server-sent events, logging, metering and audit: plumbing around the modelled logic.
- Store and SQL internals: a listing, a compare-and-swap upsert and an atomic insert are taken as single steps; errors of store calls are not modelled.
- Normalisation of graph edges (`resources.GraphOutgoingAgents`): a node carries the resulting agents in order, possibly repeated.
- The rest of task validation (missing agents, tools, roles, models): lookups with no deep property.
- GraphAccepted: covers only the graph part of task validation, and of the agent list only that it is nonempty with no blank name.
- Parsing is stated for field bounds whose double fits the machine integer, as all five are.
- Next: time zones are whole-minute fixed offsets; daylight saving and sub-minute offsets are not modelled. The same holds for Prev.
- EqualFold: folds ASCII letters only, not all of Unicode; strings are character sequences, not UTF-8 bytes.
- SelectorPages: for one fixed selector the two halves are a sufficient and a necessary condition; which disorder among unselected items is harmless is not classified. Over all selectors PlainPagesExact is exact.
- Rewriting of bare-name cursors before a page is fetched: a short string helper.
- SendSnapshot: the sorting of records before the loop is not modelled (records come in any order), nor is the payload of the events.
- The polling fallback of a watch (it repeats SendSnapshot), and live events whose payload is not a resource.
- FollowsExactly: publish order is taken to be store order. Handlers write and then publish without a common lock, so two updates of one key can also be published the other way round.
- Publish: events dropped from a full subscriber channel are not modelled.
- AllowRequest: tokens are reals without rounding; concurrent requests are serialised, each reading the clock up to a given delay after its stamp; proxies and header parsing are left out.
- StepInv of the work queue: consumers finish only keys they were handed; the code's `Done` would also drop a queued key.
- Approval expiry by the controller, deletion of approvals, and the tool-approval handler as a separate model: the last is the same loop without request-changes.
- Message-driven execution, tool approvals inside an agent run, context adapters and token budgets: an agent run is an arbitrary result.
- ExecuteFrom: a failed agent ends the modelled run; ReviewRetry adds the attempts that follow.
- ApprovalName: stands for the hashed resource name of an approval.
- FailureHistory: one attempt per claim; takeover of an expired lease and the text rules that call an error retryable are not modelled.
- Webhook signatures, secrets and the task template: outside the dedupe protocol; the digest is any function to words.
- OneTaskKey: hooks and their endpoints do not change during a run; deletion of run tasks is not modelled. For an expired SQL entry the insert is taken to succeed.
- NameInjective: holds for any base name; the cleaning and cutting of the schedule name to that base is not modelled, so nothing is said about two schedules.
- Reconcile: unparsable schedules and failing status writes are not modelled; one controller runs per schedule.
- ReconcileOnce: tasks come in the given order (the source sorts them by name); worker eligibility by heartbeat and failing upserts are not modelled.
