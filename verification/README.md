# n8n-turbo: a model of the engine's algorithms and what is proved about it

n8n-turbo is a workflow engine written in Go. This project models the algorithms of the engine and its
server that carry the most state, and proves what they keep over all inputs, all runs or all reachable
states. `dafny verify dfyconfig.toml` checks everything.

| file | what it models |
|---|---|
| `Leader.dfy`, `LeaderClient.dfy` | the Redis lease that elects the instance that runs schedules |
| `Bits.dfy`, `Calendar.dfy`, `CivilSearch.dfy`, `CronSchedule.dfy`, `CronFires.dfy`, `CronProgression.dfy`, `CronParser.dfy`, `CronText.dfy`, `Text.dfy` | cron expressions and the skip-ahead search for their next instant |
| `Concurrency.dfy`, `ConcurrencyService.dfy`, `ActiveExecutions.dfy` | semaphores, the priority queue, cancellation and release of execution slots, and their owners |
| `Flatted.dfy`, `FlattedDecoder.dfy` | the flatted codec for values with shared and cyclic references |
| `Graph.dfy`, `Evaluator.dfy`, `EvaluatorRuns.dfy`, `EvaluatorRounds.dfy`, `EvaluatorReads.dfy`, `EvaluatorService.dfy` | the workflow graph and the round-based evaluator |
| `RateLimiter.dfy` | the token buckets of the API and the cleanup that forgets idle ones |
| `GmailPoll.dfy` | the cursor and the seen set of the mail trigger |
| `Vault.dfy` | the stored format of credentials |
| `Webhook.dfy` | path patterns, and the webhook index against the full scan |
| `Folders.dfy` | the folders below a folder, and deleting one |
| `Wrappers.dfy` | optional values and results |

Where the Go code changes state step by step, a class or a method with loops is proved equal to a
specification on values (`Model()` before and after), and the results below are about that
specification.

## What the proofs say, in short

- **Leader lease.** At most one instance considers itself leader, and each such flag is backed by a live
  key, in every run with lost and delayed requests and replies, stalls and restarts, *if and only if* the
  time to live divides by three, is a whole number of milliseconds, and the renewal interval is not set
  below a third of it. A smaller renewal interval elects two. A restart waits until the instance's own DEL
  is no longer on its way: instance ids are configured (`internal/api/router.go:174`), so a restart can
  meet it, and without that guard two are leaders under any settings. When no message is lost, a start
  acquires a free key, a tick renews, and stopping a leader hands the key over at once.
- **Cron.** The search returns exactly what a second-by-second scan of the four-year window returns. For
  expressions as they are written, of `*`, numbers, ranges, steps and commas, the next instant is the first
  later one that the text means, which is said without the parser. A comma
  part of a field selects exactly the values its text lists *if and only if* its start plus twice its step is
  below 2 to the 64th, and a field of such parts does: the loop variable has 64 bits and wraps, so
  `2/9223372036854775807` also selects 0. A search never fails *if and only if* a selected day comes up in
  every stretch of four years of one 400-year cycle; with a free weekday, *if and only if* a selected day
  exists in every year.
- **Concurrency.** Slot counts equal outstanding grants and stay within their limits in every reachable
  state, and each slot has exactly one owner; a cancelled waiter is removed or granted, never both; after a
  release nothing that waits could be granted; the queue is ordered by priority, then arrival, and within a
  workflow no step grants a call while one before it waits on. The service is work-conserving *if and only if* at most one
  call can wait or the global limit is reached before any workflow's.
- **Flatted.** Decoding an encoded value gives it back, for any order of keys; decoding ends on every
  table, cyclic ones included, with each cell rebuilt once.
- **Evaluator.** A round stops the execution with its first error that no setting of the failing node lets
  pass. Items are conserved along permitted edges; a joined node runs only when every input has
  arrived; only the slice of the destination runs; and an acyclic workflow ends within as many rounds as it
  has nodes, whatever its nodes do. A node whose inputs are full is queued again for new items *if and only
  if* it is not behind in the batch that is being delivered. There it has run already, on its earlier
  inputs, and the new items are not read unless more arrive: a step that is fed both directly and through a
  sibling can lose the sibling's items. A node that all walks from the start nodes reach by the same number
  of edges loses none.
- **Rate limiter.** Cleaning up is invisible, and the bound of burst plus rate times length holds for
  every interval, *if and only if* the window is at most ten minutes. The server uses one minute.
- **Mail trigger.** No message is emitted twice, under any failures, and one is lost *if and only if* it
  becomes visible two seconds or more behind the cursor.
- **Vault, webhooks, folders.** Round trips and exact decryption; no misrouting under any index, and when
  no index matters; exact conditions for a transfer to leave a forest without dangling parents.

## Where the code differs from its documentation

- `internal/api/gmail_poll.go:91-94`: the first poll is said to skip all earlier mail. The two-second
  overlap re-lists mail of the two seconds before it, which is then emitted (`GmailPoll.BaselineIsNotSharp`).
- `internal/cron/leader.go:51`: capping the interval at a third is said to drop leadership in time. That
  holds only at exactly a third (`Leader.LeaseIsExact`).
- `internal/api/webhook_registry.go:101-103`: a stale index entry is said never to misroute. A result does
  always fit, but with two fitting workflows it need not be the one that the scan finds
  (`Webhook.TwoFitsIndexDecides`).

## Model

| member | source | states |
|---|---|---|
| Leader.LeaseIsExact | internal/cron/leader.go:36-81 | for all durations given to the constructor: mutual exclusion over all runs, and each flag backed by a live key, if and only if ttl divides by 3 and by 1 ms and the renewal interval is unset or at least ttl/3 |
| Leader.TightNeverElectsTwo | internal/cron/leader.go:134-203 | with such timing every reachable state has at most one flag, and a flag only while the key names its instance and has not expired |
| Leader.LooseTimingElectsTwo | internal/cron/leader.go:134-184 | with any other timing a legal run from an initial state ends with two flags |
| Leader.StepKeepsInv | internal/cron/leader.go:83-189 | every client, server, network and clock step keeps the lease that a flag relies on longer than the call's deadline |
| Leader.RunKeepsInv | internal/cron/leader.go:83-189 | so does every run |
| Leader.ClampRenewInterval | internal/cron/leader.go:52-63 | the interval is positive, at most a third of the ttl, and kept if it already is |
| Leader.EffectiveTiming | internal/cron/leader.go:36-81 | which constructor arguments give the exact timing |
| Leader.StartBeforeOwnReleaseElectsTwo | internal/cron/leader.go:83-128 | under any settings, a start while the instance's own DEL is on its way can lead to two leaders |
| Leader.StopHandsOver | internal/cron/leader.go:100-143 | from any state in which an instance waits beside its own live key: stopping it is a legal run that ends with no key and no flag, and another idle instance is leader at the same clock time |
| Leader.StoppedStartsAgain | internal/cron/leader.go:83-128 | the stopped instance itself can be leader again, once its DEL has arrived |
| Leader.OnlyStopEndsLoop | internal/cron/leader.go:134-148 | no step takes an instance out of its loop unless it was cancelled, and only Stop cancels |
| Leader.StartAcquires | internal/cron/leader.go:83-164 | with no live key, a start whose messages arrive ends with the flag and the key for the time to live |
| Leader.StartFollows | internal/cron/leader.go:150-176 | beside another's live key it ends without a flag and leaves the key |
| Leader.TickRenews | internal/cron/leader.go:134-176 | a tick whose messages arrive renews the instance's own key and keeps the flag |
| Leader.CallsEndInTime | internal/cron/leader.go:150-184 | in every run no call outlives its deadline |
| Leader.TimingInNanoseconds | internal/cron/leader.go:36-81 | the default settings in nanoseconds, what a deadline leaves of the lease, and which times to live are exact |
| LeaderClient.RedisLeader.constructor | internal/cron/leader.go:36-81 | the object's settings are those of the transition system |
| LeaderClient.RedisLeader.Clamp | internal/cron/leader.go:52-63 | the clamped interval |
| LeaderClient.RedisLeader.TryAcquire | internal/cron/leader.go:150-176 | the flag is set exactly if the key was created, or was its own and renewed |
| LeaderClient.StepsFollowTryAcquire | internal/cron/leader.go:150-176 | each reply and each error moves a call of the transition system as the method does |
| Bits.BitMeetsOnlyItself | internal/cron/parser.go:205-207 | a single bit of a mask is set for its own value only |
| Bits.OrAdds | internal/cron/parser.go:156-158 | setting a bit adds that value and no other |
| Bits.AndNotRemoves | internal/cron/parser.go:76-79 | clearing a bit removes that value and no other |
| Calendar.LessIsUnixLess | internal/cron/parser.go:91-128 | the order of civil times, with Gregorian leap years, is the order of their second numbers |
| Calendar.EverySecondHasCivilTime | internal/cron/parser.go:91-128 | every second number has a civil time |
| CivilSearch.ScanFinds | internal/cron/parser.go:91-128 | the naive scan finds an instant exactly when the window holds one |
| CivilSearch.ScanPassesNoMatch | internal/cron/parser.go:91-128 | a scan may start after any stretch without a match |
| CronSchedule.JumpMovesForward | internal/cron/parser.go:209-227 | a jump goes to a valid, later instant |
| CronSchedule.JumpSkipsNothing | internal/cron/parser.go:104-125 | each jump passes over rejected instants only |
| CronSchedule.Next | internal/cron/parser.go:91-128 | the search equals the second-by-second scan: the least match strictly after the given time, or none in the window |
| CronSchedule.FoundIsLeastSecond | internal/cron/parser.go:91-128 | in clock seconds: no second between the given time and the result matches, and without a result none within four years |
| CronSchedule.FreeDayFieldHasNext | internal/cron/parser.go:91-128 | with one day field unrestricted, and the other allowing a day that exists in every year or any weekday, the result is never zero |
| CronSchedule.LeapDayBeyondLimit | internal/cron/parser.go:102-104 | a schedule without a day that exists in every year finds nothing after February 2096; yet one for February 29th fires in 2104 |
| CronFires.FiresExactly | internal/cron/parser.go:91-128 | for all fields: the result is never zero if and only if from each day of a 400-year cycle a fitting day comes within four years |
| CronFires.FreeWeekdayFiresExactly | internal/cron/parser.go:91-128 | with a free weekday: if and only if an allowed day of an allowed month exists in every year; else zero after February 2096 |
| CronFires.FreeDayOfMonthFires | internal/cron/parser.go:91-128 | with a free day of month the result is never zero |
| CronFires.NeverFiresExactly | internal/cron/parser.go:91-128 | a schedule matches no instant at all if and only if no day of one cycle fits |
| CronFires.CycleIsEnough | internal/cron/parser.go:91-128 | days that fit through one cycle of 400 years fit around every day of the calendar |
| CronFires.WeekdayRepeats | internal/cron/parser.go:91-128 | weekdays repeat after any number of cycles |
| CronParser.ParseField | internal/cron/parser.go:130-164 | succeeds exactly on well-formed fields; bit v is set exactly if some comma part selects v; the mask is not empty; the error is that of the first bad part |
| CronProgression.AddProgression | internal/cron/parser.go:155-157 | the loop over 64-bit integers ends and adds exactly the values that a part selects: from start to end by the step and, if the first addition wraps, back from the start by what two steps lack to 2 to the 64th |
| CronProgression.ListsExactly | internal/cron/parser.go:155-157 | it adds exactly the values from start to end by the step, if and only if the start plus twice the step is below 2 to the 64th |
| CronParser.SelectedIsListed | internal/cron/parser.go:130-164 | so a field whose parts all satisfy this selects exactly the values that they list |
| CronParser.HugeStepSelectsZero | internal/cron/parser.go:155-157 | the seconds 2/9223372036854775807 select 0 although they list 2 only |
| CronParser.FoldSunday | internal/cron/parser.go:76-79 | weekday 7 becomes 0 and nothing else changes |
| CronParser.ParseWeekdays | internal/cron/parser.go:73-79 | the weekday mask is exact with Sunday as 0 or 7 |
| CronParser.ParseFields | internal/cron/parser.go:48-80 | five or six fields; an exact schedule, or the first bad field with the error of its first bad part |
| CronParser.ExpressionFiresExactly | internal/cron/parser.go:21-128 | in terms of the field texts, which expressions always have a next instant |
| CronParser.NextOfExpression | internal/cron/parser.go:21-128 | the result is the scan's for a schedule with exactly the selected values; it is never zero for those expressions, above all with `*` for the days of the month, or with `*` for the weekdays and a selected day that exists in every year; else the first bad field |
| CronText.FieldIsUnderstood | internal/cron/parser.go:130-186 | a field written of `*`, numbers, ranges and steps, joined by commas, parses exactly if every number lies in the field, every range runs upwards and no step is zero; it then selects exactly the values that some part means, which is said without the parser |
| CronText.FirstRefusal | internal/cron/parser.go:130-186 | otherwise the reason is that of the first such part |
| CronText.MalformedPart | internal/cron/parser.go:166-186 | a value or a start that is no number is refused as such |
| CronText.MalformedEnd | internal/cron/parser.go:175-178 | so is an end |
| CronText.MalformedStep | internal/cron/parser.go:139-146 | so is a step, or one that is not positive |
| CronText.StepAlone | internal/cron/parser.go:139-170 | a step without a range counts from the least value |
| CronText.ExpressionParsesExactly | internal/cron/parser.go:48-80 | five or six such fields parse exactly if all are sensible, each within its own bounds |
| CronText.MatchesWhatIsMeant | internal/cron/parser.go:48-128 | a schedule parsed from an expression of such fields matches exactly the instants that the expression means; five fields mean second 0, and Sunday is 0 or 7 |
| CronText.NextIsMeant | internal/cron/parser.go:85-128 | its next instant is the first later one that the expression means; there is one exactly if it means one within four years |
| Concurrency.SlotsConserved | internal/engine/concurrency.go:256-313 | in every reachable state the global and each limited workflow's semaphore count the outstanding grants and stay within their limits; acquired minus released are the grants; queued calls are granted, timed out or waiting |
| Concurrency.RunKeepsInv | internal/engine/concurrency.go:256-462 | the invariant behind it holds over every run of arrivals, cancellations and releases |
| Concurrency.CancelledWaiter | internal/engine/concurrency.go:293-313 | a waiter whose context ends is removed or granted, never both and never neither |
| Concurrency.ReleaseActsOnce | internal/engine/concurrency.go:363-385 | a repeated release changes nothing |
| Concurrency.QueueIsOrdered | internal/engine/concurrency.go:147-165 | in every reachable state higher priorities stand first, and among equal ones the earlier arrivals |
| Concurrency.NothingOvertakes | internal/engine/concurrency.go:256-408 | in any reachable state a step that grants a call while another of its workflow keeps waiting is a release, and the granted call has the higher priority, or an equal one and arrived earlier |
| Concurrency.LimitsAreKept | internal/engine/concurrency.go:424-460 | a workflow's own override bounds its calls, or else the common limit; a limit that is not positive does not |
| Concurrency.InsertKeepsOrder | internal/engine/concurrency.go:147-165 | insertion keeps the order behind this |
| Concurrency.GrantPassesOnlyFullWorkflows | internal/engine/concurrency.go:387-408 | a grant passes over an earlier entry only if that entry's workflow is full |
| Concurrency.ReleaseLeavesNothingGrantable | internal/engine/concurrency.go:372-408 | after a release no waiting call could be granted |
| Concurrency.WaitingMeansFull | internal/engine/concurrency.go:387-422 | when the global limit is reached before any workflow's, above all without workflow limits, calls wait only while it is full |
| Concurrency.WorkConservingExactly | internal/engine/concurrency.go:256-422 | in no reachable state does a grantable call wait, if and only if the queue holds at most one call or the global limit is reached before any workflow's |
| Concurrency.WaitsInVain | internal/engine/concurrency.go:268-293 | for every other configuration, a run after which a grantable call waits |
| Concurrency.QuietAfterArrivalExact | internal/engine/concurrency.go:268-293 | from a state where no grantable call waits, an arrival leads to one where it does if and only if it is queued behind others and could itself be granted |
| Concurrency.QuietAfterCancel | internal/engine/concurrency.go:293-313 | from such a state a cancellation never does |
| Concurrency.NotWorkConserving | internal/engine/concurrency.go:268-293 | a run after which a call waits although all its slots are free |
| ConcurrencyService.ConcurrencyControlService.TryAcquire | internal/engine/concurrency.go:410-438 | takes both semaphores or neither |
| ConcurrencyService.ConcurrencyControlService.EnqueueEntry | internal/engine/concurrency.go:147-165 | shifts the entry to its place in the queue |
| ConcurrencyService.ConcurrencyControlService.RemoveQueued | internal/engine/concurrency.go:178-189 | takes out the entry of a call, if it waits |
| ConcurrencyService.ConcurrencyControlService.DispatchLocked | internal/engine/concurrency.go:387-408 | grants entries until none can be granted |
| ConcurrencyService.ConcurrencyControlService.Wait | internal/engine/concurrency.go:256-293 | an arrival is granted, queued or refused, as the transition system says |
| ConcurrencyService.ConcurrencyControlService.CancelWait | internal/engine/concurrency.go:297-312 | the section after a context ended |
| ConcurrencyService.ConcurrencyControlService.ReleaseOnce | internal/engine/concurrency.go:363-385 | slots return, then waiting calls are granted; once a grant |
| ActiveExecutions.SlotsAreOwned | internal/engine/active_executions.go:50-91 | after any steps executions, releases and counter agree; each outstanding slot belongs to exactly one listed execution, or one Add or Remove under way, and each waiting call to one Add |
| ActiveExecutions.RunKeepsAgree | internal/engine/active_executions.go:50-91 | the agreement holds over every run |
| ActiveExecutions.DuplicateIdGivesSlotBack | internal/engine/active_executions.go:60-63 | a duplicate id returns the newcomer's slot and leaves the registered one alone |
| ActiveExecutions.DoubleRemove | internal/engine/active_executions.go:78-91 | a second Remove changes nothing, and the slot comes back once |
| ActiveExecutions.ActiveExecutions.StartAdd | internal/engine/active_executions.go:54-57 | the wait of Add up to its place in the queue |
| ActiveExecutions.ActiveExecutions.CancelAdd | internal/engine/active_executions.go:54-57 | an Add whose context ends while it waits |
| ActiveExecutions.ActiveExecutions.CompleteAdd | internal/engine/active_executions.go:58-76 | the registering section of Add |
| ActiveExecutions.ActiveExecutions.Remove | internal/engine/active_executions.go:78-91 | unregisters, then releases |
| Flatted.TargetIsAtoi | internal/flatted/flatted.go:149-156 | a reference is what strconv.Atoi reads, for every table that a Go int can index, and the written index of a cell names that cell |
| Flatted.RepresentsIsFunctional | internal/flatted/flatted.go:192-316 | a cell of a table stands for at most one value |
| Flatted.FillingKeepsMeaning | internal/flatted/flatted.go:192-255 | appending cells and filling reserved ones keeps what a cell stands for |
| Flatted.Stringifier.Flatten | internal/flatted/flatted.go:192-255 | the returned cell stands for the value, and all earlier cells keep their meaning |
| Flatted.Stringifier.EncodeObject | internal/flatted/flatted.go:295-301 | each field, in any key order, becomes a reference to its value |
| Flatted.Stringifier.EncodeArray | internal/flatted/flatted.go:303-309 | each item becomes a reference to its value |
| Flatted.Stringify | internal/flatted/flatted.go:62-81 | cell 0 of the table stands for the value |
| FlattedDecoder.Decoder.Reconstruct | internal/flatted/flatted.go:104-147 | fails only outside the table, ends on every table, rebuilds a cell only when it is unseen, and keeps all finished nodes |
| FlattedDecoder.Decoder.Resolve | internal/flatted/flatted.go:149-180 | a reference becomes the value of its cell, any other scalar itself |
| FlattedDecoder.ParseTable | internal/flatted/flatted.go:35-39 | a complete copy of what the root reaches: nodes mirror cells, references point to the nodes of their cells, cycles included; each cell is rebuilt at most once |
| FlattedDecoder.CopyDenotes | internal/flatted/flatted.go:104-180 | in a complete copy, a cell that stands for a value has become that value |
| FlattedDecoder.DenotesIsFunctional | internal/flatted/flatted.go:104-180 | a rebuilt value is at most one JSON value |
| FlattedDecoder.Parse | internal/flatted/flatted.go:12-40 | succeeds exactly when the root is a cell, with the value that it stands for; else the error for an empty table, a root index that is no number, or one out of range |
| FlattedDecoder.RoundTrip | internal/flatted/flatted.go:11-81 | parsing what was written gives the value back, if and only if it is not a string or null |
| FlattedDecoder.LegacyRoundTrip | internal/flatted/flatted.go:11-39 | with the legacy root "0" in front every value comes back |
| Graph.InvertConnections | internal/dataplane/connections.go:37-58 | (source, output) is listed at (node, type, index) if and only if that edge exists; the input count is exactly what the edges need |
| Graph.Graph.constructor | internal/dataplane/graph.go:11-21 | a name leads to the last node with that name |
| Graph.Graph.Lookup | internal/dataplane/graph.go:23-29 | finds that node, or none if there is none |
| Graph.MainEdgesAre | internal/engine/evaluator.go:561-571 | the edges that order the nodes are those of type main |
| Graph.Graph.Parents | internal/dataplane/graph.go:31-49 | each node with an edge of the type into this one, once |
| Graph.Graph.Ancestors | internal/dataplane/graph.go:71-86 | exactly the nodes from which a walk along main edges reaches this one |
| EvaluatorRuns.ItemsAreConserved | internal/engine/evaluator.go:553-586 | wherever an execution is cut off, each input holds its initial items, then every non-empty output sent along each permitted edge into it, in delivery order; it has an entry only if one of the two gave it one |
| EvaluatorRuns.RecordedIsDelivered | internal/engine/evaluator.go:131-165 | between rounds each node has delivered exactly the outputs recorded for it |
| EvaluatorRuns.RunDataGrows | internal/engine/evaluator.go:131-135 | the given run data is kept, and new tasks are appended with consecutive execution indexes |
| EvaluatorRuns.RoundOutcome | internal/engine/evaluator.go:131-170 | a round delivers the outputs before the first result that ends it: a suspension, an ended context, or a failure of a node whose own setting, or else the older one, does not let it go on; it waits if any node suspends, and stops with that first error otherwise |
| EvaluatorRuns.RoundDecides | internal/engine/evaluator.go:118-170 | so the execution waits, stops with the first error that ends the round, or goes on with the next round |
| EvaluatorRounds.BatchesAreReady | internal/engine/evaluator.go:118-165 | each node of round k ends a walk of k main edges from a start node; after the first round it is enabled, permitted and has an entry at every index below its input count |
| EvaluatorRounds.ReadyIsQueued | internal/engine/evaluator.go:157-163 | a permitted, enabled node that was sent items and has all its inputs is queued for the next round if and only if it is not behind in the same batch |
| EvaluatorReads.UnreadExactly | internal/engine/evaluator.go:118-165 | when an execution succeeds, such a node has run after the last items were sent to it if and only if these were not sent while it was behind in the batch |
| EvaluatorReads.OneLengthReadsAll | internal/engine/evaluator.go:118-165 | if all walks from the start nodes to such a node are of one length, an execution that succeeds leaves none of its items unread |
| EvaluatorReads.ShortcutLosesItem | internal/engine/evaluator.go:134-163 | a workflow of three steps that succeeds with an item that no run read |
| EvaluatorRounds.AcyclicEnds | internal/engine/evaluator.go:118-170 | an acyclic workflow ends within as many rounds as it has nodes |
| EvaluatorRounds.EndedStays | internal/engine/evaluator.go:118-170 | a later end of the context does not change the result |
| EvaluatorRounds.AcyclicRunsAreFew | internal/engine/evaluator.go:111-165 | with distinct start nodes a node runs at most once a round, so at most as often as there are nodes if the workflow is acyclic |
| EvaluatorService.SliceIsExact | internal/engine/evaluator.go:454-551 | no disabled node runs; with a destination only nodes that reach it run, and an exclusive one does not, save for a named trigger in the first round |
| EvaluatorService.ExecutionEnds | internal/engine/evaluator.go:97-175 | the bounds on rounds and runs, for any options |
| EvaluatorService.StartingMayStart | internal/engine/evaluator.go:470-513 | every start node is enabled and permitted, or the trigger; they are distinct if names and requested names are |
| EvaluatorService.StartsExactly | internal/engine/evaluator.go:470-513 | exactly which nodes an execution starts with, for each kind of options |
| EvaluatorService.TriggerItemsAtInputZero | internal/engine/evaluator.go:97-117 | the trigger finds its items at its input 0; all other inputs are those that were given |
| EvaluatorService.NodeByName | internal/dataplane/connections.go:60-67 | the first node with the name |
| EvaluatorService.StartNodes | internal/dataplane/connections.go:69-90 | the enabled nodes without main inputs, and the triggers, in order |
| EvaluatorService.StartQueue | internal/engine/evaluator.go:470-513 | the start nodes of each kind of options |
| EvaluatorService.AllowedNodes | internal/engine/evaluator.go:454-468 | an unsupported mode and a missing node are refused; otherwise exactly the ancestors are allowed |
| EvaluatorService.AllInputs | internal/engine/evaluator.go:588-601 | whether every expected input has an entry |
| EvaluatorService.FollowEdge | internal/engine/evaluator.go:562-583 | items are appended to one input; the target is found when all its inputs have entries and it is enabled, once |
| EvaluatorService.FollowEdges | internal/engine/evaluator.go:561-584 | one output along its edges: the filled inputs and the nodes found ready |
| EvaluatorService.SendOutputs | internal/engine/evaluator.go:553-586 | all outputs; none from an included destination |
| EvaluatorService.HandleBatch | internal/engine/evaluator.go:131-165 | the results of a batch: recorded, delivered, stopped or suspended |
| EvaluatorService.RunRounds | internal/engine/evaluator.go:118-174 | the whole loop, with the status it ends in |
| EvaluatorService.ExecuteWithOptions | internal/engine/evaluator.go:97-175 | preparation, start and rounds for any options and any behaviour of the nodes |
| RateLimiter.CleanupIsExact | internal/api/router.go:1040-1083 | cleanup is invisible in the answers to every run, and every key and interval is granted at most burst + rate * length, each if and only if the window is at most 600 seconds |
| RateLimiter.CleaningMeans | internal/api/router.go:1040-1083 | in seconds: when a request cleans up and which buckets it deletes; requests without an address share one bucket |
| RateLimiter.WindowBound | internal/api/router.go:1040-1070 | the bound for a limiter that never deletes, from any sound state |
| RateLimiter.CleanupHidden | internal/api/router.go:1071-1083 | answers agree while the two limiters simulate each other |
| RateLimiter.ForgettingGrantsTwice | internal/api/router.go:1071-1083 | a run that gets twice the burst when the window is longer |
| RateLimiter.RetryAfterIsTight | internal/api/router.go:1058-1068 | the advised wait is short by less than a nanosecond and not a second too long |
| RateLimiter.DeniedThenAllowed | internal/api/router.go:1040-1083 | a denied key that waits so long is allowed |
| RateLimiter.NewConfig | internal/api/router.go:1017-1033 | the given limit and window, or one request and one minute where they are not positive; the burst is the limit and the rate their quotient |
| RateLimiter.Limiter.Take | internal/api/router.go:1040-1075 | the bucket, the answer and the cleanup of one request |
| RateLimiter.Limiter.Cleanup | internal/api/router.go:1077-1083 | deletes exactly the buckets idle for more than ten minutes |
| GmailPoll.NeverTwiceNeverLost | internal/api/gmail_poll.go:89-131 | over every run: no id twice, only due messages, and each due message not yet emitted in the next window |
| GmailPoll.LostExactlyIfLate | internal/api/gmail_poll.go:89-131 | a message from after the first poll is emitted by the next poll without failures, or before, if and only if it did not become visible two seconds or more behind the cursor |
| GmailPoll.NothingEarlierIsEmitted | internal/api/gmail_poll.go:89-131 | in seconds: nothing from two seconds or more before the first poll is emitted |
| GmailPoll.PollCatchesUp | internal/api/gmail_poll.go:98-131 | a poll emits each listed message whose fetch succeeds; without failures exactly the due messages are then emitted |
| GmailPoll.RunKeepsInv | internal/api/gmail_poll.go:89-131 | the invariant of cursor, seen set and emitted ids over every run |
| GmailPoll.BaselineIsNotSharp | internal/api/gmail_poll.go:91-98 | a message from before the first poll that is emitted |
| GmailPoll.GmailPollState.FetchMessages | internal/api/gmail_poll.go:89-131 | cursor, seen set and items after one poll |
| GmailPoll.GmailPollState.BoundSeen | internal/api/gmail_poll.go:307-315 | keeps exactly the listed ids that were emitted |
| Vault.RoundTrip | internal/credentials/vault.go:35-74 | decrypting what was encrypted gives the text back, for every text and vector of 16 bytes, and it is recognised as encrypted; other vectors are refused |
| Vault.LegacyHexIsExact | internal/credentials/vault.go:99-129 | a hex value decrypts to a text exactly if its halves are the hex of a vector and of that text's cipher text |
| Vault.Base64IsExact | internal/credentials/vault.go:49-97 | the same for both base64 forms under the hashed key |
| Vault.Base64Errors | internal/credentials/vault.go:76-97 | and what is wrong with any other value of these forms |
| Vault.RecognisesWithColon | internal/credentials/vault.go:49-74 | of the values that decrypt exactly those with a colon are recognised as encrypted |
| Vault.RecognisedExactly | internal/credentials/vault.go:54-74 | exactly the values with the prefix, and the hex of a vector, a colon and the hex of whole blocks, are recognised as encrypted |
| Vault.PlainTextIsNot | internal/credentials/vault.go:54-74 | so texts with a colon whose first part is not the hex of a vector are not |
| Vault.HexDigitIs | internal/credentials/vault.go:99-129 | digits are read in either case |
| Vault.PaddingInverts | internal/credentials/vault.go:144-168 | on whole blocks unpadding succeeds exactly on padded data (section 6.3 of RFC 5652) |
| Vault.ChainIsCbc | internal/credentials/vault.go:43-45 | every block is the cipher of its plain block combined with the block before (section 6.2 of NIST SP 800-38A) |
| Vault.ChainUnchains | internal/credentials/vault.go:43-45 | unchaining inverts chaining |
| Vault.UnchainChains | internal/credentials/vault.go:122-123 | chaining inverts unchaining |
| Vault.HexRoundTrip | internal/credentials/vault.go:46 | decoding inverts encoding (section 8 of RFC 4648) |
| Vault.XorDiffers | internal/credentials/vault.go:45 | a bit of the combination is set exactly if the bits differ |
| Vault.Pkcs7Pad | internal/credentials/vault.go:144-152 | the loop over the padded buffer |
| Vault.Pkcs7Unpad | internal/credentials/vault.go:154-168 | the checks on the last bytes, with their errors |
| Vault.DeriveKey | internal/credentials/vault.go:131-137 | 32 bytes: the key, cut or padded with spaces |
| Vault.NewVault | internal/credentials/vault.go:20-25 | refused exactly if the key is white space only, in UTF-8; the AES key is the first 32 bytes, with spaces for those that lack |
| Vault.SpaceCharactersAre | internal/credentials/vault.go:20-25 | white space is the UTF-8 of exactly Go's white-space code points (section 3 of RFC 3629) |
| Webhook.NeverMisroutes | internal/api/webhook_handler.go:688-727 | for any index: a result is an enabled node that fits, in a workflow that is active or under test; there is one exactly when some workflow fits |
| Webhook.OneFitIndexIrrelevant | internal/api/webhook_registry.go:155-193 | when one workflow fits, the answer is that of the full scan |
| Webhook.IndexIrrelevantExactly | internal/api/webhook_handler.go:688-727 | no index changes the answer if and only if the request is a test or each fitting workflow that an index can lead to is the one that the scan finds |
| Webhook.TwoFitsIndexDecides | internal/api/webhook_registry.go:155-193 | a POST to a path that two active workflows wait on: the index entry decides which one gets it |
| Webhook.AllEntryLeadsTo | internal/api/webhook_registry.go:155-193 | an index entry for all methods leads every method to its workflow, unless there is one for the method |
| Webhook.ScanFinds | internal/api/webhook_handler.go:702-725 | the scan finds the first fitting node of a fitting workflow, exactly when there is one |
| Webhook.MatchIsExact | internal/api/webhook_handler.go:977-1007 | a path matches exactly if the parts agree up to the first wildcard, which takes at least one part, and the lengths agree without one |
| Webhook.TrimmedSlashes | internal/api/webhook_handler.go:1009-1015 | exactly the slashes at both ends of a path do not count |
| Webhook.MatchBinds | internal/api/webhook_handler.go:977-1007 | with distinct names each parameter holds its part and the wildcard the rest |
| Webhook.SubstitutionReproduces | internal/api/webhook_handler.go:977-1015 | putting the values into the pattern gives the actual path back |
| Webhook.MatchWebhookPath | internal/api/webhook_handler.go:977-1007 | the loop over the parts |
| Webhook.WebhookMethod | internal/api/webhook_handler.go:741-755 | any method, one of a list, or the very text, in any letter case |
| Webhook.OneMethodMeans | internal/api/webhook_handler.go:741-755 | a node for POST gets POST only, and one for GET gets GET only |
| Webhook.TwoMethodsMean | internal/api/webhook_handler.go:741-755 | a node for two methods gets these two |
| Webhook.AnyMethodMeans | internal/api/webhook_handler.go:741-755 | a node without a method, or for any, gets every request |
| Webhook.PathMeans | internal/api/webhook_handler.go:729-739 | a node is reached by its path, or the older parameter, or its own id, or its name |
| Webhook.SearchNodes | internal/api/webhook_handler.go:710-719 | the first fitting node of a workflow |
| Webhook.LookupRegistered | internal/api/webhook_registry.go:155-193 | the index entry, checked against the stored workflow |
| Webhook.FindHTTPTriggerWorkflow | internal/api/webhook_handler.go:688-727 | index first, then the scan, with their errors |
| Folders.FolderAndDescendants | internal/api/folder_handler.go:91-116 | exactly the folders whose parent chain reaches the root folder, also with cyclic parents |
| Folders.CascadeIsSafe | internal/api/folder_handler.go:329-349 | exactly the folders below go; every workflow stays, at the project root if its folder went; nothing points to a deleted folder that did not before, and a forest stays one |
| Folders.TransferIsSafeExactly | internal/api/folder_handler.go:312-349 | every workflow stays; the folders stay a forest if and only if the destination is the root or an existing folder outside, or no folder moves; workflows stay in existing folders if and only if it is the root or another existing folder, or none moves |
| Folders.FolderStore.HandleDelete | internal/api/folder_handler.go:297-354 | the new folders and workflows, or no change for an unknown folder |
| Folders.DeletionAsked | internal/api/folder_handler.go:297-354 | without a destination the folders below go; with "0" the direct contents go to the project root, with another id to that folder |
| Folders.FolderStore.MoveWorkflows | internal/api/folder_handler.go:317-323 | all workflows of one folder, and no others |
| Folders.FolderStore.MoveChildren | internal/api/folder_handler.go:324-328 | all direct subfolders, and no others |
| Text.SplitJoin | internal/api/webhook_handler.go:1009-1015 | splitting and joining at a separator are inverse |
| Text.AtoiOfItoa | internal/flatted/flatted.go:311-316 | a written index within 64 bits is read back by strconv.Atoi |
| Text.AtoiOfSigned | internal/cron/parser.go:139-186 | signs are read, and numbers up to the bounds of 64 bits |
| Text.TrimmedSpaces | internal/cron/parser.go:132-137 | trimming takes exactly the white space at both ends |

## Left out

Leader lease
- The lease is a transition system on values; `LeaderClient` adds the object, whose fields are those the
  timing needs. Mutexes, the done channel and closing the client are not modelled.
- Timers are exact, instance ids are distinct, and SET with an expiry lasts exactly the ttl on the server.
- Start racing Stop. A start waits until the instance's own DEL is no longer on its way, which the code does
  not enforce. That a leader is ever elected is not claimed.

Cron
- Time zones, `@every`, the named macros and month and weekday names.
- The `Scheduler` that fires jobs.

Concurrency
- `UpdateConfig`, which replaces the semaphores while slots are held; counters of the metrics beyond those
  in the invariant; the unlocked use of `Semaphore` and `PriorityQueue` on their own.
- Semaphores are values inside the service object, since no other object holds them.
- ActiveExecutions.ActiveExecutions.CompleteAdd: models the section after the slot was granted; contexts, cancel functions and Stop are not modelled.

Flatted
- The text of JSON: tables hold JSON values, so escaping, numbers as text and duplicate keys are outside.
- Go structs, pointers and cyclic Go values as input of Stringify; only then is the root not cell 0, so the
  rewriting of reference indexes (`internal/flatted/flatted.go:72-75`, 349-378) is not reached.
- Which empty arrays share an identity in Go is a parameter.

Evaluator
- Node executors, retries, credentials, pinned data and the goroutines of a batch: what a node returns is an
  arbitrary function of the round and its place in the batch. Timestamps, hooks, logs and binary data.
- The input map of a node is passed by value; executors that change the items they receive are outside.
- When the context ends, the original returns only an error; the model keeps the state it had reached.
- A negative edge index panics in the original; indexes here are natural numbers.
- Children, InputEdges and InputTypes, which only feed the executors.

Rate limiter
- Real numbers instead of floating point, and one clock for all requests that does not run backwards: two
  requests that read the clock in one order and take the lock in the other are outside.

Mail trigger
- Tokens, queries and the paging of lists; a list of more than 20 pages is cut off in the original.
- What happens to emitted items after the poll.

Vault
- AES, SHA-256 and base64 are parameters; the cipher is any permutation of blocks for each key. Random
  vectors are any vectors.

Webhooks
- Rebuilding the index and the pages of the store: the index is arbitrary, and rows are a sequence. Letter
  case of characters outside ASCII. Preflight requests, authentication, and running the workflow.

Folders
- Errors of the store, which the original ignores for all but the last deletion; folders of other projects;
  stores without workflow folders.

Not modelled at all
- HTTP handlers and middleware, OAuth, S3, SQL, migrations, expressions, the frontend, and the catalogue of
  node descriptions: input and output, or static data.
