# NexaFlow verification

NexaFlow is a multi-tenant low-code backend. This project models the parts of it in
which several processes, or several pieces of code, have to agree with each other, and
proves that they do:

* **The durable job queue.** Seven Lua scripts move job ids between ten priority lists,
  a delayed set, a leased processing set and a dead-letter queue, called by any number of
  workers, stale workers, heartbeats, maintenance loops and replays. `JobStore` has the
  scripts as functions, `RedisScripts` and `JobQueue` as imperative code proved against
  them, `QueueProtocol` every interleaving of them, `QueueOrder` that each list is served first
  in, first out, `QueueFencing` what holds while reclaimed
  workers stop, `QueueLeases` when leases see to that, `QueueLateness` what happens when they
  do not, `QueueTiming` that nothing runs early, `QueueDelays` that delays and backoffs are waited, `QueueClock` both on a shared clock,
  `QueueSchedules` the idempotency keys, `RetryBackoff` the delay.
* **Workflows.** `WorkflowGraph` says what an accepted definition is, `WorkflowValidator`
  is the depth-first validator, `WorkflowTraversal` the interpreter, `WorkflowBranching` which
  accepted definitions it can fail on, `WorkflowInstances` the rows and the concurrent actors.
* **Smaller protocols.** The two SKIP LOCKED outboxes (`Outbox`, `OutboxProtocol`), the
  quota counter with its reserve and refund (`Quota`, `QuotaProtocol`), the migration
  ledger (`MigrationRunner`), the pruned rate limiter (`RateLimit`).
* **Translations.** LIKE escaping (`LikeEscape`), entity schema, record validation and
  JSON Schema (`EntitySchema`, `RecordValues`, `FormSchema`, `FormCompleteness`), the overlapping chunker
  (`KnowledgeChunks`), and the white space both depend on (`Text`).

Code that changes state step by step is a class or a method with loops; its contract ties
the new state to a specification function, and the theorems are about that function. Runs
are sequences of events; a theorem about runs holds for every sequence in which each event
was possible when it happened.

Where a promise does not hold of the code, the exact condition is proved, and next to it a run
or input that breaks the promise, for every setting it can break under:

| promise | holds exactly when | broken by |
|---|---|---|
| a live, punctual worker keeps its lease | the lease is two seconds or more (`MarginHoldsFromTwoSeconds`) and no renewal older than its lease arrives (`StrayRenewalIsHarmlessExactly`) | `ShortLeasesAreReclaimed`, `StrayRenewalTakesALiveJob` |
| each job is in one place after a worker reports | its lease entry is still there, or the report changes nothing (`LateFailureIsHarmlessExactly`, `LateSuccessIsHarmlessExactly`) | `LateFailureDuplicates` |
| retries wait the capped doubling | the product fits 64 bits or wraps to the cap or more (`DelayIsCappedDoublingExactly`) | `ShippedDelayWraps` |
| job kinds have keys of their own | neither kind followed by a colon begins the other (`KindsCollideExactly`) | `ColonKindsCollide` |
| one job per schedule and window | keys live at least the interval less one millisecond (`OneJobPerWindowExactly`) | `ShortLivedKeysRepeat` |
| a traversal of an accepted definition succeeds | no path from the start or an approval meets a fork that is no condition before an end (`AlwaysMovesExactly`) | `ForkedStartFails` |
| a written delivery counts | the row is being processed or counts as delivered already (`DeliveryCountsExactly`) | `StaleClaimLosesADelivery` |
| a row is tried at most the maximum | up to one more per stale claim (`AttemptsAreBounded`) | `AttemptBoundIsReached` |
| a month stores at most the limit | up to what it gave back for other months (`OverrunIsForeign`) | `CrossingMonthsOverruns` |
| pruning changes no rate-limit decision | times are in order, or the straggler's window was not removed, is over, or is not full (`StragglersDifferExactly`) | `StragglersExist` |
| a record satisfies its forms | the form lists what it has and asks for no more (`WholeObjectExactly`) | `FormsCanAskForMore` |
| documents are accepted by length | no exotic white space (`PlainTextIsMeasured`) | `BlankMiddlesAreNotMeasured` |

Where the documentation says something else than the code, the model follows the code:

* `docs/migrations.md:25-27` says that checksums are filled in for versions 1 to 6; the code
  fills in any missing one (`backend/internal/migration/runner.go:123-127`). And lines 12-14
  say that startup fails when a checksum differs; a row whose checksum is the empty string
  passes and stays empty.
* `docs/api.md:211-212` says that notifications are dead-lettered after the configured limit.
  That is exact for rows whose claim never went stale; others can be tried more often, and a
  limit below one never ends them.
* `docs/observability.md:51-52` calls the job backoff bounded. It is capped, but the product
  is 64 bits wide and is negative when it wraps (`backend/internal/jobs/queue.go:330-333`).
* `docs/runbooks/durable-jobs.md:20` speaks of at most 100 replayed jobs; 100 is only what a
  limit below one stands for (`backend/internal/jobs/queue.go:165-167`).

## Model

| member | source | states |
|---|---|---|
| JobStore.DueBatchMeaning | backend/internal/jobs/queue.go:458-468 | A promotion or reclaim batch is exactly the due members that come first: distinct, due, in due-time order with ties by id, at most the limit, and nothing left behind while there was room precedes anything taken |
| JobStore.MoveAllFrame | backend/internal/jobs/queue.go:458-470 | A batch touches the ready lists and its source set only, and takes exactly its ids off the source |
| JobStore.MoveAllReady | backend/internal/jobs/queue.go:458-468 | A batch appends to each ready list its registered ids of that priority, in batch order, and drops unregistered ids |
| RedisScripts.ReadyKeys | backend/internal/jobs/queue.go:403-409 | The scripts get the ready lists highest priority first |
| RedisScripts.Redis.Enqueue | backend/internal/jobs/queue.go:431-445 | The enqueue script in place: a live key answers with its id and changes nothing; otherwise the job is stored, and a due one goes to the back of the list of its priority, a later one into the delayed set at its own time |
| RedisScripts.Redis.Claim | backend/internal/jobs/queue.go:447-456 | The claim script in place: the first id of the highest non-empty list gets a lease entry, or nothing changes |
| RedisScripts.Redis.MoveDue | backend/internal/jobs/queue.go:458-470 | The loop shared by promotion and reclaiming, with its list picked at position 10 minus priority, is the batch function |
| RedisScripts.Redis.Ack | backend/internal/jobs/queue.go:472-477 | The acknowledge script in place |
| RedisScripts.Redis.Retry | backend/internal/jobs/queue.go:479-484 | The retry script in place |
| RedisScripts.Redis.Dead | backend/internal/jobs/queue.go:486-491 | The dead-letter script in place |
| RedisScripts.Redis.Replay | backend/internal/jobs/queue.go:493-498 | The replay script in place; it answers 1 exactly when the id was dead |
| RedisScripts.Redis.Heartbeat | backend/internal/jobs/queue.go:343-362 | A renewal moves the lease of an entry that exists and never creates one |
| JobQueue.Queue.Register | backend/internal/jobs/queue.go:94-105 | A kind gets one handler; an empty or taken kind or a nil handler is an error and changes nothing |
| JobQueue.Queue.AddSchedule | backend/internal/jobs/queue.go:107-113 | Only named schedules with a positive interval and a kind are kept |
| JobQueue.Queue.Enqueue | backend/internal/jobs/queue.go:115-162 | Bad requests change nothing; otherwise the new state is the script's, spelt out for a created job: five attempts unless more than none are asked for, due after its delay, its Redis key alive for the configured time; a duplicate is answered with the stored job, or its bare id once it is gone |
| JobQueue.Queue.Claim | backend/internal/jobs/queue.go:267-283 | Claim and load: the stored job is handed out under a lease, and the lease of an id without a job is dropped |
| JobQueue.Queue.Handle | backend/internal/jobs/queue.go:285-341 | A claimed job is acknowledged and gone; or delayed until exactly its backoff after the failure, with one more attempt; or dead at the time of the failure once its attempts reach the maximum; an unknown kind fails, and no other job changes |
| JobQueue.Queue.Maintain | backend/internal/jobs/queue.go:244-265 | One pass promotes, then reclaims, then enqueues each schedule once for the window the pass began in, each enqueue reading its own times |
| JobQueue.OccurrenceHasItsWindow | backend/internal/jobs/queue.go:254-257 | What a pass sends for a schedule is its request under the key of the schedule and the window the pass began in |
| JobQueue.PassesShareKeysExactly | backend/internal/jobs/queue.go:254-257 | Two passes use one key for a schedule if and only if they began in the same window |
| JobQueue.PassMakesScheduledCalls | backend/internal/jobs/queue.go:254-260 | So the event a pass produces is a scheduled call in the sense of the window theorems, with the effect of that request |
| JobQueue.PassCreatesExactly | backend/internal/jobs/queue.go:254-260 | A pass creates the job of a schedule if and only if the key of its window is not alive, so always in a window whose key was never used; and it is that schedule's job |
| JobQueue.Queue.ReplayDLQ | backend/internal/jobs/queue.go:164-191 | Replays the jobs that died first, up to the limit or 100, each at its own time, and stops exactly at the first dead id without a stored job |
| JobQueue.Queue.Depth | backend/internal/jobs/queue.go:376-392 | The two reported depths; with every job in one place they and the running jobs add up to the stored jobs |
| JobQueue.ReplayAllFrame | backend/internal/jobs/queue.go:164-191 | Replayed jobs leave the dead-letter queue with attempt zero; every other job and set is as it was |
| JobQueue.ReplayAllReady | backend/internal/jobs/queue.go:164-191 | Replayed jobs join the list of their stored priority in the order they died |
| QueueProtocol.StepKeepsInv | backend/internal/jobs/queue.go:267-341 | Every single event, by live, stale or crashed processes, keeps the invariant: nothing registered is lost, priorities agree everywhere, snapshots tell the truth |
| QueueProtocol.RunKeepsInv | backend/internal/jobs/queue.go:431-498 | The invariant holds after every interleaving |
| QueueProtocol.RegisteredExactly | backend/internal/jobs/queue.go:431-477 | The registered ids are exactly those a run created and nobody acknowledged |
| QueueProtocol.NoJobIsLost | backend/internal/jobs/queue.go:431-498 | A created, never acknowledged job is stored under its id and sits in a ready list, the delayed set, the processing set or the dead-letter queue, whatever the interleaving |
| QueueProtocol.ReadyListsKeepPriorities | backend/internal/jobs/queue.go:402-418 | A registered id in a ready list has that list's priority, registered and stored, through enqueue, promotion, reclaim and replay |
| QueueProtocol.ClaimServesHighestPriority | backend/internal/jobs/queue.go:447-456 | No registered job of a higher priority is waiting when a registered job is handed out |
| QueueOrder.ListsAreQueues | backend/internal/jobs/queue.go:431-498 | Over every run, what was handed out from a ready list followed by what waits in it is what was put into it by enqueues, promotions, reclaims and replays, in that order |
| QueueOrder.ServedInOrder | backend/internal/jobs/queue.go:442-449 | So no id is overtaken by a later one of its list: what was handed out and waits at a moment begins what is handed out and waits ever after |
| QueueFencing.OnePlaceOnly | backend/internal/jobs/queue.go:431-498 | When the multiset of all places equals the stored ids, being in one place excludes the others |
| QueueFencing.CountsAddUp | backend/internal/jobs/queue.go:376-392 | Then the stored jobs number the ready total plus the delayed, running and dead ones |
| QueueFencing.FencedStepKeepsInv | backend/internal/jobs/queue.go:267-341 | If a reclaimed worker takes no further step, every event keeps: each job in exactly one place, one owner per lease, counted attempts |
| QueueFencing.EveryJobInExactlyOnePlace | backend/internal/jobs/queue.go:376-392 | Conservation over every fenced run: the places together hold each stored job once and nothing else, and the depths add up |
| QueueFencing.DeadAfterExactlyMaxFailures | backend/internal/jobs/queue.go:315-340 | A stored job's attempt is the number of failures since it was created or replayed, never above its maximum, and it is dead exactly when the two are equal |
| QueueTiming.NoJobRunsEarly | backend/internal/jobs/queue.go:431-468 | In a fenced run no job is ready or running before its own time, and a delayed job is scored by exactly that time |
| QueueDelays.RetriesWaitTheirBackoff | backend/internal/jobs/queue.go:315-340 | In a fenced run a failed job with attempts left is neither ready nor running until a promotion names a time its delay or more after the failure |
| QueueDelays.WaitsUntilPromoted | backend/internal/jobs/queue.go:431-468 | So is every delayed job, whatever else happens, until a promotion names its own time |
| QueueDelays.PromotionReadies | backend/internal/jobs/queue.go:458-463 | And a promotion at that time with room for all that is due puts it into the list of its priority |
| QueueDelays.WaitsOnTheClock | backend/internal/jobs/queue.go:244-252 | While no process is ahead of the shared clock, it waits at least until the clock reaches its time |
| QueueLeases.MarginHoldsFromTwoSeconds | backend/internal/jobs/queue.go:343-347 | Renewing late by less than half a lease keeps the lease alive for exactly the leases of two seconds and more |
| QueueLeases.ReclaimSparesTheLive | backend/internal/jobs/queue.go:343-362 | A reclaim on the shared clock never takes the entry of a live, punctual worker |
| QueueLeases.StrayRenewalIsHarmlessExactly | backend/internal/jobs/queue.go:291-362 | A renewal still in flight from a finished attempt leaves the new owner safe for as long as it is on time if and only if it is not older than the owner's lease |
| QueueLeases.TimedStepIsFenced | backend/internal/jobs/queue.go:291-362 | After any possible timed step of such workers, stray renewals included, a plain step is a fenced step: the fencing discipline is met, not assumed |
| QueueLeases.TimedRunKeepsInv | backend/internal/jobs/queue.go:267-362 | The fenced invariant and the lease bookkeeping hold after every timed run in which no stray renewal is older than the lease of the worker that owns the entry |
| QueueLeases.PunctualWorkersKeepTheirJobs | backend/internal/jobs/queue.go:343-362 | After every such run each job is in one place, has one owner, and is not in the next reclaim batch while its owner lives |
| QueueLateness.LateFailureDuplicates | backend/internal/jobs/queue.go:315-340 | Without fencing it fails: a reclaimed worker that fails late leaves its job ready and delayed at once |
| QueueLateness.LateFailureIsHarmlessExactly | backend/internal/jobs/queue.go:315-340 | A reported failure keeps every job in one place if and only if its lease entry is still there or the job already is where the failure puts it |
| QueueLateness.LateSuccessIsHarmlessExactly | backend/internal/jobs/queue.go:472-477 | An acknowledgement does if and only if the lease entry is still there or the job is gone |
| QueueLateness.ShortLeasesAreReclaimed | backend/internal/jobs/queue.go:343-347 | Under every lease below two seconds some run has a live worker on time whose entry is in the next reclaim batch |
| QueueLateness.StrayRenewalTakesALiveJob | backend/internal/jobs/queue.go:291-362 | Under every lease of two seconds and more some run ends with a finished attempt's renewal taking a live, punctual worker's entry |
| QueueClock.TimedRunsAreFenced | backend/internal/jobs/queue.go:267-362 | Every orderly timed run, clock events dropped, is a fenced run with the same state |
| QueueClock.DeadAfterMaxFailuresOnTheClock | backend/internal/jobs/queue.go:315-340 | So after it a job's attempt is the failures since it was created or replayed, and it is dead exactly at its maximum |
| QueueClock.DepthsAddUpOnTheClock | backend/internal/jobs/queue.go:376-392 | And each stored job is in one place and the depths add up |
| QueueClock.NoJobRunsEarlyOnTheClock | backend/internal/jobs/queue.go:431-468 | While no process is ahead of the shared clock, no job is ready or running before its own time on that clock |
| QueueSchedules.KeyRemembers | backend/internal/jobs/queue.go:431-436 | While a key lives it names the job created under it, also after that job was acknowledged or died |
| QueueSchedules.DuplicateAnswersFirst | backend/internal/jobs/queue.go:431-436 | A duplicate within the lifetime creates nothing and is answered with the first id |
| QueueSchedules.WindowsHaveTheirOwnKeys | backend/internal/jobs/queue.go:254-257 | Two windows of a schedule share a key exactly when they are the same window |
| QueueSchedules.KindsCollideExactly | backend/internal/jobs/queue.go:394-400 | Two different kinds can share a Redis key if and only if one of them followed by a colon begins the other |
| QueueSchedules.KindsHaveTheirOwnKeys | backend/internal/jobs/queue.go:140-142 | So kinds without a colon share a Redis key only when kind and key are equal |
| QueueSchedules.ColonKindsCollide | backend/internal/jobs/queue.go:394-400 | With colons two kinds can share one |
| QueueSchedules.OneJobPerWindow | backend/internal/jobs/queue.go:254-260 | Any number of replicas create at most one job per schedule and window when keys outlive the interval plus a call's delay; later calls get the first id |
| QueueSchedules.ShortLivedKeysRepeat | backend/internal/jobs/queue.go:431-436 | With a lifetime two milliseconds short of any interval, or shorter, there is a run that creates two jobs in one window |
| QueueSchedules.OneJobPerWindowExactly | backend/internal/jobs/queue.go:254-260 | For whole-millisecond intervals and prompt calls no run creates two jobs in one window if and only if keys live at least the interval less one millisecond |
| RetryBackoff.DelayIsCappedDoublingExactly | backend/internal/jobs/queue.go:330-333 | The delay is min(RetryMax, RetryBase doubled per attempt) exactly when the product fits 64 bits or what it wrapped to reaches the cap |
| RetryBackoff.DelayNeverShrinks | backend/internal/jobs/queue.go:330-333 | While the product fits, a later attempt never waits less |
| RetryBackoff.ShippedDelayWraps | backend/internal/jobs/queue.go:330-333 | With five seconds and fifteen minutes the thirty-first attempt waits the cap and the thirty-second a negative delay |
| WorkflowGraph.EveryNodeReachesAnEnd | backend/internal/service/workflow_service.go:173-263 | In an accepted definition every node can reach an end node |
| WorkflowGraph.PathsAreShort | backend/internal/service/workflow_service.go:173-263 | A path through an accepted definition meets no node twice and has at most as many nodes as the definition |
| WorkflowGraph.TopologicalIsAcyclic | backend/internal/service/workflow_service.go:234-258 | A definition with a topological order has no cycle |
| WorkflowGraph.PathsFollowTheOrder | backend/internal/service/workflow_service.go:234-258 | Every path climbs every topological order |
| WorkflowValidator.CheckNodes | backend/internal/service/workflow_service.go:177-208 | The node loop passes exactly when ids are distinct and present, every node's type and configuration are acceptable, and there is one start and an end |
| WorkflowValidator.CollectEdges | backend/internal/service/workflow_service.go:209-215 | The edge loop passes exactly when every edge joins two different known nodes, and indexes the edges by origin in order |
| WorkflowValidator.CheckBranches | backend/internal/service/workflow_service.go:216-227 | Passes exactly when every condition has two edges, one for each answer |
| WorkflowValidator.Walker.Walk | backend/internal/service/workflow_service.go:234-255 | The recursive walk terminates on every graph; a reported cycle or dead end is real, and otherwise everything it finished is reached from the node and has its ways finished before it |
| WorkflowValidator.Validate | backend/internal/service/workflow_service.go:173-263 | Accepts if and only if the node and edge rules hold, no node but an end lacks a way out, the graph is acyclic and every node is reachable from the start; an accepted definition has a topological order |
| WorkflowTraversal.ChooseEdge | backend/internal/service/workflow_service.go:299-326 | The only edge of an ordinary node, the first edge with the answer of a condition, else none |
| WorkflowTraversal.ChoiceIsAnEdge | backend/internal/service/workflow_service.go:299-326 | What is chosen is an edge of the definition leaving that node |
| WorkflowTraversal.FindNode | backend/internal/service/workflow_service.go:343-350 | Finds the first node with the id, or says exactly that there is none |
| WorkflowTraversal.Traverse | backend/internal/service/workflow_service.go:265-297 | The bounded loop computes the outcome of the recursive walk, messages included, on any definition |
| WorkflowTraversal.TraversalIsSound | backend/internal/service/workflow_service.go:265-326 | On an accepted definition, from the start or an approval, the walk never misses a node or hits the step limit, takes only chosen edges, passes no other approval, and stops at an approval, an end, or an ordinary node with several ways out |
| WorkflowTraversal.SucceedsUnlessItBranches | backend/internal/service/workflow_service.go:299-311 | It fails exactly when it is left standing at an ordinary node with two or more edges, and it never passes one |
| WorkflowBranching.AlwaysMovesExactly | backend/internal/service/workflow_service.go:265-326 | On an accepted definition every traversal, from the start and every approval and under all answers, succeeds if and only if no path from one of those meets a node with several ways out that is no condition before it meets an end |
| WorkflowBranching.NodesAloneDecide | backend/internal/service/workflow_service.go:265-326 | Where no end has a way out, every traversal succeeds if and only if only conditions have several ways out |
| WorkflowBranching.DirectPathFails | backend/internal/service/workflow_service.go:299-311 | Along a path whose last node is its only such node and on which no approval follows the first, there are answers under which the traversal fails at that node |
| WorkflowBranching.FailuresHaveCauses | backend/internal/service/workflow_service.go:265-297 | On any definition, accepted or not: the step limit is only reached in a cycle, and a node is only not found when the first one, or one an edge leads to, is no node |
| WorkflowBranching.ForkedStartFails | backend/internal/service/workflow_service.go:173-263 | An accepted definition that cannot be started |
| WorkflowBranching.ForkBehindAnEndIsHarmless | backend/internal/service/workflow_service.go:173-263 | An accepted definition with such a node that no traversal ever fails on, as it is behind an end |
| WorkflowInstances.Tables.CreateNotifications | backend/internal/repository/workflow_repository.go:222-233 | The loop appends the messages in order, addressed to the nil user when they have none, for this instance only |
| WorkflowInstances.Tables.Start | backend/internal/repository/workflow_repository.go:137-150 | A new instance row at version 1 with its messages; no other instance changes |
| WorkflowInstances.Tables.Advance | backend/internal/repository/workflow_repository.go:197-220 | The compare-and-swap on status and version: row, action and messages all change or none does; no other instance changes |
| WorkflowInstances.DecideAction | backend/internal/service/workflow_service.go:138-171 | An action is denied for the role exactly when the instance is actionable and the actor neither has the approval's role nor is an administrator; what goes on was decided by someone entitled, on the version and node the row has |
| WorkflowInstances.CommitsAreComputedFromTheTruth | backend/internal/service/workflow_service.go:127-171 | Every committed transition was computed from the node and version the instance is on at that moment, although read earlier, and decided by the actor on its action row, who had the approval's role or was an administrator |
| WorkflowInstances.OneSuccessPerVersion | backend/internal/repository/workflow_repository.go:201-208 | Of all actions that expect a version at most one succeeds |
| WorkflowInstances.EndedIsForEver | backend/internal/repository/workflow_repository.go:201-208 | A completed or rejected instance never changes again |
| WorkflowInstances.RunKeepsInv | backend/internal/service/workflow_service.go:103-171 | In every reachable state version is one more than the action rows, and rows, trail and drafts fit together |
| WorkflowInstances.WholeRun | backend/internal/service/workflow_service.go:103-171 | Whatever the record says at each step: the instance moves along one path from the start, strictly up every topological order; its actions are the approvals it left, never more than the definition has; its messages are those of the notification nodes on the path, once each, in order |
| WorkflowInstances.MessagesCarryTheirNodes | backend/internal/service/workflow_service.go:359-365 | A trail gives one message per notification node on it, in order, with that node's channel, recipient, subject and body |
| WorkflowInstances.EveryMessageIsDeliverable | backend/internal/repository/workflow_repository.go:222-233 | After every run the outbox has one message per notification node passed, with that node's configuration, for the submitter or the nil user; each has a known channel, and a recipient where the channel needs one |
| LikeEscape.SequentialIsSimultaneous | backend/internal/repository/dynamic_record_repository.go:80-84 | The three replacements in sequence are one simultaneous character map |
| LikeEscape.UnescapeInverts | backend/internal/repository/dynamic_record_repository.go:80-84 | The map has an inverse |
| LikeEscape.EscapingIsInjective | backend/internal/repository/dynamic_record_repository.go:80-84 | Two texts have the same escape exactly when they are equal |
| LikeEscape.SearchFindsLiteralText | backend/internal/repository/dynamic_record_repository.go:56-68 | A text matches the percent-wrapped escape under LIKE with escape character ! exactly when it contains the search literally, up to case folding |
| LikeEscape.SelectsWhatContainsTheSearch | backend/internal/repository/dynamic_record_repository.go:56-68 | So the listing selects exactly what contains the trimmed search, everything when it is blank |
| LikeEscape.UnescapedSearchLies | backend/internal/repository/dynamic_record_repository.go:80-84 | Without the escape an underscore would find what does not contain it |
| MigrationRunner.ValidateRegistry | backend/internal/migration/runner.go:192-203 | Accepts exactly the non-empty registries numbered from 1 with well-formed names and checksums, each with a function to apply |
| MigrationRunner.NamesAreJoinedWords | backend/internal/migration/runner.go:25-25 | A migration name is accepted if and only if it is words of small letters and digits joined by single underscores |
| MigrationRunner.Database.Verify | backend/internal/migration/runner.go:107-135 | The ledger loop succeeds only on a prefix of the registry, fills in missing checksums and changes nothing else; each error names a version at which the ledger has a gap, is ahead, or differs |
| MigrationRunner.Database.Apply | backend/internal/migration/runner.go:137-161 | Applies the missing migrations in order, each with its ledger row, up to where the connection ends |
| MigrationRunner.Database.RunLocked | backend/internal/migration/runner.go:96-162 | One run under the lock: a superuser or a role that bypasses row security is refused before anything is read or changed; a ledger that is no prefix applies nothing and fails; success means the whole registry, each row with its version, name and checksum |
| MigrationRunner.Database.Run | backend/internal/migration/runner.go:63-94 | A bad registry, a refused lock or an unsafe role changes nothing; a lock that cannot be released turns a complete run into an error |
| MigrationRunner.OlderRegistryMatches | backend/internal/migration/runner.go:107-135 | For a binary with an older registry the ledger matches exactly when it matches the newer one and is not ahead |
| MigrationRunner.HistoryStaysInStep | backend/internal/migration/runner.go:63-162 | Over any history of runs, crashes and binaries with registries that are prefixes of one another, ledger and schema stay the same prefix and never go back |
| MigrationRunner.UnsafeRunsChangeNothing | backend/internal/migration/runner.go:221-230 | In any history a database that only runs under unsafe roles see is not changed by them, and none of them succeeds |
| MigrationRunner.SecondRunAppliesNothing | backend/internal/migration/runner.go:63-162 | After a successful run the schema is the whole registry, each migration once, and a later run of that binary applies nothing |
| RateLimit.RateLimiter.Allow | backend/internal/middleware/rate_limit.go:60-96 | The critical section: the new map is the counted and, above 10,000 keys, pruned one, and the answer compares the count with the limit |
| RateLimit.RateLimiter.Prune | backend/internal/middleware/rate_limit.go:79-85 | The deleting loop leaves exactly the windows still open |
| RateLimit.PruningIsInvisible | backend/internal/middleware/rate_limit.go:69-86 | For nondecreasing critical-section times every request is decided as without pruning |
| RateLimit.StragglersDifferExactly | backend/internal/middleware/rate_limit.go:69-86 | A request that reads an earlier time than an ordered trace is let through against the unpruned count if and only if its window is open for it and full and some request removed it after it had ended by that request's time; never the other way round |
| RateLimit.ForgottenExactly | backend/internal/middleware/rate_limit.go:77-85 | After an ordered trace a window is missing from the pruned map exactly when a request that outgrew the capacity came after its end |
| RateLimit.StragglerIsLetThrough | backend/internal/middleware/rate_limit.go:69-86 | For every limit, window, key and 10,000 other keys: the budget spent, the others at the end of the window, and one more request from just before it is let through |
| RateLimit.StragglersExist | backend/internal/middleware/rate_limit.go:69-86 | There are that many keys, so for every limit and window pruning changes a decision |
| RateLimit.LessThanTwiceTheLimit | backend/internal/middleware/rate_limit.go:60-96 | For nondecreasing times any half-open interval of one window length lets through, pruning included, less than twice the limit per key |
| RateLimit.LessThanTwiceIsReached | backend/internal/middleware/rate_limit.go:60-96 | For every limit some ordered trace lets through exactly twice the limit less one in such an interval |
| Outbox.Table.Select | backend/internal/repository/notification_repository.go:38-43 | The locking query: the oldest eligible rows nobody has locked, distinct, at most the limit |
| Outbox.Table.ClaimPending | backend/internal/repository/notification_repository.go:28-65 | The transaction takes each selected row once, counting the attempt, none that another holds, and changes no other row; with room left in the batch it takes every row that is due |
| Outbox.Table.Mark | backend/internal/repository/notification_repository.go:67-110 | The three guarded updates: they write only while the row is being processed and say whether they did |
| Outbox.Table.ReadNotification | backend/internal/repository/workflow_repository.go:184-196 | Opening one's own in-app notification overwrites any status; one of another tenant or user is not found |
| Outbox.Table.ProcessBatch | backend/internal/service/notification_worker.go:42-73 | A batch with nobody interfering: each selected row is attempted once and ends delivered, or dead after its last permitted attempt, or put off by that attempt's delay |
| Outbox.DelayDoublesToItsCap | backend/internal/service/notification_worker.go:146-153 | The delay is a minute after the first attempt and doubles up to 64 minutes for notifications and 32 for ingestion |
| Outbox.AbandonedRowsComeBack | backend/internal/repository/notification_repository.go:38-38 | A row whose worker died comes up again if and only if five minutes have passed since its claim, ten for ingestion |
| Outbox.RefusedRowsComeBack | backend/internal/repository/notification_repository.go:38-38 | A refused row comes up again if and only if it has attempts left and its delay is over; a delivered or read one never does |
| OutboxProtocol.BatchIsSingleClaims | backend/internal/repository/knowledge_ingestion_repository.go:57-87 | A batch has the effect of its claims one after another, none of which disables the next |
| OutboxProtocol.EachAttemptIsHandedOutOnce | backend/internal/repository/notification_repository.go:44-60 | In every interleaving the attempt counter is the number of claims and no attempt of a row is handed out twice |
| OutboxProtocol.TerminalIsForEver | backend/internal/repository/notification_repository.go:38-38 | A delivered, completed, dead or read row is never claimed again; it can only become read |
| OutboxProtocol.UploadsOutliveTheirJobs | backend/internal/service/knowledge_ingestion_service.go:104-132 | An ingestion job that has not ended still has its stored upload |
| OutboxProtocol.EndedUploadsAreDoomed | backend/internal/service/knowledge_ingestion_service.go:104-132 | The upload of every ended ingestion job is down for deletion |
| OutboxProtocol.AttemptsAreBounded | backend/internal/service/notification_worker.go:54-67 | In every interleaving a row is claimed at most the maximum plus the times it was taken from a worker that had it |
| OutboxProtocol.DeadAtExactlyTheMaximum | backend/internal/service/knowledge_ingestion_service.go:119-131 | A row that never went stale and was neither delivered nor read is dead exactly when its last permitted attempt has been marked |
| OutboxProtocol.NoMaximumNoDeath | backend/internal/service/notification_worker.go:54-67 | Without a positive maximum no notification is ever dead |
| OutboxProtocol.RetriesWaitTheirDelay | backend/internal/service/notification_worker.go:146-153 | Attempts of a row that never went stale are apart by at least the earlier one's delay |
| OutboxProtocol.AttemptBoundIsReached | backend/internal/service/notification_worker.go:54-67 | For every maximum and every number of stale claims some run claims a row exactly as often as that bound |
| OutboxProtocol.DeliveryCountsExactly | backend/internal/repository/notification_repository.go:67-110 | A delivery that is marked leaves the row delivered or read for ever if and only if the row was being processed just then, or delivered or read already |
| OutboxProtocol.DeliveredStaysDelivered | backend/internal/repository/notification_repository.go:67-110 | Without stale claims every marked delivery does |
| OutboxProtocol.StaleClaimLosesADelivery | backend/internal/repository/notification_repository.go:67-110 | Under every maximum one stale claim can leave a delivered message dead |
| Quota.Usage.RecordUsage | backend/internal/repository/billing_repository.go:66-90 | The locked counter: only growth beyond the limit is refused, a decrease stops at zero, one row changes |
| Quota.Usage.Consume | backend/internal/service/billing_service.go:81-104 | An unknown metric touches nothing; otherwise the counter decides against that metric's limit |
| Quota.RecordService.Create | backend/internal/service/dynamic_record_service.go:54-73 | A creation counts one exactly when a row appears; a failed insert gives one back to the month it is by then, so the counters are as they were when the month is the same |
| Quota.RecordService.Delete | backend/internal/service/dynamic_record_service.go:118-130 | A deletion refunds one exactly when it archived the row |
| QuotaProtocol.BooksBalance | backend/internal/repository/billing_repository.go:66-90 | In every run, for every month: counter plus foreign refunds is what is stored, in flight, owed and leaked plus what the clamp absorbed, and the counter stays within the limit |
| QuotaProtocol.ClampNeverFires | backend/internal/repository/billing_repository.go:82-85 | A month that gets back only what was counted in it is never clamped |
| QuotaProtocol.QuotaIsSafe | backend/internal/service/dynamic_record_service.go:54-73 | For such a month the counter is exactly the stored, in-flight, owed and leaked units, so racing creations never store more than the limit |
| QuotaProtocol.OverrunIsForeign | backend/internal/service/dynamic_record_service.go:118-130 | In every run a month stores at most the limit plus what it gave back for other months |
| QuotaProtocol.CrossingMonthsOverruns | backend/internal/service/dynamic_record_service.go:118-130 | For every limit of one and more and every n some run gives back n records of earlier months and stores the limit plus n in one month |
| EntitySchema.ValidateFieldOptions | backend/internal/service/dynamic_model_service.go:107-127 | Accepts exactly 1 to 100 options for the two choice types and none otherwise, each non-blank, short enough and distinct after trimming |
| EntitySchema.ValidateDefault | backend/internal/service/dynamic_model_service.go:129-162 | Accepts exactly the defaults of the field's JSON type, for choices among the options as written |
| EntitySchema.ValidateEntitySchema | backend/internal/service/dynamic_model_service.go:64-105 | Accepts exactly the definitions whose normalised fields number 1 to 100, fit one by one and have distinct names |
| EntitySchema.Define | backend/internal/service/dynamic_model_service.go:38-50 | Fields are normalised in place exactly when the definition is accepted |
| RecordValues.ValidateValue | backend/internal/service/dynamic_record_service.go:165-240 | The value check per field type, loop over list items included |
| RecordValues.ValidateRecord | backend/internal/service/dynamic_record_service.go:132-161 | The loop over fields computes the stored record or the refusal |
| RecordValues.RecordHolds | backend/internal/service/dynamic_record_service.go:132-161 | A record is accepted exactly when every field accepts what it was given or does without, and then holds the given value or the default for each such field and nothing else |
| RecordValues.StoredRecordShows | backend/internal/service/dynamic_record_service.go:132-161 | A stored record has, for each field, what was given unless that was null or empty, else the default, else nothing, which no required field has; and no name the entity has no field for |
| FormSchema.ValidateAndGenerate | backend/internal/service/form_service.go:81-129 | The loop rewrites the components in place and computes the generated schema, or rejects |
| FormSchema.FormMeaning | backend/internal/service/form_service.go:81-129 | A form is accepted exactly when every component fits and no field is used twice; the schema has one property per component and requires what the form or the entity requires |
| FormSchema.FormsAreStoredAsSubmitted | backend/internal/service/form_service.go:93-121 | An accepted form stores each component trimmed and numbered, with the field's caption where it had none, required where form or entity say so; titles and defaults follow, and the schema requires those names in form order |
| FormSchema.GeneratedIsTheForm | backend/internal/service/form_service.go:81-129 | One to a hundred components that fit, over distinct fields, and only those, make a form, with the above for its contents |
| FormSchema.ChoicesAreOptions | backend/internal/service/dynamic_record_service.go:165-240 | A choice is accepted if and only if it is one of the options as written, a list of choices if and only if each of its items is |
| FormSchema.RecordCheckIsSchemaAndMore | backend/internal/service/form_service.go:145-169 | The record check is the property's type, enum, items and format keywords plus exactly the money and non-blank rules |
| FormSchema.DefaultCheckIsSchema | backend/internal/service/form_service.go:145-169 | The default check is the property's keywords and nothing else |
| FormSchema.StoredValuesFitTheForm | backend/internal/service/form_service.go:81-169 | Every stored value, given or default, satisfies the property of every accepted form that lists its field |
| FormSchema.WholeObjectExactly | backend/internal/service/form_service.go:120-128 | A stored record satisfies the whole schema exactly when the form leaves out no field the record has and asks only for fields it has |
| FormSchema.FormsCanAskForMore | backend/internal/service/form_service.go:119-122 | An accepted record can fail a form's schema |
| FormCompleteness.EveryEntityHasACompleteForm | backend/internal/service/form_service.go:81-143 | For every accepted entity there is an accepted form that every accepted record satisfies as a whole |
| KnowledgeChunks.Split | backend/internal/service/knowledge_service.go:230-245 | The loop terminates for an overlap below the size and yields the trimmed windows that are not blank |
| KnowledgeChunks.WindowsFit | backend/internal/service/knowledge_service.go:230-245 | Windows have at most the size, all but the last exactly the size, and each holds more than the overlap when the text from its start on does |
| KnowledgeChunks.WindowsStandEveryStride | backend/internal/service/knowledge_service.go:230-245 | Window i is the text from i strides on, up to the size or the end |
| KnowledgeChunks.ChunksHoldTheWindows | backend/internal/service/knowledge_service.go:233-238 | The chunk of a window that is not blank is that window trimmed, in window order |
| KnowledgeChunks.ChunksAreWindows | backend/internal/service/knowledge_service.go:233-238 | And every chunk is one of those |
| KnowledgeChunks.WindowsRebuildTheText | backend/internal/service/knowledge_service.go:230-245 | Dropping the overlap of every later window and concatenating rebuilds the text |
| KnowledgeChunks.WindowsAreCounted | backend/internal/service/knowledge_service.go:230-245 | The number of windows is one plus the rest divided by the stride, rounded up |
| KnowledgeChunks.RoundedUpIsCeiling | backend/internal/service/knowledge_service.go:230-245 | That rounding is the least multiple that covers the rest |
| KnowledgeChunks.CapInCharacters | backend/internal/service/knowledge_service.go:76-79 | With windows of 1200 overlapping by 180, at most 1000 windows means at most 1,020,180 characters |
| KnowledgeChunks.CollapseKeepsWords | backend/internal/service/knowledge_service.go:225-229 | Collapsing leaves single spaces and the very same words |
| KnowledgeChunks.NormalizeIsIdempotent | backend/internal/service/knowledge_service.go:225-229 | Normalising twice is normalising once |
| Text.TrimMeaning | backend/internal/service/knowledge_service.go:225-229 | Trimming takes white space off both ends, and all of it |
| KnowledgeChunks.NoWindowIsBlank | backend/internal/service/knowledge_service.go:225-245 | In normalised text without exotic white space no window is blank |
| KnowledgeChunks.Prepare | backend/internal/service/knowledge_service.go:76-79 | From extracted text to chunks: refused exactly when too short, or when more than 1000 chunks are left; never for want of a chunk, and for plain text by length alone |
| KnowledgeChunks.OnlyTheCapRejects | backend/internal/service/knowledge_service.go:76-79 | Normalised text always has a chunk, and the cap is met exactly when the windows that are not blank are at most 1000 |
| KnowledgeChunks.PlainTextIsMeasured | backend/internal/service/knowledge_service.go:76-79 | Without exotic white space the rule is a length of 20 to 1,020,180 characters |
| KnowledgeChunks.BlankMiddlesAreNotMeasured | backend/internal/service/knowledge_service.go:225-245 | A document with an exotic blank middle of any length has at most two chunks |

## Left out

- A load that fails although the entry exists (backend/internal/jobs/queue.go:276-281) drops the lease of a live job; the protocol has no such step, so no-loss assumes it does not happen.
- Ids are fresh: random generation, its fallback, and collisions are not modelled.
- Redis and PostgreSQL are taken at their word: scripts and transactions are atomic, and a command whose answer is lost is one that did not happen, or one whose caller crashed right after.
- JSON encoding, telemetry, logging and trace carriers. A stored job is the record itself.
- JobQueue.Queue.Enqueue: stored times are kept to the millisecond.
- QueueLeases.PunctualWorkersKeepTheirJobs: needs stray renewals to arrive in order, which the code does not see to; QueueLeases.StrayRenewalIsHarmlessExactly says what one out of order does.
- QueueSchedules.OneJobPerWindowExactly: intervals with a fraction of a millisecond and calls that take time are covered in one direction each, by QueueSchedules.OneJobPerWindow and QueueSchedules.ShortLivedKeysRepeat.
- WorkflowBranching.AlwaysMovesExactly: answers are chosen freely for each condition, so a fork behind conditions that contradict each other counts as reachable.
- RetryBackoff.DelayIsCappedDoublingExactly: what a conversion of 2^63 and more yields is platform-dependent and a parameter.
- RetryBackoff.ShippedDelayWraps: needs a maximum of attempts above 31; the default is five.
- MigrationRunner.Database.Verify: a row whose checksum is the empty string is accepted, an update is sent for it, and, as that only touches rows without a checksum, it is never filled in; the model does the same.
- What a migration does to the schema is its name in a list. Migrations are atomic, and the role check is a parameter.
- WorkflowInstances.WholeRun: the definition is fixed during the run. The code reads the current one at every action, so a redefinition in between is outside the theorem.
- Comparing record values at a condition is a function from node to answer, free to change between actions.
- The Redis-backed rate limiter, and the header and error answers of both.
- RateLimit.PruningIsInvisible: times are read before the lock, so nondecreasing times are a premise; what happens otherwise is RateLimit.StragglersDifferExactly.
- LikeEscape.SearchFindsLiteralText: case folding is any function on characters; locale rules that fold one character to several are not covered.
- Sending mail, calling webhooks, extracting text and embedding are outcomes chosen freely. The error texts and their truncation are left out.
- Outbox.Table.ProcessBatch: assumes nobody else touches the rows; OutboxProtocol has the interleavings.
- A second delivery by a stale worker, and a second document by a stale ingestion, do happen in the code; the model counts claims, not effects outside the table.
- QuotaProtocol.QuotaIsSafe: the plan's limit is fixed, counters start at zero and integers do not overflow 64 bits; refunds across months are excluded here and bounded by QuotaProtocol.OverrunIsForeign.
- The user and token quotas follow the same counter; their callers are not modelled, nor are plans, subscriptions and billing events.
- FormSchema.StoredValuesFitTheForm: entity and form are of the same version of the definition; a form is not regenerated when its entity is redefined.
- Parsing of dates, mail addresses and URLs, the printing of a number for the money pattern, and lower-casing are uninterpreted functions; numbers are reals.
- Defaults are not checked against formats, so a stored default need not be a date or an address; FormSchema.DefaultCheckIsSchema says exactly what is checked.
- Error messages: validators answer which side they are on, not with which words.
- HTTP handlers, authentication, tenants and row-level security, menus, dashboards, audit, object storage, the installer and the frontend.
