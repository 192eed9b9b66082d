# Verified models of govnohub

Dafny 4.11 models of the parts of govnohub where correctness depends on order, time or exact
bytes, with proofs. `dafny verify dfyconfig.toml` checks everything.

| module | models |
|---|---|
| Workflows, JobOrdering | the need graph of a workflow and the depth-first search that orders its jobs |
| Runs, Controllers, Progress, SlowPolls | the actions controller: one run as a state machine over its table rows, the controller's methods over all runs, and when and where a run ends |
| Protection | required checks and merge protection over the job rows the controller writes |
| JobQueue | the in-process job queue: its methods with everything that may happen between two of their atomic operations |
| PackCache, PackKey | the pack cache with its size budget and its interleavings, and the text its keys are hashed from |
| PktLine, PushGate | parsing the ref updates of a push, and judging them against protected branches |
| UnifiedDiff | the unified diff parser |
| SecretScan | the secret scanner's lines, numerals and findings |
| RateLimit, TtlCache, Presence, Accounts | time-driven state: rate limits, the TTL cache, presence, login lockout; and the administrators |
| Collections, Text, Decimals, Wrappers | sequences and sets, strings, numerals, options |

Conventions. A string stands for a Go string, one char per byte. Instants and durations are
integers of one unit. The order in which Go ranges over a map, or the database returns rows
without ORDER BY, is left open (`:|`, or any permutation), so results hold for every order. What
Kubernetes, the clock, bcrypt and the regular expressions answer are parameters; so is, in the
controller and in Login, whether each statement that changes a row succeeds. Code that changes state step by step is a class or a method with loops,
tied by its `ensures` to functions of the old state; results over whole runs are lemmas about
those functions, or about sequences of steps that the methods are shown to take.

## What is proved

**The scheduler.** `Runs.Step` is one SQL statement with the Kubernetes call before it. Every method
of `Controllers.Controller` is shown to be a sequence of such steps, whatever Kubernetes and the
updates answer, and to compute exactly what it should when all updates are recorded. Since the
safety results quantify over all step sequences, they also cover a controller stopped at any
point and started again. A job leaves the queue only when every transitive need has
succeeded; a completed run is frozen, and is a success exactly when it has rows and all of them
succeeded; jobs on or below a need cycle or below a failed job never leave the queue and their
runs never complete. Progress follows a run each of whose jobs has a fixed fate (it succeeds, fails,
or is refused by Kubernetes): after any number of reconcile passes every row is known exactly, and
after as many passes as there are jobs the run has settled. If all jobs succeed it is completed
after exactly as many passes as its longest need chain has jobs, so some number of passes suffices
if and only if the workflow is acyclic. The controller's loop makes one such pass in each tick,
beginning with the one in which it claims the run. When polls may say nothing for a while, no row
is ever ahead of these levels, the run has settled as soon as no job is left unanswered, and a
bound on the silence after the jobs that Kubernetes accepts bounds the passes.

**Protection.** A merge is accepted whenever the commit's only run succeeded with the required
checks among its jobs; and every accepted merge on a protected branch means that each required
check, with all its transitive needs, succeeded in some run of the commit. With several runs the
unordered query matters: a check passes in every row order exactly when all its rows pass, in
some order exactly when one does.

**Pushes.** Every input is frames and then something that is no frame, and parses to exactly the
ref updates among the lines of its frames: the lines of another shape add nothing. A branch is
named against a push exactly when it is protected and one of these updates is of its ref.

**Logins.** Over whole runs the counter and the end of the lock of an account are known exactly, so a
login that looks at its user's own lock is refused exactly when it starts before the end of the
lockout that the last failure at the limit began, and any interval of one lockout's length has a
bounded number of failed comparisons.

**The rest.** See the table: conservation and shutdown of the job queue; the eviction contract of
the pack cache, and under interleaved calls its budget, its answers, exactly when an entry is
without its file, and that no file is forgotten; which repository states share
a key text; diff round trips; the exact findings of a scan; rate bounds over whole runs; invisible
expiry sweeps, and answers of the TTL cache never older than the TTL.

Where the code differs from its own comments, the models follow the code:

- `evict` (internal/git/pack_cache.go:168-204) is described as evicting until the total is under
  the limit, but counts the new entry a second time; so a new entry survives its own Set exactly
  when twice its size fits (`NewestSurvivesExactly`).
- The rate limiter is described as a sliding window with a per-window limit
  (internal/api/rate_limit.go:29); it uses fixed windows that start at a request, and the
  middleware denies the request that reaches the limit. The exact bound for one window's length
  is `2 * limit - 3` (`RateBound`, `RateBoundIsReached`).
- `Stats.WorkerBusy` (internal/jobqueue/jobqueue.go:30) is described as the currently executing
  workers, but is made of three loads. It is right for the moment of the first exactly when no job
  is completed before the second nor fails before the third, and negative exactly when more do than
  were running (`BusyWorkersExactly`, `BusyWorkersCanBeNegative`).
- A stale `Get` of the TTL cache can delete a fresh entry (internal/cache/cache.go:44-46): exactly when
  the map holds one by then (`LossExactly`), which takes a Set of the key between its read and its
  Delete (`LossNeedsANewerSet`, `AFreshEntryCanBeLost`).
- A pack-cache entry can be without its file (internal/git/pack_cache.go:110-149): exactly after a Set of
  the key has overlapped a Delete or an eviction of it and no later Set has written the file
  (`LacksFileExactly`, `FilesKeptExactly`, `EntriesKeepTheirFiles`, `AnEntryCanLoseItsFile`).
- A call of Enqueue that found the queue running can still be accepted after Stop has returned:
  exactly when such a call is not at its end and the buffer has room (`AcceptedAfterStopExactly`,
  `AcceptedAfterStop`); the jobs then in the buffer are exactly those that never run (`LeftInTheBuffer`).
- A job that Kubernetes accepts but whose update is lost stays queued and is created again. Since its
  name is the same, that is refused: the job ends as a failure whatever its pods do
  (`NamesMakeCreatesUnique`, `LostJobsFail`).
- A pack-cache key stands for "owner/name" and the branches, so an owner with a slash shares its keys
  with another repository (`SameTextExactly`, `SlashInOwnerCollides`).
- A run whose row inserts fail midway can end in success without some of its jobs
  (`WholeWorkflowRanExactly`, `PartialStartsCanSucceed`).
- Login looks up the lock and the password by two queries of the same text. The lockout bound holds
  for every run in which a comparison with a user's password comes after a look at that user's own
  lock (`LockoutBound`). So it holds for a user whatever happens exactly when nobody else goes by the
  same name or email (`BoundHoldsExactly`); to break it otherwise the database has to answer the two
  identical queries of one login with different rows, which their text leaves it free to do.
- `ParseUnifiedDiff` reads a deleted line that starts with `-- ` as a path line; the round trip
  holds exactly when there is no such line (`DiffRoundTrip`). A final newline adds an
  empty context line (`TrailingNewlineAddsALine`).

## Model

| member | source | states |
|---|---|---|
| Workflows.NormalizeNeeds | internal/actions/actions.go:125-140 | the result lists exactly the strings of a needs field, in order, and nothing for other values |
| Workflows.StringsInOrder | internal/actions/actions.go:125-140 | the strings of a list of needs keep their order and their repetitions |
| Workflows.AcyclicOrderPutsNeedsFirst | internal/actions/actions.go:96-123 | in an acyclic workflow the order JobOrder promises has every need before its dependent |
| Workflows.NeedsFirstMeansAcyclic | internal/actions/actions.go:96-123 | an order of all jobs as JobOrder returns it puts every need first exactly when the workflow has no need cycle |
| Workflows.PrefixesAreClosed | cmd/actions-controller/main.go:112-120 | every prefix of a needs-first order, as a partial insert leaves it, contains the needs of its jobs |
| Workflows.ChainGoesBack | internal/actions/actions.go:109-114 | along any need chain positions in a needs-first order strictly decrease |
| Workflows.AcyclicChainsAreShort | internal/actions/actions.go:96-123 | in an acyclic workflow no need chain is longer than the number of jobs |
| JobOrdering.Search.Visit | internal/actions/actions.go:100-116 | a visit terminates on every graph; it fails only for an unknown job that is visited or needed, and otherwise keeps the finished jobs distinct, closed and needs-first up to cycles |
| JobOrdering.CloseJob | internal/actions/actions.go:107-114 | a need that is visited but unfinished when its dependent is appended lies on a common cycle with it |
| JobOrdering.JobOrder | internal/actions/actions.go:96-123 | for every map order: an error exactly when some need is unknown, naming such a need; otherwise each job exactly once, every need first unless both lie on one cycle |
| Runs.InvKept | cmd/actions-controller/main.go:83-303 | every step keeps rows well formed, direct needs met outside the queue and run conclusions sound |
| Runs.DependencySafety | cmd/actions-controller/main.go:124-208 | in every reachable state a job that is not queued has every transitive need completed with success |
| Runs.ChainSucceeded | cmd/actions-controller/main.go:148-165 | along a need chain from a job outside the queue, the last job has succeeded |
| Runs.RunsGoForward | cmd/actions-controller/main.go:199-206 | between any two times statuses only move forward, no row vanishes, a completed row keeps its conclusion, and a completed run never changes again, in particular no Kubernetes job is created for it |
| Runs.CompletedRunsAreSound | cmd/actions-controller/main.go:283-302 | a completed run has every row completed with success or failure and is a success exactly when it has rows and all of them succeeded |
| Runs.WholeWorkflowRanExactly | cmd/actions-controller/main.go:283-302 | a successful run has run every job of its workflow exactly when every job has a row |
| Runs.StartedInFullRunsInFull | cmd/actions-controller/main.go:112-120 | if every job had a row at some point, success means that every job of the workflow succeeded |
| Runs.PartialStartsCanSucceed | cmd/actions-controller/main.go:112-120 | after a partial insert a run with the row of a single job can end in success, whatever else the workflow has |
| Runs.CyclesBlock | cmd/actions-controller/main.go:148-165 | in every reachable state a job on or below a need cycle is an untouched queued row and its run is in progress |
| Runs.FailuresBlock | cmd/actions-controller/main.go:158-165 | a job below a job that fails, sooner or later, is an untouched queued row before and after, and its run is in progress |
| Runs.CreatedAtMostOnce | cmd/actions-controller/main.go:197-206 | when the updates after Create are recorded, each job is created on the cluster once if its row names a Kubernetes job and otherwise never |
| Runs.NamesMakeCreatesUnique | cmd/actions-controller/main.go:195-206 | even when updates are lost each job is created on the cluster at most once, if a name once taken stays taken |
| Runs.LostExactly | cmd/actions-controller/main.go:197-206 | a job not yet on the cluster gets there with its row still queued exactly by an accepted Create whose update is not recorded |
| Runs.LostJobsFail | cmd/actions-controller/main.go:195-206 | a job whose Create was accepted and whose update was lost stays queued until its next recorded dispatch makes it a failure, whatever its pods do; its run never ends in success |
| Controllers.Controller.CompletedJobs | cmd/actions-controller/main.go:167-187 | the map holds success for exactly the jobs completed with success |
| Controllers.Controller.NeedsSatisfied | cmd/actions-controller/main.go:158-165 | true exactly when every listed need is recorded as a success |
| Controllers.Controller.DispatchJob | cmd/actions-controller/main.go:189-208 | the row and the created jobs after Create and its update: in progress, failed, or unrecorded |
| Controllers.Controller.DispatchReadyJobs | cmd/actions-controller/main.go:124-156 | in every row order exactly the queued jobs whose needs had succeeded at the start are handed to Kubernetes, by legal steps |
| Controllers.Controller.ClaimQueuedRun | cmd/actions-controller/main.go:83-99 | the oldest queued run, and only it, moves to in progress; none means no run is queued |
| Controllers.Controller.StartRun | cmd/actions-controller/main.go:101-122 | an unparsable or unorderable workflow fails the run if that update succeeds; otherwise the rows of the first jobs of a needs-first order exist, as many as were inserted; true exactly when every statement succeeded |
| Controllers.Controller.ProcessClaimedRun | cmd/actions-controller/main.go:73-79 | a claimed run is started and, unless a statement of the start failed, its first jobs dispatched, by legal steps |
| Controllers.Controller.ProcessQueuedRuns | cmd/actions-controller/main.go:64-81 | queued runs are claimed oldest first and processed, all of them unless a claim fails; every other run is untouched |
| Controllers.NoRowsNoDispatch | cmd/actions-controller/main.go:107-111 | the dispatch that follows a rejected workflow creates nothing |
| Controllers.StartedRows | cmd/actions-controller/main.go:101-122 | starting a run leaves one fresh row for each of as many jobs as inserts succeeded, and no other change |
| Controllers.FailedStartDispatchesNothing | cmd/actions-controller/main.go:73-79 | a start that fails midway leaves its fresh rows and dispatches none of them |
| Controllers.Controller.PollRun | cmd/actions-controller/main.go:263-277 | a row changes exactly if its job is on the cluster with a positive count, and then follows the count; every update recorded, or the loop stops there with nothing dispatched |
| Controllers.Controller.ConcludeRun | cmd/actions-controller/main.go:283-302 | the run is completed exactly when it is in progress, has rows, all are completed and the update succeeds, with failure exactly when some row failed; false exactly when no conclusion is known or that update fails |
| Controllers.Controller.ReconcileRun | cmd/actions-controller/main.go:228-303 | legal steps always; exactly poll, then dispatch, then conclude, if the updates after the polls are recorded, and else nothing is dispatched or concluded; a job on the cluster of which no pod has ended keeps its row in any case |
| Controllers.PolledRows | cmd/actions-controller/main.go:263-317 | the rows after the polls from the counts alone: a succeeded pod outweighs failed ones, and without a positive count the row stays |
| Controllers.ReconciledRows | cmd/actions-controller/main.go:228-281 | the row of each job after a pass: a job on the cluster follows its pods, a queued one is handed over exactly when its needs had succeeded or succeed in the polls of this very pass, and its row follows the answer to Create |
| Controllers.ReconciledStatus | cmd/actions-controller/main.go:283-302 | a pass completes the run exactly when it leaves rows, all of them completed, as a failure exactly when one of them failed |
| Controllers.Controller.ReconcileInProgressRuns | cmd/actions-controller/main.go:210-226 | every run in progress is reconciled, every other run is untouched |
| Controllers.Controller.Loop | cmd/actions-controller/main.go:49-61 | each tick takes in the runs inserted meanwhile, processes the queued runs and then reconciles those in progress |
| Controllers.PolledVerdictIsFinal | cmd/actions-controller/main.go:263-317 | a polled job with a succeeded pod is a success for good; one with failed pods only is a failure for good and its run never ends in success |
| Controllers.FullStart | cmd/actions-controller/main.go:112-120 | when all inserts succeed the run has exactly one fresh row per job |
| Progress.HeightByNeeds | cmd/actions-controller/main.go:158-165 | the chains from a job have at most n + 1 jobs exactly when those from each of its needs have at most n |
| Progress.DispatchRaises | cmd/actions-controller/main.go:124-156 | a dispatch hands over exactly the jobs of the next height none of whose needs, direct or not, fails to succeed |
| Progress.PassRaises | cmd/actions-controller/main.go:228-303 | a reconcile pass takes every row from its state after n passes to its state after n + 1, and completes the run when no job is left open |
| Progress.ProcessedInFull | cmd/actions-controller/main.go:64-81 | a queued run all of whose inserts succeed becomes the fully started run with its first jobs dispatched |
| Progress.RunsGoByLevels | cmd/actions-controller/main.go:228-303 | whatever fate each job has on the cluster, the rows and the status of the run after n passes, exactly |
| Progress.CompletesExactlyAtLongestChain | cmd/actions-controller/main.go:228-303 | if every job succeeds, a run of a non-empty workflow is completed with success after n passes if and only if no need chain has more than n jobs, and until then is in progress |
| Progress.AcyclicWorkflowsComplete | cmd/actions-controller/main.go:228-303 | some number of passes suffices if and only if the workflow is acyclic, and then as many as it has jobs do |
| Progress.RunsSettle | cmd/actions-controller/main.go:228-303 | after as many passes as jobs, the jobs on or below a cycle or below a job that does not succeed are untouched and all others have run; the run is completed if and only if there are none of the former, with success if and only if every job succeeded |
| Progress.RowsSettle | cmd/actions-controller/main.go:148-165 | what the row of a job is after as many passes as jobs |
| Progress.TicksArePasses | cmd/actions-controller/main.go:49-81 | in the loop a queued run is claimed, started and dispatched in the first tick, and each tick, the first included, is one of its reconcile passes, if its statements succeed |
| SlowPolls.NeverAhead | cmd/actions-controller/main.go:263-303 | however long polls say nothing, after n passes no row is further than with prompt answers, and nothing ready is left in the queue |
| SlowPolls.SettlesOnceAnswered | cmd/actions-controller/main.go:263-303 | however long polls say nothing, the run has settled after any pass that leaves no job on the cluster unanswered |
| SlowPolls.RunsByDelay | cmd/actions-controller/main.go:263-303 | if every job that Kubernetes does not refuse is answered once in any d passes in a row, a job of height h below which nothing fails has run after d * h passes |
| SlowPolls.SettlesInTime | cmd/actions-controller/main.go:263-303 | if every job that Kubernetes does not refuse is answered once in any d passes in a row, the run has settled after d passes for each of its jobs |
| SlowPolls.PromptAnswersAreWithinOne | cmd/actions-controller/main.go:263-303 | prompt answers, with which Progress counts the passes, are a delay of one pass, also for runs with refused jobs |
| Protection.CheckRequiredChecks | internal/repo/protection.go:78-131 | a required check is missing exactly when it has no row, pending exactly when its last row is not completed, failed exactly when its last row is completed without success; no blockers exactly when all last rows pass |
| Protection.BucketMembers | internal/repo/protection.go:118-129 | a check is in a bucket exactly when it is required and in that state |
| Protection.BucketsByLastRow | internal/repo/protection.go:94-130 | what the three lists hold, from the scanned rows alone |
| Protection.BucketsKeepOrder | internal/repo/protection.go:118-130 | each list keeps the order and the repetitions of the required checks |
| Protection.ValidateMergeProtection | internal/repo/protection.go:133-162 | accepted exactly when the branch is unprotected, or approvals suffice and the last scanned row of every required check is completed with success; which violation otherwise |
| Protection.SuccessfulRunAllowsMerge | internal/repo/protection.go:78-162 | if the only run of the commit completed with success, contains the required checks and approvals suffice, the merge is accepted in every scan order |
| Protection.AcceptedMergeMeansWorkDone | internal/repo/protection.go:84-129 | a merge accepted on a protected branch means each required check and all its transitive needs succeeded in some run of the commit |
| Protection.PassesInEveryOrder | internal/repo/protection.go:84-113 | a check passes in every row order exactly when it has a row and all its rows pass |
| Protection.PassesInSomeOrder | internal/repo/protection.go:84-113 | a check passes in some row order exactly when one of its rows passes |
| JobQueue.Queue.constructor | internal/jobqueue/jobqueue.go:55-73 | an empty running queue with the default sizes wherever a size is not positive |
| JobQueue.Queue.Enqueue | internal/jobqueue/jobqueue.go:77-88 | with any steps of others in between, the call is refused if the queue had been stopped, and otherwise waits at its select, which Await takes further; the queue stays reachable |
| JobQueue.Queue.Await | internal/jobqueue/jobqueue.go:82-87 | a blocked call goes on: accepted as the newest job, given up only after the shutdown, or still blocked in a full queue not shut down |
| JobQueue.Queue.EnqueueNonBlocking | internal/jobqueue/jobqueue.go:92-104 | the same for the call that never blocks and takes its count back when the queue is full; alone, it is accepted exactly when there is room |
| JobQueue.Queue.WorkerTurn | internal/jobqueue/jobqueue.go:127-137 | a worker takes the first job, leaves after the shutdown, or waits for a job; the queue stays reachable; alone, it counts the job as started and as completed or failed by its outcome |
| JobQueue.Queue.FinishJob | internal/jobqueue/jobqueue.go:152-163 | exactly one of the two counters is increased and the worker is free |
| JobQueue.Queue.Stop | internal/jobqueue/jobqueue.go:108-112 | Stop shuts the queue down and then returns exactly when all workers have left, with started equal to completed plus failed; otherwise it waits, which AwaitWorkers takes further |
| JobQueue.Queue.AwaitWorkers | internal/jobqueue/jobqueue.go:108-112 | a waiting Stop goes on: it returns exactly when all workers have left, after any steps of others |
| JobQueue.Queue.Stats | internal/jobqueue/jobqueue.go:115-124 | the report is made of eight loads with any steps in between; busy workers at most the workers, depth within capacity; with nothing in between, the very counters |
| JobQueue.InvAlways | internal/jobqueue/jobqueue.go:77-163 | the queue's invariant holds after every interleaving |
| JobQueue.JobsAreConserved | internal/jobqueue/jobqueue.go:77-104 | accepted jobs are the received ones followed by the buffer, none received twice, the buffer within capacity; enqueued counts accepted jobs, calls in flight and calls that gave up |
| JobQueue.CountersAreExact | internal/jobqueue/jobqueue.go:139-163 | started minus completed minus failed is the number of running workers, between 0 and the number of workers |
| JobQueue.StatsAreBounded | internal/jobqueue/jobqueue.go:115-124 | a Stats call whose loads interleave with workers never reports more busy workers than exist, nor a depth beyond capacity |
| JobQueue.LoadsAreReadings | internal/jobqueue/jobqueue.go:115-124 | every number of a report is the value of its counter at the step that loaded it |
| JobQueue.FieldsAreReadings | internal/jobqueue/jobqueue.go:115-124 | each of the first five fields is its own counter, or the depth, at one of five successive steps |
| JobQueue.BusyWorkersExactly | internal/jobqueue/jobqueue.go:115-124 | the reported busy workers are those running at the first of three loads less the jobs completed before the second and failed before the third; right exactly when there are none such, negative exactly when they outnumber the running |
| JobQueue.BusyWorkersCanBeNegative | internal/jobqueue/jobqueue.go:115-124 | some interleaving makes Stats report -1 busy workers |
| JobQueue.NothingRunsAfterStop | internal/jobqueue/jobqueue.go:108-112 | once a Stop has returned, started equals completed plus failed, all workers are gone, and nothing is received or started ever again |
| JobQueue.LeftInTheBuffer | internal/jobqueue/jobqueue.go:106-112 | once a Stop has returned, the jobs received are those received by then and all others ever accepted stay in the buffer |
| JobQueue.JobsCanBeLeftBehind | internal/jobqueue/jobqueue.go:106-112 | a job accepted before Stop can still be in the buffer when Stop has returned |
| JobQueue.AcceptedAfterStop | internal/jobqueue/jobqueue.go:77-88 | some interleaving accepts a job after a Stop has returned |
| JobQueue.AcceptedAfterStopExactly | internal/jobqueue/jobqueue.go:77-112 | once a Stop has returned, some continuation accepts another job if and only if the buffer has room and some call has found the queue running and is not at its end |
| JobQueue.NothingIsAcceptedAfterStop | internal/jobqueue/jobqueue.go:77-80 | a call that enters after the stopped flag is set is refused for good |
| PackCache.PackCache.Get | internal/git/pack_cache.go:87-107 | with any operations of other calls in between, a hit is what is in the file of a fresh entry; with none, the answer is the lookup, and a stale entry or one without a file is dropped with its file |
| PackCache.PackCache.Set | internal/git/pack_cache.go:110-138 | the entry is stored and eviction is asked for with its size when there is a budget; with nothing in between, it is readable until the TTL is over |
| PackCache.PackCache.Delete | internal/git/pack_cache.go:141-149 | with nothing in between, exactly the entry and its file are removed; the cache stays reachable whatever comes in between |
| PackCache.PackCache.KeysByAge | internal/git/pack_cache.go:179-192 | all keys once, by age |
| PackCache.PackCache.Evict | internal/git/pack_cache.go:169-205 | the victims are oldest first, none newer than a survivor, eviction stops once the rest and the incoming size fit or nothing is left, and one victim less would not have been enough |
| PackCache.PackCache.Stats | internal/git/pack_cache.go:208-216 | the number of entries and their total size |
| PackCache.NewestSurvivesExactly | internal/git/pack_cache.go:123-134 | the newest entry survives the eviction of its own Set exactly when twice its size is within the budget |
| PackCache.BudgetKept | internal/git/pack_cache.go:123-134 | every file operation and critical section keeps: some Set happened and no eviction is outstanding implies the total is within the budget |
| PackCache.BudgetHoldsWhenQuiet | internal/git/pack_cache.go:110-138 | in every interleaving of Sets, evictions, Deletes and Gets, once all spawned evictions have run the indexed total is within the budget |
| PackCache.NoBudgetNoEviction | internal/git/pack_cache.go:132-135 | with a budget of zero or less nothing is ever evicted |
| PackCache.HitsAreLatestWrites | internal/git/pack_cache.go:87-107 | with anything between its look at the index and its file read, a Get returns what was last written to the path it looked up if that file is still there, and nothing otherwise |
| PackCache.LacksFileExactly | internal/git/pack_cache.go:110-149 | a key with an entry or a Set under way is without its file exactly if an eviction or the end of a Delete has clashed with a Set of it and no later step has written the file |
| PackCache.FilesKeptExactly | internal/git/pack_cache.go:110-149 | every such key has its file at every moment if and only if nothing ever clashes |
| PackCache.EntriesKeepTheirFiles | internal/git/pack_cache.go:110-149 | if no Set of a key overlaps a Delete or an eviction of it, every entry has its file at every moment |
| PackCache.NoFileIsForgotten | internal/git/pack_cache.go:110-204 | in every interleaving each file is that of an entry or of a Set or Delete under way, so none is left over once these are done |
| PackCache.AnEntryCanLoseItsFile | internal/git/pack_cache.go:110-138 | it does happen: an entry without a file once all Sets, Deletes and evictions are over |
| PackKey.Preimage | internal/git/pack_cache.go:72-82 | the text is the header and the branch lines in sorted order, for every map order |
| PackKey.SortedUnique | internal/git/pack_cache.go:79 | a strictly sorted list is determined by its elements |
| PackKey.PreimageIsAFunction | internal/git/pack_cache.go:70-84 | the text does not depend on the order the branches are visited in |
| PackKey.TextByLeastBranch | internal/git/pack_cache.go:72-84 | the text byte by byte: the header, the line of the least branch name, then the text of the other branches |
| PackKey.TextOfNoBranches | internal/git/pack_cache.go:72-84 | without branches it is the header alone |
| PackKey.AtMostExactly | internal/git/pack_cache.go:78-81 | branch names are in the order of their bytes, a prefix first |
| PackKey.SameTextExactly | internal/git/pack_cache.go:70-84 | two repository states share their text exactly when "owner/name" and the branches are equal, given no newlines in owners, names and commit ids and no colon in branch names |
| PackKey.PreimageIsInjective | internal/git/pack_cache.go:70-84 | two repository states have the same text exactly when owner, name and branches are equal, given no slash in owners, no newline in names and commit ids, no colon in branch names |
| PackKey.SlashInOwnerCollides | internal/git/pack_cache.go:74 | moving what follows a slash in the owner into the name gives another repository with the same text, whatever the branches |
| PktLine.LengthRoundTrip | internal/git/protocol.go:83-86 | the length header has four digits exactly for frames under 65536 bytes, and always parses back to the length |
| PktLine.HeadersAreLowerCase | internal/git/protocol.go:83-86 | the digits of a length header are in lower case |
| PktLine.DigitExactly | internal/git/protocol.go:26-33 | the hex digits of a length, in either case, and their values |
| PktLine.SignedHex | internal/git/protocol.go:26-33 | a length may carry a sign, as strconv.ParseInt reads it |
| PktLine.ParseLine | internal/git/protocol.go:46-67 | a line is split at its first two spaces, without trailing newlines and what follows a NUL, and kept only with two 40-byte ids |
| PktLine.ParseRefUpdates | internal/git/protocol.go:22-70 | the updates of the frames up to the first flush, malformed length or truncated frame |
| PktLine.LineRoundTrip | internal/git/protocol.go:46-67 | a line of two 40-byte ids and a ref, with capabilities or newlines after it, reads back as its update |
| PktLine.LineExactly | internal/git/protocol.go:46-67 | a line is read as an update exactly when it is two 40-byte ids without spaces, a ref without NUL, and then newlines or a NUL and anything; every other line is skipped |
| PktLine.FramesParse | internal/git/protocol.go:25-70 | frames, whatever the spelling of their lengths, parse to the updates among their lines; what is not a frame ends the parse |
| PktLine.ParseIsExact | internal/git/protocol.go:25-70 | every input is frames and then something that is no frame, and parses to exactly the updates among the lines of the frames, in order |
| PktLine.LinesRoundTrip | internal/git/protocol.go:25-70 | any lines at all, framed, before a flush and any pack bytes, parse to exactly the updates among them |
| PktLine.ParseRoundTrip | internal/git/protocol.go:22-70 | framing any list of updates, then a flush and any pack bytes, parses back to exactly that list |
| PktLine.TruncationParsesToPrefix | internal/git/protocol.go:25-46 | any truncation of any input parses to a prefix of the whole result |
| PushGate.CheckPushProtection | internal/repo/protection.go:167-187 | the branches named are exactly those b that are protected and of which some update has the ref "refs/heads/" + b, in the order of the updates |
| PushGate.OffendingExactly | internal/repo/protection.go:169-183 | a branch is named for a list of updates exactly when it is protected and one of them is of "refs/heads/" and its name |
| PushGate.OffendingInOrder | internal/repo/protection.go:169-183 | names keep the order of the updates, and a branch updated twice is named twice |
| PushGate.FramedPushIsJudgedByItsUpdates | internal/repo/protection.go:164-187 | a branch b is named against a framed push exactly when it is protected and some framed update is of "refs/heads/" + b, whatever capabilities and pack bytes follow |
| PushGate.TruncationOnlyForgives | internal/repo/protection.go:167-187 | a branch named against a truncated request is named against the whole |
| UnifiedDiff.ParseUnifiedDiff | internal/web/diff.go:21-88 | the parse is the left-to-right fold of the line rules over the lines of the text |
| UnifiedDiff.TakeLine | internal/web/diff.go:38-82 | the loop body for a line inside a file: path, header, blank, added, deleted, context and other lines |
| UnifiedDiff.HeaderStarts | internal/web/diff.go:90-101 | the start lines of a printed hunk header are read back |
| UnifiedDiff.BodyStep | internal/web/diff.go:69-82 | a printed unambiguous hunk line becomes one numbered line and advances the counters of its sides |
| UnifiedDiff.NumberedIndex | internal/web/diff.go:69-82 | the k-th line of a hunk is numbered by the hunk's start plus the earlier lines of its side |
| UnifiedDiff.HunkRoundTrip | internal/web/diff.go:54-82 | the lines of a printed hunk are appended as header and numbered lines |
| UnifiedDiff.FileRoundTrip | internal/web/diff.go:26-82 | the lines of a printed file close the previous file and leave this one with its paths, if any, its lines and the counters of its last hunk |
| UnifiedDiff.DiffRoundTrip | internal/web/diff.go:21-88 | parsing any printed list of well-formed files, with or without path lines, returns their paths and numbered lines if and only if no deleted line starts with "-- " and no added line with "++ " |
| UnifiedDiff.TrailingNewlineAddsALine | internal/web/diff.go:63-68 | a newline after the last line adds one empty context line to the last file, numbered by the starts of the diff's last hunk plus its lines of each side |
| UnifiedDiff.PreambleIsIgnored | internal/web/diff.go:26-37 | text before the first "diff --git" line changes nothing |
| SecretScan.SplitLines | internal/secrets/scanner.go:178-194 | the lines between newlines, with none after a final newline |
| SecretScan.LineFromPos | internal/secrets/scanner.go:197-206 | the line that covers the position, or the number of lines when none does |
| SecretScan.PositionOnLine | internal/secrets/scanner.go:178-206 | a position lies on the line numbered by the newlines before it |
| SecretScan.LineFromPosIsRight | internal/secrets/scanner.go:197-206 | the computed line is one plus the newlines before the position exactly when the position is not a newline or is one on the last line |
| SecretScan.WriteDigits | internal/secrets/scanner.go:213-223 | the digits fill the end of the 20-byte buffer, at least one byte of which stays free for a sign |
| SecretScan.Itoa | internal/secrets/scanner.go:209-229 | the decimal numeral of every 64-bit integer, except that the least one gives a bare minus sign |
| SecretScan.NumeralInjective | internal/secrets/scanner.go:209-229 | distinct positive line numbers have distinct numerals |
| SecretScan.KeysIdentifySpots | internal/secrets/scanner.go:142-146 | two dedup keys are equal exactly when pattern name and line are, whatever the names contain |
| SecretScan.Scan | internal/secrets/scanner.go:128-160 | the findings are the first hits on each pattern name and line, in order, with the right line numbers; passed exactly when there are none |
| SecretScan.ScanIsExact | internal/secrets/scanner.go:128-160 | exactly one finding for every pattern name and line on which some match of that name starts, none for any other |
| SecretScan.FindingsReportMatches | internal/secrets/scanner.go:136-153 | every finding has the line of some match, the severity of its pattern and a mask of its text |
| SecretScan.FirstHitsAreFirst | internal/secrets/scanner.go:143-146 | the findings are exactly the hits that come first on their pattern name and line |
| SecretScan.MaskHidesTheRest | internal/secrets/scanner.go:162-168 | a mask shows four bytes of a short secret and four at each end of a longer one, and nothing else |
| RateLimit.RateLimiter.AllowIfPossible | internal/api/rate_limit.go:72-96 | the bucket counts the request in its window or starts a new one; remaining is zero exactly when the limit is reached |
| RateLimit.RateLimiter.Middleware | internal/api/rate_limit.go:139-165 | a request passes exactly when its count in the window is below the limit |
| RateLimit.RateLimiter.Cleanup | internal/api/rate_limit.go:55-63 | exactly the buckets older than the window are dropped |
| RateLimit.CleanupsAreInvisible | internal/api/rate_limit.go:55-90 | at any time a request meets the same count, window and verdict as if no cleanup had ever run |
| RateLimit.PassedIsBounded | internal/api/rate_limit.go:83-93 | what a bucket says about the requests let through in an interval of one window's length |
| RateLimit.RateBound | internal/api/rate_limit.go:139-165 | any half-open interval of one window's length lets through at most 2 * limit - 3 requests of a key, none for limit 1, with cleanups anywhere |
| RateLimit.RateBoundIsReached | internal/api/rate_limit.go:139-165 | for every limit from 2 and window from 2 some run reaches that bound |
| TtlCache.Cache.Get | internal/cache/cache.go:37-49 | a hit is an unexpired entry's value; exactly an expired entry is dropped |
| TtlCache.Cache.Set | internal/cache/cache.go:52-56 | the value is stored until the TTL is over |
| TtlCache.Cache.EvictExpired | internal/cache/cache.go:92-101 | exactly the expired entries are dropped |
| TtlCache.CacheInvariant | internal/cache/cache.go:37-101 | in every interleaving what the map holds is what was last set, and what it misses has expired or was lost to a stale Get |
| TtlCache.HitsAreLatestAndFresh | internal/cache/cache.go:37-49 | with read and judgement apart, a returned value was the last one set when it was read and is unexpired when it is returned |
| TtlCache.LatestWasSet | internal/cache/cache.go:52-56 | what was last set for a key expires one TTL after the Set it comes from |
| TtlCache.AnswersAreRecent | internal/cache/cache.go:37-56 | with read and judgement apart, a value is returned at most one TTL after it was set, and no other Set of the key came before the read |
| TtlCache.GetInOneGo | internal/cache/cache.go:37-49 | the steps of a Get with nothing in between do what the method does |
| TtlCache.MissesAreExpiredOrLost | internal/cache/cache.go:92-101 | unless a stale Get deleted its fresh entry, a key answers at every later time as in the map without sweeps |
| TtlCache.LossExactly | internal/cache/cache.go:44-46 | a stale Get deletes a fresh entry exactly when the map still holds one for its key, that is when the value last set is fresh and not lost before |
| TtlCache.LossNeedsANewerSet | internal/cache/cache.go:44-46 | a Get deletes a fresh entry only if its key was set at some step between its read and its Delete |
| TtlCache.NothingLostWithoutOverlap | internal/cache/cache.go:37-101 | if no key is set while a Get of it is under way, nothing is ever lost and every key answers as in the map without sweeps |
| TtlCache.AFreshEntryCanBeLost | internal/cache/cache.go:44-46 | some interleaving of Set and Get loses a fresh entry |
| Presence.Tracker.Heartbeat | internal/presence/presence.go:36-51 | the user's entry on the resource is renewed, all else is kept |
| Presence.Tracker.GetActiveViewers | internal/presence/presence.go:53-70 | one name for each user seen within the TTL, and for no other |
| Presence.Tracker.Cleanup | internal/presence/presence.go:86-101 | exactly the stale entries and the resources left without entries are dropped |
| Presence.ViewersAreRecentBeats | internal/presence/presence.go:36-101 | over whole histories the viewers are exactly the users whose last heartbeat on the resource is within the TTL, whatever cleanups ran |
| Accounts.PolicyOf | internal/auth/auth.go:86-99 | an option is used if it is positive, else the default: five attempts, fifteen minutes |
| Accounts.Service.Login | internal/auth/auth.go:146-193 | the lock of one matching row refuses without comparing; otherwise a matching row is compared and counted, locked or cleared, as far as the statements succeed |
| Accounts.CallOn | internal/auth/auth.go:146-193 | what a call means to the account of a user whose own lock it looks at |
| Accounts.Service.UnlockUser | internal/auth/auth.go:587-596 | the user's counter and lock are cleared |
| Accounts.InStep | internal/auth/auth.go:169-186 | after every run of calls that look at the user's own lock, the counter is in step with the failures since the last success or unlock, if the statements succeed |
| Accounts.CounterIsExact | internal/auth/auth.go:169-186 | between calls the counter is below the limit and equals the failures since the last success or unlock, counted afresh after each lock; a lock is present exactly once the limit was reached |
| Accounts.LockIsExact | internal/auth/auth.go:169-182 | between calls the lock of an account ends one lockout after the end of the failed comparison that last reached the limit, and there is none if there was no such failure since the last success or unlock |
| Accounts.RefusedExactly | internal/auth/auth.go:146-155 | a login that looks at the lock of such a user is refused exactly when it starts before that instant |
| Accounts.LocksComeFromFailures | internal/auth/auth.go:176-182 | whatever statements fail, every lock ends one lockout after some failed comparison |
| Accounts.NoLockOutlastsALockout | internal/auth/auth.go:146-182 | one lockout after the last failed comparison a login that looks at the user's own lock is let through to the comparison, whatever statements failed |
| Accounts.FailuresAreContained | internal/auth/auth.go:169-182 | the recorded failures in an interval are still in the counter, or the account is locked past the interval |
| Accounts.LockoutBound | internal/auth/auth.go:146-182 | over every run of calls without success or unlock of a user that look at the user's own lock, any half-open interval of one lockout's length has at most maxLoginAttempts failed comparisons, plus those with a failed statement |
| Accounts.BoundHoldsExactly | internal/auth/auth.go:146-182 | among unlocked accounts the bound holds for a user, whatever logins follow, if and only if nobody else goes by the user's name or email |
| Accounts.Service.CreateUser | internal/auth/auth.go:118-144 | a user is added unless the name or email is taken, with an unknown role made user |
| Accounts.Service.DeleteUser | internal/auth/auth.go:503-533 | a user is deleted exactly when another acts, the target exists and is not the last administrator |
| Accounts.Service.UpdateUserRole | internal/auth/auth.go:537-571 | a role changes exactly when it is valid, the target exists and the last administrator is not demoted |
| Accounts.AnAdminAlwaysRemains | internal/auth/auth.go:503-571 | once an administrator exists, every run of logins, unlocks, creations, deletions and role changes leaves one |
| Accounts.AdminsArePromoted | internal/auth/auth.go:118-144 | over every run of calls an administrator was one from the start, was created as one, or was given the role |

## Left out

- Two controllers at once: the unguarded failure update at cmd/actions-controller/main.go:199-202 could then overwrite a success; the models have one.
- A workflow edited while its run is in progress: the controller reads the content again on each pass; the models keep it fixed for the life of a run.
- Failing reads of the database: they only end a pass early, which the step sequences cover.
- Kubernetes job names (cmd/actions-controller/main.go:195): two jobs of one name would show as a refused Create; what a poll of a shared name answers is left open. `NamesMakeCreatesUnique` and `LostJobsFail` assume that a name stays taken on the cluster.
- YAML parsing, expressions, job scripts and the uses registry: string templates around libraries and a shell.
- Runs, claims about time: no run is claimed to complete when a need fails, on a cycle or without jobs; the results of Progress and SlowPolls assume that claims, inserts and updates succeed.
- Panics in a queued job's Name method, the ten-minute context and logging: the queue counts a panicking Execute as failed.
- 64-bit overflow of counters, sizes and line numbers: integers are unbounded except in itoa and Atoi.
- Writing or reading a pack file is one step, and writing always succeeds; the results about entries and their files are for a directory in which the cache alone keeps its files (rebuildIndex would also list others); InvalidateRepo is left out.
- Overlapping logins of one user, and failing reads in Login, which end the call without a change.
- SHA-256, bcrypt, JWT, HMAC and the regular expressions: answers are parameters; the key result is about the hashed text.
- handleRateLimit's display of counters, rate limit keys and headers, and Unix-second rounding of the reset time.
- Blame and numstat parsers, upload-pack and receive-pack, the web interface, handlers, SSH, search, notifications, pagination, configuration: not part of these models.
