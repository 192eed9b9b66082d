// The actions controller over its tables: cmd/actions-controller/main.go.
//
// The answers of Kubernetes and the success of every statement that changes a row are
// parameters: for each job, what Create answers and whether the update after it is recorded; for
// each job on the cluster, what a poll sees and whether its update is recorded; for each run, how
// many row inserts succeed and whether the updates that reject or complete it are recorded; and
// how many claims succeed before one fails.
// Every method says both what it computes and that it is a sequence of the steps in Runs.
module Controllers {
  import opened Collections
  import opened Wrappers
  import opened Workflows
  import opened Runs
  import opened JobOrdering

  type RunId = nat

  /** What Kubernetes answers about one of its jobs. */
  datatype ClusterJob = Unknown | Counts(succeeded: int, failed: int)

  datatype PollAnswer = PollAnswer(job: ClusterJob, recorded: bool)

  /** The answers while a claimed run is started and its first jobs are dispatched. */
  datatype StartAnswers = StartAnswers(rejects: bool, inserts: nat, create: JobId -> CreateAnswer)

  /** The answers while a run is reconciled. */
  datatype PassAnswers = PassAnswers(create: JobId -> CreateAnswer, poll: JobId -> PollAnswer, concludes: bool)

  /** One tick of the controller's loop: the runs inserted since the last one, and the answers. */
  datatype Tick = Tick(arrivals: map<RunId, Run>, claims: nat, start: RunId -> StartAnswers, pass: RunId -> PassAnswers)

  function PollJob(answer: ClusterJob): Option<Conclusion>
  {
    match answer
    case Unknown => None
    case Counts(s, f) => if s > 0 then Some(Success) else if f > 0 then Some(Failure) else None
  }

  // ----- what one pass over a run computes -----

  function ReadyJobs(run: Run): set<JobId>
  {
    set j | j in run.rows && IsReady(run, j)
  }

  /** The jobs in `ready` are handed to Kubernetes. */
  function DispatchedRows(rows: map<JobId, JobRow>, ready: set<JobId>, create: JobId -> CreateAnswer)
    : map<JobId, JobRow>
  {
    map j | j in rows :: if j in ready then DispatchedRow(rows[j], create(j)) else rows[j]
  }

  /** Every ready job of `run` is handed to Kubernetes; readiness is judged on `run` itself. */
  function Dispatched(run: Run, create: JobId -> CreateAnswer): Run
  {
    run.(rows := DispatchedRows(run.rows, ReadyJobs(run), create),
         created := run.created + multiset(set j | j in ReadyJobs(run) && create(j).accepted))
  }

  function Polled(run: Run, poll: JobId -> PollAnswer): Run
  {
    run.(rows := map j | j in run.rows ::
                   if CanPoll(run.rows[j]) && PollJob(poll(j).job).Some?
                   then PolledRow(run.rows[j], PollJob(poll(j).job).value) else run.rows[j])
  }

  function Concluded(run: Run): Run
  {
    if run.status == InProgress && run.rows != map[] && AllRowsCompleted(run.rows) then Apply(run, Complete) else run
  }

  /** A reconcile pass in which every update after a poll is recorded. */
  function Reconciled(run: Run, a: PassAnswers): Run
  {
    var polled := Polled(run, a.poll);
    if run.workflow.None? then polled
    else if a.concludes then Concluded(Dispatched(polled, a.create))
    else Dispatched(polled, a.create)
  }

  /** A claimed run whose rows have all been inserted. */
  function Started(run: Run): Run
    requires run.workflow.Some?
  {
    run.(status := InProgress, rows := map j | j in run.workflow.value :: FRESH_ROW)
  }

  function AllFresh(jobs: seq<JobId>): map<JobId, JobRow>
  {
    map j | j in jobs :: FRESH_ROW
  }

  ghost predicate PartlyInserted(order: seq<JobId>, k: nat, run: Run, run': Run)
  {
    k <= |order| && run' == run.(rows := AllFresh(order[..k]))
  }

  /** startRun cannot order the jobs. */
  ghost predicate MustReject(run: Run)
  {
    run.workflow.None? || !AllNeedsKnown(run.workflow.value)
  }

  /** What startRun may leave: a rejected run, or the rows of the first `inserts` jobs of some order. */
  ghost predicate StartedFrom(run: Run, a: StartAnswers, run': Run)
  {
    if MustReject(run) then run' == if a.rejects then Apply(run, Reject) else run
    else
      var wf := run.workflow.value;
      exists order :: ListsEveryJobOnce(wf, order) && NeedsFirstUpToCycles(wf, order) &&
        PartlyInserted(order, if a.inserts < |order| then a.inserts else |order|, run, run')
  }

  /** startRun carries all its statements out. */
  ghost predicate StartsInFull(run: Run, a: StartAnswers)
  {
    if MustReject(run) then a.rejects else a.inserts >= |run.workflow.value|
  }

  /** What a claimed run becomes in processQueuedRuns. */
  ghost predicate ProcessedFrom(run: Run, a: StartAnswers, run': Run)
  {
    exists mid :: ProcessedVia(run, a, mid, run')
  }

  ghost predicate ProcessedVia(run: Run, a: StartAnswers, mid: Run, run': Run)
  {
    StartedFrom(run, a, mid) && run' == if StartsInFull(run, a) then DispatchedIfParsed(mid, a.create) else mid
  }

  function DispatchedIfParsed(run: Run, create: JobId -> CreateAnswer): Run
  {
    if run.workflow.Some? then Dispatched(run, create) else run
  }

  /** A queued run that has been claimed and processed. */
  ghost predicate ProcessedRun(run: Run, a: StartAnswers, run': Run)
  {
    && run.status == Queued && run'.status != Queued
    && Steps(run, run')
    && ProcessedFrom(Apply(run, Claim), a, run')
  }

  ghost predicate AllRecorded(poll: JobId -> PollAnswer)
  {
    forall j :: poll(j).recorded
  }

  /** Some pod of the job has ended. */
  predicate IsDecided(job: ClusterJob)
  {
    job.Counts? && (job.succeeded > 0 || job.failed > 0)
  }

  /** Every update after a poll is recorded. */
  ghost predicate PollsRecorded(run: Run, poll: JobId -> PollAnswer)
  {
    forall j :: j in run.rows && run.rows[j].status == InProgress && run.rows[j].onCluster && IsDecided(poll(j).job) ==>
      poll(j).recorded
  }

  /** Nothing is dispatched and the run is not concluded. */
  ghost predicate HeldBack(run: Run, run': Run)
  {
    && run' == run.(rows := run'.rows) && run'.rows.Keys == run.rows.Keys
    && forall j :: j in run.rows && run.rows[j].status == Queued ==> run'.rows[j] == run.rows[j]
  }

  /** A run in progress that has been reconciled: in full, or until an update after a poll failed. */
  ghost predicate ReconciledRun(run: Run, a: PassAnswers, run': Run)
  {
    && run.status == InProgress
    && Steps(run, run')
    && (if PollsRecorded(run, a.poll) then run' == Reconciled(run, a) else HeldBack(run, run'))
  }

  function QueuedRuns(runs: map<RunId, Run>): set<RunId>
  {
    set r | r in runs && runs[r].status == Queued
  }

  /** The runs of `done` have been claimed and processed, the others are as they were, and no run
      was passed over for a newer one. */
  ghost predicate Processed(runs: map<RunId, Run>, done: set<RunId>, start: RunId -> StartAnswers,
                            runs': map<RunId, Run>)
  {
    && runs'.Keys == runs.Keys && done <= QueuedRuns(runs)
    && (forall r :: r in runs && r !in done ==> runs'[r] == runs[r])
    && (forall r :: r in done ==> ProcessedRun(runs[r], start(r), runs'[r]))
    && (forall r, q :: r in done && q in QueuedRuns(runs) && q !in done ==> runs[r].createdAt <= runs[q].createdAt)
  }

  /** Every run in progress has been reconciled, the others are as they were. */
  ghost predicate ReconciledAll(runs: map<RunId, Run>, pass: RunId -> PassAnswers, runs': map<RunId, Run>)
  {
    runs'.Keys == runs.Keys && forall r :: r in runs ==>
      if runs[r].status == InProgress then ReconciledRun(runs[r], pass(r), runs'[r]) else runs'[r] == runs[r]
  }

  /** The table with new rows; a run that is there already stays. */
  function Joined(runs: map<RunId, Run>, arrivals: map<RunId, Run>): map<RunId, Run>
  {
    arrivals + runs
  }

  predicate AllFreshRuns(arrivals: map<RunId, Run>)
  {
    forall r :: r in arrivals ==> Fresh(arrivals[r])
  }

  /** One tick: first the queued runs, as many as can be claimed, then those in progress. */
  ghost predicate TickLeads(runs: map<RunId, Run>, t: Tick, runs': map<RunId, Run>)
  {
    exists mid, done :: TickVia(runs, t, done, mid, runs')
  }

  ghost predicate TickVia(runs: map<RunId, Run>, t: Tick, done: set<RunId>, mid: map<RunId, Run>,
                          runs': map<RunId, Run>)
  {
    var all := Joined(runs, t.arrivals);
    && Processed(all, done, t.start, mid) && (t.claims > |QueuedRuns(all)| ==> done == QueuedRuns(all))
    && ReconciledAll(mid, t.pass, runs')
  }

  /** The controller's loop over successive ticks. */
  ghost predicate TicksLead(runs: map<RunId, Run>, ticks: seq<Tick>, runs': map<RunId, Run>)
  {
    if ticks == [] then runs' == runs
    else
      var n := |ticks| - 1;
      exists mid :: TicksLead(runs, ticks[..n], mid) && TickLeads(mid, ticks[n], runs')
  }

  lemma OrderLength(wf: Workflow, order: seq<JobId>)
    requires ListsEveryJobOnce(wf, order)
    ensures |order| == |wf|
    ensures (set j | j in order) == wf.Keys
  {
    assert (set j | j in order) == wf.Keys;
    SetOfDistinct(order);
  }

  /** With every insert recorded, startRun leaves exactly the fully started run. */
  lemma FullStart(run: Run, a: StartAnswers, run': Run)
    requires run.status == Queued && run.workflow.Some? && AllNeedsKnown(run.workflow.value)
    requires a.inserts >= |run.workflow.value|
    requires StartedFrom(Apply(run, Claim), a, run')
    ensures run' == Started(run)
  {
    var claimed, wf := Apply(run, Claim), run.workflow.value;
    var order :| ListsEveryJobOnce(wf, order) && NeedsFirstUpToCycles(wf, order) &&
      PartlyInserted(order, if a.inserts < |order| then a.inserts else |order|, claimed, run');
    OrderLength(wf, order);
    assert order[..|order|] == order;
  }

  /** The rows that startRun leaves: a fresh one for each of as many jobs as inserts succeeded. */
  lemma StartedRows(run: Run, a: StartAnswers, run': Run)
    requires run.workflow.Some? && AllNeedsKnown(run.workflow.value) && StartedFrom(run, a, run')
    ensures run' == run.(rows := run'.rows) && run'.rows.Keys <= run.workflow.value.Keys
    ensures |run'.rows| == if a.inserts < |run.workflow.value| then a.inserts else |run.workflow.value|
    ensures forall j :: j in run'.rows ==> run'.rows[j] == JobRow(Queued, None, false)
  {
    var wf := run.workflow.value;
    var order :| ListsEveryJobOnce(wf, order) && NeedsFirstUpToCycles(wf, order) &&
      PartlyInserted(order, if a.inserts < |order| then a.inserts else |order|, run, run');
    OrderLength(wf, order);
    var inserted := order[..if a.inserts < |order| then a.inserts else |order|];
    SetOfDistinct(inserted);
    assert run'.rows.Keys == set j | j in inserted;
    forall j | j in inserted
      ensures j in wf
    {
      assert j in order;
    }
  }

  /** A start that fails midway dispatches nothing. */
  lemma FailedStartDispatchesNothing(run: Run, a: StartAnswers, run': Run)
    requires run.workflow.Some? && AllNeedsKnown(run.workflow.value) && ProcessedFrom(run, a, run')
    requires a.inserts < |run.workflow.value|
    ensures run' == run.(rows := run'.rows) && |run'.rows| == a.inserts
    ensures forall j :: j in run'.rows ==> run'.rows[j] == JobRow(Queued, None, false)
  {
    var mid :| ProcessedVia(run, a, mid, run');
    StartedRows(run, a, mid);
  }

  lemma DispatchKeepsCompleted(run: Run, create: JobId -> CreateAnswer, j: JobId)
    requires j in run.rows && run.rows[j].status == Completed
    ensures j in Dispatched(run, create).rows && Dispatched(run, create).rows[j] == run.rows[j]
  {
  }

  /** What the polls leave, from the pods that Kubernetes counts: only the rows of jobs on the cluster
      change, only with a positive count, and a succeeded pod outweighs failed ones. */
  lemma PolledRows(run: Run, poll: JobId -> PollAnswer, j: JobId)
    requires j in run.rows
    ensures var row, job := run.rows[j], poll(j).job;
            j in Polled(run, poll).rows &&
            Polled(run, poll).rows[j] ==
            if row.status != InProgress || !row.onCluster || job.Unknown? then row
            else if job.succeeded > 0 then JobRow(Completed, Some(Success), true)
            else if job.failed > 0 then JobRow(Completed, Some(Failure), true)
            else row
  {
  }

  /** The needs of `j` are all met by the time a pass dispatches: they had succeeded before it, or
      their polls in it say so. */
  predicate NeedsMetInPass(wf: Workflow, rows: map<JobId, JobRow>, poll: JobId -> PollAnswer, j: JobId)
  {
    j in wf && forall d :: d in Normalized(wf[j].needs) ==>
      && d in rows
      && ((rows[d].status == Completed && rows[d].conclusion == Some(Success)) ||
          (rows[d].status == InProgress && rows[d].onCluster && poll(d).job.Counts? && poll(d).job.succeeded > 0))
  }

  lemma ReadyInPass(run: Run, poll: JobId -> PollAnswer, j: JobId)
    requires j in run.rows && run.rows[j].status == Queued && run.workflow.Some?
    ensures IsReady(Polled(run, poll), j) <==> NeedsMetInPass(run.workflow.value, run.rows, poll, j)
  {
    var wf, polled := run.workflow.value, Polled(run, poll);
    PolledRows(run, poll, j);
    if j in wf {
      forall d | d in Normalized(wf[j].needs) && d in run.rows
        ensures IsSuccess(polled.rows, d) <==>
                (run.rows[d].status == Completed && run.rows[d].conclusion == Some(Success)) ||
                (run.rows[d].status == InProgress && run.rows[d].onCluster && poll(d).job.Counts? &&
                 poll(d).job.succeeded > 0)
      {
        PolledRows(run, poll, d);
      }
    }
  }

  /** What a pass whose updates after polls are recorded does to each row: a job on the cluster follows
      its pods; a queued job whose needs are met by then is handed over, and its row says so if that
      update is recorded; all else stays. */
  lemma ReconciledRows(run: Run, a: PassAnswers, j: JobId)
    requires j in run.rows && run.workflow.Some?
    ensures var row, job, rows := run.rows[j], a.poll(j).job, Reconciled(run, a).rows;
            && j in rows
            && (row.status != Queued ==>
                 rows[j] == if row.status == Completed || !row.onCluster || job.Unknown? then row
                            else if job.succeeded > 0 then JobRow(Completed, Some(Success), true)
                            else if job.failed > 0 then JobRow(Completed, Some(Failure), true)
                            else row)
            && (row.status == Queued ==>
                 rows[j] == if !NeedsMetInPass(run.workflow.value, run.rows, a.poll, j) then row
                            else if !a.create(j).recorded then row
                            else if a.create(j).accepted then JobRow(InProgress, row.conclusion, true)
                            else JobRow(Completed, Some(Failure), row.onCluster))
  {
    PolledRows(run, a.poll, j);
    if run.rows[j].status == Queued {
      ReadyInPass(run, a.poll, j);
    }
  }

  /** And to the run: it is completed exactly when it was in progress and has rows, all of them
      completed by now, and as a failure exactly when one of them failed. */
  lemma ReconciledStatus(run: Run, a: PassAnswers)
    requires run.workflow.Some? && run.status == InProgress && run.conclusion == None
    ensures var after := Reconciled(run, a);
            && (after.status == Completed <==>
                 && a.concludes && after.rows != map[]
                 && forall j :: j in after.rows ==> after.rows[j].status == Completed)
            && after.conclusion == if after.status != Completed then None
                                   else if exists j :: j in after.rows && after.rows[j].conclusion == Some(Failure)
                                   then Some(Failure) else Some(Success)
  {
  }

  lemma PolledVerdict(run: Run, a: PassAnswers, j: JobId)
    requires j in run.rows && CanPoll(run.rows[j]) && a.poll(j).job.Counts?
    ensures a.poll(j).job.succeeded > 0 ==> IsSuccess(Reconciled(run, a).rows, j)
    ensures a.poll(j).job.succeeded <= 0 < a.poll(j).job.failed ==> IsFailure(Reconciled(run, a).rows, j)
  {
    var polled := Polled(run, a.poll);
    if polled.rows[j].status == Completed {
      DispatchKeepsCompleted(polled, a.create, j);
    }
  }

  lemma VerdictKept(run: Run, later: Run, j: JobId)
    requires Reachable(run) && Steps(run, later)
    ensures IsSuccess(run.rows, j) ==> IsSuccess(later.rows, j)
    ensures IsFailure(run.rows, j) ==>
              IsFailure(later.rows, j) && (later.status == Completed ==> later.conclusion == Some(Failure))
  {
    RunsGoForward(run, later);
    StepsKeepReachable(run, later);
    ReachableHasInv(later);
  }

  /** What Kubernetes counts for a polled job is final: one succeeded pod makes it a success for
      good, failed pods alone make it a failure for good, and then the run never ends in success. */
  lemma PolledVerdictIsFinal(run: Run, a: PassAnswers, next: Run, later: Run, j: JobId)
    requires Reachable(run) && AllRecorded(a.poll) && ReconciledRun(run, a, next) && Steps(next, later)
    requires j in run.rows && run.rows[j].status == InProgress && a.poll(j).job.Counts?
    ensures a.poll(j).job.succeeded > 0 ==> IsSuccess(later.rows, j)
    ensures a.poll(j).job.succeeded <= 0 < a.poll(j).job.failed ==>
              IsFailure(later.rows, j) && (later.status == Completed ==> later.conclusion == Some(Failure))
  {
    ReachableHasInv(run);
    assert RowWellFormed(run.rows[j]);
    PolledVerdict(run, a, j);
    StepsKeepReachable(run, next);
    VerdictKept(next, later, j);
  }

  // ----- proof steps of the loops below -----

  /** Midway through the dispatch loop: of the `ready` jobs, those in `rest` are still to come
      and those in `sent` were accepted. */
  ghost predicate InDispatch(start: Run, ready: set<JobId>, create: JobId -> CreateAnswer, rest: set<JobId>,
                             sent: set<JobId>, run: Run)
  {
    && run == start.(rows := DispatchedRows(start.rows, ready - rest, create),
                     created := start.created + multiset(sent))
    && (forall j :: j in rest ==> j in start.rows && start.rows[j].status == Queued)
    && (forall j :: j in sent <==> j in ready && j !in rest && create(j).accepted)
  }

  lemma ReadinessKept(start: Run, create: JobId -> CreateAnswer, rest: set<JobId>, sent: set<JobId>, run: Run, j: JobId)
    requires InDispatch(start, ReadyJobs(start), create, rest, sent, run) && j in rest
    ensures j in ReadyJobs(start) <==> IsReady(run, j)
  {
  }

  lemma DispatchOne(start: Run, ready: set<JobId>, create: JobId -> CreateAnswer, rest: set<JobId>, sent: set<JobId>,
                    run: Run, j: JobId)
    requires InDispatch(start, ready, create, rest, sent, run) && j in rest && ready <= start.rows.Keys
    ensures if j in ready
            then InDispatch(start, ready, create, rest - {j}, if create(j).accepted then sent + {j} else sent,
                            Apply(run, Dispatch(j, create(j))))
            else InDispatch(start, ready, create, rest - {j}, sent, run)
  {
  }

  lemma DispatchDone(start: Run, create: JobId -> CreateAnswer, sent: set<JobId>, run: Run)
    requires InDispatch(start, ReadyJobs(start), create, {}, sent, run)
    ensures run == Dispatched(start, create)
  {
  }

  lemma DispatchStart(start: Run, create: JobId -> CreateAnswer, rest: set<JobId>)
    requires rest == set j | j in start.rows && start.rows[j].status == Queued
    ensures InDispatch(start, ReadyJobs(start), create, rest, {}, start)
  {
  }

  lemma NoRowsNoDispatch(run: Run, create: JobId -> CreateAnswer)
    requires run.rows == map[]
    ensures Dispatched(run, create) == run
  {
  }

  /** Midway through the poll loop. */
  ghost predicate InPoll(start: Run, poll: JobId -> PollAnswer, rest: set<JobId>, run: Run)
  {
    && run == start.(rows := run.rows)
    && run.rows.Keys == start.rows.Keys && rest <= start.rows.Keys
    && (forall j :: j in start.rows ==>
         run.rows[j] == if j in rest then start.rows[j] else Polled(start, poll).rows[j])
  }

  lemma PollOne(start: Run, poll: JobId -> PollAnswer, rest: set<JobId>, run: Run, j: JobId)
    requires InPoll(start, poll, rest, run) && j in rest
    ensures if CanPoll(start.rows[j]) && PollJob(poll(j).job).Some?
            then Enabled(run, Poll(j, PollJob(poll(j).job).value)) &&
                 InPoll(start, poll, rest - {j}, Apply(run, Poll(j, PollJob(poll(j).job).value)))
            else InPoll(start, poll, rest - {j}, run)
  {
  }

  lemma PollDone(start: Run, poll: JobId -> PollAnswer, run: Run)
    requires InPoll(start, poll, {}, run)
    ensures run == Polled(start, poll)
  {
  }

  /** What the poll loop has done at any point, from the counts. */
  lemma PollSoFar(start: Run, poll: JobId -> PollAnswer, rest: set<JobId>, run: Run)
    requires InPoll(start, poll, rest, run)
    ensures HeldBack(start, run)
    ensures forall j :: j in start.rows ==>
              var row, job := start.rows[j], poll(j).job;
              if row.status == InProgress && row.onCluster && job.Counts? && (job.succeeded > 0 || job.failed > 0)
              then j in rest ||
                   run.rows[j] == JobRow(Completed, Some(if job.succeeded > 0 then Success else Failure), true)
              else run.rows[j] == row
  {
    forall j | j in start.rows {
      PolledRows(start, poll, j);
    }
  }

  /** The updates after the polls made so far are recorded. */
  ghost predicate RecordedBut(start: Run, poll: JobId -> PollAnswer, rest: set<JobId>)
  {
    forall j :: j in start.rows && j !in rest && CanPoll(start.rows[j]) && IsDecided(poll(j).job) ==> poll(j).recorded
  }

  lemma FreshRunsAreReachable(arrivals: map<RunId, Run>)
    requires AllFreshRuns(arrivals)
    ensures forall r :: r in arrivals ==> Reachable(arrivals[r])
  {
    forall r | r in arrivals
      ensures Reachable(arrivals[r])
    {
      NoStep(arrivals[r]);
    }
  }

  lemma StepsKeepAllReachable(orig: map<RunId, Run>, runs: map<RunId, Run>)
    requires runs.Keys == orig.Keys && forall r :: r in orig ==> Reachable(orig[r])
    requires forall r :: r in orig ==> runs[r] == orig[r] || Steps(orig[r], runs[r])
    ensures forall r :: r in runs ==> Reachable(runs[r])
  {
    forall r | r in runs
      ensures Reachable(runs[r])
    {
      if runs[r] != orig[r] {
        StepsKeepReachable(orig[r], runs[r]);
      }
    }
  }

  lemma ClaimThenProcess(run: Run, a: StartAnswers, run': Run)
    requires run.status == Queued
    requires ProcessedFrom(Apply(run, Claim), a, run') && Steps(Apply(run, Claim), run')
    ensures ProcessedRun(run, a, run')
  {
    NoStep(run);
    OneMoreStep(run, run, Claim);
    StepsTransitive(run, Apply(run, Claim), run');
    var mid :| ProcessedVia(Apply(run, Claim), a, mid, run');
  }

  /** Midway through the loop over the queued runs: as in Processed, for any notion of `good`. */
  ghost predicate InProcess(orig: map<RunId, Run>, done: set<RunId>, good: (RunId, Run) -> bool, runs: map<RunId, Run>)
  {
    && runs.Keys == orig.Keys && done <= QueuedRuns(orig)
    && (forall r :: r in orig && r !in done ==> runs[r] == orig[r])
    && (forall r :: r in done ==> good(r, runs[r]) && runs[r].status != Queued)
    && (forall r, q :: r in done && q in QueuedRuns(orig) && q !in done ==> orig[r].createdAt <= orig[q].createdAt)
  }

  lemma ProcessOneMore(orig: map<RunId, Run>, done: set<RunId>, good: (RunId, Run) -> bool, runs: map<RunId, Run>,
                       r: RunId, run: Run)
    requires InProcess(orig, done, good, runs) && r in runs && runs[r].status == Queued
    requires good(r, run) && run.status != Queued
    requires forall q :: q in QueuedRuns(runs) ==> runs[r].createdAt <= runs[q].createdAt
    ensures r !in done && runs[r] == orig[r]
    ensures InProcess(orig, done + {r}, good, runs[r := run])
  {
    forall q | q in QueuedRuns(orig) && q !in done
      ensures orig[r].createdAt <= orig[q].createdAt
    {
      assert q in QueuedRuns(runs);
    }
  }

  lemma NoneLeftToClaim(orig: map<RunId, Run>, done: set<RunId>, good: (RunId, Run) -> bool, runs: map<RunId, Run>)
    requires InProcess(orig, done, good, runs)
    ensures |done| <= |QueuedRuns(orig)|
    ensures QueuedRuns(runs) == {} ==> done == QueuedRuns(orig)
  {
    SubsetIsSmaller(done, QueuedRuns(orig));
    forall q | q in QueuedRuns(orig) && q !in done
      ensures q in QueuedRuns(runs)
    {
    }
  }

  lemma ProcessedKeepsReachable(orig: map<RunId, Run>, done: set<RunId>, start: RunId -> StartAnswers,
                                runs: map<RunId, Run>)
    requires Processed(orig, done, start, runs) && forall r :: r in orig ==> Reachable(orig[r])
    ensures forall r :: r in runs ==> Reachable(runs[r])
  {
    StepsKeepAllReachable(orig, runs);
  }

  /** Midway through the loop over the runs in progress: as in ReconciledAll, for any notion of `good`. */
  ghost predicate InReconcile(orig: map<RunId, Run>, good: (RunId, Run) -> bool, rest: set<RunId>,
                              runs: map<RunId, Run>)
  {
    && runs.Keys == orig.Keys && rest <= orig.Keys
    && (forall r :: r in rest ==> orig[r].status == InProgress)
    && (forall r :: r in orig ==>
         if orig[r].status == InProgress && r !in rest then good(r, runs[r]) else runs[r] == orig[r])
  }

  lemma ReconcileOneMore(orig: map<RunId, Run>, good: (RunId, Run) -> bool, rest: set<RunId>, runs: map<RunId, Run>,
                         r: RunId, run: Run)
    requires InReconcile(orig, good, rest, runs) && r in rest && good(r, run)
    ensures InReconcile(orig, good, rest - {r}, runs[r := run])
  {
  }

  lemma InsertOne(order: seq<JobId>, i: nat, start: Run, run: Run)
    requires i < |order| && NoDuplicates(order) && PartlyInserted(order, i, start, run)
    ensures order[i] !in run.rows
    ensures PartlyInserted(order, i + 1, start, run.(rows := run.rows[order[i] := FRESH_ROW]))
  {
  }

  lemma CountAll(rows: map<JobId, JobRow>)
    ensures AllRowsCompleted(rows) <==> |set j | j in rows && rows[j].status == Completed| == |rows|
    ensures |set j | j in rows && rows[j].status == Completed| <= |rows|
  {
    var done := set j | j in rows && rows[j].status == Completed;
    assert rows.Keys == done + (rows.Keys - done);
    assert |rows| == |done| + |rows.Keys - done|;
    if |rows| == |done| {
      assert rows.Keys - done == {};
      assert forall j :: j in rows ==> j in done;
    }
    if AllRowsCompleted(rows) {
      assert done == rows.Keys;
    }
  }

  /** Some row has a conclusion. */
  predicate SomeKnown(rows: map<JobId, JobRow>)
  {
    exists j :: j in rows && rows[j].conclusion.Some?
  }

  lemma NoneKnownNoneCompleted(run: Run)
    requires Reachable(run) && !SomeKnown(run.rows)
    ensures Concluded(run) == run
  {
    ReachableHasInv(run);
    if run.rows != map[] {
      var j :| j in run.rows;
      assert RowWellFormed(run.rows[j]);
    }
  }

  predicate QueuedHaveNoRows(runs: map<RunId, Run>)
  {
    forall r :: r in runs && runs[r].status == Queued ==> runs[r].rows == map[]
  }

  lemma ReachableQueuedHaveNoRows(runs: map<RunId, Run>)
    requires forall r :: r in runs ==> Reachable(runs[r])
    ensures QueuedHaveNoRows(runs)
  {
    forall r | r in runs && runs[r].status == Queued
      ensures runs[r].rows == map[]
    {
      ReachableHasInv(runs[r]);
    }
  }

  class Controller {
    var runs: map<RunId, Run>

    ghost predicate Valid()
      reads this
    {
      forall r :: r in runs ==> Reachable(runs[r])
    }

    constructor (runs: map<RunId, Run>)
      requires forall r :: r in runs ==> Reachable(runs[r])
      ensures Valid() && this.runs == runs
    {
      this.runs := runs;
    }

    // ----- dispatching -----

    method CompletedJobs(r: RunId) returns (out: map<JobId, Conclusion>)
      requires r in runs
      ensures forall d :: (d in out && out[d] == Success) <==> IsSuccess(runs[r].rows, d)
    {
      var rows := runs[r].rows;
      out := map[];
      var rest := set j | j in rows && rows[j].status == Completed;
      while rest != {}
        invariant forall d :: d in out ==>
                    d in rows && rows[d].status == Completed && rows[d].conclusion == Some(out[d])
        invariant forall d :: d in rows && rows[d].status == Completed && rows[d].conclusion.Some? ==>
                    d in rest || d in out
        decreases rest
      {
        var j :| j in rest;
        rest := rest - {j};
        if j in rows && rows[j].status == Completed && rows[j].conclusion.Some? {
          out := out[j := rows[j].conclusion.value];
        }
      }
    }

    method NeedsSatisfied(needs: Yaml, completed: map<JobId, Conclusion>) returns (ok: bool)
      ensures ok <==> forall d :: d in Normalized(needs) ==> d in completed && completed[d] == Success
    {
      var deps := NormalizeNeeds(needs);
      for i := 0 to |deps|
        invariant forall k :: 0 <= k < i ==> deps[k] in completed && completed[deps[k]] == Success
      {
        if deps[i] !in completed || completed[deps[i]] != Success {
          return false;
        }
      }
      return true;
    }

    /** Create the Kubernetes job, then record the outcome; a refused Create fails the job. */
    method DispatchJob(r: RunId, j: JobId, answer: CreateAnswer)
      requires r in runs && j in runs[r].rows && runs[r].rows[j].status == Queued
      modifies this
      ensures runs == old(runs)[r := Apply(old(runs[r]), Dispatch(j, answer))]
    {
      var run := runs[r];
      if answer.accepted {
        run := run.(created := run.created + multiset{j});
        if answer.recorded && run.rows[j].status == Queued {
          run := run.(rows := run.rows[j := run.rows[j].(status := InProgress, onCluster := true)]);
        }
      } else if answer.recorded {
        run := run.(rows := run.rows[j := run.rows[j].(status := Completed, conclusion := Some(Failure))]);
      }
      assert run.rows == Apply(old(runs[r]), Dispatch(j, answer)).rows;
      runs := runs[r := run];
    }

    /** False when the workflow does not parse. */
    method DispatchReadyJobs(r: RunId, create: JobId -> CreateAnswer) returns (ok: bool)
      requires r in runs
      modifies this
      ensures runs == old(runs)[r := if ok then Dispatched(old(runs[r]), create) else old(runs[r])]
      ensures ok == old(runs[r]).workflow.Some?
      ensures Steps(old(runs[r]), runs[r])
    {
      ghost var start := runs[r];
      NoStep(start);
      assert runs == runs[r := start];
      if runs[r].workflow.None? {
        return false;
      }
      var wf := runs[r].workflow.value;
      var completed := CompletedJobs(r);
      var rest := set j | j in runs[r].rows && runs[r].rows[j].status == Queued;
      ghost var sent: set<JobId> := {};
      DispatchStart(start, create, rest);
      while rest != {}
        invariant r in runs && runs == old(runs)[r := runs[r]]
        invariant InDispatch(start, ReadyJobs(start), create, rest, sent, runs[r])
        invariant Steps(start, runs[r])
        decreases rest
      {
        var j :| j in rest;
        ghost var before := runs[r];
        ReadinessKept(start, create, rest, sent, before, j);
        DispatchOne(start, ReadyJobs(start), create, rest, sent, before, j);
        rest := rest - {j};
        var satisfied := false;
        if j in wf {
          satisfied := NeedsSatisfied(wf[j].needs, completed);
        }
        if satisfied {
          OneMoreStep(start, before, Dispatch(j, create(j)));
          DispatchJob(r, j, create(j));
          sent := if create(j).accepted then sent + {j} else sent;
        }
      }
      DispatchDone(start, create, sent, runs[r]);
      return true;
    }

    // ----- claiming and starting -----

    /** The oldest queued run, moved to in_progress. */
    method ClaimQueuedRun() returns (claimed: Option<RunId>)
      modifies this
      ensures claimed.None? ==> runs == old(runs) && forall r :: r in runs ==> runs[r].status != Queued
      ensures claimed.Some? ==>
                && claimed.value in old(runs) && old(runs)[claimed.value].status == Queued
                && (forall q :: q in old(runs) && old(runs)[q].status == Queued ==>
                     old(runs)[claimed.value].createdAt <= old(runs)[q].createdAt)
                && runs == old(runs)[claimed.value := Apply(old(runs)[claimed.value], Claim)]
    {
      var queued := set r | r in runs && runs[r].status == Queued;
      if queued == {} {
        assert forall r :: r in runs ==> r !in queued;
        return None;
      }
      ghost var rows := runs;
      FirstExists<RunId>(queued, r => if r in rows then rows[r].createdAt else 0);
      var r :| r in queued && forall q :: q in queued ==> runs[r].createdAt <= runs[q].createdAt;
      runs := runs[r := runs[r].(status := InProgress)];
      return Some(r);
    }

    /** Fails a claimed run whose jobs cannot be ordered; false when the update fails. */
    method RejectRun(r: RunId, recorded: bool) returns (ok: bool)
      requires r in runs && runs[r].status == InProgress && runs[r].rows == map[] && MustReject(runs[r])
      modifies this
      ensures runs == old(runs)[r := if recorded then Apply(old(runs[r]), Reject) else old(runs[r])]
      ensures ok == recorded && Steps(old(runs[r]), runs[r])
    {
      NoStep(runs[r]);
      if !recorded {
        assert runs == runs[r := runs[r]];
        return false;
      }
      OneMoreStep(runs[r], runs[r], Reject);
      runs := runs[r := runs[r].(status := Completed, conclusion := Some(Failure))];
      return true;
    }

    /** Inserts the job rows of a claimed run, or fails it; false when a statement failed. */
    method StartRun(r: RunId, a: StartAnswers) returns (ok: bool)
      requires r in runs && runs[r].status == InProgress && runs[r].rows == map[]
      modifies this
      ensures r in runs && runs == old(runs)[r := runs[r]]
      ensures StartedFrom(old(runs[r]), a, runs[r])
      ensures ok <==> StartsInFull(old(runs[r]), a)
      ensures Steps(old(runs[r]), runs[r])
    {
      ghost var start := runs[r];
      NoStep(start);
      if runs[r].workflow.None? {
        ok := RejectRun(r, a.rejects);
        return;
      }
      var wf := runs[r].workflow.value;
      var order := JobOrder(wf);
      if order.Err? {
        ok := RejectRun(r, a.rejects);
        return;
      }
      OrderLength(wf, order.value);
      assert PartlyInserted(order.value, 0, start, start);
      for i := 0 to |order.value|
        invariant r in runs && runs == old(runs)[r := runs[r]]
        invariant i <= a.inserts && PartlyInserted(order.value, i, start, runs[r])
        invariant Steps(start, runs[r])
      {
        var j := order.value[i];
        if i == a.inserts {
          return false;
        }
        OneMoreStep(start, runs[r], Insert(j));
        InsertOne(order.value, i, start, runs[r]);
        if j !in runs[r].rows {
          runs := runs[r := runs[r].(rows := runs[r].rows[j := FRESH_ROW])];
        }
      }
      return true;
    }

    /** Starts a claimed run and dispatches its first jobs, unless a statement of the start failed. */
    method ProcessClaimedRun(r: RunId, a: StartAnswers)
      requires r in runs && runs[r].status == InProgress && runs[r].rows == map[]
      modifies this
      ensures r in runs && runs == old(runs)[r := runs[r]]
      ensures ProcessedFrom(old(runs[r]), a, runs[r])
      ensures Steps(old(runs[r]), runs[r])
    {
      ghost var start := runs[r];
      var ok := StartRun(r, a);
      ghost var mid := runs[r];
      if ok {
        var parsed := DispatchReadyJobs(r, a.create);
        StepsTransitive(start, mid, runs[r]);
      }
      assert ProcessedVia(start, a, mid, runs[r]);
    }

    /** Claims the oldest queued run and processes it; None when no run is queued. */
    method ProcessOldest(start: RunId -> StartAnswers) returns (claimed: Option<RunId>)
      requires QueuedHaveNoRows(runs)
      modifies this
      ensures QueuedHaveNoRows(runs)
      ensures claimed.None? ==> runs == old(runs) && QueuedRuns(runs) == {}
      ensures claimed.Some? ==>
                var r := claimed.value;
                && r in old(runs) && r in runs && runs == old(runs)[r := runs[r]]
                && ProcessedRun(old(runs)[r], start(r), runs[r])
                && forall q :: q in QueuedRuns(old(runs)) ==> old(runs)[r].createdAt <= old(runs)[q].createdAt
    {
      claimed := ClaimQueuedRun();
      if claimed.None? {
        return;
      }
      var r := claimed.value;
      ghost var origin := old(runs)[r];
      ProcessClaimedRun(r, start(r));
      ClaimThenProcess(origin, start(r), runs[r]);
    }

    /** Claims and processes queued runs until none is left or the claim after `claims` others fails. */
    method ProcessUpTo(claims: nat, start: RunId -> StartAnswers, ghost good: (RunId, Run) -> bool)
      returns (ok: bool, ghost done: set<RunId>)
      requires QueuedHaveNoRows(runs)
      requires forall r, run :: r in runs && ProcessedRun(runs[r], start(r), run) ==> good(r, run)
      modifies this
      ensures InProcess(old(runs), done, good, runs)
      ensures if ok then QueuedRuns(runs) == {} && |done| <= claims else |done| == claims
    {
      ghost var orig := runs;
      var claimedSoFar := 0;
      done := {};
      while true
        invariant QueuedHaveNoRows(runs) && InProcess(orig, done, good, runs)
        invariant claimedSoFar == |done| <= claims
        decreases claims - claimedSoFar
      {
        if claimedSoFar == claims {
          return false, done;
        }
        ghost var before := runs;
        var claimed := ProcessOldest(start);
        if claimed.None? {
          return true, done;
        }
        ProcessOneMore(orig, done, good, before, claimed.value, runs[claimed.value]);
        done := done + {claimed.value};
        claimedSoFar := claimedSoFar + 1;
      }
    }

    /** Claims the queued runs, oldest first, starts them and dispatches their first jobs; false
        when the claim after `claims` others failed. */
    method ProcessQueuedRuns(claims: nat, start: RunId -> StartAnswers) returns (ok: bool, ghost done: set<RunId>)
      requires Valid()
      modifies this
      ensures Valid() && Processed(old(runs), done, start, runs)
      ensures if ok then done == QueuedRuns(old(runs)) else |done| == claims
      ensures claims > |QueuedRuns(old(runs))| ==> ok
    {
      ghost var orig := runs;
      ghost var good := (r: RunId, run: Run) => r in orig && ProcessedRun(orig[r], start(r), run);
      ReachableQueuedHaveNoRows(runs);
      ok, done := ProcessUpTo(claims, start, good);
      NoneLeftToClaim(orig, done, good, runs);
      ProcessedKeepsReachable(orig, done, start, runs);
    }

    // ----- reconciling -----

    /** Polls the run's jobs; false when an update failed. */
    method PollRun(r: RunId, poll: JobId -> PollAnswer) returns (ok: bool)
      requires r in runs
      modifies this
      ensures r in runs && runs == old(runs)[r := runs[r]]
      ensures Steps(old(runs[r]), runs[r])
      ensures ok ==> runs[r] == Polled(old(runs[r]), poll)
      ensures ok <==> PollsRecorded(old(runs[r]), poll)
      ensures HeldBack(old(runs[r]), runs[r])
      ensures forall j :: j in old(runs[r]).rows ==>
                var row, job := old(runs[r]).rows[j], poll(j).job;
                if row.status == InProgress && row.onCluster && job.Counts? && (job.succeeded > 0 || job.failed > 0)
                then ok ==>
                       runs[r].rows[j] == JobRow(Completed, Some(if job.succeeded > 0 then Success else Failure), true)
                else runs[r].rows[j] == row
    {
      ghost var start := runs[r];
      NoStep(start);
      assert runs == runs[r := start];
      var states := runs[r].rows;
      var rest := states.Keys;
      while rest != {}
        invariant r in runs && runs == old(runs)[r := runs[r]]
        invariant InPoll(start, poll, rest, runs[r])
        invariant RecordedBut(start, poll, rest)
        invariant Steps(start, runs[r])
        decreases rest
      {
        var j :| j in rest;
        ghost var before := runs[r];
        PollOne(start, poll, rest, before, j);
        rest := rest - {j};
        if states[j].status == InProgress && states[j].onCluster {
          var conclusion := PollJob(poll(j).job);
          if conclusion.Some? {
            if !poll(j).recorded {
              PollSoFar(start, poll, rest + {j}, before);
              return false;
            }
            OneMoreStep(start, before, Poll(j, conclusion.value));
            var row := runs[r].rows[j].(status := Completed, conclusion := conclusion);
            runs := runs[r := runs[r].(rows := runs[r].rows[j := row])];
          }
        }
      }
      PollDone(start, poll, runs[r]);
      PollSoFar(start, poll, {}, runs[r]);
      return true;
    }

    /** Completes a run all of whose rows are completed; false when the count does not scan or
        the completing update fails. */
    method ConcludeRun(r: RunId, recorded: bool) returns (ok: bool)
      requires r in runs && Reachable(runs[r])
      modifies this
      ensures runs == old(runs)[r := if recorded then Concluded(old(runs[r])) else old(runs[r])]
      ensures Steps(old(runs[r]), runs[r])
      ensures ok <==> SomeKnown(old(runs[r]).rows) && (AllRowsCompleted(old(runs[r]).rows) ==> recorded)
    {
      var run := runs[r];
      NoStep(run);
      assert runs == runs[r := run];
      var total, done := |run.rows|, |set j | j in run.rows && run.rows[j].status == Completed|;
      CountAll(run.rows);
      if !SomeKnown(run.rows) {
        // BOOL_OR over no known conclusion is NULL, which does not scan into a bool
        NoneKnownNoneCompleted(run);
        return false;
      }
      if total == 0 || done < total {
        return true;
      }
      if !recorded {
        return false;
      }
      if run.status == InProgress {
        OneMoreStep(run, run, Complete);
        var conclusion := if SomeRowFailed(run.rows) then Failure else Success;
        runs := runs[r := run.(status := Completed, conclusion := Some(conclusion))];
      }
      return true;
    }

    /** Polls the run's jobs, dispatches what became ready and completes the run if all is done.
        False when a database answer stopped the pass. */
    method ReconcileRun(r: RunId, a: PassAnswers) returns (ok: bool)
      requires r in runs && Reachable(runs[r])
      modifies this
      ensures r in runs && runs == old(runs)[r := runs[r]]
      ensures Steps(old(runs[r]), runs[r])
      ensures if PollsRecorded(old(runs[r]), a.poll) then runs[r] == Reconciled(old(runs[r]), a)
              else HeldBack(old(runs[r]), runs[r]) && !ok
      ensures forall j :: j in old(runs[r]).rows && old(runs[r]).rows[j].status == InProgress &&
                          (a.poll(j).job.Counts? ==> a.poll(j).job.succeeded <= 0 && a.poll(j).job.failed <= 0) ==>
                j in runs[r].rows && runs[r].rows[j] == old(runs[r]).rows[j]
    {
      ghost var start := runs[r];
      var polled := PollRun(r, a.poll);
      if !polled {
        return false;
      }
      ghost var mid := runs[r];
      var dispatched := DispatchReadyJobs(r, a.create);
      ghost var last := runs[r];
      StepsTransitive(start, mid, last);
      if !dispatched {
        return false;
      }
      StepsKeepReachable(start, last);
      ok := ConcludeRun(r, a.concludes);
      StepsTransitive(start, last, runs[r]);
    }

    /** Reconciles every run that is in progress; the others are left alone. */
    method ReconcileInProgressRuns(pass: RunId -> PassAnswers)
      requires Valid()
      modifies this
      ensures Valid() && ReconciledAll(old(runs), pass, runs)
    {
      ghost var orig := runs;
      ghost var good := (r: RunId, run: Run) => r in orig && ReconciledRun(orig[r], pass(r), run);
      var rest := set r | r in runs && runs[r].status == InProgress;
      while rest != {}
        invariant InReconcile(orig, good, rest, runs)
        decreases rest
      {
        var r :| r in rest;
        ghost var before := runs;
        var stopped := ReconcileRun(r, pass(r));
        ReconcileOneMore(orig, good, rest, before, r, runs[r]);
        rest := rest - {r};
      }
      StepsKeepAllReachable(orig, runs);
    }

    // ----- the loop -----

    method RunTick(t: Tick)
      requires Valid() && AllFreshRuns(t.arrivals)
      modifies this
      ensures Valid() && TickLeads(old(runs), t, runs)
    {
      ghost var orig := runs;
      FreshRunsAreReachable(t.arrivals);
      runs := Joined(runs, t.arrivals);
      var ok, done := ProcessQueuedRuns(t.claims, t.start);
      ghost var mid := runs;
      ReconcileInProgressRuns(t.pass);
      assert TickVia(orig, t, done, mid, runs);
    }

    /** The controller's loop, until it is stopped after these ticks. */
    method Loop(ticks: seq<Tick>)
      requires Valid() && forall i :: 0 <= i < |ticks| ==> AllFreshRuns(ticks[i].arrivals)
      modifies this
      ensures Valid() && TicksLead(old(runs), ticks, runs)
    {
      ghost var orig := runs;
      for i := 0 to |ticks|
        invariant Valid() && TicksLead(orig, ticks[..i], runs)
      {
        assert ticks[..i + 1][..i] == ticks[..i];
        RunTick(ticks[i]);
      }
      assert ticks[..|ticks|] == ticks;
    }
  }
}
