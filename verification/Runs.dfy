// One workflow run and its job rows as the controller changes them, one SQL statement at a
// time: cmd/actions-controller/main.go.
//
// A `Step` is one such statement (together with the Kubernetes call before it). A run of the
// controller, whatever the database and Kubernetes answer and wherever it is stopped and
// restarted, is a sequence of these steps, so the safety results below quantify over all
// such sequences.
module Runs {
  import opened Wrappers
  import opened Workflows

  datatype Status = Queued | InProgress | Completed

  datatype Conclusion = Success | Failure

  /** A row of workflow_jobs; `onCluster` says that k8s_job_name is not NULL. */
  datatype JobRow = JobRow(status: Status, conclusion: Option<Conclusion>, onCluster: bool)

  /** A row of workflow_runs with its job rows.
      `workflow` is the parsed content (None when it does not parse), fixed for the run's life;
      `created` counts the accepted Kubernetes Create calls per job. */
  datatype Run = Run(
    repo: string, sha: string, createdAt: int,
    workflow: Option<Workflow>,
    status: Status, conclusion: Option<Conclusion>,
    rows: map<JobId, JobRow>,
    created: multiset<JobId>)

  const FRESH_ROW := JobRow(Queued, None, false)

  // ----- one step -----

  /** What the environment did when a job was dispatched: did Create succeed, did the UPDATE. */
  datatype CreateAnswer = CreateAnswer(accepted: bool, recorded: bool)

  datatype Step =
    | Claim
    | Reject
    | Insert(job: JobId)
    | Dispatch(job: JobId, answer: CreateAnswer)
    | Poll(job: JobId, seen: Conclusion)
    | Complete

  predicate IsSuccess(rows: map<JobId, JobRow>, j: JobId)
  {
    j in rows && rows[j].status == Completed && rows[j].conclusion == Some(Success)
  }

  predicate IsFailure(rows: map<JobId, JobRow>, j: JobId)
  {
    j in rows && rows[j].status == Completed && rows[j].conclusion == Some(Failure)
  }

  predicate NeedsMet(wf: Workflow, rows: map<JobId, JobRow>, j: JobId)
  {
    j in wf && forall d :: d in Normalized(wf[j].needs) ==> IsSuccess(rows, d)
  }

  predicate IsReady(run: Run, j: JobId)
  {
    j in run.rows && run.rows[j].status == Queued && run.workflow.Some? && NeedsMet(run.workflow.value, run.rows, j)
  }

  function DispatchedRow(row: JobRow, answer: CreateAnswer): JobRow
  {
    if !answer.recorded then row
    else if answer.accepted then row.(status := InProgress, onCluster := true)
    else row.(status := Completed, conclusion := Some(Failure))
  }

  predicate CanPoll(row: JobRow)
  {
    row.status == InProgress && row.onCluster
  }

  function PolledRow(row: JobRow, answer: Conclusion): JobRow
  {
    row.(status := Completed, conclusion := Some(answer))
  }

  predicate AllRowsCompleted(rows: map<JobId, JobRow>)
  {
    forall j :: j in rows ==> rows[j].status == Completed
  }

  predicate SomeRowFailed(rows: map<JobId, JobRow>)
  {
    exists j :: j in rows && rows[j].conclusion == Some(Failure)
  }

  ghost predicate Enabled(run: Run, e: Step)
  {
    match e
    case Claim => run.status == Queued
    case Reject =>
      run.status == InProgress && run.rows == map[] &&
      (run.workflow.Some? ==> !AllNeedsKnown(run.workflow.value))
    case Insert(j) =>
      run.status == InProgress && run.workflow.Some? && AllNeedsKnown(run.workflow.value) && j in run.workflow.value
    case Dispatch(j, _) => IsReady(run, j)
    case Poll(j, _) => j in run.rows && CanPoll(run.rows[j])
    case Complete => run.status == InProgress && run.rows != map[] && AllRowsCompleted(run.rows)
  }

  function Apply(run: Run, e: Step): Run
  {
    match e
    case Claim => run.(status := InProgress)
    case Reject => run.(status := Completed, conclusion := Some(Failure))
    case Insert(j) => if j in run.rows then run else run.(rows := run.rows[j := FRESH_ROW])
    case Dispatch(j, answer) =>
      if j in run.rows then
        run.(rows := run.rows[j := DispatchedRow(run.rows[j], answer)],
             created := if answer.accepted then run.created + multiset{j} else run.created)
      else run
    case Poll(j, answer) =>
      if j in run.rows then run.(rows := run.rows[j := PolledRow(run.rows[j], answer)]) else run
    case Complete =>
      run.(status := Completed, conclusion := Some(if SomeRowFailed(run.rows) then Failure else Success))
  }

  ghost predicate Takes(run: Run, e: Step, run': Run)
  {
    Enabled(run, e) && run' == Apply(run, e)
  }

  // ----- sequences of steps -----

  ghost predicate Next(run: Run, run': Run)
  {
    exists e :: Takes(run, e, run')
  }

  /** Some step leads from the i-th state to the next. */
  ghost predicate StepAt(tr: seq<Run>, i: nat)
    requires i + 1 < |tr|
  {
    Next(tr[i], tr[i + 1])
  }

  ghost predicate Trace(tr: seq<Run>)
  {
    tr != [] && forall i: nat :: i + 1 < |tr| ==> StepAt(tr, i)
  }

  ghost predicate TraceFromTo(tr: seq<Run>, run: Run, run': Run)
  {
    Trace(tr) && tr[0] == run && tr[|tr| - 1] == run'
  }

  /** Zero or more steps lead from `run` to `run'`. */
  ghost predicate Steps(run: Run, run': Run)
  {
    exists tr :: TraceFromTo(tr, run, run')
  }

  /** A run row as the webhook service or the API inserts it. */
  predicate Fresh(run: Run)
  {
    run.status == Queued && run.conclusion == None && run.rows == map[] && run.created == multiset{}
  }

  /** Some life of a run, with any answers and any restarts, leads to this state. */
  ghost predicate Reachable(run: Run)
  {
    exists f :: Fresh(f) && Steps(f, run)
  }

  lemma NoStep(run: Run)
    ensures Steps(run, run)
  {
    assert TraceFromTo([run], run, run);
  }

  lemma OneMoreStep(run: Run, mid: Run, e: Step)
    requires Steps(run, mid) && Enabled(mid, e)
    ensures Steps(run, Apply(mid, e))
  {
    var tr :| TraceFromTo(tr, run, mid);
    var tr' := tr + [Apply(mid, e)];
    forall i: nat | i + 1 < |tr'|
      ensures StepAt(tr', i)
    {
      if i == |tr| - 1 {
        assert Takes(tr'[i], e, tr'[i + 1]);
      } else {
        assert StepAt(tr, i);
      }
    }
    assert TraceFromTo(tr', run, Apply(mid, e));
  }

  lemma StepsTransitive(a: Run, b: Run, c: Run)
    requires Steps(a, b) && Steps(b, c)
    ensures Steps(a, c)
  {
    var p :| TraceFromTo(p, a, b);
    var q :| TraceFromTo(q, b, c);
    var r := p + q[1..];
    forall i: nat | i + 1 < |r|
      ensures StepAt(r, i)
    {
      if i < |p| - 1 {
        assert StepAt(p, i);
      } else {
        assert StepAt(q, i - (|p| - 1));
      }
    }
    assert TraceFromTo(r, a, c);
  }

  // ----- the invariant -----

  predicate RowWellFormed(row: JobRow)
  {
    match row.status
    case Queued => row.conclusion == None && !row.onCluster
    case InProgress => row.conclusion == None && row.onCluster
    case Completed => row.conclusion.Some?
  }

  ghost predicate RowsWellFormed(run: Run)
  {
    forall j :: j in run.rows ==>
      RowWellFormed(run.rows[j]) && run.workflow.Some? && AllNeedsKnown(run.workflow.value) && j in run.workflow.value
  }

  /** A job that left the queue had all its direct needs met. */
  ghost predicate DirectNeedsMet(run: Run)
  {
    forall j :: j in run.rows && run.rows[j].status != Queued ==>
      run.workflow.Some? && NeedsMet(run.workflow.value, run.rows, j)
  }

  ghost predicate ConclusionSound(run: Run)
  {
    match run.status
    case Queued => run.conclusion == None && run.rows == map[] && run.created == multiset{}
    case InProgress => run.conclusion == None
    case Completed =>
      && AllRowsCompleted(run.rows)
      && run.conclusion == Some(if run.rows != map[] && !SomeRowFailed(run.rows) then Success else Failure)
      && (run.rows == map[] ==> run.workflow.Some? ==> !AllNeedsKnown(run.workflow.value))
  }

  ghost predicate Inv(run: Run)
  {
    RowsWellFormed(run) && DirectNeedsMet(run) && ConclusionSound(run)
  }

  lemma InvKept(run: Run, e: Step)
    requires Inv(run) && Enabled(run, e)
    ensures Inv(Apply(run, e))
  {
    var run' := Apply(run, e);
    forall j | j in run'.rows && run'.rows[j].status != Queued
      ensures run'.workflow.Some? && NeedsMet(run'.workflow.value, run'.rows, j)
    {
      if j in run.rows && run.rows[j].status != Queued {
        assert NeedsMet(run.workflow.value, run.rows, j);
      }
      SuccessKept(run, e);
    }
  }

  /** No step takes a success back. */
  lemma SuccessKept(run: Run, e: Step)
    requires Enabled(run, e)
    ensures forall d :: IsSuccess(run.rows, d) ==> IsSuccess(Apply(run, e).rows, d)
  {
  }

  lemma {:induction false} InvOnTrace(tr: seq<Run>, i: nat)
    requires Trace(tr) && Inv(tr[0]) && i < |tr|
    ensures Inv(tr[i])
  {
    if i > 0 {
      InvOnTrace(tr, i - 1);
      assert StepAt(tr, i - 1);
      var e :| Takes(tr[i - 1], e, tr[i]);
      InvKept(tr[i - 1], e);
    }
  }

  lemma FreshHasInv(run: Run)
    requires Fresh(run)
    ensures Inv(run)
  {
  }

  lemma StepsKeepInv(run: Run, run': Run)
    requires Inv(run) && Steps(run, run')
    ensures Inv(run')
  {
    var tr :| TraceFromTo(tr, run, run');
    InvOnTrace(tr, |tr| - 1);
  }

  lemma StepsKeepReachable(run: Run, run': Run)
    requires Reachable(run) && Steps(run, run')
    ensures Reachable(run')
  {
    var f :| Fresh(f) && Steps(f, run);
    StepsTransitive(f, run, run');
  }

  lemma ReachableHasInv(run: Run)
    requires Reachable(run)
    ensures Inv(run)
  {
    var f :| Fresh(f) && Steps(f, run);
    FreshHasInv(f);
    StepsKeepInv(f, run);
  }

  // ----- dependency safety -----

  /** Along a need chain that starts at a job outside the queue, everything after it succeeded. */
  lemma {:induction false} ChainSucceeded(run: Run, p: seq<JobId>)
    requires Inv(run) && run.workflow.Some? && Chain(run.workflow.value, p) && |p| >= 2
    requires p[0] in run.rows && run.rows[p[0]].status != Queued
    ensures IsSuccess(run.rows, p[|p| - 1])
  {
    assert Edge(run.workflow.value, p[0], p[1]);
    assert NeedsMet(run.workflow.value, run.rows, p[0]);
    if |p| > 2 {
      var q := p[1..];
      forall k | 0 <= k < |q| - 1
        ensures Edge(run.workflow.value, q[k], q[k + 1])
      {
        assert Edge(run.workflow.value, p[k + 1], p[k + 2]);
      }
      ChainSucceeded(run, q);
    }
  }

  /** Dependency safety: in every reachable state, a job that is not queued has every
      transitive need completed with success. */
  lemma DependencySafety(run: Run, j: JobId, d: JobId)
    requires Reachable(run) && run.workflow.Some?
    requires j in run.rows && run.rows[j].status != Queued
    requires Reaches(run.workflow.value, j, d)
    ensures IsSuccess(run.rows, d)
  {
    ReachableHasInv(run);
    var p :| ChainFromTo(run.workflow.value, p, j, d);
    ChainSucceeded(run, p);
  }

  // ----- statuses only move forward -----

  function Rank(s: Status): nat
  {
    match s case Queued => 0 case InProgress => 1 case Completed => 2
  }

  predicate RowForward(row: JobRow, row': JobRow)
  {
    Rank(row.status) <= Rank(row'.status) && (row.status == Completed ==> row' == row)
  }

  predicate RowsForward(rows: map<JobId, JobRow>, rows': map<JobId, JobRow>)
  {
    forall j :: j in rows ==> j in rows' && RowForward(rows[j], rows'[j])
  }

  predicate Forward(run: Run, run': Run)
  {
    && run'.workflow == run.workflow && run'.repo == run.repo && run'.sha == run.sha && run'.createdAt == run.createdAt
    && Rank(run.status) <= Rank(run'.status)
    && run.created <= run'.created
    && RowsForward(run.rows, run'.rows)
    && (run.status == Completed ==> run' == run)
  }

  lemma StepGoesForward(run: Run, e: Step)
    requires Inv(run) && Enabled(run, e)
    ensures Forward(run, Apply(run, e))
  {
  }

  lemma ForwardTransitive(a: Run, b: Run, c: Run)
    requires Forward(a, b) && Forward(b, c)
    ensures Forward(a, c)
  {
  }

  lemma {:induction false} TraceGoesForward(tr: seq<Run>, k: nat)
    requires Trace(tr) && Inv(tr[0]) && k < |tr|
    ensures Forward(tr[0], tr[k])
  {
    if k > 0 {
      TraceGoesForward(tr, k - 1);
      InvOnTrace(tr, k - 1);
      assert StepAt(tr, k - 1);
      var e :| Takes(tr[k - 1], e, tr[k]);
      StepGoesForward(tr[k - 1], e);
      ForwardTransitive(tr[0], tr[k - 1], tr[k]);
    }
  }

  /** Between any two points of a run's life, statuses have only moved forward, no job row has
      vanished, a completed job keeps its conclusion, and a completed run is frozen: nothing
      about it changes again and no Kubernetes job is created for it. */
  lemma RunsGoForward(run: Run, later: Run)
    requires Reachable(run) && Steps(run, later)
    ensures Forward(run, later)
    ensures run.status == Completed ==> later == run && later.created == run.created
  {
    ReachableHasInv(run);
    var tr :| TraceFromTo(tr, run, later);
    TraceGoesForward(tr, |tr| - 1);
  }

  /** A completed run has every job row completed with a conclusion, and is a success exactly
      when it has rows and none of them failed. */
  lemma CompletedRunsAreSound(run: Run)
    requires Reachable(run) && run.status == Completed
    ensures forall j :: j in run.rows ==> IsSuccess(run.rows, j) != IsFailure(run.rows, j)
    ensures run.conclusion ==
            Some(if run.rows != map[] && forall j :: j in run.rows ==> IsSuccess(run.rows, j) then Success else Failure)
  {
    ReachableHasInv(run);
    assert AllRowsCompleted(run.rows);
    forall j | j in run.rows
      ensures IsSuccess(run.rows, j) != IsFailure(run.rows, j)
    {
      assert RowWellFormed(run.rows[j]) && run.rows[j].status == Completed;
      assert run.rows[j].conclusion == Some(Success) || run.rows[j].conclusion == Some(Failure) by {
        match run.rows[j].conclusion.value case Success => case Failure =>
      }
    }
    if j :| j in run.rows && !IsSuccess(run.rows, j) {
      assert IsFailure(run.rows, j);
    }
  }

  /** A successful run has run its whole workflow exactly when every job has a row. */
  lemma WholeWorkflowRanExactly(run: Run)
    requires Reachable(run) && run.workflow.Some? && run.status == Completed && run.conclusion == Some(Success)
    ensures (forall j :: j in run.workflow.value ==> IsSuccess(run.rows, j)) <==>
            run.rows.Keys == run.workflow.value.Keys
  {
    CompletedRunsAreSound(run);
    ReachableHasInv(run);
  }

  /** So it has if every job had a row at some point of the run's life, as after a start in which
      no insert fails. */
  lemma StartedInFullRunsInFull(run: Run, later: Run)
    requires Reachable(run) && Steps(run, later) && later.status == Completed && later.conclusion == Some(Success)
    requires run.workflow.Some? && run.rows.Keys == run.workflow.value.Keys
    ensures forall j :: j in run.workflow.value ==> IsSuccess(later.rows, j)
  {
    RunsGoForward(run, later);
    StepsKeepReachable(run, later);
    ReachableHasInv(later);
    assert later.rows.Keys == run.workflow.value.Keys;
    WholeWorkflowRanExactly(later);
  }

  /** After a partial insert it need not: a run with the row of a single job ends in success,
      whatever other jobs the workflow has. */
  lemma PartialStartsCanSucceed(wf: Workflow, j: JobId) returns (run: Run)
    requires AllNeedsKnown(wf) && j in wf && Normalized(wf[j].needs) == []
    ensures Reachable(run) && run.workflow == Some(wf) && run.rows.Keys == {j}
    ensures run.status == Completed && run.conclusion == Some(Success)
  {
    var start := Run("", "", 0, Some(wf), Queued, None, map[], multiset{});
    NoStep(start);
    run := start;
    run := Taken(start, run, Claim);
    run := Taken(start, run, Insert(j));
    run := Taken(start, run, Dispatch(j, CreateAnswer(true, true)));
    run := Taken(start, run, Poll(j, Success));
    run := Taken(start, run, Complete);
  }

  lemma Taken(start: Run, mid: Run, e: Step) returns (run: Run)
    requires Steps(start, mid) && Enabled(mid, e)
    ensures Steps(start, run) && run == Apply(mid, e)
  {
    OneMoreStep(start, mid, e);
    run := Apply(mid, e);
  }

  // ----- blocked jobs -----

  /** `j` lies on a need cycle or needs, directly or not, a job that does. */
  ghost predicate NeedsACycle(wf: Workflow, j: JobId)
  {
    exists x :: (x == j || Reaches(wf, j, x)) && Reaches(wf, x, x)
  }

  lemma CycleBelow(wf: Workflow, j: JobId) returns (d: JobId)
    requires NeedsACycle(wf, j)
    ensures Edge(wf, j, d) && NeedsACycle(wf, d)
  {
    var x :| (x == j || Reaches(wf, j, x)) && Reaches(wf, x, x);
    d := ReachesFirstStep(wf, j, x);
  }

  ghost predicate CyclesQueued(run: Run)
  {
    run.workflow.Some? ==>
      forall j :: j in run.rows && NeedsACycle(run.workflow.value, j) ==> run.rows[j].status == Queued
  }

  lemma CyclesQueuedKept(run: Run, e: Step)
    requires Inv(run) && CyclesQueued(run) && Enabled(run, e)
    ensures CyclesQueued(Apply(run, e))
  {
    if e.Dispatch? && NeedsACycle(run.workflow.value, e.job) {
      var d := CycleBelow(run.workflow.value, e.job);
      assert false;
    }
  }

  lemma {:induction false} CyclesQueuedOnTrace(tr: seq<Run>, i: nat)
    requires Trace(tr) && Inv(tr[0]) && CyclesQueued(tr[0]) && i < |tr|
    ensures CyclesQueued(tr[i])
  {
    if i > 0 {
      CyclesQueuedOnTrace(tr, i - 1);
      InvOnTrace(tr, i - 1);
      assert StepAt(tr, i - 1);
      var e :| Takes(tr[i - 1], e, tr[i]);
      CyclesQueuedKept(tr[i - 1], e);
    }
  }

  /** The job has never been dispatched, and its run is not over. */
  predicate Waiting(run: Run, j: JobId)
  {
    j in run.rows && run.rows[j] == FRESH_ROW && run.status == InProgress
  }

  lemma QueuedJobsWait(run: Run, j: JobId)
    requires Inv(run) && j in run.rows && run.rows[j].status == Queued
    ensures Waiting(run, j)
  {
    assert RowWellFormed(run.rows[j]);
  }

  /** A job on a need cycle, or downstream of one, is queued in every reachable state, and once
      its row exists its run is never completed. */
  lemma CyclesBlock(run: Run, j: JobId)
    requires Reachable(run) && run.workflow.Some?
    requires NeedsACycle(run.workflow.value, j) && j in run.rows
    ensures Waiting(run, j)
  {
    var f :| Fresh(f) && Steps(f, run);
    var tr :| TraceFromTo(tr, f, run);
    FreshHasInv(f);
    CyclesQueuedOnTrace(tr, |tr| - 1);
    ReachableHasInv(run);
    QueuedJobsWait(run, j);
  }

  /** A job downstream of a job that fails, sooner or later, is queued both before and after,
      and once its row exists its run is never completed. */
  lemma FailuresBlock(run: Run, later: Run, x: JobId, j: JobId)
    requires Reachable(run) && Steps(run, later) && run.workflow.Some?
    requires IsFailure(run.rows, x) || IsFailure(later.rows, x)
    requires Reaches(run.workflow.value, j, x)
    ensures j in run.rows ==> Waiting(run, j)
    ensures j in later.rows ==> Waiting(later, j)
  {
    RunsGoForward(run, later);
    StepsKeepReachable(run, later);
    forall s | (s == run || s == later) && j in s.rows
      ensures Waiting(s, j)
    {
      if s.rows[j].status != Queued {
        DependencySafety(s, j, x);
        assert false;
      }
      ReachableHasInv(s);
      QueuedJobsWait(s, j);
    }
  }

  // ----- Kubernetes jobs -----

  ghost predicate RecordedNext(run: Run, run': Run)
  {
    exists e :: Takes(run, e, run') && (e.Dispatch? ==> e.answer.recorded)
  }

  ghost predicate RecordedStepAt(tr: seq<Run>, i: nat)
    requires i + 1 < |tr|
  {
    RecordedNext(tr[i], tr[i + 1])
  }

  /** A life of a run from the inserted row on, in which every update after a Create succeeds. */
  ghost predicate RecordedExecution(tr: seq<Run>)
  {
    Trace(tr) && Fresh(tr[0]) && forall i: nat :: i + 1 < |tr| ==> RecordedStepAt(tr, i)
  }

  predicate CreatedMatchesRows(run: Run)
  {
    && (forall j :: j in run.rows ==> run.created[j] == if run.rows[j].onCluster then 1 else 0)
    && (forall j :: j in run.created ==> j in run.rows)
  }

  lemma CreatedMatchesRowsKept(run: Run, e: Step)
    requires Inv(run) && CreatedMatchesRows(run) && Enabled(run, e) && (e.Dispatch? ==> e.answer.recorded)
    ensures CreatedMatchesRows(Apply(run, e))
  {
  }

  lemma CreatedMatchesRowsNext(run: Run, run': Run)
    requires Inv(run) && CreatedMatchesRows(run) && RecordedNext(run, run')
    ensures CreatedMatchesRows(run')
  {
    var e :| Takes(run, e, run') && (e.Dispatch? ==> e.answer.recorded);
    CreatedMatchesRowsKept(run, e);
  }

  /** When the updates after Create calls succeed, every job is created on the cluster at most
      once in the life of its run: once if its row names a Kubernetes job, else never. */
  lemma {:induction false} CreatedAtMostOnce(tr: seq<Run>, i: nat)
    requires RecordedExecution(tr) && i < |tr|
    ensures CreatedMatchesRows(tr[i])
    ensures forall j :: tr[i].created[j] <= 1
  {
    if i > 0 {
      CreatedAtMostOnce(tr, i - 1);
      FreshHasInv(tr[0]);
      InvOnTrace(tr, i - 1);
      assert RecordedStepAt(tr, i - 1);
      CreatedMatchesRowsNext(tr[i - 1], tr[i]);
    }
    forall j
      ensures tr[i].created[j] <= 1
    {
      if j in tr[i].created {
        assert j in tr[i].rows;
      }
    }
  }

  // ----- lost updates -----

  /** Kubernetes refuses a second job of the same name while the first is there. */
  predicate RefusesDuplicates(run: Run, e: Step)
  {
    e.Dispatch? && e.job in run.created ==> !e.answer.accepted
  }

  ghost predicate NamedNext(run: Run, run': Run)
  {
    exists e :: Takes(run, e, run') && RefusesDuplicates(run, e)
  }

  ghost predicate NamedStepAt(tr: seq<Run>, i: nat)
    requires i + 1 < |tr|
  {
    NamedNext(tr[i], tr[i + 1])
  }

  /** A life of a run, with any updates lost, on a cluster where jobs keep their names. */
  ghost predicate NamedExecution(tr: seq<Run>)
  {
    Trace(tr) && Fresh(tr[0]) && forall i: nat :: i + 1 < |tr| ==> NamedStepAt(tr, i)
  }

  /** Even when updates are lost, every job is created on the cluster at most once. */
  lemma {:induction false} NamesMakeCreatesUnique(tr: seq<Run>, i: nat)
    requires NamedExecution(tr) && i < |tr|
    ensures forall j :: tr[i].created[j] <= 1
  {
    if i > 0 {
      NamesMakeCreatesUnique(tr, i - 1);
      assert NamedStepAt(tr, i - 1);
      var e :| Takes(tr[i - 1], e, tr[i]) && RefusesDuplicates(tr[i - 1], e);
    }
  }

  /** The job was created, but its row does not know. */
  predicate IsLost(run: Run, j: JobId)
  {
    j in run.rows && run.rows[j].status == Queued && j in run.created
  }

  /** A job is lost by an accepted Create whose update is not recorded, and by nothing else. */
  lemma LostExactly(run: Run, e: Step, j: JobId)
    requires Inv(run) && Enabled(run, e) && j !in run.created
    ensures IsLost(Apply(run, e), j) <==> e.Dispatch? && e.job == j && e.answer.accepted && !e.answer.recorded
  {
  }

  lemma LostStaysOrFails(run: Run, e: Step, j: JobId)
    requires Enabled(run, e) && RefusesDuplicates(run, e) && IsLost(run, j)
    ensures if e.Dispatch? && e.job == j && e.answer.recorded then IsFailure(Apply(run, e).rows, j)
            else IsLost(Apply(run, e), j)
  {
  }

  /** A lost job ends in failure: its next dispatch whose update is recorded makes it one, whatever
      its pods do, and until then it is queued; its run never ends in success. */
  lemma {:induction false} LostJobsFail(tr: seq<Run>, i: nat, k: nat, j: JobId)
    requires NamedExecution(tr) && i <= k < |tr| && IsLost(tr[i], j)
    ensures IsLost(tr[k], j) || IsFailure(tr[k].rows, j)
    ensures tr[k].status == Completed ==> tr[k].conclusion == Some(Failure)
    decreases k
  {
    FreshHasInv(tr[0]);
    InvOnTrace(tr, k);
    if i < k {
      LostJobsFail(tr, i, k - 1, j);
      InvOnTrace(tr, k - 1);
      assert NamedStepAt(tr, k - 1);
      var e :| Takes(tr[k - 1], e, tr[k]) && RefusesDuplicates(tr[k - 1], e);
      if IsLost(tr[k - 1], j) {
        LostStaysOrFails(tr[k - 1], e, j);
      } else {
        StepGoesForward(tr[k - 1], e);
      }
    }
  }
}
