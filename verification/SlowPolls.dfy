// Progress when polls may say nothing for a while: the rows of a run are never ahead of the
// levels of Progress, the run settles as there once no job on the cluster is left unanswered, and
// a bound on the silence bounds the passes it takes.
module SlowPolls {
  import opened Wrappers
  import opened Workflows
  import opened Runs
  import opened Controllers
  import opened Progress

  /** Every poll says nothing, or what becomes of the job; a refused job has none to ask about. */
  ghost predicate PollsAgree(fate: JobId -> Outcome, poll: JobId -> PollAnswer)
  {
    forall j :: poll(j).recorded && Agrees(fate(j), poll(j).job)
  }

  predicate Agrees(outcome: Outcome, job: ClusterJob)
  {
    match job
    case Unknown => true
    case Counts(s, f) => (s > 0 ==> outcome != Fails) && (s <= 0 < f ==> outcome != Succeeds)
  }

  predicate IsAnswered(poll: JobId -> PollAnswer, j: JobId)
  {
    poll(j).job.Counts? && (poll(j).job.succeeded > 0 || poll(j).job.failed > 0)
  }

  ghost predicate MayMeet(fate: JobId -> Outcome, a: PassAnswers)
  {
    CreatesMeet(fate, a.create) && PollsAgree(fate, a.poll) && a.concludes
  }

  ghost predicate AllMayMeet(fate: JobId -> Outcome, answers: seq<PassAnswers>)
  {
    forall i :: 0 <= i < |answers| ==> MayMeet(fate, answers[i])
  }

  const RUNNING := JobRow(InProgress, None, true)

  // ----- what n passes can have done -----

  /** The row of `j` is at most as far as after `n` passes without any silence. */
  ghost predicate RowWithin(wf: Workflow, fate: JobId -> Outcome, j: JobId, n: nat, row: JobRow)
  {
    row == FRESH_ROW ||
    (!Doomed(wf, fate, j) && HeightAtMost(wf, j, n + 1) &&
     if row == RUNNING then fate(j) != Refused
     else row == DoneRow(fate(j)) && (fate(j) == Refused || HeightAtMost(wf, j, n)))
  }

  ghost predicate RowsWithin(wf: Workflow, fate: JobId -> Outcome, n: nat, rows: map<JobId, JobRow>)
  {
    rows.Keys == wf.Keys && forall j :: j in wf ==> RowWithin(wf, fate, j, n, rows[j])
  }

  /** No job that could be dispatched is left in the queue. */
  predicate NoneReady(wf: Workflow, rows: map<JobId, JobRow>)
  {
    forall j :: j in wf && j in rows && rows[j] == FRESH_ROW ==> !NeedsMet(wf, rows, j)
  }

  ghost predicate RunWithin(wf: Workflow, fate: JobId -> Outcome, n: nat, run: Run)
  {
    && run.workflow == Some(wf) && RowsWithin(wf, fate, n, run.rows) && NoneReady(wf, run.rows)
    && (if n > 0 && AllRowsCompleted(run.rows)
        then run.status == Completed && run.conclusion == Some(if SomeRowFailed(run.rows) then Failure else Success)
        else run.status == InProgress)
  }

  /** The row of `j` after the polls of pass `n`: as RowWithin, but a finished row has had its poll. */
  ghost predicate RowPolledWithin(wf: Workflow, fate: JobId -> Outcome, j: JobId, n: nat, row: JobRow)
  {
    row == FRESH_ROW ||
    (!Doomed(wf, fate, j) && HeightAtMost(wf, j, n) &&
     if row == RUNNING then fate(j) != Refused else row == DoneRow(fate(j)))
  }

  ghost predicate RowsPolledWithin(wf: Workflow, fate: JobId -> Outcome, n: nat, rows: map<JobId, JobRow>)
  {
    rows.Keys == wf.Keys && forall j :: j in wf ==> RowPolledWithin(wf, fate, j, n, rows[j])
  }

  lemma PollKeepsWithin(wf: Workflow, fate: JobId -> Outcome, n: nat, run: Run, poll: JobId -> PollAnswer)
    requires AllNeedsKnown(wf) && PollsAgree(fate, poll) && RowsWithin(wf, fate, n, run.rows)
    ensures RowsPolledWithin(wf, fate, n + 1, Polled(run, poll).rows)
  {
    forall j | j in wf
      ensures RowPolledWithin(wf, fate, j, n + 1, Polled(run, poll).rows[j])
    {
      HeightByNeeds(wf, j, n);
      assert RowWithin(wf, fate, j, n, run.rows[j]);
      assert Agrees(fate(j), poll(j).job);
    }
  }

  lemma ReadyWithin(wf: Workflow, fate: JobId -> Outcome, n: nat, rows: map<JobId, JobRow>, j: JobId)
    requires AllNeedsKnown(wf) && j in wf && RowsPolledWithin(wf, fate, n, rows) && NeedsMet(wf, rows, j)
    ensures !Doomed(wf, fate, j) && HeightAtMost(wf, j, n + 1)
  {
    HeightByNeeds(wf, j, n);
    DoomedByNeeds(wf, fate, j);
    forall d | Edge(wf, j, d)
      ensures fate(d) == Succeeds && !Doomed(wf, fate, d) && HeightAtMost(wf, d, n)
    {
      assert IsSuccess(rows, d) && RowPolledWithin(wf, fate, d, n, rows[d]);
    }
    assert forall d :: d in Normalized(wf[j].needs) ==> Edge(wf, j, d);
  }

  lemma DispatchKeepsWithin(wf: Workflow, fate: JobId -> Outcome, n: nat, run: Run, create: JobId -> CreateAnswer)
    requires AllNeedsKnown(wf) && CreatesMeet(fate, create)
    requires run.workflow == Some(wf) && RowsPolledWithin(wf, fate, n, run.rows)
    ensures RowsWithin(wf, fate, n, Dispatched(run, create).rows)
  {
    var run' := Dispatched(run, create);
    forall j | j in wf
      ensures RowWithin(wf, fate, j, n, run'.rows[j])
    {
      assert RowPolledWithin(wf, fate, j, n, run.rows[j]) && create(j) == CreateAnswer(fate(j) != Refused, true);
      HeightByNeeds(wf, j, n);
      if IsReady(run, j) {
        ReadyWithin(wf, fate, n, run.rows, j);
      }
    }
  }

  /** A dispatch leaves nothing ready, since it makes nothing succeed. */
  lemma DispatchLeavesNoneReady(wf: Workflow, run: Run, create: JobId -> CreateAnswer)
    requires run.workflow == Some(wf) && forall j :: create(j).recorded
    ensures NoneReady(wf, Dispatched(run, create).rows)
  {
    var run' := Dispatched(run, create);
    forall j | j in wf && j in run'.rows && run'.rows[j] == FRESH_ROW && NeedsMet(wf, run'.rows, j)
      ensures false
    {
      assert create(j).recorded;
      forall d | d in Normalized(wf[j].needs)
        ensures IsSuccess(run.rows, d)
      {
        assert IsSuccess(run'.rows, d) && create(d).recorded;
      }
    }
  }

  lemma PassKeepsWithin(wf: Workflow, fate: JobId -> Outcome, n: nat, run: Run, a: PassAnswers)
    requires AllNeedsKnown(wf) && wf != map[] && MayMeet(fate, a)
    requires RunWithin(wf, fate, n, run) && run.status == InProgress
    ensures RunWithin(wf, fate, n + 1, Reconciled(run, a))
  {
    var polled := Polled(run, a.poll);
    PollKeepsWithin(wf, fate, n, run, a.poll);
    DispatchKeepsWithin(wf, fate, n + 1, polled, a.create);
    RecordsAll(fate, a.create);
    DispatchLeavesNoneReady(wf, polled, a.create);
    ConcludeKeepsWithin(wf, fate, n + 1, Dispatched(polled, a.create));
  }

  lemma ConcludeKeepsWithin(wf: Workflow, fate: JobId -> Outcome, n: nat, run: Run)
    requires wf != map[] && n > 0 && run.workflow == Some(wf) && run.status == InProgress
    requires RowsWithin(wf, fate, n, run.rows) && NoneReady(wf, run.rows)
    ensures RunWithin(wf, fate, n, Concluded(run))
  {
    assert run.rows != map[];
  }

  lemma RecordsAll(fate: JobId -> Outcome, create: JobId -> CreateAnswer)
    requires CreatesMeet(fate, create)
    ensures forall j :: create(j).recorded
  {
  }

  lemma WithinOnceMore(wf: Workflow, fate: JobId -> Outcome, n: nat, run: Run)
    requires AllNeedsKnown(wf) && RunWithin(wf, fate, n, run) && run.status == Completed
    ensures RunWithin(wf, fate, n + 1, run)
  {
    forall j | j in wf
      ensures RowWithin(wf, fate, j, n + 1, run.rows[j])
    {
      assert RowWithin(wf, fate, j, n, run.rows[j]);
      HeightByNeeds(wf, j, n);
      HeightByNeeds(wf, j, n + 1);
    }
  }

  lemma {:induction false} PassesKeepWithin(wf: Workflow, fate: JobId -> Outcome, run: Run, answers: seq<PassAnswers>)
    requires AllNeedsKnown(wf) && wf != map[] && RunWithin(wf, fate, 0, run) && AllMayMeet(fate, answers)
    ensures RunWithin(wf, fate, |answers|, Passes(run, answers))
  {
    if answers != [] {
      var n := |answers| - 1;
      PassesKeepWithin(wf, fate, run, answers[..n]);
      var before := Passes(run, answers[..n]);
      if before.status == InProgress {
        PassKeepsWithin(wf, fate, n, before, answers[n]);
      } else {
        WithinOnceMore(wf, fate, n, before);
      }
    }
  }

  lemma StartIsWithin(wf: Workflow, fate: JobId -> Outcome, run: Run, create: JobId -> CreateAnswer)
    requires AllNeedsKnown(wf) && CreatesMeet(fate, create)
    requires run.workflow == Some(wf) && run.status == InProgress && run.rows == map j | j in wf :: FRESH_ROW
    ensures RunWithin(wf, fate, 0, Dispatched(run, create))
  {
    DispatchKeepsWithin(wf, fate, 0, run, create);
    RecordsAll(fate, create);
    DispatchLeavesNoneReady(wf, run, create);
  }

  ghost predicate MayDrive(wf: Workflow, fate: JobId -> Outcome, create: JobId -> CreateAnswer,
                           answers: seq<PassAnswers>)
  {
    AllNeedsKnown(wf) && wf != map[] && CreatesMeet(fate, create) && AllMayMeet(fate, answers)
  }

  /** However long polls stay silent, after `n` passes no row is further than RowAfter says, and
      every job that could be dispatched has been. */
  lemma NeverAhead(wf: Workflow, fate: JobId -> Outcome, run: Run, create: JobId -> CreateAnswer,
                   answers: seq<PassAnswers>)
    requires MayDrive(wf, fate, create, answers)
    ensures RunWithin(wf, fate, |answers|, Driven(wf, run, create, answers))
  {
    var start := Started(run.(workflow := Some(wf)));
    StartIsWithin(wf, fate, start, create);
    PassesKeepWithin(wf, fate, Dispatched(start, create), answers);
  }

  // ----- settling -----

  predicate NoneRunning(rows: map<JobId, JobRow>)
  {
    forall j :: j in rows ==> rows[j].status != InProgress
  }

  lemma NeedsAreShorter(wf: Workflow, fate: JobId -> Outcome, j: JobId, h: nat)
    requires AllNeedsKnown(wf) && j in wf && HeightAtMost(wf, j, h) && !Doomed(wf, fate, j)
    ensures h > 0
    ensures forall d :: d in Normalized(wf[j].needs) ==>
              d in wf && HeightAtMost(wf, d, h - 1) && !Doomed(wf, fate, d) && fate(d) == Succeeds
  {
    HeightByNeeds(wf, j, h);
    HeightByNeeds(wf, j, h - 1);
    DoomedByNeeds(wf, fate, j);
    assert forall d :: d in Normalized(wf[j].needs) ==> Edge(wf, j, d);
  }

  /** Jobs that can run have run, once nothing is running. */
  lemma {:induction false} RunsByHeight(wf: Workflow, fate: JobId -> Outcome, n: nat, rows: map<JobId, JobRow>,
                                        j: JobId, h: nat)
    requires AllNeedsKnown(wf) && RowsWithin(wf, fate, n, rows) && NoneReady(wf, rows) && NoneRunning(rows)
    requires j in wf && HeightAtMost(wf, j, h) && !Doomed(wf, fate, j)
    ensures rows[j] == DoneRow(fate(j))
    decreases h
  {
    NeedsAreShorter(wf, fate, j, h);
    forall d | d in Normalized(wf[j].needs)
      ensures IsSuccess(rows, d)
    {
      RunsByHeight(wf, fate, n, rows, d, h - 1);
    }
    assert NeedsMet(wf, rows, j);
    assert RowWithin(wf, fate, j, n, rows[j]);
  }

  lemma SettledRow(wf: Workflow, fate: JobId -> Outcome, n: nat, rows: map<JobId, JobRow>, j: JobId)
    requires AllNeedsKnown(wf) && RowsWithin(wf, fate, n, rows) && NoneReady(wf, rows) && NoneRunning(rows) && j in wf
    ensures rows[j] == if Blocked(wf, fate, j) then FRESH_ROW else DoneRow(fate(j))
  {
    assert RowWithin(wf, fate, j, n, rows[j]);
    HeightsExactly(wf, j, |wf|);
    if !Blocked(wf, fate, j) {
      RunsByHeight(wf, fate, n, rows, j, |wf|);
    } else if rows[j] != FRESH_ROW {
      HeightGrows(wf, j, n + 1, n + 1 + |wf|);
      HeightsExactly(wf, j, n + 1 + |wf|);
      assert false;
    }
  }

  lemma HeightGrows(wf: Workflow, j: JobId, n: nat, m: nat)
    requires HeightAtMost(wf, j, n) && n <= m
    ensures HeightAtMost(wf, j, m)
  {
  }

  lemma SettledWithin(wf: Workflow, fate: JobId -> Outcome, n: nat, run: Run)
    requires AllNeedsKnown(wf) && wf != map[] && n > 0 && RunWithin(wf, fate, n, run) && NoneRunning(run.rows)
    ensures Settled(wf, fate, run)
  {
    forall j | j in wf
      ensures run.rows[j] == if Blocked(wf, fate, j) then FRESH_ROW else DoneRow(fate(j))
    {
      SettledRow(wf, fate, n, run.rows, j);
    }
    assert run.rows == map j | j in wf :: if Blocked(wf, fate, j) then FRESH_ROW else DoneRow(fate(j));
  }

  /** However long polls stay silent: after any pass that leaves no job on the cluster unanswered,
      the run is settled. */
  lemma SettlesOnceAnswered(wf: Workflow, fate: JobId -> Outcome, run: Run, create: JobId -> CreateAnswer,
                            answers: seq<PassAnswers>)
    requires MayDrive(wf, fate, create, answers) && answers != []
    requires NoneRunning(Driven(wf, run, create, answers).rows)
    ensures Settled(wf, fate, Driven(wf, run, create, answers))
  {
    NeverAhead(wf, fate, run, create, answers);
    SettledWithin(wf, fate, |answers|, Driven(wf, run, create, answers));
  }

  // ----- bounded silence -----

  /** One of the `delay` passes from `i` on answers for `j`. */
  predicate SomeAnswer(answers: seq<PassAnswers>, i: nat, delay: nat, j: JobId)
    requires i + delay <= |answers|
  {
    exists q :: i <= q < i + delay && IsAnswered(answers[q].poll, j)
  }

  /** Among any `delay` passes in a row, one answers for every job of the workflow that Kubernetes
      does not refuse. */
  ghost predicate AnsweredWithin(wf: Workflow, fate: JobId -> Outcome, answers: seq<PassAnswers>, delay: nat)
  {
    forall i: nat, j {:trigger SomeAnswer(answers, i, delay, j)} ::
      j in wf && fate(j) != Refused && i + delay <= |answers| ==> SomeAnswer(answers, i, delay, j)
  }

  /** Prompt answers, as in Progress, are a delay of one pass. */
  lemma PromptAnswersAreWithinOne(wf: Workflow, fate: JobId -> Outcome, create: JobId -> CreateAnswer,
                                  answers: seq<PassAnswers>)
    requires Drives(wf, fate, create, answers)
    ensures MayDrive(wf, fate, create, answers) && AnsweredWithin(wf, fate, answers, 1)
  {
    forall i | 0 <= i < |answers|
      ensures MayMeet(fate, answers[i]) && forall j :: fate(j) != Refused ==> IsAnswered(answers[i].poll, j)
    {
      assert Meets(fate, answers[i]);
      MeetingIsAgreeing(fate, answers[i]);
    }
    forall i: nat, j | j in wf && fate(j) != Refused && i + 1 <= |answers|
      ensures SomeAnswer(answers, i, 1, j)
    {
      assert IsAnswered(answers[i].poll, j);
    }
  }

  lemma MeetingIsAgreeing(fate: JobId -> Outcome, a: PassAnswers)
    requires Meets(fate, a)
    ensures MayMeet(fate, a) && forall j :: fate(j) != Refused ==> IsAnswered(a.poll, j)
  {
  }

  /** A row as it can be between passes: nothing that could be dispatched is left in the queue. */
  ghost predicate RowAt(wf: Workflow, fate: JobId -> Outcome, rows: map<JobId, JobRow>, j: JobId)
  {
    && j in rows && (rows[j] == FRESH_ROW || rows[j] == RUNNING || rows[j] == DoneRow(fate(j)))
    && (rows[j] == RUNNING ==> fate(j) != Refused) && (NeedsMet(wf, rows, j) ==> rows[j] != FRESH_ROW)
  }

  /** A pass never moves a job's row back, and finishes a running one that it gets an answer for. */
  predicate RowMoves(rows: map<JobId, JobRow>, a: PassAnswers, rows': map<JobId, JobRow>, j: JobId)
  {
    && j in rows && j in rows' && Rank(rows[j].status) <= Rank(rows'[j].status)
    && (rows[j] == RUNNING && IsAnswered(a.poll, j) ==> rows'[j].status == Completed)
  }

  /** The rows before the first and after each of the passes. */
  ghost predicate Timeline(wf: Workflow, fate: JobId -> Outcome, t: seq<map<JobId, JobRow>>, answers: seq<PassAnswers>)
  {
    && |t| == |answers| + 1
    && (forall q, j :: 0 <= q < |t| && j in wf ==> RowAt(wf, fate, t[q], j))
    && (forall q, k, j :: 0 <= q < |answers| && k == q + 1 && j in wf ==> RowMoves(t[q], answers[q], t[k], j))
  }

  lemma {:induction false} NeverBack(wf: Workflow, fate: JobId -> Outcome, t: seq<map<JobId, JobRow>>,
                                     answers: seq<PassAnswers>, i: nat, k: nat, j: JobId)
    requires Timeline(wf, fate, t, answers) && i <= k < |t| && j in wf
    ensures j in t[i] && j in t[k] && Rank(t[i][j].status) <= Rank(t[k][j].status)
    decreases k
  {
    assert RowAt(wf, fate, t[k], j);
    if i < k {
      NeverBack(wf, fate, t, answers, i, k - 1, j);
      assert RowMoves(t[k - 1], answers[k - 1], t[k], j);
    }
  }

  lemma AnswerFinishes(wf: Workflow, fate: JobId -> Outcome, t: seq<map<JobId, JobRow>>, answers: seq<PassAnswers>,
                       i: nat, q: nat, k: nat, j: JobId)
    requires Timeline(wf, fate, t, answers) && i <= q < k <= |answers| && j in wf
    requires NeedsMet(wf, t[i], j) && IsAnswered(answers[q].poll, j)
    ensures j in t[k] && t[k][j].status == Completed
  {
    assert RowAt(wf, fate, t[i], j);
    NeverBack(wf, fate, t, answers, i, q, j);
    assert RowAt(wf, fate, t[q], j) && RowMoves(t[q], answers[q], t[q + 1], j);
    NeverBack(wf, fate, t, answers, q + 1, k, j);
  }

  /** A job whose needs have succeeded by pass `i` has run `delay` passes later. */
  lemma RunsInTime(wf: Workflow, fate: JobId -> Outcome, t: seq<map<JobId, JobRow>>, answers: seq<PassAnswers>,
                   delay: nat, i: nat, k: nat, j: JobId)
    requires Timeline(wf, fate, t, answers) && AnsweredWithin(wf, fate, answers, delay)
    requires i + delay <= k <= |answers| && j in wf && NeedsMet(wf, t[i], j)
    ensures j in t[k] && t[k][j] == DoneRow(fate(j))
  {
    assert RowAt(wf, fate, t[i], j) && RowAt(wf, fate, t[k], j);
    if fate(j) == Refused {
      NeverBack(wf, fate, t, answers, i, k, j);
    } else {
      assert SomeAnswer(answers, i, delay, j);
      var q :| i <= q < i + delay && IsAnswered(answers[q].poll, j);
      AnswerFinishes(wf, fate, t, answers, i, q, k, j);
    }
  }

  /** `delay * h`. */
  function Delays(delay: nat, h: nat): nat
  {
    if h == 0 then 0 else Delays(delay, h - 1) + delay
  }

  lemma {:induction false} DelaysMultiply(delay: nat, h: nat)
    ensures Delays(delay, h) == delay * h
  {
    if h > 0 {
      DelaysMultiply(delay, h - 1);
    }
  }

  /** A job none of whose need chains is longer than `h`, and below which nothing fails, has run
      after `delay * h` passes. */
  lemma {:induction false} RunsByDelay(wf: Workflow, fate: JobId -> Outcome, t: seq<map<JobId, JobRow>>,
                                       answers: seq<PassAnswers>, delay: nat, k: nat, j: JobId, h: nat)
    requires AllNeedsKnown(wf) && Timeline(wf, fate, t, answers) && AnsweredWithin(wf, fate, answers, delay)
    requires Delays(delay, h) <= k <= |answers| && j in wf && HeightAtMost(wf, j, h) && !Doomed(wf, fate, j)
    ensures j in t[k] && t[k][j] == DoneRow(fate(j))
    decreases h
  {
    NeedsAreShorter(wf, fate, j, h);
    var i := Delays(delay, h - 1);
    assert i + delay == Delays(delay, h);
    assert NeedsMet(wf, t[i], j) by {
      forall d | d in Normalized(wf[j].needs)
        ensures IsSuccess(t[i], d)
      {
        RunsByDelay(wf, fate, t, answers, delay, i, d, h - 1);
      }
    }
    RunsInTime(wf, fate, t, answers, delay, i, k, j);
  }

  function RowsOfPasses(run: Run, answers: seq<PassAnswers>): (t: seq<map<JobId, JobRow>>)
    ensures |t| == |answers| + 1
  {
    seq(|answers| + 1, q requires 0 <= q <= |answers| => Passes(run, answers[..q]).rows)
  }

  lemma DispatchMovesRow(run: Run, create: JobId -> CreateAnswer, j: JobId)
    requires j in run.rows
    ensures j in Dispatched(run, create).rows
    ensures Rank(run.rows[j].status) <= Rank(Dispatched(run, create).rows[j].status)
  {
  }

  lemma PassMovesRow(run: Run, a: PassAnswers, j: JobId)
    requires j in run.rows
    ensures RowMoves(run.rows, a, Reconciled(run, a).rows, j)
  {
    var polled := Polled(run, a.poll);
    assert Rank(run.rows[j].status) <= Rank(polled.rows[j].status);
    DispatchMovesRow(polled, a.create, j);
  }

  /** What RunWithin says of one row. */
  lemma RowAtAfter(wf: Workflow, fate: JobId -> Outcome, n: nat, run: Run, j: JobId)
    requires RunWithin(wf, fate, n, run) && j in wf
    ensures RowAt(wf, fate, run.rows, j)
    ensures run.rows[j] == RUNNING ==> run.status == InProgress
  {
    assert RowWithin(wf, fate, j, n, run.rows[j]);
  }

  lemma OneMorePass(run: Run, answers: seq<PassAnswers>, q: nat)
    requires q < |answers|
    ensures var before := Passes(run, answers[..q]);
            Passes(run, answers[..q + 1]) ==
            if before.status == InProgress then Reconciled(before, answers[q]) else before
  {
    assert answers[..q + 1][..q] == answers[..q];
  }

  lemma PassesMakeATimeline(wf: Workflow, fate: JobId -> Outcome, run: Run, answers: seq<PassAnswers>)
    requires AllNeedsKnown(wf) && wf != map[] && RunWithin(wf, fate, 0, run) && AllMayMeet(fate, answers)
    ensures Timeline(wf, fate, RowsOfPasses(run, answers), answers)
  {
    var t := RowsOfPasses(run, answers);
    forall q, j | 0 <= q < |t| && j in wf
      ensures RowAt(wf, fate, t[q], j)
    {
      PassesKeepWithin(wf, fate, run, answers[..q]);
      RowAtAfter(wf, fate, q, Passes(run, answers[..q]), j);
    }
    forall q, k, j | 0 <= q < |answers| && k == q + 1 && j in wf
      ensures RowMoves(t[q], answers[q], t[k], j)
    {
      PassesKeepWithin(wf, fate, run, answers[..q]);
      RowAtAfter(wf, fate, q, Passes(run, answers[..q]), j);
      OneMorePass(run, answers, q);
      PassMovesRow(Passes(run, answers[..q]), answers[q], j);
    }
  }

  lemma NotRunningInTime(wf: Workflow, fate: JobId -> Outcome, n: nat, t: seq<map<JobId, JobRow>>,
                         answers: seq<PassAnswers>, delay: nat, j: JobId)
    requires AllNeedsKnown(wf) && Timeline(wf, fate, t, answers) && AnsweredWithin(wf, fate, answers, delay)
    requires Delays(delay, |wf|) <= |answers| && j in wf && RowsWithin(wf, fate, n, t[|answers|])
    ensures j in t[|answers|] && t[|answers|][j].status != InProgress
  {
    assert RowWithin(wf, fate, j, n, t[|answers|][j]);
    if t[|answers|][j] == RUNNING {
      HeightGrows(wf, j, n + 1, n + 1 + |wf|);
      HeightsExactly(wf, j, n + 1 + |wf|);
      HeightsExactly(wf, j, |wf|);
      RunsByDelay(wf, fate, t, answers, delay, |answers|, j, |wf|);
    }
  }

  lemma NoneRunningAtTheEnd(wf: Workflow, fate: JobId -> Outcome, n: nat, t: seq<map<JobId, JobRow>>,
                            answers: seq<PassAnswers>, delay: nat)
    requires AllNeedsKnown(wf) && Timeline(wf, fate, t, answers) && AnsweredWithin(wf, fate, answers, delay)
    requires Delays(delay, |wf|) <= |answers| && RowsWithin(wf, fate, n, t[|answers|])
    ensures NoneRunning(t[|answers|])
  {
    var last := t[|answers|];
    forall j | j in last
      ensures last[j].status != InProgress
    {
      NotRunningInTime(wf, fate, n, t, answers, delay, j);
    }
  }

  lemma NoneRunningInTime(wf: Workflow, fate: JobId -> Outcome, run: Run, answers: seq<PassAnswers>, delay: nat)
    requires AllNeedsKnown(wf) && wf != map[] && RunWithin(wf, fate, 0, run) && AllMayMeet(fate, answers)
    requires AnsweredWithin(wf, fate, answers, delay) && Delays(delay, |wf|) <= |answers|
    ensures NoneRunning(Passes(run, answers).rows)
  {
    var t := RowsOfPasses(run, answers);
    PassesMakeATimeline(wf, fate, run, answers);
    PassesKeepWithin(wf, fate, run, answers);
    assert answers[..|answers|] == answers;
    NoneRunningAtTheEnd(wf, fate, |answers|, t, answers, delay);
  }

  /** A bound on the time: if every job that Kubernetes accepts is answered at least once in any
      `delay` passes in a row, the run has settled after `delay` passes for each of its jobs. */
  lemma SettlesInTime(wf: Workflow, fate: JobId -> Outcome, run: Run, create: JobId -> CreateAnswer,
                      answers: seq<PassAnswers>, delay: nat)
    requires MayDrive(wf, fate, create, answers) && delay > 0
    requires AnsweredWithin(wf, fate, answers, delay) && delay * |wf| <= |answers|
    ensures Settled(wf, fate, Driven(wf, run, create, answers))
  {
    var start := Started(run.(workflow := Some(wf)));
    DelaysMultiply(delay, |wf|);
    DelaysMultiply(delay, |wf| - 1);
    StartIsWithin(wf, fate, start, create);
    NoneRunningInTime(wf, fate, Dispatched(start, create), answers, delay);
    SettlesOnceAnswered(wf, fate, run, create, answers);
  }
}
