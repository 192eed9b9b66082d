// Where a run ends up, and when: the controller's loop over a run each of whose jobs has a fixed
// fate on the cluster, seen by the next pass. The number of passes a run takes when every job
// succeeds is the longest need chain, exactly.
module Progress {
  import opened Collections
  import opened Wrappers
  import opened Workflows
  import opened Runs
  import opened Controllers

  /** What becomes of a job handed to Kubernetes. */
  datatype Outcome = Succeeds | Fails | Refused

  ghost predicate CreatesMeet(fate: JobId -> Outcome, create: JobId -> CreateAnswer)
  {
    forall j :: create(j) == CreateAnswer(fate(j) != Refused, true)
  }

  /** Kubernetes counts a succeeded pod of every job that succeeds, and only failed ones of those that fail. */
  ghost predicate PollsMeet(fate: JobId -> Outcome, poll: JobId -> PollAnswer)
  {
    forall j :: poll(j).recorded && (fate(j) != Refused ==> poll(j).job.Counts?) &&
      (fate(j) == Succeeds ==> poll(j).job.succeeded > 0) &&
      (fate(j) == Fails ==> poll(j).job.succeeded <= 0 < poll(j).job.failed)
  }

  ghost predicate Meets(fate: JobId -> Outcome, a: PassAnswers)
  {
    CreatesMeet(fate, a.create) && PollsMeet(fate, a.poll) && a.concludes
  }

  ghost predicate AllMeet(fate: JobId -> Outcome, answers: seq<PassAnswers>)
  {
    forall i :: 0 <= i < |answers| ==> Meets(fate, answers[i])
  }

  /** The state after successive calls of reconcileInProgressRuns. */
  function Passes(run: Run, answers: seq<PassAnswers>): Run
  {
    if answers == [] then run
    else
      var n := |answers| - 1;
      var before := Passes(run, answers[..n]);
      if before.status == InProgress then Reconciled(before, answers[n]) else before
  }

  // ----- heights -----

  ghost predicate ChainFrom(wf: Workflow, p: seq<JobId>, j: JobId)
  {
    JobChain(wf, p) && p != [] && p[0] == j
  }

  /** Every need chain that starts at `j` has at most `n` jobs. */
  ghost predicate HeightAtMost(wf: Workflow, j: JobId, n: nat)
  {
    forall p :: ChainFrom(wf, p, j) ==> |p| <= n
  }

  ghost predicate AllHeightsAtMost(wf: Workflow, n: nat)
  {
    forall j :: j in wf ==> HeightAtMost(wf, j, n)
  }

  lemma ChainTail(wf: Workflow, p: seq<JobId>)
    requires JobChain(wf, p) && |p| >= 2
    ensures ChainFrom(wf, p[1..], p[1]) && Edge(wf, p[0], p[1])
  {
  }

  lemma ChainCons(wf: Workflow, j: JobId, q: seq<JobId>)
    requires q != [] && JobChain(wf, q) && Edge(wf, j, q[0])
    ensures ChainFrom(wf, [j] + q, j)
  {
  }

  lemma HeightByNeeds(wf: Workflow, j: JobId, n: nat)
    requires AllNeedsKnown(wf) && j in wf
    ensures HeightAtMost(wf, j, n + 1) <==> forall d :: d in Normalized(wf[j].needs) ==> HeightAtMost(wf, d, n)
    ensures !HeightAtMost(wf, j, 0)
    ensures HeightAtMost(wf, j, n) ==> HeightAtMost(wf, j, n + 1)
  {
    assert ChainFrom(wf, [j], j);
    if HeightAtMost(wf, j, n + 1) {
      forall d | d in Normalized(wf[j].needs)
        ensures HeightAtMost(wf, d, n)
      {
        forall q | ChainFrom(wf, q, d)
          ensures |q| <= n
        {
          assert Edge(wf, j, d);
          ChainCons(wf, j, q);
        }
      }
    }
    if forall d :: d in Normalized(wf[j].needs) ==> HeightAtMost(wf, d, n) {
      forall p | ChainFrom(wf, p, j)
        ensures |p| <= n + 1
      {
        if |p| >= 2 {
          ChainTail(wf, p);
        }
      }
    }
  }

  lemma HeightsAreChains(wf: Workflow, n: nat)
    ensures AllHeightsAtMost(wf, n) <==> ChainsAtMost(wf, n)
  {
    if AllHeightsAtMost(wf, n) {
      forall p | JobChain(wf, p)
        ensures |p| <= n
      {
        if p != [] {
          assert p[0] in p && ChainFrom(wf, p, p[0]);
        }
      }
    }
  }

  // ----- one pass -----

  /** Some job that `j` needs, directly or not, does not succeed. */
  ghost predicate Doomed(wf: Workflow, fate: JobId -> Outcome, j: JobId)
  {
    exists d :: Reaches(wf, j, d) && fate(d) != Succeeds
  }

  lemma DoomedByNeeds(wf: Workflow, fate: JobId -> Outcome, j: JobId)
    ensures Doomed(wf, fate, j) <==> exists d :: Edge(wf, j, d) && (fate(d) != Succeeds || Doomed(wf, fate, d))
  {
    if Doomed(wf, fate, j) {
      var x :| Reaches(wf, j, x) && fate(x) != Succeeds;
      var d := ReachesFirstStep(wf, j, x);
    }
    if d :| Edge(wf, j, d) && (fate(d) != Succeeds || Doomed(wf, fate, d)) {
      EdgeReaches(wf, j, d);
      if fate(d) == Succeeds {
        var x :| Reaches(wf, d, x) && fate(x) != Succeeds;
        ReachesTransitive(wf, j, d, x);
      }
    }
  }

  /** The row of a job that has run. */
  function DoneRow(outcome: Outcome): JobRow
  {
    JobRow(Completed, Some(if outcome == Succeeds then Success else Failure), outcome != Refused)
  }

  /** The row of job `j` after the polls of pass `n`. */
  ghost function RowPolled(wf: Workflow, fate: JobId -> Outcome, j: JobId, n: nat): JobRow
  {
    if !Doomed(wf, fate, j) && HeightAtMost(wf, j, n) then DoneRow(fate(j)) else FRESH_ROW
  }

  /** The row of job `j` once `n` passes are over. */
  ghost function RowAfter(wf: Workflow, fate: JobId -> Outcome, j: JobId, n: nat): JobRow
  {
    if Doomed(wf, fate, j) then FRESH_ROW
    else if HeightAtMost(wf, j, n) then DoneRow(fate(j))
    else if !HeightAtMost(wf, j, n + 1) then FRESH_ROW
    else if fate(j) == Refused then DoneRow(Refused)
    else JobRow(InProgress, None, true)
  }

  ghost predicate RowsPolled(wf: Workflow, fate: JobId -> Outcome, n: nat, rows: map<JobId, JobRow>)
  {
    rows.Keys == wf.Keys && forall j :: j in wf ==> rows[j] == RowPolled(wf, fate, j, n)
  }

  ghost predicate RowsAfter(wf: Workflow, fate: JobId -> Outcome, n: nat, rows: map<JobId, JobRow>)
  {
    rows.Keys == wf.Keys && forall j :: j in wf ==> rows[j] == RowAfter(wf, fate, j, n)
  }

  ghost predicate AllOver(wf: Workflow, fate: JobId -> Outcome, n: nat)
  {
    forall j :: j in wf ==> RowAfter(wf, fate, j, n).status == Completed
  }

  ghost predicate AllSucceed(wf: Workflow, fate: JobId -> Outcome)
  {
    forall j :: j in wf ==> fate(j) == Succeeds
  }

  /** The run once `n` passes are over: it is completed by the first pass that leaves no job open. */
  ghost predicate RunAfter(wf: Workflow, fate: JobId -> Outcome, n: nat, run: Run)
  {
    && run.workflow == Some(wf) && RowsAfter(wf, fate, n, run.rows)
    && (if n > 0 && AllOver(wf, fate, n)
        then run.status == Completed && run.conclusion == Some(if AllSucceed(wf, fate) then Success else Failure)
        else run.status == InProgress)
  }

  lemma ReadyExactly(wf: Workflow, fate: JobId -> Outcome, n: nat, run: Run, j: JobId)
    requires AllNeedsKnown(wf) && run.workflow == Some(wf) && j in wf && RowsPolled(wf, fate, n, run.rows)
    ensures NeedsMet(wf, run.rows, j) <==> !Doomed(wf, fate, j) && HeightAtMost(wf, j, n + 1)
  {
    HeightByNeeds(wf, j, n);
    DoomedByNeeds(wf, fate, j);
    forall d | d in Normalized(wf[j].needs)
      ensures d in wf
      ensures IsSuccess(run.rows, d) <==> fate(d) == Succeeds && !Doomed(wf, fate, d) && HeightAtMost(wf, d, n)
    {
      assert Edge(wf, j, d);
    }
    assert forall d :: Edge(wf, j, d) <==> d in Normalized(wf[j].needs);
  }

  lemma DispatchRaises(wf: Workflow, fate: JobId -> Outcome, n: nat, run: Run, create: JobId -> CreateAnswer)
    requires AllNeedsKnown(wf) && CreatesMeet(fate, create)
    requires run.workflow == Some(wf) && RowsPolled(wf, fate, n, run.rows)
    ensures RowsAfter(wf, fate, n, Dispatched(run, create).rows)
  {
    var run' := Dispatched(run, create);
    forall j | j in wf
      ensures run'.rows[j] == RowAfter(wf, fate, j, n)
    {
      ReadyExactly(wf, fate, n, run, j);
      HeightByNeeds(wf, j, n);
      assert create(j) == CreateAnswer(fate(j) != Refused, true);
    }
  }

  lemma PollRaises(wf: Workflow, fate: JobId -> Outcome, n: nat, run: Run, poll: JobId -> PollAnswer)
    requires AllNeedsKnown(wf) && PollsMeet(fate, poll) && RowsAfter(wf, fate, n, run.rows)
    ensures RowsPolled(wf, fate, n + 1, Polled(run, poll).rows)
  {
    forall j | j in wf
      ensures Polled(run, poll).rows[j] == RowPolled(wf, fate, j, n + 1)
    {
      HeightByNeeds(wf, j, n);
      assert poll(j).recorded;
    }
  }

  lemma ConcludeRaises(wf: Workflow, fate: JobId -> Outcome, n: nat, run: Run)
    requires wf != map[] && n > 0
    requires run.workflow == Some(wf) && run.status == InProgress && RowsAfter(wf, fate, n, run.rows)
    ensures RunAfter(wf, fate, n, Concluded(run))
  {
    assert AllRowsCompleted(run.rows) <==> AllOver(wf, fate, n);
    if AllOver(wf, fate, n) {
      forall j | j in wf
        ensures run.rows[j] == DoneRow(fate(j))
      {
        assert RowAfter(wf, fate, j, n).status == Completed;
      }
      assert SomeRowFailed(run.rows) <==> !AllSucceed(wf, fate);
    }
  }

  lemma PassRaises(wf: Workflow, fate: JobId -> Outcome, n: nat, run: Run, a: PassAnswers)
    requires AllNeedsKnown(wf) && wf != map[] && Meets(fate, a)
    requires RunAfter(wf, fate, n, run) && run.status == InProgress
    ensures RunAfter(wf, fate, n + 1, Reconciled(run, a))
  {
    PollRaises(wf, fate, n, run, a.poll);
    DispatchRaises(wf, fate, n + 1, Polled(run, a.poll), a.create);
    ConcludeRaises(wf, fate, n + 1, Dispatched(Polled(run, a.poll), a.create));
  }

  lemma OverStaysOver(wf: Workflow, fate: JobId -> Outcome, n: nat)
    requires AllNeedsKnown(wf) && AllOver(wf, fate, n)
    ensures AllOver(wf, fate, n + 1)
    ensures forall j :: j in wf ==> RowAfter(wf, fate, j, n + 1) == RowAfter(wf, fate, j, n)
  {
    forall j | j in wf
      ensures RowAfter(wf, fate, j, n + 1) == RowAfter(wf, fate, j, n)
    {
      assert RowAfter(wf, fate, j, n).status == Completed;
      HeightByNeeds(wf, j, n);
    }
  }

  lemma StartedDispatch(wf: Workflow, fate: JobId -> Outcome, run: Run, create: JobId -> CreateAnswer)
    requires AllNeedsKnown(wf) && CreatesMeet(fate, create)
    requires run.workflow == Some(wf) && run.status == InProgress && run.rows == map j | j in wf :: FRESH_ROW
    ensures RunAfter(wf, fate, 0, Dispatched(run, create))
  {
    forall j | j in wf
      ensures !HeightAtMost(wf, j, 0)
    {
      HeightByNeeds(wf, j, 0);
    }
    assert RowsPolled(wf, fate, 0, run.rows);
    DispatchRaises(wf, fate, 0, run, create);
  }

  lemma {:induction false} PassesRaise(wf: Workflow, fate: JobId -> Outcome, run: Run, answers: seq<PassAnswers>)
    requires AllNeedsKnown(wf) && wf != map[] && RunAfter(wf, fate, 0, run) && AllMeet(fate, answers)
    ensures RunAfter(wf, fate, |answers|, Passes(run, answers))
  {
    if answers != [] {
      var n := |answers| - 1;
      PassesRaise(wf, fate, run, answers[..n]);
      var before := Passes(run, answers[..n]);
      if before.status == InProgress {
        PassRaises(wf, fate, n, before, answers[n]);
      } else {
        OverStaysOver(wf, fate, n);
        assert RowsAfter(wf, fate, n + 1, before.rows);
      }
    }
  }

  /** A run of the non-empty workflow `wf`, whose needs are all known, after a full start, a first
      dispatch and some passes that all meet its jobs' fate. */
  function Driven(wf: Workflow, run: Run, create: JobId -> CreateAnswer, answers: seq<PassAnswers>): Run
  {
    Passes(Dispatched(Started(run.(workflow := Some(wf))), create), answers)
  }

  ghost predicate Drives(wf: Workflow, fate: JobId -> Outcome, create: JobId -> CreateAnswer, answers: seq<PassAnswers>)
  {
    AllNeedsKnown(wf) && wf != map[] && CreatesMeet(fate, create) && AllMeet(fate, answers)
  }

  /** Whatever the fates of its jobs, after `n` passes the run has the rows that RowAfter describes,
      and it is completed as soon as all its jobs are, with success if and only if they all succeed. */
  lemma RunsGoByLevels(wf: Workflow, fate: JobId -> Outcome, run: Run, create: JobId -> CreateAnswer,
                       answers: seq<PassAnswers>)
    requires Drives(wf, fate, create, answers)
    ensures RunAfter(wf, fate, |answers|, Driven(wf, run, create, answers))
  {
    var start := Started(run.(workflow := Some(wf)));
    StartedDispatch(wf, fate, start, create);
    PassesRaise(wf, fate, Dispatched(start, create), answers);
  }

  lemma OverAtLongestChain(wf: Workflow, fate: JobId -> Outcome, n: nat)
    requires forall j :: fate(j) == Succeeds
    ensures AllOver(wf, fate, n) <==> ChainsAtMost(wf, n)
  {
    HeightsAreChains(wf, n);
    forall j | j in wf
      ensures RowAfter(wf, fate, j, n).status == Completed <==> HeightAtMost(wf, j, n)
    {
    }
  }

  lemma SomeChain(wf: Workflow)
    requires wf != map[]
    ensures !ChainsAtMost(wf, 0)
  {
    var j :| j in wf;
    assert JobChain(wf, [j]);
  }

  lemma LevelsEndAtLongestChain(wf: Workflow, n: nat, run: Run)
    requires wf != map[] && RunAfter(wf, _ => Succeeds, n, run)
    ensures if ChainsAtMost(wf, n) then run.status == Completed && run.conclusion == Some(Success)
            else run.status == InProgress
  {
    OverAtLongestChain(wf, _ => Succeeds, n);
    SomeChain(wf);
  }

  /** The progress bound, exactly: if every job succeeds, the run is completed with success after
      `n` passes if and only if no need chain has more than `n` jobs; until then it is in progress. */
  lemma CompletesExactlyAtLongestChain(wf: Workflow, run: Run, create: JobId -> CreateAnswer, answers: seq<PassAnswers>)
    requires Drives(wf, _ => Succeeds, create, answers)
    ensures var last := Driven(wf, run, create, answers);
            if ChainsAtMost(wf, |answers|) then last.status == Completed && last.conclusion == Some(Success)
            else last.status == InProgress
  {
    RunsGoByLevels(wf, _ => Succeeds, run, create, answers);
    LevelsEndAtLongestChain(wf, |answers|, Driven(wf, run, create, answers));
  }

  // ----- cycles -----

  lemma {:induction false} CyclePumps(wf: Workflow, j: JobId, n: nat) returns (p: seq<JobId>)
    requires AllNeedsKnown(wf) && Reaches(wf, j, j)
    ensures ChainFrom(wf, p, j) && |p| > n
  {
    var c :| ChainFromTo(wf, c, j, j);
    assert Edge(wf, c[0], c[1]);
    if n == 0 {
      p := [j];
    } else {
      var q := CyclePumps(wf, j, n - 1);
      p := ChainOnto(wf, c, q);
    }
  }

  /** A chain that follows `c` up to where `q` starts. */
  lemma {:induction false} ChainOnto(wf: Workflow, c: seq<JobId>, q: seq<JobId>) returns (p: seq<JobId>)
    requires Chain(wf, c) && |c| >= 2 && ChainFrom(wf, q, c[|c| - 1])
    ensures ChainFrom(wf, p, c[0]) && |p| > |q|
  {
    var n := |c| - 1;
    var i := n;
    p := q;
    while i > 0
      invariant 0 <= i <= n
      invariant ChainFrom(wf, p, c[i]) && |p| >= |q| && (i < n ==> |p| > |q|)
    {
      assert Edge(wf, c[i - 1], c[i - 1 + 1]);
      ChainCons(wf, c[i - 1], p);
      p := [c[i - 1]] + p;
      i := i - 1;
    }
  }

  /** A job has bounded chains exactly if it does not lie on or below a need cycle, and then they
      are no longer than the number of jobs. */
  lemma HeightsExactly(wf: Workflow, j: JobId, n: nat)
    requires AllNeedsKnown(wf) && n >= |wf|
    ensures HeightAtMost(wf, j, n) <==> !NeedsACycle(wf, j)
  {
    if NeedsACycle(wf, j) {
      var x :| (x == j || Reaches(wf, j, x)) && Reaches(wf, x, x);
      var p := CyclePumps(wf, x, n);
      if x != j {
        var c :| ChainFromTo(wf, c, j, x);
        p := ChainOnto(wf, c, p);
      }
      assert ChainFrom(wf, p, j) && |p| > n;
    } else {
      forall p | ChainFrom(wf, p, j)
        ensures |p| <= n
      {
        forall a, b | 0 <= a < b < |p|
          ensures p[a] != p[b]
        {
          SliceReaches(wf, p, a, b);
          if a > 0 {
            SliceReaches(wf, p, 0, a);
          }
        }
        DistinctFit(p, wf.Keys);
      }
    }
  }

  /** The job never leaves the queue. */
  ghost predicate Blocked(wf: Workflow, fate: JobId -> Outcome, j: JobId)
  {
    NeedsACycle(wf, j) || Doomed(wf, fate, j)
  }

  lemma RowsSettle(wf: Workflow, fate: JobId -> Outcome, n: nat, j: JobId)
    requires AllNeedsKnown(wf) && n >= |wf| && j in wf
    ensures RowAfter(wf, fate, j, n) == if Blocked(wf, fate, j) then FRESH_ROW else DoneRow(fate(j))
  {
    HeightsExactly(wf, j, n);
    HeightsExactly(wf, j, n + 1);
  }

  /** The rows and the status of a run that nothing can change any more. */
  ghost predicate Settled(wf: Workflow, fate: JobId -> Outcome, run: Run)
  {
    && run.rows == (map j | j in wf :: if Blocked(wf, fate, j) then FRESH_ROW else DoneRow(fate(j)))
    && (if exists j :: j in wf && Blocked(wf, fate, j) then run.status == InProgress
        else run.status == Completed && run.conclusion == Some(if AllSucceed(wf, fate) then Success else Failure))
  }

  lemma LevelsSettle(wf: Workflow, fate: JobId -> Outcome, n: nat, run: Run)
    requires AllNeedsKnown(wf) && wf != map[] && n >= |wf| && RunAfter(wf, fate, n, run)
    ensures Settled(wf, fate, run)
  {
    forall j | j in wf
      ensures RowAfter(wf, fate, j, n) == if Blocked(wf, fate, j) then FRESH_ROW else DoneRow(fate(j))
    {
      RowsSettle(wf, fate, n, j);
    }
  }

  /** Where every run ends up: after as many passes as it has jobs, the jobs on or below a need
      cycle and those below a job that does not succeed are untouched, and all others have run; the
      run is completed if and only if there are no jobs of the first kind, with success if and
      only if every job succeeds. */
  lemma RunsSettle(wf: Workflow, fate: JobId -> Outcome, run: Run, create: JobId -> CreateAnswer,
                   answers: seq<PassAnswers>)
    requires Drives(wf, fate, create, answers) && |answers| >= |wf|
    ensures Settled(wf, fate, Driven(wf, run, create, answers))
  {
    RunsGoByLevels(wf, fate, run, create, answers);
    LevelsSettle(wf, fate, |answers|, Driven(wf, run, create, answers));
  }

  /** Some number of passes completes a run whose jobs all succeed if and only if the workflow is
      acyclic; then as many as there are jobs are enough. */
  lemma AcyclicWorkflowsComplete(wf: Workflow)
    requires AllNeedsKnown(wf)
    ensures (exists n: nat :: ChainsAtMost(wf, n)) <==> Acyclic(wf)
    ensures Acyclic(wf) ==> ChainsAtMost(wf, |wf|)
  {
    if Acyclic(wf) {
      AcyclicChainsAreShort(wf);
    }
    if n: nat :| ChainsAtMost(wf, n) {
      forall j
        ensures !Reaches(wf, j, j)
      {
        if Reaches(wf, j, j) {
          var p := CyclePumps(wf, j, n);
          assert false;
        }
      }
    }
  }

  // ----- the controller's loop -----

  /** Every claim of the `queued` runs succeeds, every statement about the run `r` is carried out. */
  ghost predicate CleanTick(wf: Workflow, r: RunId, queued: nat, t: Tick)
  {
    t.claims > queued && t.start(r).inserts >= |wf| && AllRecorded(t.pass(r).poll)
  }

  /** The ticks are clean for `r`; only the first has to claim anything. */
  ghost predicate CleanTicks(wf: Workflow, r: RunId, runs: map<RunId, Run>, ticks: seq<Tick>)
  {
    forall i :: 0 <= i < |ticks| ==>
      CleanTick(wf, r, if i == 0 then |QueuedRuns(Joined(runs, ticks[0].arrivals))| else 0, ticks[i])
  }

  /** `r` is a queued run of the workflow `wf`, whose needs are all known. */
  ghost predicate Awaits(runs: map<RunId, Run>, r: RunId, wf: Workflow)
  {
    r in runs && runs[r].status == Queued && runs[r].workflow == Some(wf) && AllNeedsKnown(wf)
  }

  function PassesOf(r: RunId, ticks: seq<Tick>): (answers: seq<PassAnswers>)
    ensures |answers| == |ticks|
  {
    seq(|ticks|, i requires 0 <= i < |ticks| => ticks[i].pass(r))
  }

  /** What a queued run becomes when all its inserts succeed. */
  lemma ProcessedInFull(wf: Workflow, run: Run, a: StartAnswers, run': Run)
    requires run.status == Queued && run.workflow == Some(wf) && AllNeedsKnown(wf) && a.inserts >= |wf|
    requires ProcessedFrom(Apply(run, Claim), a, run')
    ensures run' == Dispatched(Started(run), a.create)
  {
    var mid :| ProcessedVia(Apply(run, Claim), a, mid, run');
    FullStart(run, a, mid);
  }

  lemma TickOnQueued(runs: map<RunId, Run>, t: Tick, runs': map<RunId, Run>, r: RunId) returns (mid: Run)
    requires TickLeads(runs, t, runs') && r in QueuedRuns(runs) && t.claims > |QueuedRuns(Joined(runs, t.arrivals))|
    ensures ProcessedRun(runs[r], t.start(r), mid) && r in runs'
    ensures if mid.status == InProgress then ReconciledRun(mid, t.pass(r), runs'[r]) else runs'[r] == mid
  {
    var done, between :| TickVia(runs, t, done, between, runs');
    assert r in QueuedRuns(Joined(runs, t.arrivals));
    mid := between[r];
  }

  lemma TickOnOther(runs: map<RunId, Run>, t: Tick, runs': map<RunId, Run>, r: RunId)
    requires TickLeads(runs, t, runs') && r in runs && runs[r].status != Queued
    ensures r in runs'
    ensures if runs[r].status == InProgress then ReconciledRun(runs[r], t.pass(r), runs'[r]) else runs'[r] == runs[r]
  {
    var done, between :| TickVia(runs, t, done, between, runs');
    assert r !in QueuedRuns(Joined(runs, t.arrivals)) && between[r] == runs[r];
  }

  lemma LastTick(runs: map<RunId, Run>, ticks: seq<Tick>, runs': map<RunId, Run>) returns (mid: map<RunId, Run>)
    requires TicksLead(runs, ticks, runs') && ticks != []
    ensures TicksLead(runs, ticks[..|ticks| - 1], mid) && TickLeads(mid, ticks[|ticks| - 1], runs')
    ensures |ticks| == 1 ==> mid == runs
  {
    var n := |ticks| - 1;
    mid :| TicksLead(runs, ticks[..n], mid) && TickLeads(mid, ticks[n], runs');
  }

  lemma NeverQueuedAgain(run: Run, answers: seq<PassAnswers>)
    requires run.status != Queued
    ensures Passes(run, answers).status != Queued
  {
  }

  lemma FirstTickIsAPass(wf: Workflow, runs: map<RunId, Run>, r: RunId, t: Tick, runs': map<RunId, Run>)
    requires Awaits(runs, r, wf) && TickLeads(runs, t, runs')
    requires CleanTick(wf, r, |QueuedRuns(Joined(runs, t.arrivals))|, t)
    ensures r in runs' && runs'[r] == Reconciled(Dispatched(Started(runs[r]), t.start(r).create), t.pass(r))
  {
    assert r in QueuedRuns(runs);
    var between := TickOnQueued(runs, t, runs', r);
    ProcessedInFull(wf, runs[r], t.start(r), between);
  }

  lemma LaterTickIsAPass(runs: map<RunId, Run>, r: RunId, t: Tick, runs': map<RunId, Run>)
    requires r in runs && runs[r].status != Queued && AllRecorded(t.pass(r).poll) && TickLeads(runs, t, runs')
    ensures r in runs' && runs'[r] == if runs[r].status == InProgress then Reconciled(runs[r], t.pass(r)) else runs[r]
  {
    TickOnOther(runs, t, runs', r);
  }

  lemma CleanPrefix(wf: Workflow, r: RunId, runs: map<RunId, Run>, ticks: seq<Tick>)
    requires CleanTicks(wf, r, runs, ticks) && |ticks| > 1
    ensures CleanTicks(wf, r, runs, ticks[..|ticks| - 1]) && ticks[..|ticks| - 1][0] == ticks[0]
    ensures CleanTick(wf, r, 0, ticks[|ticks| - 1])
    ensures PassesOf(r, ticks)[..|ticks| - 1] == PassesOf(r, ticks[..|ticks| - 1])
  {
    var n := |ticks| - 1;
    forall i | 0 <= i < n
      ensures CleanTick(wf, r, if i == 0 then |QueuedRuns(Joined(runs, ticks[0].arrivals))| else 0, ticks[..n][i])
    {
      assert ticks[..n][i] == ticks[i];
    }
  }

  /** The loop from the queued run on: its first tick claims, starts and dispatches the run, and
      each tick, the first included, is one of its reconcile passes until it is completed. */
  lemma {:induction false} TicksArePasses(wf: Workflow, runs: map<RunId, Run>, r: RunId, ticks: seq<Tick>,
                                          runs': map<RunId, Run>)
    requires Awaits(runs, r, wf) && CleanTicks(wf, r, runs, ticks) && TicksLead(runs, ticks, runs') && ticks != []
    ensures r in runs'
    ensures runs'[r] == Passes(Dispatched(Started(runs[r]), ticks[0].start(r).create), PassesOf(r, ticks))
    decreases |ticks|
  {
    var n := |ticks| - 1;
    var mid := LastTick(runs, ticks, runs');
    var start := Dispatched(Started(runs[r]), ticks[0].start(r).create);
    if n == 0 {
      assert CleanTick(wf, r, |QueuedRuns(Joined(runs, ticks[0].arrivals))|, ticks[0]);
      FirstTickIsAPass(wf, runs, r, ticks[0], runs');
      OnePass(start, PassesOf(r, ticks));
    } else {
      CleanPrefix(wf, r, runs, ticks);
      TicksArePasses(wf, runs, r, ticks[..n], mid);
      NeverQueuedAgain(start, PassesOf(r, ticks[..n]));
      LaterTickIsAPass(mid, r, ticks[n], runs');
    }
  }

  lemma OnePass(run: Run, answers: seq<PassAnswers>)
    requires |answers| == 1 && run.status == InProgress
    ensures Passes(run, answers) == Reconciled(run, answers[0])
  {
    assert Passes(run, answers[..0]) == run;
  }
}
