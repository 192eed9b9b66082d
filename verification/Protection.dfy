// Branch protection: internal/repo/protection.go. It reads the job rows the controller writes.
module Protection {
  import opened Collections
  import opened Wrappers
  import opened Workflows
  import opened Runs
  import opened Controllers

  datatype ProtectedBranch = ProtectedBranch(requiredChecks: seq<JobId>, requireReviews: int)

  /** The protected branches of one repository, by branch name. */
  type Branches = map<string, ProtectedBranch>

  datatype CheckResult = CheckResult(missing: seq<JobId>, pending: seq<JobId>, failed: seq<JobId>) {
    predicate HasBlockers() {
      |failed| + |pending| + |missing| > 0
    }
  }

  /** A row of the join of workflow_jobs and workflow_runs. */
  datatype ScanRow = ScanRow(job: JobId, status: Status, conclusion: Option<Conclusion>)

  datatype CheckState = Missing | Pending | Failed | Passed

  datatype Violation = NeedApprovals(need: int, have: int) | BadChecks(result: CheckResult)

  predicate RowPasses(row: ScanRow)
  {
    row.status == Completed && row.conclusion == Some(Success)
  }

  function RowState(row: ScanRow): CheckState
  {
    if row.status != Completed then Pending else if row.conclusion == Some(Success) then Passed else Failed
  }

  /** The state of a check: that of its last row in scan order. */
  function StateOf(rows: seq<ScanRow>, check: JobId): CheckState
  {
    if rows == [] then Missing
    else if rows[|rows| - 1].job == check then RowState(rows[|rows| - 1])
    else StateOf(rows[..|rows| - 1], check)
  }

  /** The checks in the given state, in the order they are required. */
  function Bucket(rows: seq<ScanRow>, checks: seq<JobId>, state: CheckState): seq<JobId>
  {
    if checks == [] then []
    else
      var n := |checks| - 1;
      Bucket(rows, checks[..n], state) + if StateOf(rows, checks[n]) == state then [checks[n]] else []
  }

  function ResultOf(rows: seq<ScanRow>, checks: seq<JobId>): CheckResult
  {
    CheckResult(Bucket(rows, checks, Missing), Bucket(rows, checks, Pending), Bucket(rows, checks, Failed))
  }

  method CheckRequiredChecks(rows: seq<ScanRow>, checks: seq<JobId>) returns (res: CheckResult)
    ensures res == ResultOf(rows, checks)
    ensures forall c :: c in res.missing <==> c in checks && forall i :: 0 <= i < |rows| ==> rows[i].job != c
    ensures forall c :: c in res.pending <==>
              c in checks && exists i: nat :: IsLastFor(rows, i, c) && rows[i].status != Completed
    ensures forall c :: c in res.failed <==>
              c in checks && exists i: nat :: IsLastFor(rows, i, c) && rows[i].status == Completed &&
                                              rows[i].conclusion != Some(Success)
    ensures !res.HasBlockers() <==> forall c :: c in checks ==> StateOf(rows, c) == Passed
  {
    forall c {
      BucketsByLastRow(rows, checks, c);
    }
    res := CheckResult([], [], []);
    if |checks| == 0 {
      return;
    }
    var statusByCheck: map<JobId, CheckState> := map[];
    for i := 0 to |rows|
      invariant forall c :: StateOf(rows[..i], c) == if c in statusByCheck then statusByCheck[c] else Missing
      invariant forall c :: c in statusByCheck ==> statusByCheck[c] != Missing
    {
      assert rows[..i + 1][..i] == rows[..i];
      var row := rows[i];
      if row.status != Completed {
        statusByCheck := statusByCheck[row.job := Pending];
      } else if row.conclusion.Some? && row.conclusion.value == Success {
        statusByCheck := statusByCheck[row.job := Passed];
      } else {
        statusByCheck := statusByCheck[row.job := Failed];
      }
    }
    assert rows[..|rows|] == rows;
    for i := 0 to |checks|
      invariant res == ResultOf(rows, checks[..i])
    {
      assert checks[..i + 1][..i] == checks[..i];
      var check := checks[i];
      var state := if check in statusByCheck then statusByCheck[check] else Missing;
      match state {
        case Passed =>
        case Failed => res := res.(failed := res.failed + [check]);
        case Pending => res := res.(pending := res.pending + [check]);
        case Missing => res := res.(missing := res.missing + [check]);
      }
    }
    assert checks[..|checks|] == checks;
    BlockersExactly(rows, checks);
  }

  lemma {:induction false} BucketMembers(rows: seq<ScanRow>, checks: seq<JobId>, state: CheckState, c: JobId)
    ensures c in Bucket(rows, checks, state) <==> c in checks && StateOf(rows, c) == state
  {
    if checks != [] {
      var n := |checks| - 1;
      BucketMembers(rows, checks[..n], state, c);
      assert checks == checks[..n] + [checks[n]];
    }
  }

  /** What the buckets hold, from the rows alone: the last row of a check decides. */
  lemma BucketsByLastRow(rows: seq<ScanRow>, checks: seq<JobId>, c: JobId)
    ensures var res := ResultOf(rows, checks);
            && (c in res.missing <==> c in checks && forall i :: 0 <= i < |rows| ==> rows[i].job != c)
            && (c in res.pending <==>
                 c in checks && exists i: nat :: IsLastFor(rows, i, c) && rows[i].status != Completed)
            && (c in res.failed <==>
                 c in checks && exists i: nat :: IsLastFor(rows, i, c) && rows[i].status == Completed &&
                                                 rows[i].conclusion != Some(Success))
  {
    BucketMembers(rows, checks, Missing, c);
    BucketMembers(rows, checks, Pending, c);
    BucketMembers(rows, checks, Failed, c);
    StateByLastRow(rows, c);
    if i: nat :| IsLastFor(rows, i, c) {
      assert forall k: nat :: IsLastFor(rows, k, c) ==> k == i;
    }
  }

  lemma {:induction false} StateOfLast(rows: seq<ScanRow>, i: nat, c: JobId)
    requires IsLastFor(rows, i, c)
    ensures StateOf(rows, c) == if rows[i].status != Completed then Pending
                                else if rows[i].conclusion == Some(Success) then Passed else Failed
  {
    var n := |rows| - 1;
    if i < n {
      StateOfLast(rows[..n], i, c);
    }
  }

  lemma {:induction false} StateOfNone(rows: seq<ScanRow>, c: JobId)
    requires forall i :: 0 <= i < |rows| ==> rows[i].job != c
    ensures StateOf(rows, c) == Missing
  {
    if rows != [] {
      StateOfNone(rows[..|rows| - 1], c);
    }
  }

  /** The state of a check is that of its last row, or missing when it has none. */
  lemma StateByLastRow(rows: seq<ScanRow>, c: JobId)
    ensures StateOf(rows, c) == Missing <==> forall i :: 0 <= i < |rows| ==> rows[i].job != c
    ensures forall i: nat :: IsLastFor(rows, i, c) ==>
              StateOf(rows, c) == if rows[i].status != Completed then Pending
                                  else if rows[i].conclusion == Some(Success) then Passed else Failed
    ensures StateOf(rows, c) != Missing ==> exists i: nat :: IsLastFor(rows, i, c)
  {
    forall i: nat | IsLastFor(rows, i, c)
      ensures StateOf(rows, c) == if rows[i].status != Completed then Pending
                                  else if rows[i].conclusion == Some(Success) then Passed else Failed
    {
      StateOfLast(rows, i, c);
    }
    if SomeRowFor(rows, c) {
      var i := LastIndex(rows, c);
    } else {
      StateOfNone(rows, c);
    }
  }

  /** Picks the checks in the given state. */
  function InState(rows: seq<ScanRow>, state: CheckState): JobId -> Option<JobId>
  {
    c => if StateOf(rows, c) == state then Some(c) else None
  }

  /** Every bucket keeps the order, and the repetitions, in which the checks are required. */
  lemma {:induction false} BucketsKeepOrder(rows: seq<ScanRow>, checks: seq<JobId>, state: CheckState)
    ensures Selects(checks, Bucket(rows, checks, state), InState(rows, state))
  {
    if checks == [] {
      SelectsNothing(InState(rows, state));
    } else {
      var n := |checks| - 1;
      BucketsKeepOrder(rows, checks[..n], state);
      SelectsOneMore(checks, Bucket(rows, checks[..n], state), InState(rows, state), Bucket(rows, checks, state));
    }
  }

  lemma BlockersExactly(rows: seq<ScanRow>, checks: seq<JobId>)
    ensures !ResultOf(rows, checks).HasBlockers() <==> forall c :: c in checks ==> StateOf(rows, c) == Passed
  {
    forall c
      ensures c in ResultOf(rows, checks).missing + ResultOf(rows, checks).pending + ResultOf(rows, checks).failed <==>
              c in checks && StateOf(rows, c) != Passed
    {
      BucketMembers(rows, checks, Missing, c);
      BucketMembers(rows, checks, Pending, c);
      BucketMembers(rows, checks, Failed, c);
    }
    var all := ResultOf(rows, checks).missing + ResultOf(rows, checks).pending + ResultOf(rows, checks).failed;
    if all != [] {
      assert all[0] in all;
    }
  }

  // ----- merging -----

  predicate ApprovalsSuffice(pb: ProtectedBranch, approved: int)
  {
    pb.requireReviews > 0 ==> approved >= pb.requireReviews
  }

  /** The last row for `check` in scan order exists and is completed with success. */
  ghost predicate LastRowPasses(rows: seq<ScanRow>, check: JobId)
  {
    exists i: nat :: IsLastFor(rows, i, check) && RowPasses(rows[i])
  }

  /** Row `i` is the last one of the check. */
  ghost predicate IsLastFor(rows: seq<ScanRow>, i: nat, check: JobId)
  {
    i < |rows| && rows[i].job == check && forall k :: i < k < |rows| ==> rows[k].job != check
  }

  ghost predicate MergeAccepted(branches: Branches, base: string, rows: seq<ScanRow>, approved: int)
  {
    base in branches ==>
      ApprovalsSuffice(branches[base], approved) &&
      forall c :: c in branches[base].requiredChecks ==> LastRowPasses(rows, c)
  }

  /** None when the merge is accepted. */
  method ValidateMergeProtection(branches: Branches, base: string, rows: seq<ScanRow>, approved: int)
    returns (violation: Option<Violation>)
    ensures violation.None? <==> MergeAccepted(branches, base, rows, approved)
    ensures violation.Some? ==> base in branches
    ensures violation.Some? ==>
              violation.value == if 0 < branches[base].requireReviews && approved < branches[base].requireReviews
                                 then NeedApprovals(branches[base].requireReviews, approved)
                                 else BadChecks(ResultOf(rows, branches[base].requiredChecks))
  {
    if base !in branches {
      return None;
    }
    var pb := branches[base];
    if pb.requireReviews > 0 && approved < pb.requireReviews {
      return Some(NeedApprovals(pb.requireReviews, approved));
    }
    var res := CheckRequiredChecks(rows, pb.requiredChecks);
    forall c {
      PassedMeansLastRow(rows, c);
    }
    if !res.HasBlockers() {
      return None;
    }
    return Some(BadChecks(res));
  }

  lemma PassedMeansLastRow(rows: seq<ScanRow>, c: JobId)
    ensures StateOf(rows, c) == Passed <==> LastRowPasses(rows, c)
  {
    StateByLastRow(rows, c);
  }

  lemma LastStaysLast(rows: seq<ScanRow>, i: nat, c: JobId)
    requires rows != [] && rows[|rows| - 1].job != c
    ensures IsLastFor(rows[..|rows| - 1], i, c) <==> IsLastFor(rows, i, c)
  {
    var init := rows[..|rows| - 1];
    assert forall k :: 0 <= k < |init| ==> init[k] == rows[k];
  }

  // ----- the rows the controller leaves behind -----

  predicate Matches(run: Run, repo: string, sha: string)
  {
    run.repo == repo && run.sha == sha
  }

  /** `scan` lists, in some order, every job row recorded for the commit, once each. */
  ghost predicate IsScan(runs: map<RunId, Run>, repo: string, sha: string, scan: seq<(RunId, JobId)>)
  {
    && NoDuplicates(scan)
    && forall r, j :: (r, j) in scan <==> r in runs && Matches(runs[r], repo, sha) && j in runs[r].rows
  }

  function ReadRow(runs: map<RunId, Run>, at: (RunId, JobId)): ScanRow
    requires at.0 in runs && at.1 in runs[at.0].rows
  {
    ScanRow(at.1, runs[at.0].rows[at.1].status, runs[at.0].rows[at.1].conclusion)
  }

  function Read(runs: map<RunId, Run>, scan: seq<(RunId, JobId)>): (rows: seq<ScanRow>)
    requires forall at :: at in scan ==> at.0 in runs && at.1 in runs[at.0].rows
    ensures |rows| == |scan| && forall i :: 0 <= i < |scan| ==> rows[i] == ReadRow(runs, scan[i])
  {
    if scan == [] then [] else Read(runs, scan[..|scan| - 1]) + [ReadRow(runs, scan[|scan| - 1])]
  }

  ghost predicate OnlyRun(runs: map<RunId, Run>, repo: string, sha: string, r: RunId)
  {
    forall q :: q in runs && Matches(runs[q], repo, sha) <==> q == r
  }

  lemma ScanIsReadable(runs: map<RunId, Run>, repo: string, sha: string, scan: seq<(RunId, JobId)>)
    requires IsScan(runs, repo, sha, scan)
    ensures forall at :: at in scan ==> at.0 in runs && at.1 in runs[at.0].rows
  {
  }

  /** From the controller to the merge button: when the only run of a commit completed with
      success, its rows include every required check and approvals suffice, the merge is
      accepted in whatever order the rows are scanned. */
  lemma SuccessfulRunAllowsMerge(runs: map<RunId, Run>, repo: string, sha: string, r: RunId, branches: Branches,
                                 base: string, approved: int, scan: seq<(RunId, JobId)>)
    requires OnlyRun(runs, repo, sha, r) && Reachable(runs[r]) && IsScan(runs, repo, sha, scan)
    requires runs[r].status == Completed && runs[r].conclusion == Some(Success)
    requires base in branches ==> ApprovalsSuffice(branches[base], approved)
    requires base in branches ==> forall c :: c in branches[base].requiredChecks ==> c in runs[r].rows
    ensures forall at :: at in scan ==> at.0 in runs && at.1 in runs[at.0].rows
    ensures MergeAccepted(branches, base, Read(runs, scan), approved)
  {
    ScanIsReadable(runs, repo, sha, scan);
    ReachableHasInv(runs[r]);
    var rows := Read(runs, scan);
    if base in branches {
      forall c | c in branches[base].requiredChecks
        ensures LastRowPasses(rows, c)
      {
        assert (r, c) in scan;
        var i :| 0 <= i < |scan| && scan[i] == (r, c);
        assert rows[i] == ReadRow(runs, (r, c));
        CompletedWithoutFailure(runs[r], c);
        forall k | i < k < |rows|
          ensures rows[k].job != c
        {
          assert scan[k] == (scan[k].0, scan[k].1) && scan[k] in scan && scan[k] != scan[i];
        }
      }
    }
  }

  lemma SuccessNeedsSuccess(run: Run, c: JobId)
    requires Reachable(run) && IsSuccess(run.rows, c)
    ensures run.workflow.Some? && forall d :: Reaches(run.workflow.value, c, d) ==> IsSuccess(run.rows, d)
  {
    ReachableHasInv(run);
    forall d | Reaches(run.workflow.value, c, d)
      ensures IsSuccess(run.rows, d)
    {
      DependencySafety(run, c, d);
    }
  }

  /** From the merge button back to the controller: a merge accepted on a protected branch means
      that, for every required check, some run of the commit has that job completed with success
      and with it every job it needs, directly or not. */
  lemma AcceptedMergeMeansWorkDone(runs: map<RunId, Run>, repo: string, sha: string, branches: Branches, base: string,
                                   approved: int, scan: seq<(RunId, JobId)>, c: JobId) returns (r: RunId)
    requires (forall q :: q in runs ==> Reachable(runs[q])) && IsScan(runs, repo, sha, scan)
    requires forall at :: at in scan ==> at.0 in runs && at.1 in runs[at.0].rows
    requires base in branches && c in branches[base].requiredChecks
    requires MergeAccepted(branches, base, Read(runs, scan), approved)
    ensures r in runs && Matches(runs[r], repo, sha) && IsSuccess(runs[r].rows, c) && runs[r].workflow.Some?
    ensures forall d :: Reaches(runs[r].workflow.value, c, d) ==> IsSuccess(runs[r].rows, d)
  {
    var rows := Read(runs, scan);
    assert LastRowPasses(rows, c);
    var i: nat :| IsLastFor(rows, i, c) && RowPasses(rows[i]);
    r := scan[i].0;
    assert scan[i] == (r, c) && scan[i] in scan;
    SuccessNeedsSuccess(runs[r], c);
  }

  lemma CompletedWithoutFailure(run: Run, j: JobId)
    requires Inv(run) && run.status == Completed && run.conclusion == Some(Success) && j in run.rows
    ensures IsSuccess(run.rows, j)
  {
    assert AllRowsCompleted(run.rows) && RowWellFormed(run.rows[j]);
    match run.rows[j].conclusion.value {
      case Success =>
      case Failure => assert SomeRowFailed(run.rows);
    }
  }

  // ----- several runs of one commit: the scan order can decide -----

  ghost predicate SomeRowFor(rows: seq<ScanRow>, c: JobId)
  {
    exists i :: 0 <= i < |rows| && rows[i].job == c
  }

  ghost predicate EveryRowPasses(rows: seq<ScanRow>, c: JobId)
  {
    forall i :: 0 <= i < |rows| && rows[i].job == c ==> RowPasses(rows[i])
  }

  lemma MoveToEnd(rows: seq<ScanRow>, i: nat) returns (rows': seq<ScanRow>)
    requires i < |rows|
    ensures multiset(rows') == multiset(rows) && rows' != [] && rows'[|rows'| - 1] == rows[i]
  {
    rows' := rows[..i] + rows[i + 1..] + [rows[i]];
    assert rows == rows[..i] + [rows[i]] + rows[i + 1..];
  }

  /** A check passes in every scan order exactly when it has a row and all its rows pass. The
      query has no ORDER BY, so with several runs of a commit this is what a merge relies on. */
  lemma PassesInEveryOrder(rows: seq<ScanRow>, c: JobId)
    ensures (forall rows': seq<ScanRow> :: multiset(rows') == multiset(rows) ==> LastRowPasses(rows', c)) <==>
            SomeRowFor(rows, c) && EveryRowPasses(rows, c)
  {
    if forall rows': seq<ScanRow> :: multiset(rows') == multiset(rows) ==> LastRowPasses(rows', c) {
      assert LastRowPasses(rows, c);
      forall i | 0 <= i < |rows| && rows[i].job == c
        ensures RowPasses(rows[i])
      {
        var rows' := MoveToEnd(rows, i);
        assert LastRowPasses(rows', c);
      }
    }
    if SomeRowFor(rows, c) && EveryRowPasses(rows, c) {
      forall rows': seq<ScanRow> | multiset(rows') == multiset(rows)
        ensures LastRowPasses(rows', c)
      {
        var i :| 0 <= i < |rows| && rows[i].job == c;
        assert rows[i] in multiset(rows');
        forall k | 0 <= k < |rows'|
          ensures rows'[k] in rows
        {
          assert rows'[k] in multiset(rows');
        }
        var last := LastIndex(rows', c);
      }
    }
  }

  lemma {:induction false} LastIndex(rows: seq<ScanRow>, c: JobId) returns (i: nat)
    requires SomeRowFor(rows, c)
    ensures IsLastFor(rows, i, c)
  {
    var n := |rows| - 1;
    if rows[n].job == c {
      i := n;
    } else {
      var k :| 0 <= k < |rows| && rows[k].job == c;
      assert rows[..n][k].job == c;
      i := LastIndex(rows[..n], c);
      LastStaysLast(rows, i, c);
    }
  }

  /** A check passes in some scan order exactly when one of its rows passes. */
  lemma PassesInSomeOrder(rows: seq<ScanRow>, c: JobId)
    ensures (exists rows': seq<ScanRow> :: multiset(rows') == multiset(rows) && LastRowPasses(rows', c)) <==>
            exists i :: 0 <= i < |rows| && rows[i].job == c && RowPasses(rows[i])
  {
    if rows': seq<ScanRow> :| multiset(rows') == multiset(rows) && LastRowPasses(rows', c) {
      var i :| 0 <= i < |rows'| && rows'[i].job == c && RowPasses(rows'[i]);
      assert rows'[i] in multiset(rows);
    }
    if i :| 0 <= i < |rows| && rows[i].job == c && RowPasses(rows[i]) {
      var rows' := MoveToEnd(rows, i);
      assert LastRowPasses(rows', c);
    }
  }
}
