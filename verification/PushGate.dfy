// The check of a push against branch protection, from the request body to the verdict:
// internal/repo/protection.go:164-187 over internal/git/protocol.go.
module PushGate {
  import opened Collections
  import opened Wrappers
  import opened Text
  import opened PktLine
  import opened Protection

  const HEADS := "refs/heads/"

  /** The protected branch that the update pushes to, creates or deletes, if any. */
  function Target(branches: Branches, u: RefUpdate): Option<string>
  {
    if HEADS <= u.ref && u.ref[|HEADS|..] in branches then Some(u.ref[|HEADS|..]) else None
  }

  /** Which refs that means. */
  lemma TargetExactly(branches: Branches, u: RefUpdate, b: string)
    ensures Target(branches, u) == Some(b) <==> b in branches && u.ref == "refs/heads/" + b
  {
    assert "refs/heads/" <= u.ref ==> u.ref == "refs/heads/" + u.ref[11..];
    assert ("refs/heads/" + b)[11..] == b;
  }

  function TargetIn(branches: Branches): RefUpdate -> Option<string>
  {
    u => Target(branches, u)
  }

  /** The protected branches that the updates target, in order. */
  function Offending(branches: Branches, refs: seq<RefUpdate>): seq<string>
  {
    if refs == [] then []
    else
      var n := |refs| - 1;
      var target := Target(branches, refs[n]);
      Offending(branches, refs[..n]) + if target.Some? then [target.value] else []
  }

  /** The branches named in the error, in the order of their updates; none when the push is allowed. */
  method CheckPushProtection(branches: Branches, refs: seq<RefUpdate>) returns (errs: seq<string>)
    ensures errs == Offending(branches, refs)
    ensures forall b :: b in errs <==> b in branches && exists u :: u in refs && u.ref == "refs/heads/" + b
    ensures Selects(refs, errs, TargetIn(branches))
  {
    errs := [];
    for i := 0 to |refs|
      invariant errs == Offending(branches, refs[..i])
    {
      assert refs[..i + 1][..i] == refs[..i];
      if !(HEADS <= refs[i].ref) {
        continue;
      }
      var branch := TrimPrefix(refs[i].ref, HEADS);
      if branch in branches {
        errs := errs + [branch];
      }
    }
    assert refs[..|refs|] == refs;
    OffendingInOrder(branches, refs);
    forall b {
      OffendingExactly(branches, refs, b);
    }
  }

  /** The names keep the order of the updates, and one that is updated twice is named twice. */
  lemma {:induction false} OffendingInOrder(branches: Branches, refs: seq<RefUpdate>)
    ensures Selects(refs, Offending(branches, refs), TargetIn(branches))
  {
    if refs == [] {
      SelectsNothing(TargetIn(branches));
    } else {
      var n := |refs| - 1;
      OffendingInOrder(branches, refs[..n]);
      SelectsOneMore(refs, Offending(branches, refs[..n]), TargetIn(branches), Offending(branches, refs));
    }
  }

  /** A branch is named exactly when it is protected and some update is of "refs/heads/" and its name. */
  lemma OffendingExactly(branches: Branches, refs: seq<RefUpdate>, b: string)
    ensures b in Offending(branches, refs) <==> b in branches && exists u :: u in refs && u.ref == "refs/heads/" + b
  {
    OffendingInOrder(branches, refs);
    SelectedMembers(refs, Offending(branches, refs), TargetIn(branches), b);
    forall i | 0 <= i < |refs|
      ensures TargetIn(branches)(refs[i]) == Some(b) <==> b in branches && refs[i].ref == "refs/heads/" + b
    {
      TargetExactly(branches, refs[i], b);
    }
  }

  lemma PlainRefs(updates: seq<(RefUpdate, string)>, ref: string)
    ensures (exists u :: u in Plain(updates) && u.ref == ref) <==>
            exists i :: 0 <= i < |updates| && updates[i].0.ref == ref
  {
    var refs := Plain(updates);
    if i :| 0 <= i < |updates| && updates[i].0.ref == ref {
      assert refs[i] in refs;
    }
    if u :| u in refs && u.ref == ref {
      var i :| 0 <= i < |refs| && refs[i] == u;
      assert updates[i].0.ref == ref;
    }
  }

  /** A framed push has a branch named against it exactly when the branch is protected and one of
      the framed updates is of it, whatever the capabilities and pack bytes. */
  lemma FramedPushIsJudgedByItsUpdates(branches: Branches, updates: seq<(RefUpdate, string)>, pack: string, b: string)
    requires forall i :: 0 <= i < |updates| ==> Encodable(updates[i].0, updates[i].1)
    ensures b in Offending(branches, Parse(Encode(updates) + "0000" + pack)) <==>
            b in branches && exists i :: 0 <= i < |updates| && updates[i].0.ref == "refs/heads/" + b
  {
    ParseRoundTrip(updates, pack);
    OffendingExactly(branches, Plain(updates), b);
    PlainRefs(updates, "refs/heads/" + b);
  }

  /** Cutting a request short never makes a branch be named against it. */
  lemma TruncationOnlyForgives(branches: Branches, data: string, k: nat, b: string)
    requires k <= |data| && b in Offending(branches, Parse(data[..k]))
    ensures b in Offending(branches, Parse(data))
  {
    TruncationParsesToPrefix(data, k);
    OffendingExactly(branches, Parse(data[..k]), b);
    OffendingExactly(branches, Parse(data), b);
    var u :| u in Parse(data[..k]) && u.ref == "refs/heads/" + b;
    assert u in Parse(data);
  }
}
