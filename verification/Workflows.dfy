// The job graph of a workflow: internal/actions/actions.go.
//
// A workflow maps job names to jobs; a job's `needs` field is whatever the YAML
// decoder produced. Only that field matters to scheduling, so it is the only one kept.
module Workflows {
  import opened Collections
  import opened Wrappers

  type JobId = string

  /** A decoded YAML value, as far as `needs` looks at it. */
  datatype Yaml = Str(s: string) | List(items: seq<Yaml>) | Other

  datatype Job = Job(needs: Yaml)

  type Workflow = map<JobId, Job>

  /** The strings among `items`, in order. */
  function Strings(items: seq<Yaml>): (out: seq<JobId>)
  {
    if items == [] then []
    else
      var init := Strings(items[..|items| - 1]);
      if items[|items| - 1].Str? then init + [items[|items| - 1].s] else init
  }

  /** The names a `needs` field lists: one string, the strings of a list, or nothing. */
  function Normalized(v: Yaml): seq<JobId>
  {
    match v
    case Str(s) => [s]
    case List(items) => Strings(items)
    case Other => []
  }

  method NormalizeNeeds(v: Yaml) returns (out: seq<JobId>)
    ensures out == Normalized(v)
    ensures forall d :: d in out <==> v == Str(d) || (v.List? && Str(d) in v.items)
  {
    match v {
      case Str(s) => out := [s];
      case List(items) =>
        out := [];
        for i := 0 to |items|
          invariant out == Strings(items[..i])
        {
          assert items[..i + 1][..i] == items[..i];
          if items[i].Str? {
            out := out + [items[i].s];
          }
        }
        assert items[..|items|] == items;
        forall d {
          StringsAreTheStrings(items, d);
        }
      case Other => out := [];
    }
  }

  function StringOf(): Yaml -> Option<JobId>
  {
    (v: Yaml) => if v.Str? then Some(v.s) else None
  }

  /** The strings of a list keep their order, and their repetitions. */
  lemma {:induction false} StringsInOrder(items: seq<Yaml>)
    ensures Selects(items, Strings(items), StringOf())
  {
    if items == [] {
      SelectsNothing(StringOf());
    } else {
      StringsInOrder(items[..|items| - 1]);
      SelectsOneMore(items, Strings(items[..|items| - 1]), StringOf(), Strings(items));
    }
  }

  lemma {:induction false} StringsAreTheStrings(items: seq<Yaml>, d: JobId)
    ensures d in Strings(items) <==> Str(d) in items
  {
    if items != [] {
      var n := |items| - 1;
      StringsAreTheStrings(items[..n], d);
      assert items == items[..n] + [items[n]];
    }
  }

  // ----- the graph -----

  /** Job `a` is in the workflow and lists `b` among its needs. */
  predicate Edge(wf: Workflow, a: JobId, b: JobId)
  {
    a in wf && b in Normalized(wf[a].needs)
  }

  /** `p` runs from a job to one of its needs, then to one of that job's needs, and so on. */
  ghost predicate Chain(wf: Workflow, p: seq<JobId>)
  {
    forall i, k :: 0 <= i < k < |p| && k == i + 1 ==> Edge(wf, p[i], p[k])
  }

  ghost predicate ChainFromTo(wf: Workflow, p: seq<JobId>, a: JobId, b: JobId)
  {
    |p| >= 2 && Chain(wf, p) && p[0] == a && p[|p| - 1] == b
  }

  /** `b` is a transitive need of `a`. */
  ghost predicate Reaches(wf: Workflow, a: JobId, b: JobId)
  {
    exists p :: ChainFromTo(wf, p, a, b)
  }

  ghost predicate Acyclic(wf: Workflow)
  {
    forall j :: !Reaches(wf, j, j)
  }

  ghost predicate AllNeedsKnown(wf: Workflow)
  {
    forall j, d :: Edge(wf, j, d) ==> d in wf
  }

  lemma EdgeReaches(wf: Workflow, a: JobId, b: JobId)
    requires Edge(wf, a, b)
    ensures Reaches(wf, a, b)
  {
    assert ChainFromTo(wf, [a, b], a, b);
  }

  lemma SliceReaches(wf: Workflow, p: seq<JobId>, i: nat, j: nat)
    requires Chain(wf, p) && i < j < |p|
    ensures Reaches(wf, p[i], p[j])
  {
    assert ChainFromTo(wf, p[i..j + 1], p[i], p[j]);
  }

  lemma ReachesTransitive(wf: Workflow, a: JobId, b: JobId, c: JobId)
    requires Reaches(wf, a, b) && Reaches(wf, b, c)
    ensures Reaches(wf, a, c)
  {
    var p :| ChainFromTo(wf, p, a, b);
    var q :| ChainFromTo(wf, q, b, c);
    var r := p + q[1..];
    forall i | 0 <= i < |r| - 1
      ensures Edge(wf, r[i], r[i + 1])
    {
      if i < |p| - 1 {
        assert Edge(wf, p[i], p[i + 1]);
      } else {
        var k := i - (|p| - 1);
        assert Edge(wf, q[k], q[k + 1]);
      }
    }
    assert ChainFromTo(wf, r, a, c);
  }

  /** A transitive need starts with a direct need. */
  lemma ReachesFirstStep(wf: Workflow, a: JobId, c: JobId) returns (b: JobId)
    requires Reaches(wf, a, c)
    ensures Edge(wf, a, b) && (b == c || Reaches(wf, b, c))
  {
    var p :| ChainFromTo(wf, p, a, c);
    b := p[1];
    if |p| > 2 {
      SliceReaches(wf, p, 1, |p| - 1);
    }
  }

  // ----- orders -----

  /** Every need stands before the job that needs it, unless the two lie on a common cycle. */
  ghost predicate NeedsFirstUpToCycles(wf: Workflow, order: seq<JobId>)
  {
    forall i, d :: 0 <= i < |order| && Edge(wf, order[i], d) ==> d in order[..i] || Reaches(wf, d, order[i])
  }

  /** Every need stands before the job that needs it. */
  ghost predicate NeedsFirst(wf: Workflow, order: seq<JobId>)
  {
    forall i, d :: 0 <= i < |order| && Edge(wf, order[i], d) ==> d in order[..i]
  }

  /** A list of jobs that contains the needs of everything it contains. */
  ghost predicate ClosedUnderNeeds(wf: Workflow, jobs: seq<JobId>)
  {
    forall j, d :: j in jobs && Edge(wf, j, d) ==> d in jobs
  }

  /** Each job of the workflow exactly once, and nothing else. */
  ghost predicate ListsEveryJobOnce(wf: Workflow, order: seq<JobId>)
  {
    NoDuplicates(order) && forall j :: j in order <==> j in wf
  }

  lemma AcyclicOrderPutsNeedsFirst(wf: Workflow, order: seq<JobId>)
    requires Acyclic(wf) && NeedsFirstUpToCycles(wf, order)
    ensures NeedsFirst(wf, order)
  {
    forall i, d | 0 <= i < |order| && Edge(wf, order[i], d)
      ensures d in order[..i]
    {
      if Reaches(wf, d, order[i]) {
        EdgeReaches(wf, order[i], d);
        ReachesTransitive(wf, order[i], d, order[i]);
        assert false;
      }
    }
  }

  lemma PrefixesAreClosed(wf: Workflow, order: seq<JobId>, k: nat)
    requires NeedsFirst(wf, order) && k <= |order|
    ensures ClosedUnderNeeds(wf, order[..k])
  {
  }

  /** Along a chain, a needs-first order goes strictly backwards. */
  lemma {:induction false} ChainGoesBack(wf: Workflow, order: seq<JobId>, p: seq<JobId>) returns (i: nat, j: nat)
    requires ListsEveryJobOnce(wf, order) && NeedsFirst(wf, order)
    requires |p| >= 2 && Chain(wf, p)
    ensures j < i < |order| && order[i] == p[0] && order[j] == p[|p| - 1]
  {
    assert Edge(wf, p[0], p[1]);
    i :| 0 <= i < |order| && order[i] == p[0];
    assert p[1] in order[..i];
    j :| 0 <= j < i && order[j] == p[1];
    if |p| > 2 {
      forall k | 0 <= k < |p[1..]| - 1
        ensures Edge(wf, p[1..][k], p[1..][k + 1])
      {
        assert Edge(wf, p[k + 1], p[k + 2]);
      }
      var i', j' := ChainGoesBack(wf, order, p[1..]);
      assert i' == j;
      j := j';
    }
  }

  /** A workflow is acyclic exactly when an order of all its jobs puts every need first. */
  lemma NeedsFirstMeansAcyclic(wf: Workflow, order: seq<JobId>)
    requires ListsEveryJobOnce(wf, order) && NeedsFirstUpToCycles(wf, order)
    ensures NeedsFirst(wf, order) <==> Acyclic(wf)
  {
    if Acyclic(wf) {
      AcyclicOrderPutsNeedsFirst(wf, order);
    }
    if NeedsFirst(wf, order) {
      forall j
        ensures !Reaches(wf, j, j)
      {
        if Reaches(wf, j, j) {
          var p :| ChainFromTo(wf, p, j, j);
          var a, b := ChainGoesBack(wf, order, p);
          assert false;
        }
      }
    }
  }

  // ----- chain lengths -----

  /** A chain of jobs that all belong to the workflow. */
  ghost predicate JobChain(wf: Workflow, p: seq<JobId>)
  {
    Chain(wf, p) && forall j :: j in p ==> j in wf
  }

  ghost predicate ChainsAtMost(wf: Workflow, n: nat)
  {
    forall p :: JobChain(wf, p) ==> |p| <= n
  }

  /** In an acyclic workflow no need chain is longer than the number of jobs. */
  lemma AcyclicChainsAreShort(wf: Workflow)
    requires Acyclic(wf)
    ensures ChainsAtMost(wf, |wf|)
  {
    forall p | JobChain(wf, p)
      ensures |p| <= |wf|
    {
      forall i, j | 0 <= i < j < |p|
        ensures p[i] != p[j]
      {
        SliceReaches(wf, p, i, j);
      }
      DistinctFit(p, wf.Keys);
    }
  }
}
