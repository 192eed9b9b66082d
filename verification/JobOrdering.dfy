// The depth-first search that orders a workflow's jobs: internal/actions/actions.go:96-123.
//
// Go's range over a map visits the jobs in an unspecified order, modelled by `:|`.
module JobOrdering {
  import opened Collections
  import opened Wrappers
  import opened Workflows

  lemma ExtendChain(wf: Workflow, open: seq<JobId>, dep: JobId)
    requires open != [] && Chain(wf, open) && Edge(wf, open[|open| - 1], dep)
    ensures Chain(wf, open + [dep])
  {
  }

  /** A need that is visited but not yet ordered is still open, so it and `id` share a cycle. */
  lemma CloseJob(wf: Workflow, order: seq<JobId>, stack: seq<JobId>, id: JobId, visited: set<JobId>)
    requires Chain(wf, stack + [id]) && NeedsFirstUpToCycles(wf, order)
    requires forall j :: j in visited ==> j in order || j in stack + [id]
    requires forall d :: Edge(wf, id, d) ==> d in visited
    ensures NeedsFirstUpToCycles(wf, order + [id])
  {
    var open, longer := stack + [id], order + [id];
    forall i, d | 0 <= i < |longer| && Edge(wf, longer[i], d)
      ensures d in longer[..i] || Reaches(wf, d, longer[i])
    {
      if i < |order| {
        assert longer[..i] == order[..i] && longer[i] == order[i];
      } else {
        assert longer[..i] == order;
        if d !in order {
          var k :| 0 <= k < |open| && open[k] == d;
          if k < |stack| {
            SliceReaches(wf, open, k, |stack|);
          } else {
            EdgeReaches(wf, id, id);
          }
        }
      }
    }
  }

  class Search {
    const jobs: Workflow
    var visited: set<JobId>
    var order: seq<JobId>

    constructor (jobs: Workflow)
      ensures this.jobs == jobs && visited == {} && order == []
    {
      this.jobs := jobs;
      visited, order := {}, [];
    }

    /** What holds between visits, while the visits of the jobs in `stack` are still open. */
    ghost predicate Valid(stack: seq<JobId>)
      reads this
    {
      && visited <= jobs.Keys
      && (forall j :: j in visited <==> j in order || j in stack)
      && (forall j :: !(j in order && j in stack))
      && NoDuplicates(order)
      && (forall j, d :: j in order && Edge(jobs, j, d) ==> d in visited)
      && NeedsFirstUpToCycles(jobs, order)
    }

    /** Visits `id`; the result names the unknown job that stopped the search, if any. */
    method Visit(id: JobId, ghost stack: seq<JobId>) returns (unknown: Option<JobId>)
      requires Valid(stack) && Chain(jobs, stack + [id])
      modifies this
      ensures unknown.Some? ==>
                unknown.value !in jobs && (unknown.value == id || exists j :: Edge(jobs, j, unknown.value))
      ensures unknown.None? ==> Valid(stack) && id in visited && old(visited) <= visited && old(order) <= order
      decreases jobs.Keys - visited
    {
      if id in visited {
        return None;
      }
      if id !in jobs {
        return Some(id);
      }
      visited := visited + {id};
      ghost var open := stack + [id];
      assert Valid(open);
      var needs := NormalizeNeeds(jobs[id].needs);
      for i := 0 to |needs|
        invariant Valid(open)
        invariant old(visited) + {id} <= visited && old(order) <= order
        invariant forall k :: 0 <= k < i ==> needs[k] in visited
      {
        var dep := needs[i];
        assert Edge(jobs, id, dep);
        ExtendChain(jobs, open, dep);
        var r := Visit(dep, open);
        if r.Some? {
          return r;
        }
      }
      CloseJob(jobs, order, stack, id, visited);
      order := order + [id];
      return None;
    }
  }

  /** JobOrder: `Err` names an unknown job that some job needs. */
  method JobOrder(wf: Workflow) returns (r: Result<seq<JobId>, JobId>)
    ensures r.Ok? <==> AllNeedsKnown(wf)
    ensures r.Ok? ==> ListsEveryJobOnce(wf, r.value) && NeedsFirstUpToCycles(wf, r.value)
    ensures r.Err? ==> r.error !in wf && exists j :: Edge(wf, j, r.error)
  {
    var search := new Search(wf);
    var rest := wf.Keys;
    while rest != {}
      invariant search.jobs == wf && search.Valid([]) && fresh(search)
      invariant rest <= wf.Keys && wf.Keys - rest <= search.visited
      decreases rest
    {
      var id :| id in rest;
      rest := rest - {id};
      var unknown := search.Visit(id, []);
      if unknown.Some? {
        return Err(unknown.value);
      }
    }
    return Ok(search.order);
  }
}
