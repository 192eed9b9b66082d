// Facts about sequences and sets that several models share.
module Collections {
  import opened Wrappers

  ghost predicate NoDuplicates<T>(s: seq<T>)
  {
    forall i, j :: 0 <= i < j < |s| ==> s[i] != s[j]
  }

  lemma {:induction false} SetOfDistinct<T>(s: seq<T>)
    requires NoDuplicates(s)
    ensures |set x | x in s| == |s|
  {
    if s != [] {
      var n := |s| - 1;
      SetOfDistinct(s[..n]);
      assert (set x | x in s) == (set x | x in s[..n]) + {s[n]};
    }
  }

  lemma SubsetIsSmaller<T>(a: set<T>, b: set<T>)
    requires a <= b
    ensures |a| <= |b|
  {
    assert b == a + (b - a);
  }

  lemma DistinctFit<T>(s: seq<T>, universe: set<T>)
    requires NoDuplicates(s) && forall x :: x in s ==> x in universe
    ensures |s| <= |universe|
  {
    SetOfDistinct(s);
    SubsetIsSmaller((set x | x in s), universe);
  }

  /** Some member of a set comes first, by the given instants. */
  lemma {:induction false} FirstExists<T(!new)>(among: set<T>, at: T -> int)
    requires among != {}
    ensures exists x :: x in among && forall y :: y in among ==> at(x) <= at(y)
  {
    var x :| x in among;
    var rest := among - {x};
    var first := x;
    if rest != {} {
      FirstExists(rest, at);
      var z :| z in rest && forall y :: y in rest ==> at(z) <= at(y);
      first := if at(x) <= at(z) then x else z;
    }
    assert forall y :: y in among ==> y == x || y in rest;
    assert first in among && forall y :: y in among ==> at(first) <= at(y);
  }

  // ----- selections -----

  /** `picked` are the values that `pick` gives for the elements of `source` at the indices `at`,
      which are in order and all those that it gives one for. */
  ghost predicate SelectsAt<S, T>(source: seq<S>, picked: seq<T>, pick: S -> Option<T>, at: seq<nat>)
  {
    && |at| == |picked|
    && (forall i, j :: 0 <= i < j < |at| ==> at[i] < at[j])
    && (forall k :: 0 <= k < |at| ==> at[k] < |source| && pick(source[at[k]]) == Some(picked[k]))
    && (forall i :: 0 <= i < |source| && pick(source[i]).Some? ==> i in at)
  }

  /** `picked` is what `pick` gives for the elements of `source`, in their order. */
  ghost predicate Selects<S, T>(source: seq<S>, picked: seq<T>, pick: S -> Option<T>)
  {
    exists at: seq<nat> :: SelectsAt(source, picked, pick, at)
  }

  lemma SelectsNothing<S, T>(pick: S -> Option<T>)
    ensures Selects([], [], pick)
  {
    assert SelectsAt([], [], pick, []);
  }

  lemma SelectsOneMore<S, T>(source: seq<S>, picked: seq<T>, pick: S -> Option<T>, picked': seq<T>)
    requires source != [] && Selects(source[..|source| - 1], picked, pick)
    requires var y := pick(source[|source| - 1]); picked' == picked + if y.Some? then [y.value] else []
    ensures Selects(source, picked', pick)
  {
    var init, x := source[..|source| - 1], source[|source| - 1];
    var at: seq<nat> :| SelectsAt(init, picked, pick, at);
    assert source == init + [x];
    if pick(x).Some? {
      SelectsLast(init, picked, pick, at, x);
    } else {
      SelectsSame(init, picked, pick, at, x);
      assert picked' == picked;
    }
  }

  lemma SelectsSame<S, T>(source: seq<S>, picked: seq<T>, pick: S -> Option<T>, at: seq<nat>, x: S)
    requires SelectsAt(source, picked, pick, at) && pick(x).None?
    ensures SelectsAt(source + [x], picked, pick, at)
  {
    var more := source + [x];
    assert forall i :: 0 <= i < |more| ==> more[i] == if i < |source| then source[i] else x;
  }

  lemma SelectsLast<S, T>(source: seq<S>, picked: seq<T>, pick: S -> Option<T>, at: seq<nat>, x: S)
    requires SelectsAt(source, picked, pick, at) && pick(x).Some?
    ensures SelectsAt(source + [x], picked + [pick(x).value], pick, at + [|source|])
  {
    var at', more := at + [|source|], source + [x];
    forall i | 0 <= i < |more| && pick(more[i]).Some?
      ensures i in at'
    {
      assert i < |source| ==> more[i] == source[i] && i in at;
      assert at'[|at|] == |source|;
    }
  }

  lemma PickedFrom<S, T>(source: seq<S>, picked: seq<T>, pick: S -> Option<T>, k: nat) returns (i: nat)
    requires Selects(source, picked, pick) && k < |picked|
    ensures i < |source| && pick(source[i]) == Some(picked[k])
  {
    var at: seq<nat> :| SelectsAt(source, picked, pick, at);
    i := at[k];
  }

  lemma PickedAs<S, T>(source: seq<S>, picked: seq<T>, pick: S -> Option<T>, i: nat) returns (k: nat)
    requires Selects(source, picked, pick) && i < |source| && pick(source[i]).Some?
    ensures k < |picked| && pick(source[i]) == Some(picked[k])
  {
    var at: seq<nat> :| SelectsAt(source, picked, pick, at);
    k :| 0 <= k < |at| && at[k] == i;
  }

  lemma SelectedMembers<S, T>(source: seq<S>, picked: seq<T>, pick: S -> Option<T>, y: T)
    requires Selects(source, picked, pick)
    ensures y in picked <==> exists i :: 0 <= i < |source| && pick(source[i]) == Some(y)
  {
    if y in picked {
      var k :| 0 <= k < |picked| && picked[k] == y;
      var i := PickedFrom(source, picked, pick, k);
    }
    if i :| 0 <= i < |source| && pick(source[i]) == Some(y) {
      var k := PickedAs(source, picked, pick, i);
    }
  }
}
