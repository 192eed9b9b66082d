// The pack cache: internal/git/pack_cache.go. Files are an atomic map from path to bytes, the
// clock is a parameter, sizes are unbounded.
module PackCache {
  import opened Collections
  import opened Wrappers

  type Key = string
  type Bytes = seq<bv8>

  datatype Entry = Entry(path: string, size: nat, at: int)

  type Index = map<Key, Entry>

  // ----- total size of an index -----

  ghost function Total(index: Index): nat
  {
    if index == map[] then 0
    else
      var k :| k in index;
      index[k].size + Total(index - {k})
  }

  lemma {:induction false} TotalWithout(index: Index, k: Key)
    requires k in index
    ensures Total(index) == index[k].size + Total(index - {k})
    decreases |index|
  {
    var p :| p in index && Total(index) == index[p].size + Total(index - {p});
    if p != k {
      TotalWithout(index - {p}, k);
      TotalWithout(index - {k}, p);
      assert index - {p} - {k} == index - {k} - {p};
    }
  }

  function Restricted(index: Index, keys: set<Key>): Index
  {
    map k | k in index && k in keys :: index[k]
  }

  lemma RestrictedTotals(index: Index, keys: set<Key>, k: Key)
    requires keys <= index.Keys && k in keys
    ensures Total(Restricted(index, keys)) == index[k].size + Total(Restricted(index, keys - {k}))
    ensures Restricted(index, index.Keys) == index && Restricted(index, {}) == map[]
  {
    TotalWithout(Restricted(index, keys), k);
    assert Restricted(index, keys) - {k} == Restricted(index, keys - {k});
  }

  lemma TotalAtLeast(index: Index, k: Key)
    requires k in index
    ensures Total(index) >= index[k].size && Total(index - {k}) <= Total(index)
  {
    TotalWithout(index, k);
  }

  // ----- what evict does -----

  ghost predicate AgeOrdered(index: Index, keys: seq<Key>)
  {
    && (forall i :: 0 <= i < |keys| ==> keys[i] in index)
    && (forall i, j :: 0 <= i < j < |keys| ==> keys[i] != keys[j] && index[keys[i]].at <= index[keys[j]].at)
  }

  function Dropped(index: Index, victims: seq<Key>): Index
  {
    map k | k in index && k !in victims :: index[k]
  }

  function PathsOf(index: Index, victims: seq<Key>): set<string>
  {
    set v | v in victims && v in index :: index[v].path
  }

  ghost predicate Fits(index: Index, maxSize: int, incoming: nat)
  {
    Total(index) + incoming <= maxSize
  }

  /** `victims` are evicted from `index`: oldest first, none newer than a survivor, until the
      rest and `incoming` fit or nothing is left, and not one more than that takes. */
  ghost predicate Evicts(index: Index, maxSize: int, incoming: nat, victims: seq<Key>)
  {
    && AgeOrdered(index, victims)
    && (forall v, s :: v in victims && s in index && s !in victims ==> index[v].at <= index[s].at)
    && (Fits(Dropped(index, victims), maxSize, incoming) || Dropped(index, victims) == map[])
    && (forall n :: 0 <= n < |victims| ==> !Fits(Dropped(index, victims[..n]), maxSize, incoming))
  }

  lemma OldestExists(index: Index, keys: set<Key>)
    requires keys != {} && keys <= index.Keys
    ensures exists k :: k in keys && forall q :: q in keys ==> index[k].at <= index[q].at
  {
    FirstExists(keys, k => if k in index then index[k].at else 0);
  }

  lemma DropNone(index: Index)
    ensures Dropped(index, []) == index
  {
  }

  lemma NothingToEvict(index: Index, maxSize: int, incoming: nat)
    requires Fits(index, maxSize, incoming)
    ensures Evicts(index, maxSize, incoming, [])
  {
    DropNone(index);
  }

  lemma DropOneMore(start: Index, ages: seq<Key>, i: nat)
    requires AgeOrdered(start, ages) && i < |ages|
    ensures ages[i] in Dropped(start, ages[..i])
    ensures Dropped(start, ages[..i + 1]) == Dropped(start, ages[..i]) - {ages[i]}
    ensures PathsOf(start, ages[..i + 1]) == PathsOf(start, ages[..i]) + {start[ages[i]].path}
    ensures Total(Dropped(start, ages[..i])) == start[ages[i]].size + Total(Dropped(start, ages[..i + 1]))
  {
    assert ages[..i + 1] == ages[..i] + [ages[i]];
    TotalWithout(Dropped(start, ages[..i]), ages[i]);
  }

  lemma RemoveOneMore(files: map<string, Bytes>, gone: set<string>, path: string)
    ensures files - gone - {path} == files - (gone + {path})
  {
  }

  /** Midway through evict's loop: the first `i` keys are gone. */
  ghost predicate InEvict(start: Index, maxSize: int, incoming: nat, ages: seq<Key>, i: nat, index: Index, over: int)
  {
    && i <= |ages|
    && index == Dropped(start, ages[..i])
    && over == Total(index) + incoming - maxSize
    && forall n :: 0 <= n < i ==> !Fits(Dropped(start, ages[..n]), maxSize, incoming)
  }

  lemma EvictOneMore(start: Index, maxSize: int, incoming: nat, ages: seq<Key>, i: nat, index: Index, over: int)
    requires AgeOrdered(start, ages) && i < |ages| && over > 0
    requires InEvict(start, maxSize, incoming, ages, i, index, over)
    ensures ages[i] in index && index[ages[i]] == start[ages[i]]
    ensures InEvict(start, maxSize, incoming, ages, i + 1, index - {ages[i]}, over - index[ages[i]].size)
  {
    DropOneMore(start, ages, i);
  }

  lemma PrefixIsOldest(index: Index, ages: seq<Key>, i: nat)
    requires AgeOrdered(index, ages) && i <= |ages| && forall k :: k in index <==> k in ages
    ensures AgeOrdered(index, ages[..i])
    ensures forall v, s :: v in ages[..i] && s in index && s !in ages[..i] ==> index[v].at <= index[s].at
  {
  }

  lemma PrefixEvicts(start: Index, maxSize: int, incoming: nat, ages: seq<Key>, i: nat, index: Index, over: int)
    requires AgeOrdered(start, ages) && forall k :: k in start <==> k in ages
    requires InEvict(start, maxSize, incoming, ages, i, index, over)
    requires i == |ages| || over <= 0
    ensures Evicts(start, maxSize, incoming, ages[..i])
  {
    PrefixIsOldest(start, ages, i);
    assert i == |ages| ==> ages[..i] == ages;
    forall n | 0 <= n < |ages[..i]|
      ensures !Fits(Dropped(start, ages[..i][..n]), maxSize, incoming)
    {
      assert ages[..i][..n] == ages[..n];
    }
  }

  // ----- which entries survive their own eviction -----

  /** A freshly stored entry that is the newest survives the eviction its own Set spawned exactly
      when twice its size fits the budget, because evict counts it both in the index and as the
      incoming size. */
  lemma NewestSurvivesExactly(index: Index, maxSize: int, k: Key, victims: seq<Key>)
    requires k in index && forall q :: q in index && q != k ==> index[q].at < index[k].at
    requires Evicts(index, maxSize, index[k].size, victims)
    ensures k in Dropped(index, victims) <==> 2 * index[k].size <= maxSize
  {
    var rest, n := Dropped(index, victims), index[k].size;
    if k in rest {
      TotalAtLeast(rest, k);
      assert Fits(rest, maxSize, n);
    } else {
      var i :| 0 <= i < |victims| && victims[i] == k;
      assert forall j :: 0 <= j < i ==> victims[j] != k;
      forall q | q in index && q != k
        ensures q in victims[..i]
      {
        assert q in victims;
        var j :| 0 <= j < |victims| && victims[j] == q;
        assert victims[..i][j] == q;
      }
      var last := Dropped(index, victims[..i]);
      assert last == map[k := index[k]];
      TotalWithout(last, k);
      assert last - {k} == map[];
      assert !Fits(last, maxSize, n);
    }
  }

  // ----- interleavings -----

  /** Where the cache keeps a key's file, below its root. Set never sees a key shorter than two bytes. */
  function PathOf(key: Key): string
  {
    if |key| < 2 then key else key[..2] + "/" + key
  }

  lemma PathsDiffer(a: Key, b: Key)
    requires PathOf(a) == PathOf(b)
    ensures a == b
  {
    if |a| >= 2 && |b| >= 2 {
      assert PathOf(a)[3..] == a && PathOf(b)[3..] == b;
    }
  }

  /** A Set that has written its file but not its entry. */
  datatype SetPc = Wrote(key: Key, size: nat)

  /** A Get between its look at the index and its return; no path when there is no fresh entry. */
  datatype GetPc = Looked(path: Option<string>) | Answered(path: Option<string>, answer: Option<Bytes>)

  /** The index and the files; the evictions not yet run (spawned or about to be) and whether a Set
      has happened; the Sets under way, the Deletes that have taken out their entry but not removed
      its file, named by the path, and the Gets; and, as a history, the last write to each path. */
  datatype Shared = Shared(
    index: Index, files: map<string, Bytes>, pending: multiset<nat>, anySet: bool,
    sets: map<nat, SetPc>, deletes: map<nat, string>, gets: map<nat, GetPc>, written: map<string, Bytes>)

  /** The critical sections and file operations of the cache. The eviction for a Set runs at some
      later point; a Delete, also one that a Get ends in, is a TakeOut and then a RemoveFile. */
  datatype Action =
    | WriteFile(writer: nat, newKey: Key, data: Bytes)
    | Store(writer: nat, at: int)
    | RunEvict(incoming: nat, victims: seq<Key>)
    | TakeOut(deleter: nat, oldKey: Key)
    | RemoveFile(deleter: nat)
    | Look(get: nat, wanted: Key, isFresh: bool)
    | ReadFile(get: nat)

  ghost predicate Enabled(s: Shared, maxSize: int, a: Action)
  {
    match a
    case WriteFile(c, _, _) => c !in s.sets
    case Store(c, _) => c in s.sets
    case RunEvict(n, victims) => n in s.pending && Evicts(s.index, maxSize, n, victims)
    case TakeOut(d, _) => d !in s.deletes
    case RemoveFile(d) => d in s.deletes
    case Look(g, _, _) => g !in s.gets
    case ReadFile(g) => g in s.gets && s.gets[g].Looked?
  }

  function Spawned(maxSize: int, size: nat): multiset<nat>
  {
    if maxSize > 0 then multiset{size} else multiset{}
  }

  function FileAt(s: Shared, path: Option<string>): Option<Bytes>
  {
    if path.Some? && path.value in s.files then Some(s.files[path.value]) else None
  }

  function Apply(s: Shared, maxSize: int, a: Action): Shared
  {
    match a
    case WriteFile(c, k, data) =>
      s.(files := s.files[PathOf(k) := data], written := s.written[PathOf(k) := data],
         sets := s.sets[c := Wrote(k, |data|)])
    case Store(c, t) =>
      if c !in s.sets then s
      else
        var Wrote(k, size) := s.sets[c];
        s.(index := s.index[k := Entry(PathOf(k), size, t)], pending := s.pending + Spawned(maxSize, size),
           anySet := true, sets := s.sets - {c})
    case RunEvict(n, victims) =>
      s.(index := Dropped(s.index, victims), files := s.files - PathsOf(s.index, victims),
         pending := s.pending - multiset{n})
    case TakeOut(d, k) =>
      if k in s.index then s.(index := s.index - {k}, deletes := s.deletes[d := s.index[k].path]) else s
    case RemoveFile(d) =>
      if d in s.deletes then s.(files := s.files - {s.deletes[d]}, deletes := s.deletes - {d}) else s
    case Look(g, k, isFresh) =>
      s.(gets := s.gets[g := Looked(if k in s.index && isFresh then Some(s.index[k].path) else None)])
    case ReadFile(g) =>
      if g !in s.gets then s
      else
        var p := s.gets[g].path;
        s.(gets := s.gets[g := Answered(p, FileAt(s, p))])
  }

  ghost predicate Next(s: Shared, maxSize: int, s': Shared)
  {
    exists a :: Enabled(s, maxSize, a) && s' == Apply(s, maxSize, a)
  }

  ghost predicate StepAt(tr: seq<Shared>, maxSize: int, i: nat)
    requires i + 1 < |tr|
  {
    Next(tr[i], maxSize, tr[i + 1])
  }

  /** The index of a directory in which the cache alone keeps its files. */
  predicate Rebuilt(index: Index, files: map<string, Bytes>)
  {
    forall k :: k in index ==> index[k].path == PathOf(k) && PathOf(k) in files
  }

  function Initial(index: Index, files: map<string, Bytes>): Shared
  {
    Shared(index, files, multiset{}, false, map[], map[], map[], files)
  }

  predicate IsInitial(s: Shared)
  {
    s == Initial(s.index, s.files)
  }

  /** Any order of operations, from any rebuilt index and files. */
  ghost predicate Execution(tr: seq<Shared>, maxSize: int)
  {
    tr != [] && IsInitial(tr[0]) && forall i: nat :: i + 1 < |tr| ==> StepAt(tr, maxSize, i)
  }

  /** The same, where the cache alone keeps its files in the directory. */
  ghost predicate OwnExecution(tr: seq<Shared>, maxSize: int)
  {
    Execution(tr, maxSize) && Rebuilt(tr[0].index, tr[0].files)
  }

  ghost predicate ExecutionTo(tr: seq<Shared>, maxSize: int, start: Shared, s: Shared)
  {
    Execution(tr, maxSize) && tr[0] == start && tr[|tr| - 1] == s
  }

  /** Some order of operations leads from the one state to the other. */
  ghost predicate Reachable(start: Shared, s: Shared, maxSize: int)
  {
    exists tr :: ExecutionTo(tr, maxSize, start, s)
  }

  lemma Extend(tr: seq<Shared>, maxSize: int, a: Action) returns (tr': seq<Shared>)
    requires Execution(tr, maxSize) && Enabled(tr[|tr| - 1], maxSize, a)
    ensures Execution(tr', maxSize) && tr'[0] == tr[0] && tr'[|tr'| - 1] == Apply(tr[|tr| - 1], maxSize, a)
  {
    tr' := tr + [Apply(tr[|tr| - 1], maxSize, a)];
    forall i: nat | i + 1 < |tr'|
      ensures StepAt(tr', maxSize, i)
    {
      if i + 1 < |tr| {
        assert StepAt(tr, maxSize, i);
      } else {
        assert Next(tr[i], maxSize, tr'[i + 1]);
      }
    }
  }

  lemma Advance(start: Shared, s: Shared, maxSize: int, a: Action)
    requires Reachable(start, s, maxSize) && Enabled(s, maxSize, a)
    ensures Reachable(start, Apply(s, maxSize, a), maxSize)
  {
    var tr :| ExecutionTo(tr, maxSize, start, s);
    var tr' := Extend(tr, maxSize, a);
    assert ExecutionTo(tr', maxSize, start, Apply(s, maxSize, a));
  }

  // ----- the budget -----

  ghost predicate WithinBudget(s: Shared, maxSize: int)
  {
    s.anySet && s.pending == multiset{} ==> Total(s.index) <= maxSize
  }

  lemma BudgetKept(s: Shared, maxSize: int, a: Action)
    requires maxSize > 0 && WithinBudget(s, maxSize) && Enabled(s, maxSize, a)
    ensures WithinBudget(Apply(s, maxSize, a), maxSize)
  {
    match a {
      case Store(c, t) =>
        assert s.sets[c].size in Apply(s, maxSize, a).pending;
      case TakeOut(d, k) =>
        if k in s.index {
          TotalAtLeast(s.index, k);
        }
      case _ =>
    }
  }

  /** Whenever at least one Set has happened and all the evictions spawned so far have run, in
      whatever order, the indexed total is within the budget. */
  lemma {:induction false} BudgetHoldsWhenQuiet(tr: seq<Shared>, maxSize: int, i: nat)
    requires Execution(tr, maxSize) && maxSize > 0 && i < |tr|
    ensures tr[i].anySet && tr[i].pending == multiset{} ==> Total(tr[i].index) <= maxSize
  {
    if i > 0 {
      BudgetHoldsWhenQuiet(tr, maxSize, i - 1);
      assert StepAt(tr, maxSize, i - 1);
      var a :| Enabled(tr[i - 1], maxSize, a) && tr[i] == Apply(tr[i - 1], maxSize, a);
      BudgetKept(tr[i - 1], maxSize, a);
    }
  }

  lemma NothingPends(s: Shared, maxSize: int, a: Action)
    requires maxSize <= 0 && s.pending == multiset{} && Enabled(s, maxSize, a)
    ensures !a.RunEvict? && Apply(s, maxSize, a).pending == multiset{}
  {
  }

  /** Without a budget nothing is ever evicted. */
  lemma NoBudgetNoEviction(tr: seq<Shared>, maxSize: int, i: nat, a: Action)
    requires Execution(tr, maxSize) && maxSize <= 0 && i < |tr| && Enabled(tr[i], maxSize, a)
    ensures !a.RunEvict?
  {
    NeverPending(tr, maxSize, i);
  }

  lemma {:induction false} NeverPending(tr: seq<Shared>, maxSize: int, i: nat)
    requires Execution(tr, maxSize) && maxSize <= 0 && i < |tr|
    ensures tr[i].pending == multiset{}
  {
    if i > 0 {
      NeverPending(tr, maxSize, i - 1);
      assert StepAt(tr, maxSize, i - 1);
      var a :| Enabled(tr[i - 1], maxSize, a) && tr[i] == Apply(tr[i - 1], maxSize, a);
      NothingPends(tr[i - 1], maxSize, a);
    }
  }

  // ----- hits -----

  ghost predicate FilesAreLatest(s: Shared)
  {
    forall p :: p in s.files ==> p in s.written && s.files[p] == s.written[p]
  }

  lemma FilesLatestKept(s: Shared, maxSize: int, a: Action)
    requires FilesAreLatest(s)
    ensures FilesAreLatest(Apply(s, maxSize, a))
  {
  }

  lemma {:induction false} FilesStayLatest(tr: seq<Shared>, maxSize: int, i: nat)
    requires Execution(tr, maxSize) && i < |tr|
    ensures FilesAreLatest(tr[i])
  {
    if i > 0 {
      FilesStayLatest(tr, maxSize, i - 1);
      assert StepAt(tr, maxSize, i - 1);
      var a :| Enabled(tr[i - 1], maxSize, a) && tr[i] == Apply(tr[i - 1], maxSize, a);
      FilesLatestKept(tr[i - 1], maxSize, a);
    }
  }

  lemma ReachableFilesAreLatest(start: Shared, s: Shared, maxSize: int)
    requires Reachable(start, s, maxSize)
    ensures FilesAreLatest(s)
  {
    var tr :| ExecutionTo(tr, maxSize, start, s);
    FilesStayLatest(tr, maxSize, |tr| - 1);
  }

  /** Step `j` is the file read of the Get `g`. */
  predicate ReadsAt(tr: seq<Shared>, j: nat, g: nat)
  {
    j + 1 < |tr| && g in tr[j].gets && tr[j].gets[g].Looked? && g in tr[j + 1].gets && tr[j + 1].gets[g].Answered?
  }

  lemma ReadAnswers(s: Shared, maxSize: int, s': Shared, g: nat)
    requires Next(s, maxSize, s') && g in s.gets && s.gets[g].Looked? && g in s'.gets && s'.gets[g].Answered?
    ensures s'.gets[g].answer == FileAt(s, s.gets[g].path)
  {
    var a :| Enabled(s, maxSize, a) && s' == Apply(s, maxSize, a);
    OnlyReadsAnswer(s, maxSize, a, g);
  }

  lemma OnlyReadsAnswer(s: Shared, maxSize: int, a: Action, g: nat)
    requires g in s.gets && s.gets[g].Looked? && Enabled(s, maxSize, a)
    ensures var pc := Apply(s, maxSize, a).gets[g]; pc.Answered? ==> pc.answer == FileAt(s, s.gets[g].path)
    ensures g in Apply(s, maxSize, a).gets
  {
  }

  /** What a Get returns, with any Sets, Deletes and evictions between its two steps: what was last
      written to the path it looked up if that file is still there when it reads, else nothing. */
  lemma HitsAreLatestWrites(tr: seq<Shared>, maxSize: int, j: nat, g: nat)
    requires Execution(tr, maxSize) && ReadsAt(tr, j, g)
    ensures var p := tr[j].gets[g].path; p.Some? && p.value in tr[j].files ==> p.value in tr[j].written
    ensures var p := tr[j].gets[g].path;
            tr[j + 1].gets[g].answer ==
            if p.Some? && p.value in tr[j].files then Some(tr[j].written[p.value]) else None
  {
    FilesStayLatest(tr, maxSize, j);
    assert StepAt(tr, maxSize, j);
    ReadAnswers(tr[j], maxSize, tr[j + 1], g);
  }

  // ----- entries and their files -----

  /** Every entry names the path where the cache keeps the file of its key. */
  ghost predicate Placed(s: Shared)
  {
    forall k :: k in s.index ==> s.index[k].path == PathOf(k)
  }

  lemma PlacedKept(s: Shared, maxSize: int, a: Action)
    requires Placed(s)
    ensures Placed(Apply(s, maxSize, a))
  {
  }

  lemma {:induction false} AlwaysPlaced(tr: seq<Shared>, maxSize: int, i: nat)
    requires OwnExecution(tr, maxSize) && i < |tr|
    ensures Placed(tr[i])
  {
    if i > 0 {
      AlwaysPlaced(tr, maxSize, i - 1);
      assert StepAt(tr, maxSize, i - 1);
      var a :| Enabled(tr[i - 1], maxSize, a) && tr[i] == Apply(tr[i - 1], maxSize, a);
      PlacedKept(tr[i - 1], maxSize, a);
    }
  }

  predicate HasFile(s: Shared, k: Key)
  {
    PathOf(k) in s.files
  }

  /** A Set of `k` has written its file but not its entry. */
  predicate IsBeingSet(s: Shared, k: Key)
  {
    exists c :: c in s.sets && s.sets[c].key == k
  }

  /** A Delete of `k` has taken out its entry but not removed its file. */
  predicate IsBeingDeleted(s: Shared, k: Key)
  {
    exists d :: d in s.deletes && s.deletes[d] == PathOf(k)
  }

  /** Somebody relies on the file of `k`: it has an entry, or will have. */
  predicate IsLive(s: Shared, k: Key)
  {
    k in s.index || IsBeingSet(s, k)
  }

  /** The action evicts the entry of `k`. */
  predicate Victimises(s: Shared, a: Action, k: Key)
  {
    a.RunEvict? && k in a.victims && k in s.index
  }

  /** The action is the end of a Delete of `k`. */
  predicate EndsDelete(s: Shared, a: Action, k: Key)
  {
    a.RemoveFile? && a.deleter in s.deletes && s.deletes[a.deleter] == PathOf(k)
  }

  /** A Set of `k` overlaps the removal of its file: an eviction of `k` falls between the Set's file
      and its entry, or so does the end of a Delete, or the Set's entry is there at that end. */
  predicate Clashes(s: Shared, a: Action, k: Key)
  {
    (Victimises(s, a, k) && IsBeingSet(s, k)) || (EndsDelete(s, a, k) && IsLive(s, k))
  }

  ghost predicate ClashAt(tr: seq<Shared>, maxSize: int, m: nat, k: Key)
  {
    m + 1 < |tr| && ClashStep(tr[m], maxSize, k, tr[m + 1])
  }

  ghost predicate ClashStep(s: Shared, maxSize: int, k: Key, s': Shared)
  {
    exists a :: Enabled(s, maxSize, a) && Clashes(s, a, k) && s' == Apply(s, maxSize, a)
  }

  predicate Writes(a: Action, k: Key)
  {
    a.WriteFile? && a.newKey == k
  }

  ghost predicate WriteStep(s: Shared, maxSize: int, k: Key, s': Shared)
  {
    exists a :: Enabled(s, maxSize, a) && Writes(a, k) && s' == Apply(s, maxSize, a)
  }

  /** Step `m` writes the file of `k`. */
  ghost predicate WriteAt(tr: seq<Shared>, maxSize: int, m: nat, k: Key)
  {
    m + 1 < |tr| && WriteStep(tr[m], maxSize, k, tr[m + 1])
  }

  lemma RemovesOwnFiles(s: Shared, maxSize: int, a: Action, k: Key)
    requires Placed(s) && Enabled(s, maxSize, a)
    ensures HasFile(Apply(s, maxSize, a), k) <==>
            Writes(a, k) || (HasFile(s, k) && !Victimises(s, a, k) && !EndsDelete(s, a, k))
  {
    match a {
      case WriteFile(c, j, data) =>
        if PathOf(j) == PathOf(k) {
          PathsDiffer(j, k);
        }
      case RunEvict(n, victims) =>
        forall v | v in victims && v in s.index && s.index[v].path == PathOf(k)
          ensures v == k
        {
          PathsDiffer(v, k);
        }
      case _ =>
    }
  }

  lemma BecomesLive(s: Shared, maxSize: int, a: Action, k: Key)
    requires Enabled(s, maxSize, a) && IsLive(Apply(s, maxSize, a), k)
    ensures IsLive(s, k) || Writes(a, k)
    ensures !Victimises(s, a, k) || IsBeingSet(s, k)
  {
    var s' := Apply(s, maxSize, a);
    if c :| c in s'.sets && s'.sets[c].key == k {
      assert c in s.sets ==> s.sets[c] == s'.sets[c] || Writes(a, k);
    }
  }

  lemma StaysLiveInClash(s: Shared, maxSize: int, a: Action, k: Key)
    requires Enabled(s, maxSize, a) && Clashes(s, a, k)
    ensures IsLive(Apply(s, maxSize, a), k)
  {
    var s' := Apply(s, maxSize, a);
    if IsBeingSet(s, k) {
      var c :| c in s.sets && s.sets[c].key == k;
      assert c in s'.sets && s'.sets[c].key == k;
    }
  }

  /** Somebody relies on the file of `k`, and it is not there. */
  predicate Lacks(s: Shared, k: Key)
  {
    IsLive(s, k) && !HasFile(s, k)
  }

  lemma ClashLoses(s: Shared, maxSize: int, k: Key, s': Shared)
    requires Placed(s) && ClashStep(s, maxSize, k, s')
    ensures Lacks(s', k)
  {
    var a :| Enabled(s, maxSize, a) && Clashes(s, a, k) && s' == Apply(s, maxSize, a);
    RemovesOwnFiles(s, maxSize, a, k);
    StaysLiveInClash(s, maxSize, a, k);
  }

  lemma WriteGives(s: Shared, maxSize: int, k: Key, s': Shared)
    requires Placed(s) && WriteStep(s, maxSize, k, s')
    ensures HasFile(s', k)
  {
    var a :| Enabled(s, maxSize, a) && Writes(a, k) && s' == Apply(s, maxSize, a);
    RemovesOwnFiles(s, maxSize, a, k);
  }

  lemma OnlyWritesGive(s: Shared, maxSize: int, k: Key, s': Shared)
    requires Placed(s) && Next(s, maxSize, s') && !HasFile(s, k)
    ensures WriteStep(s, maxSize, k, s') || !HasFile(s', k)
  {
    var a :| Enabled(s, maxSize, a) && s' == Apply(s, maxSize, a);
    RemovesOwnFiles(s, maxSize, a, k);
  }

  lemma OnlyClashesLose(s: Shared, maxSize: int, k: Key, s': Shared)
    requires Placed(s) && Next(s, maxSize, s') && Lacks(s', k)
    ensures ClashStep(s, maxSize, k, s') || Lacks(s, k)
  {
    var a :| Enabled(s, maxSize, a) && s' == Apply(s, maxSize, a);
    RemovesOwnFiles(s, maxSize, a, k);
    BecomesLive(s, maxSize, a, k);
  }

  lemma StepFacts(tr: seq<Shared>, maxSize: int, i: nat, k: Key)
    requires OwnExecution(tr, maxSize) && i + 1 < |tr|
    ensures ClashAt(tr, maxSize, i, k) ==> Lacks(tr[i + 1], k)
    ensures !HasFile(tr[i], k) && !WriteAt(tr, maxSize, i, k) ==> !HasFile(tr[i + 1], k)
    ensures Lacks(tr[i + 1], k) ==> ClashAt(tr, maxSize, i, k) || (Lacks(tr[i], k) && !WriteAt(tr, maxSize, i, k))
  {
    var s, s' := tr[i], tr[i + 1];
    AlwaysPlaced(tr, maxSize, i);
    assert StepAt(tr, maxSize, i);
    if ClashStep(s, maxSize, k, s') {
      ClashLoses(s, maxSize, k, s');
    }
    if WriteStep(s, maxSize, k, s') {
      WriteGives(s, maxSize, k, s');
    }
    if !HasFile(s, k) {
      OnlyWritesGive(s, maxSize, k, s');
    }
    if Lacks(s', k) {
      OnlyClashesLose(s, maxSize, k, s');
    }
  }

  lemma StartsWithFiles(s: Shared, k: Key)
    requires IsInitial(s) && Rebuilt(s.index, s.files)
    ensures !Lacks(s, k)
  {
  }

  /** Step `m` clashes over `k`, and no later step before `j` writes the file again. */
  ghost predicate LastClash(tr: seq<Shared>, maxSize: int, j: nat, k: Key, m: nat)
  {
    m < j && ClashAt(tr, maxSize, m, k) && forall q :: m < q < j ==> !WriteAt(tr, maxSize, q, k)
  }

  /** Exactly when a live key is without its file: after a clash that no Set has written over. */
  lemma LacksFileExactly(tr: seq<Shared>, maxSize: int, j: nat, k: Key)
    requires OwnExecution(tr, maxSize) && j < |tr| && IsLive(tr[j], k)
    ensures !HasFile(tr[j], k) <==> exists m: nat :: LastClash(tr, maxSize, j, k, m)
  {
    if m: nat :| LastClash(tr, maxSize, j, k, m) {
      StepFacts(tr, maxSize, m, k);
      StaysGone(tr, maxSize, m + 1, j, k);
    }
    if !HasFile(tr[j], k) {
      var m := FindClash(tr, maxSize, j, k);
    }
  }

  lemma {:induction false} StaysGone(tr: seq<Shared>, maxSize: int, i: nat, j: nat, k: Key)
    requires OwnExecution(tr, maxSize) && i <= j < |tr| && !HasFile(tr[i], k)
    requires forall q :: i <= q < j ==> !WriteAt(tr, maxSize, q, k)
    ensures !HasFile(tr[j], k)
    decreases j
  {
    if i < j {
      StaysGone(tr, maxSize, i, j - 1, k);
      StepFacts(tr, maxSize, j - 1, k);
    }
  }

  lemma StillLastClash(tr: seq<Shared>, maxSize: int, j: nat, k: Key, m: nat)
    requires j > 0 && LastClash(tr, maxSize, j - 1, k, m) && !WriteAt(tr, maxSize, j - 1, k)
    ensures LastClash(tr, maxSize, j, k, m)
  {
    forall q | m < q < j
      ensures !WriteAt(tr, maxSize, q, k)
    {
    }
  }

  lemma {:induction false} FindClash(tr: seq<Shared>, maxSize: int, j: nat, k: Key) returns (m: nat)
    requires OwnExecution(tr, maxSize) && j < |tr| && Lacks(tr[j], k)
    ensures LastClash(tr, maxSize, j, k, m)
  {
    if j == 0 {
      StartsWithFiles(tr[0], k);
      assert false;
    } else {
      StepFacts(tr, maxSize, j - 1, k);
      m := j - 1;
      if !ClashAt(tr, maxSize, j - 1, k) {
        m := FindClash(tr, maxSize, j - 1, k);
        StillLastClash(tr, maxSize, j, k, m);
      }
    }
  }

  /** Every live key has its file at every moment if and only if nothing ever clashes. */
  lemma FilesKeptExactly(tr: seq<Shared>, maxSize: int)
    requires OwnExecution(tr, maxSize)
    ensures (forall j, k :: 0 <= j < |tr| ==> !Lacks(tr[j], k)) <==> (forall m: nat, k :: !ClashAt(tr, maxSize, m, k))
  {
    if m: nat, k :| ClashAt(tr, maxSize, m, k) {
      StepFacts(tr, maxSize, m, k);
    }
    if j, k :| 0 <= j < |tr| && Lacks(tr[j], k) {
      var m := FindClash(tr, maxSize, j, k);
    }
  }

  /** No Set of a key is under way while a Delete of it is, nor when it is evicted. */
  ghost predicate NoOverlap(tr: seq<Shared>, maxSize: int)
  {
    && (forall i, k :: 0 <= i < |tr| && IsBeingSet(tr[i], k) ==> !IsBeingDeleted(tr[i], k))
    && (forall i: nat, k :: EvictAt(tr, maxSize, i, k) ==> !IsBeingSet(tr[i], k))
  }

  ghost predicate EvictStep(s: Shared, maxSize: int, k: Key, s': Shared)
  {
    exists a :: Enabled(s, maxSize, a) && Victimises(s, a, k) && s' == Apply(s, maxSize, a)
  }

  /** Step `i` evicts the entry of `k`. */
  ghost predicate EvictAt(tr: seq<Shared>, maxSize: int, i: nat, k: Key)
  {
    i + 1 < |tr| && EvictStep(tr[i], maxSize, k, tr[i + 1])
  }

  /** What a Delete has taken out stays out until it has removed the file. */
  predicate DeletedStayOut(s: Shared)
  {
    forall k :: k in s.index ==> !IsBeingDeleted(s, k)
  }

  lemma DeletedStayOutKept(s: Shared, maxSize: int, a: Action)
    requires Placed(s) && DeletedStayOut(s) && Enabled(s, maxSize, a)
    requires forall k :: IsBeingSet(s, k) ==> !IsBeingDeleted(s, k)
    ensures DeletedStayOut(Apply(s, maxSize, a))
  {
    var s' := Apply(s, maxSize, a);
    forall k, d | k in s'.index && d in s'.deletes && s'.deletes[d] == PathOf(k)
      ensures false
    {
      if a.Store? && s.sets[a.writer].key == k {
        assert IsBeingSet(s, k) && IsBeingDeleted(s, k);
      } else if a.TakeOut? && d == a.deleter && a.oldKey in s.index {
        PathsDiffer(a.oldKey, k);
      } else {
        assert IsBeingDeleted(s, k);
      }
    }
  }

  lemma {:induction false} DeletedAlwaysOut(tr: seq<Shared>, maxSize: int, i: nat)
    requires OwnExecution(tr, maxSize) && NoOverlap(tr, maxSize) && i < |tr|
    ensures DeletedStayOut(tr[i])
  {
    if i > 0 {
      DeletedAlwaysOut(tr, maxSize, i - 1);
      AlwaysPlaced(tr, maxSize, i - 1);
      assert StepAt(tr, maxSize, i - 1);
      var a :| Enabled(tr[i - 1], maxSize, a) && tr[i] == Apply(tr[i - 1], maxSize, a);
      DeletedStayOutKept(tr[i - 1], maxSize, a);
    }
  }

  lemma NoClashWithoutOverlap(tr: seq<Shared>, maxSize: int, m: nat, k: Key)
    requires OwnExecution(tr, maxSize) && NoOverlap(tr, maxSize)
    ensures !ClashAt(tr, maxSize, m, k)
  {
    if ClashAt(tr, maxSize, m, k) {
      DeletedAlwaysOut(tr, maxSize, m);
      var a :| Enabled(tr[m], maxSize, a) && Clashes(tr[m], a, k) && tr[m + 1] == Apply(tr[m], maxSize, a);
      if EndsDelete(tr[m], a, k) {
        assert IsBeingDeleted(tr[m], k);
      } else {
        assert EvictAt(tr, maxSize, m, k);
      }
      assert false;
    }
  }

  /** When no Set of a key overlaps a Delete or an eviction of it, every entry has its file at
      every moment, whatever else is going on. */
  lemma EntriesKeepTheirFiles(tr: seq<Shared>, maxSize: int, j: nat, k: Key)
    requires OwnExecution(tr, maxSize) && NoOverlap(tr, maxSize) && j < |tr| && IsLive(tr[j], k)
    ensures HasFile(tr[j], k)
  {
    if !HasFile(tr[j], k) {
      var m := FindClash(tr, maxSize, j, k);
      NoClashWithoutOverlap(tr, maxSize, m, k);
      assert false;
    }
  }

  /** An entry, a Set under way or a Delete under way stands for the file at `p`. */
  ghost predicate IsAccountedFor(s: Shared, p: string)
  {
    exists k :: PathOf(k) == p && (k in s.index || IsBeingSet(s, k) || IsBeingDeleted(s, k))
  }

  /** No file is left behind. */
  ghost predicate NoOrphans(s: Shared)
  {
    forall p :: p in s.files ==> IsAccountedFor(s, p)
  }

  lemma SetAccounted(s: Shared, maxSize: int, a: Action, k: Key)
    requires Enabled(s, maxSize, a) && IsBeingSet(s, k)
    ensures k in Apply(s, maxSize, a).index || IsBeingSet(Apply(s, maxSize, a), k)
  {
    var c :| c in s.sets && s.sets[c].key == k;
    var s' := Apply(s, maxSize, a);
    assert c in s'.sets || k in s'.index;
  }

  lemma DeleteAccounted(s: Shared, maxSize: int, a: Action, k: Key)
    requires Enabled(s, maxSize, a) && IsBeingDeleted(s, k) && PathOf(k) in Apply(s, maxSize, a).files && !a.WriteFile?
    ensures IsBeingDeleted(Apply(s, maxSize, a), k)
  {
    var d :| d in s.deletes && s.deletes[d] == PathOf(k);
    assert d in Apply(s, maxSize, a).deletes;
  }

  lemma EntryAccounted(s: Shared, maxSize: int, a: Action, k: Key)
    requires Placed(s) && Enabled(s, maxSize, a) && k in s.index && PathOf(k) in Apply(s, maxSize, a).files
    requires !a.WriteFile?
    ensures k in Apply(s, maxSize, a).index || IsBeingDeleted(Apply(s, maxSize, a), k)
  {
    var s' := Apply(s, maxSize, a);
    if k !in s'.index {
      assert a == TakeOut(a.deleter, k) && s'.deletes[a.deleter] == PathOf(k);
    }
  }

  lemma AccountedKept(s: Shared, maxSize: int, a: Action, p: string)
    requires Placed(s) && Enabled(s, maxSize, a) && IsAccountedFor(s, p) && p in Apply(s, maxSize, a).files
    requires !a.WriteFile?
    ensures IsAccountedFor(Apply(s, maxSize, a), p)
  {
    var k :| PathOf(k) == p && (k in s.index || IsBeingSet(s, k) || IsBeingDeleted(s, k));
    if IsBeingSet(s, k) {
      SetAccounted(s, maxSize, a, k);
    } else if IsBeingDeleted(s, k) {
      DeleteAccounted(s, maxSize, a, k);
    } else {
      EntryAccounted(s, maxSize, a, k);
    }
  }

  /** A write touches neither entries nor Deletes, and its own file belongs to its Set. */
  lemma AccountedByWrite(s: Shared, maxSize: int, a: Action, p: string)
    requires Enabled(s, maxSize, a) && a.WriteFile? && (IsAccountedFor(s, p) || p == PathOf(a.newKey))
    ensures IsAccountedFor(Apply(s, maxSize, a), p)
  {
    var s' := Apply(s, maxSize, a);
    if p == PathOf(a.newKey) {
      assert s'.sets[a.writer].key == a.newKey;
    } else {
      var k :| PathOf(k) == p && (k in s.index || IsBeingSet(s, k) || IsBeingDeleted(s, k));
      if IsBeingSet(s, k) {
        SetAccounted(s, maxSize, a, k);
      }
    }
  }

  lemma OrphansKept(s: Shared, maxSize: int, a: Action)
    requires Placed(s) && NoOrphans(s) && Enabled(s, maxSize, a)
    ensures NoOrphans(Apply(s, maxSize, a))
  {
    var s' := Apply(s, maxSize, a);
    forall p | p in s'.files
      ensures IsAccountedFor(s', p)
    {
      if a.WriteFile? {
        AccountedByWrite(s, maxSize, a, p);
      } else {
        AccountedKept(s, maxSize, a, p);
      }
    }
  }

  /** No file is forgotten: in every order of operations, each file is that of an entry or of a Set or
      a Delete under way. So once no call is under way, the files are those of the entries. */
  lemma {:induction false} NoFileIsForgotten(tr: seq<Shared>, maxSize: int, i: nat)
    requires OwnExecution(tr, maxSize) && NoOrphans(tr[0]) && i < |tr|
    ensures NoOrphans(tr[i])
    ensures tr[i].sets == map[] && tr[i].deletes == map[] ==>
              forall p :: p in tr[i].files ==> exists k :: k in tr[i].index && tr[i].index[k].path == p
  {
    AlwaysPlaced(tr, maxSize, i);
    if i > 0 {
      NoFileIsForgotten(tr, maxSize, i - 1);
      AlwaysPlaced(tr, maxSize, i - 1);
      assert StepAt(tr, maxSize, i - 1);
      var a :| Enabled(tr[i - 1], maxSize, a) && tr[i] == Apply(tr[i - 1], maxSize, a);
      OrphansKept(tr[i - 1], maxSize, a);
    }
    if tr[i].sets == map[] && tr[i].deletes == map[] {
      FilesHaveEntries(tr[i]);
    }
  }

  lemma FilesHaveEntries(s: Shared)
    requires NoOrphans(s) && Placed(s) && s.sets == map[] && s.deletes == map[]
    ensures forall p :: p in s.files ==> exists k :: k in s.index && s.index[k].path == p
  {
    forall p | p in s.files
      ensures exists k :: k in s.index && s.index[k].path == p
    {
      assert IsAccountedFor(s, p);
    }
  }

  lemma EvictOnly(index: Index, k: Key, maxSize: int, n: nat)
    requires index.Keys == {k} && index[k].size + n > maxSize
    ensures Evicts(index, maxSize, n, [k]) && Dropped(index, [k]) == map[] && PathsOf(index, [k]) == {index[k].path}
  {
    TotalWithout(index, k);
    assert index - {k} == map[];
    DropNone(index);
    assert Dropped(index, [k]) == map[];
    assert [k][..0] == [];
  }

  lemma EvictNone(index: Index, k: Key, maxSize: int, n: nat)
    requires index.Keys == {k} && index[k].size + n <= maxSize
    ensures Evicts(index, maxSize, n, []) && Dropped(index, []) == index
  {
    TotalWithout(index, k);
    assert index - {k} == map[];
    NothingToEvict(index, maxSize, n);
    DropNone(index);
  }

  /** A Set of `k` is over, its eviction is yet to run, and a second Set has written its file. */
  function TwoSets(k: Key, b: bv8): Shared
  {
    Shared(map[k := Entry(PathOf(k), 2, 0)], map[PathOf(k) := [b]], multiset{2}, true,
           map[1 := Wrote(k, 1)], map[], map[], map[PathOf(k) := [b]])
  }

  lemma TwoSetsHappen(k: Key, b: bv8)
    ensures Reachable(Initial(map[], map[]), TwoSets(k, b), 2)
  {
    var s0 := Initial(map[], map[]);
    assert ExecutionTo([s0], 2, s0, s0);
    var s1 := Apply(s0, 2, WriteFile(0, k, [b, b]));
    Advance(s0, s0, 2, WriteFile(0, k, [b, b]));
    var s2 := Apply(s1, 2, Store(0, 0));
    Advance(s0, s1, 2, Store(0, 0));
    Advance(s0, s2, 2, WriteFile(1, k, [b]));
    assert Apply(s2, 2, WriteFile(1, k, [b])) == TwoSets(k, b);
  }

  /** The first Set's eviction has run in between. */
  function Evicted(k: Key, b: bv8): Shared
  {
    Shared(map[], map[], multiset{}, true, map[1 := Wrote(k, 1)], map[], map[], map[PathOf(k) := [b]])
  }

  /** The second Set has stored its entry. */
  function Bereft(k: Key, b: bv8): Shared
  {
    Shared(map[k := Entry(PathOf(k), 1, 0)], map[], multiset{1}, true, map[], map[], map[], map[PathOf(k) := [b]])
  }

  lemma EvictsFirst(k: Key, b: bv8)
    ensures Enabled(TwoSets(k, b), 2, RunEvict(2, [k]))
    ensures Apply(TwoSets(k, b), 2, RunEvict(2, [k])) == Evicted(k, b)
  {
    var index := map[k := Entry(PathOf(k), 2, 0)];
    EvictOnly(index, k, 2, 2);
    assert map[PathOf(k) := [b]] - {PathOf(k)} == map[];
  }

  lemma StoresSecond(k: Key, b: bv8)
    ensures Apply(Evicted(k, b), 2, Store(1, 0)) == Bereft(k, b)
  {
  }

  lemma BereftHappens(k: Key, b: bv8)
    ensures Reachable(Initial(map[], map[]), Bereft(k, b), 2)
  {
    TwoSetsHappen(k, b);
    EvictsFirst(k, b);
    Advance(Initial(map[], map[]), TwoSets(k, b), 2, RunEvict(2, [k]));
    StoresSecond(k, b);
    Advance(Initial(map[], map[]), Evicted(k, b), 2, Store(1, 0));
  }

  /** It does happen: a Set whose file falls to the eviction of the entry it replaces leaves an
      entry without a file, once all calls and evictions are over. */
  lemma AnEntryCanLoseItsFile(k: Key, b: bv8) returns (s: Shared)
    ensures Reachable(Initial(map[], map[]), s, 2) && k in s.index && !HasFile(s, k)
    ensures s.sets == map[] && s.deletes == map[] && s.pending == multiset{}
  {
    BereftHappens(k, b);
    EvictNone(Bereft(k, b).index, k, 2, 1);
    Advance(Initial(map[], map[]), Bereft(k, b), 2, RunEvict(1, []));
    s := Apply(Bereft(k, b), 2, RunEvict(1, []));
  }

  // ----- the code -----

  /** Whose step an action is. A Get that ends in a Delete does so as the same call. */
  datatype User = Caller(call: nat) | Evictor

  function UserOf(a: Action): User
  {
    match a
    case WriteFile(c, _, _) => Caller(c)
    case Store(c, _) => Caller(c)
    case RunEvict(_, _) => Evictor
    case TakeOut(d, _) => Caller(d)
    case RemoveFile(d) => Caller(d)
    case Look(g, _, _) => Caller(g)
    case ReadFile(g) => Caller(g)
  }

  /** The call `c` stands where it stood. */
  predicate SamePlace(c: nat, s: Shared, s': Shared)
  {
    && (c in s.sets <==> c in s'.sets) && (c in s.sets ==> s'.sets[c] == s.sets[c])
    && (c in s.deletes <==> c in s'.deletes) && (c in s.deletes ==> s'.deletes[c] == s.deletes[c])
    && (c in s.gets <==> c in s'.gets) && (c in s.gets ==> s'.gets[c] == s.gets[c])
  }

  /** The cache's methods, with whatever other calls do between two atomic operations given as
      `others`. The cache stays in a state that some order of operations leads to, so what is
      proved of executions holds of it. */
  class PackCache {
    const maxSize: int
    const ttl: int
    ghost const start: Shared
    var entries: Index
    var files: map<string, Bytes>
    var pending: multiset<nat>
    var anySet: bool
    var sets: map<nat, SetPc>
    var deletes: map<nat, string>
    var gets: map<nat, GetPc>
    var written: map<string, Bytes>

    function Snapshot(): Shared
      reads this
    {
      Shared(entries, files, pending, anySet, sets, deletes, gets, written)
    }

    ghost predicate Valid()
      reads this
    {
      Reachable(start, Snapshot(), maxSize)
    }

    /** A cache over an index rebuilt from the files found in its directory. */
    constructor (maxSize: int, ttl: int, entries: Index, files: map<string, Bytes>)
      ensures Valid() && this.maxSize == maxSize && this.ttl == ttl && Snapshot() == Initial(entries, files)
    {
      this.maxSize, this.ttl, this.entries, this.files, written := maxSize, ttl, entries, files, files;
      pending, anySet, sets, deletes, gets := multiset{}, false, map[], map[], map[];
      start := Initial(entries, files);
      new;
      assert ExecutionTo([start], maxSize, start, Snapshot());
    }

    predicate IsFresh(e: Entry, now: int)
    {
      ttl > 0 ==> now - e.at <= ttl
    }

    /** What a reader may be given for `key` at time `now`. */
    function Lookup(key: Key, now: int): Option<Bytes>
      reads this
    {
      if key in entries && IsFresh(entries[key], now) && entries[key].path in files
      then Some(files[entries[key].path]) else None
    }

    // ----- atomic operations -----

    method WriteData(c: nat, key: Key, data: Bytes)
      requires Valid() && c !in sets
      modifies this`files, this`written, this`sets
      ensures Valid() && files == old(files)[PathOf(key) := data] && written == old(written)[PathOf(key) := data]
      ensures sets == old(sets)[c := Wrote(key, |data|)]
    {
      Advance(start, Snapshot(), maxSize, WriteFile(c, key, data));
      files := files[PathOf(key) := data];
      written := written[PathOf(key) := data];
      sets := sets[c := Wrote(key, |data|)];
    }

    method StoreEntry(c: nat, now: int)
      requires Valid() && c in sets
      modifies this`entries, this`pending, this`anySet, this`sets
      ensures Valid() && anySet && sets == old(sets) - {c}
      ensures var pc := old(sets)[c];
              && entries == old(entries)[pc.key := Entry(PathOf(pc.key), pc.size, now)]
              && pending == old(pending) + Spawned(maxSize, pc.size)
    {
      Advance(start, Snapshot(), maxSize, Store(c, now));
      var pc := sets[c];
      entries := entries[pc.key := Entry(PathOf(pc.key), pc.size, now)];
      anySet := true;
      pending := pending + if maxSize > 0 then multiset{pc.size} else multiset{};
      sets := sets - {c};
    }

    method TakeEntry(c: nat, key: Key) returns (found: bool)
      requires Valid() && c !in deletes
      modifies this`entries, this`deletes
      ensures Valid() && found == (key in old(entries)) && entries == old(entries) - {key}
      ensures deletes == if found then old(deletes)[c := old(entries)[key].path] else old(deletes)
    {
      Advance(start, Snapshot(), maxSize, TakeOut(c, key));
      if key !in entries {
        assert entries == entries - {key};
        return false;
      }
      deletes := deletes[c := entries[key].path];
      entries := entries - {key};
      return true;
    }

    method RemoveTaken(c: nat)
      requires Valid() && c in deletes
      modifies this`files, this`deletes
      ensures Valid() && files == old(files) - {old(deletes)[c]} && deletes == old(deletes) - {c}
    {
      Advance(start, Snapshot(), maxSize, RemoveFile(c));
      files := files - {deletes[c]};
      deletes := deletes - {c};
    }

    method LookUp(c: nat, key: Key, isFresh: bool)
      requires Valid() && c !in gets
      modifies this`gets
      ensures Valid()
      ensures gets == old(gets)[c := Looked(if key in entries && isFresh then Some(entries[key].path) else None)]
    {
      Advance(start, Snapshot(), maxSize, Look(c, key, isFresh));
      gets := gets[c := Looked(if key in entries && isFresh then Some(entries[key].path) else None)];
    }

    method ReadData(c: nat) returns (data: Option<Bytes>)
      requires Valid() && c in gets && gets[c].Looked?
      modifies this`gets
      ensures Valid() && gets == old(gets)[c := Answered(old(gets[c].path), data)]
      ensures var p := old(gets[c].path);
              && data == (if p.Some? && p.value in files then Some(files[p.value]) else None)
              && (data.Some? ==> p.value in written && data.value == written[p.value])
    {
      ReachableFilesAreLatest(start, Snapshot(), maxSize);
      Advance(start, Snapshot(), maxSize, ReadFile(c));
      var path := gets[c].path;
      data := if path.Some? && path.value in files then Some(files[path.value]) else None;
      gets := gets[c := Answered(path, data)];
    }

    method SumSizes() returns (total: nat)
      ensures total == Total(entries)
    {
      total := 0;
      var rest := entries.Keys;
      assert Restricted(entries, entries.Keys) == entries;
      while rest != {}
        invariant rest <= entries.Keys
        invariant total + Total(Restricted(entries, rest)) == Total(entries)
        decreases rest
      {
        var k :| k in rest;
        RestrictedTotals(entries, rest, k);
        total := total + entries[k].size;
        rest := rest - {k};
      }
      assert Restricted(entries, {}) == map[];
    }

    /** The keys by age; sort.Slice may leave keys of the same age in any order. */
    method KeysByAge() returns (ages: seq<Key>)
      ensures AgeOrdered(entries, ages)
      ensures forall k :: k in entries <==> k in ages
    {
      ages := [];
      var rest := entries.Keys;
      while rest != {}
        invariant rest <= entries.Keys && AgeOrdered(entries, ages)
        invariant forall k :: k in ages <==> k in entries && k !in rest
        invariant forall a, b :: a in ages && b in rest ==> entries[a].at <= entries[b].at
        decreases rest
      {
        OldestExists(entries, rest);
        var k :| k in rest && forall q :: q in rest ==> entries[k].at <= entries[q].at;
        assert forall i :: 0 <= i < |ages| ==> ages[i] in ages;
        ages := ages + [k];
        rest := rest - {k};
      }
    }

    /** evict's work under the lock; the victims are returned for the contract only. */
    method EvictOldest(incoming: nat) returns (ghost victims: seq<Key>)
      modifies this`entries, this`files
      ensures Evicts(old(entries), maxSize, incoming, victims)
      ensures entries == Dropped(old(entries), victims)
      ensures files == old(files) - PathsOf(old(entries), victims)
    {
      ghost var start := entries;
      victims := [];
      DropNone(start);
      var total := SumSizes();
      total := total + incoming;
      if total <= maxSize {
        NothingToEvict(start, maxSize, incoming);
        return;
      }
      var ages := KeysByAge();
      var over := total - maxSize;
      var i := 0;
      while i < |ages| && over > 0
        invariant 0 <= i <= |ages|
        invariant InEvict(start, maxSize, incoming, ages, i, entries, over)
        invariant files == old(files) - PathsOf(start, ages[..i])
      {
        var key := ages[i];
        DropOneMore(start, ages, i);
        RemoveOneMore(old(files), PathsOf(start, ages[..i]), start[key].path);
        EvictOneMore(start, maxSize, incoming, ages, i, entries, over);
        over := over - entries[key].size;
        files := files - {entries[key].path};
        entries := entries - {key};
        i := i + 1;
      }
      victims := ages[..i];
      PrefixEvicts(start, maxSize, incoming, ages, i, entries, over);
    }

    method Evict(incoming: nat) returns (ghost victims: seq<Key>)
      requires Valid() && incoming in pending
      modifies this`entries, this`files, this`pending
      ensures Valid() && Evicts(old(entries), maxSize, incoming, victims)
      ensures entries == Dropped(old(entries), victims)
      ensures files == old(files) - PathsOf(old(entries), victims)
      ensures pending == old(pending) - multiset{incoming}
    {
      ghost var before := Snapshot();
      victims := EvictOldest(incoming);
      Advance(start, before, maxSize, RunEvict(incoming, victims));
      pending := pending - multiset{incoming};
    }

    // ----- other calls -----

    /** The operation `a` of another call than `c`, if it can happen. */
    method Step(a: Action, ghost c: nat)
      requires Valid() && UserOf(a) != Caller(c)
      modifies this
      ensures Valid() && SamePlace(c, old(Snapshot()), Snapshot())
    {
      match a {
        case WriteFile(w, k, data) => if w !in sets { WriteData(w, k, data); }
        case Store(w, t) => if w in sets { StoreEntry(w, t); }
        case RunEvict(n, _) => if n in pending { var victims := Evict(n); }
        case TakeOut(d, k) => if d !in deletes { var found := TakeEntry(d, k); }
        case RemoveFile(d) => if d in deletes { RemoveTaken(d); }
        case Look(g, k, isFresh) => if g !in gets { LookUp(g, k, isFresh); }
        case ReadFile(g) => if g in gets && gets[g].Looked? { var data := ReadData(g); }
      }
    }

    /** The operations `acts` of other calls than `c`, as far as they can happen. */
    method Others(c: nat, acts: seq<Action>)
      requires Valid()
      modifies this
      ensures Valid() && SamePlace(c, old(Snapshot()), Snapshot())
      ensures acts == [] ==> Snapshot() == old(Snapshot())
    {
      for i := 0 to |acts|
        invariant Valid() && SamePlace(c, old(Snapshot()), Snapshot())
        invariant i == 0 ==> Snapshot() == old(Snapshot())
      {
        if UserOf(acts[i]) != Caller(c) {
          Step(acts[i], c);
        }
      }
    }

    // ----- Set, Delete and Get -----

    /** `c` is not the name of a call under way. */
    predicate IsNew(c: nat)
      reads this
    {
      c !in sets && c !in deletes && c !in gets
    }

    /** Stores `data`; the result is the size evict is called with, if it is to be called. */
    method Set(c: nat, key: Key, data: Bytes, now: int, others: seq<Action>) returns (evictFor: Option<nat>)
      requires Valid() && IsNew(c) && |key| >= 2
      modifies this
      ensures Valid() && key in entries && entries[key] == Entry(key[..2] + "/" + key, |data|, now)
      ensures evictFor == (if maxSize > 0 then Some(|data|) else None) && (maxSize > 0 ==> |data| in pending)
      ensures others == [] ==> entries == old(entries)[key := Entry(PathOf(key), |data|, now)]
      ensures others == [] ==> files == old(files)[PathOf(key) := data]
      ensures others == [] ==> forall later :: (ttl > 0 ==> later - now <= ttl) ==> Lookup(key, later) == Some(data)
    {
      WriteData(c, key, data);
      Others(c, others);
      StoreEntry(c, now);
      evictFor := if maxSize > 0 then Some(|data|) else None;
    }

    method Delete(c: nat, key: Key, others: seq<Action>)
      requires Valid() && c !in deletes
      modifies this
      ensures Valid() && c !in deletes
      ensures others == [] ==> entries == old(entries) - {key}
      ensures others == [] ==> files == old(files) - (if key in old(entries) then {old(entries)[key].path} else {})
    {
      var found := TakeEntry(c, key);
      if found {
        Others(c, others);
        RemoveTaken(c);
      }
    }

    /** A hit is what is in the file when it is read; a stale entry or one whose file is gone is dropped. */
    method Get(c: nat, key: Key, now: int, others1: seq<Action>, others2: seq<Action>, others3: seq<Action>)
      returns (data: Option<Bytes>)
      requires Valid() && IsNew(c)
      modifies this
      ensures Valid()
      ensures data.Some? ==>
                && key in old(entries) && (ttl > 0 ==> now - old(entries)[key].at <= ttl)
                && var p := old(entries)[key].path;
                p in files && p in written && data.value == files[p] == written[p]
      ensures others1 == others2 == others3 == [] ==>
                && (data.Some? <==> key in old(entries) && (ttl > 0 ==> now - old(entries)[key].at <= ttl) &&
                                    old(entries)[key].path in old(files))
                && (data.Some? ==> data.value == old(files)[old(entries)[key].path])
                && entries == (if data.Some? then old(entries) else old(entries) - {key})
                && files == old(files) - (if data.None? && key in old(entries) then {old(entries)[key].path} else {})
    {
      if key !in entries {
        assert entries == entries - {key};
        return None;
      }
      var isFresh := !(ttl > 0 && now - entries[key].at > ttl);
      LookUp(c, key, isFresh);
      Others(c, others1);
      if !isFresh {
        Delete(c, key, others3);
        return None;
      }
      data := ReadData(c);
      if data.None? {
        Others(c, others2);
        Delete(c, key, others3);
      }
    }

    method Stats() returns (count: nat, bytes: nat)
      ensures count == |entries| && bytes == Total(entries)
    {
      count := |entries|;
      bytes := SumSizes();
    }
  }
}
