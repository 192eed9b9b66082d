// The text hashed into a pack-cache key: internal/git/pack_cache.go:72-84. The hash itself is
// not modelled, so these are results about its input.
module PackKey {

  type Branches = map<string, string>

  // ----- string order and sorting, as sort.Strings does it -----

  predicate AtMost(a: string, b: string)
  {
    if a == [] then true
    else if b == [] then false
    else a[0] < b[0] || (a[0] == b[0] && AtMost(a[1..], b[1..]))
  }

  lemma {:induction false} AtMostTotal(a: string, b: string)
    ensures AtMost(a, b) || AtMost(b, a)
    ensures AtMost(a, b) && AtMost(b, a) ==> a == b
  {
    if a != [] && b != [] && a[0] == b[0] {
      AtMostTotal(a[1..], b[1..]);
      assert a == [a[0]] + a[1..] && b == [b[0]] + b[1..];
    }
  }

  lemma {:induction false} AtMostTransitive(a: string, b: string, c: string)
    requires AtMost(a, b) && AtMost(b, c)
    ensures AtMost(a, c)
  {
    if a != [] && a[0] == b[0] == c[0] {
      AtMostTransitive(a[1..], b[1..], c[1..]);
    }
  }

  /** `a` and `b` first differ at `i`, where `a` has the smaller byte. */
  ghost predicate LessAt(a: string, b: string, i: nat)
  {
    i < |a| && i < |b| && a[..i] == b[..i] && a[i] < b[i]
  }

  lemma LessAtNext(a: string, b: string, i: nat)
    requires a != [] && b != [] && a[0] == b[0]
    ensures LessAt(a, b, i + 1) <==> LessAt(a[1..], b[1..], i)
  {
    if i < |a[1..]| && i < |b[1..]| {
      assert a[..i + 1] == [a[0]] + a[1..][..i] && b[..i + 1] == [b[0]] + b[1..][..i];
      assert a[1..][..i] == a[..i + 1][1..] && b[1..][..i] == b[..i + 1][1..];
    }
  }

  /** Which order that is: a prefix comes first, else the first byte that differs decides. */
  lemma {:induction false} AtMostExactly(a: string, b: string)
    ensures AtMost(a, b) <==> a <= b || exists i: nat :: LessAt(a, b, i)
  {
    if a != [] && b != [] {
      assert LessAt(a, b, 0) <==> a[0] < b[0];
      if a[0] == b[0] {
        var x, y := a[1..], b[1..];
        AtMostExactly(x, y);
        assert a == [a[0]] + x && b == [b[0]] + y;
        if i: nat :| LessAt(x, y, i) {
          LessAtNext(a, b, i);
        }
        if i: nat :| LessAt(a, b, i) {
          LessAtNext(a, b, i - 1);
        }
      }
    }
  }

  ghost predicate StrictlySorted(s: seq<string>)
  {
    forall i, j :: 0 <= i < j < |s| ==> s[i] != s[j] && AtMost(s[i], s[j])
  }

  function Insert(s: seq<string>, x: string): seq<string>
  {
    if s == [] || AtMost(x, s[0]) then [x] + s else [s[0]] + Insert(s[1..], x)
  }

  lemma {:induction false} InsertSorts(s: seq<string>, x: string)
    requires StrictlySorted(s) && x !in s
    ensures StrictlySorted(Insert(s, x))
    ensures forall y :: y in Insert(s, x) <==> y == x || y in s
  {
    if s == [] {
    } else if AtMost(x, s[0]) {
      forall j | 0 <= j < |s|
        ensures AtMost(x, s[j])
      {
        if j > 0 {
          AtMostTransitive(x, s[0], s[j]);
        }
      }
    } else {
      AtMostTotal(x, s[0]);
      InsertSorts(s[1..], x);
      var t := Insert(s[1..], x);
      assert s == [s[0]] + s[1..];
      forall j | 0 <= j < |t|
        ensures s[0] != t[j] && AtMost(s[0], t[j])
      {
        assert t[j] in t;
        if t[j] != x {
          var k :| 0 <= k < |s[1..]| && s[1..][k] == t[j];
          assert s[k + 1] == t[j];
        }
      }
    }
  }

  lemma EmptyOrMember(s: seq<string>)
    ensures s == [] || exists x :: x in s
  {
    if s != [] {
      assert s[0] in s;
    }
  }

  /** A strictly sorted list is determined by its elements. */
  lemma {:induction false} SortedUnique(s: seq<string>, t: seq<string>)
    requires StrictlySorted(s) && StrictlySorted(t) && forall x :: x in s <==> x in t
    ensures s == t
  {
    if s == [] {
      EmptyOrMember(t);
    } else {
      assert s[0] in t;
      var i :| 0 <= i < |t| && t[i] == s[0];
      assert t[0] in s;
      var j :| 0 <= j < |s| && s[j] == t[0];
      AtMostTotal(s[0], t[0]);
      assert s[0] == t[0];
      assert s == [s[0]] + s[1..] && t == [t[0]] + t[1..];
      forall x
        ensures x in s[1..] <==> x in t[1..]
      {
        assert x in s[1..] ==> x in s && x != s[0];
        assert x in t[1..] ==> x in t && x != t[0];
      }
      SortedUnique(s[1..], t[1..]);
    }
  }

  // ----- the text -----

  function Lines(keys: seq<string>, branches: Branches): string
    requires forall k :: k in keys ==> k in branches
  {
    if keys == [] then ""
    else keys[0] + ":" + branches[keys[0]] + "\n" + Lines(keys[1..], branches)
  }

  ghost predicate SortedKeysOf(keys: seq<string>, branches: Branches)
  {
    StrictlySorted(keys) && forall k :: k in keys <==> k in branches
  }

  function Text(owner: string, name: string, keys: seq<string>, branches: Branches): string
    requires forall k :: k in keys ==> k in branches
  {
    owner + "/" + name + "\n" + Lines(keys, branches)
  }

  ghost predicate IsPreimage(owner: string, name: string, branches: Branches, text: string)
  {
    exists keys :: SortedKeysOf(keys, branches) && text == Text(owner, name, keys, branches)
  }

  /** The text written into the hash. The branch names come out of the map in any order. */
  method Preimage(owner: string, name: string, branches: Branches) returns (text: string)
    ensures IsPreimage(owner, name, branches, text)
  {
    text := owner + "/" + name + "\n";
    var keys: seq<string> := [];
    var rest := branches.Keys;
    while rest != {}
      invariant rest <= branches.Keys && StrictlySorted(keys)
      invariant forall k :: k in keys <==> k in branches && k !in rest
      decreases rest
    {
      var k :| k in rest;
      rest := rest - {k};
      InsertSorts(keys, k);
      keys := Insert(keys, k);
    }
    ghost var head := text;
    for i := 0 to |keys|
      invariant text + Lines(keys[i..], branches) == head + Lines(keys, branches)
    {
      assert keys[i..][0] == keys[i] && keys[i..][1..] == keys[i + 1..];
      text := text + (keys[i] + ":" + branches[keys[i]] + "\n");
    }
    assert keys[|keys|..] == [];
    assert SortedKeysOf(keys, branches) && text == Text(owner, name, keys, branches);
  }

  lemma NextBranch(keys: seq<string>, branches: Branches, b: string)
    requires SortedKeysOf(keys, branches) && b in branches && forall k :: k in branches ==> AtMost(b, k)
    ensures keys != [] && keys[0] == b && SortedKeysOf(keys[1..], branches - {b})
    ensures Lines(keys, branches) == b + ":" + branches[b] + "\n" + Lines(keys[1..], branches - {b})
  {
    LeastIsFirst(keys, branches, b);
    OthersSorted(keys, branches);
    SameLines(keys[1..], branches, branches - {b});
  }

  lemma OthersSorted(keys: seq<string>, branches: Branches)
    requires SortedKeysOf(keys, branches) && keys != []
    ensures SortedKeysOf(keys[1..], branches - {keys[0]})
  {
    var rest := keys[1..];
    forall k
      ensures k in rest <==> k in branches - {keys[0]}
    {
      assert keys == [keys[0]] + rest;
      if k in rest {
        var i :| 0 <= i < |rest| && rest[i] == k;
        assert keys[i + 1] == k;
      }
    }
  }

  lemma LeastIsFirst(keys: seq<string>, branches: Branches, b: string)
    requires SortedKeysOf(keys, branches) && b in branches && forall k :: k in branches ==> AtMost(b, k)
    ensures keys != [] && keys[0] == b
  {
    assert b in keys;
    assert keys[0] in keys;
    var i :| 0 <= i < |keys| && keys[i] == b;
    AtMostTotal(keys[0], b);
  }

  lemma {:induction false} SameLines(keys: seq<string>, a: Branches, b: Branches)
    requires forall k :: k in keys ==> k in a && k in b && a[k] == b[k]
    ensures Lines(keys, a) == Lines(keys, b)
  {
    if keys != [] {
      SameLines(keys[1..], a, b);
    }
  }

  /** The text, byte for byte: the header, then the line of the least branch name, then the text of
      the others without their header. */
  lemma TextByLeastBranch(owner: string, name: string, branches: Branches, b: string, text: string)
    returns (rest: string)
    requires IsPreimage(owner, name, branches, text) && b in branches && forall k :: k in branches ==> AtMost(b, k)
    ensures text == owner + "/" + name + "\n" + (b + ":" + branches[b] + "\n" + rest)
    ensures IsPreimage(owner, name, branches - {b}, owner + "/" + name + "\n" + rest)
  {
    var keys :| SortedKeysOf(keys, branches) && text == Text(owner, name, keys, branches);
    NextBranch(keys, branches, b);
    rest := Lines(keys[1..], branches - {b});
    assert Text(owner, name, keys[1..], branches - {b}) == owner + "/" + name + "\n" + rest;
  }

  lemma TextOfNoBranches(owner: string, name: string, text: string)
    ensures IsPreimage(owner, name, map[], text) <==> text == owner + "/" + name + "\n"
  {
    var none: Branches := map[];
    assert SortedKeysOf([], none);
    assert Text(owner, name, [], none) == owner + "/" + name + "\n";
    if IsPreimage(owner, name, none, text) {
      var keys :| SortedKeysOf(keys, none) && text == Text(owner, name, keys, none);
      EmptyOrMember(keys);
    }
  }

  lemma UniqueSplit(a: string, x: string, b: string, y: string, c: char)
    requires a + [c] + x == b + [c] + y && c !in a && c !in b
    ensures a == b && x == y
  {
    FirstOccurrence(a, x, c);
    FirstOccurrence(b, y, c);
    var whole := a + [c] + x;
    assert a == whole[..|a|] && b == (b + [c] + y)[..|b|];
    assert x == whole[|a| + 1..] && y == (b + [c] + y)[|b| + 1..];
  }

  lemma FirstOccurrence(a: string, x: string, c: char)
    requires c !in a
    ensures (a + [c] + x)[|a|] == c && forall i :: 0 <= i < |a| ==> (a + [c] + x)[i] != c
  {
  }

  predicate Separable(branches: Branches)
  {
    forall k :: k in branches ==> ':' !in k && '\n' !in branches[k]
  }

  lemma {:induction false} LinesInjective(keys1: seq<string>, b1: Branches, keys2: seq<string>, b2: Branches)
    requires Separable(b1) && Separable(b2)
    requires (forall k :: k in keys1 ==> k in b1) && (forall k :: k in keys2 ==> k in b2)
    requires Lines(keys1, b1) == Lines(keys2, b2)
    ensures keys1 == keys2 && forall k :: k in keys1 ==> b1[k] == b2[k]
  {
    if keys1 != [] && keys2 != [] {
      var k1, k2 := keys1[0], keys2[0];
      var rest1, rest2 := Lines(keys1[1..], b1), Lines(keys2[1..], b2);
      assert Lines(keys1, b1) == k1 + [':'] + (b1[k1] + ['\n'] + rest1);
      assert Lines(keys2, b2) == k2 + [':'] + (b2[k2] + ['\n'] + rest2);
      UniqueSplit(k1, b1[k1] + ['\n'] + rest1, k2, b2[k2] + ['\n'] + rest2, ':');
      UniqueSplit(b1[k1], rest1, b2[k2], rest2, '\n');
      LinesInjective(keys1[1..], b1, keys2[1..], b2);
      assert keys1 == [k1] + keys1[1..] && keys2 == [k2] + keys2[1..];
    }
  }

  /** The text depends on the map alone, not on the order its branches were visited in. */
  lemma PreimageIsAFunction(owner: string, name: string, branches: Branches, text1: string, text2: string)
    requires IsPreimage(owner, name, branches, text1) && IsPreimage(owner, name, branches, text2)
    ensures text1 == text2
  {
    var keys1 :| SortedKeysOf(keys1, branches) && text1 == Text(owner, name, keys1, branches);
    var keys2 :| SortedKeysOf(keys2, branches) && text2 == Text(owner, name, keys2, branches);
    SortedUnique(keys1, keys2);
  }

  lemma SameBranches(keys1: seq<string>, b1: Branches, keys2: seq<string>, b2: Branches)
    requires Separable(b1) && Separable(b2) && SortedKeysOf(keys1, b1) && SortedKeysOf(keys2, b2)
    requires Lines(keys1, b1) == Lines(keys2, b2)
    ensures b1 == b2
  {
    LinesInjective(keys1, b1, keys2, b2);
  }

  /** Exactly which repository states share a text: those of the same "owner/name" with the same
      branches, provided that owners, names and commit ids contain no newline and branch names
      no colon. */
  lemma SameTextExactly(o1: string, n1: string, b1: Branches, text1: string,
                        o2: string, n2: string, b2: Branches, text2: string)
    requires '\n' !in o1 + n1 && '\n' !in o2 + n2 && Separable(b1) && Separable(b2)
    requires IsPreimage(o1, n1, b1, text1) && IsPreimage(o2, n2, b2, text2)
    ensures text1 == text2 <==> o1 + "/" + n1 == o2 + "/" + n2 && b1 == b2
  {
    var keys1 :| SortedKeysOf(keys1, b1) && text1 == Text(o1, n1, keys1, b1);
    var keys2 :| SortedKeysOf(keys2, b2) && text2 == Text(o2, n2, keys2, b2);
    var full1, full2 := o1 + "/" + n1, o2 + "/" + n2;
    if text1 == text2 {
      UniqueSplit(full1, Lines(keys1, b1), full2, Lines(keys2, b2), '\n');
      SameBranches(keys1, b1, keys2, b2);
    }
    if full1 == full2 && b1 == b2 {
      SortedUnique(keys1, keys2);
    }
  }

  lemma HeadersInjective(o1: string, n1: string, x1: string, o2: string, n2: string, x2: string)
    requires '/' !in o1 && '/' !in o2 && '\n' !in n1 && '\n' !in n2
    requires o1 + "/" + n1 + "\n" + x1 == o2 + "/" + n2 + "\n" + x2
    ensures o1 == o2 && n1 == n2 && x1 == x2
  {
    assert o1 + "/" + n1 + "\n" + x1 == o1 + ['/'] + (n1 + ['\n'] + x1);
    assert o2 + "/" + n2 + "\n" + x2 == o2 + ['/'] + (n2 + ['\n'] + x2);
    UniqueSplit(o1, n1 + ['\n'] + x1, o2, n2 + ['\n'] + x2, '/');
    UniqueSplit(n1, x1, n2, x2, '\n');
  }

  /** The key text is injective where owners contain no slash. Newlines in owners do no harm then. */
  lemma PreimageIsInjective(o1: string, n1: string, b1: Branches, text1: string,
                            o2: string, n2: string, b2: Branches, text2: string)
    requires '/' !in o1 && '/' !in o2 && '\n' !in n1 && '\n' !in n2 && Separable(b1) && Separable(b2)
    requires IsPreimage(o1, n1, b1, text1) && IsPreimage(o2, n2, b2, text2)
    ensures text1 == text2 <==> o1 == o2 && n1 == n2 && b1 == b2
  {
    if text1 == text2 {
      var keys1 :| SortedKeysOf(keys1, b1) && text1 == Text(o1, n1, keys1, b1);
      var keys2 :| SortedKeysOf(keys2, b2) && text2 == Text(o2, n2, keys2, b2);
      HeadersInjective(o1, n1, Lines(keys1, b1), o2, n2, Lines(keys2, b2));
      SameBranches(keys1, b1, keys2, b2);
    }
    if o1 == o2 && n1 == n2 && b1 == b2 {
      PreimageIsAFunction(o1, n1, b1, text1, text2);
    }
  }

  lemma PreimageExists(owner: string, name: string, branches: Branches) returns (text: string)
    ensures IsPreimage(owner, name, branches, text)
  {
    var keys := SortedKeys(branches, branches.Keys);
    text := Text(owner, name, keys, branches);
  }

  lemma {:induction false} SortedKeys(branches: Branches, among: set<string>) returns (keys: seq<string>)
    requires among <= branches.Keys
    ensures StrictlySorted(keys) && forall k :: k in keys <==> k in among
  {
    if among == {} {
      keys := [];
    } else {
      var k :| k in among;
      var rest := SortedKeys(branches, among - {k});
      InsertSorts(rest, k);
      keys := Insert(rest, k);
    }
  }

  /** Owners with a slash collide: whenever an owner continues past a slash, moving the rest of
      it into the name gives another repository with the very same texts, whatever the branches. */
  lemma SlashInOwnerCollides(owner: string, rest: string, name: string, branches: Branches) returns (text: string)
    ensures IsPreimage(owner + "/" + rest, name, branches, text) && IsPreimage(owner, rest + "/" + name, branches, text)
  {
    text := PreimageExists(owner + "/" + rest, name, branches);
    var keys :| SortedKeysOf(keys, branches) && text == Text(owner + "/" + rest, name, keys, branches);
    assert text == Text(owner, rest + "/" + name, keys, branches);
  }
}
