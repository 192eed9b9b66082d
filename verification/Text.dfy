// Searching and splitting strings. A string stands for a Go string, one char per byte.
module Text {

  lemma Reassociate<T>(a: seq<T>, b: seq<T>, c: seq<T>)
    ensures a + (b + c) == a + b + c
  {
  }

  /** The first position of `c` in `s`, or -1. */
  function IndexOf(s: string, c: char): (i: int)
    ensures -1 <= i < |s|
    ensures i >= 0 ==> s[i] == c
    ensures i >= 0 ==> c !in s[..i]
    ensures i == -1 ==> c !in s
  {
    if s == [] then -1
    else if s[0] == c then 0
    else
      var i := IndexOf(s[1..], c);
      if i < 0 then -1 else assert s[..i + 1] == [s[0]] + s[1..][..i]; i + 1
  }

  /** Only a prefix without `c` can stand before the first `c`. */
  lemma {:induction false} IndexAfter(a: string, c: char, x: string)
    requires c !in a
    ensures IndexOf(a + [c] + x, c) == |a|
  {
    if a != [] {
      assert (a + [c] + x)[1..] == a[1..] + [c] + x;
      IndexAfter(a[1..], c, x);
    }
  }

  /** `s` up to the first `c`, all of it when there is none. */
  function Before(s: string, c: char): string
  {
    var i := IndexOf(s, c);
    if i < 0 then s else s[..i]
  }

  lemma BeforeFirst(a: string, c: char, x: string)
    requires c !in a
    ensures Before(a, c) == a && Before(a + [c] + x, c) == a
  {
    IndexAfter(a, c, x);
    assert (a + [c] + x)[..|a|] == a;
  }

  /** bytes.TrimRight for one character. */
  function TrimRight(s: string, c: char): (t: string)
    ensures t <= s && (t != [] ==> t[|t| - 1] != c)
    ensures forall i :: |t| <= i < |s| ==> s[i] == c
  {
    if s != [] && s[|s| - 1] == c then TrimRight(s[..|s| - 1], c) else s
  }

  lemma {:induction false} TrimRightUnique(s: string, c: char, t: string)
    requires t <= s && (t != [] ==> t[|t| - 1] != c) && forall i :: |t| <= i < |s| ==> s[i] == c
    ensures TrimRight(s, c) == t
  {
  }

  /** strings.TrimPrefix. */
  function TrimPrefix(s: string, prefix: string): string
  {
    if prefix <= s then s[|prefix|..] else s
  }
}
