// The secret scanner: internal/secrets/scanner.go. Regular expressions are not modelled: the
// spans a pattern matches are given, each starting at a byte that is not a newline.
module SecretScan {
  import opened Text
  import opened Decimals

  // ----- lines and positions -----

  /** The lines of `s`; nothing follows a final newline. */
  function LinesOf(s: string): seq<string>
    decreases |s|
  {
    if s == [] then []
    else
      var i := IndexOf(s, '\n');
      if i < 0 then [s] else [s[..i]] + LinesOf(s[i + 1..])
  }

  function Newlines(s: string): nat
  {
    if s == [] then 0 else (if s[0] == '\n' then 1 else 0) + Newlines(s[1..])
  }

  /** The 1-based number of the line that position `pos` is on. */
  function LineNumber(content: string, pos: nat): nat
    requires pos <= |content|
  {
    1 + Newlines(content[..pos])
  }

  lemma LongerLine(content: string, start: nat, i: nat)
    requires start <= i < |content| && content[i] != '\n' && '\n' !in content[start..i]
    ensures '\n' !in content[start..i + 1]
  {
  }

  lemma NextLine(content: string, start: nat, i: nat)
    requires start <= i < |content| && content[i] == '\n' && '\n' !in content[start..i]
    ensures LinesOf(content[start..]) == [content[start..i]] + LinesOf(content[i + 1..])
  {
    var s := content[start..];
    assert s == content[start..i] + ['\n'] + content[i + 1..];
    IndexAfter(content[start..i], '\n', content[i + 1..]);
    assert s[..i - start] == content[start..i] && s[i - start + 1..] == content[i + 1..];
  }

  lemma LastLine(content: string, start: nat)
    requires start <= |content| && '\n' !in content[start..]
    ensures LinesOf(content[start..]) == if start < |content| then [content[start..]] else []
  {
  }

  method SplitLines(content: string) returns (lines: seq<string>)
    ensures lines == LinesOf(content)
  {
    lines := [];
    if content == "" {
      return;
    }
    var start := 0;
    for i := 0 to |content|
      invariant 0 <= start <= i
      invariant lines + LinesOf(content[start..]) == LinesOf(content)
      invariant '\n' !in content[start..i]
    {
      if content[i] == '\n' {
        NextLine(content, start, i);
        Reassociate(lines, [content[start..i]], LinesOf(content[i + 1..]));
        lines := lines + [content[start..i]];
        start := i + 1;
      } else {
        LongerLine(content, start, i);
      }
    }
    assert content[start..|content|] == content[start..];
    LastLine(content, start);
    if start < |content| {
      lines := lines + [content[start..]];
    }
  }

  /** Where the k-th line starts. */
  function Offset(lines: seq<string>, k: nat): nat
    requires k <= |lines|
  {
    if k == 0 then 0 else Offset(lines, k - 1) + |lines[k - 1]| + 1
  }

  predicate Covers(lines: seq<string>, k: nat, pos: nat)
  {
    k < |lines| && Offset(lines, k) <= pos < Offset(lines, k) + |lines[k]|
  }

  method LineFromPos(lines: seq<string>, pos: nat) returns (n: nat)
    ensures (exists k :: Covers(lines, k, pos)) ==> n > 0 && Covers(lines, n - 1, pos)
    ensures (forall k :: !Covers(lines, k, pos)) ==> n == |lines|
  {
    var offset := 0;
    for i := 0 to |lines|
      invariant offset == Offset(lines, i)
      invariant forall k :: 0 <= k < i ==> !Covers(lines, k, pos)
    {
      if pos >= offset && pos < offset + |lines[i]| {
        assert Covers(lines, i, pos);
        return i + 1;
      }
      offset := offset + |lines[i]| + 1;
    }
    return |lines|;
  }

  lemma {:induction false} OffsetsGrow(lines: seq<string>, j: nat, k: nat)
    requires j < k <= |lines|
    ensures Offset(lines, j) + |lines[j]| < Offset(lines, k)
    decreases k
  {
    if j < k - 1 {
      OffsetsGrow(lines, j, k - 1);
    }
  }

  /** A position lies on at most one line. */
  lemma CoversUnique(lines: seq<string>, j: nat, k: nat, pos: nat)
    requires Covers(lines, j, pos) && Covers(lines, k, pos)
    ensures j == k
  {
    if j < k {
      OffsetsGrow(lines, j, k);
    } else if k < j {
      OffsetsGrow(lines, k, j);
    }
  }

  lemma {:induction false} OffsetAfterFirst(first: string, rest: seq<string>, k: nat)
    requires k <= |rest|
    ensures Offset([first] + rest, k + 1) == |first| + 1 + Offset(rest, k)
  {
    if k > 0 {
      OffsetAfterFirst(first, rest, k - 1);
    }
  }

  lemma {:induction false} NoNewlines(s: string)
    requires '\n' !in s
    ensures Newlines(s) == 0
  {
    if s != [] {
      NoNewlines(s[1..]);
    }
  }

  lemma {:induction false} NewlinesAppend(a: string, b: string)
    ensures Newlines(a + b) == Newlines(a) + Newlines(b)
  {
    if a == [] {
      assert a + b == b;
    } else {
      assert (a + b)[1..] == a[1..] + b;
      NewlinesAppend(a[1..], b);
    }
  }

  predicate OnLine(content: string, pos: nat, lines: seq<string>, k: nat)
    requires pos < |content|
  {
    k < |lines| &&
    (content[pos] != '\n' ==> Covers(lines, k, pos)) &&
    (content[pos] == '\n' ==> pos == Offset(lines, k) + |lines[k]|)
  }

  lemma OnFirstLine(content: string, pos: nat)
    requires pos < |content| && (IndexOf(content, '\n') >= 0 ==> pos <= IndexOf(content, '\n'))
    ensures Newlines(content[..pos]) == 0 && OnLine(content, pos, LinesOf(content), 0)
  {
    var i := IndexOf(content, '\n');
    if i >= 0 {
      assert content[..pos] == content[..i][..pos];
    }
    NoNewlines(content[..pos]);
  }

  lemma NewlinesSplit(content: string, i: nat, pos: nat)
    requires i < pos <= |content| && content[i] == '\n' && '\n' !in content[..i]
    ensures Newlines(content[..pos]) == 1 + Newlines(content[i + 1..][..pos - i - 1])
  {
    assert content[..pos] == content[..i] + (['\n'] + content[i + 1..][..pos - i - 1]);
    NewlinesAppend(content[..i], ['\n'] + content[i + 1..][..pos - i - 1]);
    NewlinesAppend(['\n'], content[i + 1..][..pos - i - 1]);
    NoNewlines(content[..i]);
  }

  lemma LinesAfterFirst(content: string, i: nat)
    requires IndexOf(content, '\n') == i
    ensures LinesOf(content) == [content[..i]] + LinesOf(content[i + 1..])
  {
  }

  lemma OnLaterLine(content: string, i: nat, pos: nat, k: nat)
    requires i < pos < |content| && IndexOf(content, '\n') == i
    requires OnLine(content[i + 1..], pos - i - 1, LinesOf(content[i + 1..]), k)
    ensures OnLine(content, pos, LinesOf(content), k + 1)
  {
    LinesAfterFirst(content, i);
    OffsetAfterFirst(content[..i], LinesOf(content[i + 1..]), k);
  }

  /** A position lies on the line numbered by the newlines before it if it is not a newline
      itself; a newline ends that line. */
  lemma {:induction false} PositionOnLine(content: string, pos: nat)
    requires pos < |content|
    ensures OnLine(content, pos, LinesOf(content), Newlines(content[..pos]))
    decreases |content|
  {
    var i := IndexOf(content, '\n');
    if i < 0 || pos <= i {
      OnFirstLine(content, pos);
    } else {
      PositionOnLine(content[i + 1..], pos - i - 1);
      NewlinesSplit(content, i, pos);
      OnLaterLine(content, i, pos, Newlines(content[i + 1..][..pos - i - 1]));
    }
  }

  /** LineFromPos over SplitLines gives a position its line number exactly when the position is
      not a newline, or is one on the last line. */
  lemma LineFromPosIsRight(content: string, pos: nat, n: nat)
    requires pos < |content|
    requires (exists k :: Covers(LinesOf(content), k, pos)) ==> n > 0 && Covers(LinesOf(content), n - 1, pos)
    requires (forall k :: !Covers(LinesOf(content), k, pos)) ==> n == |LinesOf(content)|
    ensures n == LineNumber(content, pos) <==>
            content[pos] != '\n' || LineNumber(content, pos) == |LinesOf(content)|
  {
    var lines, k := LinesOf(content), Newlines(content[..pos]);
    PositionOnLine(content, pos);
    if content[pos] != '\n' {
      CoversUnique(lines, k, n - 1, pos);
    } else {
      forall j: nat
        ensures !Covers(lines, j, pos)
      {
        if j < k {
          OffsetsGrow(lines, j, k);
        } else if k < j < |lines| {
          OffsetsGrow(lines, k, j);
        }
      }
    }
  }

  // ----- itoa -----

  /** What itoa returns for a 64-bit integer; the least one, which has no negative, gives "-". */
  function Numeral(n: int): string
  {
    if n == MIN_INT64 then "-" else if n < 0 then "-" + Decimal(-n) else Decimal(n)
  }

  /** Go's negation on 64-bit integers. */
  function Negate(n: int): int
  {
    if n == MIN_INT64 then n else -n
  }

  function Pow10(k: nat): nat
  {
    if k == 0 then 1 else 10 * Pow10(k - 1)
  }

  lemma {:induction false} DecimalLength(n: nat, k: nat)
    requires k >= 1 && n < Pow10(k)
    ensures |Decimal(n)| <= k
  {
    if n >= 10 {
      DecimalLength(n / 10, k - 1);
    }
  }

  lemma Pow10OfNineteen()
    ensures Pow10(19) == 10_000_000_000_000_000_000
  {
    assert Pow10(4) == 10_000;
    assert Pow10(8) == 10_000 * Pow10(4);
    assert Pow10(12) == 10_000 * Pow10(8);
    assert Pow10(16) == 10_000 * Pow10(12);
    assert Pow10(19) == 1_000 * Pow10(16);
  }

  /** The digits still to be written when `n` is left. */
  function Left(n: int): string
  {
    if n > 0 then Decimal(n) else ""
  }

  lemma LeftFits(n: int)
    requires n <= MAX_INT64
    ensures |Left(n)| <= 19
  {
    if n > 0 {
      Pow10OfNineteen();
      DecimalLength(n, 19);
    }
  }

  /** One round of itoa's loop moves a digit from what is left to what is written. */
  lemma OneDigit(n: int, written: string, whole: string)
    requires n > 0 && Left(n) + written == whole
    ensures Left(n / 10) + ([Digit(n % 10)] + written) == whole
  {
  }

  lemma OneByteMore(before: seq<char>, after: seq<char>, i: nat, c: char)
    requires |before| == |after| && 0 < i <= |before| && after == before[i - 1 := c]
    ensures after[i - 1..] == [c] + before[i..]
  {
  }

  /** itoa's loop: the digits of `num`, written backwards from the end of the buffer. */
  method WriteDigits(buf: array<char>, num: int) returns (i: nat)
    requires buf.Length == 20 && num <= MAX_INT64
    modifies buf
    ensures 1 <= i <= 20 && buf[i..] == Left(num)
  {
    LeftFits(num);
    var n := num;
    ghost var written, whole := "", Left(num);
    i := buf.Length;
    while n > 0
      invariant Left(n) + written == whole && 1 <= i <= 20
      invariant buf[..][i..] == written
      decreases n
    {
      OneDigit(n, written, whole);
      ghost var before := buf[..];
      i := i - 1;
      buf[i] := Digit(n % 10);
      OneByteMore(before, buf[..], i + 1, Digit(n % 10));
      written := [Digit(n % 10)] + written;
      n := n / 10;
    }
    assert Left(n) == "" && buf[i..] == buf[..][i..];
  }

  method Itoa(num: int) returns (s: string)
    requires MIN_INT64 <= num <= MAX_INT64
    ensures s == Numeral(num)
  {
    if num == 0 {
      return "0";
    }
    var buf := new char[20];
    var n, neg := num, num < 0;
    if neg {
      n := Negate(n);
    }
    var i := WriteDigits(buf, n);
    if neg {
      ghost var digits := buf[i..];
      i := i - 1;
      buf[i] := '-';
      assert buf[i..] == ['-'] + digits;
    }
    s := buf[i..];
  }

  /** Distinct positive line numbers have distinct numerals. */
  lemma NumeralInjective(m: int, n: int)
    requires m > 0 && n > 0 && Numeral(m) == Numeral(n)
    ensures m == n
  {
    DecimalInjective(m, n);
  }

  // ----- scanning -----

  /** A pattern with the spans of its matches in the text scanned. */
  datatype Pattern = Pattern(name: string, severity: string, matches: seq<(nat, nat)>)

  datatype Finding = Finding(kind: string, line: nat, masked: string, severity: string)

  function MaskSecret(s: string): string
  {
    if |s| <= 8 then s[..(if 4 < |s| then 4 else |s|)] + "..."
    else s[..4] + "..." + s[|s| - 4..]
  }

  /** A mask shows the first four bytes, and the last four where there are more than eight; texts
      that agree on these have the same mask. */
  lemma MaskHidesTheRest(s: string, t: string)
    requires |s| >= 4 && |t| >= 4 && s[..4] == t[..4] && (|s| <= 8 <==> |t| <= 8)
    requires |s| > 8 ==> s[|s| - 4..] == t[|t| - 4..]
    ensures MaskSecret(s) == MaskSecret(t) && |MaskSecret(s)| == if |s| <= 8 then 7 else 11
  {
  }

  predicate IsMatch(content: string, m: (nat, nat))
  {
    m.0 < m.1 <= |content| && content[m.0] != '\n'
  }

  predicate AreMatches(content: string, patterns: seq<Pattern>)
  {
    forall i, j :: 0 <= i < |patterns| && 0 <= j < |patterns[i].matches| ==> IsMatch(content, patterns[i].matches[j])
  }

  function FindingAt(content: string, p: Pattern, m: (nat, nat)): Finding
    requires IsMatch(content, m)
  {
    Finding(p.name, LineNumber(content, m.0), MaskSecret(content[m.0..m.1]), p.severity)
  }

  /** One finding for every match of a pattern, in order. */
  function HitsOf(content: string, p: Pattern, matches: seq<(nat, nat)>): (r: seq<Finding>)
    requires forall j :: 0 <= j < |matches| ==> IsMatch(content, matches[j])
    ensures |r| == |matches|
  {
    if matches == [] then []
    else HitsOf(content, p, matches[..|matches| - 1]) + [FindingAt(content, p, matches[|matches| - 1])]
  }

  function Hits(content: string, patterns: seq<Pattern>): seq<Finding>
    requires AreMatches(content, patterns)
  {
    if patterns == [] then []
    else
      var init, p := patterns[..|patterns| - 1], patterns[|patterns| - 1];
      Hits(content, init) + HitsOf(content, p, p.matches)
  }

  predicate SameSpot(f: Finding, g: Finding)
  {
    f.kind == g.kind && f.line == g.line
  }

  predicate SeenIn(fs: seq<Finding>, f: Finding)
  {
    exists i :: 0 <= i < |fs| && SameSpot(fs[i], f)
  }

  /** The first hit on each spot: each kind and line. */
  function FirstHits(hits: seq<Finding>): seq<Finding>
  {
    if hits == [] then []
    else
      var init, f := hits[..|hits| - 1], hits[|hits| - 1];
      if SeenIn(init, f) then FirstHits(init) else FirstHits(init) + [f]
  }

  function SeenKey(f: Finding): string
  {
    f.kind + ":" + Numeral(f.line)
  }

  lemma UniqueLastSplit(a: string, x: string, b: string, y: string, c: char)
    requires a + [c] + x == b + [c] + y && c !in x && c !in y
    ensures a == b && x == y
  {
    var s, t := a + [c] + x, b + [c] + y;
    assert forall i :: |a| < i < |s| ==> s[i] == x[i - |a| - 1] && s[i] in x;
    assert forall i :: |b| < i < |t| ==> t[i] == y[i - |b| - 1] && t[i] in y;
    assert s[|a|] == c && t[|b|] == c;
    assert |a| == |b|;
    assert a == s[..|a|] && b == t[..|b|] && x == s[|a| + 1..] && y == t[|b| + 1..];
  }

  lemma KeysIdentifySpots(f: Finding, g: Finding)
    requires f.line > 0 && g.line > 0
    ensures SeenKey(f) == SeenKey(g) <==> SameSpot(f, g)
  {
    if SeenKey(f) == SeenKey(g) {
      assert SeenKey(f) == f.kind + [':'] + Numeral(f.line) && SeenKey(g) == g.kind + [':'] + Numeral(g.line);
      UniqueLastSplit(f.kind, Numeral(f.line), g.kind, Numeral(g.line), ':');
      NumeralInjective(f.line, g.line);
    }
  }

  lemma SeenInAppend(a: seq<Finding>, b: seq<Finding>, f: Finding)
    ensures SeenIn(a + b, f) <==> SeenIn(a, f) || SeenIn(b, f)
  {
    if SeenIn(a, f) {
      var i :| 0 <= i < |a| && SameSpot(a[i], f);
      assert SameSpot((a + b)[i], f);
    }
    if SeenIn(b, f) {
      var i :| 0 <= i < |b| && SameSpot(b[i], f);
      assert SameSpot((a + b)[|a| + i], f);
    }
    if SeenIn(a + b, f) {
      var i :| 0 <= i < |a + b| && SameSpot((a + b)[i], f);
      assert i < |a| ==> SameSpot(a[i], f);
      assert i >= |a| ==> SameSpot(b[i - |a|], f);
    }
  }

  lemma SeenInOne(f: Finding, g: Finding)
    ensures SeenIn([f], g) <==> SameSpot(f, g)
  {
    assert [f][0] == f;
  }

  /** What Scan knows after some hits: the keys seen and the findings kept. */
  ghost predicate Scanned(hits: seq<Finding>, seen: set<string>, findings: seq<Finding>)
  {
    findings == FirstHits(hits) && forall f: Finding :: f.line > 0 ==> (SeenKey(f) in seen <==> SeenIn(hits, f))
  }

  lemma FirstHitsAppend(hits: seq<Finding>, f: Finding)
    ensures FirstHits(hits + [f]) == if SeenIn(hits, f) then FirstHits(hits) else FirstHits(hits) + [f]
  {
  }

  lemma SeenOneMore(hits: seq<Finding>, f: Finding, g: Finding)
    requires f.line > 0 && g.line > 0
    ensures SeenIn(hits + [f], g) <==> SeenIn(hits, g) || SeenKey(g) == SeenKey(f)
  {
    KeysIdentifySpots(f, g);
    SeenInOne(f, g);
    SeenInAppend(hits, [f], g);
  }

  lemma ScanOne(hits: seq<Finding>, seen: set<string>, findings: seq<Finding>, f: Finding)
    requires Scanned(hits, seen, findings) && f.line > 0
    ensures if SeenKey(f) in seen then Scanned(hits + [f], seen, findings)
            else Scanned(hits + [f], seen + {SeenKey(f)}, findings + [f])
  {
    FirstHitsAppend(hits, f);
    forall g: Finding | g.line > 0
      ensures SeenIn(hits + [f], g) <==> SeenKey(g) in seen || SeenKey(g) == SeenKey(f)
    {
      SeenOneMore(hits, f, g);
    }
  }

  lemma {:induction false} NewlinesBound(s: string)
    ensures Newlines(s) <= |s|
  {
    if s != [] {
      NewlinesBound(s[1..]);
    }
  }

  lemma LineNumberBound(content: string, pos: nat)
    requires pos <= |content|
    ensures 1 <= LineNumber(content, pos) <= |content| + 1
  {
    NewlinesBound(content[..pos]);
  }

  /** The line number Scan computes for the start of a match. */
  method LineOfMatch(content: string, lines: seq<string>, pos: nat) returns (n: nat)
    requires lines == LinesOf(content) && pos < |content| && content[pos] != '\n'
    ensures n == LineNumber(content, pos) && n <= |content| + 1
  {
    n := LineFromPos(lines, pos);
    LineFromPosIsRight(content, pos, n);
    LineNumberBound(content, pos);
  }

  lemma HitsOneMore(content: string, p: Pattern, j: nat, before: seq<Finding>)
    requires (forall k :: 0 <= k < |p.matches| ==> IsMatch(content, p.matches[k])) && j < |p.matches|
    ensures before + HitsOf(content, p, p.matches[..j + 1]) ==
            before + HitsOf(content, p, p.matches[..j]) + [FindingAt(content, p, p.matches[j])]
  {
    assert p.matches[..j + 1][..j] == p.matches[..j];
    Reassociate(before, HitsOf(content, p, p.matches[..j]), [FindingAt(content, p, p.matches[j])]);
  }

  /** The finding of a match and its dedup key. */
  method FindingOf(content: string, lines: seq<string>, p: Pattern, m: (nat, nat)) returns (f: Finding, key: string)
    requires |content| < MAX_INT64 && lines == LinesOf(content) && IsMatch(content, m)
    ensures f == FindingAt(content, p, m) && f.line > 0 && key == SeenKey(f)
  {
    var lineNum := LineOfMatch(content, lines, m.0);
    var matchText := content[m.0..m.1];
    var numeral := Itoa(lineNum);
    key := p.name + ":" + numeral;
    f := Finding(p.name, lineNum, MaskSecret(matchText), p.severity);
  }

  method ScanPattern(content: string, lines: seq<string>, p: Pattern, ghost before: seq<Finding>,
                     oldSeen: set<string>, oldFindings: seq<Finding>)
    returns (seen: set<string>, findings: seq<Finding>)
    requires |content| < MAX_INT64 && lines == LinesOf(content)
    requires forall j :: 0 <= j < |p.matches| ==> IsMatch(content, p.matches[j])
    requires Scanned(before, oldSeen, oldFindings)
    ensures Scanned(before + HitsOf(content, p, p.matches), seen, findings)
  {
    seen, findings := oldSeen, oldFindings;
    ghost var hits := before;
    for j := 0 to |p.matches|
      invariant hits == before + HitsOf(content, p, p.matches[..j])
      invariant Scanned(hits, seen, findings)
    {
      var m := p.matches[j];
      var f, key := FindingOf(content, lines, p, m);
      HitsOneMore(content, p, j, before);
      ScanOne(hits, seen, findings, f);
      hits := hits + [f];
      if key in seen {
        continue;
      }
      seen := seen + {key};
      findings := findings + [f];
    }
    assert p.matches[..|p.matches|] == p.matches;
  }

  method Scan(content: string, patterns: seq<Pattern>) returns (findings: seq<Finding>, passed: bool)
    requires AreMatches(content, patterns) && |content| < MAX_INT64
    ensures findings == FirstHits(Hits(content, patterns))
    ensures passed <==> findings == []
  {
    findings := [];
    var lines := SplitLines(content);
    var seen: set<string> := {};
    for i := 0 to |patterns|
      invariant Scanned(Hits(content, patterns[..i]), seen, findings)
    {
      assert patterns[..i + 1][..i] == patterns[..i];
      seen, findings := ScanPattern(content, lines, patterns[i], Hits(content, patterns[..i]), seen, findings);
    }
    assert patterns[..|patterns|] == patterns;
    passed := |findings| == 0;
  }

  // ----- what a scan reports -----

  /** No kind and line is reported twice, and one is reported exactly when it was hit. */
  lemma {:induction false} FirstHitsExact(hits: seq<Finding>, f: Finding)
    ensures SeenIn(FirstHits(hits), f) <==> SeenIn(hits, f)
  {
    if hits != [] {
      var init, g := hits[..|hits| - 1], hits[|hits| - 1];
      FirstHitsExact(init, f);
      assert hits == init + [g];
      SeenInAppend(init, [g], f);
      SeenInAppend(FirstHits(init), [g], f);
      SeenInOne(g, f);
      if SeenIn(init, g) && SameSpot(g, f) {
        var i :| 0 <= i < |init| && SameSpot(init[i], g);
        assert SameSpot(init[i], f);
      }
    }
  }

  predicate SpotsDistinct(fs: seq<Finding>)
  {
    forall i, j :: 0 <= i < j < |fs| ==> !SameSpot(fs[i], fs[j])
  }

  lemma {:induction false} FirstHitsDistinct(hits: seq<Finding>)
    ensures SpotsDistinct(FirstHits(hits))
  {
    if hits != [] {
      var init, g := hits[..|hits| - 1], hits[|hits| - 1];
      FirstHitsDistinct(init);
      FirstHitsExact(init, g);
      assert !SeenIn(FirstHits(init), g) ==>
          forall i :: 0 <= i < |FirstHits(init)| ==> !SameSpot(FirstHits(init)[i], g);
    }
  }

  /** Some match of the pattern starts on this line. */
  predicate PatternStartsOn(content: string, matches: seq<(nat, nat)>, line: nat)
    requires forall j :: 0 <= j < |matches| ==> IsMatch(content, matches[j])
  {
    exists j :: 0 <= j < |matches| && IsMatch(content, matches[j]) && LineNumber(content, matches[j].0) == line
  }

  /** Some match of a pattern of this name starts on this line. */
  predicate StartsOn(content: string, patterns: seq<Pattern>, name: string, line: nat)
    requires AreMatches(content, patterns)
  {
    exists i :: 0 <= i < |patterns| && patterns[i].name == name && PatternStartsOn(content, patterns[i].matches, line)
  }

  lemma {:induction false} HitsOfCoverMatches(content: string, p: Pattern, matches: seq<(nat, nat)>, f: Finding)
    requires forall j :: 0 <= j < |matches| ==> IsMatch(content, matches[j])
    ensures SeenIn(HitsOf(content, p, matches), f) <==> p.name == f.kind && PatternStartsOn(content, matches, f.line)
  {
    if matches != [] {
      var n := |matches| - 1;
      HitsOfCoverMatches(content, p, matches[..n], f);
      var g := FindingAt(content, p, matches[n]);
      SeenInAppend(HitsOf(content, p, matches[..n]), [g], f);
      SeenInOne(g, f);
      PatternStartsOnLast(content, matches, f.line);
    }
  }

  lemma PatternStartsOnLast(content: string, matches: seq<(nat, nat)>, line: nat)
    requires (forall j :: 0 <= j < |matches| ==> IsMatch(content, matches[j])) && matches != []
    ensures var n := |matches| - 1;
            PatternStartsOn(content, matches, line) <==>
            PatternStartsOn(content, matches[..n], line) || LineNumber(content, matches[n].0) == line
  {
  }

  lemma {:induction false} HitsCoverMatches(content: string, patterns: seq<Pattern>, f: Finding)
    requires AreMatches(content, patterns)
    ensures SeenIn(Hits(content, patterns), f) <==> StartsOn(content, patterns, f.kind, f.line)
  {
    if patterns != [] {
      var n := |patterns| - 1;
      var init, p := patterns[..n], patterns[n];
      HitsCoverMatches(content, init, f);
      HitsOfCoverMatches(content, p, p.matches, f);
      SeenInAppend(Hits(content, init), HitsOf(content, p, p.matches), f);
      StartsOnLast(content, patterns, f.kind, f.line);
    }
  }

  lemma StartsOnLast(content: string, patterns: seq<Pattern>, name: string, line: nat)
    requires AreMatches(content, patterns) && patterns != []
    ensures var n := |patterns| - 1;
            StartsOn(content, patterns, name, line) <==>
            StartsOn(content, patterns[..n], name, line) ||
            (patterns[n].name == name && PatternStartsOn(content, patterns[n].matches, line))
  {
  }

  /** Scanner exactness: a scan reports exactly one finding for every pattern name and line on
      which some match of a pattern of that name starts, and none for any other. */
  lemma ScanIsExact(content: string, patterns: seq<Pattern>, f: Finding)
    requires AreMatches(content, patterns)
    ensures var findings := FirstHits(Hits(content, patterns));
            SpotsDistinct(findings) && (SeenIn(findings, f) <==> StartsOn(content, patterns, f.kind, f.line))
  {
    FirstHitsDistinct(Hits(content, patterns));
    FirstHitsExact(Hits(content, patterns), f);
    HitsCoverMatches(content, patterns, f);
  }

  lemma {:induction false} HitsOfAt(content: string, p: Pattern, matches: seq<(nat, nat)>, j: nat)
    requires (forall k :: 0 <= k < |matches| ==> IsMatch(content, matches[k])) && j < |matches|
    ensures HitsOf(content, p, matches)[j] == FindingAt(content, p, matches[j])
  {
    if j < |matches| - 1 {
      HitsOfAt(content, p, matches[..|matches| - 1], j);
    }
  }

  /** `f` is what is reported of the match: its line, and all but four or eight of its bytes masked. */
  ghost predicate Reports(content: string, p: Pattern, m: (nat, nat), f: Finding)
  {
    && IsMatch(content, m) && f.kind == p.name && f.line == LineNumber(content, m.0) && f.severity == p.severity
    && var text := content[m.0..m.1];
    f.masked == if |text| > 8 then text[..4] + "..." + text[|text| - 4..]
                else if |text| > 4 then text[..4] + "..." else text + "..."
  }

  ghost predicate ReportsSome(content: string, patterns: seq<Pattern>, f: Finding)
  {
    exists i, j :: 0 <= i < |patterns| && 0 <= j < |patterns[i].matches| &&
                   Reports(content, patterns[i], patterns[i].matches[j], f)
  }

  lemma {:induction false} HitsReportMatches(content: string, patterns: seq<Pattern>, f: Finding)
    requires AreMatches(content, patterns) && f in Hits(content, patterns)
    ensures ReportsSome(content, patterns, f)
  {
    var n := |patterns| - 1;
    var init, p := patterns[..n], patterns[n];
    if f in Hits(content, init) {
      HitsReportMatches(content, init, f);
      var i, j :| 0 <= i < |init| && 0 <= j < |init[i].matches| && Reports(content, init[i], init[i].matches[j], f);
      assert patterns[i] == init[i];
    } else {
      var hits := HitsOf(content, p, p.matches);
      var j :| 0 <= j < |hits| && hits[j] == f;
      HitsOfAt(content, p, p.matches, j);
      assert Reports(content, patterns[n], patterns[n].matches[j], f);
    }
  }

  /** The hits that come first on their spot are the findings, and no others are. */
  lemma {:induction false} FirstHitsAreFirst(hits: seq<Finding>, f: Finding)
    ensures f in FirstHits(hits) <==>
            exists k :: 0 <= k < |hits| && hits[k] == f && forall q :: 0 <= q < k ==> !SameSpot(hits[q], f)
  {
    if hits != [] {
      var n := |hits| - 1;
      var init, g := hits[..n], hits[n];
      FirstHitsAreFirst(init, f);
      FirstHitsAppend(init, g);
      assert hits == init + [g];
      if k :| 0 <= k < |init| && init[k] == f && forall q :: 0 <= q < k ==> !SameSpot(init[q], f) {
        assert hits[k] == f && forall q :: 0 <= q < k ==> !SameSpot(hits[q], f);
      }
      if k :| 0 <= k < n && hits[k] == f && forall q :: 0 <= q < k ==> !SameSpot(hits[q], f) {
        assert init[k] == f && forall q :: 0 <= q < k ==> !SameSpot(init[q], f);
      }
      if f == g && !SeenIn(init, g) {
        assert hits[n] == f && forall q :: 0 <= q < n ==> hits[q] == init[q];
      }
    }
  }

  /** Every finding of a scan reports a match: its pattern, its line, its severity and its mask. */
  lemma FindingsReportMatches(content: string, patterns: seq<Pattern>, f: Finding)
    requires AreMatches(content, patterns) && f in FirstHits(Hits(content, patterns))
    ensures ReportsSome(content, patterns, f)
  {
    FirstHitsAreFirst(Hits(content, patterns), f);
    HitsReportMatches(content, patterns, f);
  }
}
