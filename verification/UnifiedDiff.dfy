// The unified diff parser: internal/web/diff.go, for the format described in section 2.2.2.2 of
// the GNU diffutils manual ("Detailed Description of Unified Format") as git prints it.
module UnifiedDiff {
  import opened Wrappers
  import opened Text
  import opened Decimals

  datatype Kind = Hunk | Add | Del | Ctx

  datatype DiffLine = DiffLine(kind: Kind, oldLine: int, newLine: int, content: string)

  datatype DiffFile = DiffFile(oldPath: string, newPath: string, lines: seq<DiffLine>)

  // ----- splitting -----

  /** strings.Split at newlines. */
  function SplitLines(s: string): seq<string>
    decreases |s|
  {
    var i := IndexOf(s, '\n');
    if i < 0 then [s] else [s[..i]] + SplitLines(s[i + 1..])
  }

  /** The lines joined by newlines. */
  function JoinLines(lines: seq<string>): string
  {
    if lines == [] then "" else if |lines| == 1 then lines[0] else lines[0] + "\n" + JoinLines(lines[1..])
  }

  lemma SplitFirst(line: string, rest: string)
    requires '\n' !in line
    ensures SplitLines(line + "\n" + rest) == [line] + SplitLines(rest)
  {
    var s := line + ['\n'] + rest;
    assert line + "\n" + rest == s;
    IndexAfter(line, '\n', rest);
    assert s[..|line|] == line && s[|line| + 1..] == rest;
  }

  lemma {:induction false} SplitJoin(lines: seq<string>)
    requires lines != [] && forall i :: 0 <= i < |lines| ==> '\n' !in lines[i]
    ensures SplitLines(JoinLines(lines)) == lines
  {
    assert '\n' !in lines[0];
    if |lines| > 1 {
      SplitFirst(lines[0], JoinLines(lines[1..]));
      SplitJoin(lines[1..]);
    }
  }

  predicate IsAsciiSpace(c: char)
  {
    c == ' ' || 9 <= c as int <= 13
  }

  /** The bytes `b` and `c` after the lead byte `a` encode a white-space character in UTF-8. */
  predicate IsWideSpace(a: int, b: int, c: int)
  {
    (a == 0xe1 && b == 0x9a && c == 0x80) ||
    (a == 0xe2 && b == 0x80 && (0x80 <= c <= 0x8a || c == 0xa8 || c == 0xa9 || c == 0xaf)) ||
    (a == 0xe2 && b == 0x81 && c == 0x9f) ||
    (a == 0xe3 && b == 0x80 && c == 0x80)
  }

  /** How many bytes at the head of `s` are a white-space character, as unicode.IsSpace knows them.
      No lead byte occurs inside another character, so the bytes can be looked at one by one. */
  function SpaceWidth(s: string): (k: nat)
    ensures k <= |s|
  {
    if s == [] then 0
    else if IsAsciiSpace(s[0]) then 1
    else if |s| >= 2 && s[0] as int == 0xc2 && (s[1] as int == 0x85 || s[1] as int == 0xa0) then 2
    else if |s| >= 3 && IsWideSpace(s[0] as int, s[1] as int, s[2] as int) then 3
    else 0
  }

  /** The length of the word at the head of `s`. */
  function WordEnd(s: string): (k: nat)
    ensures k <= |s| && (s != [] && SpaceWidth(s) == 0 ==> k > 0)
  {
    if s == [] || SpaceWidth(s) > 0 then 0 else 1 + WordEnd(s[1..])
  }

  /** strings.Fields. */
  function Fields(s: string): seq<string>
    decreases |s|
  {
    if s == [] then []
    else if SpaceWidth(s) > 0 then Fields(s[SpaceWidth(s)..])
    else [s[..WordEnd(s)]] + Fields(s[WordEnd(s)..])
  }

  /** An ASCII character that is not white space. */
  predicate IsPlain(c: char)
  {
    c as int < 0x80 && !IsAsciiSpace(c)
  }

  predicate IsWord(w: string)
  {
    w != [] && forall i :: 0 <= i < |w| ==> IsPlain(w[i])
  }

  lemma {:induction false} WordEndAt(w: string, rest: string)
    requires (forall i :: 0 <= i < |w| ==> IsPlain(w[i])) && (rest == [] || IsAsciiSpace(rest[0]))
    ensures WordEnd(w + rest) == |w|
  {
    if w != [] {
      assert (w + rest)[1..] == w[1..] + rest;
      WordEndAt(w[1..], rest);
    } else {
      assert w + rest == rest;
    }
  }

  lemma OneField(w: string, rest: string)
    requires IsWord(w)
    ensures Fields(w + " " + rest) == [w] + Fields(rest)
  {
    var s, tail := w + " " + rest, " " + rest;
    assert s == w + tail;
    WordEndAt(w, tail);
    assert s[..|w|] == w && s[|w|..] == tail && tail[1..] == rest;
  }

  // ----- the parser -----

  /** The start line in a hunk range such as `-12,5`. */
  function ParseHunkStart(range: string): (n: nat)
  {
    var s := Before(TrimPrefix(TrimPrefix(range, "+"), "-"), ',');
    var n := Atoi(s);
    if n < 0 then 0 else n
  }

  function ParsePath(line: string, prefix: string): string
    requires |line| >= 4
  {
    TrimPrefix(Before(line[4..], '\t'), prefix)
  }

  datatype State = State(files: seq<DiffFile>, cur: Option<DiffFile>, oldLine: int, newLine: int)

  const START := State([], None, 0, 0)

  function Closed(st: State): seq<DiffFile>
  {
    if st.cur.Some? then st.files + [st.cur.value] else st.files
  }

  function Append(st: State, d: DiffLine): State
    requires st.cur.Some?
  {
    st.(cur := Some(st.cur.value.(lines := st.cur.value.lines + [d])))
  }

  function ContentLine(st: State, line: string): State
    requires st.cur.Some? && line != []
  {
    match line[0]
    case '+' => Append(st, DiffLine(Add, 0, st.newLine, line[1..])).(newLine := st.newLine + 1)
    case '-' => Append(st, DiffLine(Del, st.oldLine, 0, line[1..])).(oldLine := st.oldLine + 1)
    case ' ' =>
      var st' := Append(st, DiffLine(Ctx, st.oldLine, st.newLine, line[1..]));
      st'.(oldLine := st.oldLine + 1, newLine := st.newLine + 1)
    case _ => Append(st, DiffLine(Ctx, 0, 0, line))
  }

  function HunkLine(st: State, line: string): State
    requires st.cur.Some?
  {
    var parts := Fields(line);
    var st' := if |parts| >= 3
               then st.(oldLine := ParseHunkStart(parts[1]), newLine := ParseHunkStart(parts[2])) else st;
    Append(st', DiffLine(Hunk, 0, 0, line))
  }

  datatype LineKind = GitLine | OldPathLine | NewPathLine | HeaderLine | BlankLine | OtherLine

  function Classify(line: string): LineKind
  {
    if "diff --git" <= line then GitLine
    else if "--- " <= line then OldPathLine
    else if "+++ " <= line then NewPathLine
    else if "@@" <= line then HeaderLine
    else if line == [] then BlankLine
    else OtherLine
  }

  function StepLine(st: State, line: string): State
  {
    var kind := Classify(line);
    if kind == GitLine then State(Closed(st), Some(DiffFile("", "", [])), st.oldLine, st.newLine)
    else if st.cur.None? then st
    else if kind == OldPathLine then st.(cur := Some(st.cur.value.(oldPath := ParsePath(line, "a/"))))
    else if kind == NewPathLine then st.(cur := Some(st.cur.value.(newPath := ParsePath(line, "b/"))))
    else if kind == HeaderLine then HunkLine(st, line)
    else if kind == BlankLine then
      Append(st, DiffLine(Ctx, st.oldLine, st.newLine, "")).(oldLine := st.oldLine + 1, newLine := st.newLine + 1)
    else ContentLine(st, line)
  }

  /** The state after a list of lines, for any way of stepping over one line. */
  function Steps(step: (State, string) -> State, st: State, lines: seq<string>): State
  {
    if lines == [] then st else step(Steps(step, st, lines[..|lines| - 1]), lines[|lines| - 1])
  }

  function Parse(diff: string): seq<DiffFile>
  {
    Closed(Steps(StepLine, START, SplitLines(diff)))
  }

  method PathAfter(line: string, prefix: string) returns (path: string)
    requires |line| >= 4
    ensures path == ParsePath(line, prefix)
  {
    path := line[4..];
    var t := IndexOf(path, '\t');
    if t >= 0 {
      path := path[..t];
    }
    path := TrimPrefix(path, prefix);
  }

  method TakeContent(ghost files: seq<DiffFile>, cur: DiffFile, oldLine: int, newLine: int, line: string)
    returns (cur': DiffFile, oldLine': int, newLine': int)
    requires line != []
    ensures State(files, Some(cur'), oldLine', newLine') == ContentLine(State(files, Some(cur), oldLine, newLine), line)
  {
    cur', oldLine', newLine' := cur, oldLine, newLine;
    match line[0] {
      case '+' =>
        cur' := cur.(lines := cur.lines + [DiffLine(Add, 0, newLine, line[1..])]);
        newLine' := newLine + 1;
      case '-' =>
        cur' := cur.(lines := cur.lines + [DiffLine(Del, oldLine, 0, line[1..])]);
        oldLine' := oldLine + 1;
      case ' ' =>
        cur' := cur.(lines := cur.lines + [DiffLine(Ctx, oldLine, newLine, line[1..])]);
        oldLine', newLine' := oldLine + 1, newLine + 1;
      case _ =>
        cur' := cur.(lines := cur.lines + [DiffLine(Ctx, 0, 0, line)]);
    }
  }

  /** The loop body for a line inside a file. */
  method TakeLine(ghost files: seq<DiffFile>, cur: DiffFile, oldLine: int, newLine: int, line: string)
    returns (cur': DiffFile, oldLine': int, newLine': int)
    requires Classify(line) != GitLine
    ensures State(files, Some(cur'), oldLine', newLine') == StepLine(State(files, Some(cur), oldLine, newLine), line)
    ensures "--- " <= line ==> cur' == cur.(oldPath := TrimPrefix(Before(line[4..], '\t'), "a/"))
    ensures "+++ " <= line ==> cur' == cur.(newPath := TrimPrefix(Before(line[4..], '\t'), "b/"))
    ensures "@@" <= line ==> cur' == cur.(lines := cur.lines + [DiffLine(Hunk, 0, 0, line)])
    ensures "--- " <= line || "+++ " <= line || ("@@" <= line && |Fields(line)| < 3) ==>
              oldLine' == oldLine && newLine' == newLine
    ensures "@@" <= line && |Fields(line)| >= 3 ==>
              oldLine' == ParseHunkStart(Fields(line)[1]) && newLine' == ParseHunkStart(Fields(line)[2])
    ensures !("--- " <= line || "+++ " <= line || "@@" <= line) ==>
              cur' == cur.(lines := cur.lines + [
                if line == "" then DiffLine(Ctx, oldLine, newLine, "")
                else if line[0] == '+' then DiffLine(Add, 0, newLine, line[1..])
                else if line[0] == '-' then DiffLine(Del, oldLine, 0, line[1..])
                else if line[0] == ' ' then DiffLine(Ctx, oldLine, newLine, line[1..])
                else DiffLine(Ctx, 0, 0, line)])
    ensures !("--- " <= line || "+++ " <= line || "@@" <= line) ==>
              && oldLine' == oldLine + (if line == "" || line[0] == '-' || line[0] == ' ' then 1 else 0)
              && newLine' == newLine + (if line == "" || line[0] == '+' || line[0] == ' ' then 1 else 0)
  {
    cur', oldLine', newLine' := cur, oldLine, newLine;
    if "--- " <= line {
      assert line[0] == '-';
      var path := PathAfter(line, "a/");
      cur' := cur.(oldPath := path);
      return;
    }
    if "+++ " <= line {
      assert line[0] == '+';
      var path := PathAfter(line, "b/");
      cur' := cur.(newPath := path);
      return;
    }
    if "@@" <= line {
      var parts := Fields(line);
      if |parts| >= 3 {
        oldLine' := ParseHunkStart(parts[1]);
        newLine' := ParseHunkStart(parts[2]);
      }
      cur' := cur.(lines := cur.lines + [DiffLine(Hunk, 0, 0, line)]);
      return;
    }
    if |line| == 0 {
      cur' := cur.(lines := cur.lines + [DiffLine(Ctx, oldLine, newLine, "")]);
      oldLine', newLine' := oldLine + 1, newLine + 1;
      return;
    }
    cur', oldLine', newLine' := TakeContent(files, cur, oldLine, newLine, line);
  }

  method ParseUnifiedDiff(diff: string) returns (files: seq<DiffFile>)
    ensures files == Parse(diff)
  {
    files := [];
    var cur: Option<DiffFile> := None;
    var oldLine, newLine := 0, 0;
    var lines := SplitLines(diff);
    for i := 0 to |lines|
      invariant State(files, cur, oldLine, newLine) == Steps(StepLine, START, lines[..i])
    {
      assert lines[..i + 1][..i] == lines[..i];
      ghost var before := State(files, cur, oldLine, newLine);
      if "diff --git" <= lines[i] {
        if cur.Some? {
          files := files + [cur.value];
        }
        cur := Some(DiffFile("", "", []));
      } else if cur.Some? {
        var file, o, n := TakeLine(files, cur.value, oldLine, newLine, lines[i]);
        cur, oldLine, newLine := Some(file), o, n;
      }
      assert State(files, cur, oldLine, newLine) == StepLine(before, lines[i]);
    }
    assert lines[..|lines|] == lines;
    if cur.Some? {
      files := files + [cur.value];
    }
  }

  // ----- what git prints -----

  /** A line of a hunk; a note is a line of another kind, as "\ No newline at end of file". */
  datatype BodyLine = Context(text: string) | Deletion(text: string) | Addition(text: string) | Note(text: string)

  /** The ranges are what follows the start lines in the header, as `,5` or nothing; the section
      is what follows the second @@. */
  datatype HunkOf = HunkOf(oldStart: nat, oldRange: string, newStart: nat, newRange: string, section: string,
                           body: seq<BodyLine>)

  /** A path line: the path, with or without its a/ or b/, and what follows a tab, if anything. */
  datatype PathOf = PathOf(prefixed: bool, path: string, tail: string)

  datatype Paths = Paths(before: PathOf, after: PathOf)

  /** One file of a diff; the notes are git's extended header lines, as `index ...`. A mere rename
      or a binary file has no path lines. */
  datatype FileOf = FileOf(gitLine: string, notes: seq<string>, paths: Option<Paths>, hunks: seq<HunkOf>)

  function PrintBody(b: BodyLine): string
  {
    match b
    case Context(t) => " " + t
    case Deletion(t) => "-" + t
    case Addition(t) => "+" + t
    case Note(t) => t
  }

  function PrintBodies(body: seq<BodyLine>): seq<string>
  {
    if body == [] then [] else PrintBodies(body[..|body| - 1]) + [PrintBody(body[|body| - 1])]
  }

  function OldField(h: HunkOf): string
  {
    "-" + Decimal(h.oldStart) + h.oldRange
  }

  function NewField(h: HunkOf): string
  {
    "+" + Decimal(h.newStart) + h.newRange
  }

  function PrintHeader(h: HunkOf): string
  {
    "@@" + " " + (OldField(h) + " " + (NewField(h) + " " + ("@@" + h.section)))
  }

  function PrintHunk(h: HunkOf): seq<string>
  {
    [PrintHeader(h)] + PrintBodies(h.body)
  }

  function PrintHunks(hunks: seq<HunkOf>): seq<string>
  {
    if hunks == [] then [] else PrintHunks(hunks[..|hunks| - 1]) + PrintHunk(hunks[|hunks| - 1])
  }

  function PrintPath(marker: string, prefix: string, p: PathOf): string
  {
    marker + (if p.prefixed then prefix else "") + p.path + p.tail
  }

  function PrintPaths(paths: Option<Paths>): seq<string>
  {
    match paths
    case None => []
    case Some(p) => [PrintPath("--- ", "a/", p.before), PrintPath("+++ ", "b/", p.after)]
  }

  function PrintFile(f: FileOf): seq<string>
  {
    ["diff --git" + f.gitLine] + f.notes + PrintPaths(f.paths) + PrintHunks(f.hunks)
  }

  function PrintFiles(files: seq<FileOf>): seq<string>
  {
    if files == [] then [] else PrintFiles(files[..|files| - 1]) + PrintFile(files[|files| - 1])
  }

  // ----- what the parser should return for it -----

  /** The line a body line becomes when `o` and `n` old-side and new-side lines precede it. */
  function NumberedAt(b: BodyLine, o: int, n: int): DiffLine
  {
    match b
    case Context(t) => DiffLine(Ctx, o, n, t)
    case Deletion(t) => DiffLine(Del, o, 0, t)
    case Addition(t) => DiffLine(Add, 0, n, t)
    case Note(t) => DiffLine(Ctx, 0, 0, t)
  }

  function OldCount(b: BodyLine): nat
  {
    if b.Context? || b.Deletion? then 1 else 0
  }

  function NewCount(b: BodyLine): nat
  {
    if b.Context? || b.Addition? then 1 else 0
  }

  /** How many of the lines are on the old side. */
  function OldSide(body: seq<BodyLine>): nat
  {
    if body == [] then 0
    else OldSide(body[..|body| - 1]) + OldCount(body[|body| - 1])
  }

  function NewSide(body: seq<BodyLine>): nat
  {
    if body == [] then 0
    else NewSide(body[..|body| - 1]) + NewCount(body[|body| - 1])
  }

  /** Hunk lines numbered from the given starts: each line gets the start of its side plus the
      number of earlier lines of that side. */
  function NumberedFrom(body: seq<BodyLine>, o: int, n: int): seq<DiffLine>
  {
    if body == [] then []
    else
      var init := body[..|body| - 1];
      NumberedFrom(init, o, n) + [NumberedAt(body[|body| - 1], o + OldSide(init), n + NewSide(init))]
  }

  /** Line by line: the k-th line of a hunk body carries the start of each of its sides plus the
      number of lines of that side before it. */
  lemma {:induction false} NumberedIndex(body: seq<BodyLine>, o: int, n: int, k: nat)
    requires k < |body|
    ensures |NumberedFrom(body, o, n)| == |body|
    ensures NumberedFrom(body, o, n)[k] == NumberedAt(body[k], o + OldSide(body[..k]), n + NewSide(body[..k]))
  {
    var init := body[..|body| - 1];
    NumberedLength(init, o, n);
    if k < |init| {
      NumberedIndex(init, o, n, k);
      assert init[..k] == body[..k];
    }
  }

  lemma {:induction false} NumberedLength(body: seq<BodyLine>, o: int, n: int)
    ensures |NumberedFrom(body, o, n)| == |body|
  {
    if body != [] {
      NumberedLength(body[..|body| - 1], o, n);
    }
  }

  function ExpectedHunk(h: HunkOf): seq<DiffLine>
  {
    [DiffLine(Hunk, 0, 0, PrintHeader(h))] + NumberedFrom(h.body, h.oldStart, h.newStart)
  }

  function ExpectedHunks(hunks: seq<HunkOf>): seq<DiffLine>
  {
    if hunks == [] then [] else ExpectedHunks(hunks[..|hunks| - 1]) + ExpectedHunk(hunks[|hunks| - 1])
  }

  /** The line counters after the hunks: the last hunk's starts plus the lines of its sides. */
  function OldEnd(hunks: seq<HunkOf>, before: int): int
  {
    if hunks == [] then before else var h := hunks[|hunks| - 1]; h.oldStart + OldSide(h.body)
  }

  function NewEnd(hunks: seq<HunkOf>, before: int): int
  {
    if hunks == [] then before else var h := hunks[|hunks| - 1]; h.newStart + NewSide(h.body)
  }

  /** All the hunks of a diff; the parser's counters run on from file to file. */
  function HunksOf(files: seq<FileOf>): seq<HunkOf>
  {
    if files == [] then [] else HunksOf(files[..|files| - 1]) + files[|files| - 1].hunks
  }

  function ExpectedNotes(notes: seq<string>): seq<DiffLine>
  {
    if notes == [] then [] else ExpectedNotes(notes[..|notes| - 1]) + [DiffLine(Ctx, 0, 0, notes[|notes| - 1])]
  }

  function ExpectedFile(f: FileOf): DiffFile
  {
    DiffFile(if f.paths.Some? then f.paths.value.before.path else "",
             if f.paths.Some? then f.paths.value.after.path else "",
             ExpectedNotes(f.notes) + ExpectedHunks(f.hunks))
  }

  function ExpectedFiles(files: seq<FileOf>): (r: seq<DiffFile>)
    ensures |r| == |files|
  {
    if files == [] then [] else ExpectedFiles(files[..|files| - 1]) + [ExpectedFile(files[|files| - 1])]
  }

  // ----- well-formed diffs -----

  predicate IsNote(t: string)
  {
    t != [] && t[0] !in "+- @" && !("diff --git" <= t)
  }

  predicate PathOk(p: PathOf, prefix: string)
  {
    '\t' !in p.path && (p.tail == [] || p.tail[0] == '\t') && (!p.prefixed ==> !(prefix <= p.path))
  }

  predicate RangeOk(range: string)
  {
    (range == [] || range[0] == ',') && forall i :: 0 <= i < |range| ==> IsPlain(range[i])
  }

  predicate HunkOk(h: HunkOf)
  {
    RangeOk(h.oldRange) && RangeOk(h.newRange) && h.oldStart <= MAX_INT64 && h.newStart <= MAX_INT64 &&
    forall k :: 0 <= k < |h.body| && h.body[k].Note? ==> IsNote(h.body[k].text)
  }

  predicate PathsOk(paths: Option<Paths>)
  {
    paths.Some? ==> PathOk(paths.value.before, "a/") && PathOk(paths.value.after, "b/")
  }

  predicate FileOk(f: FileOf)
  {
    && (forall i :: 0 <= i < |f.notes| ==> IsNote(f.notes[i]))
    && PathsOk(f.paths)
    && forall i :: 0 <= i < |f.hunks| ==> HunkOk(f.hunks[i])
  }

  /** A deletion or addition that does not print like a path line. */
  predicate Unambiguous(b: BodyLine)
  {
    (b.Deletion? ==> !("-- " <= b.text)) && (b.Addition? ==> !("++ " <= b.text))
  }

  predicate HunkUnambiguous(h: HunkOf)
  {
    forall k :: 0 <= k < |h.body| ==> Unambiguous(h.body[k])
  }

  predicate FileUnambiguous(f: FileOf)
  {
    forall i :: 0 <= i < |f.hunks| ==> HunkUnambiguous(f.hunks[i])
  }

  // ----- one line at a time -----

  lemma FieldsOfThree(a: string, b: string, c: string, rest: string)
    requires IsWord(a) && IsWord(b) && IsWord(c)
    ensures Fields(a + " " + (b + " " + (c + " " + rest))) == [a] + ([b] + ([c] + Fields(rest)))
  {
    OneField(c, rest);
    OneField(b, c + " " + rest);
    OneField(a, b + " " + (c + " " + rest));
  }

  lemma FieldsAreWords(h: HunkOf)
    requires HunkOk(h)
    ensures IsWord(OldField(h)) && IsWord(NewField(h)) && IsWord("@@")
  {
  }

  lemma SignsTrimmed(sign: string, s: string)
    requires sign == "-" || sign == "+"
    requires s != [] && IsDigit(s[0])
    ensures TrimPrefix(TrimPrefix(sign + s, "+"), "-") == s
  {
  }

  lemma BeforeRange(digits: string, range: string)
    requires RangeOk(range) && AllDigits(digits)
    ensures Before(digits + range, ',') == digits
  {
    if range == [] {
      BeforeFirst(digits, ',', "");
      assert digits + range == digits;
    } else {
      assert digits + range == digits + [','] + range[1..];
      BeforeFirst(digits, ',', range[1..]);
    }
  }

  lemma StartParses(sign: string, start: nat, range: string)
    requires sign == "-" || sign == "+"
    requires RangeOk(range) && start <= MAX_INT64
    ensures ParseHunkStart(sign + Decimal(start) + range) == start
  {
    var digits := Decimal(start);
    assert sign + digits + range == sign + (digits + range);
    SignsTrimmed(sign, digits + range);
    BeforeRange(digits, range);
    AtoiOfDecimal(start);
  }

  lemma ClassifyByFirst(line: string)
    requires line != []
    ensures line[0] == '@' ==> Classify(line) == if "@@" <= line then HeaderLine else OtherLine
    ensures line[0] == '-' ==> Classify(line) == if "--- " <= line then OldPathLine else OtherLine
    ensures line[0] == '+' ==> Classify(line) == if "+++ " <= line then NewPathLine else OtherLine
    ensures line[0] !in "@-+" && !("diff --git" <= line) ==> Classify(line) == OtherLine
    ensures line[0] !in "@-+" && line[0] != 'd' ==> Classify(line) == OtherLine
  {
  }

  /** The state with more lines in the current file and the given counters. */
  function With(st: State, more: seq<DiffLine>, oldLine: int, newLine: int): State
    requires st.cur.Some?
  {
    var f := st.cur.value;
    State(st.files, Some(DiffFile(f.oldPath, f.newPath, f.lines + more)), oldLine, newLine)
  }

  lemma WithTwice(st: State, a: seq<DiffLine>, b: seq<DiffLine>, o: int, n: int, o': int, n': int)
    requires st.cur.Some?
    ensures With(With(st, a, o, n), b, o', n') == With(st, a + b, o', n')
    ensures With(st, [], st.oldLine, st.newLine) == st
  {
    assert st.cur.value.lines + a + b == st.cur.value.lines + (a + b);
    assert st.cur.value.lines + [] == st.cur.value.lines;
  }

  lemma BodyStep(st: State, b: BodyLine)
    requires st.cur.Some? && Unambiguous(b) && (b.Note? ==> IsNote(b.text))
    ensures StepLine(st, PrintBody(b)) ==
            With(st, [NumberedAt(b, st.oldLine, st.newLine)], st.oldLine + OldCount(b), st.newLine + NewCount(b))
  {
    var line := PrintBody(b);
    ClassifyByFirst(line);
    if !b.Note? {
      assert line[1..] == b.text;
    }
    match b {
      case Deletion(t) => PrefixCons('-', "-- ", t);
      case Addition(t) => PrefixCons('+', "++ ", t);
      case _ =>
    }
    assert Classify(line) == OtherLine;
  }

  lemma PrefixCons(c: char, a: string, b: string)
    ensures [c] + a <= [c] + b <==> a <= b
  {
    if [c] + a <= [c] + b {
      forall i | 0 <= i < |a|
        ensures i < |b| && a[i] == b[i]
      {
        assert ([c] + a)[i + 1] == ([c] + b)[i + 1];
      }
    }
  }

  lemma HeaderStarts(h: HunkOf)
    requires HunkOk(h)
    ensures var parts := Fields(PrintHeader(h));
            |parts| >= 3 && ParseHunkStart(parts[1]) == h.oldStart && ParseHunkStart(parts[2]) == h.newStart
  {
    HeaderFields(h);
    StartParses("-", h.oldStart, h.oldRange);
    StartParses("+", h.newStart, h.newRange);
  }

  lemma HeaderStep(st: State, h: HunkOf)
    requires st.cur.Some? && HunkOk(h)
    ensures StepLine(st, PrintHeader(h)) == With(st, [DiffLine(Hunk, 0, 0, PrintHeader(h))], h.oldStart, h.newStart)
  {
    var line := PrintHeader(h);
    assert line[0] == '@' && line[1] == '@';
    ClassifyByFirst(line);
    HeaderStarts(h);
  }

  lemma HeaderFields(h: HunkOf)
    requires HunkOk(h)
    ensures var parts := Fields(PrintHeader(h)); |parts| >= 3 && parts[1] == OldField(h) && parts[2] == NewField(h)
  {
    FieldsAreWords(h);
    FieldsOfThree("@@", OldField(h), NewField(h), "@@" + h.section);
  }

  lemma PathRoundTrip(marker: string, prefix: string, p: PathOf)
    requires |marker| == 4 && PathOk(p, prefix) && '\t' !in prefix
    ensures marker <= PrintPath(marker, prefix, p) && ParsePath(PrintPath(marker, prefix, p), prefix) == p.path
  {
    var line := PrintPath(marker, prefix, p);
    var shown := (if p.prefixed then prefix else "") + p.path;
    assert line[4..] == shown + p.tail;
    if p.tail == [] {
      assert shown + p.tail == shown;
      BeforeFirst(shown, '\t', "");
    } else {
      assert shown + p.tail == shown + ['\t'] + p.tail[1..];
      BeforeFirst(shown, '\t', p.tail[1..]);
    }
    if p.prefixed {
      assert prefix <= shown && shown[|prefix|..] == p.path;
    } else {
      assert shown == p.path;
    }
  }

  lemma PathSteps(st: State, p: PathOf)
    requires st.cur.Some?
    ensures PathOk(p, "a/") ==>
              StepLine(st, PrintPath("--- ", "a/", p)) == st.(cur := Some(st.cur.value.(oldPath := p.path)))
    ensures PathOk(p, "b/") ==>
              StepLine(st, PrintPath("+++ ", "b/", p)) == st.(cur := Some(st.cur.value.(newPath := p.path)))
  {
    if PathOk(p, "a/") {
      PathRoundTrip("--- ", "a/", p);
      ClassifyByFirst(PrintPath("--- ", "a/", p));
    }
    if PathOk(p, "b/") {
      PathRoundTrip("+++ ", "b/", p);
      ClassifyByFirst(PrintPath("+++ ", "b/", p));
    }
  }

  // ----- round trip -----
  //
  // Stated for any step function with the properties just proved of StepLine, so that the
  // proofs below never look inside it.

  predicate StepsBody(step: (State, string) -> State, st: State, b: BodyLine)
  {
    st.cur.Some? && Unambiguous(b) && (b.Note? ==> IsNote(b.text)) ==>
      step(st, PrintBody(b)) ==
      With(st, [NumberedAt(b, st.oldLine, st.newLine)], st.oldLine + OldCount(b), st.newLine + NewCount(b))
  }

  predicate StepsHeader(step: (State, string) -> State, st: State, h: HunkOf)
  {
    st.cur.Some? && HunkOk(h) ==>
      step(st, PrintHeader(h)) == With(st, [DiffLine(Hunk, 0, 0, PrintHeader(h))], h.oldStart, h.newStart)
  }

  predicate StepsPath(step: (State, string) -> State, st: State, p: PathOf)
  {
    st.cur.Some? ==>
      && (PathOk(p, "a/") ==>
           step(st, PrintPath("--- ", "a/", p)) == st.(cur := Some(st.cur.value.(oldPath := p.path))))
      && (PathOk(p, "b/") ==>
           step(st, PrintPath("+++ ", "b/", p)) == st.(cur := Some(st.cur.value.(newPath := p.path))))
  }

  predicate StepsGitLine(step: (State, string) -> State, st: State, rest: string)
  {
    step(st, "diff --git" + rest) == State(Closed(st), Some(DiffFile("", "", [])), st.oldLine, st.newLine)
  }

  ghost predicate StepsBodies(step: (State, string) -> State)
  {
    forall st, b :: StepsBody(step, st, b)
  }

  ghost predicate StepsHeaders(step: (State, string) -> State)
  {
    forall st, h :: StepsHeader(step, st, h)
  }

  ghost predicate StepsPaths(step: (State, string) -> State)
  {
    forall st, p :: StepsPath(step, st, p)
  }

  ghost predicate StepsGitLines(step: (State, string) -> State)
  {
    forall st, rest :: StepsGitLine(step, st, rest)
  }

  ghost predicate Faithful(step: (State, string) -> State)
  {
    StepsBodies(step) && StepsHeaders(step) && StepsPaths(step) && StepsGitLines(step)
  }

  lemma StepLineIsFaithful()
    ensures Faithful(StepLine)
  {
    forall st, b ensures StepsBody(StepLine, st, b) { StepLineBody(st, b); }
    forall st, h ensures StepsHeader(StepLine, st, h) { StepLineHeader(st, h); }
    forall st, p ensures StepsPath(StepLine, st, p) { StepLinePath(st, p); }
    forall st, rest ensures StepsGitLine(StepLine, st, rest) { StepLineGitLine(st, rest); }
  }

  lemma StepLineBody(st: State, b: BodyLine)
    ensures StepsBody(StepLine, st, b)
  {
    if st.cur.Some? && Unambiguous(b) && (b.Note? ==> IsNote(b.text)) {
      BodyStep(st, b);
    }
  }

  lemma StepLineHeader(st: State, h: HunkOf)
    ensures StepsHeader(StepLine, st, h)
  {
    if st.cur.Some? && HunkOk(h) {
      HeaderStep(st, h);
    }
  }

  lemma StepLinePath(st: State, p: PathOf)
    ensures StepsPath(StepLine, st, p)
  {
    if st.cur.Some? {
      PathSteps(st, p);
    }
  }

  lemma StepLineGitLine(st: State, rest: string)
    ensures StepsGitLine(StepLine, st, rest)
  {
  }

  lemma {:induction false} StepsAppend(step: (State, string) -> State, st: State, a: seq<string>, b: seq<string>)
    ensures Steps(step, st, a + b) == Steps(step, Steps(step, st, a), b)
  {
    if b == [] {
      assert a + b == a;
    } else {
      var n := |b| - 1;
      StepsAppend(step, st, a, b[..n]);
      assert (a + b)[..|a + b| - 1] == a + b[..n];
    }
  }

  lemma OneStep(step: (State, string) -> State, st: State, line: string)
    ensures Steps(step, st, [line]) == step(st, line)
  {
  }

  predicate BodiesOk(body: seq<BodyLine>)
  {
    forall k :: 0 <= k < |body| ==> Unambiguous(body[k]) && (body[k].Note? ==> IsNote(body[k].text))
  }

  lemma {:induction false} BodyRoundTrip(step: (State, string) -> State, st: State, body: seq<BodyLine>)
    requires StepsBodies(step) && st.cur.Some? && BodiesOk(body)
    ensures Steps(step, st, PrintBodies(body)) ==
            With(st, NumberedFrom(body, st.oldLine, st.newLine), st.oldLine + OldSide(body), st.newLine + NewSide(body))
  {
    if body == [] {
      WithTwice(st, [], [], 0, 0, 0, 0);
    } else {
      var init, b := body[..|body| - 1], body[|body| - 1];
      BodyRoundTrip(step, st, init);
      StepsAppend(step, st, PrintBodies(init), [PrintBody(b)]);
      var o, n := st.oldLine + OldSide(init), st.newLine + NewSide(init);
      var mid := With(st, NumberedFrom(init, st.oldLine, st.newLine), o, n);
      OneStep(step, mid, PrintBody(b));
      assert StepsBody(step, mid, b);
      WithTwice(st, NumberedFrom(init, st.oldLine, st.newLine), [NumberedAt(b, o, n)], o, n,
                o + OldCount(b), n + NewCount(b));
    }
  }

  lemma HunkRoundTrip(step: (State, string) -> State, st: State, h: HunkOf) returns (o: int, n: int)
    requires StepsBodies(step) && StepsHeaders(step) && st.cur.Some? && HunkOk(h) && HunkUnambiguous(h)
    ensures Steps(step, st, PrintHunk(h)) == With(st, ExpectedHunk(h), o, n)
    ensures o == h.oldStart + OldSide(h.body) && n == h.newStart + NewSide(h.body)
  {
    var line := PrintHeader(h);
    var first := [DiffLine(Hunk, 0, 0, line)];
    var mid := With(st, first, h.oldStart, h.newStart);
    StepsAppend(step, st, [line], PrintBodies(h.body));
    OneStep(step, st, line);
    assert StepsHeader(step, st, h);
    assert BodiesOk(h.body);
    BodyRoundTrip(step, mid, h.body);
    o, n := h.oldStart + OldSide(h.body), h.newStart + NewSide(h.body);
    WithTwice(st, first, NumberedFrom(h.body, h.oldStart, h.newStart), h.oldStart, h.newStart, o, n);
  }

  lemma {:induction false} HunksRoundTrip(step: (State, string) -> State, st: State, hunks: seq<HunkOf>)
    returns (o: int, n: int)
    requires StepsBodies(step) && StepsHeaders(step)
    requires st.cur.Some? && forall i :: 0 <= i < |hunks| ==> HunkOk(hunks[i]) && HunkUnambiguous(hunks[i])
    ensures Steps(step, st, PrintHunks(hunks)) == With(st, ExpectedHunks(hunks), o, n)
    ensures o == OldEnd(hunks, st.oldLine) && n == NewEnd(hunks, st.newLine)
  {
    if hunks == [] {
      o, n := st.oldLine, st.newLine;
      WithTwice(st, [], [], 0, 0, 0, 0);
    } else {
      var init, h := hunks[..|hunks| - 1], hunks[|hunks| - 1];
      var o', n' := HunksRoundTrip(step, st, init);
      StepsAppend(step, st, PrintHunks(init), PrintHunk(h));
      o, n := HunkRoundTrip(step, With(st, ExpectedHunks(init), o', n'), h);
      WithTwice(st, ExpectedHunks(init), ExpectedHunk(h), o', n', o, n);
    }
  }

  lemma {:induction false} NotesRoundTrip(step: (State, string) -> State, st: State, notes: seq<string>)
    requires StepsBodies(step) && st.cur.Some? && forall i :: 0 <= i < |notes| ==> IsNote(notes[i])
    ensures Steps(step, st, notes) == With(st, ExpectedNotes(notes), st.oldLine, st.newLine)
  {
    if notes == [] {
      WithTwice(st, [], [], 0, 0, 0, 0);
    } else {
      var k := |notes| - 1;
      NotesRoundTrip(step, st, notes[..k]);
      var mid := With(st, ExpectedNotes(notes[..k]), st.oldLine, st.newLine);
      var b := Note(notes[k]);
      assert StepsBody(step, mid, b);
      WithTwice(st, ExpectedNotes(notes[..k]), [DiffLine(Ctx, 0, 0, notes[k])], st.oldLine, st.newLine,
                st.oldLine, st.newLine);
    }
  }

  lemma FileRoundTrip(step: (State, string) -> State, st: State, f: FileOf)
    requires Faithful(step) && FileOk(f) && FileUnambiguous(f)
    ensures Steps(step, st, PrintFile(f)) ==
            State(Closed(st), Some(ExpectedFile(f)), OldEnd(f.hunks, st.oldLine), NewEnd(f.hunks, st.newLine))
  {
    var git := "diff --git" + f.gitLine;
    StepsAppend(step, st, [git] + f.notes + PrintPaths(f.paths), PrintHunks(f.hunks));
    StepsAppend(step, st, [git] + f.notes, PrintPaths(f.paths));
    StepsAppend(step, st, [git], f.notes);
    OneStep(step, st, git);
    var st1 := step(st, git);
    assert StepsGitLine(step, st, f.gitLine);
    assert st1 == State(Closed(st), Some(DiffFile("", "", [])), st.oldLine, st.newLine);
    NotesRoundTrip(step, st1, f.notes);
    var st2 := With(st1, ExpectedNotes(f.notes), st.oldLine, st.newLine);
    var st3 := PathsRoundTrip(step, st2, f.paths);
    var o, n := HunksRoundTrip(step, st3, f.hunks);
    assert [] + ExpectedNotes(f.notes) == ExpectedNotes(f.notes);
  }

  lemma PathsRoundTrip(step: (State, string) -> State, st: State, paths: Option<Paths>) returns (st': State)
    requires StepsPaths(step) && PathsOk(paths)
    requires st.cur.Some? && st.cur.value.oldPath == st.cur.value.newPath == ""
    ensures st' == Steps(step, st, PrintPaths(paths))
    ensures st' == st.(cur := Some(DiffFile(if paths.Some? then paths.value.before.path else "",
                                            if paths.Some? then paths.value.after.path else "", st.cur.value.lines)))
  {
    if paths.None? {
      st' := st;
    } else {
      var oldPath, newPath := PrintPath("--- ", "a/", paths.value.before), PrintPath("+++ ", "b/", paths.value.after);
      assert PrintPaths(paths) == [oldPath] + [newPath];
      StepsAppend(step, st, [oldPath], [newPath]);
      OneStep(step, st, oldPath);
      assert StepsPath(step, st, paths.value.before);
      var mid := step(st, oldPath);
      OneStep(step, mid, newPath);
      assert StepsPath(step, mid, paths.value.after);
      st' := step(mid, newPath);
    }
  }

  /** The state after the lines of `files`. */
  predicate AfterFiles(st: State, files: seq<FileOf>)
  {
    && Closed(st) == ExpectedFiles(files)
    && st.oldLine == OldEnd(HunksOf(files), 0) && st.newLine == NewEnd(HunksOf(files), 0)
  }

  lemma EndsAppend(a: seq<HunkOf>, b: seq<HunkOf>)
    ensures OldEnd(a + b, 0) == OldEnd(b, OldEnd(a, 0)) && NewEnd(a + b, 0) == NewEnd(b, NewEnd(a, 0))
  {
    assert b == [] ==> a + b == a;
  }

  lemma AfterOneMore(st: State, st': State, init: seq<FileOf>, f: FileOf, file: DiffFile)
    requires AfterFiles(st, init) && file == ExpectedFile(f)
    requires st' == State(Closed(st), Some(file), OldEnd(f.hunks, st.oldLine), NewEnd(f.hunks, st.newLine))
    ensures AfterFiles(st', init + [f])
  {
    EndsAppend(HunksOf(init), f.hunks);
    assert (init + [f])[..|init + [f]| - 1] == init;
    assert HunksOf(init + [f]) == HunksOf(init) + f.hunks;
    assert ExpectedFiles(init + [f]) == ExpectedFiles(init) + [file];
  }

  lemma PrintOneMore(init: seq<FileOf>, f: FileOf)
    ensures PrintFiles(init + [f]) == PrintFiles(init) + PrintFile(f)
  {
    assert (init + [f])[..|init|] == init;
  }

  lemma OneMoreFile(step: (State, string) -> State, init: seq<FileOf>, f: FileOf)
    requires Faithful(step) && FileOk(f) && FileUnambiguous(f)
    requires AfterFiles(Steps(step, START, PrintFiles(init)), init)
    ensures AfterFiles(Steps(step, START, PrintFiles(init + [f])), init + [f])
  {
    var lines := PrintFiles(init);
    var before := Steps(step, START, lines);
    PrintOneMore(init, f);
    StepsAppend(step, START, lines, PrintFile(f));
    FileRoundTrip(step, before, f);
    AfterOneMore(before, Steps(step, START, lines + PrintFile(f)), init, f, ExpectedFile(f));
  }

  predicate AllReadable(files: seq<FileOf>)
  {
    forall i :: 0 <= i < |files| ==> FileOk(files[i]) && FileUnambiguous(files[i])
  }

  lemma {:induction false} FilesRoundTrip(step: (State, string) -> State, files: seq<FileOf>)
    requires Faithful(step) && AllReadable(files)
    ensures AfterFiles(Steps(step, START, PrintFiles(files)), files)
  {
    if files != [] {
      var init, f := files[..|files| - 1], files[|files| - 1];
      assert files == init + [f];
      FilesRoundTrip(step, init);
      OneMoreFile(step, init, f);
    }
  }

  // ----- ambiguous lines are lost -----

  function LineCount(files: seq<DiffFile>): nat
  {
    if files == [] then 0 else LineCount(files[..|files| - 1]) + |files[|files| - 1].lines|
  }

  function Emits(line: string): nat
  {
    match Classify(line)
    case GitLine => 0
    case OldPathLine => 0
    case NewPathLine => 0
    case _ => 1
  }

  function Emitted(lines: seq<string>): (n: nat)
    ensures n <= |lines|
  {
    if lines == [] then 0 else Emitted(lines[..|lines| - 1]) + Emits(lines[|lines| - 1])
  }

  lemma {:induction false} EmittedAppend(a: seq<string>, b: seq<string>)
    ensures Emitted(a + b) == Emitted(a) + Emitted(b)
  {
    if b == [] {
      assert a + b == a;
    } else {
      EmittedAppend(a, b[..|b| - 1]);
      assert (a + b)[..|a + b| - 1] == a + b[..|b| - 1];
    }
  }

  /** The lines of the files closed so far and of the current one. */
  function Lines(st: State): nat
  {
    LineCount(st.files) + if st.cur.Some? then |st.cur.value.lines| else 0
  }

  lemma ClosedLines(st: State)
    ensures LineCount(Closed(st)) == Lines(st)
  {
  }

  predicate CountsLine(step: (State, string) -> State, st: State, line: string)
  {
    var st' := step(st, line);
    (st.cur.Some? || "diff --git" <= line ==> st'.cur.Some? && Lines(st') == Lines(st) + Emits(line))
  }

  lemma {:induction false} CountedLines(step: (State, string) -> State, st: State, lines: seq<string>)
    requires forall s, line :: CountsLine(step, s, line)
    requires st.cur.Some? || (lines != [] && "diff --git" <= lines[0])
    ensures var st' := Steps(step, st, lines);
            st'.cur.Some? && Lines(st') == Lines(st) + Emitted(lines)
  {
    if lines != [] {
      var n := |lines| - 1;
      if n == 0 && st.cur.None? {
        assert lines[..n] == [];
      } else {
        CountedLines(step, st, lines[..n]);
      }
      assert CountsLine(step, Steps(step, st, lines[..n]), lines[n]);
    }
  }

  /** The most lines a printed body can leave; fewer when one of them is ambiguous. */
  lemma {:induction false} EmittedBodies(body: seq<BodyLine>)
    ensures Emitted(PrintBodies(body)) <= |body| == |NumberedFrom(body, 0, 0)|
    ensures (exists k :: 0 <= k < |body| && !Unambiguous(body[k])) ==> Emitted(PrintBodies(body)) < |body|
  {
    if body != [] {
      var init, b := body[..|body| - 1], body[|body| - 1];
      EmittedBodies(init);
      EmittedAppend(PrintBodies(init), [PrintBody(b)]);
      assert [PrintBody(b)][..0] == [];
      if !Unambiguous(b) {
        AmbiguousEmitsNothing(b);
      }
      if k :| 0 <= k < |body| && !Unambiguous(body[k]) && k < |body| - 1 {
        assert !Unambiguous(init[k]);
      }
    }
  }

  lemma AmbiguousEmitsNothing(b: BodyLine)
    requires !Unambiguous(b)
    ensures Emits(PrintBody(b)) == 0
  {
  }

  lemma EmittedHunk(h: HunkOf)
    ensures Emitted(PrintHunk(h)) <= |ExpectedHunk(h)|
    ensures !HunkUnambiguous(h) ==> Emitted(PrintHunk(h)) < |ExpectedHunk(h)|
  {
    EmittedAppend([PrintHeader(h)], PrintBodies(h.body));
    EmittedBodies(h.body);
    NumberedLength(h.body, h.oldStart, h.newStart);
  }

  predicate HunksUnambiguous(hunks: seq<HunkOf>)
  {
    forall i :: 0 <= i < |hunks| ==> HunkUnambiguous(hunks[i])
  }

  lemma {:induction false} EmittedHunks(hunks: seq<HunkOf>)
    ensures Emitted(PrintHunks(hunks)) <= |ExpectedHunks(hunks)|
    ensures !HunksUnambiguous(hunks) ==> Emitted(PrintHunks(hunks)) < |ExpectedHunks(hunks)|
  {
    if hunks != [] {
      var init, h := hunks[..|hunks| - 1], hunks[|hunks| - 1];
      EmittedHunks(init);
      EmittedAppend(PrintHunks(init), PrintHunk(h));
      EmittedHunk(h);
      LastHunk(hunks);
    }
  }

  lemma LastHunk(hunks: seq<HunkOf>)
    requires hunks != []
    ensures HunksUnambiguous(hunks) <==>
            HunksUnambiguous(hunks[..|hunks| - 1]) && HunkUnambiguous(hunks[|hunks| - 1])
  {
  }

  lemma {:induction false} NotesLength(notes: seq<string>)
    ensures |ExpectedNotes(notes)| == |notes|
  {
    if notes != [] {
      NotesLength(notes[..|notes| - 1]);
    }
  }

  lemma EmittedFile(f: FileOf)
    requires FileOk(f)
    ensures Emitted(PrintFile(f)) <= |ExpectedFile(f).lines|
    ensures !FileUnambiguous(f) ==> Emitted(PrintFile(f)) < |ExpectedFile(f).lines|
  {
    var git := "diff --git" + f.gitLine;
    EmittedAppend([git] + f.notes + PrintPaths(f.paths), PrintHunks(f.hunks));
    EmittedAppend([git] + f.notes, PrintPaths(f.paths));
    EmittedAppend([git], f.notes);
    PathsEmitNothing(f.paths);
    OneEmitted(git);
    assert "diff --git" <= git;
    NotesLength(f.notes);
    EmittedHunks(f.hunks);
  }

  lemma PathsEmitNothing(paths: Option<Paths>)
    requires PathsOk(paths)
    ensures Emitted(PrintPaths(paths)) == 0
  {
    if paths.Some? {
      var oldPath, newPath := PrintPath("--- ", "a/", paths.value.before), PrintPath("+++ ", "b/", paths.value.after);
      assert PrintPaths(paths) == [oldPath] + [newPath];
      EmittedAppend([oldPath], [newPath]);
      PathRoundTrip("--- ", "a/", paths.value.before);
      PathRoundTrip("+++ ", "b/", paths.value.after);
      ClassifyByFirst(oldPath);
      ClassifyByFirst(newPath);
      OneEmitted(oldPath);
      OneEmitted(newPath);
    }
  }

  lemma OneEmitted(line: string)
    ensures Emitted([line]) == Emits(line)
  {
  }

  predicate AllUnambiguous(files: seq<FileOf>)
  {
    forall i :: 0 <= i < |files| ==> FileUnambiguous(files[i])
  }

  lemma LastFileUnambiguous(files: seq<FileOf>)
    requires files != []
    ensures AllUnambiguous(files) <==>
            AllUnambiguous(files[..|files| - 1]) && FileUnambiguous(files[|files| - 1])
  {
  }

  lemma {:induction false} EmittedFiles(files: seq<FileOf>)
    requires forall i :: 0 <= i < |files| ==> FileOk(files[i])
    ensures Emitted(PrintFiles(files)) <= LineCount(ExpectedFiles(files))
    ensures !AllUnambiguous(files) ==> Emitted(PrintFiles(files)) < LineCount(ExpectedFiles(files))
  {
    if files != [] {
      var n := |files| - 1;
      EmittedFiles(files[..n]);
      EmittedAppend(PrintFiles(files[..n]), PrintFile(files[n]));
      EmittedFile(files[n]);
      LastFileUnambiguous(files);
      assert ExpectedFiles(files)[..n] == ExpectedFiles(files[..n]);
    }
  }

  // ----- the results -----

  predicate NoNewlines(lines: seq<string>)
  {
    forall i :: 0 <= i < |lines| ==> '\n' !in lines[i]
  }

  lemma {:induction false} FirstLineIsGit(files: seq<FileOf>)
    requires files != []
    ensures PrintFiles(files) != [] && "diff --git" <= PrintFiles(files)[0]
  {
    var n := |files| - 1;
    assert "diff --git" <= "diff --git" + files[n].gitLine;
    if n > 0 {
      FirstLineIsGit(files[..n]);
    }
  }

  lemma LinesOfText(files: seq<FileOf>)
    requires NoNewlines(PrintFiles(files))
    ensures Parse(JoinLines(PrintFiles(files))) == Closed(Steps(StepLine, START, PrintFiles(files)))
  {
    if files == [] {
      assert Steps(StepLine, START, [""]) == StepLine(START, "") by {
        OneStep(StepLine, START, "");
      }
    } else {
      FirstLineIsGit(files);
      SplitJoin(PrintFiles(files));
    }
  }

  lemma AmbiguousFilesLoseLines(step: (State, string) -> State, files: seq<FileOf>)
    requires (forall st, line :: CountsLine(step, st, line)) && forall i :: 0 <= i < |files| ==> FileOk(files[i])
    requires !AllUnambiguous(files)
    ensures Closed(Steps(step, START, PrintFiles(files))) != ExpectedFiles(files)
  {
    FirstLineIsGit(files);
    CountedLines(step, START, PrintFiles(files));
    ClosedLines(Steps(step, START, PrintFiles(files)));
    EmittedFiles(files);
  }

  lemma AllLinesCount()
    ensures forall st, line :: CountsLine(StepLine, st, line)
  {
  }

  lemma UnambiguousFilesComeBack(files: seq<FileOf>)
    requires AllUnambiguous(files) && forall i :: 0 <= i < |files| ==> FileOk(files[i])
    ensures Closed(Steps(StepLine, START, PrintFiles(files))) == ExpectedFiles(files)
  {
    StepLineIsFaithful();
    FilesRoundTrip(StepLine, files);
  }

  lemma SomeFilesDoNotComeBack(files: seq<FileOf>)
    requires !AllUnambiguous(files) && forall i :: 0 <= i < |files| ==> FileOk(files[i])
    ensures Closed(Steps(StepLine, START, PrintFiles(files))) != ExpectedFiles(files)
  {
    AllLinesCount();
    AmbiguousFilesLoseLines(StepLine, files);
  }

  predicate ParsesBack(files: seq<FileOf>)
  {
    Parse(JoinLines(PrintFiles(files))) == ExpectedFiles(files)
  }

  lemma ParsesBackByLines(files: seq<FileOf>)
    requires NoNewlines(PrintFiles(files))
    ensures ParsesBack(files) <==> Closed(Steps(StepLine, START, PrintFiles(files))) == ExpectedFiles(files)
  {
    LinesOfText(files);
  }

  predicate Printable(files: seq<FileOf>)
  {
    NoNewlines(PrintFiles(files)) && forall i :: 0 <= i < |files| ==> FileOk(files[i])
  }

  lemma RoundTripHolds(files: seq<FileOf>)
    requires Printable(files) && AllUnambiguous(files)
    ensures ParsesBack(files)
  {
    ParsesBackByLines(files);
    UnambiguousFilesComeBack(files);
  }

  lemma RoundTripFails(files: seq<FileOf>)
    requires Printable(files) && !AllUnambiguous(files)
    ensures !ParsesBack(files)
  {
    ParsesBackByLines(files);
    SomeFilesDoNotComeBack(files);
  }

  /** The diff round trip, exactly: printing any list of well-formed files and parsing the text
      gives back the paths and lines, numbered by hunk starts and earlier lines, if and only if
      no deleted line starts with "-- " and no added line with "++ ". */
  lemma DiffRoundTrip(files: seq<FileOf>)
    requires Printable(files)
    ensures ParsesBack(files) <==> AllUnambiguous(files)
  {
    if AllUnambiguous(files) {
      RoundTripHolds(files);
    } else {
      RoundTripFails(files);
    }
  }

  lemma StepLineBlank(st: State)
    requires st.cur.Some?
    ensures StepLine(st, "") == With(st, [DiffLine(Ctx, st.oldLine, st.newLine, "")], st.oldLine + 1, st.newLine + 1)
  {
  }

  lemma LastFile(step: (State, string) -> State, files: seq<FileOf>) returns (st: State)
    requires files != [] && Faithful(step)
    requires forall i :: 0 <= i < |files| ==> FileOk(files[i]) && FileUnambiguous(files[i])
    ensures st == Steps(step, START, PrintFiles(files))
    ensures st == State(ExpectedFiles(files[..|files| - 1]), Some(ExpectedFile(files[|files| - 1])),
                        OldEnd(HunksOf(files), 0), NewEnd(HunksOf(files), 0))
  {
    var k := |files| - 1;
    FilesRoundTrip(step, files);
    FilesRoundTrip(step, files[..k]);
    StepsAppend(step, START, PrintFiles(files[..k]), PrintFile(files[k]));
    FileRoundTrip(step, Steps(step, START, PrintFiles(files[..k])), files[k]);
    st := Steps(step, START, PrintFiles(files));
  }

  lemma SplitWithNewline(lines: seq<string>)
    requires lines != [] && NoNewlines(lines)
    ensures SplitLines(JoinLines(lines) + "\n") == lines + [""]
  {
    JoinOneMore(lines);
    SplitJoin(lines + [""]);
  }

  lemma LastPrinted(files: seq<FileOf>) returns (st: State)
    requires files != [] && AllUnambiguous(files) && forall i :: 0 <= i < |files| ==> FileOk(files[i])
    ensures st == Steps(StepLine, START, PrintFiles(files))
    ensures st == State(ExpectedFiles(files[..|files| - 1]), Some(ExpectedFile(files[|files| - 1])),
                        OldEnd(HunksOf(files), 0), NewEnd(HunksOf(files), 0))
  {
    StepLineIsFaithful();
    st := LastFile(StepLine, files);
  }

  lemma BlankAfter(lines: seq<string>, st: State)
    requires Steps(StepLine, START, lines) == st && st.cur.Some?
    ensures Steps(StepLine, START, lines + [""]) ==
            With(st, [DiffLine(Ctx, st.oldLine, st.newLine, "")], st.oldLine + 1, st.newLine + 1)
  {
    StepsAppend(StepLine, START, lines, [""]);
    OneStep(StepLine, st, "");
    StepLineBlank(st);
  }

  /** A newline after the last line, as git prints it, adds one empty context line to the last
      file, numbered as if it followed the diff's last hunk. */
  lemma TrailingNewlineAddsALine(files: seq<FileOf>)
    requires files != [] && Printable(files) && AllUnambiguous(files)
    ensures var last := ExpectedFile(files[|files| - 1]);
            var extra := DiffLine(Ctx, OldEnd(HunksOf(files), 0), NewEnd(HunksOf(files), 0), "");
            Parse(JoinLines(PrintFiles(files)) + "\n") ==
            ExpectedFiles(files[..|files| - 1]) + [last.(lines := last.lines + [extra])]
  {
    var lines := PrintFiles(files);
    FirstLineIsGit(files);
    SplitWithNewline(lines);
    var st := LastPrinted(files);
    BlankAfter(lines, st);
  }

  lemma {:induction false} JoinOneMore(lines: seq<string>)
    requires lines != []
    ensures JoinLines(lines + [""]) == JoinLines(lines) + "\n"
  {
    if |lines| > 1 {
      JoinOneMore(lines[1..]);
      assert (lines + [""])[1..] == lines[1..] + [""];
    } else {
      assert (lines + [""])[1..] == [""];
    }
  }

  // ----- what stands before the first file -----

  lemma CutAt(a: string, i: nat, b: string)
    requires i < |a| && a[i] == '\n'
    ensures a + "\n" + b == a[..i] + "\n" + (a[i + 1..] + "\n" + b)
  {
    assert a == a[..i] + ['\n'] + a[i + 1..];
  }

  lemma SplitHead(a: string, i: nat, b: string)
    requires i == IndexOf(a, '\n')
    ensures SplitLines(a + "\n" + b) == [a[..i]] + SplitLines(a[i + 1..] + "\n" + b)
    ensures SplitLines(a) == [a[..i]] + SplitLines(a[i + 1..])
  {
    var rest := a[i + 1..] + "\n" + b;
    CutAt(a, i, b);
    SplitFirst(a[..i], rest);
  }

  lemma {:induction false} SplitAtNewline(a: string, b: string)
    ensures SplitLines(a + "\n" + b) == SplitLines(a) + SplitLines(b)
    decreases |a|
  {
    var i := IndexOf(a, '\n');
    if i < 0 {
      SplitFirst(a, b);
    } else {
      SplitHead(a, i, b);
      SplitAtNewline(a[i + 1..], b);
    }
  }

  lemma {:induction false} NothingBeforeTheFirstFile(lines: seq<string>)
    requires forall i :: 0 <= i < |lines| ==> !("diff --git" <= lines[i])
    ensures Steps(StepLine, START, lines) == START
  {
    if lines != [] {
      NothingBeforeTheFirstFile(lines[..|lines| - 1]);
    }
  }

  /** Text before the first file, as the header of a commit, changes nothing. */
  lemma PreambleIsIgnored(preamble: string, diff: string)
    requires forall i :: 0 <= i < |SplitLines(preamble)| ==> !("diff --git" <= SplitLines(preamble)[i])
    ensures Parse(preamble + "\n" + diff) == Parse(diff)
  {
    SplitAtNewline(preamble, diff);
    NothingBeforeTheFirstFile(SplitLines(preamble));
    StepsAppend(StepLine, START, SplitLines(preamble), SplitLines(diff));
  }
}
