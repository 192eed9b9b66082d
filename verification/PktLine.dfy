// Ref updates in pkt-lines: internal/git/protocol.go, after gitprotocol-common(5), section
// 'pkt-line Format', and gitprotocol-pack(5), section 'Reference Update Request and Packfile
// Transfer'.
module PktLine {
  import opened Collections
  import opened Wrappers
  import opened Text

  datatype RefUpdate = RefUpdate(oldSHA: string, newSHA: string, ref: string)

  const NUL := 0 as char

  // ----- lengths -----

  function DigitValue(c: char): Option<nat>
  {
    if '0' <= c <= '9' then Some(c as int - '0' as int)
    else if 'a' <= c <= 'f' then Some(c as int - 'a' as int + 10)
    else if 'A' <= c <= 'F' then Some(c as int - 'A' as int + 10)
    else None
  }

  /** Which characters are hex digits, and of what value. */
  lemma DigitExactly(c: char, v: nat)
    ensures DigitValue(c) == Some(v) <==> v < 16 && ("0123456789abcdef"[v] == c || "0123456789ABCDEF"[v] == c)
  {
  }

  /** The value of a string of hex digits. */
  function HexValue(s: string): Option<nat>
  {
    if s == [] then Some(0)
    else
      var init, last := HexValue(s[..|s| - 1]), DigitValue(s[|s| - 1]);
      if init.None? || last.None? then None else Some(init.value * 16 + last.value)
  }

  /** strconv.ParseInt in base 16, on strings short enough not to overflow: a sign is allowed. */
  function ParseHex(s: string): Option<int>
  {
    if s == [] then None
    else if s[0] == '+' || s[0] == '-' then
      var n := HexValue(s[1..]);
      if |s| == 1 || n.None? then None
      else
        var v: int := if s[0] == '-' then 0 - n.value else n.value;
        Some(v)
    else
      var n := HexValue(s);
      if n.None? then None else Some(n.value)
  }

  lemma SignedHex(s: string)
    requires s != [] && HexValue(s).Some?
    ensures ParseHex(s) == ParseHex("+" + s) == Some(HexValue(s).value)
    ensures ParseHex("-" + s).Some? && ParseHex("-" + s).value + HexValue(s).value == 0
  {
    HexHasNoSign(s);
  }

  lemma {:induction false} HexHasNoSign(s: string)
    requires s != [] && HexValue(s).Some?
    ensures DigitValue(s[0]).Some?
  {
    if |s| > 1 {
      HexHasNoSign(s[..|s| - 1]);
    }
  }

  function Digit(n: nat): char
    requires n < 16
  {
    "0123456789abcdef"[n]
  }

  lemma DigitRoundTrip(n: nat)
    requires n < 16
    ensures DigitValue(Digit(n)) == Some(n)
  {
  }

  /** fmt's %x. */
  function Hex(n: nat): string
  {
    if n < 16 then [Digit(n)] else Hex(n / 16) + [Digit(n % 16)]
  }

  /** fmt's %04x. */
  function Hex4(n: nat): string
  {
    var h := Hex(n);
    if |h| >= 4 then h else seq(4 - |h|, _ => '0') + h
  }

  function FormatPktLine(data: string): string
  {
    Hex4(|data| + 4) + data
  }

  lemma ValueOfSnoc(h: string, c: char)
    requires HexValue(h).Some? && DigitValue(c).Some?
    ensures HexValue(h + [c]) == Some(HexValue(h).value * 16 + DigitValue(c).value)
  {
  }

  lemma HexOfSmall(n: nat)
    requires n < 16
    ensures HexValue(Hex(n)) == Some(n)
  {
    DigitRoundTrip(n);
    ValueOfSnoc("", Digit(n));
    assert "" + [Digit(n)] == Hex(n);
  }

  lemma Recombine(n: nat, q: nat, d: nat)
    requires q == n / 16 && d == n % 16
    ensures q * 16 + d == n
  {
  }

  lemma {:induction false} HexRoundTrip(n: nat)
    ensures HexValue(Hex(n)) == Some(n)
  {
    if n < 16 {
      HexOfSmall(n);
    } else {
      var q, d := n / 16, n % 16;
      HexRoundTrip(q);
      DigitRoundTrip(d);
      ValueOfSnoc(Hex(q), Digit(d));
      Recombine(n, q, d);
      assert Hex(n) == Hex(q) + [Digit(d)];
    }
  }

  lemma {:induction false} HexLength(n: nat, digits: nat, bound: nat)
    requires digits >= 1 && bound == Pow16(digits)
    ensures |Hex(n)| <= digits <==> n < bound
  {
    if digits > 1 && n >= 16 {
      HexLength(n / 16, digits - 1, Pow16(digits - 1));
    } else if n < 16 {
      Pow16Grows(digits);
    }
  }

  function Pow16(k: nat): nat
  {
    if k == 0 then 1 else 16 * Pow16(k - 1)
  }

  lemma Pow16Grows(k: nat)
    requires k >= 1
    ensures Pow16(k) >= 16
  {
  }

  lemma {:induction false} LeadingZeros(k: nat, s: string)
    ensures HexValue(seq(k, _ => '0') + s) == HexValue(s)
    decreases |s|, k
  {
    var padded := seq(k, _ => '0') + s;
    if s != [] {
      LeadingZeros(k, s[..|s| - 1]);
      assert padded[..|padded| - 1] == seq(k, _ => '0') + s[..|s| - 1];
    } else if k > 0 {
      LeadingZeros(k - 1, s);
      assert padded[..|padded| - 1] == seq(k - 1, _ => '0') + s;
    } else {
      assert padded == s;
    }
  }

  lemma {:induction false} HexIsLowerCase(n: nat)
    ensures forall i :: 0 <= i < |Hex(n)| ==> Hex(n)[i] in "0123456789abcdef"
  {
    if n >= 16 {
      HexIsLowerCase(n / 16);
    }
  }

  lemma HeadersAreLowerCase(n: nat)
    ensures forall i :: 0 <= i < |Hex4(n)| ==> Hex4(n)[i] in "0123456789abcdef"
  {
    HexIsLowerCase(n);
  }

  /** The length header takes four bytes exactly when the frame has at most 65535 bytes, and then
      parses back to the frame's length. */
  lemma LengthRoundTrip(n: nat)
    ensures |Hex4(n)| == 4 <==> n < 0x10000
    ensures ParseHex(Hex4(n)) == Some(n)
  {
    HexLength(n, 4, Pow16(4));
    assert Pow16(4) == 0x10000;
    HexRoundTrip(n);
    HexHasNoSign(Hex(n));
    if |Hex(n)| < 4 {
      LeadingZeros(4 - |Hex(n)|, Hex(n));
    }
  }

  // ----- parsing -----

  /** The update on one line; None for a line that is skipped. */
  function LineUpdate(raw: string): Option<RefUpdate>
  {
    var line := TrimRight(raw, '\n');
    var i := IndexOf(line, ' ');
    if i < 0 then None
    else
      var rest := line[i + 1..];
      var j := IndexOf(rest, ' ');
      if j < 0 || i != 40 || j != 40 then None
      else Some(RefUpdate(line[..i], rest[..j], Before(rest[j + 1..], NUL)))
  }

  function Updates(u: Option<RefUpdate>): seq<RefUpdate>
  {
    match u case None => [] case Some(x) => [x]
  }

  /** The frame at the head of `data`: its length, or None when parsing stops there. */
  function FrameLength(data: string): (n: Option<nat>)
    ensures n.Some? ==> 4 <= n.value <= |data|
  {
    if |data| < 4 then None
    else match ParseHex(data[..4])
      case None => None
      case Some(n) => if n < 4 || n > |data| then None else Some(n)
  }

  /** The updates of the frames in `data`, up to the flush or the first malformed frame. */
  function Parse(data: string): seq<RefUpdate>
  {
    var n := FrameLength(data);
    if n.None? then [] else Updates(LineUpdate(data[4..n.value])) + Parse(data[n.value..])
  }

  lemma OneFrame(data: string, n: nat)
    requires FrameLength(data) == Some(n)
    ensures Parse(data) == Updates(LineUpdate(data[4..n])) + Parse(data[n..])
  {
  }

  lemma EmptyFrame(data: string)
    requires FrameLength(data) == Some(4)
    ensures Parse(data) == Parse(data[4..])
  {
  }

  method ParseLine(raw: string) returns (u: Option<RefUpdate>)
    ensures u == LineUpdate(raw)
  {
    var line := TrimRight(raw, '\n');
    var i := IndexOf(line, ' ');
    if i < 0 {
      return None;
    }
    var newAndRef := line[i + 1..];
    var j := IndexOf(newAndRef, ' ');
    if j < 0 {
      return None;
    }
    var oldSHA, newSHA, ref := line[..i], newAndRef[..j], newAndRef[j + 1..];
    var idx := IndexOf(ref, NUL);
    if idx >= 0 {
      ref := ref[..idx];
    }
    if |oldSHA| != 40 || |newSHA| != 40 {
      return None;
    }
    return Some(RefUpdate(oldSHA, newSHA, ref));
  }

  method ParseRefUpdates(data: string) returns (refs: seq<RefUpdate>)
    ensures refs == Parse(data)
  {
    refs := [];
    var rest := data;
    while |rest| > 0
      invariant refs + Parse(rest) == Parse(data)
      decreases |rest|
    {
      if |rest| < 4 {
        break;
      }
      var n := ParseHex(rest[..4]);
      if n.None? || n.value <= 0 {
        break;
      }
      if n.value == 4 {
        EmptyFrame(rest);
        rest := rest[4..];
        continue;
      }
      if n.value < 4 {
        break;
      }
      if |rest| < n.value {
        break;
      }
      var u := ParseLine(rest[4..n.value]);
      OneFrame(rest, n.value);
      Reassociate(refs, Updates(u), Parse(rest[n.value..]));
      rest := rest[n.value..];
      refs := refs + Updates(u);
    }
  }

  // ----- round trip -----

  /** What may follow the ref on its line: newlines, or a NUL and anything (the capabilities). */
  predicate IsTail(ref: string, tail: string)
  {
    (tail != [] && tail[0] == '\0') ||
    ((forall i :: 0 <= i < |tail| ==> tail[i] == '\n') && (ref != [] ==> ref[|ref| - 1] != '\n'))
  }

  function Line(u: RefUpdate, tail: string): string
  {
    u.oldSHA + " " + u.newSHA + " " + u.ref + tail
  }

  predicate IsUpdate(u: RefUpdate, tail: string)
  {
    && |u.oldSHA| == 40 && ' ' !in u.oldSHA
    && |u.newSHA| == 40 && ' ' !in u.newSHA
    && '\0' !in u.ref && IsTail(u.ref, tail)
  }

  predicate Encodable(u: RefUpdate, tail: string)
  {
    IsUpdate(u, tail) && |Line(u, tail)| + 4 < 0x10000
  }

  /** The line without its trailing newlines. */
  function Kept(tail: string): string
  {
    if tail != [] && tail[0] == NUL then TrimRight(tail, '\n') else ""
  }

  lemma TrimLine(u: RefUpdate, tail: string)
    requires IsTail(u.ref, tail)
    ensures TrimRight(Line(u, tail), '\n') == Line(u, Kept(tail))
    ensures Kept(tail) != [] ==> Kept(tail)[0] == NUL
  {
    var whole, trimmed := Line(u, tail), Line(u, Kept(tail));
    assert trimmed[|trimmed| - 1] != '\n';
    assert trimmed <= whole;
    TrimRightUnique(whole, '\n', trimmed);
  }

  lemma SplitLine(oldSHA: string, newSHA: string, refPart: string)
    requires |oldSHA| == 40 && ' ' !in oldSHA && |newSHA| == 40 && ' ' !in newSHA
    ensures var line := oldSHA + " " + newSHA + " " + refPart;
            IndexOf(line, ' ') == 40 && IndexOf(line[41..], ' ') == 40 &&
            line[..40] == oldSHA && line[41..][..40] == newSHA && line[41..][41..] == refPart
  {
    var line := oldSHA + " " + newSHA + " " + refPart;
    var rest := newSHA + [' '] + refPart;
    assert line == oldSHA + [' '] + rest;
    IndexAfter(oldSHA, ' ', rest);
    IndexAfter(newSHA, ' ', refPart);
    assert line[41..] == rest;
  }

  lemma RefBeforeNul(ref: string, kept: string)
    requires NUL !in ref && (kept != [] ==> kept[0] == NUL)
    ensures Before(ref + kept, NUL) == ref
  {
    if kept != [] {
      assert ref + kept == ref + [NUL] + kept[1..];
      BeforeFirst(ref, NUL, kept[1..]);
    } else {
      assert ref + kept == ref;
      BeforeFirst(ref, NUL, "");
    }
  }

  lemma LineRoundTrip(u: RefUpdate, tail: string)
    requires IsUpdate(u, tail)
    ensures LineUpdate(Line(u, tail)) == Some(u)
  {
    TrimLine(u, tail);
    var kept := Kept(tail);
    assert Line(u, kept) == u.oldSHA + " " + u.newSHA + " " + (u.ref + kept);
    SplitLine(u.oldSHA, u.newSHA, u.ref + kept);
    RefBeforeNul(u.ref, kept);
  }

  lemma Assemble(line: string, rest: string, refPart: string)
    requires |line| >= 41 && line[40] == ' ' && rest == line[41..]
    requires |rest| >= 41 && rest[40] == ' ' && refPart == line[82..]
    ensures refPart == rest[41..] && line == line[..40] + " " + rest[..40] + " " + refPart
  {
    assert rest == rest[..40] + " " + rest[41..];
    assert line == line[..40] + " " + rest;
  }

  lemma FieldsOf(raw: string, line: string, rest: string)
    requires LineUpdate(raw).Some? && line == TrimRight(raw, '\n') && (|line| >= 41 ==> rest == line[41..])
    ensures |line| >= 41 && |rest| >= 41 && line[40] == ' ' && rest[40] == ' '
    ensures LineUpdate(raw).value == RefUpdate(line[..40], rest[..40], Before(rest[41..], NUL))
  {
  }

  lemma NoSpacesInIds(raw: string)
    requires LineUpdate(raw).Some?
    ensures ' ' !in LineUpdate(raw).value.oldSHA && ' ' !in LineUpdate(raw).value.newSHA
  {
  }

  /** The parts of a line that is read as an update. */
  lemma PartsOf(raw: string, line: string, refPart: string)
    requires LineUpdate(raw).Some? && line == TrimRight(raw, '\n') && refPart == line[82..]
    ensures |line| >= 82
    ensures var u := LineUpdate(raw).value;
            && |u.oldSHA| == 40 && ' ' !in u.oldSHA && |u.newSHA| == 40 && ' ' !in u.newSHA
            && u.ref == Before(refPart, NUL) && line == u.oldSHA + " " + u.newSHA + " " + refPart
  {
    var rest := if |line| >= 41 then line[41..] else "";
    FieldsOf(raw, line, rest);
    NoSpacesInIds(raw);
    Assemble(line, rest, refPart);
  }

  lemma TailFits(refPart: string, newlines: string) returns (tail: string)
    requires refPart != [] ==> refPart[|refPart| - 1] != '\n'
    requires forall i :: 0 <= i < |newlines| ==> newlines[i] == '\n'
    ensures '\0' !in Before(refPart, NUL) && IsTail(Before(refPart, NUL), tail)
    ensures refPart + newlines == Before(refPart, NUL) + tail
  {
    var ref := Before(refPart, NUL);
    tail := refPart[|ref|..] + newlines;
    assert refPart == ref + refPart[|ref|..];
  }

  /** What follows the ref on a line that is read as an update. */
  lemma TailOf(raw: string) returns (tail: string)
    requires LineUpdate(raw).Some?
    ensures IsUpdate(LineUpdate(raw).value, tail) && raw == Line(LineUpdate(raw).value, tail)
  {
    var u, line := LineUpdate(raw).value, TrimRight(raw, '\n');
    var refPart, newlines := line[82..], raw[|line|..];
    PartsOf(raw, line, refPart);
    assert refPart != [] ==> refPart[|refPart| - 1] == line[|line| - 1];
    tail := TailFits(refPart, newlines);
    assert raw == line + newlines;
    Reassociate(u.oldSHA + " " + u.newSHA + " ", refPart, newlines);
    Reassociate(u.oldSHA + " " + u.newSHA + " ", u.ref, tail);
  }

  /** Which lines are read as updates: exactly those of two ids of 40 bytes without spaces, then a
      ref, then newlines or a NUL and anything. Every other line is skipped. */
  lemma LineExactly(raw: string, u: RefUpdate)
    ensures LineUpdate(raw) == Some(u) <==>
            && |u.oldSHA| == 40 && ' ' !in u.oldSHA
            && |u.newSHA| == 40 && ' ' !in u.newSHA
            && '\0' !in u.ref
            && exists tail :: raw == u.oldSHA + " " + u.newSHA + " " + u.ref + tail && IsTail(u.ref, tail)
  {
    if LineUpdate(raw) == Some(u) {
      var tail := TailOf(raw);
      assert raw == u.oldSHA + " " + u.newSHA + " " + u.ref + tail && IsTail(u.ref, tail);
    } else if tail :| IsUpdate(u, tail) && raw == u.oldSHA + " " + u.newSHA + " " + u.ref + tail {
      LineRoundTrip(u, tail);
    }
  }

  // ----- frames -----

  /** The updates among `lines`, in order. */
  function Among(lines: seq<string>): seq<RefUpdate>
  {
    if lines == [] then [] else Among(lines[..|lines| - 1]) + Updates(LineUpdate(lines[|lines| - 1]))
  }

  lemma {:induction false} AmongFirst(line: string, lines: seq<string>)
    ensures Among([line] + lines) == Updates(LineUpdate(line)) + Among(lines)
  {
    if lines == [] {
      assert [line] + lines == [line] && [line][..0] == [];
      assert Among([]) == [];
    } else {
      var n := |lines| - 1;
      AmongFirst(line, lines[..n]);
      var all := [line] + lines;
      assert all[..n + 1] == [line] + lines[..n] && all[n + 1] == lines[n];
      assert Among(all) == Among([line] + lines[..n]) + Updates(LineUpdate(lines[n]));
      Reassociate(Updates(LineUpdate(line)), Among(lines[..n]), Updates(LineUpdate(lines[n])));
    }
  }

  function UpdateOf(): string -> Option<RefUpdate>
  {
    line => LineUpdate(line)
  }

  lemma {:induction false} AmongInOrder(lines: seq<string>)
    ensures Selects(lines, Among(lines), UpdateOf())
  {
    if lines == [] {
      SelectsNothing(UpdateOf());
    } else {
      AmongInOrder(lines[..|lines| - 1]);
      SelectsOneMore(lines, Among(lines[..|lines| - 1]), UpdateOf(), Among(lines));
    }
  }

  /** A header of four bytes and the line whose length it gives. */
  datatype Frame = Frame(header: string, line: string)

  predicate IsFrame(f: Frame)
  {
    |f.header| == 4 && ParseHex(f.header) == Some(|f.line| + 4)
  }

  function Framed(frames: seq<Frame>): string
  {
    if frames == [] then "" else frames[0].header + frames[0].line + Framed(frames[1..])
  }

  function LinesOf(frames: seq<Frame>): seq<string>
  {
    if frames == [] then [] else [frames[0].line] + LinesOf(frames[1..])
  }

  /** Not a frame: too short, no length, a flush or another length below 4, or one past the end. */
  predicate Stops(rest: string)
  {
    |rest| < 4 ||
    match ParseHex(rest[..4]) case None => true case Some(n) => n < 4 || n > |rest|
  }

  lemma FrameParses(f: Frame, more: string)
    requires IsFrame(f)
    ensures Parse(f.header + f.line + more) == Updates(LineUpdate(f.line)) + Parse(more)
  {
    var data := f.header + f.line + more;
    var n := |f.line| + 4;
    assert data[..4] == f.header && data[4..n] == f.line && data[n..] == more;
    assert FrameLength(data) == Some(n);
    OneFrame(data, n);
  }

  /** Frames parse to the updates among their lines; what is not a frame ends the parse. */
  lemma {:induction false} FramesParse(frames: seq<Frame>, rest: string)
    requires (forall i :: 0 <= i < |frames| ==> IsFrame(frames[i])) && Stops(rest)
    ensures Parse(Framed(frames) + rest) == Among(LinesOf(frames))
  {
    if frames == [] {
      assert Framed(frames) + rest == rest;
    } else {
      var f, more := frames[0], Framed(frames[1..]) + rest;
      assert Framed(frames) + rest == f.header + f.line + more;
      FrameParses(f, more);
      FramesParse(frames[1..], rest);
      AmongFirst(f.line, LinesOf(frames[1..]));
    }
  }

  lemma {:induction false} SplitFrames(data: string) returns (frames: seq<Frame>, rest: string)
    ensures data == Framed(frames) + rest && Stops(rest)
    ensures forall i :: 0 <= i < |frames| ==> IsFrame(frames[i])
    decreases |data|
  {
    if Stops(data) {
      frames, rest := [], data;
    } else {
      var n := ParseHex(data[..4]).value;
      var f := Frame(data[..4], data[4..n]);
      var others: seq<Frame>;
      others, rest := SplitFrames(data[n..]);
      frames := [f] + others;
      assert data == f.header + f.line + data[n..];
      assert Framed(frames) == f.header + f.line + Framed(others);
    }
  }

  /** What any input parses to: it is frames and then something that is no frame, and the result
      is exactly the updates among the lines of the frames, in order. */
  lemma ParseIsExact(data: string) returns (frames: seq<Frame>, rest: string)
    ensures data == Framed(frames) + rest && Stops(rest)
    ensures forall i :: 0 <= i < |frames| ==> IsFrame(frames[i])
    ensures Selects(LinesOf(frames), Parse(data), UpdateOf())
  {
    frames, rest := SplitFrames(data);
    FramesParse(frames, rest);
    AmongInOrder(LinesOf(frames));
  }

  // ----- printed frames -----

  function EncodeLines(lines: seq<string>): string
  {
    if lines == [] then "" else FormatPktLine(lines[0]) + EncodeLines(lines[1..])
  }

  function Printed(line: string): Frame
  {
    Frame(Hex4(|line| + 4), line)
  }

  function PrintedFrames(lines: seq<string>): seq<Frame>
  {
    if lines == [] then [] else [Printed(lines[0])] + PrintedFrames(lines[1..])
  }

  lemma {:induction false} PrintedAsFrames(lines: seq<string>)
    ensures EncodeLines(lines) == Framed(PrintedFrames(lines)) && LinesOf(PrintedFrames(lines)) == lines
  {
    if lines != [] {
      PrintedAsFrames(lines[1..]);
    }
  }

  lemma {:induction false} PrintedAreFrames(lines: seq<string>)
    requires forall i :: 0 <= i < |lines| ==> |lines[i]| + 4 < 0x10000
    ensures forall i :: 0 <= i < |PrintedFrames(lines)| ==> IsFrame(PrintedFrames(lines)[i])
  {
    if lines != [] {
      PrintedAreFrames(lines[1..]);
      LengthRoundTrip(|lines[0]| + 4);
      assert IsFrame(Printed(lines[0]));
    }
  }

  lemma FlushStops(pack: string)
    ensures Stops("0000" + pack)
  {
    assert ("0000" + pack)[..4] == "0000";
    assert HexValue("0000") == Some(0) by {
      LeadingZeros(4, "");
      assert seq(4, _ => '0') + "" == "0000";
    }
  }

  /** Any lines, framed, then a flush and any pack bytes, parse to exactly the updates among them:
      a line of another shape, as the shallow lines of a push from a shallow clone, adds nothing. */
  lemma LinesRoundTrip(lines: seq<string>, pack: string)
    requires forall i :: 0 <= i < |lines| ==> |lines[i]| + 4 < 0x10000
    ensures Parse(EncodeLines(lines) + "0000" + pack) == Among(lines)
    ensures Selects(lines, Among(lines), UpdateOf())
  {
    var frames := PrintedFrames(lines);
    PrintedAsFrames(lines);
    PrintedAreFrames(lines);
    FlushStops(pack);
    FramesParse(frames, "0000" + pack);
    assert EncodeLines(lines) + "0000" + pack == Framed(frames) + ("0000" + pack);
    AmongInOrder(lines);
  }

  function UpdateLines(updates: seq<(RefUpdate, string)>): (lines: seq<string>)
    ensures |lines| == |updates| && forall i :: 0 <= i < |lines| ==> lines[i] == Line(updates[i].0, updates[i].1)
  {
    if updates == [] then []
    else UpdateLines(updates[..|updates| - 1]) + [Line(updates[|updates| - 1].0, updates[|updates| - 1].1)]
  }

  function Encode(updates: seq<(RefUpdate, string)>): string
  {
    EncodeLines(UpdateLines(updates))
  }

  function Plain(updates: seq<(RefUpdate, string)>): (us: seq<RefUpdate>)
    ensures |us| == |updates| && forall i :: 0 <= i < |us| ==> us[i] == updates[i].0
  {
    if updates == [] then [] else Plain(updates[..|updates| - 1]) + [updates[|updates| - 1].0]
  }

  lemma {:induction false} AllAmong(updates: seq<(RefUpdate, string)>)
    requires forall i :: 0 <= i < |updates| ==> IsUpdate(updates[i].0, updates[i].1)
    ensures Among(UpdateLines(updates)) == Plain(updates)
  {
    if updates != [] {
      var n := |updates| - 1;
      AllAmong(updates[..n]);
      LineRoundTrip(updates[n].0, updates[n].1);
      assert UpdateLines(updates)[..n] == UpdateLines(updates[..n]);
    }
  }

  /** Framing any list of updates, with or without capabilities, then a flush and any pack bytes,
      parses back to exactly that list. */
  lemma ParseRoundTrip(updates: seq<(RefUpdate, string)>, pack: string)
    requires forall i :: 0 <= i < |updates| ==> Encodable(updates[i].0, updates[i].1)
    ensures Parse(Encode(updates) + "0000" + pack) == Plain(updates)
  {
    LinesRoundTrip(UpdateLines(updates), pack);
    AllAmong(updates);
  }

  lemma CutFrame(data: string, k: nat)
    requires k <= |data| && FrameLength(data[..k]).Some?
    ensures FrameLength(data) == FrameLength(data[..k])
    ensures var n := FrameLength(data).value;
            data[..k][4..n] == data[4..n] && data[..k][n..] == data[n..][..k - n]
  {
    assert data[..k][..4] == data[..4];
  }

  lemma SamePrefix<T>(head: seq<T>, a: seq<T>, b: seq<T>)
    requires a <= b
    ensures head + a <= head + b
  {
  }

  /** Any truncation of any input parses to a prefix of what the whole input parses to. */
  lemma {:induction false} TruncationParsesToPrefix(data: string, k: nat)
    requires k <= |data|
    ensures Parse(data[..k]) <= Parse(data)
    decreases |data|
  {
    if FrameLength(data[..k]).Some? {
      CutFrame(data, k);
      var n := FrameLength(data).value;
      TruncationParsesToPrefix(data[n..], k - n);
      OneFrame(data, n);
      OneFrame(data[..k], n);
      SamePrefix(Updates(LineUpdate(data[4..n])), Parse(data[n..][..k - n]), Parse(data[n..]));
    }
  }
}
