/** How a script body is cut into lines (src/cli/commands/cmd_run.c), and lines joined into a body (cmd_script.c). */
module ScriptText {
  import opened Bytes
  import opened CLib

  const LINE_MAX: nat := 256
  const HASH: byte := 35

  predicate IsNewline(c: byte) { c == LF || c == CR }

  /** The first position from `off` on that ends a line which already has `ll` characters. */
  function LineEnd(body: seq<byte>, off: nat, ll: nat): (e: nat)
    requires off <= |body| && ll < LINE_MAX
    ensures off <= e <= |body| && e - off + ll < LINE_MAX
    decreases |body| - off
  {
    if off < |body| && !IsNewline(body[off]) && ll < LINE_MAX - 1 then LineEnd(body, off + 1, ll + 1) else off
  }

  function SkipNewlines(body: seq<byte>, off: nat): (e: nat)
    requires off <= |body|
    ensures off <= e <= |body| && (off < |body| && IsNewline(body[off]) ==> off < e)
    decreases |body| - off
  {
    if off < |body| && IsNewline(body[off]) then SkipNewlines(body, off + 1) else off
  }

  /** Blank lines and comments. */
  predicate Ignored(line: seq<byte>) {
    var t := SkipWs(line);
    t == [] || t[0] == HASH
  }

  /** The first character of `line` that is neither a space nor a tab stands at `k`. */
  predicate Leads(line: seq<byte>, k: nat) {
    && k < |line| && line[k] != SPACE && line[k] != TAB
    && forall i :: 0 <= i < k ==> line[i] == SPACE || line[i] == TAB
  }

  /** A line that has a first character other than blanks, and that is not `#`. */
  ghost predicate Command(line: seq<byte>) { exists k: nat :: Leads(line, k) && line[k] != HASH }

  lemma HashSpelled()
    ensures Spells([HASH, LF, CR], "#\n\r")
  {
  }

  lemma {:induction false} LeadIs(line: seq<byte>, k: nat)
    requires Leads(line, k)
    ensures SkipWs(line) == line[k..]
  {
    if k > 0 {
      LeadIs(line[1..], k - 1);
    }
  }

  /** A line with no such character is blanks only. */
  lemma {:induction false} NoLead(line: seq<byte>) returns (k: nat)
    ensures k <= |line| && (if k < |line| then Leads(line, k) else SkipWs(line) == [])
  {
    if line == [] || !IsWs(line[0]) {
      k := 0;
    } else {
      var j := NoLead(line[1..]);
      k := j + 1;
    }
  }

  /** Ignored are exactly the lines that are no commands. */
  lemma IgnoredMeans(line: seq<byte>)
    ensures Ignored(line) <==> !Command(line)
  {
    var k := NoLead(line);
    if k < |line| {
      LeadIs(line, k);
    }
    forall j: nat | Leads(line, j) ensures SkipWs(line) == line[j..] {
      LeadIs(line, j);
    }
  }

  /** What a line counts for: itself, or nothing. */
  function Shown(line: seq<byte>): seq<seq<byte>> { if Ignored(line) then [] else [line] }

  function EndOfLine(body: seq<byte>, off: nat): (e: nat)
    requires off < |body|
    ensures off <= e <= |body| && e - off < LINE_MAX && (e == off ==> IsNewline(body[off]))
  {
    LineEnd(body, off, 0)
  }

  /** A line, as the C string in its buffer - a NUL ends it early - and where the next one starts. */
  datatype Cut = Cut(line: seq<byte>, next: nat)

  /** The countdown keeps the verifier from expanding it. */
  function CutAt(body: seq<byte>, off: nat, countdown: nat := 4): (c: Cut)
    requires off < |body|
    ensures off < c.next <= |body|
  {
    if countdown > 0 then CutAt(body, off, countdown - 1)
    else
      var e := EndOfLine(body, off);
      Cut(CString(body[off..e], 0), SkipNewlines(body, e))
  }

  lemma CutIs(body: seq<byte>, off: nat)
    requires off < |body|
    ensures var e := EndOfLine(body, off); CutAt(body, off) == Cut(CString(body[off..e], 0), SkipNewlines(body, e))
  {
    assert CutAt(body, off, 2) == CutAt(body, off, 1) == CutAt(body, off, 0);
    assert CutAt(body, off, 4) == CutAt(body, off, 3) == CutAt(body, off, 2);
  }

  /** The lines that are dispatched, from `off` on. */
  function Lines(body: seq<byte>, off: nat): seq<seq<byte>>
    requires off <= |body|
    decreases |body| - off
  {
    if off == |body| then []
    else Shown(CutAt(body, off).line) + Lines(body, CutAt(body, off).next)
  }

  // ---- Joining -------------------------------------------------------------------------

  /** A line as the shell assembles it: printable characters, at most 255. */
  predicate Typed(line: seq<byte>) {
    |line| <= 255 && forall i :: 0 <= i < |line| ==> line[i] >= 32
  }

  /** Newline characters, at least one. */
  predicate Newlines(nl: seq<byte>) { nl != [] && forall i :: 0 <= i < |nl| ==> nl[i] == LF || nl[i] == CR }

  /** Lines, each followed by its newlines; the last one may have none. */
  function JoinedBy(lines: seq<seq<byte>>, ends: seq<seq<byte>>): seq<byte>
    requires |ends| == |lines|
  {
    if lines == [] then [] else lines[0] + (ends[0] + JoinedBy(lines[1..], ends[1..]))
  }

  predicate EndedBy(ends: seq<seq<byte>>) {
    forall i :: 0 <= i < |ends| ==> Newlines(ends[i]) || (i == |ends| - 1 && ends[i] == [])
  }

  /** The captured lines, each followed by a newline. */
  function Joined(lines: seq<seq<byte>>): seq<byte> {
    if lines == [] then [] else lines[0] + ([LF] + Joined(lines[1..]))
  }

  /** The commands among the lines, in order. */
  ghost function Commands(lines: seq<seq<byte>>): seq<seq<byte>> {
    if lines == [] then [] else (if Command(lines[0]) then [lines[0]] else []) + Commands(lines[1..])
  }

  lemma {:induction false} AllCommands(lines: seq<seq<byte>>)
    requires forall i :: 0 <= i < |lines| ==> Command(lines[i])
    ensures Commands(lines) == lines
  {
    if lines != [] {
      AllCommands(lines[1..]);
      assert [lines[0]] + lines[1..] == lines;
    }
  }

  lemma {:induction false} LineEndIs(body: seq<byte>, off: nat, ll: nat, e: nat)
    requires off <= e < |body| && ll + e - off < LINE_MAX && IsNewline(body[e])
    requires forall i :: off <= i < e ==> !IsNewline(body[i])
    ensures LineEnd(body, off, ll) == e
    decreases e - off
  {
    if off < e {
      LineEndIs(body, off + 1, ll + 1, e);
    }
  }

  /** Reading on from a position depends on the rest of the body only. */
  lemma {:induction false} LineEndShift(a: seq<byte>, b: seq<byte>, off: nat, ll: nat)
    requires off <= |b| && ll < LINE_MAX
    ensures LineEnd(a + b, |a| + off, ll) == |a| + LineEnd(b, off, ll)
    decreases |b| - off
  {
    if off < |b| && !IsNewline(b[off]) && ll < LINE_MAX - 1 {
      LineEndShift(a, b, off + 1, ll + 1);
    }
  }

  lemma {:induction false} SkipShift(a: seq<byte>, b: seq<byte>, off: nat)
    requires off <= |b|
    ensures SkipNewlines(a + b, |a| + off) == |a| + SkipNewlines(b, off)
    decreases |b| - off
  {
    if off < |b| && IsNewline(b[off]) {
      SkipShift(a, b, off + 1);
    }
  }

  lemma CutShift(a: seq<byte>, b: seq<byte>, off: nat)
    requires off < |b|
    ensures CutAt(a + b, |a| + off) == Cut(CutAt(b, off).line, |a| + CutAt(b, off).next)
  {
    CutIs(a + b, |a| + off);
    CutIs(b, off);
    LineEndShift(a, b, off, 0);
    var e := EndOfLine(b, off);
    assert (a + b)[|a| + off..|a| + e] == b[off..e];
    SkipShift(a, b, e);
  }

  lemma {:induction false} LinesShift(a: seq<byte>, b: seq<byte>, off: nat)
    requires off <= |b|
    ensures Lines(a + b, |a| + off) == Lines(b, off)
    decreases |b| - off
  {
    if off < |b| {
      CutShift(a, b, off);
      LinesShift(a, b, CutAt(b, off).next);
    }
  }

  lemma IgnoredEmpty()
    ensures Ignored([])
  {
  }

  /** Newlines in front of a body start no line. */
  lemma {:induction false} LinesSkip(body: seq<byte>, off: nat)
    requires off <= |body|
    ensures Lines(body, SkipNewlines(body, off)) == Lines(body, off)
    decreases |body| - off
  {
    if off < |body| && IsNewline(body[off]) {
      CutIs(body, off);
      assert EndOfLine(body, off) == off && body[off..off] == [];
      IgnoredEmpty();
      assert Lines(body, off) == [] + Lines(body, CutAt(body, off).next);
    }
  }

  lemma TypedClean(line: seq<byte>)
    requires Typed(line)
    ensures NoNul(line) && forall i :: 0 <= i < |line| ==> !IsNewline(line[i])
  {
  }

  lemma {:induction false} SkipAll(body: seq<byte>, off: nat, end: nat)
    requires off <= end <= |body| && forall i :: off <= i < end ==> IsNewline(body[i])
    ensures SkipNewlines(body, off) == SkipNewlines(body, end)
    decreases end - off
  {
    if off < end {
      SkipAll(body, off + 1, end);
    }
  }

  lemma NewlineRun(line: seq<byte>, nl: seq<byte>, rest: seq<byte>)
    requires Newlines(nl)
    ensures var body := line + (nl + rest);
      && (forall i :: |line| <= i < |line| + |nl| ==> IsNewline(body[i]))
      && SkipNewlines(body, |line|) == SkipNewlines(body, |line| + |nl|)
  {
    var body := line + (nl + rest);
    forall i | |line| <= i < |line| + |nl| ensures IsNewline(body[i]) {
      assert body[i] == nl[i - |line|];
    }
    SkipAll(body, |line|, |line| + |nl|);
  }

  lemma FirstBreak(line: seq<byte>, nl: seq<byte>, rest: seq<byte>)
    requires Typed(line) && Newlines(nl)
    ensures var body := line + (nl + rest);
      EndOfLine(body, 0) == |line| && SkipNewlines(body, |line|) == SkipNewlines(body, |line| + |nl|)
  {
    var body := line + (nl + rest);
    NewlineRun(line, nl, rest);
    forall i | 0 <= i < |line| ensures !IsNewline(body[i]) {
      assert body[i] == line[i];
    }
    LineEndIs(body, 0, 0, |line|);
  }

  lemma LastBreak(line: seq<byte>)
    requires Typed(line) && line != []
    ensures EndOfLine(line, 0) == |line| && line + ([] + []) == line
  {
    TypedClean(line);
    LineEndLast(line, 0, 0);
  }

  lemma FirstLine(line: seq<byte>, nl: seq<byte>, rest: seq<byte>)
    requires Typed(line) && (Newlines(nl) || (nl == rest == [] && line != []))
    ensures var body := line + (nl + rest);
      CutAt(body, 0) == Cut(line, SkipNewlines(body, |line| + |nl|))
  {
    var body := line + (nl + rest);
    if nl == [] {
      LastBreak(line);
    } else {
      FirstBreak(line, nl, rest);
    }
    CutIs(body, 0);
    assert body[0..|line|] == line;
    TypedClean(line);
    NoNulText(line, 0);
    assert line[0..] == line;
  }

  /** A last line without a newline ends with the body. */
  lemma {:induction false} LineEndLast(body: seq<byte>, off: nat, ll: nat)
    requires off <= |body| && ll + |body| - off < LINE_MAX && forall i :: off <= i < |body| ==> !IsNewline(body[i])
    ensures LineEnd(body, off, ll) == |body|
    decreases |body| - off
  {
    if off < |body| {
      LineEndLast(body, off + 1, ll + 1);
    }
  }

  lemma LinesAfter(line: seq<byte>, nl: seq<byte>, rest: seq<byte>)
    ensures Lines(line + (nl + rest), |line| + |nl|) == Lines(rest, 0)
  {
    ConcatAssociates(line, nl, rest);
    LinesShift(line + nl, rest, 0);
  }

  lemma LinesFrom(body: seq<byte>, c: Cut)
    requires body != [] && CutAt(body, 0).line == c.line && c.next <= |body|
    requires CutAt(body, 0).next == SkipNewlines(body, c.next)
    ensures Lines(body, 0) == Shown(c.line) + Lines(body, c.next)
  {
    LinesSkip(body, c.next);
  }

  lemma LinesFirst(line: seq<byte>, nl: seq<byte>, rest: seq<byte>)
    requires Typed(line) && (Newlines(nl) || (nl == rest == [] && line != []))
    ensures Lines(line + (nl + rest), 0) == Shown(line) + Lines(rest, 0)
  {
    FirstLine(line, nl, rest);
    LinesFrom(line + (nl + rest), Cut(line, |line| + |nl|));
    LinesAfter(line, nl, rest);
  }

  /** A line longer than 255 characters is cut: the rest of it is the next line. */
  lemma LongLine(body: seq<byte>)
    requires |body| >= 256 && forall i :: 0 <= i < 256 ==> body[i] >= 32
    ensures CutAt(body, 0) == Cut(body[..255], 255)
  {
    LineEndFull(body, 0);
    CutIs(body, 0);
    assert body[0..255] == body[..255];
    NoNulText(body[..255], 0);
    assert body[..255][0..] == body[..255];
  }

  lemma {:induction false} LineEndFull(body: seq<byte>, off: nat)
    requires |body| >= 256 && off <= 255 && forall i :: 0 <= i < 256 ==> !IsNewline(body[i])
    ensures LineEnd(body, off, off) == 255
    decreases 255 - off
  {
    if off < 255 {
      LineEndFull(body, off + 1);
    }
  }

  /** A body of lines, with whatever newlines, is cut into those lines; the commands among them are dispatched in order. */
  lemma {:induction false} LinesCut(lines: seq<seq<byte>>, ends: seq<seq<byte>>)
    requires |ends| == |lines| && EndedBy(ends) && forall l :: l in lines ==> Typed(l)
    ensures Lines(JoinedBy(lines, ends), 0) == Commands(lines)
  {
    if lines != [] {
      LinesCut(lines[1..], ends[1..]);
      IgnoredMeans(lines[0]);
      if lines[0] == [] && ends[0] == [] {
        assert JoinedBy(lines[1..], ends[1..]) == [];
        assert JoinedBy(lines, ends) == [];
      } else {
        LinesFirst(lines[0], ends[0], JoinedBy(lines[1..], ends[1..]));
      }
    }
  }

  /** Captured lines joined into a body and cut again are the commands among them, in order. */
  lemma {:induction false} JoinedLines(lines: seq<seq<byte>>)
    requires forall l :: l in lines ==> Typed(l)
    ensures Lines(Joined(lines), 0) == Commands(lines)
  {
    if lines != [] {
      JoinedLines(lines[1..]);
      IgnoredMeans(lines[0]);
      LinesFirst(lines[0], [LF], Joined(lines[1..]));
    }
  }

  // ---- The code ------------------------------------------------------------------

  /** One line into the buffer, terminated; the cursor moves past the newlines after it. */
  method ReadLine(body: seq<byte>, off0: nat, line: array<byte>) returns (off: nat)
    requires off0 < |body| && line.Length == LINE_MAX
    modifies line
    ensures off == CutAt(body, off0).next
    ensures var l := body[off0..EndOfLine(body, off0)];
      line[..|l|] == l && line[|l|] == 0
  {
    CutIs(body, off0);
    off := off0;
    var ll := 0;
    while off < |body| && !IsNewline(body[off]) && ll < LINE_MAX - 1
      invariant off0 <= off <= |body| && ll == off - off0 < LINE_MAX && LineEnd(body, off, ll) == EndOfLine(body, off0)
      invariant line[..ll] == body[off0..off]
    {
      line[ll] := body[off];
      ll, off := ll + 1, off + 1;
    }
    line[ll] := 0;
    ghost var e := off;
    while off < |body| && IsNewline(body[off])
      invariant e <= off <= |body| && SkipNewlines(body, off) == SkipNewlines(body, e)
    {
      off := off + 1;
    }
  }
}
