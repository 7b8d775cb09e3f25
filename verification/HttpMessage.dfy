/** Response heads as a server writes them, and what the client reads from them. */
module HttpMessage {
  import opened Bytes
  import opened CLib
  import opened HttpHead

  const CRLF: seq<byte> := [CR, LF]

  // ---- Writing ---------------------------------------------------------------------

  /** A header line: a Content-Length in any letter case with any blanks before its number, or some other line. */
  datatype Field = Plain(line: seq<byte>) | Length(name: seq<byte>, gap: seq<byte>, n: nat)

  predicate Clean(t: seq<byte>) { forall i :: 0 <= i < |t| ==> t[i] != 0 && t[i] != CR }

  predicate Blanks(t: seq<byte>) { forall i :: 0 <= i < |t| ==> t[i] == SPACE || t[i] == TAB }

  predicate GoodField(f: Field) {
    match f
    case Plain(line) => line != [] && Clean(line) && !NamesLength(line)
    case Length(name, gap, n) => |name| == 15 && NamesLength(name) && Blanks(gap) && n <= ULONG_MAX
  }

  function Line(f: Field): seq<byte> {
    match f
    case Plain(line) => line
    case Length(name, gap, n) => name + (gap + Decimal(n))
  }

  function Fields(fs: seq<Field>): seq<byte> {
    if fs == [] then CRLF else Line(fs[0]) + (CRLF + Fields(fs[1..]))
  }

  /** Everything after "HTTP/1." and the minor version. */
  function Reply(code: nat, reason: seq<byte>): seq<byte> { [SPACE] + (Decimal(code) + ([SPACE] + reason)) }

  function Head(minor: byte, code: nat, reason: seq<byte>, fs: seq<Field>): seq<byte> {
    HTTP_1 + [minor] + Reply(code, reason) + (CRLF + Fields(fs))
  }

  predicate GoodHead(minor: byte, reason: seq<byte>, fs: seq<Field>) {
    minor != 0 && minor != CR && minor != SPACE && Clean(reason) && forall f :: f in fs ==> GoodField(f)
  }

  /** The last Content-Length, or `acc` when there is none. */
  function LastLength(fs: seq<Field>, acc: nat): nat {
    if fs == [] then acc else LastLength(fs[1..], if fs[0].Length? then fs[0].n else acc)
  }

  // ---- Numbers ---------------------------------------------------------------------

  lemma StrtoulReads(n: nat, rest: seq<byte>)
    requires n <= ULONG_MAX && !StartsDigit(rest)
    ensures Strtoul(Decimal(n) + rest) == n && SkipWs(Decimal(n) + rest) == Decimal(n) + rest
  {
    DecimalStarts(n, rest);
    NumberReads(n, rest);
  }

  lemma AtoiReads(n: nat, rest: seq<byte>)
    requires !StartsDigit(rest)
    ensures 200 <= Atoi(Decimal(n) + rest) < 300 <==> 200 <= n < 300
  {
    DecimalStarts(n, rest);
    NumberReads(n, rest);
  }

  // ---- Lines -----------------------------------------------------------------------

  lemma CleanDecimal(n: nat)
    ensures Clean(Decimal(n))
  {
  }

  lemma CleanAppend(a: seq<byte>, b: seq<byte>)
    requires Clean(a) && Clean(b)
    ensures Clean(a + b)
  {
  }

  lemma LetterClean(c: byte, p: byte)
    requires InEitherCase(c, p) && p in CONTENT_LENGTH
    ensures c != 0 && c != CR
  {
  }

  lemma LineClean(f: Field)
    requires GoodField(f)
    ensures Clean(Line(f)) && Line(f) != []
  {
    if f.Length? {
      forall i | 0 <= i < 15 ensures f.name[i] != 0 && f.name[i] != CR {
        LetterClean(f.name[i], CONTENT_LENGTH[i]);
      }
      CleanDecimal(f.n);
      CleanAppend(f.gap, Decimal(f.n));
      CleanAppend(f.name, f.gap + Decimal(f.n));
    }
  }

  /** The next line break after a clean line is the one that ends it. */
  lemma {:induction false} NextBreak(a: seq<byte>, rest: seq<byte>)
    requires Clean(a)
    ensures FromCrlf(a + (CRLF + rest)) == Some(CRLF + rest)
  {
    var t := a + (CRLF + rest);
    if a == [] {
      assert t == CRLF + rest && AtCrlf(t);
    } else {
      assert t[0] == a[0] && t[1..] == a[1..] + (CRLF + rest);
      NextBreak(a[1..], rest);
    }
  }

  lemma {:induction false} BlanksSkipped(gap: seq<byte>, t: seq<byte>)
    requires Blanks(gap)
    ensures SkipWs(gap + t) == SkipWs(t)
  {
    if gap == [] {
      assert gap + t == t;
    } else {
      assert (gap + t)[1..] == gap[1..] + t;
      BlanksSkipped(gap[1..], t);
    }
  }

  lemma PlainKeepsLength(line: seq<byte>, rest: seq<byte>)
    requires Clean(line) && !NamesLength(line)
    ensures !CiStartsWith(line + (CRLF + rest), CONTENT_LENGTH)
  {
    var t := line + (CRLF + rest);
    NameFound(t);
    if |line| < 15 {
      assert t[|line|] == CR;
      CrDiffers(CONTENT_LENGTH[|line|]);
    } else {
      var i :| 0 <= i < 15 && !InEitherCase(line[i], CONTENT_LENGTH[i]);
      assert t[i] == line[i];
    }
  }

  lemma CrDiffers(p: byte)
    requires p in CONTENT_LENGTH
    ensures !InEitherCase(CR, p)
  {
  }

  lemma LengthLine(f: Field, rest: seq<byte>, acc: nat)
    requires f.Length? && GoodField(f)
    ensures LengthAt(Line(f) + (CRLF + rest), acc) == f.n
  {
    var end := CRLF + rest;
    NameSkipped(f.name, f.gap, Decimal(f.n), end);
    BlanksSkipped(f.gap, Decimal(f.n) + end);
    StrtoulReads(f.n, end);
  }

  lemma NameSkipped(name: seq<byte>, gap: seq<byte>, digits: seq<byte>, end: seq<byte>)
    requires |name| == 15 && NamesLength(name)
    ensures var t := name + (gap + digits) + end;
      t[15..] == gap + (digits + end) && CiStartsWith(t, CONTENT_LENGTH)
  {
    NameFound(name);
  }

  lemma LineRead(f: Field, rest: seq<byte>, acc: nat)
    requires GoodField(f)
    ensures var t := Line(f) + (CRLF + rest);
      t != [] && !AtCrlf(t) && FromCrlf(t) == Some(CRLF + rest) && LengthAt(t, acc) == if f.Length? then f.n else acc
  {
    LineClean(f);
    NextBreak(Line(f), rest);
    var t := Line(f) + (CRLF + rest);
    assert t[0] == Line(f)[0];
    if f.Length? {
      LengthLine(f, rest, acc);
    } else {
      PlainKeepsLength(f.line, rest);
    }
  }

  lemma {:induction false} FieldsRead(fs: seq<Field>, acc: nat)
    requires forall f :: f in fs ==> GoodField(f)
    ensures LengthFrom(Fields(fs), acc) == LastLength(fs, acc)
    decreases |fs|
  {
    if fs != [] {
      var rest := Fields(fs[1..]);
      LineRead(fs[0], rest, acc);
      assert (CRLF + rest)[2..] == rest;
      FieldsRead(fs[1..], LengthAt(Line(fs[0]) + (CRLF + rest), acc));
    }
  }

  // ---- The head --------------------------------------------------------------------

  lemma {:induction false} FieldsNoNul(fs: seq<Field>)
    requires forall f :: f in fs ==> GoodField(f)
    ensures NoNul(Fields(fs)) && |Fields(fs)| >= 2
  {
    if fs != [] {
      LineClean(fs[0]);
      FieldsNoNul(fs[1..]);
    }
  }

  function StatusLine(minor: byte, code: nat, reason: seq<byte>): seq<byte> { HTTP_1 + [minor] + Reply(code, reason) }

  lemma StatusLineClean(minor: byte, code: nat, reason: seq<byte>)
    requires minor != 0 && minor != CR && Clean(reason)
    ensures Clean(StatusLine(minor, code, reason)) && |StatusLine(minor, code, reason)| >= 10
  {
    CleanDecimal(code);
    CleanAppend([SPACE], reason);
    CleanAppend(Decimal(code), [SPACE] + reason);
    CleanAppend([SPACE], Decimal(code) + ([SPACE] + reason));
    CleanAppend(HTTP_1, [minor]);
    CleanAppend(HTTP_1 + [minor], Reply(code, reason));
  }

  lemma {:induction false} FirstSpace(a: seq<byte>, rest: seq<byte>)
    requires SPACE !in a
    ensures FromByte(a + ([SPACE] + rest), SPACE) == Some([SPACE] + rest)
  {
    var t := a + ([SPACE] + rest);
    if a == [] {
      assert t == [SPACE] + rest;
    } else {
      assert t[0] == a[0] && t[1..] == a[1..] + ([SPACE] + rest);
      FirstSpace(a[1..], rest);
    }
  }

  lemma StatusRead(minor: byte, code: nat, reason: seq<byte>, rest: seq<byte>)
    requires minor != SPACE
    ensures var h := StatusLine(minor, code, reason) + rest;
      NoNul(h) && |h| >= 12 ==> (StatusOk(h) <==> 200 <= code < 300)
  {
    var h := StatusLine(minor, code, reason) + rest;
    var after := [SPACE] + reason + rest;
    assert h == (HTTP_1 + [minor]) + ([SPACE] + (Decimal(code) + after));
    FirstSpace(HTTP_1 + [minor], Decimal(code) + after);
    assert ([SPACE] + (Decimal(code) + after))[1..] == Decimal(code) + after;
    AtoiReads(code, after);
    if NoNul(h) {
      NoNulText(h, 0);
      assert h[..7] == HTTP_1;
    }
  }

  lemma HeadIs(minor: byte, code: nat, reason: seq<byte>, fs: seq<Field>)
    ensures Head(minor, code, reason, fs) == StatusLine(minor, code, reason) + (CRLF + Fields(fs))
  {
  }

  /** What the client reads from a head is what the server wrote: a 2xx code or not, and the last Content-Length. */
  lemma HeadReads(minor: byte, code: nat, reason: seq<byte>, fs: seq<Field>)
    requires GoodHead(minor, reason, fs)
    ensures var h := Head(minor, code, reason, fs);
      (StatusOk(h) <==> 200 <= code < 300) && ContentLength(h) == LastLength(fs, 0)
  {
    var h := Head(minor, code, reason, fs);
    var s := StatusLine(minor, code, reason);
    HeadIs(minor, code, reason, fs);
    StatusLineClean(minor, code, reason);
    FieldsNoNul(fs);
    assert NoNul(h);
    NoNulText(h, 0);
    StatusRead(minor, code, reason, CRLF + Fields(fs));
    NextBreak(s, Fields(fs));
    assert (CRLF + Fields(fs))[2..] == Fields(fs);
    FieldsRead(fs, 0);
  }
}
