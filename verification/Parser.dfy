/** The in-place argv parser (src/cli/parser.c), against a pure tokenizer of the line it was given. */
module Parser {
  import opened Bytes
  import opened CLib

  const QUOTE: byte := 0x22
  const BACKSLASH: byte := 0x5C

  const ERR_UNCLOSED_QUOTE := -1
  const ERR_TOO_MANY_ARGS := -2

  // ---- Pure tokenizer ----------------------------------------------------------------

  datatype Parse = Args(args: seq<seq<byte>>) | UnclosedQuote | TooManyArgs

  /** A word read off the front of a text: what it denotes, what follows it, and whether its quotes are closed. */
  datatype Word = Word(text: seq<byte>, rest: seq<byte>, closed: bool)

  function Prefixed(c: byte, w: Word): Word { w.(text := [c] + w.text) }

  predicate Escapes(s: seq<byte>) {
    |s| > 1 && s[0] == BACKSLASH && (s[1] == QUOTE || s[1] == BACKSLASH)
  }

  function ReadWord(s: seq<byte>, quoted: bool): (w: Word)
    ensures |w.rest| <= |s|
    decreases |s|
  {
    if s == [] then Word([], [], !quoted)
    else if quoted then
      if Escapes(s) then Prefixed(s[1], ReadWord(s[2..], true))
      else if s[0] == QUOTE then ReadWord(s[1..], false)
      else Prefixed(s[0], ReadWord(s[1..], true))
    else
      if IsWs(s[0]) then Word([], s, true)
      else if s[0] == QUOTE then ReadWord(s[1..], true)
      else Prefixed(s[0], ReadWord(s[1..], false))
  }

  lemma WordShrinks(s: seq<byte>)
    requires s != [] && !IsWs(s[0])
    ensures |ReadWord(s, false).rest| < |s|
  {
  }

  function Tokenize(s: seq<byte>, max: nat): Parse
    decreases |s|
  {
    var t := SkipWs(s);
    if t == [] then Args([])
    else if max == 0 then TooManyArgs
    else
      var w := ReadWord(t, false);
      WordShrinks(t);
      if !w.closed then UnclosedQuote else After([w.text], Tokenize(w.rest, max - 1))
  }

  function After(done: seq<seq<byte>>, p: Parse): Parse {
    if p.Args? then Args(done + p.args) else p
  }

  // ---- Writing ----------------------------------------------------------------------

  lemma Characters()
    ensures Spells([QUOTE, BACKSLASH, SPACE, TAB], "\"\\ \t")
  {
  }

  predicate IsBlank(c: byte) { c == SPACE || c == TAB }

  predicate Blank(g: seq<byte>) { forall i :: 0 <= i < |g| ==> IsBlank(g[i]) }

  function EscapedChar(c: byte): seq<byte> {
    if c == QUOTE || c == BACKSLASH then [BACKSLASH, c] else [c]
  }

  function Escaped(a: seq<byte>): seq<byte> {
    if a == [] then [] else EscapedChar(a[0]) + Escaped(a[1..])
  }

  /** A stretch of a word: as it is, between quotes with its quotes and backslashes escaped, or as it is between quotes. */
  datatype Stretch = Unquoted(text: seq<byte>) | Escaping(text: seq<byte>) | Raw(text: seq<byte>)

  /** Unquoted text has no blank and no quote; raw text has no quote, and no backslash before a backslash or the end. */
  predicate Writable(p: Stretch) {
    match p
    case Unquoted(a) => a != [] && forall i :: 0 <= i < |a| ==> !IsBlank(a[i]) && a[i] != QUOTE
    case Escaping(a) => true
    case Raw(a) => Literal(a)
  }

  predicate Literal(a: seq<byte>) {
    QUOTE !in a && forall i :: 0 <= i < |a| && a[i] == BACKSLASH ==> i < |a| - 1 && a[i + 1] != BACKSLASH
  }

  function Written(p: Stretch): seq<byte> {
    match p
    case Unquoted(a) => a
    case Escaping(a) => [QUOTE] + (Escaped(a) + [QUOTE])
    case Raw(a) => [QUOTE] + (a + [QUOTE])
  }

  /** A word as it is written: stretches that touch each other, in any order. */
  type Spelling = seq<Stretch>

  predicate GoodWord(w: Spelling) { w != [] && forall p :: p in w ==> Writable(p) }

  function WordText(w: Spelling): seq<byte> {
    if w == [] then [] else Written(w[0]) + WordText(w[1..])
  }

  /** The argument a written word stands for. */
  function Denoted(w: Spelling): seq<byte> {
    if w == [] then [] else w[0].text + Denoted(w[1..])
  }

  function AllDenoted(words: seq<Spelling>): (args: seq<seq<byte>>)
    ensures |args| == |words| && forall i :: 0 <= i < |words| ==> args[i] == Denoted(words[i])
  {
    seq(|words|, i requires 0 <= i < |words| => Denoted(words[i]))
  }

  /** Words, each preceded by the blanks of its gap, and then the rest of the line. */
  function WordsThen(words: seq<Spelling>, gaps: seq<seq<byte>>, rest: seq<byte>): seq<byte>
    requires |gaps| == |words|
  {
    if words == [] then rest else gaps[0] + (WordText(words[0]) + WordsThen(words[1..], gaps[1..], rest))
  }

  predicate EndsWord(rest: seq<byte>) { rest == [] || IsBlank(rest[0]) }

  /** Words are well written, gaps are blank, and words do not touch each other or the rest of the line. */
  predicate Separated(words: seq<Spelling>, gaps: seq<seq<byte>>, rest: seq<byte>) {
    && |gaps| == |words| && (forall i :: 0 <= i < |words| ==> GoodWord(words[i]) && Blank(gaps[i]))
    && (forall i :: 0 < i < |words| ==> gaps[i] != []) && (words != [] ==> EndsWord(rest))
  }

  // ---- Reading what was written ------------------------------------------------------

  lemma {:induction false} SkipBlank(g: seq<byte>, s: seq<byte>)
    requires Blank(g)
    ensures SkipWs(g + s) == SkipWs(s)
  {
    if g == [] {
      assert g + s == s;
    } else {
      assert (g + s)[1..] == g[1..] + s;
      SkipBlank(g[1..], s);
    }
  }

  function Led(acc: seq<byte>, w: Word): Word { w.(text := acc + w.text) }

  lemma ReadEscapedChar(c: byte, t: seq<byte>)
    ensures ReadWord(EscapedChar(c) + t, true) == Prefixed(c, ReadWord(t, true))
  {
  }

  lemma ReadClosing(rest: seq<byte>)
    ensures ReadWord([QUOTE] + rest, true) == ReadWord(rest, false)
  {
  }

  lemma LedFirst(a: seq<byte>, w: Word)
    requires a != []
    ensures Prefixed(a[0], Led(a[1..], w)) == Led(a, w)
  {
    assert [a[0]] + a[1..] == a;
  }

  lemma LedNone(w: Word)
    ensures Led([], w) == w
  {
  }

  lemma LedTwice(a: seq<byte>, b: seq<byte>, w: Word)
    ensures Led(a, Led(b, w)) == Led(a + b, w)
  {
  }

  /** Escaped text inside quotes, whatever follows it. */
  lemma {:induction false} ReadEscaped(a: seq<byte>, end: seq<byte>)
    ensures ReadWord(Escaped(a) + end, true) == Led(a, ReadWord(end, true))
  {
    if a == [] {
      LedNone(ReadWord(end, true));
      assert Escaped(a) + end == end;
    } else {
      var (h, e) := (EscapedChar(a[0]), Escaped(a[1..]));
      ReadEscaped(a[1..], end);
      ReadEscapedChar(a[0], e + end);
      ConcatAssociates(h, e, end);
      LedFirst(a, ReadWord(end, true));
    }
  }

  lemma ReadLiteralChar(s: seq<byte>)
    requires s != [] && s[0] != QUOTE && (s[0] == BACKSLASH ==> |s| > 1 && s[1] != BACKSLASH && s[1] != QUOTE)
    ensures ReadWord(s, true) == Prefixed(s[0], ReadWord(s[1..], true))
  {
  }

  lemma LiteralRest(a: seq<byte>)
    requires Literal(a) && a != []
    ensures Literal(a[1..]) && a[0] != QUOTE && (a[0] == BACKSLASH ==> |a| > 1 && a[1] != BACKSLASH && a[1] != QUOTE)
  {
  }

  /** Inside quotes a backslash escapes a quote or a backslash only. */
  lemma {:induction false} ReadLiteral(a: seq<byte>, end: seq<byte>)
    requires Literal(a)
    ensures ReadWord(a + end, true) == Led(a, ReadWord(end, true))
  {
    if a == [] {
      LedNone(ReadWord(end, true));
      assert a + end == end;
    } else {
      LiteralRest(a);
      var s := a + end;
      assert s[0] == a[0] && s[1..] == a[1..] + end && (|a| > 1 ==> s[1] == a[1]);
      ReadLiteralChar(s);
      ReadLiteral(a[1..], end);
      LedFirst(a, ReadWord(end, true));
    }
  }

  lemma ReadUnquotedChar(s: seq<byte>)
    requires s != [] && !IsBlank(s[0]) && s[0] != QUOTE
    ensures ReadWord(s, false) == Prefixed(s[0], ReadWord(s[1..], false))
  {
  }

  lemma {:induction false} ReadUnquoted(a: seq<byte>, rest: seq<byte>)
    requires forall i :: 0 <= i < |a| ==> !IsBlank(a[i]) && a[i] != QUOTE
    ensures ReadWord(a + rest, false) == Led(a, ReadWord(rest, false))
  {
    if a == [] {
      LedNone(ReadWord(rest, false));
      assert a + rest == rest;
    } else {
      var s := a + rest;
      assert s[0] == a[0] && s[1..] == a[1..] + rest;
      ReadUnquotedChar(s);
      ReadUnquoted(a[1..], rest);
      LedFirst(a, ReadWord(rest, false));
    }
  }

  lemma OpensQuoted(s: seq<byte>, body: seq<byte>)
    requires s == [QUOTE] + body
    ensures ReadWord(s, false) == ReadWord(body, true)
  {
  }

  lemma ReadStretch(p: Stretch, rest: seq<byte>)
    requires Writable(p)
    ensures ReadWord(Written(p) + rest, false) == Led(p.text, ReadWord(rest, false))
  {
    if p.Unquoted? {
      ReadUnquoted(p.text, rest);
    } else {
      var inner := if p.Raw? then p.text else Escaped(p.text);
      var end := [QUOTE] + rest;
      assert Written(p) + rest == [QUOTE] + (inner + end);
      OpensQuoted(Written(p) + rest, inner + end);
      if p.Raw? {
        ReadLiteral(p.text, end);
      } else {
        ReadEscaped(p.text, end);
      }
      ReadClosing(rest);
    }
  }

  lemma {:induction false} ReadStretches(w: Spelling, rest: seq<byte>)
    requires forall p :: p in w ==> Writable(p)
    ensures ReadWord(WordText(w) + rest, false) == Led(Denoted(w), ReadWord(rest, false))
  {
    if w == [] {
      LedNone(ReadWord(rest, false));
      assert WordText(w) + rest == rest;
    } else {
      ReadStretches(w[1..], rest);
      ConcatAssociates(Written(w[0]), WordText(w[1..]), rest);
      ReadStretch(w[0], WordText(w[1..]) + rest);
      LedTwice(w[0].text, Denoted(w[1..]), ReadWord(rest, false));
    }
  }

  lemma WordEnds(rest: seq<byte>)
    requires EndsWord(rest)
    ensures ReadWord(rest, false) == Word([], rest, true)
  {
  }

  /** A written word, bare, quoted or mixed, is read as what it denotes, up to the blank after it. */
  lemma ReadSpelling(w: Spelling, rest: seq<byte>)
    requires GoodWord(w) && EndsWord(rest)
    ensures ReadWord(WordText(w) + rest, false) == Word(Denoted(w), rest, true)
  {
    ReadStretches(w, rest);
    WordEnds(rest);
    assert Denoted(w) + [] == Denoted(w);
  }

  lemma WordStarts(w: Spelling, rest: seq<byte>)
    requires GoodWord(w)
    ensures WordText(w) + rest != [] && SkipWs(WordText(w) + rest) == WordText(w) + rest
  {
    var p := w[0];
    assert Writable(p);
    assert (WordText(w) + rest)[0] == Written(p)[0];
  }

  lemma TokenizeWord(gap: seq<byte>, w: Spelling, rest: seq<byte>, max: nat)
    requires Blank(gap) && GoodWord(w) && EndsWord(rest)
    ensures Tokenize(gap + (WordText(w) + rest), max)
         == if max == 0 then TooManyArgs else After([Denoted(w)], Tokenize(rest, max - 1))
  {
    SkipBlank(gap, WordText(w) + rest);
    WordStarts(w, rest);
    ReadSpelling(w, rest);
  }

  lemma GapFirst(words: seq<Spelling>, gaps: seq<seq<byte>>, rest: seq<byte>)
    requires Separated(words, gaps, rest) && EndsWord(rest) && (words != [] ==> gaps[0] != [])
    ensures EndsWord(WordsThen(words, gaps, rest))
  {
  }

  lemma SeparatedRest(words: seq<Spelling>, gaps: seq<seq<byte>>, rest: seq<byte>)
    requires Separated(words, gaps, rest) && words != []
    ensures Separated(words[1..], gaps[1..], rest) && (|words| > 1 ==> gaps[1..][0] != [])
  {
  }

  lemma AfterWords(words: seq<Spelling>, p: Parse)
    requires words != []
    ensures After([Denoted(words[0])], After(AllDenoted(words[1..]), p)) == After(AllDenoted(words), p)
  {
    assert [Denoted(words[0])] + AllDenoted(words[1..]) == AllDenoted(words);
    if p.Args? {
      ConcatAssociates([Denoted(words[0])], AllDenoted(words[1..]), p.args);
    }
  }

  lemma AfterNothing(p: Parse)
    ensures After([], p) == p
  {
  }

  /** Well written words at the front of a line are parsed as what they denote, and parsing goes on after them. */
  lemma {:induction false} WordsParsed(words: seq<Spelling>, gaps: seq<seq<byte>>, rest: seq<byte>, max: nat)
    requires Separated(words, gaps, rest)
    ensures Tokenize(WordsThen(words, gaps, rest), max)
         == if |words| <= max then After(AllDenoted(words), Tokenize(rest, max - |words|)) else TooManyArgs
    decreases |words|
  {
    if words == [] {
      AfterNothing(Tokenize(rest, max));
    } else {
      var (ws, gs) := (words[1..], gaps[1..]);
      SeparatedRest(words, gaps, rest);
      GapFirst(ws, gs, rest);
      TokenizeWord(gaps[0], words[0], WordsThen(ws, gs, rest), max);
      if max > 0 {
        WordsParsed(ws, gs, rest, max - 1);
        if |words| <= max {
          AfterWords(words, Tokenize(rest, max - |words|));
        }
      }
    }
  }

  lemma TokenizeBlank(gap: seq<byte>, max: nat)
    requires Blank(gap)
    ensures Tokenize(gap, max) == Args([])
  {
    SkipBlank(gap, []);
    assert gap + [] == gap;
  }

  /** Arguments written bare, quoted or mixed, and separated by blanks, parse back to exactly those arguments. */
  lemma QuotingRoundTrip(words: seq<Spelling>, gaps: seq<seq<byte>>, last: seq<byte>, max: nat)
    requires Separated(words, gaps, last) && Blank(last)
    ensures Tokenize(WordsThen(words, gaps, last), max) == if |words| <= max then Args(AllDenoted(words)) else TooManyArgs
  {
    WordsParsed(words, gaps, last, max);
    if |words| <= max {
      TokenizeBlank(last, max - |words|);
      assert AllDenoted(words) + [] == AllDenoted(words);
    }
  }

  /** Any argument whatever can be written. */
  lemma AnyArgument(a: seq<byte>)
    ensures GoodWord([Escaping(a)]) && Denoted([Escaping(a)]) == a
  {
    assert [Escaping(a)][1..] == [];
  }

  /** A line whose last quote is not closed is refused, unless it has too many arguments before that. */
  lemma Unclosed(words: seq<Spelling>, gaps: seq<seq<byte>>, gap: seq<byte>, w: Spelling, inside: seq<byte>, max: nat)
    requires Blank(gap) && (words != [] ==> gap != []) && forall p :: p in w ==> Writable(p)
    requires Separated(words, gaps, gap + (WordText(w) + ([QUOTE] + Escaped(inside))))
    ensures Tokenize(WordsThen(words, gaps, gap + (WordText(w) + ([QUOTE] + Escaped(inside)))), max)
         == if |words| < max then UnclosedQuote else TooManyArgs
  {
    var end := [QUOTE] + Escaped(inside);
    var t := WordText(w) + end;
    WordsParsed(words, gaps, gap + t, max);
    SkipBlank(gap, t);
    if w == [] {
      assert t == end;
    } else {
      WordStarts(w, end);
    }
    ReadStretches(w, end);
    OpensQuoted(end, Escaped(inside));
    ReadEscaped(inside, []);
    assert Escaped(inside) + [] == Escaped(inside);
  }

  // ---- The code ------------------------------------------------------------------

  /** A buffer holds a line from `src` on: text `s` without NUL, then the terminator at `n`. */
  ghost predicate Holds(b: seq<byte>, src: nat, n: nat, s: seq<byte>) {
    src <= n < |b| && b[src..n] == s && b[n] == 0 && 0 !in s
  }

  /** What a step over one character leaves unread. */
  lemma Advance(b: seq<byte>, src: nat, n: nat, s: seq<byte>)
    requires Holds(b, src, n, s) && s != []
    ensures b[src] == s[0] != 0 && Holds(b, src + 1, n, s[1..])
  {
  }

  /** Writing at or below the read cursor leaves what follows it unread. */
  lemma Behind(b: seq<byte>, src: nat, n: nat, s: seq<byte>, at: nat, c: byte)
    requires Holds(b, src, n, s) && at < src
    ensures Holds(b[at := c], src, n, s)
  {
  }

  method SkipBlanks(line: array<byte>, from: nat, ghost n: nat, ghost s: seq<byte>) returns (src: nat, ghost t: seq<byte>)
    requires Holds(line[..], from, n, s)
    ensures from <= src && Holds(line[..], src, n, t) && t == SkipWs(s)
  {
    src, t := from, s;
    while IsWs(line[src])
      invariant from <= src && Holds(line[..], src, n, t) && SkipWs(s) == SkipWs(t)
      decreases n - src
    {
      assert t != [];
      Advance(line[..], src, n, t);
      src, t := src + 1, t[1..];
    }
    if t != [] {
      Advance(line[..], src, n, t);
    }
  }

  /** Inside the word that starts `s`: `acc` has been copied to `start`, and `t` is still to be read from `src`. */
  ghost predicate Copying(b: seq<byte>, n: nat, src: nat, start: nat, dst: nat, s: seq<byte>, t: seq<byte>,
    acc: seq<byte>, quoted: bool)
  {
    && Holds(b, src, n, t) && start <= dst <= src && b[start..dst] == acc && 0 !in acc
    && ReadWord(s, false) == Led(acc, ReadWord(t, quoted))
  }

  /** Copying the character that `k` characters of the line denote. */
  lemma CopyingMore(b: seq<byte>, n: nat, src: nat, start: nat, dst: nat, s: seq<byte>, t: seq<byte>,
    acc: seq<byte>, quoted: bool, k: nat)
    requires Copying(b, n, src, start, dst, s, t, acc, quoted) && 1 <= k <= 2 && k <= |t|
    requires ReadWord(t, quoted) == Prefixed(t[k - 1], ReadWord(t[k..], quoted))
    ensures Copying(b[dst := t[k - 1]], n, src + k, start, dst + 1, s, t[k..], acc + [t[k - 1]], quoted)
  {
  }

  /** Passing over a quote that opens or closes a quoted stretch. */
  lemma CopyingQuote(b: seq<byte>, n: nat, src: nat, start: nat, dst: nat, s: seq<byte>, t: seq<byte>,
    acc: seq<byte>, quoted: bool)
    requires Copying(b, n, src, start, dst, s, t, acc, quoted) && t != [] && t[0] == QUOTE
    ensures Copying(b, n, src + 1, start, dst, s, t[1..], acc, !quoted)
  {
  }

  /** What the code sees of a word at the read cursor. */
  lemma CopyingLooks(b: seq<byte>, n: nat, src: nat, start: nat, dst: nat, s: seq<byte>, t: seq<byte>,
    acc: seq<byte>, quoted: bool)
    requires Copying(b, n, src, start, dst, s, t, acc, quoted) && b[src] != 0
    ensures t != [] && t[0] == b[src] && src < n
    ensures quoted && Escapes(t) <==> quoted && b[src] == BACKSLASH && (b[src + 1] == QUOTE || b[src + 1] == BACKSLASH)
    ensures Escapes(t) ==> b[src + 1] == t[1]
  {
  }

  lemma CopyingEnds(b: seq<byte>, n: nat, src: nat, start: nat, dst: nat, s: seq<byte>, t: seq<byte>,
    acc: seq<byte>, quoted: bool)
    requires Copying(b, n, src, start, dst, s, t, acc, quoted)
    requires t == [] || b[src] == 0 || (!quoted && IsWs(t[0]))
    ensures ReadWord(s, false) == Word(acc, t, !quoted)
  {
  }

  /** The body of the inner loop: one character, or an escaped one, of the word. */
  method CopyStep(line: array<byte>, src0: nat, dst0: nat, quoted: bool, ghost n: nat, ghost start: nat,
                  ghost s: seq<byte>, ghost t0: seq<byte>, ghost acc0: seq<byte>)
    returns (stop: bool, src: nat, dst: nat, in_quote: bool, ghost t: seq<byte>, ghost acc: seq<byte>)
    requires Copying(line[..], n, src0, start, dst0, s, t0, acc0, quoted) && line[src0] != 0
    modifies line
    ensures Copying(line[..], n, src, start, dst, s, t, acc, in_quote)
    ensures if stop then !in_quote && t != [] && IsWs(t[0]) else src0 < src
    ensures line[..start] == old(line[..start]) && line[n + 1..] == old(line[n + 1..])
  {
    stop, src, dst, in_quote, t, acc := false, src0, dst0, quoted, t0, acc0;
    ghost var b := line[..];
    CopyingLooks(b, n, src, start, dst, s, t, acc, in_quote);
    var c := line[src];
    if in_quote && c == BACKSLASH && (line[src + 1] == QUOTE || line[src + 1] == BACKSLASH) {
      CopyingMore(b, n, src, start, dst, s, t, acc, in_quote, 2);
      src := src + 1;
      line[dst] := line[src];
      src, dst, t, acc := src + 1, dst + 1, t[2..], acc + [t[1]];
    } else if in_quote && c == QUOTE {
      CopyingQuote(b, n, src, start, dst, s, t, acc, in_quote);
      in_quote, src, t := false, src + 1, t[1..];
    } else if !in_quote && IsWs(c) {
      stop := true;
    } else if !in_quote && c == QUOTE {
      CopyingQuote(b, n, src, start, dst, s, t, acc, in_quote);
      in_quote, src, t := true, src + 1, t[1..];
    } else {
      CopyingMore(b, n, src, start, dst, s, t, acc, in_quote, 1);
      line[dst] := c;
      src, dst, t, acc := src + 1, dst + 1, t[1..], acc + [c];
    }
  }

  /**
   The inner loop: one word, copied down to `dst` as quotes and escapes are dropped. It stops at a blank, or at
   the terminator.
   */
  method CopyWord(line: array<byte>, from: nat, start: nat, ghost n: nat, ghost s: seq<byte>)
    returns (src: nat, dst: nat, in_quote: bool, ghost t: seq<byte>)
    requires Holds(line[..], from, n, s) && start <= from
    modifies line
    ensures Holds(line[..], src, n, t) && start <= dst <= src
    ensures var w := ReadWord(s, false); w.closed == !in_quote && line[start..dst] == w.text && 0 !in w.text && w.rest == t
    ensures line[..start] == old(line[..start]) && line[n + 1..] == old(line[n + 1..])
  {
    src, dst, in_quote, t := from, start, false, s;
    ghost var acc: seq<byte> := [];
    var stop := false;
    while !stop && line[src] != 0
      invariant Copying(line[..], n, src, start, dst, s, t, acc, in_quote)
      invariant stop ==> !in_quote && t != [] && IsWs(t[0])
      invariant line[..start] == old(line[..start]) && line[n + 1..] == old(line[n + 1..])
      decreases !stop, n - src
    {
      stop, src, dst, in_quote, t, acc := CopyStep(line, src, dst, in_quote, n, start, s, t, acc);
    }
    CopyingEnds(line[..], n, src, start, dst, s, t, acc, in_quote);
  }

  // ---- Tokens in the buffer ------------------------------------------------------

  /** String `t` and its terminator stand at `p`, below `end`. */
  ghost predicate Stored(b: seq<byte>, p: nat, t: seq<byte>, end: nat) {
    p + |t| < end <= |b| && b[p..p + |t|] == t && 0 !in t && b[p + |t|] == 0
  }

  lemma StoredIsCString(b: seq<byte>, p: nat, t: seq<byte>, end: nat)
    requires Stored(b, p, t, end)
    ensures CString(b, p) == t
  {
    StringEnds(b, p, t);
  }

  ghost predicate AllStored(b: seq<byte>, argv: seq<nat>, done: seq<seq<byte>>, end: nat) {
    |done| <= |argv| && forall i :: 0 <= i < |done| ==> Stored(b, argv[i], done[i], end)
  }

  /** Tokens below `end` survive any rewriting from `end` on. */
  lemma StillStored(b: seq<byte>, b': seq<byte>, argv: seq<nat>, done: seq<seq<byte>>, end: nat, end': nat)
    requires AllStored(b, argv, done, end) && |b| == |b'| && end <= end' <= |b| && b'[..end] == b[..end]
    ensures AllStored(b', argv, done, end')
  {
  }

  lemma StoredMore(b: seq<byte>, argv: seq<nat>, done: seq<seq<byte>>, t: seq<byte>, end: nat)
    requires |argv| == |done| + 1 && AllStored(b, argv, done, end) && Stored(b, argv[|done|], t, end)
    ensures AllStored(b, argv, done + [t], end)
  {
  }

  lemma {:induction false} WordStopsAtBlank(s: seq<byte>, quoted: bool)
    ensures var w := ReadWord(s, quoted); w.closed && w.rest != [] ==> IsWs(w.rest[0])
    decreases |s|
  {
    if s != [] {
      if quoted && Escapes(s) {
        WordStopsAtBlank(s[2..], true);
      } else if s[0] == QUOTE {
        WordStopsAtBlank(s[1..], !quoted);
      } else if quoted || !IsWs(s[0]) {
        WordStopsAtBlank(s[1..], quoted);
      }
    }
  }

  /** The text after a word, less the blank that ended it. */
  function Rest(s: seq<byte>): seq<byte> {
    if s == [] then [] else s[1..]
  }

  lemma TokenizeOne(s: seq<byte>, t: seq<byte>, max: nat, w: Word, rest: seq<byte>)
    requires t == SkipWs(s) && t != [] && max > 0 && w == ReadWord(t, false) && w.closed && rest == Rest(w.rest)
    ensures Tokenize(s, max) == After([w.text], Tokenize(rest, max - 1))
  {
    WordStopsAtBlank(t, false);
    if w.rest != [] {
      assert SkipWs(w.rest) == SkipWs(rest);
    }
  }

  lemma AfterMore(done: seq<seq<byte>>, t: seq<byte>, p: Parse)
    ensures After(done, After([t], p)) == After(done + [t], p)
  {
  }

  /** One more token found, one less to look for. */
  lemma TokenizeStep(text: seq<byte>, max: nat, done: seq<seq<byte>>, s: seq<byte>, t: seq<byte>, w: Word, rest: seq<byte>)
    requires |done| < max && Tokenize(text, max) == After(done, Tokenize(s, max - |done|))
    requires t == SkipWs(s) && t != [] && w == ReadWord(t, false) && w.closed && rest == Rest(w.rest)
    ensures Tokenize(text, max) == After(done + [w.text], Tokenize(rest, max - |done| - 1))
  {
    TokenizeOne(s, t, max - |done|, w, rest);
    AfterMore(done, w.text, Tokenize(rest, max - |done| - 1));
  }

  /** The end of a word: hop over the blank that follows it, then write its terminator. */
  method Terminate(line: array<byte>, src0: nat, dst0: nat, ghost start: nat, ghost n: nat, ghost s: seq<byte>, ghost word: seq<byte>)
    returns (src: nat, dst: nat, ghost t: seq<byte>)
    requires Holds(line[..], src0, n, s) && start <= dst0 <= src0 && line[start..dst0] == word && 0 !in word
    modifies line
    ensures Holds(line[..], src, n, t) && t == Rest(s)
    ensures dst == dst0 + 1 && src0 <= src && (dst <= src || src == n)
    ensures Stored(line[..], start, word, dst)
    ensures line[..start] == old(line[..start]) && line[n + 1..] == old(line[n + 1..])
  {
    src, dst, t := src0, dst0, s;
    if line[src] != 0 {
      Advance(line[..], src, n, t);
      src, t := src + 1, t[1..];
      Behind(line[..], src, n, t, dst, 0);
    }
    line[dst] := 0;
    dst := dst + 1;
  }

  /** One token: copied down to `start`, terminated, and the cursors left where the next one is looked for. */
  method TakeToken(line: array<byte>, from: nat, start: nat, ghost n: nat, ghost s: seq<byte>)
    returns (in_quote: bool, src: nat, dst: nat, ghost t: seq<byte>)
    requires Holds(line[..], from, n, s) && start <= from && s != [] && !IsWs(s[0])
    modifies line
    ensures var w := ReadWord(s, false);
      w.closed == !in_quote && (w.closed ==> Stored(line[..], start, w.text, dst) && t == Rest(w.rest))
    ensures !in_quote ==> Holds(line[..], src, n, t) && (dst <= src || src == n) && from < src
    ensures dst <= n + 1
    ensures line[..start] == old(line[..start]) && line[n + 1..] == old(line[n + 1..])
  {
    src, dst, in_quote, t := CopyWord(line, from, start, n, s);
    if !in_quote {
      assert |t| == n - src && |s| == n - from;
      src, dst, t := Terminate(line, src, dst, start, n, t, ReadWord(s, false).text);
    }
  }

  /** Between tokens: `done` stand in the buffer below `dst`, and `s` is still to be read from `src`. */
  ghost predicate Parsing(b: seq<byte>, text: seq<byte>, max: nat, n: nat, src: nat, dst: nat, argv: seq<nat>,
    done: seq<seq<byte>>, s: seq<byte>)
  {
    && Holds(b, src, n, s) && dst <= n + 1 && (dst <= src || src == n)
    && |argv| == |done| <= max && AllStored(b, argv, done, dst)
    && Tokenize(text, max) == After(done, Tokenize(s, max - |done|))
  }

  lemma ParsingMore(b: seq<byte>, b': seq<byte>, text: seq<byte>, max: nat, n: nat, src0: nat, src: nat, dst0: nat, dst: nat,
    argv: seq<nat>, done: seq<seq<byte>>, s: seq<byte>, t: seq<byte>, rest: seq<byte>)
    requires Parsing(b, text, max, n, src0, dst0, argv, done, s) && |done| < max && t == SkipWs(s) && t != []
    requires |b| == |b'| && b'[..dst0] == b[..dst0]
    requires var w := ReadWord(t, false); w.closed && rest == Rest(w.rest) && Stored(b', dst0, w.text, dst)
    requires Holds(b', src, n, rest) && dst <= n + 1 && (dst <= src || src == n)
    ensures Parsing(b', text, max, n, src, dst, argv + [dst0], done + [ReadWord(t, false).text], rest)
  {
    var w := ReadWord(t, false);
    TokenizeStep(text, max, done, s, t, w, rest);
    StillStored(b, b', argv, done, dst0, dst);
    StoredMore(b', argv + [dst0], done, w.text, dst);
  }

  /** How the code reports a parse: tokens in the buffer, or an error code. */
  ghost predicate Reports(p: Parse, b: seq<byte>, n: nat, argc: int, argv: seq<nat>) {
    match p
    case Args(a) => argc == |a| == |argv| && AllStored(b, argv, a, n + 1)
    case UnclosedQuote => argc == ERR_UNCLOSED_QUOTE
    case TooManyArgs => argc == ERR_TOO_MANY_ARGS
  }

  lemma ParsingEnds(b: seq<byte>, text: seq<byte>, max: nat, n: nat, src: nat, dst: nat, argv: seq<nat>,
    done: seq<seq<byte>>, s: seq<byte>)
    requires Parsing(b, text, max, n, src, dst, argv, done, s) && SkipWs(s) == []
    ensures Reports(Tokenize(text, max), b, n, |argv|, argv)
  {
  }

  lemma ParsingFails(b: seq<byte>, text: seq<byte>, max: nat, n: nat, src: nat, dst: nat, argv: seq<nat>,
    done: seq<seq<byte>>, s: seq<byte>, t: seq<byte>)
    requires Parsing(b, text, max, n, src, dst, argv, done, s) && t == SkipWs(s) && t != []
    ensures |done| == max ==> Tokenize(text, max) == TooManyArgs
    ensures |done| < max && !ReadWord(t, false).closed ==> Tokenize(text, max) == UnclosedQuote
  {
  }

  /**
   `cli_parse`. Pointers into the line are offsets into its buffer, and the filled part of argv is returned;
   `text` is what the line holds on entry.
   */
  method CliParse(line: array<byte>, max_argv: int, ghost n: nat, ghost text: seq<byte>)
    returns (argc: int, argv: seq<nat>)
    requires Holds(line[..], 0, n, text)
    modifies line
    ensures max_argv <= 0 ==> argc == 0
    ensures max_argv > 0 ==>
      Reports(Tokenize(text, max_argv), line[..], n, argc, argv) && argc <= max_argv
    ensures line[n + 1..] == old(line[n + 1..])
  {
    argc, argv := 0, [];
    if max_argv <= 0 {
      return;
    }
    ghost var done: seq<seq<byte>> := [];
    ghost var s := text;
    var src: nat, dst: nat := 0, 0;
    ghost var last := src;
    while line[src] != 0
      invariant Parsing(line[..], text, max_argv, n, src, dst, argv, done, s) && argc == |argv| && last == src
      invariant line[n + 1..] == old(line[n + 1..])
      decreases n - src
    {
      ghost var t;
      src, t := SkipBlanks(line, src, n, s);
      if line[src] == 0 {
        break;
      }
      ParsingFails(line[..], text, max_argv, n, last, dst, argv, done, s, t);
      if argc >= max_argv {
        argc := ERR_TOO_MANY_ARGS;
        return;
      }
      ghost var before := line[..];
      var start := dst;
      var in_quote: bool;
      ghost var rest;
      in_quote, src, dst, rest := TakeToken(line, src, dst, n, t);
      argv := argv + [start];
      argc := argc + 1;
      if in_quote {
        argc := ERR_UNCLOSED_QUOTE;
        return;
      }
      ParsingMore(before, line[..], text, max_argv, n, last, src, start, dst, argv[..argc - 1], done, s, t, rest);
      done, s, last := done + [ReadWord(t, false).text], rest, src;
    }
    ParsingEnds(line[..], text, max_argv, n, last, dst, argv, done, s);
  }
}
