/** What the control commands mean: which commands a command runs, in what order, and what it returns. */
module ShellMeaning {
  import opened Bytes
  import opened CLib
  import opened Expand
  import opened Parser
  import opened ShellBound
  import opened ShellState

  const CLI_OK := 0
  const CLI_ERR_USAGE := 1
  const CLI_ERR_ARG := 2
  const CLI_ERR_HARDWARE := 3

  const IF: seq<byte> := [105, 102]
  const THEN: seq<byte> := [116, 104, 101, 110]
  const ELSE: seq<byte> := [101, 108, 115, 101]
  const WHILE: seq<byte> := [119, 104, 105, 108, 101]
  const DO: seq<byte> := [100, 111]
  const REPEAT: seq<byte> := [114, 101, 112, 101, 97, 116]
  const RUN: seq<byte> := [114, 117, 110]
  const SET: seq<byte> := [115, 101, 116]

  // ---- Counts ----------------------------------------------------------------------

  function SkipDigits(t: seq<byte>): seq<byte> {
    if StartsDigit(t) then SkipDigits(t[1..]) else t
  }

  /** The count of a `repeat`: what `strtol` reads, if it reads the whole word and finds 1 to 100000. */
  function RepeatCount(t: seq<byte>): Option<nat> {
    var s := SkipSpace(t);
    var u := if s != [] && (s[0] == 43 || s[0] == 45) then s[1..] else s;
    if StartsDigit(u) && SkipDigits(u) == [] && !Minus(s) && 0 < Number(u, 0) <= REPEAT_MAX then Some(Number(u, 0)) else None
  }

  lemma {:induction false} DigitsSkipped(n: nat, rest: seq<byte>)
    ensures SkipDigits(Decimal(n) + rest) == SkipDigits(rest)
  {
    var d := Digit(n % 10);
    DigitReads(n % 10);
    var tail := [d] + rest;
    assert tail[1..] == rest;
    if n < 10 {
      assert Decimal(n) + rest == tail;
    } else {
      assert Decimal(n) + rest == Decimal(n / 10) + tail;
      DigitsSkipped(n / 10, tail);
    }
  }

  /** A count without blanks or a sign in front of it. */
  lemma CountIs(n: nat, rest: seq<byte>)
    requires !StartsDigit(rest)
    ensures var t := Decimal(n) + rest;
      && StartsDigit(t) && SkipDigits(t) == rest && Number(t, 0) == n && SkipSpace(t) == t && !Minus(t)
      && t[0] != 43 && t[0] != 45
  {
    DecimalStarts(n, rest);
    NumberReads(n, rest);
    DigitsSkipped(n, rest);
    DecimalDigits(n);
    var d: nat :| d < 10 && Decimal(n)[0] == Digit(d);
    DigitReads(d);
  }

  /**
   A count in decimal, with white space and a sign in front and some text behind: it is taken exactly when nothing
   follows it, the sign is no minus, and it is from 1 to 100000.
   */
  lemma CountReads(gap: seq<byte>, sign: seq<byte>, n: nat, rest: seq<byte>)
    requires Spaces(gap) && IsSign(sign) && !StartsDigit(rest)
    ensures RepeatCount(gap + (sign + (Decimal(n) + rest)))
         == if rest == [] && sign != [45] && 1 <= n <= 100000 then Some(n) else None
  {
    var t := Decimal(n) + rest;
    var s := sign + t;
    CountIs(n, rest);
    SpacesSkipped(gap, s);
    if sign == [] {
      assert s == t;
    } else {
      assert s[0] == sign[0] && s[1..] == t;
    }
  }

  /** Text that does not start like a number is no count. */
  lemma NoCount(gap: seq<byte>, sign: seq<byte>, rest: seq<byte>)
    requires Spaces(gap) && IsSign(sign)
    requires rest == [] || !(48 <= rest[0] <= 57 || IsSpace(rest[0]) || rest[0] == 43 || rest[0] == 45)
    ensures RepeatCount(gap + (sign + rest)) == None
  {
    var s := sign + rest;
    SpacesSkipped(gap, s);
    if sign == [] {
      assert s == rest;
    } else {
      assert s[0] == sign[0] && s[1..] == rest;
    }
  }

  // ---- Commands and what they run -------------------------------------------------------------

  /** The argument vector a line comes to: tokens, each expanded, if all is well. */
  function Words(text: seq<byte>, env: Env): Option<seq<seq<byte>>> {
    match Tokenize(text, MAX_WORDS)
    case Args(tokens) => Fitting(tokens, env)
    case _ => None
  }

  /** Tokens expanded, if they all fit. */
  function Fitting(tokens: seq<seq<byte>>, env: Env): Option<seq<seq<byte>>> {
    if AllFit(Expansions(tokens, env)) then Expansions(tokens, env) else None
  }

  /**
   A command that was dispatched: its pointers, the words they stood for at that moment, its result, and the commands
   it dispatched in turn, or, for `run`, the script lines.
   */
  datatype Act = Act(argv: seq<nat>, words: seq<seq<byte>>, rc: int, sub: seq<Act>, lines: seq<Line>)

  /** A script line that was dispatched: its text, the arguments in force, all that it could read, and what it ran. */
  datatype Line = Line(text: seq<byte>, frame: Frame, env: Env, acts: seq<Act>)

  function TopOf(frames: seq<Frame>): Frame { if frames == [] then [] else frames[|frames| - 1] }

  /** A line of these words dispatches one command of them, or, without words or when they do not fit, none. */
  predicate Hands(acts: seq<Act>, words: Option<seq<seq<byte>>>) {
    if words.None? || words.value == [] then acts == [] else |acts| == 1 && acts[0].words == words.value
  }

  /** The line ran its words, expanded under its frame. */
  predicate Speaks(l: Line) { TopOf(l.env.frames) == l.frame && Hands(l.acts, Words(l.text, l.env)) }

  predicate Framed(lines: seq<Line>, f: Frame) { forall i :: 0 <= i < |lines| ==> lines[i].frame == f }

  function Texts(lines: seq<Line>): (t: seq<seq<byte>>)
    ensures |t| == |lines|
  {
    seq(|lines|, i requires 0 <= i < |lines| => lines[i].text)
  }

  /** The first word from `from` on that is `w`, or the number of words. */
  function FindFrom(words: seq<seq<byte>>, from: nat, w: seq<byte>): (i: nat)
    requires from <= |words|
    ensures from <= i <= |words|
    decreases |words| - from
  {
    if from == |words| || words[from] == w then from else FindFrom(words, from + 1, w)
  }

  predicate Fails(a: Act, rc: int) { a.rc == rc && a.sub == [] }

  /** `if COND then BODY [else BODY]`: the condition runs; if it succeeds the first body, else the second, if any. */
  predicate IfDoes(a: Act)
    requires |a.words| == |a.argv| > 0
  {
    var n := |a.argv|;
    if n < 4 then Fails(a, CLI_ERR_USAGE)
    else
      var t := FindFrom(a.words, 1, THEN);
      if t == n || t == 1 then Fails(a, CLI_ERR_USAGE)
      else
        var e := FindFrom(a.words, t + 1, ELSE);
        if e == t + 1 then Fails(a, CLI_ERR_USAGE)
        else Chooses(a.sub, a.argv, t, e, a.rc)
  }

  predicate Chooses(sub: seq<Act>, argv: seq<nat>, t: nat, e: nat, rc: int)
    requires 1 < t && t + 1 < e <= |argv|
  {
    && sub != [] && sub[0].argv == argv[1..t]
    && if sub[0].rc == CLI_OK then |sub| == 2 && sub[1].argv == argv[t + 1..e] && rc == sub[1].rc
       else if e + 1 < |argv| then |sub| == 2 && sub[1].argv == argv[e + 1..] && rc == sub[1].rc
       else |sub| == 1 && rc == CLI_OK
  }

  /** `while COND do BODY`. */
  predicate WhileDoes(a: Act)
    requires |a.words| == |a.argv| > 0
  {
    var n := |a.argv|;
    if n < 4 then Fails(a, CLI_ERR_USAGE)
    else
      var d := FindFrom(a.words, 1, DO);
      if d == n || d == 1 || d + 1 == n then Fails(a, CLI_ERR_USAGE)
      else Loops(a.sub, a.argv[1..d], a.argv[d + 1..], WHILE_MAX, a.rc)
  }

  /**
   Condition and body in turn, until the condition fails, the body reports a hardware error, or `left` rounds are over,
   which counts as a hardware error.
   */
  predicate Loops(sub: seq<Act>, c: seq<nat>, b: seq<nat>, left: nat, rc: int)
    decreases left
  {
    if left == 0 then sub == [] && rc == CLI_ERR_HARDWARE
    else
      && sub != [] && sub[0].argv == c
      && if sub[0].rc != CLI_OK then |sub| == 1 && rc == CLI_OK
         else
           && |sub| >= 2 && sub[1].argv == b
           && if sub[1].rc == CLI_ERR_HARDWARE then |sub| == 2 && rc == CLI_ERR_HARDWARE
              else Loops(sub[2..], c, b, left - 1, rc)
  }

  /** `repeat N CMD`. */
  predicate RepeatDoes(a: Act)
    requires |a.words| == |a.argv| > 0
  {
    if |a.argv| < 3 then Fails(a, CLI_ERR_USAGE)
    else
      var n := RepeatCount(a.words[1]);
      if n.None? then Fails(a, CLI_ERR_ARG) else Repeats(a.sub, a.argv[2..], n.value, a.rc)
  }

  /** The command `left` times, cut short by a hardware error. */
  predicate Repeats(sub: seq<Act>, argv: seq<nat>, left: nat, rc: int)
    decreases left
  {
    if left == 0 then sub == [] && rc == CLI_OK
    else
      && sub != [] && sub[0].argv == argv
      && if sub[0].rc == CLI_ERR_HARDWARE then |sub| == 1 && rc == CLI_ERR_HARDWARE
         else Repeats(sub[1..], argv, left - 1, rc)
  }

  /** `run NAME [ARG...]`: every line is under a frame of the arguments; a run that fails dispatches none. */
  predicate RunDoes(a: Act)
    requires |a.words| == |a.argv| > 0
  {
    a.sub == [] && (a.rc != CLI_OK ==> a.lines == []) && Framed(a.lines, CutArgs(a.words[1..]))
  }

  predicate Does(a: Act)
    requires |a.words| == |a.argv|
  {
    if a.argv == [] then Fails(a, CLI_OK) && a.lines == []
    else if a.words[0] == RUN then RunDoes(a)
    else
      && a.lines == []
      && if a.words[0] == IF then IfDoes(a)
         else if a.words[0] == WHILE then WhileDoes(a)
         else if a.words[0] == REPEAT then RepeatDoes(a)
         else a.sub == []
  }

  /** A command, and every command and line it dispatched, did what its words say. The countdown keeps it folded. */
  predicate Conforms(a: Act, countdown: nat := 4)
    decreases a, countdown
  {
    if countdown > 0 then Conforms(a, countdown - 1)
    else
      && |a.words| == |a.argv| && Does(a) && (forall i :: 0 <= i < |a.sub| ==> Conforms(a.sub[i]))
      && forall i :: 0 <= i < |a.lines| ==> Speaks(a.lines[i]) && forall j :: 0 <= j < |a.lines[i].acts| ==> Conforms(a.lines[i].acts[j])
  }

  lemma ConformsIs(a: Act)
    ensures Conforms(a) <==> |a.words| == |a.argv| && Does(a) && AllConform(a.sub) && AllSpoken(a.lines)
  {
    assert Conforms(a, 2) == Conforms(a, 1) == Conforms(a, 0);
    assert Conforms(a, 4) == Conforms(a, 3) == Conforms(a, 2);
  }

  predicate AllConform(acts: seq<Act>) { forall i :: 0 <= i < |acts| ==> Conforms(acts[i]) }

  predicate AllSpoken(lines: seq<Line>) {
    forall i :: 0 <= i < |lines| ==> Speaks(lines[i]) && AllConform(lines[i].acts)
  }

  /** What a line hands to the dispatcher: its words, if it has any and they fit. */
  ghost predicate Handed(acts: seq<Act>, text: seq<byte>, env: Env) { AllConform(acts) && Hands(acts, Words(text, env)) }

  // ---- What the control commands do, in the words they are written with -----------------------

  lemma Keywords()
    ensures Spells(IF, "if") && Spells(THEN, "then") && Spells(ELSE, "else")
  {
  }

  lemma MoreKeywords()
    ensures Spells(WHILE, "while") && Spells(DO, "do") && Spells(RUN, "run")
  {
  }

  lemma LastKeywords()
    ensures Spells(REPEAT, "repeat") && Spells(SET, "set")
  {
  }

  /** The results as `$?` shows them. */
  lemma Results()
    ensures Spells(Signed(CLI_OK), "0") && Spells(Signed(CLI_ERR_USAGE), "1")
    ensures Spells(Signed(CLI_ERR_ARG), "2") && Spells(Signed(CLI_ERR_HARDWARE), "3")
  {
  }

  lemma {:induction false} FindIs(words: seq<seq<byte>>, from: nat, w: seq<byte>, at: nat)
    requires from <= at <= |words| && (at == |words| || words[at] == w) && forall i :: from <= i < at ==> words[i] != w
    ensures FindFrom(words, from, w) == at
    decreases at - from
  {
    if from < at {
      FindIs(words, from + 1, w, at);
    }
  }

  /** The commands `acts` ran in this order, and with these pointers. */
  predicate RanInOrder(acts: seq<Act>, argvs: seq<seq<nat>>) {
    |acts| == |argvs| && forall i :: 0 <= i < |acts| ==> acts[i].argv == argvs[i]
  }

  /** Where the two parts of a command stand, and what follows them. */
  lemma PartsOf(argv: seq<nat>, c: seq<nat>, t: nat, b: seq<nat>, rest: seq<nat>)
    requires argv != [] && argv[1..] == c + ([t] + (b + rest))
    ensures |argv| == 2 + |c| + |b| + |rest|
    ensures var (n, m) := (1 + |c|, 2 + |c| + |b|); argv[1..n] == c && argv[n + 1..m] == b && argv[m..] == rest
  {
    var s := argv[1..];
    assert s[..|c|] == c && s[|c| + 1..|c| + 1 + |b|] == b && s[|c| + 1 + |b|..] == rest;
    SliceOfSlice(argv, 1, |argv|, 0, |c|);
    SliceOfSlice(argv, 1, |argv|, |c| + 1, |c| + 1 + |b|);
    SliceOfSlice(argv, 1, |argv|, |c| + 1 + |b|, |s|);
    assert argv[1..|argv|] == s && argv[2 + |c| + |b|..|argv|] == argv[2 + |c| + |b|..];
  }

  lemma IfChooses(a: Act, n: nat, m: nat)
    requires Conforms(a) && |a.words| == |a.argv| && a.words != [] && a.words[0] == IF
    requires 1 < n < |a.words| && a.words[n] == THEN && forall i :: 1 <= i < n ==> a.words[i] != THEN
    requires n + 1 < m <= |a.words| && (m < |a.words| ==> a.words[m] == ELSE)
    requires forall i :: n < i < m ==> a.words[i] != ELSE
    ensures Chooses(a.sub, a.argv, n, m, a.rc)
  {
    ConformsIs(a);
    FindIs(a.words, 1, THEN, n);
    FindIs(a.words, n + 1, ELSE, m);
  }

  lemma WhileLoops(a: Act, n: nat)
    requires Conforms(a) && |a.words| == |a.argv| && a.words != [] && a.words[0] == WHILE
    requires 1 < n < |a.words| - 1 && a.words[n] == DO && forall i :: 1 <= i < n ==> a.words[i] != DO
    ensures Loops(a.sub, a.argv[1..n], a.argv[n + 1..], WHILE_MAX, a.rc)
  {
    ConformsIs(a);
    FindIs(a.words, 1, DO, n);
  }

  /**
   `if C then B` and `if C then B else E`, with pointers `c`, `b` and `e` to their words: C runs first; when it succeeds B
   runs and its result is that of the command; otherwise E, if there is one. `l` is the pointer to `else`.
   */
  lemma IfMeans(a: Act, c: seq<nat>, b: seq<nat>, e: seq<nat>, t: nat, l: seq<nat>)
    requires Conforms(a) && c != [] && b != [] && |l| <= 1 && (l == [] ==> e == [])
    requires |a.words| == |a.argv| == 2 + |c| + |b| + |l| + |e| && a.argv[1..] == c + ([t] + (b + (l + e)))
    requires a.words[0] == IF && a.words[1 + |c|] == THEN && (l != [] ==> a.words[2 + |c| + |b|] == ELSE)
    requires forall i :: 1 <= i <= |c| ==> a.words[i] != THEN
    requires forall i :: 2 + |c| <= i < 2 + |c| + |b| ==> a.words[i] != ELSE
    ensures a.sub != [] && a.sub[0].argv == c
    ensures if a.sub[0].rc == CLI_OK then RanInOrder(a.sub, [c, b]) && a.rc == a.sub[1].rc
      else if e != [] then RanInOrder(a.sub, [c, e]) && a.rc == a.sub[1].rc
      else RanInOrder(a.sub, [c]) && a.rc == CLI_OK
  {
    IfChooses(a, 1 + |c|, 2 + |c| + |b|);
    PartsOf(a.argv, c, t, b, l + e);
    if l != [] {
      PartsOf(a.argv, c, t, b + l, e);
    }
  }

  /** An `if` without a condition, a `then` or a body runs nothing and is a usage error. */
  lemma IfRefused(a: Act, t: nat)
    requires Conforms(a) && a.words != [] && a.words[0] == IF && 1 <= t <= |a.words|
    requires (t == |a.words| || a.words[t] == THEN) && forall i :: 1 <= i < t ==> a.words[i] != THEN
    requires t == 1 || t + 1 >= |a.words| || a.words[t + 1] == ELSE
    ensures a.sub == [] && a.rc == CLI_ERR_USAGE
  {
    ConformsIs(a);
    FindIs(a.words, 1, THEN, t);
    if 1 < t && t + 1 <= |a.words| {
      FindIs(a.words, t + 1, ELSE, t + 1);
    }
  }

  /** A `while` without a condition, a `do` or a body, the same. */
  lemma WhileRefused(a: Act, d: nat)
    requires Conforms(a) && a.words != [] && a.words[0] == WHILE && 1 <= d <= |a.words|
    requires (d == |a.words| || a.words[d] == DO) && forall i :: 1 <= i < d ==> a.words[i] != DO
    requires d == 1 || d + 1 >= |a.words|
    ensures a.sub == [] && a.rc == CLI_ERR_USAGE
  {
    ConformsIs(a);
    FindIs(a.words, 1, DO, d);
  }

  /** What `left` rounds of condition and body look like when they are over. */
  predicate Alternates(sub: seq<Act>, c: seq<nat>, b: seq<nat>, left: nat, rc: int) {
    && |sub| <= 2 * left
    && (forall i :: 0 <= i < |sub| ==> sub[i].argv == if i % 2 == 0 then c else b)
    && (forall i :: 0 <= i < |sub| - 1 ==> if i % 2 == 0 then sub[i].rc == CLI_OK else sub[i].rc != CLI_ERR_HARDWARE)
    && if |sub| % 2 == 1 then sub[|sub| - 1].rc != CLI_OK && rc == CLI_OK
       else rc == CLI_ERR_HARDWARE && (|sub| == 2 * left || (sub != [] && sub[|sub| - 1].rc == CLI_ERR_HARDWARE))
  }

  lemma AlternatesMore(sub: seq<Act>, c: seq<nat>, b: seq<nat>, left: nat, rc: int)
    requires left > 0 && |sub| >= 2 && sub[0].argv == c && sub[0].rc == CLI_OK && sub[1].argv == b
    requires sub[1].rc != CLI_ERR_HARDWARE
    ensures Alternates(sub, c, b, left, rc) <==> Alternates(sub[2..], c, b, left - 1, rc)
  {
    var more := sub[2..];
    if Alternates(more, c, b, left - 1, rc) {
      forall i | 2 <= i < |sub| ensures sub[i] == more[i - 2] {
      }
    }
  }

  /**
   The rounds of a `while`, exactly: condition and body in turn; every condition but the last succeeds; when the last one to
   run is a condition it failed, and the result is success; otherwise the result is a hardware error, and a body reported
   one or all rounds are over.
   */
  lemma {:induction false} LoopsMeans(sub: seq<Act>, c: seq<nat>, b: seq<nat>, left: nat, rc: int)
    ensures Loops(sub, c, b, left, rc) <==> Alternates(sub, c, b, left, rc)
    decreases left
  {
    if left > 0 && |sub| >= 2 && sub[0].argv == c && sub[0].rc == CLI_OK && sub[1].argv == b && sub[1].rc != CLI_ERR_HARDWARE {
      LoopsMeans(sub[2..], c, b, left - 1, rc);
      AlternatesMore(sub, c, b, left, rc);
    }
  }

  /** `while C do B`. */
  lemma WhileMeans(a: Act, c: seq<nat>, b: seq<nat>, d: nat)
    requires Conforms(a) && c != [] && b != []
    requires |a.words| == |a.argv| == 2 + |c| + |b| && a.argv[1..] == c + ([d] + (b + []))
    requires a.words[0] == WHILE && a.words[1 + |c|] == DO && forall i :: 1 <= i <= |c| ==> a.words[i] != DO
    ensures Alternates(a.sub, c, b, 10000, a.rc)
  {
    var n := 1 + |c|;
    WhileLoops(a, n);
    PartsOf(a.argv, c, d, b, []);
    assert a.argv[n + 1..|a.argv|] == a.argv[n + 1..];
    LoopsMeans(a.sub, c, b, WHILE_MAX, a.rc);
  }

  /** The repetitions, exactly: `left` of them, or fewer, the last of which reported a hardware error. */
  lemma {:induction false} RepeatsMeans(sub: seq<Act>, argv: seq<nat>, left: nat, rc: int)
    ensures Repeats(sub, argv, left, rc) <==>
      && |sub| <= left && (forall i :: 0 <= i < |sub| ==> sub[i].argv == argv)
      && (forall i :: 0 <= i < |sub| - 1 ==> sub[i].rc != CLI_ERR_HARDWARE)
      && if sub != [] && sub[|sub| - 1].rc == CLI_ERR_HARDWARE then rc == CLI_ERR_HARDWARE else |sub| == left && rc == CLI_OK
    decreases left
  {
    if left > 0 && sub != [] && sub[0].argv == argv && sub[0].rc != CLI_ERR_HARDWARE {
      RepeatsMeans(sub[1..], argv, left - 1, rc);
      var more := sub[1..];
      forall i | 1 <= i < |sub| ensures sub[i] == more[i - 1] {
      }
    }
  }

  /** `repeat N B` runs B N times, or until it reports a hardware error; a bad count runs nothing. */
  lemma RepeatMeans(a: Act, b: seq<nat>)
    requires Conforms(a) && b != [] && |a.words| == |a.argv| == 2 + |b| && a.argv[2..] == b && a.words[0] == REPEAT
    ensures var n := RepeatCount(a.words[1]);
      if n.None? then a.sub == [] && a.rc == CLI_ERR_ARG else Repeats(a.sub, b, n.value, a.rc)
  {
    ConformsIs(a);
  }

  // ---- What a line says ------------------------------------------------------------------------

  /** What each token stands for. */
  function AllMeanings(tokens: seq<seq<Part>>, vars: map<seq<byte>, seq<byte>>, args: seq<seq<byte>>, status: int)
    : (ws: seq<seq<byte>>)
    ensures |ws| == |tokens|
    ensures forall i :: 0 <= i < |tokens| ==> ws[i] == Meanings(tokens[i], vars, args, status)
  {
    seq(|tokens|, i requires 0 <= i < |tokens| => Meanings(tokens[i], vars, args, status))
  }

  lemma {:induction false} AllExpanded(texts: seq<seq<byte>>, tokens: seq<seq<Part>>, env: Env, args: seq<seq<byte>>)
    requires |texts| == |tokens| && Under(env, args) && IsInt(env.status)
    requires forall i :: 0 <= i < |tokens| ==> Legible(tokens[i]) && texts[i] == Token(tokens[i])
    ensures Expansions(texts, env) == Some(AllMeanings(tokens, env.vars, args, env.status))
  {
    if texts != [] {
      var n := |texts| - 1;
      AllExpanded(texts[..n], tokens[..n], env, args);
      Substitutes(tokens[n], env, args);
      var (init, all) := (AllMeanings(tokens[..n], env.vars, args, env.status), AllMeanings(tokens, env.vars, args, env.status));
      assert init + [all[n]] == all;
    }
  }

  /**
   A line of written words, each of them plain characters and references once its quotes are gone, is handed to the
   dispatcher as what the words stand for, when there are at most 16 and they fit the 512 bytes with their terminators.
   */
  lemma LineSays(words: seq<Spelling>, gaps: seq<seq<byte>>, last: seq<byte>, tokens: seq<seq<Part>>, env: Env,
    args: seq<seq<byte>>)
    requires Separated(words, gaps, last) && Blank(last) && |words| == |tokens| && Under(env, args) && IsInt(env.status)
    requires forall i :: 0 <= i < |tokens| ==> Legible(tokens[i]) && Denoted(words[i]) == Token(tokens[i])
    ensures var said := AllMeanings(tokens, env.vars, args, env.status);
      Words(WordsThen(words, gaps, last), env) == if |words| <= 16 && Room(said) <= 512 then Some(said) else None
  {
    QuotingRoundTrip(words, gaps, last, MAX_WORDS);
    AllExpanded(AllDenoted(words), tokens, env, args);
  }

  /** Every line of a run hands on what it says under the arguments of that run. */
  lemma LineArguments(a: Act, i: nat)
    requires Conforms(a) && a.words != [] && a.words[0] == RUN && i < |a.lines|
    ensures var l := a.lines[i]; Hands(l.acts, Words(l.text, l.env)) && Under(l.env, a.words[1..])
  {
    ConformsIs(a);
  }

  /** A command that is none of the four dispatches nothing, and so does a run that fails. */
  lemma OthersDispatchNothing(a: Act)
    requires Conforms(a)
    ensures a.words == [] || a.words[0] !in {IF, WHILE, REPEAT, RUN} ==> a.sub == [] && a.lines == []
    ensures a.lines != [] ==> a.words != [] && a.words[0] == RUN && a.rc == CLI_OK
    ensures a.words != [] && a.words[0] == RUN ==> a.sub == []
  {
    ConformsIs(a);
  }

  // ---- Loops from the front -------------------------------------------------------------------

  /** A round after which the loop goes on. */
  predicate GoesOn(first: Act, second: Act, c: seq<nat>, b: seq<nat>) {
    first.argv == c && first.rc == CLI_OK && second.argv == b && second.rc != CLI_ERR_HARDWARE
  }

  /** `i` rounds of a loop that goes on. */
  predicate LoopsOn(sub: seq<Act>, c: seq<nat>, b: seq<nat>, i: nat)
    decreases i
  {
    if i == 0 then sub == []
    else |sub| >= 2 && GoesOn(sub[|sub| - 2], sub[|sub| - 1], c, b) && LoopsOn(sub[..|sub| - 2], c, b, i - 1)
  }

  lemma LoopsMore(x: Act, y: Act, last: seq<Act>, c: seq<nat>, b: seq<nat>, left: nat, rc: int)
    requires GoesOn(x, y, c, b) && Loops(last, c, b, left, rc)
    ensures Loops([x, y] + last, c, b, left + 1, rc)
  {
    var more := [x, y] + last;
    assert more[0] == x && more[1] == y && more[2..] == last;
  }

  lemma {:induction false} LoopsThen(sub: seq<Act>, last: seq<Act>, c: seq<nat>, b: seq<nat>, i: nat, left: nat, rc: int)
    requires LoopsOn(sub, c, b, i) && Loops(last, c, b, left, rc)
    ensures Loops(sub + last, c, b, i + left, rc)
    decreases i
  {
    if i == 0 {
      assert sub + last == last;
    } else {
      var (init, x, y) := (sub[..|sub| - 2], sub[|sub| - 2], sub[|sub| - 1]);
      var more := [x, y] + last;
      LoopsMore(x, y, last, c, b, left, rc);
      LoopsThen(init, more, c, b, i - 1, left + 1, rc);
      assert sub == init + [x, y];
      ConcatAssociates(init, [x, y], last);
    }
  }

  lemma LoopsOnce(x: Act, c: seq<nat>, b: seq<nat>, left: nat)
    requires left > 0 && x.argv == c && x.rc != CLI_OK
    ensures Loops([x], c, b, left, CLI_OK)
  {
  }

  /** A condition that fails after `i` rounds. */
  lemma LoopsFail(was: seq<Act>, x: Act, c: seq<nat>, b: seq<nat>, i: nat)
    requires LoopsOn(was, c, b, i) && i < WHILE_MAX && x.argv == c && x.rc != CLI_OK
    ensures Loops(was + [x], c, b, WHILE_MAX, CLI_OK)
  {
    LoopsOnce(x, c, b, WHILE_MAX - i);
    LoopsThen(was, [x], c, b, i, WHILE_MAX - i, CLI_OK);
  }

  lemma LoopsBroken(x: Act, y: Act, c: seq<nat>, b: seq<nat>, left: nat)
    requires left > 0 && x.argv == c && x.rc == CLI_OK && y.argv == b && y.rc == CLI_ERR_HARDWARE
    ensures Loops([x, y], c, b, left, CLI_ERR_HARDWARE)
  {
  }

  /** A round with a condition that succeeds after `i` rounds. */
  lemma LoopsRound(was: seq<Act>, x: Act, y: Act, c: seq<nat>, b: seq<nat>, i: nat)
    requires LoopsOn(was, c, b, i) && i < WHILE_MAX && x.argv == c && x.rc == CLI_OK && y.argv == b
    ensures var sub := (was + [x]) + [y];
      if y.rc == CLI_ERR_HARDWARE then Loops(sub, c, b, WHILE_MAX, CLI_ERR_HARDWARE) else LoopsOn(sub, c, b, i + 1)
  {
    ConcatAssociates(was, [x], [y]);
    assert [x] + [y] == [x, y];
    if y.rc == CLI_ERR_HARDWARE {
      LoopsBroken(x, y, c, b, WHILE_MAX - i);
      LoopsThen(was, [x, y], c, b, i, WHILE_MAX - i, CLI_ERR_HARDWARE);
    } else {
      assert (was + [x, y])[..|was|] == was;
    }
  }

  /** All rounds over. */
  lemma LoopsOver(sub: seq<Act>, c: seq<nat>, b: seq<nat>)
    requires LoopsOn(sub, c, b, WHILE_MAX)
    ensures Loops(sub, c, b, WHILE_MAX, CLI_ERR_HARDWARE)
  {
    LoopsThen(sub, [], c, b, WHILE_MAX, 0, CLI_ERR_HARDWARE);
    assert sub + [] == sub;
  }

  /** `i` rounds of a repetition that goes on. */
  predicate RepeatsOn(sub: seq<Act>, argv: seq<nat>, i: nat)
    decreases i
  {
    if i == 0 then sub == []
    else
      && sub != [] && sub[|sub| - 1].argv == argv && sub[|sub| - 1].rc != CLI_ERR_HARDWARE
      && RepeatsOn(sub[..|sub| - 1], argv, i - 1)
  }

  lemma {:induction false} RepeatsThen(sub: seq<Act>, last: seq<Act>, argv: seq<nat>, i: nat, left: nat, rc: int)
    requires RepeatsOn(sub, argv, i) && Repeats(last, argv, left, rc)
    ensures Repeats(sub + last, argv, i + left, rc)
    decreases i
  {
    if i == 0 {
      assert sub + last == last;
    } else {
      var (init, x) := (sub[..|sub| - 1], sub[|sub| - 1]);
      var more := [x] + last;
      assert more[0] == x && more[1..] == last;
      RepeatsThen(init, more, argv, i - 1, left + 1, rc);
      assert init + more == sub + last;
    }
  }

  /** One more of `n` repetitions. */
  lemma RepeatsMore(was: seq<Act>, x: Act, argv: seq<nat>, i: nat, n: nat)
    requires RepeatsOn(was, argv, i) && i < n && x.argv == argv
    ensures if x.rc == CLI_ERR_HARDWARE then Repeats(was + [x], argv, n, x.rc) else RepeatsOn(was + [x], argv, i + 1)
  {
    if x.rc == CLI_ERR_HARDWARE {
      RepeatsThen(was, [x], argv, i, n - i, x.rc);
    } else {
      assert (was + [x])[..|was|] == was;
    }
  }

  /** All repetitions over. */
  lemma RepeatsOver(sub: seq<Act>, argv: seq<nat>, n: nat)
    requires RepeatsOn(sub, argv, n)
    ensures Repeats(sub, argv, n, CLI_OK)
  {
    RepeatsThen(sub, [], argv, n, 0, CLI_OK);
    assert sub + [] == sub;
  }

  // ---- What was executed ----------------------------------------------------------------------

  datatype Handler = IfHandler | WhileHandler | RepeatHandler | RunHandler | SetHandler | Other

  /**
   A handler that has returned - the words it was called with, and its result; an unknown command counts as `Other` - or a
   script line handed to the dispatcher, and the positional arguments then in force.
   */
  datatype Event = Did(handler: Handler, words: seq<seq<byte>>, rc: int) | Heard(text: seq<byte>, frame: Frame)

  function HandlerOf(name: seq<byte>): Handler {
    if name == IF then IfHandler else if name == WHILE then WhileHandler else if name == REPEAT then RepeatHandler
    else if name == RUN then RunHandler else if name == SET then SetHandler else Other
  }

  predicate Counted(e: Event) { e.Did? && (e.handler.SetHandler? || e.handler.Other?) }

  /** How many handlers other than the control commands ran. */
  function Calls(trace: seq<Event>): nat {
    if trace == [] then 0 else Calls(trace[..|trace| - 1]) + (if Counted(trace[|trace| - 1]) then 1 else 0)
  }

  /** The events a command leaves behind: those of what it dispatched, in order, and then its own. */
  function EventsOf(a: Act): seq<Event>
    decreases a
  {
    if a.words == [] then []
    else EventsOfAll(a.sub) + EventsOfLines(a.lines) + [Did(HandlerOf(a.words[0]), a.words, a.rc)]
  }

  function EventsOfAll(acts: seq<Act>): seq<Event>
    decreases acts
  {
    if acts == [] then [] else EventsOfAll(acts[..|acts| - 1]) + EventsOf(acts[|acts| - 1])
  }

  /** Each line and then what it ran. */
  function EventsOfLines(lines: seq<Line>): seq<Event>
    decreases lines
  {
    if lines == [] then []
    else
      var l := lines[|lines| - 1];
      EventsOfLines(lines[..|lines| - 1]) + ([Heard(l.text, l.frame)] + EventsOfAll(l.acts))
  }

  ghost predicate GrewLines(t: seq<Event>, u: seq<Event>, lines: seq<Line>) { u == t + EventsOfLines(lines) }

  lemma GrewLine(t: seq<Event>, u: seq<Event>, v: seq<Event>, lines: seq<Line>, l: Line)
    requires GrewLines(t, u, lines) && Grew(u + [Heard(l.text, l.frame)], v, l.acts)
    ensures GrewLines(t, v, lines + [l])
  {
    assert (lines + [l])[..|lines|] == lines;
    ConcatAssociates(u, [Heard(l.text, l.frame)], EventsOfAll(l.acts));
    ConcatAssociates(t, EventsOfLines(lines), [Heard(l.text, l.frame)] + EventsOfAll(l.acts));
  }

  /** What a command that dispatched only commands, or only lines, leaves behind when it returns. */
  lemma GrewAct(t: seq<Event>, u: seq<Event>, a: Act)
    requires a.words != [] && ((a.lines == [] && Grew(t, u, a.sub)) || (a.sub == [] && GrewLines(t, u, a.lines)))
    ensures u + [Did(HandlerOf(a.words[0]), a.words, a.rc)] == t + EventsOf(a)
  {
    var (x, y) := (EventsOfAll(a.sub), EventsOfLines(a.lines));
    assert x + y == if a.lines == [] then x else y;
    ConcatAssociates(t, x + y, [Did(HandlerOf(a.words[0]), a.words, a.rc)]);
  }

  /** A trace grew by what the commands `sub` left behind. */
  ghost predicate Grew(t: seq<Event>, u: seq<Event>, sub: seq<Act>) { u == t + EventsOfAll(sub) }

  lemma GrewNot(t: seq<Event>)
    ensures Grew(t, t, [])
  {
  }

  lemma GrewMore(t: seq<Event>, u: seq<Event>, v: seq<Event>, sub: seq<Act>, a: Act)
    requires Grew(t, u, sub) && v == u + EventsOf(a)
    ensures Grew(t, v, sub + [a])
  {
    assert (sub + [a])[..|sub|] == sub;
    ConcatAssociates(t, EventsOfAll(sub), EventsOf(a));
  }

  lemma {:induction false} GrewTwice(t: seq<Event>, u: seq<Event>, v: seq<Event>, sub: seq<Act>, more: seq<Act>)
    requires Grew(t, u, sub) && Grew(u, v, more)
    ensures Grew(t, v, sub + more)
    decreases |more|
  {
    if more == [] {
      assert sub + more == sub;
    } else {
      var (init, last) := (more[..|more| - 1], more[|more| - 1]);
      var w := u + EventsOfAll(init);
      GrewTwice(t, u, w, sub, init);
      ConcatAssociates(u, EventsOfAll(init), EventsOf(last));
      GrewMore(t, w, v, sub + init, last);
      assert sub + more == (sub + init) + [last];
    }
  }

  lemma CallsMore(t: seq<Event>, e: Event)
    ensures Calls(t + [e]) == Calls(t) + (if Counted(e) then 1 else 0)
  {
    assert (t + [e])[..|t|] == t;
  }
}
