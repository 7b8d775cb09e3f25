/** Variable expansion into the shared 512-byte buffer (src/cli/cli.c, `expand_argv`), against a pure expansion. */
module Expand {
  import opened Bytes
  import opened CLib
  import opened Parser
  import opened ShellState
  import opened Vars

  const BUF_SIZE: nat := 512
  const DOLLAR: byte := 36
  const OPEN: byte := 123
  const CLOSE: byte := 125
  const QUERY: byte := 63
  const NUMBER: byte := 35

  // ---- Pure expansion ----------------------------------------------------------------

  datatype Env = Env(vars: map<seq<byte>, seq<byte>>, frames: seq<Frame>, status: int)

  /** What follows a dollar sign: no reference at all, a name that is too long, or a value and the text after it. */
  datatype Ref = Literal | TooLong | Value(value: Option<seq<byte>>, rest: seq<byte>)

  /** How many characters of a name stand at the front of `s`. */
  function Span(s: seq<byte>): (n: nat)
    ensures n <= |s|
  {
    if s != [] && NameCharRest(s[0]) then 1 + Span(s[1..]) else 0
  }

  function SkipBrace(braced: bool, t: seq<byte>): seq<byte> {
    if braced && t != [] && t[0] == CLOSE then t[1..] else t
  }

  function Lookup(vars: map<seq<byte>, seq<byte>>, name: seq<byte>): Option<seq<byte>> {
    if name in vars then Some(vars[name]) else None
  }

  predicate Opens(s: seq<byte>) { s != [] && s[0] == OPEN }

  function Inner(s: seq<byte>): (u: seq<byte>)
    ensures |u| <= |s|
  {
    if Opens(s) then s[1..] else s
  }

  function ReadRef(s: seq<byte>, env: Env): (r: Ref)
    ensures r.Value? ==> |r.rest| <= |s|
  {
    var u := Inner(s);
    if u != [] && IsSpecial(u[0]) then Value(Some(Special(env.frames, env.status, u[0])), SkipBrace(Opens(s), u[1..]))
    else if u != [] && NameCharFirst(u[0]) then
      if Span(u) > NAME_MAX then TooLong
      else Value(Lookup(env.vars, u[..Span(u)]), SkipBrace(Opens(s), u[Span(u)..]))
    else Literal
  }

  function Text(v: Option<seq<byte>>): seq<byte> { if v.Some? then v.value else [] }

  function Before(a: seq<byte>, r: Option<seq<byte>>): Option<seq<byte>> {
    if r.Some? then Some(a + r.value) else None
  }

  /** The expansion of a token in one pass, values not being expanded again; none when some name is too long. */
  function Expansion(t: seq<byte>, env: Env): Option<seq<byte>>
    decreases |t|
  {
    if t == [] then Some([])
    else if t[0] != DOLLAR then Before([t[0]], Expansion(t[1..], env))
    else
      match ReadRef(t[1..], env)
      case Literal => Before([DOLLAR], Expansion(t[1..], env))
      case TooLong => None
      case Value(v, rest) => Before(Text(v), Expansion(rest, env))
  }

  /** The expansions of all tokens. */
  function Expansions(tokens: seq<seq<byte>>, env: Env): Option<seq<seq<byte>>> {
    if tokens == [] then Some([])
    else
      var (init, last) := (Expansions(tokens[..|tokens| - 1], env), Expansion(tokens[|tokens| - 1], env));
      if init.Some? && last.Some? then Some(init.value + [last.value]) else None
  }

  /** The room that strings and their terminators take. */
  function Room(strings: seq<seq<byte>>): nat {
    if strings == [] then 0 else Room(strings[..|strings| - 1]) + |strings[|strings| - 1]| + 1
  }

  /** That is their characters, and one more for each. */
  lemma {:induction false} RoomIs(strings: seq<seq<byte>>)
    ensures Room(strings) == |Concat(strings)| + |strings|
  {
    if strings != [] {
      RoomIs(strings[..|strings| - 1]);
    }
  }

  // ---- What references stand for -----------------------------------------------------------

  lemma Signs()
    ensures Spells([DOLLAR, OPEN, CLOSE, QUERY, NUMBER], "${}?#")
  {
  }

  datatype Braces = Unbraced | Braced | Unclosed

  type Place = k: nat | k < 10

  /** A piece of a token as it is written: plain characters, or a reference. */
  datatype Part =
    | Chars(text: seq<byte>)
    | Position(k: Place, braces: Braces)
    | ArgCount(braces: Braces)
    | LastStatus(braces: Braces)
    | Variable(name: seq<byte>, braces: Braces)

  function Referenced(name: seq<byte>, braces: Braces): seq<byte> {
    match braces
    case Unbraced => name
    case Braced => [OPEN] + (name + [CLOSE])
    case Unclosed => [OPEN] + name
  }

  function ReferredName(p: Part): seq<byte>
    requires !p.Chars?
  {
    match p
    case Position(k, _) => [Digit(k)]
    case ArgCount(_) => [NUMBER]
    case LastStatus(_) => [QUERY]
    case Variable(name, _) => name
  }

  function PartText(p: Part): seq<byte> {
    if p.Chars? then p.text else [DOLLAR] + Referenced(ReferredName(p), p.braces)
  }

  /** Nothing in `rest` would be taken for more of the reference. */
  predicate Apart(p: Part, rest: seq<byte>) {
    && (!p.Chars? && p.braces == Unclosed ==> rest == [] || rest[0] != CLOSE)
    && (p.Variable? && p.braces != Braced ==> rest == [] || !NameCharRest(rest[0]))
  }

  predicate Sound(p: Part) { (p.Chars? ==> DOLLAR !in p.text) && (p.Variable? ==> ValidName(p.name)) }

  function Token(parts: seq<Part>): seq<byte> {
    if parts == [] then [] else PartText(parts[0]) + Token(parts[1..])
  }

  predicate Legible(parts: seq<Part>) {
    parts == [] || (Sound(parts[0]) && Apart(parts[0], Token(parts[1..])) && Legible(parts[1..]))
  }

  /** What a part stands for, under the arguments a script was run with. */
  function Meaning(p: Part, vars: map<seq<byte>, seq<byte>>, args: seq<seq<byte>>, status: int): seq<byte> {
    match p
    case Chars(t) => t
    case Position(k, _) => if k >= |args| then [] else if |args[k]| > 63 then args[k][..63] else args[k]
    case ArgCount(_) => Decimal(if |args| == 0 then 0 else if |args| > 10 then 9 else |args| - 1)
    case LastStatus(_) => Signed(status)
    case Variable(name, _) => if name in vars then vars[name] else []
  }

  function Meanings(parts: seq<Part>, vars: map<seq<byte>, seq<byte>>, args: seq<seq<byte>>, status: int): seq<byte> {
    if parts == [] then [] else Meaning(parts[0], vars, args, status) + Meanings(parts[1..], vars, args, status)
  }

  /** The arguments in force: those of the innermost script, or none outside scripts. */
  predicate Under(env: Env, args: seq<seq<byte>>) {
    if env.frames == [] then args == [] else env.frames[|env.frames| - 1] == CutArgs(args)
  }

  lemma {:induction false} SpanName(name: seq<byte>, rest: seq<byte>)
    requires (forall i :: 0 <= i < |name| ==> NameCharRest(name[i])) && (rest == [] || !NameCharRest(rest[0]))
    ensures Span(name + rest) == |name|
  {
    if name == [] {
      assert name + rest == rest;
    } else {
      assert (name + rest)[1..] == name[1..] + rest;
      SpanName(name[1..], rest);
    }
  }

  /** What stands between the name and the text after the reference. */
  function Ending(braces: Braces, rest: seq<byte>): seq<byte> { if braces.Braced? then [CLOSE] + rest else rest }

  lemma EndingSkipped(braces: Braces, rest: seq<byte>)
    requires braces == Unclosed ==> rest == [] || rest[0] != CLOSE
    ensures SkipBrace(!braces.Unbraced?, Ending(braces, rest)) == rest
  {
  }

  lemma OpensInner(u: seq<byte>)
    ensures Opens([OPEN] + u) && Inner([OPEN] + u) == u
  {
  }

  lemma BracedText(name: seq<byte>, braces: Braces, rest: seq<byte>)
    requires !braces.Unbraced?
    ensures Referenced(name, braces) + rest == [OPEN] + (name + Ending(braces, rest))
  {
    if braces.Braced? {
      ConcatAssociates([OPEN], name + [CLOSE], rest);
      ConcatAssociates(name, [CLOSE], rest);
    } else {
      ConcatAssociates([OPEN], name, rest);
    }
  }

  lemma NotOpened(u: seq<byte>, rest: seq<byte>)
    requires u != [] && u[0] != OPEN
    ensures !Opens(u + rest) && Inner(u + rest) == u + rest
  {
  }

  lemma ReferenceInner(name: seq<byte>, braces: Braces, rest: seq<byte>)
    requires name != [] && name[0] != OPEN
    ensures var s := Referenced(name, braces) + rest;
      Inner(s) == name + Ending(braces, rest) && (Opens(s) <==> !braces.Unbraced?)
  {
    if braces.Unbraced? {
      NotOpened(name, rest);
    } else {
      BracedText(name, braces, rest);
      OpensInner(name + Ending(braces, rest));
    }
  }

  lemma SpecialRead(c: byte, braces: Braces, rest: seq<byte>, env: Env)
    requires IsSpecial(c) && (braces == Unclosed ==> rest == [] || rest[0] != CLOSE)
    ensures ReadRef(Referenced([c], braces) + rest, env) == Value(Some(Special(env.frames, env.status, c)), rest)
  {
    ReferenceInner([c], braces, rest);
    EndingSkipped(braces, rest);
    var u := [c] + Ending(braces, rest);
    assert u[0] == c && u[1..] == Ending(braces, rest);
  }

  lemma VariableRead(name: seq<byte>, braces: Braces, rest: seq<byte>, env: Env)
    requires ValidName(name) && Apart(Variable(name, braces), rest)
    ensures ReadRef(Referenced(name, braces) + rest, env) == Value(Lookup(env.vars, name), rest)
  {
    ReferenceInner(name, braces, rest);
    EndingSkipped(braces, rest);
    var end := Ending(braces, rest);
    SpanName(name, end);
    var u := name + end;
    assert u[0] == name[0] && u[..|name|] == name && u[|name|..] == end;
  }

  lemma PositionIs(k: nat, env: Env, args: seq<seq<byte>>)
    requires k < 10 && Under(env, args)
    ensures IsSpecial(Digit(k)) && Special(env.frames, env.status, Digit(k)) == if k < |args| then CutArg(args[k]) else []
  {
    DigitReads(k);
    var c := Digit(k);
    assert IsDigit(c);
    if env.frames != [] {
      var top := env.frames[|env.frames| - 1];
      assert top == CutArgs(args) && |top| == if |args| > MAX_ARGS then MAX_ARGS else |args|;
    }
  }

  lemma StatusIs(n: int)
    requires IsInt(n)
    ensures CutArg(Signed(n)) == Signed(n)
  {
    TenBillion();
    DecimalShort(if n < 0 then -n else n, 10, 10000000000);
  }

  lemma DollarFirst(s: seq<byte>, rest: seq<byte>)
    ensures var t := ([DOLLAR] + s) + rest; t != [] && t[0] == DOLLAR && t[1..] == s + rest
  {
  }

  lemma RefIs(p: Part, rest: seq<byte>, env: Env, args: seq<seq<byte>>)
    requires Sound(p) && !p.Chars? && Apart(p, rest) && Under(env, args) && IsInt(env.status)
    ensures var r := ReadRef(Referenced(ReferredName(p), p.braces) + rest, env);
      r.Value? && r.rest == rest && Text(r.value) == Meaning(p, env.vars, args, env.status)
  {
    match p {
      case Position(k, braces) =>
        PositionIs(k, env, args);
        SpecialRead(Digit(k), braces, rest, env);
      case ArgCount(braces) => SpecialRead(NUMBER, braces, rest, env);
      case LastStatus(braces) =>
        SpecialRead(QUERY, braces, rest, env);
        StatusIs(env.status);
      case Variable(name, braces) => VariableRead(name, braces, rest, env);
    }
  }

  /** One reference is replaced by what it stands for. */
  lemma PartRead(p: Part, rest: seq<byte>, env: Env, args: seq<seq<byte>>)
    requires Sound(p) && !p.Chars? && Apart(p, rest) && Under(env, args) && IsInt(env.status)
    ensures Expansion(PartText(p) + rest, env) == Before(Meaning(p, env.vars, args, env.status), Expansion(rest, env))
  {
    DollarFirst(Referenced(ReferredName(p), p.braces), rest);
    RefIs(p, rest, env, args);
  }

  lemma BeforeTwice(a: seq<byte>, b: seq<byte>, r: Option<seq<byte>>)
    ensures Before(a, Before(b, r)) == Before(a + b, r) && Before([], r) == r
  {
    if r.Some? {
      ConcatAssociates(a, b, r.value);
      assert [] + r.value == r.value;
    }
  }

  lemma {:induction false} CharsRead(t: seq<byte>, rest: seq<byte>, env: Env)
    requires DOLLAR !in t
    ensures Expansion(t + rest, env) == Before(t, Expansion(rest, env))
  {
    if t == [] {
      assert t + rest == rest;
      BeforeTwice([], [], Expansion(rest, env));
    } else {
      assert (t + rest)[1..] == t[1..] + rest;
      CharsRead(t[1..], rest, env);
      BeforeTwice([t[0]], t[1..], Expansion(rest, env));
      assert [t[0]] + t[1..] == t;
    }
  }

  /** A token expands to what its parts stand for, in order; values are not expanded again. */
  lemma {:induction false} Substitutes(parts: seq<Part>, env: Env, args: seq<seq<byte>>)
    requires Legible(parts) && Under(env, args) && IsInt(env.status)
    ensures Expansion(Token(parts), env) == Some(Meanings(parts, env.vars, args, env.status))
  {
    if parts != [] {
      Substitutes(parts[1..], env, args);
      if parts[0].Chars? {
        CharsRead(parts[0].text, Token(parts[1..]), env);
      } else {
        PartRead(parts[0], Token(parts[1..]), env, args);
      }
    }
  }

  /** A name longer than 31 characters makes the whole token fail. */
  lemma LongNameFails(name: seq<byte>, braces: Braces, rest: seq<byte>, env: Env)
    requires |name| > 31 && NameCharFirst(name[0]) && (forall i :: 0 <= i < |name| ==> NameCharRest(name[i]))
    requires braces.Braced? || rest == [] || !NameCharRest(rest[0])
    ensures Expansion([DOLLAR] + (Referenced(name, braces) + rest), env) == None
  {
    var s := Referenced(name, braces) + rest;
    assert ([DOLLAR] + s)[1..] == s;
    ReferenceInner(name, braces, rest);
    SpanName(name, Ending(braces, rest));
    var u := name + Ending(braces, rest);
    assert u[0] == name[0];
  }

  /** A dollar sign before anything but a name or a special character stands for itself, braced or not. */
  lemma LoneDollar(s: seq<byte>, env: Env)
    requires var u := if s != [] && s[0] == OPEN then s[1..] else s;
      u == [] || !(NameCharRest(u[0]) || u[0] == QUERY || u[0] == NUMBER)
    ensures Expansion([DOLLAR] + s, env) == Before([DOLLAR], Expansion(s, env))
  {
    assert ([DOLLAR] + s)[1..] == s;
  }

  // ---- Tokens without a dollar -------------------------------------------------------------

  lemma {:induction false} Plain(t: seq<byte>, env: Env)
    requires DOLLAR !in t
    ensures Expansion(t, env) == Some(t)
  {
    if t != [] {
      Plain(t[1..], env);
      assert [t[0]] + t[1..] == t;
    }
  }

  // ---- The code: one reference -------------------------------------------------------------

  /** The variables and positional arguments in force. */
  ghost function EnvOf(vars: Table, shell: State): Env
    requires shell.Valid()
    reads vars.slots, shell, shell.stack
  {
    Env(vars.Map(), shell.Frames(), shell.status)
  }

  /** The name loop. */
  method NameEnd(line: array<byte>, from: nat, ghost n: nat, ghost u: seq<byte>) returns (s: nat)
    requires Holds(line[..], from, n, u)
    ensures s == from + Span(u) <= n && line[from..s] == u[..Span(u)] && Holds(line[..], s, n, u[Span(u)..])
  {
    s := from;
    ghost var t := u;
    ghost var k: nat := 0;
    while NameCharRest(line[s])
      invariant s == from + k && k + Span(t) == Span(u) && k <= |u| && t == u[k..] && Holds(line[..], s, n, t)
      decreases n - s
    {
      assert t != [];
      Advance(line[..], s, n, t);
      s, t, k := s + 1, t[1..], k + 1;
      assert u[k - 1..][1..] == u[k..];
    }
    if t != [] {
      Advance(line[..], s, n, t);
    }
    SliceOfSlice(line[..], from, n, 0, k);
  }

  /** The closing brace, if it is there. */
  method SkipClose(line: array<byte>, from: nat, braced: bool, ghost n: nat, ghost t: seq<byte>) returns (s: nat)
    requires Holds(line[..], from, n, t)
    ensures from <= s && Holds(line[..], s, n, SkipBrace(braced, t))
  {
    s := from;
    if t != [] {
      Advance(line[..], s, n, t);
    }
    if braced && line[s] == CLOSE {
      s := s + 1;
    }
  }

  datatype Kind = Bare | LongName | Reference

  ghost function RefOf(kind: Kind, value: Option<seq<byte>>, rest: seq<byte>): Ref {
    match kind
    case Bare => Literal
    case LongName => TooLong
    case Reference => Value(value, rest)
  }

  /** The reference at a name or a special character, behind the brace if there is one. */
  ghost predicate ReadsTo(u: seq<byte>, braced: bool, env: Env, kind: Kind, value: Option<seq<byte>>, rest: seq<byte>) {
    RefOf(kind, value, rest) ==
    if u != [] && IsSpecial(u[0]) then Value(Some(Special(env.frames, env.status, u[0])), SkipBrace(braced, u[1..]))
    else if u != [] && NameCharFirst(u[0]) then
      if Span(u) > NAME_MAX then TooLong else Value(Lookup(env.vars, u[..Span(u)]), SkipBrace(braced, u[Span(u)..]))
    else Literal
  }

  method ReadSpecial(line: array<byte>, from: nat, braced: bool, vars: Table, shell: State, ghost n: nat, ghost u: seq<byte>)
    returns (value: Option<seq<byte>>, next: nat, ghost rest: seq<byte>)
    requires Holds(line[..], from, n, u) && shell.Valid() && IsSpecial(line[from])
    ensures ReadsTo(u, braced, EnvOf(vars, shell), Reference, value, rest)
    ensures from < next && Holds(line[..], next, n, rest)
  {
    if u != [] {
      Advance(line[..], from, n, u);
    }
    var v := shell.Expand(line[from]);
    value, rest := Some(v), SkipBrace(braced, u[1..]);
    next := SkipClose(line, from + 1, braced, n, u[1..]);
  }

  method ReadName(line: array<byte>, from: nat, braced: bool, vars: Table, shell: State, ghost n: nat, ghost u: seq<byte>)
    returns (kind: Kind, value: Option<seq<byte>>, next: nat, ghost rest: seq<byte>)
    requires Holds(line[..], from, n, u) && vars.Valid() && shell.Valid()
    requires !IsSpecial(line[from]) && NameCharFirst(line[from])
    ensures ReadsTo(u, braced, EnvOf(vars, shell), kind, value, rest)
    ensures kind == Reference ==> from < next && Holds(line[..], next, n, rest)
  {
    if u != [] {
      Advance(line[..], from, n, u);
    }
    kind, value, rest := LongName, None, u;
    next := NameEnd(line, from, n, u);
    if next - from > NAME_MAX {
      return;
    }
    value := vars.Get(line[from..next]);
    kind, rest := Reference, SkipBrace(braced, u[Span(u)..]);
    next := SkipClose(line, next, braced, n, u[Span(u)..]);
  }

  /** The reference behind a dollar, from the opening brace or the name on. */
  method ReadReference(line: array<byte>, src: nat, vars: Table, shell: State, ghost n: nat, ghost s: seq<byte>)
    returns (kind: Kind, value: Option<seq<byte>>, next: nat, ghost rest: seq<byte>)
    requires Holds(line[..], src, n, s) && vars.Valid() && shell.Valid()
    ensures ReadRef(s, EnvOf(vars, shell)) == RefOf(kind, value, rest)
    ensures kind == Reference ==> src < next && Holds(line[..], next, n, rest)
  {
    ghost var u := Inner(s);
    kind, value, next, rest := Bare, None, src, s;
    if s != [] {
      Advance(line[..], src, n, s);
    }
    var braced := line[next] == OPEN;
    if braced {
      next := next + 1;
    }
    if u != [] {
      Advance(line[..], next, n, u);
    }
    if IsSpecial(line[next]) {
      kind := Reference;
      value, next, rest := ReadSpecial(line, next, braced, vars, shell, n, u);
    } else if NameCharFirst(line[next]) {
      kind, value, next, rest := ReadName(line, next, braced, vars, shell, n, u);
    }
    RefReads(s, EnvOf(vars, shell), kind, value, rest);
  }

  lemma RefReads(s: seq<byte>, env: Env, kind: Kind, value: Option<seq<byte>>, rest: seq<byte>)
    requires ReadsTo(Inner(s), Opens(s), env, kind, value, rest)
    ensures ReadRef(s, env) == RefOf(kind, value, rest)
  {
  }

  // ---- The code: one token -----------------------------------------------------------------

  ghost predicate Sane(env: Env) {
    && (forall n :: n in env.vars ==> 0 !in env.vars[n])
    && (forall i :: 0 <= i < |env.frames| ==> SmallFrame(env.frames[i]))
  }

  lemma EnvSane(vars: Table, shell: State)
    requires vars.Valid() && shell.Valid()
    ensures Sane(EnvOf(vars, shell))
  {
    TableBounded(vars.slots[..]);
  }

  lemma SignedNoNul(n: int)
    ensures 0 !in Signed(n) && (n >= 0 ==> 0 !in Decimal(n))
  {
    var m := if n < 0 then -n else n;
    DecimalDigits(m);
    forall i | 0 <= i < |Decimal(m)| ensures Decimal(m)[i] != 0 {
      var d: nat :| d < 10 && Decimal(m)[i] == Digit(d);
      DigitReads(d);
    }
  }

  lemma RefNoNul(s: seq<byte>, env: Env)
    requires Sane(env)
    ensures ReadRef(s, env).Value? ==> 0 !in Text(ReadRef(s, env).value)
  {
    SignedNoNul(env.status);
    var top: Frame := if env.frames == [] then [] else env.frames[|env.frames| - 1];
    SignedNoNul(if top == [] then 0 else |top| - 1);
  }

  /** There is an expansion, and it fits the buffer from `tok` on with its terminator. */
  predicate Fits(tok: nat, e: Option<seq<byte>>) { e.Some? && tok + |e.value| + 1 <= BUF_SIZE }

  /** `acc`, the expansion of the token up to `t`, stands in the buffer from `tok` to `off`. */
  ghost predicate Expanding(b: seq<byte>, tok: nat, off: nat, acc: seq<byte>, whole: seq<byte>, t: seq<byte>, env: Env) {
    && |b| == BUF_SIZE && b[BUF_SIZE - 1] == 0 && off == tok + |acc| <= BUF_SIZE && (acc != [] ==> off < BUF_SIZE)
    && b[tok..off] == acc && 0 !in acc && Expansion(whole, env) == Before(acc, Expansion(t, env))
  }

  /** Text `v` written behind what is there. */
  lemma ExpandingMore(b: seq<byte>, b': seq<byte>, tok: nat, off: nat, acc: seq<byte>, whole: seq<byte>, t: seq<byte>,
    env: Env, v: seq<byte>, rest: seq<byte>)
    requires Expanding(b, tok, off, acc, whole, t, env) && 0 !in v && (v == [] || off + |v| < BUF_SIZE)
    requires b' == b[..off] + v + b[off + |v|..] && Expansion(t, env) == Before(v, Expansion(rest, env))
    ensures Expanding(b', tok, off + |v|, acc + v, whole, rest, env) && b'[..tok] == b[..tok]
  {
    assert b'[tok..off + |v|] == b[tok..off] + v;
    if Expansion(rest, env).Some? {
      ConcatAssociates(acc, v, Expansion(rest, env).value);
    }
  }

  /** No room for `v`: the whole token has none. */
  lemma ExpandingFull(b: seq<byte>, tok: nat, off: nat, acc: seq<byte>, whole: seq<byte>, t: seq<byte>, env: Env,
    v: seq<byte>, rest: seq<byte>)
    requires Expanding(b, tok, off, acc, whole, t, env) && off + |v| >= BUF_SIZE
    requires Expansion(t, env) == Before(v, Expansion(rest, env))
    ensures !Fits(tok, Expansion(whole, env))
  {
  }

  /** `memcpy` into the buffer. */
  method Copy(buf: array<byte>, off: nat, v: seq<byte>)
    requires off + |v| <= buf.Length
    modifies buf
    ensures buf[..] == old(buf[..off]) + v + old(buf[off + |v|..])
  {
    forall i | 0 <= i < |v| {
      buf[off + i] := v[i];
    }
  }

  /** Append text to the token in the buffer, if it fits below the last byte. */
  method Append(buf: array<byte>, off0: nat, v: seq<byte>, ghost tok: nat, ghost acc: seq<byte>, ghost whole: seq<byte>,
                ghost t: seq<byte>, ghost rest: seq<byte>, ghost env: Env)
    returns (ok: bool, off: nat)
    requires Expanding(buf[..], tok, off0, acc, whole, t, env) && 0 !in v
    requires Expansion(t, env) == Before(v, Expansion(rest, env))
    modifies buf
    ensures buf[BUF_SIZE - 1] == 0 && buf[..tok] == old(buf[..tok])
    ensures if ok then Expanding(buf[..], tok, off, acc + v, whole, rest, env) else !Fits(tok, Expansion(whole, env))
  {
    off := off0;
    if off + |v| >= BUF_SIZE {
      ExpandingFull(buf[..], tok, off, acc, whole, t, env, v, rest);
      return false, off;
    }
    ExpandingMore(buf[..], buf[..off] + v + buf[off + |v|..], tok, off, acc, whole, t, env, v, rest);
    Copy(buf, off, v);
    ok, off := true, off + |v|;
  }

  lemma ExpandingUnset(b: seq<byte>, tok: nat, off: nat, acc: seq<byte>, whole: seq<byte>, t: seq<byte>, env: Env, rest: seq<byte>)
    requires Expanding(b, tok, off, acc, whole, t, env) && Expansion(t, env) == Before([], Expansion(rest, env))
    ensures Expanding(b, tok, off, acc, whole, rest, env)
  {
    if Expansion(rest, env).Some? {
      assert [] + Expansion(rest, env).value == Expansion(rest, env).value;
    }
  }

  /** A dollar sign and what it refers to. */
  method ExpandDollar(line: array<byte>, src: nat, buf: array<byte>, off0: nat, vars: Table, shell: State,
                      ghost n: nat, ghost tok: nat, ghost acc0: seq<byte>, ghost whole: seq<byte>, ghost t: seq<byte>)
    returns (ok: bool, next: nat, off: nat, ghost acc: seq<byte>, ghost rest: seq<byte>)
    requires vars.Valid() && shell.Valid() && line != buf && Holds(line[..], src, n, t) && t != [] && t[0] == DOLLAR
    requires Expanding(buf[..], tok, off0, acc0, whole, t, EnvOf(vars, shell))
    modifies buf
    ensures buf.Length == BUF_SIZE && buf[BUF_SIZE - 1] == 0 && buf[..tok] == old(buf[..tok])
    ensures ok ==> Expanding(buf[..], tok, off, acc, whole, rest, EnvOf(vars, shell))
    ensures ok ==> src < next && Holds(line[..], next, n, rest)
    ensures !ok ==> !Fits(tok, Expansion(whole, EnvOf(vars, shell)))
  {
    ghost var env := EnvOf(vars, shell);
    EnvSane(vars, shell);
    Advance(line[..], src, n, t);
    RefNoNul(t[1..], env);
    off, acc, ok := off0, acc0, true;
    var kind, value;
    kind, value, next, rest := ReadReference(line, src + 1, vars, shell, n, t[1..]);
    if kind == LongName {
      ok := false;
    } else if kind == Bare {
      next, rest := src + 1, t[1..];
      ok, off := Append(buf, off, [DOLLAR], tok, acc, whole, t, rest, env);
      acc := acc + [DOLLAR];
    } else if value.Some? {
      ok, off := Append(buf, off, value.value, tok, acc, whole, t, rest, env);
      acc := acc + value.value;
    } else {
      ExpandingUnset(buf[..], tok, off, acc, whole, t, env, rest);
    }
  }

  /** One token: its expansion and a terminator, from `tok` on. */
  method ExpandToken(line: array<byte>, from: nat, buf: array<byte>, tok: nat, vars: Table, shell: State,
                     ghost n: nat, ghost whole: seq<byte>)
    returns (ok: bool, off: nat)
    requires vars.Valid() && shell.Valid() && line != buf && Holds(line[..], from, n, whole)
    requires buf.Length == BUF_SIZE && buf[BUF_SIZE - 1] == 0 && tok <= BUF_SIZE
    modifies buf
    ensures buf[BUF_SIZE - 1] == 0 && buf[..tok] == old(buf[..tok])
    ensures ok == Fits(tok, Expansion(whole, EnvOf(vars, shell)))
    ensures ok ==> var e := Expansion(whole, EnvOf(vars, shell)).value;
      off == tok + |e| + 1 && Stored(buf[..], tok, e, off)
  {
    ghost var (env, t, acc) := (EnvOf(vars, shell), whole, []);
    var src: nat := from;
    off, ok := tok, true;
    if Expansion(whole, env).Some? {
      assert [] + Expansion(whole, env).value == Expansion(whole, env).value;
    }
    while line[src] != 0
      invariant Holds(line[..], src, n, t) && Expanding(buf[..], tok, off, acc, whole, t, env)
      invariant EnvOf(vars, shell) == env && buf[..tok] == old(buf[..tok])
      decreases n - src
    {
      Advance(line[..], src, n, t);
      if line[src] == DOLLAR {
        ok, src, off, acc, t := ExpandDollar(line, src, buf, off, vars, shell, n, tok, acc, whole, t);
      } else {
        ok, off := Append(buf, off, [line[src]], tok, acc, whole, t, t[1..], env);
        src, acc, t := src + 1, acc + [line[src]], t[1..];
      }
      if !ok {
        return;
      }
    }
    if off >= BUF_SIZE {
      return false, off;
    }
    buf[off] := 0;
    off := off + 1;
  }

  // ---- The code: all tokens ----------------------------------------------------------------

  /** All expansions exist and fit the buffer together. */
  predicate AllFit(es: Option<seq<seq<byte>>>) { es.Some? && Room(es.value) <= BUF_SIZE }

  /** If the first `i` tokens cannot be expanded into the buffer, all of them cannot. */
  lemma {:induction false} PrefixFits(tokens: seq<seq<byte>>, env: Env, i: nat)
    requires i <= |tokens| && AllFit(Expansions(tokens, env))
    ensures AllFit(Expansions(tokens[..i], env))
  {
    if i == |tokens| {
      assert tokens[..i] == tokens;
    } else {
      var init := tokens[..|tokens| - 1];
      var es := Expansions(tokens, env).value;
      assert es[..|es| - 1] == Expansions(init, env).value;
      PrefixFits(init, env, i);
      assert init[..i] == tokens[..i];
    }
  }

  lemma ExpansionsMore(tokens: seq<seq<byte>>, env: Env, i: nat, done: seq<seq<byte>>)
    requires i < |tokens| && Expansions(tokens[..i], env) == Some(done)
    ensures var e := Expansion(tokens[i], env);
      Expansions(tokens[..i + 1], env) == if e.Some? then Some(done + [e.value]) else None
  {
    assert tokens[..i + 1][..i] == tokens[..i];
  }

  lemma RoomMore(done: seq<seq<byte>>, e: seq<byte>)
    ensures Room(done + [e]) == Room(done) + |e| + 1
  {
  }

  /** The first `i` expansions fill the buffer up to `off`. */
  ghost predicate Placed(b: seq<byte>, tokens: seq<seq<byte>>, env: Env, i: nat, off: nat, out: seq<nat>, done: seq<seq<byte>>) {
    && |out| == |done| == i <= |tokens| && Expansions(tokens[..i], env) == Some(done) && Room(done) == off <= BUF_SIZE
    && AllStored(b, out, done, off)
  }

  lemma PlacedMore(b: seq<byte>, b': seq<byte>, tokens: seq<seq<byte>>, env: Env, i: nat, off: nat, out: seq<nat>,
    done: seq<seq<byte>>, e: seq<byte>, off': nat)
    requires Placed(b, tokens, env, i, off, out, done) && i < |tokens| && Expansion(tokens[i], env) == Some(e)
    requires |b'| == |b| == BUF_SIZE && b'[..off] == b[..off] && off' == off + |e| + 1 && Stored(b', off, e, off')
    ensures Placed(b', tokens, env, i + 1, off', out + [off], done + [e])
  {
    ExpansionsMore(tokens, env, i, done);
    RoomMore(done, e);
    StillStored(b, b', out, done, off, off');
    StoredMore(b', out + [off], done, e, off');
  }

  lemma PlacedFull(b: seq<byte>, tokens: seq<seq<byte>>, env: Env, i: nat, off: nat, out: seq<nat>, done: seq<seq<byte>>)
    requires Placed(b, tokens, env, i, off, out, done) && i < |tokens| && !Fits(off, Expansion(tokens[i], env))
    ensures !AllFit(Expansions(tokens, env))
  {
    if AllFit(Expansions(tokens, env)) {
      PrefixFits(tokens, env, i + 1);
      ExpansionsMore(tokens, env, i, done);
      RoomMore(done, Expansion(tokens[i], env).value);
    }
  }

  /**
   `expand_argv`. It succeeds exactly when no name is longer than 31 characters and the expansions fit the buffer
   with their terminators; then each argument is the expansion of its token. The last byte of the buffer is NUL
   whatever happens.
   */
  method ExpandArgv(line: array<byte>, argv: seq<nat>, buf: array<byte>, vars: Table, shell: State,
                    ghost n: nat, ghost tokens: seq<seq<byte>>)
    returns (ok: bool, out: seq<nat>)
    requires vars.Valid() && shell.Valid() && line != buf && |argv| == |tokens| && AllStored(line[..], argv, tokens, n)
    requires buf.Length == BUF_SIZE && buf[BUF_SIZE - 1] == 0
    modifies buf
    ensures buf[BUF_SIZE - 1] == 0
    ensures ok == AllFit(Expansions(tokens, EnvOf(vars, shell)))
    ensures ok ==> var es := Expansions(tokens, EnvOf(vars, shell)).value;
      |out| == |tokens| == |es| && AllStored(buf[..], out, es, BUF_SIZE)
  {
    ghost var env := EnvOf(vars, shell);
    ghost var done: seq<seq<byte>> := [];
    var off := 0;
    out := [];
    for i := 0 to |argv|
      invariant buf[BUF_SIZE - 1] == 0 && Placed(buf[..], tokens, env, i, off, out, done)
    {
      ghost var was := buf[..];
      assert Stored(line[..], argv[i], tokens[i], n);
      var tok := off;
      ok, off := ExpandToken(line, argv[i], buf, tok, vars, shell, argv[i] + |tokens[i]|, tokens[i]);
      if !ok {
        PlacedFull(was, tokens, env, i, tok, out, done);
        return;
      }
      ghost var e := Expansion(tokens[i], env).value;
      PlacedMore(was, buf[..], tokens, env, i, tok, out, done, e, off);
      out, done := out + [tok], done + [e];
    }
    assert tokens[..|tokens|] == tokens;
    StillStored(buf[..], buf[..], out, done, off, BUF_SIZE);
    ok := true;
  }
}
