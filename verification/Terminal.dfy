/** Line assembly (src/cli/cli.c, `cli_feed`), and scripts from typed bytes to dispatched lines. */
module Terminal {
  import opened Bytes
  import opened Capture
  import opened CLib
  import opened ScriptSlot
  import opened ScriptText
  import opened ShellMeaning
  import opened ShellRun
  import opened ShellState
  import Scripts
  import Shell

  // ---- Bytes to lines --------------------------------------------------------------------

  /** The line so far, whether the last byte was a carriage return, and the lines that have ended. */
  datatype Typing = Typing(cur: seq<byte>, cr: bool, ended: seq<seq<byte>>)

  const BACKSPACE: byte := 8
  const DELETE: byte := 0x7F

  function Ended(t: Typing): Typing { t.(cur := [], ended := t.ended + [t.cur]) }

  function Type(t: Typing, b: byte): Typing {
    if b == LF then (if t.cr then t.(cr := false) else Ended(t))
    else if b == CR then Ended(t).(cr := true)
    else
      var u := t.(cr := false);
      if b == BACKSPACE || b == DELETE then (if u.cur == [] then u else u.(cur := u.cur[..|u.cur| - 1]))
      else if b < 32 || |u.cur| >= LINE_MAX - 1 then u
      else u.(cur := u.cur + [b])
  }

  /** Whether a byte ends the line. */
  predicate Ends(t: Typing, b: byte) { b == CR || (b == LF && !t.cr) }

  function TypeAll(t: Typing, bytes: seq<byte>): Typing {
    if bytes == [] then t else Type(TypeAll(t, bytes[..|bytes| - 1]), bytes[|bytes| - 1])
  }

  /** Bytes may arrive in any portions. */
  lemma {:induction false} TypePortions(t: Typing, a: seq<byte>, b: seq<byte>)
    ensures TypeAll(t, a + b) == TypeAll(TypeAll(t, a), b)
  {
    if b == [] {
      assert a + b == a;
    } else {
      TypePortions(t, a, b[..|b| - 1]);
      assert (a + b)[..|a + b| - 1] == a + b[..|b| - 1];
    }
  }

  /** The three ways to end a line. */
  datatype Newline = Lf | Cr | CrLf

  function NewlineBytes(n: Newline): seq<byte> {
    match n
    case Lf => [LF]
    case Cr => [CR]
    case CrLf => [CR, LF]
  }

  /** Printable, without delete, and short enough. */
  predicate Plain(line: seq<byte>) {
    |line| <= 255 && forall i :: 0 <= i < |line| ==> line[i] >= 32 && line[i] != 127
  }

  function TypedLines(lines: seq<seq<byte>>, n: Newline): seq<byte> {
    if lines == [] then [] else TypedLines(lines[..|lines| - 1], n) + (lines[|lines| - 1] + NewlineBytes(n))
  }

  lemma {:induction false} TypePlain(t: Typing, line: seq<byte>)
    requires t.cur == [] && Plain(line)
    ensures var u := TypeAll(t, line);
      u.cur == line && u.ended == t.ended && (if line == [] then u == t else !u.cr)
  {
    if line != [] {
      var (init, last) := (line[..|line| - 1], line[|line| - 1]);
      TypePlain(t, init);
      TypeOne(TypeAll(t, init), last);
      assert line == init + [last];
    }
  }

  lemma TypeOne(t: Typing, b: byte)
    requires b >= 32 && b != DELETE && |t.cur| < LINE_MAX - 1
    ensures Type(t, b) == t.(cur := t.cur + [b], cr := false)
  {
  }

  /** Lines typed with one kind of newline are the lines that end, whatever came before them. */
  lemma {:induction false} LinesTyped(t: Typing, lines: seq<seq<byte>>, n: Newline)
    requires t.cur == [] && (t.cr ==> n != Lf) && forall i :: 0 <= i < |lines| ==> Plain(lines[i])
    ensures var u := TypeAll(t, TypedLines(lines, n));
      u.cur == [] && u.ended == t.ended + lines && (u.cr ==> n != Lf)
  {
    if lines == [] {
      assert t.ended + [] == t.ended;
    } else {
      var (init, last) := (lines[..|lines| - 1], lines[|lines| - 1]);
      LinesTyped(t, init, n);
      var u := TypeAll(t, TypedLines(init, n));
      TypePortions(t, TypedLines(init, n), last + NewlineBytes(n));
      LineTyped(u, last, n);
      ConcatAssociates(t.ended, init, [last]);
      assert init + [last] == lines;
    }
  }

  lemma LineTyped(u: Typing, line: seq<byte>, n: Newline)
    requires u.cur == [] && (u.cr ==> n != Lf) && Plain(line)
    ensures var v := TypeAll(u, line + NewlineBytes(n));
      v.cur == [] && v.ended == u.ended + [line] && (v.cr ==> n != Lf)
  {
    TypePlain(u, line);
    var w := TypeAll(u, line);
    TypePortions(u, line, NewlineBytes(n));
    if n == CrLf {
      TypePortions(w, [CR], [LF]);
      assert [CR] + [LF] == [CR, LF];
      assert TypeAll(w, [CR]) == Type(TypeAll(w, []), CR);
      assert TypeAll(TypeAll(w, [CR]), [LF]) == Type(TypeAll(TypeAll(w, [CR]), []), LF);
    } else {
      var b := NewlineBytes(n)[0];
      assert NewlineBytes(n) == [b];
      assert TypeAll(w, [b]) == Type(TypeAll(w, []), b);
    }
  }

  // ---- Corrections -----------------------------------------------------------------------

  /** Backspace and delete. */
  predicate Erasers(e: seq<byte>) { forall i :: 0 <= i < |e| ==> e[i] == 8 || e[i] == 127 }

  /** Each takes one character off the line, as long as there is one. */
  lemma {:induction false} EraseMany(t: Typing, e: seq<byte>)
    requires Erasers(e)
    ensures var u := TypeAll(t, e);
      u.ended == t.ended && u.cur == if |e| <= |t.cur| then t.cur[..|t.cur| - |e|] else []
    ensures e != [] ==> !TypeAll(t, e).cr
  {
    if e != [] {
      EraseMany(t, e[..|e| - 1]);
    }
  }

  lemma {:induction false} TypeMore(t: Typing, more: seq<byte>)
    requires Plain(more) && |t.cur + more| <= 255
    ensures var u := TypeAll(t, more); u.cur == t.cur + more && u.ended == t.ended
  {
    if more == [] {
      assert t.cur + more == t.cur;
    } else {
      var (init, last) := (more[..|more| - 1], more[|more| - 1]);
      TypeMore(t, init);
      TypeOne(TypeAll(t, init), last);
      assert t.cur + more == (t.cur + init) + [last];
    }
  }

  /** A mistake that is erased again leaves the line as if it had not been made. */
  lemma Corrected(t: Typing, mistake: seq<byte>, e: seq<byte>, more: seq<byte>)
    requires Plain(mistake) && Erasers(e) && |e| == |mistake| && |t.cur + mistake| <= 255
    requires Plain(more) && |t.cur + more| <= 255
    ensures var u := TypeAll(t, mistake + (e + more)); u.cur == t.cur + more && u.ended == t.ended
  {
    TypePortions(t, mistake, e + more);
    TypeMore(t, mistake);
    var u := TypeAll(t, mistake);
    TypePortions(u, e, more);
    EraseMany(u, e);
    assert (t.cur + mistake)[..|t.cur|] == t.cur;
    TypeMore(TypeAll(u, e), more);
  }

  /** A full line takes no more characters, and other control characters are never part of a line. */
  lemma NotTaken(t: Typing, b: byte)
    requires (b < 32 && b != 8 && b != 10 && b != 13) || (b >= 32 && b != 127 && |t.cur| >= 255)
    ensures Type(t, b) == t.(cr := false)
  {
  }

  // ---- The code ------------------------------------------------------------------

  /** Whether the shell is in capture mode, and the capture. */
  datatype Mode = Mode(on: bool, cap: Cap)

  /** All that a byte can change: typing, capture mode and capture, shell and stored scripts. */
  datatype Scene = Scene(typing: Typing, mode: Mode, snap: Snap, scripts: map<seq<byte>, seq<byte>>)

  /**
   What a line does to the capture. In capture mode it joins the capture or ends it; otherwise the commands of the line may
   start a capture if there is none.
   */
  ghost predicate LineStep(m: Mode, line: seq<byte>, n: Mode) {
    if m.on then n.cap == AfterLine(m.cap, line) && n.on == n.cap.taken
    else n == m || (!m.cap.taken && n.on && n.cap.taken && |n.cap.name| <= NAME_MAX && n.cap.lines == [])
  }

  ghost predicate LineSteps(m: Mode, lines: seq<seq<byte>>, n: Mode)
    decreases |lines|
  {
    if lines == [] then n == m
    else
      var (init, last) := (lines[..|lines| - 1], lines[|lines| - 1]);
      exists k: Mode :: LineSteps(m, init, k) && LineStep(k, last, n)
  }

  ghost predicate Stepped(s: Scene, t: Scene) {
    if t.typing.ended == s.typing.ended then t == s.(typing := t.typing)
    else
      && t.typing.ended == s.typing.ended + [s.typing.cur] && LineStep(s.mode, s.typing.cur, t.mode)
      && (s.mode.on && SkipWs(s.typing.cur) != END ==> t == s.(typing := t.typing, mode := t.mode))
  }

  /** Lines captured on the way leave the shell and the store as they were. */
  ghost predicate Fed(s: Scene, t: Scene) {
    && s.typing.ended <= t.typing.ended
    && var (lines, c) := (t.typing.ended[|s.typing.ended|..], s.mode.cap);
      && LineSteps(s.mode, lines, t.mode)
      && (s.mode.on && c.taken && Captured(c.lines, lines) ==>
        t == s.(typing := t.typing, mode := Mode(true, c.(lines := c.lines + lines))))
  }

  lemma StepMore(m: Mode, lines: seq<seq<byte>>, k: Mode, l: seq<byte>, n: Mode)
    requires LineSteps(m, lines, k) && LineStep(k, l, n)
    ensures LineSteps(m, lines + [l], n)
  {
    var more := lines + [l];
    var (init, last) := (more[..|more| - 1], more[|more| - 1]);
    assert init == lines && last == l;
    assert LineSteps(m, init, k) && LineStep(k, last, n);
  }

  /** One more captured line. */
  lemma CaptureMore(c: Cap, lines: seq<seq<byte>>, l: seq<byte>, m: Mode, n: Mode)
    requires c.taken && Captured(c.lines, lines + [l]) && m == Mode(true, c.(lines := c.lines + lines)) && LineStep(m, l, n)
    ensures n == Mode(true, c.(lines := c.lines + (lines + [l]))) && SkipWs(l) != END
  {
    assert c.lines + (lines + [l]) == (c.lines + lines) + [l];
    assert (lines + [l])[|lines|] == l;
    CapturedOne(c.lines + lines, l);
  }

  lemma FedMore(s: Scene, t: Scene, u: Scene)
    requires Fed(s, t) && Stepped(t, u)
    ensures Fed(s, u)
  {
    var (lines, c) := (t.typing.ended[|s.typing.ended|..], s.mode.cap);
    if u.typing.ended != t.typing.ended {
      var l := t.typing.cur;
      var more := lines + [l];
      assert u.typing.ended[|s.typing.ended|..] == more;
      StepMore(s.mode, lines, t.mode, l, u.mode);
      if s.mode.on && c.taken && Captured(c.lines, more) {
        CapturedPrefix(c.lines, lines, [l]);
        CaptureMore(c, lines, l, t.mode, u.mode);
      }
    }
  }

  lemma FedStart(s: Scene)
    ensures Fed(s, s)
  {
    assert s.typing.ended[|s.typing.ended|..] == [];
    assert s.mode.cap.lines + [] == s.mode.cap.lines;
  }

  /** A capture whose shell has left capture mode is never ended there, and no other one starts. */
  lemma {:induction false} OrphanStays(c: Cap, lines: seq<seq<byte>>, n: Mode)
    requires c.taken && LineSteps(Mode(false, c), lines, n)
    ensures n == Mode(false, c)
    decreases |lines|
  {
    if lines != [] {
      var init := lines[..|lines| - 1];
      var k :| LineSteps(Mode(false, c), init, k) && LineStep(k, lines[|lines| - 1], n);
      OrphanStays(c, init, k);
    }
  }

  /** A shell with its line buffer. `capturing`: it is in capture mode. */
  class Console {
    const cli: Shell.Cli
    const cap: Heredoc
    const line: array<byte>
    var line_len: nat
    var last_was_cr: bool
    var capturing: bool
    ghost var ended: seq<seq<byte>>

    ghost function Footprint(): set<object> { {this, line, cap, cap.buf} + cli.Footprint() }

    ghost predicate Valid()
      reads Footprint()
    {
      && cap.store == cli.store && cli.Valid() && !cli.running && cap.Valid() && (capturing ==> cap.taken)
      && line.Length == LINE_MAX && line_len < LINE_MAX && 0 !in line[..line_len]
      && line != cap.buf && line !in cli.Footprint() && cap.buf !in cli.Footprint() && cap !in cli.Footprint()
      && this !in cli.Footprint()
    }

    ghost function Now(): Typing
      requires line_len <= line.Length
      reads this, line
    {
      Typing(line[..line_len], last_was_cr, ended)
    }

    ghost function Here(): Mode
      reads this, cap
    {
      Mode(capturing, cap.Now())
    }

    ghost function View(): Scene
      requires line_len <= line.Length && cli.state.Valid() && cli.store.flash.Valid()
      reads this, line, cap, cli, cli.state, cli.state.stack, cli.store, cli.store.flash, cli.store.flash.mem
    {
      Scene(Now(), Here(), cli.Now(), cli.store.Map())
    }

    constructor (cli: Shell.Cli, cap: Heredoc)
      requires cli.Valid() && !cli.running && cap.Valid() && cap.store == cli.store
      requires cap.buf !in cli.Footprint() && cap !in cli.Footprint()
      ensures this.cli == cli && this.cap == cap && Valid() && fresh(line)
      ensures line_len == 0 && !last_was_cr && !capturing
    {
      this.cli, this.cap := cli, cap;
      line := new byte[LINE_MAX];
      line_len, last_was_cr, capturing, ended := 0, false, false, [];
    }

    /** `cli_reset`: the line is dropped and capture mode left, but a capture stays taken. */
    method Reset()
      requires Valid()
      modifies this
      ensures Valid() && View() == old(View()).(typing := Typing([], false, old(ended)), mode := Mode(false, old(cap.Now())))
    {
      line_len, last_was_cr, capturing := 0, false, false;
      assert line[..line_len] == [];
    }

    /** `cmd_save` of `script save`, called in this shell. */
    method StartCapture(name: seq<byte>) returns (ok: bool)
      requires Valid()
      modifies `capturing, cap
      ensures Valid() && ok == (!old(cap.taken) && |name| <= NAME_MAX)
      ensures if ok then capturing && cap.Now() == Cap(true, name, []) else capturing == old(capturing) && cap.Now() == old(cap.Now())
    {
      ok := cap.CmdSave(name);
      capturing := capturing || ok;
    }

    /** The capture half of `end_of_line`; the callback leaves capture mode when the capture ends. */
    method CaptureLine(text: seq<byte>) returns (saved: bool, f: Scripts.Fault)
      requires Valid() && capturing
      modifies `capturing, cap, cap.buf, cli.store`versions, cli.store.flash, cli.store.flash.mem
      ensures Valid() && cli.Now() == old(cli.Now()).(disk := cli.store.Now()) && cli.trace == old(cli.trace)
      ensures LineStep(old(Here()), text, Here())
      ensures SkipWs(text) == END ==>
        Stores(old(cli.store.Map()), cli.store.Map(), old(cap.name), old(Joined(cap.lines)), saved, f,
          cli.store.flash.refused - old(cli.store.flash.refused))
      ensures SkipWs(text) != END ==> cli.store.Map() == old(cli.store.Map()) && cli.Now() == old(cli.Now())
    {
      saved, f := cap.CaptureLine(text);
      capturing := cap.taken;
    }

    /** The dispatch half; the line is cut into its words in place. */
    method DispatchHere(ghost text: seq<byte>) returns (ghost acts: seq<Act>)
      requires Valid() && line[..line_len] == text && line[line_len] == 0
      modifies cli.Footprint(), line
      ensures cli.Valid() && !cli.running && cap.Valid() && Here() == old(Here())
      ensures Handed(acts, text, old(cli.Env())) && Grew(old(cli.trace), cli.trace, acts)
      ensures acts != [] ==> Shell.RunTold(acts[0], old(cli.store.Map()), old(cli.Now()), cli.Now())
    {
      ghost var t := cli.trace;
      assert t + [] == t;
      var rc;
      rc, acts := cli.DispatchLine(line, line_len, text);
    }

    /** A command of the line may have been `script save`. */
    method MayStart(ghost text: seq<byte>)
      requires cap.Valid() && !capturing
      modifies `capturing, cap
      ensures cap.Valid() && (capturing ==> cap.taken) && LineStep(old(Here()), text, Here())
    {
      var starts: bool, name: seq<byte> := *, *;
      if starts {
        capturing := cap.CmdSave(name);
      }
    }

    /** What `end_of_line` does with a line that was terminated. */
    method HandOver(ghost text: seq<byte>) returns (saved: bool, f: Scripts.Fault, ghost acts: seq<Act>)
      requires Valid() && line[..line_len] == text && line[line_len] == 0
      modifies `capturing, cap, cap.buf, cli.Footprint(), line
      ensures cli.Valid() && !cli.running && cap.Valid() && (capturing ==> cap.taken)
      ensures LineStep(old(Here()), text, Here())
      ensures Grew(old(cli.trace), cli.trace, acts)
      ensures if old(capturing) then acts == [] else Handed(acts, text, old(cli.Env()))
      ensures acts != [] ==> Shell.RunTold(acts[0], old(cli.store.Map()), old(cli.Now()), cli.Now())
      ensures old(capturing) ==> cli.Now() == old(cli.Now()).(disk := cli.store.Now())
      ensures old(capturing) && SkipWs(text) == END ==>
        Stores(old(cli.store.Map()), cli.store.Map(), old(cap.name), old(Joined(cap.lines)), saved, f,
          cli.store.flash.refused - old(cli.store.flash.refused))
      ensures old(capturing) && SkipWs(text) != END ==>
        cli.store.Map() == old(cli.store.Map()) && cli.Now() == old(cli.Now())
    {
      saved, f, acts := false, Scripts.Good, [];
      GrewNot(cli.trace);
      if capturing {
        saved, f := CaptureLine(line[..line_len]);
      } else if line_len > 0 {
        acts := DispatchHere(text);
        MayStart(text);
      }
    }

    /** `end_of_line`: in capture mode every line goes to the capture, otherwise a line that is not empty is dispatched. */
    method EndOfLine() returns (saved: bool, f: Scripts.Fault, ghost acts: seq<Act>)
      requires Valid()
      modifies Footprint()
      ensures Valid() && Now() == Ended(old(Now()))
      ensures LineStep(old(Here()), old(Now()).cur, Here())
      ensures Grew(old(cli.trace), cli.trace, acts)
      ensures if old(capturing) then acts == [] else Handed(acts, old(Now()).cur, old(cli.Env()))
      ensures acts != [] ==> Shell.RunTold(acts[0], old(cli.store.Map()), old(cli.Now()), cli.Now())
      ensures old(capturing) ==> cli.Now() == old(cli.Now()).(disk := cli.store.Now())
      ensures old(capturing) && SkipWs(old(Now()).cur) == END ==>
        Stores(old(cli.store.Map()), cli.store.Map(), old(cap.name), old(Joined(cap.lines)), saved, f,
          cli.store.flash.refused - old(cli.store.flash.refused))
      ensures old(capturing) && SkipWs(old(Now()).cur) != END ==>
        cli.store.Map() == old(cli.store.Map()) && cli.Now() == old(cli.Now())
    {
      ghost var text := line[..line_len];
      line[line_len] := 0;
      assert line[..line_len] == text;
      saved, f, acts := HandOver(text);
      line_len := 0;
      ended := ended + [text];
      assert line[..line_len] == [];
    }

    /** A byte of a line. */
    method Edit(b: byte)
      requires Valid() && b != LF && b != CR
      modifies this`line_len, this`last_was_cr, line
      ensures Valid() && Now() == Type(old(Now()), b)
    {
      last_was_cr := false;
      if b == BACKSPACE || b == DELETE {
        if line_len > 0 {
          assert line[..line_len][..line_len - 1] == line[..line_len - 1];
          line_len := line_len - 1;
        }
      } else if b < 32 {
      } else if line_len < LINE_MAX - 1 {
        line[line_len] := b;
        line_len := line_len + 1;
        assert line[..line_len] == old(line[..line_len]) + [b];
      }
    }

    /** The loop body of `cli_feed`. */
    method FeedByte(b: byte) returns (saved: bool, f: Scripts.Fault, ghost acts: seq<Act>)
      requires Valid()
      modifies Footprint()
      ensures Valid() && Now() == Type(old(Now()), b) && Stepped(old(View()), View())
      ensures Grew(old(cli.trace), cli.trace, acts)
      ensures if Ends(old(Now()), b) && !old(capturing) then Handed(acts, old(Now()).cur, old(cli.Env())) else acts == []
      ensures acts != [] ==> Shell.RunTold(acts[0], old(cli.store.Map()), old(cli.Now()), cli.Now())
      ensures Ends(old(Now()), b) && old(capturing) && SkipWs(old(Now()).cur) == END ==>
        Stores(old(cli.store.Map()), cli.store.Map(), old(cap.name), old(Joined(cap.lines)), saved, f,
          cli.store.flash.refused - old(cli.store.flash.refused))
      ensures old(capturing) ==> cli.Now() == old(cli.Now()).(disk := cli.store.Now())
    {
      saved, f, acts := false, Scripts.Good, [];
      GrewNot(cli.trace);
      if b == LF {
        if last_was_cr {
          last_was_cr := false;
        } else {
          saved, f, acts := EndOfLine();
        }
      } else if b == CR {
        last_was_cr := true;
        saved, f, acts := EndOfLine();
      } else {
        Edit(b);
      }
    }

    /** `cli_feed`. */
    method Feed(data: seq<byte>)
      requires Valid()
      modifies Footprint()
      ensures Valid() && Now() == TypeAll(old(Now()), data) && Fed(old(View()), View())
    {
      FedStart(View());
      for i := 0 to |data|
        invariant Valid() && Now() == TypeAll(old(Now()), data[..i]) && Fed(old(View()), View())
      {
        ghost var t := View();
        assert data[..i + 1][..i] == data[..i];
        var saved, f, acts := FeedByte(data[i]);
        FedMore(old(View()), t, View());
      }
      assert data[..|data|] == data;
    }
  }

  // ---- From typed lines to dispatched lines ---------------------------------------------------

  lemma EndIsPlain()
    ensures Plain(END) && SkipWs(END) == END
  {
  }

  /** The lines of a script, typed during a capture. */
  method TypeLines(con: Console, name: seq<byte>, lines: seq<seq<byte>>, n: Newline)
    requires con.Valid() && con.capturing && con.cap.Now() == Cap(true, name, [])
    requires con.Now().cur == [] && (con.last_was_cr ==> n != Lf)
    requires Captured([], lines) && forall i :: 0 <= i < |lines| ==> Plain(lines[i])
    modifies con.Footprint()
    ensures con.Valid() && con.capturing && con.cap.Now() == Cap(true, name, lines)
    ensures con.Now().cur == [] && (con.last_was_cr ==> n != Lf)
    ensures con.cli.Now() == old(con.cli.Now()) && con.cli.store.Map() == old(con.cli.store.Map())
  {
    ghost var t := con.Now();
    LinesTyped(t, lines, n);
    assert [] + lines == lines;
    con.Feed(TypedLines(lines, n));
    assert con.ended[|t.ended|..] == lines;
  }

  /** `.end` after them. */
  method TypeEnd(con: Console, name: seq<byte>, lines: seq<seq<byte>>, n: Newline) returns (saved: bool, f: Scripts.Fault)
    requires con.Valid() && con.capturing && con.cap.Now() == Cap(true, name, lines)
    requires con.Now().cur == [] && (con.last_was_cr ==> n != Lf) && |Joined(lines)| <= BODY_MAX
    modifies con.Footprint()
    ensures con.Valid() && !con.capturing && !con.cap.taken && con.cli.Now() == old(con.cli.Now()).(disk := con.cli.store.Now())
    ensures Stores(old(con.cli.store.Map()), con.cli.store.Map(), name, Joined(lines), saved, f,
      con.cli.store.flash.refused - old(con.cli.store.flash.refused))
  {
    EndIsPlain();
    TypePlain(con.Now(), END);
    ghost var u := con.View();
    con.Feed(END);
    FedNothing(u, con.View());
    CapturedOne(lines, END);
    ghost var acts;
    saved, f, acts := con.FeedByte(NewlineBytes(n)[0]);
  }

  /**
   `script save`, the lines, and `.end`: the store gets the lines joined, or what a refused or failed save leaves. A body
   the store accepts is stored exactly if flash refuses nothing.
   */
  method CaptureScript(con: Console, name: seq<byte>, lines: seq<seq<byte>>, n: Newline) returns (saved: bool, f: Scripts.Fault)
    requires con.Valid() && !con.cap.taken && con.line_len == 0 && (con.last_was_cr ==> n != Lf)
    requires |name| <= NAME_MAX && Captured([], lines) && forall i :: 0 <= i < |lines| ==> Plain(lines[i])
    modifies con.Footprint()
    ensures con.Valid() && !con.capturing && !con.cap.taken && con.cli.Now() == old(con.cli.Now()).(disk := con.cli.store.Now())
    ensures Stores(old(con.cli.store.Map()), con.cli.store.Map(), name, Joined(lines), saved, f,
      con.cli.store.flash.refused - old(con.cli.store.flash.refused))
  {
    var ok := con.StartCapture(name);
    TypeLines(con, name, lines, n);
    assert [] + lines == lines;
    saved, f := TypeEnd(con, name, lines, n);
  }

  lemma FedNothing(s: Scene, t: Scene)
    requires Fed(s, t) && t.typing.ended == s.typing.ended && s.mode.on && s.mode.cap.taken
    requires |Joined(s.mode.cap.lines)| <= BODY_MAX
    ensures t == s.(typing := t.typing)
  {
    assert t.typing.ended[|s.typing.ended|..] == [];
    assert s.mode.cap.lines + [] == s.mode.cap.lines;
  }

  /** The slot had the script of that name; and unless it was erased, what ran are the commands among its lines. */
  ghost predicate RanLines(slot: nat, ran: seq<Line>, lines: seq<seq<byte>>, name: seq<byte>, d: Scripts.Disk, e: Scripts.Disk) {
    Shell.FromSlot(slot, ran, Joined(lines), name, d, e)
    && (e.versions[slot] == d.versions[slot] ==> Texts(ran) == Commands(lines))
    && (e.versions[slot] == d.versions[slot] && (forall l :: l in lines ==> Command(l)) ==> Texts(ran) == lines)
  }

  /**
   A typed `run NAME ARG...` whose script was stored from typed lines dispatches exactly those lines in order, less blank
   lines and comments, each with its words expanded under the arguments of the run, as long as nothing erases the
   script's slot meanwhile. What runs, in which order and with which results, is all in `act`.
   */
  method RunCaptured(con: Console, b: byte, words: seq<seq<byte>>, lines: seq<seq<byte>>) returns (ghost act: Act)
    requires con.Valid() && !con.capturing && con.cli.state.depth < STACK_DEPTH && Ends(con.Now(), b)
    requires Words(con.Now().cur, con.cli.Env()) == Some(words) && |words| >= 2 && words[0] == RUN && |words[1]| <= NAME_MAX
    requires words[1] in con.cli.store.Map() && con.cli.store.Map()[words[1]] == Joined(lines)
    requires forall i :: 0 <= i < |lines| ==> Plain(lines[i])
    modifies con.Footprint()
    ensures con.Valid() && con.cli.trace == old(con.cli.trace) + EventsOf(act)
    ensures act.words == words && act.rc == CLI_OK && AllSpoken(act.lines) && Framed(act.lines, CutArgs(words[1..]))
    ensures exists slot :: RanLines(slot, act.lines, lines, words[1], old(con.cli.store.Now()), con.cli.store.Now())
  {
    ghost var (m, s) := (con.cli.store.Map(), con.cli.Now());
    assert Shell.CanRun(words, m, s);
    var saved, f, acts := con.FeedByte(b);
    act := acts[0];
    assert acts == [act];
    OnlyOne(act, old(con.cli.trace), con.cli.trace);
    RunIs(act, lines, m, s, con.cli.Now());
  }

  lemma RunIs(a: Act, lines: seq<seq<byte>>, m: map<seq<byte>, seq<byte>>, s: Snap, t: Snap)
    requires Conforms(a) && |a.words| >= 2 && a.words[0] == RUN && |a.words[1]| <= NAME_MAX
    requires Shell.RunTold(a, m, s, t) && Shell.CanRun(a.words, m, s) && m[a.words[1]] == Joined(lines)
    requires forall i :: 0 <= i < |lines| ==> Plain(lines[i])
    ensures a.rc == CLI_OK && AllSpoken(a.lines) && Framed(a.lines, CutArgs(a.words[1..]))
    ensures exists slot :: RanLines(slot, a.lines, lines, a.words[1], s.disk, t.disk)
  {
    JoinedLines(lines);
    if forall l :: l in lines ==> Command(l) {
      AllCommands(lines);
    }
    ConformsIs(a);
    var slot :| Shell.FromSlot(slot, a.lines, Joined(lines), a.words[1], s.disk, t.disk);
    assert RanLines(slot, a.lines, lines, a.words[1], s.disk, t.disk);
  }

  lemma OnlyOne(a: Act, t: seq<Event>, u: seq<Event>)
    requires Grew(t, u, [a])
    ensures u == t + EventsOf(a)
  {
    assert [a][..0] == [];
    assert EventsOfAll([a]) == [] + EventsOf(a) == EventsOf(a);
  }
}
