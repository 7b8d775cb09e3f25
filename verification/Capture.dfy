/** Heredoc capture (src/cli/commands/cmd_script.c): typed lines become a stored script. */
module Capture {
  import opened Bytes
  import opened CLib
  import opened Flash
  import opened ScriptSlot
  import opened ScriptText
  import Scripts

  const END: seq<byte> := [46, 101, 110, 100]
  const ABORT: seq<byte> := [46, 97, 98, 111, 114, 116]

  lemma Closings()
    ensures Spells(END, ".end") && Spells(ABORT, ".abort")
  {
  }

  lemma {:induction false} JoinedMore(lines: seq<seq<byte>>, l: seq<byte>)
    ensures Joined(lines + [l]) == Joined(lines) + (l + [LF])
  {
    if lines == [] {
      assert [l][1..] == [];
      assert Joined([l]) == l + ([LF] + []);
    } else {
      JoinedMore(lines[1..], l);
      assert (lines + [l])[1..] == lines[1..] + [l];
      ConcatAssociates([LF], Joined(lines[1..]), l + [LF]);
      ConcatAssociates(lines[0], [LF] + Joined(lines[1..]), l + [LF]);
    }
  }

  /** Lines that are only captured: none closes the capture, and with what is there they fit a script. */
  ghost predicate Captured(held: seq<seq<byte>>, lines: seq<seq<byte>>) {
    && (forall i :: 0 <= i < |lines| ==> SkipWs(lines[i]) != END && SkipWs(lines[i]) != ABORT)
    && |Joined(held + lines)| <= BODY_MAX
  }

  lemma {:induction false} JoinedGrows(lines: seq<seq<byte>>, more: seq<seq<byte>>)
    ensures |Joined(lines)| <= |Joined(lines + more)|
  {
    if more == [] {
      assert lines + more == lines;
    } else {
      var init := more[..|more| - 1];
      JoinedGrows(lines, init);
      JoinedMore(lines + init, more[|more| - 1]);
      assert lines + more == (lines + init) + [more[|more| - 1]];
    }
  }

  lemma CapturedPrefix(held: seq<seq<byte>>, lines: seq<seq<byte>>, more: seq<seq<byte>>)
    requires Captured(held, lines + more)
    ensures Captured(held, lines)
  {
    JoinedGrows(held + lines, more);
    assert held + (lines + more) == (held + lines) + more;
    assert forall i :: 0 <= i < |lines| ==> lines[i] == (lines + more)[i];
  }

  lemma CapturedOne(held: seq<seq<byte>>, line: seq<byte>)
    ensures Captured(held, [line]) <==> SkipWs(line) != END && SkipWs(line) != ABORT && |Joined(held + [line])| <= BODY_MAX
  {
    assert [line][0] == line;
  }

  /** What a save of `body` comes to: not accepted, or stored as its fault says; it fails exactly if flash refuses once. */
  ghost predicate Stores(m: map<seq<byte>, seq<byte>>, n: map<seq<byte>, seq<byte>>, name: seq<byte>, body: seq<byte>,
    saved: bool, f: Scripts.Fault, refusals: int)
  {
    if Scripts.Accepts(m, name, body)
    then saved == (f == Scripts.Good) && n == Scripts.Saved(m, name, body, f) && refusals == Refusal(!saved)
    else !saved && n == m && refusals == 0
  }

  /** Whether a capture is on, the name it is for, and its lines. */
  datatype Cap = Cap(taken: bool, name: seq<byte>, lines: seq<seq<byte>>)

  /** A line during a capture joins it or ends it. */
  ghost function AfterLine(c: Cap, line: seq<byte>): Cap {
    if !c.taken then c
    else if Captured(c.lines, [line]) then c.(lines := c.lines + [line])
    else Cap(false, [], [])
  }

  /** `g_cap_buf`, `g_cap_len`, `g_cap_name`, `g_cap_owner_taken`. Ghost: the lines captured so far. */
  class Heredoc {
    const store: Scripts.Store
    const buf: array<byte>
    var len: nat
    var name: seq<byte>
    var taken: bool
    ghost var lines: seq<seq<byte>>

    ghost function Footprint(): set<object> { {this, buf, store, store.flash, store.flash.mem} }

    ghost predicate Valid()
      reads Footprint()
    {
      && buf.Length == BODY_MAX + 1 && buf != store.flash.mem && store.Valid()
      && len <= BODY_MAX && (taken ==> buf[..len] == Joined(lines))
    }

    ghost function Now(): Cap
      reads this
    {
      Cap(taken, name, lines)
    }

    constructor (store: Scripts.Store)
      requires store.Valid()
      ensures this.store == store && Valid() && !taken && fresh(buf)
    {
      this.store, buf := store, new byte[BODY_MAX + 1];
      len, name, taken, lines := 0, [], false, [];
    }

    /** `cmd_save`. */
    method CmdSave(n: seq<byte>) returns (ok: bool)
      requires Valid()
      modifies this
      ensures Valid() && ok == (!old(taken) && |n| <= NAME_MAX)
      ensures ok ==> taken && name == n && lines == []
      ensures !ok ==> taken == old(taken) && name == old(name) && lines == old(lines)
    {
      if taken {
        return false;
      }
      if |n| > NAME_MAX {
        return false;
      }
      taken, len, name, lines := true, 0, n, [];
      assert buf[..0] == [];
      ok := true;
    }

    /** The end of a capture, however it came. */
    method Reset()
      requires Valid()
      modifies this
      ensures Valid() && Now() == Cap(false, [], [])
    {
      taken, len, name, lines := false, 0, [], [];
    }

    method Append(line: seq<byte>)
      requires Valid() && taken && |Joined(lines + [line])| <= BODY_MAX
      modifies this, buf
      ensures Valid() && taken && name == old(name) && lines == old(lines) + [line]
    {
      JoinedMore(lines, line);
      forall i | 0 <= i < |line| {
        buf[len + i] := line[i];
      }
      buf[len + |line|] := LF;
      len, lines := len + |line| + 1, lines + [line];
      assert buf[..len] == old(buf[..len]) + (line + [LF]);
    }

    /** `capture_line_cb`. A line other than `.end` and `.abort` is appended with its newline, or ends a capture it overflows. */
    method CaptureLine(line: seq<byte>) returns (saved: bool, f: Scripts.Fault)
      requires Valid() && taken
      modifies this, buf, store`versions, store.flash, store.flash.mem
      ensures Valid() && store.open == old(store.open) && Scripts.Later(old(store.Now()), store.Now())
      ensures SkipWs(line) == END ==>
        Stores(old(store.Map()), store.Map(), old(name), old(Joined(lines)), saved, f, store.flash.refused - old(store.flash.refused))
      ensures SkipWs(line) != END ==> !saved && store.Map() == old(store.Map()) && store.Now() == old(store.Now())
      ensures Now() == AfterLine(old(Now()), line)
    {
      f, saved := Scripts.Good, false;
      var trim := SkipWs(line);
      JoinedMore(lines, line);
      CapturedOne(lines, line);
      if trim == END {
        saved, f := store.Save(name, buf[..len]);
        Reset();
        return;
      }
      if trim == ABORT {
        Reset();
        return;
      }
      if len + |line| + 1 > BODY_MAX {
        Reset();
        return;
      }
      Append(line);
    }
  }
}
