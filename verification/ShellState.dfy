/** Positional arguments and the last status (src/cli/shell_state.c). */
module ShellState {
  import opened Bytes
  import opened CLib

  const STACK_DEPTH: nat := 4
  const MAX_ARGS: nat := 10
  const ARG_MAX: nat := 63

  /** A frame's arguments, `$0` first. */
  type Frame = seq<seq<byte>>

  function CutArg(a: seq<byte>): seq<byte> { if |a| > ARG_MAX then a[..ARG_MAX] else a }

  /** What a frame keeps of its arguments: the first ten, each cut to 63 characters. */
  function CutArgs(args: seq<seq<byte>>): (f: Frame)
    ensures |f| == if |args| > MAX_ARGS then MAX_ARGS else |args|
    ensures forall i :: 0 <= i < |f| ==> f[i] == CutArg(args[i])
  {
    seq(if |args| > MAX_ARGS then MAX_ARGS else |args|, i requires 0 <= i < |args| => CutArg(args[i]))
  }

  /** Frames hold at most ten short strings. */
  predicate SmallFrame(f: Frame) {
    |f| <= MAX_ARGS && forall i :: 0 <= i < |f| ==> |f[i]| <= ARG_MAX && 0 !in f[i]
  }

  function Signed(n: int): seq<byte> { if n < 0 then [45] + Decimal(-n) else Decimal(n) }

  predicate IsInt(n: int) { -0x8000_0000 <= n <= 0x7FFF_FFFF }

  /** A status as text is read back as that status. */
  lemma StatusReads(n: int)
    requires IsInt(n)
    ensures Atoi(Signed(n)) == n
  {
    var m: nat := if n < 0 then -n else n;
    var sign: seq<byte> := if n < 0 then [45] else [];
    NumbersRead([], sign, m, []);
    assert Signed(n) == [] + (sign + (Decimal(m) + []));
  }

  predicate IsDigit(c: byte) { 48 <= c <= 57 }

  /** `is_shell_special`. */
  predicate IsSpecial(c: byte) { IsDigit(c) || c == 35 || c == 63 }

  /** What `$c` stands for: an argument, the number of arguments after `$0`, or the last status. */
  function Special(frames: seq<Frame>, status: int, c: byte): seq<byte>
    requires IsSpecial(c)
  {
    var top := if frames == [] then [] else frames[|frames| - 1];
    if IsDigit(c) then
      if DigitValue(c) < |top| then top[DigitValue(c)] else []
    else if c == 35 then Decimal(if top == [] then 0 else |top| - 1)
    else CutArg(Signed(status))
  }

  /** `g_stack`, `g_depth`, `g_status`. */
  class State {
    const stack: array<Frame>
    var depth: nat
    var status: int

    ghost predicate Valid()
      reads this, stack
    {
      stack.Length == STACK_DEPTH && depth <= STACK_DEPTH && forall i :: 0 <= i < STACK_DEPTH ==> SmallFrame(stack[i])
    }

    ghost function Frames(): seq<Frame>
      requires Valid()
      reads this, stack
    {
      stack[..depth]
    }

    constructor ()
      ensures Valid() && depth == 0 && status == 0 && fresh(stack)
    {
      stack := new Frame[STACK_DEPTH](i => []);
      depth, status := 0, 0;
    }

    /** `shell_push_args`. */
    method PushArgs(args: seq<seq<byte>>) returns (ok: bool)
      requires Valid() && forall i :: 0 <= i < |args| ==> 0 !in args[i]
      modifies this`depth, stack
      ensures Valid() && ok == (old(depth) < 4)
      ensures Frames() == if ok then old(Frames()) + [CutArgs(args)] else old(Frames())
    {
      if depth >= STACK_DEPTH {
        return false;
      }
      var f: Frame := [];
      var argc := if |args| > MAX_ARGS then MAX_ARGS else |args|;
      for i := 0 to argc
        invariant |f| == i && forall j :: 0 <= j < i ==> f[j] == CutArg(args[j]) && |f[j]| <= ARG_MAX && 0 !in f[j]
      {
        f := f + [CutArg(args[i])];
      }
      assert f == CutArgs(args);
      stack[depth] := f;
      depth := depth + 1;
      ok := true;
    }

    /** `shell_pop_args`. */
    method PopArgs()
      requires Valid()
      modifies this`depth
      ensures Valid() && Frames() == if old(depth) == 0 then [] else old(Frames())[..old(depth) - 1]
    {
      if depth > 0 {
        depth := depth - 1;
      }
    }

    /** `shell_expand` on one character. */
    method Expand(c: byte) returns (v: seq<byte>)
      requires Valid() && IsSpecial(c)
      ensures v == Special(Frames(), status, c)
    {
      var top := if depth > 0 then stack[depth - 1] else [];
      if IsDigit(c) {
        v := if DigitValue(c) < |top| then top[DigitValue(c)] else [];
      } else if c == 35 {
        v := Decimal(if top == [] then 0 else |top| - 1);
      } else {
        v := CutArg(Signed(status));
      }
    }
  }
}
