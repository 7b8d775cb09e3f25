/** The command interpreter (src/cli/cli.c and the control commands of src/cli/commands). */
module Shell {
  import opened Bytes
  import opened CLib
  import opened Expand
  import opened FlashMap
  import opened Parser
  import opened ScriptSlot
  import opened ScriptText
  import opened ShellBound
  import opened ShellMeaning
  import opened ShellRun
  import opened ShellState
  import Scripts
  import Vars

  const EQUALS: byte := 61

  // ---- Lines ------------------------------------------------------------------------

  lemma StringsStored(b: seq<byte>, argv: seq<nat>, words: seq<seq<byte>>, end: nat)
    requires |argv| == |words| && AllStored(b, argv, words, end) && end <= |b|
    ensures forall i :: 0 <= i < |argv| ==> argv[i] < end && CString(b, argv[i]) == words[i]
  {
    forall i | 0 <= i < |argv| ensures argv[i] < end && CString(b, argv[i]) == words[i] {
      assert Stored(b, argv[i], words[i], end);
      StoredIsCString(b, argv[i], words[i], end);
    }
  }

  /** Argument vectors point into the expansion buffer. */
  predicate Pointers(argv: seq<nat>) {
    |argv| <= MAX_WORDS && forall i :: 0 <= i < |argv| ==> argv[i] < BUF_SIZE
  }

  // ---- The interpreter -------------------------------------------------------------------

  /** The static variables of the shell. Ghost: the counts of a `Snap`. */
  class Cli {
    const buf: array<byte>
    const vars: Vars.Table
    const state: State
    const store: Scripts.Store
    var running: bool
    ghost var opens: nat
    ghost var trace: seq<Event>

    ghost function Footprint(): set<object> {
      {this, buf, vars.slots, state, state.stack, store, store.flash, store.flash.mem}
    }

    /** The expansion buffer always ends in NUL, so that every pointer into it is a string. */
    ghost predicate Valid()
      reads Footprint()
    {
      && buf.Length == BUF_SIZE && buf[BUF_SIZE - 1] == 0 && buf != store.flash.mem
      && vars.Valid() && state.Valid() && store.Valid() && store.open == running
    }

    constructor (store: Scripts.Store)
      requires store.Valid() && !store.open
      ensures this.store == store && Valid() && !running
      ensures fresh(buf) && fresh(vars) && fresh(vars.slots) && fresh(state) && fresh(state.stack)
    {
      this.store := store;
      var v := new Vars.Table();
      var st := new State();
      vars, state := v, st;
      buf := new byte[BUF_SIZE](i => 0);
      running, opens, trace := false, 0, [];
    }

    ghost function Now(): Snap
      requires state.Valid() && store.flash.Valid()
      reads this, state, state.stack, store, store.flash, store.flash.mem
    {
      Snap(state.Frames(), running, store.open, opens, Calls(trace), store.Now())
    }

    ghost function Env(): Env
      requires state.Valid()
      reads state, state.stack, vars.slots
    {
      EnvOf(vars, state)
    }

    function StringAt(p: nat): seq<byte>
      requires p < buf.Length
      reads buf
    {
      CString(buf[..], p)
    }

    /** The strings an argument vector stands for at this moment. */
    function Strings(argv: seq<nat>): (ss: seq<seq<byte>>)
      requires buf.Length == BUF_SIZE && Pointers(argv)
      reads buf
      ensures |ss| == |argv|
    {
      seq(|argv|, i requires 0 <= i < |argv| reads buf => StringAt(argv[i]))
    }

    // ---- Handlers that are not control flow -------------------------------------------------

    /**
     One thing a handler may do: write inside a string, set or unset a variable, save or remove a script, or have flash
     refuse something else.
     */
    method Disturb()
      requires Valid()
      modifies buf, vars.slots, store`versions, store.flash, store.flash.mem
      ensures Valid() && Scripts.Later(old(store.Now()), store.Now())
      ensures forall i :: 0 <= i < BUF_SIZE && old(buf[i]) == 0 ==> buf[i] == 0
    {
      assert Scripts.Later(store.Now(), store.Now());
      var what: nat, name: seq<byte>, i: nat := *, *, *;
      if what == 0 && i < BUF_SIZE && buf[i] != 0 {
        buf[i] := *;
      } else if what == 1 {
        var value: seq<byte> :| NoNul(value);
        var rc := Assign(name, value);
      } else if what == 2 {
        var ok := vars.Unset(name);
      } else if what == 3 {
        var body: seq<byte> := *;
        var ok, f := store.Save(name, body);
      } else if what == 4 {
        var ok := store.Remove(name);
      } else if what == 5 {
        store.flash.refused := store.flash.refused + i;
      }
    }

    /** Any other handler: whatever it does, it leaves the terminators in the buffer, and control flow, alone. */
    method Leaf(argv: seq<nat>) returns (rc: int)
      requires Valid() && Pointers(argv) && |argv| > 0
      modifies this`trace, buf, vars.slots, store`versions, store.flash, store.flash.mem
      ensures Valid() && Follows(old(Now()), Now(), |argv|)
      ensures trace == old(trace) + [Did(Other, old(Strings(argv)), rc)]
      ensures forall i :: 0 <= i < BUF_SIZE && old(buf[i]) == 0 ==> buf[i] == 0
    {
      ghost var words := Strings(argv);
      var n: nat :| true;
      for i := 0 to n
        invariant trace == old(trace)
        invariant Valid() && Now() == old(Now()).(disk := store.Now()) && Scripts.Later(old(store.Now()), store.Now())
        invariant forall i :: 0 <= i < BUF_SIZE && old(buf[i]) == 0 ==> buf[i] == 0
      {
        ghost var d := store.Now();
        Disturb();
        Scripts.LaterTwice(old(store.Now()), d, store.Now());
      }
      rc := *;
      Record(Did(Other, words, rc));
      CallsOne(old(Now()), Now(), |argv|);
    }

    /** A handler is about to return. */
    ghost method Record(e: Event)
      requires Valid()
      modifies this`trace
      ensures Valid() && trace == old(trace) + [e]
      ensures Now() == old(Now()).(calls := old(Now()).calls + (if Counted(e) then 1 else 0))
    {
      CallsMore(trace, e);
      trace := trace + [e];
    }

    /** `set NAME=VALUE`: the equals sign is overwritten in the argument itself. */
    method SetInPlace(p: nat) returns (rc: int)
      requires Valid() && p < BUF_SIZE
      modifies buf, vars.slots
      ensures Valid() && forall i :: 0 <= i < BUF_SIZE && old(buf[i]) == 0 ==> buf[i] == 0
      ensures Splits(old(vars.Map()), vars.Map(), old(StringAt(p)), rc)
    {
      var t := StringAt(p);
      var eq := FromByte(t, EQUALS);
      if eq.None? {
        return CLI_ERR_USAGE;
      }
      FromByteIs(t, EQUALS);
      var k := |t| - |eq.value|;
      var at := p + k;
      SplitAt(buf[..], p, EQUALS, t, k, at);
      Halves(t, k, eq.value);
      buf[at] := 0;
      rc := Assign(StringAt(p), StringAt(at + 1));
    }

    method Assign(name: seq<byte>, value: seq<byte>) returns (rc: int)
      requires Valid() && NoNul(value)
      modifies vars.slots
      ensures Valid() && Assigns(old(vars.Map()), vars.Map(), name, value, rc)
    {
      assert 0 !in value;
      var ok := vars.Set(name, value);
      rc := if ok then CLI_OK else CLI_ERR_ARG;
    }

    /** `set`. */
    method CmdSet(argv: seq<nat>) returns (rc: int)
      requires Valid() && Pointers(argv) && |argv| > 0
      modifies this`trace, buf, vars.slots
      ensures Valid() && Follows(old(Now()), Now(), |argv|)
      ensures trace == old(trace) + [Did(SetHandler, old(Strings(argv)), rc)]
      ensures forall i :: 0 <= i < BUF_SIZE && old(buf[i]) == 0 ==> buf[i] == 0
      ensures |argv| == 2 ==> Splits(old(vars.Map()), vars.Map(), old(StringAt(argv[1])), rc)
      ensures |argv| >= 3 ==>
        Assigns(old(vars.Map()), vars.Map(), old(StringAt(argv[1])), old(StringAt(argv[2])), rc)
    {
      ghost var words := Strings(argv);
      if |argv| == 1 {
        rc := CLI_OK;
      } else if |argv| == 2 {
        rc := SetInPlace(argv[1]);
      } else {
        CStringNoNul(buf[..], argv[2]);
        rc := Assign(StringAt(argv[1]), StringAt(argv[2]));
      }
      Record(Did(SetHandler, words, rc));
      CallsOne(old(Now()), Now(), |argv|);
    }

    // ---- Control flow ---------------------------------------------------------------------

    /** What a command that was just dispatched says of itself. */
    ghost predicate Tells(act: Act, argv: seq<nat>, words: seq<seq<byte>>, rc: int) {
      act.argv == argv && act.words == words && act.rc == rc && Conforms(act)
    }

    /** `cli_dispatch_argv`: the command named by the first word does what the words say, and `$?` is its result. */
    method DispatchArgv(argv: seq<nat>) returns (rc: int, ghost act: Act)
      requires Valid() && Pointers(argv)
      modifies Footprint()
      ensures Valid() && Follows(old(Now()), Now(), |argv|)
      ensures Tells(act, argv, old(Strings(argv)), rc) && (argv != [] ==> state.status == rc)
      ensures trace == old(trace) + EventsOf(act) && RunTold(act, old(store.Map()), old(Now()), Now())
      decreases !running, |argv|, 2
    {
      ghost var words := Strings(argv);
      if |argv| == 0 {
        Stays(Now(), 0);
        act := Act([], [], 0, [], []);
        ConformsIs(act);
        return 0, act;
      }
      rc, act := Handle(argv);
      ConformsIs(act);
      state.status := rc;
    }

    /** The command table; an unknown command is an error. */
    method Handle(argv: seq<nat>) returns (rc: int, ghost act: Act)
      requires Valid() && Pointers(argv) && |argv| > 0
      modifies Footprint()
      ensures Valid() && Follows(old(Now()), Now(), |argv|)
      ensures act == Act(argv, old(Strings(argv)), rc, act.sub, act.lines)
      ensures AllConform(act.sub) && AllSpoken(act.lines) && Does(act)
      ensures trace == old(trace) + EventsOf(act) && RunTold(act, old(store.Map()), old(Now()), Now())
      decreases !running, |argv|, 1, 1
    {
      ghost var words := Strings(argv);
      var h := HandlerOf(StringAt(argv[0]));
      if h.SetHandler? || h.Other? {
        rc := Plain(h, argv);
        act := Act(argv, words, rc, [], []);
      } else {
        rc, act := Control(h, argv);
      }
    }

    /** A command that is not a control command. */
    method Plain(h: Handler, argv: seq<nat>) returns (rc: int)
      requires Valid() && Pointers(argv) && |argv| > 0 && (h.SetHandler? || h.Other?)
      modifies this`trace, buf, vars.slots, store`versions, store.flash, store.flash.mem
      ensures Valid() && Follows(old(Now()), Now(), |argv|)
      ensures trace == old(trace) + [Did(h, old(Strings(argv)), rc)]
    {
      if h.SetHandler? {
        rc := CmdSet(argv);
      } else {
        rc := Unknown(argv);
      }
    }

    /** The four control commands. */
    method Control(h: Handler, argv: seq<nat>) returns (rc: int, ghost act: Act)
      requires Valid() && Pointers(argv) && |argv| > 0 && h == HandlerOf(StringAt(argv[0])) && !h.SetHandler? && !h.Other?
      modifies Footprint()
      ensures Valid() && Follows(old(Now()), Now(), |argv|)
      ensures act == Act(argv, old(Strings(argv)), rc, act.sub, act.lines)
      ensures AllConform(act.sub) && AllSpoken(act.lines) && Does(act)
      ensures trace == old(trace) + EventsOf(act) && RunTold(act, old(store.Map()), old(Now()), Now())
      decreases !running, |argv|, 1, 0
    {
      ghost var (words, t, sub, lines) := (Strings(argv), trace, [], []);
      match h {
        case IfHandler => rc, sub := CmdIf(argv);
        case WhileHandler => rc, sub := CmdWhile(argv);
        case RepeatHandler => rc, sub := CmdRepeat(argv);
        case RunHandler => rc, lines := CmdRun(argv);
      }
      act := Act(argv, words, rc, sub, lines);
      GrewAct(t, trace, act);
      Record(Did(h, words, rc));
    }

    /** A command of another name: some handler, or none. */
    method Unknown(argv: seq<nat>) returns (rc: int)
      requires Valid() && Pointers(argv) && |argv| > 0
      modifies this`trace, buf, vars.slots, store`versions, store.flash, store.flash.mem
      ensures Valid() && Follows(old(Now()), Now(), |argv|)
      ensures trace == old(trace) + [Did(Other, old(Strings(argv)), rc)]
    {
      var known: bool := *;
      if known {
        rc := Leaf(argv);
      } else {
        rc := CLI_ERR_ARG;
        Record(Did(Other, Strings(argv), rc));
        CallsOne(old(Now()), Now(), |argv|);
      }
    }

    /** The search for a keyword from word `from` on; the number of words when there is none. */
    method FindWord(argv: seq<nat>, from: nat, word: seq<byte>) returns (i: nat)
      requires buf.Length == BUF_SIZE && Pointers(argv) && from <= |argv|
      ensures i == FindFrom(Strings(argv), from, word)
    {
      i := from;
      while i < |argv| && StringAt(argv[i]) != word
        invariant from <= i <= |argv| && FindFrom(Strings(argv), i, word) == FindFrom(Strings(argv), from, word)
      {
        i := i + 1;
      }
    }

    /** The words from `lo` to `hi` dispatched as a command of their own, after the commands `sub0`. */
    method Sub(argv: seq<nat>, lo: nat, hi: nat, ghost part: seq<nat>, ghost t: seq<Event>, ghost sub0: seq<Act>)
      returns (rc: int, ghost sub: seq<Act>, ghost x: Act)
      requires Valid() && Pointers(argv) && lo <= hi <= |argv| && part == argv[lo..hi] && AllConform(sub0) && Grew(t, trace, sub0)
      modifies Footprint()
      ensures Valid() && Follows(old(Now()), Now(), |part|) && AllConform(sub) && Grew(t, trace, sub)
      ensures sub == sub0 + [x] && x.argv == part && x.rc == rc
      decreases !running, hi - lo, 3
    {
      rc, x := DispatchArgv(argv[lo..hi]);
      GrewMore(t, old(trace), trace, sub0, x);
      sub := sub0 + [x];
    }

    /** `if`: the first `then`, and the first `else` after it, split the words. */
    method CmdIf(argv: seq<nat>) returns (rc: int, ghost sub: seq<Act>)
      requires Valid() && Pointers(argv) && |argv| > 0
      modifies Footprint()
      ensures Valid() && Follows(old(Now()), Now(), |argv|)
      ensures AllConform(sub) && IfDoes(Act(argv, old(Strings(argv)), rc, sub, [])) && Grew(old(trace), trace, sub)
      decreases !running, |argv|, 0
    {
      Stays(Now(), |argv|);
      GrewNot(trace);
      if |argv| < 4 {
        return CLI_ERR_USAGE, [];
      }
      var t := FindWord(argv, 1, THEN);
      if t == |argv| || t == 1 {
        return CLI_ERR_USAGE, [];
      }
      var e := FindWord(argv, t + 1, ELSE);
      if e == t + 1 {
        return CLI_ERR_USAGE, [];
      }
      rc, sub := Choose(argv, t, e);
    }

    /** The condition, and the body it picks. */
    method Choose(argv: seq<nat>, t: nat, e: nat) returns (rc: int, ghost sub: seq<Act>)
      requires Valid() && Pointers(argv) && 4 <= |argv| && 1 < t && t + 1 < e <= |argv|
      modifies Footprint()
      ensures Valid() && Follows(old(Now()), Now(), |argv|)
      ensures AllConform(sub) && Chooses(sub, argv, t, e, rc) && Grew(old(trace), trace, sub)
      decreases !running, |argv|, 0, 0
    {
      ghost var (s, c, b) := (Now(), argv[1..t], argv[t + 1..e]);
      GrewNot(trace);
      ghost var x;
      rc, sub, x := Sub(argv, 1, t, c, trace, []);
      ghost var u := Now();
      if rc == CLI_OK {
        rc, sub := Then(argv, t + 1, e, b, |c|, s, old(trace), sub, x);
      } else if e + 1 < |argv| {
        b := argv[e + 1..];
        rc, sub := Then(argv, e + 1, |argv|, b, |c|, s, old(trace), sub, x);
      } else {
        rc := CLI_OK;
        FollowsLonger(s, u, |c|, |argv|);
      }
    }

    /** A body after a condition of `c` words that was dispatched from `s`. */
    method Then(argv: seq<nat>, lo: nat, hi: nat, ghost b: seq<nat>, ghost c: nat, ghost s: Snap, ghost t: seq<Event>,
                ghost sub0: seq<Act>, ghost x: Act)
      returns (rc: int, ghost sub: seq<Act>)
      requires Valid() && Pointers(argv) && lo <= hi <= |argv| && b == argv[lo..hi] && AllConform(sub0) && Grew(t, trace, sub0)
      requires Follows(s, Now(), c) && c + |b| + 2 <= |argv| && |argv| >= 3 && sub0 == [] + [x]
      modifies Footprint()
      ensures Valid() && Follows(s, Now(), |argv|) && AllConform(sub) && Grew(t, trace, sub)
      ensures |sub| == 2 && sub[0] == x && sub[1].argv == b && sub[1].rc == rc
      decreases !running, hi - lo, 4
    {
      ghost var (u, y) := (Now(), x);
      rc, sub, y := Sub(argv, lo, hi, b, t, sub0);
      FollowsPair(s, u, Now(), c, |b|, |argv|);
    }

    /** `while`: at most 10000 rounds. */
    method CmdWhile(argv: seq<nat>) returns (rc: int, ghost sub: seq<Act>)
      requires Valid() && Pointers(argv) && |argv| > 0
      modifies Footprint()
      ensures Valid() && Follows(old(Now()), Now(), |argv|)
      ensures AllConform(sub) && WhileDoes(Act(argv, old(Strings(argv)), rc, sub, [])) && Grew(old(trace), trace, sub)
      decreases !running, |argv|, 0, 3
    {
      Stays(Now(), |argv|);
      GrewNot(trace);
      if |argv| < 4 {
        return CLI_ERR_USAGE, [];
      }
      var d := FindWord(argv, 1, DO);
      if d == |argv| || d == 1 || d + 1 == |argv| {
        return CLI_ERR_USAGE, [];
      }
      rc, sub := Loop(argv, d);
    }

    method Loop(argv: seq<nat>, d: nat) returns (rc: int, ghost sub: seq<Act>)
      requires Valid() && Pointers(argv) && 1 < d < |argv| - 1
      modifies Footprint()
      ensures Valid() && Follows(old(Now()), Now(), |argv|)
      ensures AllConform(sub) && Loops(sub, argv[1..d], argv[d + 1..], WHILE_MAX, rc) && Grew(old(trace), trace, sub)
      decreases !running, |argv|, 0, 2
    {
      ghost var (s, c, b, n) := (Now(), argv[1..d], argv[d + 1..|argv|], 0);
      rc, sub, n := LoopRounds(argv, d, c, b);
      PairRoundsEnd(s, Now(), |c|, |b|, n, |argv|);
      assert b == argv[d + 1..];
    }

    method LoopRounds(argv: seq<nat>, d: nat, ghost c: seq<nat>, ghost b: seq<nat>)
      returns (rc: int, ghost sub: seq<Act>, ghost n: nat)
      requires Valid() && Pointers(argv) && 1 < d < |argv| - 1 && c == argv[1..d] && b == argv[d + 1..|argv|]
      modifies Footprint()
      ensures Valid() && n <= WHILE_MAX && PairRounds(old(Now()), Now(), |c|, |b|, n)
      ensures AllConform(sub) && Loops(sub, c, b, WHILE_MAX, rc) && Grew(old(trace), trace, sub)
      decreases !running, |argv|, 0, 1
    {
      ghost var (s, t) := (Now(), trace);
      sub := [];
      GrewNot(t);
      for i := 0 to WHILE_MAX
        invariant Valid() && PairRounds(s, Now(), |c|, |b|, i)
        invariant AllConform(sub) && LoopsOn(sub, c, b, i) && Grew(t, trace, sub)
      {
        var stop;
        stop, rc, sub := WhileRound(argv, d, c, b, s, i, t, sub);
        if stop {
          n := i + 1;
          return;
        }
      }
      rc, n := CLI_ERR_HARDWARE, WHILE_MAX;
      LoopsOver(sub, c, b);
    }

    /** One round: the condition, and the body if it succeeds. */
    method WhileRound(argv: seq<nat>, d: nat, ghost c: seq<nat>, ghost b: seq<nat>, ghost s: Snap, ghost i: nat,
                      ghost t: seq<Event>, ghost sub0: seq<Act>)
      returns (stop: bool, rc: int, ghost sub: seq<Act>)
      requires Valid() && Pointers(argv) && 1 < d < |argv| - 1 && c == argv[1..d] && b == argv[d + 1..|argv|]
      requires PairRounds(s, Now(), |c|, |b|, i)
      requires i < WHILE_MAX && AllConform(sub0) && LoopsOn(sub0, c, b, i) && Grew(t, trace, sub0)
      modifies Footprint()
      ensures Valid() && PairRounds(s, Now(), |c|, |b|, i + 1) && AllConform(sub) && Grew(t, trace, sub)
      ensures if stop then Loops(sub, c, b, WHILE_MAX, rc) else LoopsOn(sub, c, b, i + 1)
      decreases !running, |argv|, 0, 0
    {
      ghost var was := Now();
      ghost var x, y;
      rc, sub, x := Sub(argv, 1, d, c, t, sub0);
      ghost var u := Now();
      PairRoundsBreak(s, was, u, |c|, |b|, i);
      stop := rc != CLI_OK;
      if stop {
        rc := CLI_OK;
        LoopsFail(sub0, x, c, b, i);
        return;
      }
      rc, sub, y := Sub(argv, d + 1, |argv|, b, t, sub);
      PairRoundsMore(s, was, u, Now(), |c|, |b|, i);
      stop := rc == CLI_ERR_HARDWARE;
      LoopsRound(sub0, x, y, c, b, i);
    }

    /** `repeat`: at most 100000 rounds, cut short by a hardware error. */
    method CmdRepeat(argv: seq<nat>) returns (rc: int, ghost sub: seq<Act>)
      requires Valid() && Pointers(argv) && |argv| > 0
      modifies Footprint()
      ensures Valid() && Follows(old(Now()), Now(), |argv|)
      ensures AllConform(sub) && RepeatDoes(Act(argv, old(Strings(argv)), rc, sub, [])) && Grew(old(trace), trace, sub)
      decreases !running, |argv|, 0, 3
    {
      Stays(Now(), |argv|);
      GrewNot(trace);
      if |argv| < 3 {
        return CLI_ERR_USAGE, [];
      }
      var n := RepeatCount(StringAt(argv[1]));
      if n.None? {
        return CLI_ERR_ARG, [];
      }
      rc, sub := Again(argv, n.value);
    }

    method Again(argv: seq<nat>, n: nat) returns (rc: int, ghost sub: seq<Act>)
      requires Valid() && Pointers(argv) && |argv| >= 3 && n <= REPEAT_MAX
      modifies Footprint()
      ensures Valid() && Follows(old(Now()), Now(), |argv|)
      ensures AllConform(sub) && Repeats(sub, argv[2..], n, rc) && Grew(old(trace), trace, sub)
      decreases !running, |argv|, 0, 2
    {
      ghost var (s, c, k) := (Now(), argv[2..|argv|], 0);
      rc, sub, k := AgainRounds(argv, n, c);
      RoundsEnd(s, Now(), |c|, k);
      assert c == argv[2..];
    }

    method AgainRounds(argv: seq<nat>, n: nat, ghost c: seq<nat>) returns (rc: int, ghost sub: seq<Act>, ghost k: nat)
      requires Valid() && Pointers(argv) && |argv| >= 3 && c == argv[2..|argv|]
      modifies Footprint()
      ensures Valid() && k <= n && Rounds(old(Now()), Now(), |c|, k)
      ensures AllConform(sub) && Repeats(sub, c, n, rc) && Grew(old(trace), trace, sub)
      decreases !running, |argv|, 0, 1
    {
      ghost var (s, t) := (Now(), trace);
      sub := [];
      GrewNot(t);
      for i := 0 to n
        invariant Valid() && Rounds(s, Now(), |c|, i)
        invariant AllConform(sub) && RepeatsOn(sub, c, i) && Grew(t, trace, sub)
      {
        rc, sub := RepeatRound(argv, n, c, s, i, t, sub);
        if rc == CLI_ERR_HARDWARE {
          k := i + 1;
          return;
        }
      }
      rc, k := CLI_OK, n;
      RepeatsOver(sub, c, n);
    }

    /** One round. */
    method RepeatRound(argv: seq<nat>, ghost n: nat, ghost c: seq<nat>, ghost s: Snap, ghost i: nat, ghost t: seq<Event>,
                       ghost sub0: seq<Act>)
      returns (rc: int, ghost sub: seq<Act>)
      requires Valid() && Pointers(argv) && |argv| >= 3 && c == argv[2..|argv|] && Rounds(s, Now(), |c|, i)
      requires i < n && AllConform(sub0) && RepeatsOn(sub0, c, i) && Grew(t, trace, sub0)
      modifies Footprint()
      ensures Valid() && Rounds(s, Now(), |c|, i + 1) && AllConform(sub) && Grew(t, trace, sub)
      ensures if rc == CLI_ERR_HARDWARE then Repeats(sub, c, n, rc) else RepeatsOn(sub, c, i + 1)
      decreases !running, |argv|, 0, 0
    {
      ghost var (u, x) := (Now(), Act([], [], 0, [], []));
      rc, sub, x := Sub(argv, 2, |argv|, c, t, sub0);
      RoundsMore(s, u, Now(), |c|, i);
      RepeatsMore(sub0, x, c, i, n);
    }

    /**
     `run`. A script is opened exactly when none is running, a frame is free and the store has it. Every line is
     dispatched under a frame of the arguments as they were at the start; and unless the script's own slot is erased
     meanwhile, the lines dispatched are exactly those of the script, in order.
     */
    method CmdRun(argv: seq<nat>) returns (rc: int, ghost lines: seq<Line>)
      requires Valid() && Pointers(argv) && |argv| > 0
      modifies Footprint()
      ensures Valid() && Follows(old(Now()), Now(), |argv|) && AllSpoken(lines) && GrewLines(old(trace), trace, lines)
      ensures Framed(lines, CutArgs(old(Strings(argv))[1..]))
      ensures RunTells(old(Strings(argv)), rc, lines, old(store.Map()), old(Now()), Now())
      decreases !running, |argv|, 0, 1
    {
      lines := [];
      Stays(Now(), |argv|);
      assert EventsOfLines([]) == [];
      if |argv| < 2 {
        return CLI_ERR_USAGE, lines;
      }
      if running {
        return CLI_ERR_ARG, lines;
      }
      ghost var words := Strings(argv);
      assert words[1] == StringAt(argv[1]) && words[1..] == Strings(argv[1..]);
      rc, lines := RunNamed(argv, words);
    }

    /** `run` with a name, while no script is running. */
    method RunNamed(argv: seq<nat>, ghost words: seq<seq<byte>>) returns (rc: int, ghost lines: seq<Line>)
      requires Valid() && Pointers(argv) && |argv| >= 2 && !running
      requires |words| == |argv| && words[1] == StringAt(argv[1]) && words[1..] == Strings(argv[1..])
      modifies Footprint()
      ensures Valid() && Follows(old(Now()), Now(), |argv|) && AllSpoken(lines) && GrewLines(old(trace), trace, lines)
      ensures Framed(lines, CutArgs(words[1..])) && RunTells(words, rc, lines, old(store.Map()), old(Now()), Now())
      decreases !running, |argv|, 0, 0
    {
      lines := [];
      Stays(Now(), |argv|);
      assert EventsOfLines([]) == [];
      var args := Strings(argv[1..]);
      StringsNoNul(argv[1..]);
      var found, at, len := store.Open(StringAt(argv[1]));
      if !found {
        return CLI_ERR_ARG, lines;
      }
      running := true;
      ghost var (s, script) := (Now(), store.BodyAt(at, len));
      rc, lines := RunFramed(at, len, args);
      ghost var t := Now();
      running := false;
      store.Close();
      if rc == CLI_OK {
        LinedShut(s.(opens := opens), t, lines, script, CutArgs(args), at);
        Ran(old(Now()), Now(), |argv|, |script|);
        assert FromSlot(at, lines, script, Short(words[1]), old(Now()).disk, Now().disk);
      }
    }

    /** An open script run in a frame of its own, if one is free. */
    method RunFramed(slot: nat, len: nat, args: seq<seq<byte>>) returns (rc: int, ghost lines: seq<Line>)
      requires Valid() && running && slot < SCRIPT_SLOTS && len <= BODY_MAX && forall i :: 0 <= i < |args| ==> 0 !in args[i]
      modifies Footprint()
      ensures Valid() && running && AllSpoken(lines) && GrewLines(old(trace), trace, lines)
      ensures if old(state.depth) < STACK_DEPTH
        then rc == CLI_OK && opens == old(opens) + 1 &&
          Lined(old(Now()).(opens := opens), Now(), lines, old(store.BodyAt(slot, len)), CutArgs(args), slot)
        else rc == CLI_ERR_HARDWARE && Now() == old(Now()) && lines == []
      decreases !running, MAX_WORDS + 3
    {
      lines := [];
      assert EventsOfLines([]) == [];
      var pushed := state.PushArgs(args);
      if !pushed {
        return CLI_ERR_HARDWARE, lines;
      }
      opens := opens + 1;
      lines := RunLines(slot, len);
      state.PopArgs();
      rc := CLI_OK;
    }

    lemma StringsNoNul(argv: seq<nat>)
      requires buf.Length == BUF_SIZE && Pointers(argv)
      ensures forall i :: 0 <= i < |argv| ==> 0 !in Strings(argv)[i]
    {
      forall i | 0 <= i < |argv| ensures 0 !in Strings(argv)[i] {
        CStringNoNul(buf[..], argv[i]);
      }
    }

    /** The frame in force. */
    ghost function Top(): Frame
      requires state.Valid()
      reads state, state.stack
    {
      TopOf(state.Frames())
    }

    /** The loop of `run` over the lines of the open script, read from flash as it goes. */
    method RunLines(slot: nat, len: nat) returns (ghost lines: seq<Line>)
      requires Valid() && running && slot < SCRIPT_SLOTS && len <= BODY_MAX
      modifies Footprint()
      ensures Valid() && running && AllSpoken(lines) && GrewLines(old(trace), trace, lines)
      ensures Lined(old(Now()), Now(), lines, old(store.BodyAt(slot, len)), old(Top()), slot)
      decreases !running, MAX_WORDS + 2, 2
    {
      ghost var (s, f, script) := (Now(), Top(), store.BodyAt(slot, len));
      lines := [];
      var line := new byte[LINE_MAX];
      var off := 0;
      LiningStart(s, f, script, slot);
      assert EventsOfLines([]) == [];
      assert line !in Footprint() && BodyIn(s.disk, slot, len, script);
      while off < len
        invariant AllSpoken(lines) && GrewLines(old(trace), trace, lines)
        invariant off <= len && Valid() && Top() == f && Lining(s, Now(), off, lines, f, script, slot)
      {
        off, lines := LineRound(slot, len, off, line, f, s, old(trace), script, lines);
      }
      LiningEnd(s, Now(), lines, f, script, slot);
    }

    /** One round of that loop. */
    method LineRound(slot: nat, len: nat, off0: nat, line: array<byte>, ghost f: Frame, ghost s: Snap, ghost t: seq<Event>,
                     ghost script: seq<byte>, ghost lines0: seq<Line>)
      returns (off: nat, ghost lines: seq<Line>)
      requires Valid() && s.running && off0 < len <= BODY_MAX && Top() == f && BodyIn(s.disk, slot, len, script)
      requires line.Length == LINE_MAX && line !in Footprint()
      requires AllSpoken(lines0) && GrewLines(t, trace, lines0) && Lining(s, Now(), off0, lines0, f, script, slot)
      modifies Footprint(), line
      ensures Valid() && Top() == f && off0 < off <= len
      ensures AllSpoken(lines) && GrewLines(t, trace, lines) && Lining(s, Now(), off, lines, f, script, slot)
      decreases !running, MAX_WORDS + 2, 1
    {
      ghost var (u, w, body, env) := (Now(), trace, store.BodyAt(slot, len), Env());
      ghost var text, acts;
      off, text, acts := RunLine(slot, len, off0, line, f);
      lines := lines0;
      if !Ignored(text) {
        lines := lines0 + [Line(text, f, env, acts)];
        GrewLine(t, w, trace, lines0, Line(text, f, env, acts));
      }
      LiningMore(s, u, Now(), off0, off, Line(text, f, env, acts), lines0, lines, f, script, body, slot);
    }

    /** One step of that: a line is read, and dispatched unless it is blank or a comment. */
    method RunLine(slot: nat, len: nat, off0: nat, line: array<byte>, ghost f: Frame)
      returns (off: nat, ghost text: seq<byte>, ghost acts: seq<Act>)
      requires Valid() && running && slot < SCRIPT_SLOTS && off0 < len <= BODY_MAX && Top() == f
      requires line.Length == LINE_MAX && line !in Footprint()
      modifies Footprint(), line
      ensures Valid() && Top() == f && Follows(old(Now()), Now(), MAX_WORDS)
      ensures if Ignored(text) then trace == old(trace)
        else Handed(acts, text, old(Env())) && Grew(old(trace) + [Heard(text, f)], trace, acts)
      ensures off0 < off <= len && CutAt(old(store.BodyAt(slot, len)), off0) == Cut(text, off)
      decreases !running, MAX_WORDS + 2, 0
    {
      off, text := FetchLine(slot, len, off0, line);
      acts := [];
      if Ignored(CString(line[..], 0)) {
        Stays(Now(), MAX_WORDS);
        return;
      }
      var rc;
      rc, acts := DispatchLine(line, |text|, text);
    }

    /** The next line of the open script, as flash holds it now. */
    method FetchLine(slot: nat, len: nat, off0: nat, line: array<byte>) returns (off: nat, ghost text: seq<byte>)
      requires Valid() && slot < SCRIPT_SLOTS && off0 < len <= BODY_MAX
      requires line.Length == LINE_MAX && line !in Footprint()
      modifies line
      ensures off0 < off <= len && text == CString(line[..], 0) && Holds(line[..], 0, |text|, text)
      ensures CutAt(store.BodyAt(slot, len), off0) == Cut(text, off)
    {
      var body := store.ReadBody(slot, len);
      off := ReadLine(body, off0, line);
      LineText(body, off0, line[..]);
      text := CString(line[..], 0);
    }

    /** `cli_dispatch_line`: the words of the line, if it has any and they fit, reach the dispatcher. */
    method DispatchLine(line: array<byte>, ghost n: nat, ghost text: seq<byte>) returns (rc: int, ghost acts: seq<Act>)
      requires Valid() && Holds(line[..], 0, n, text) && line !in Footprint()
      modifies Footprint(), line
      ensures Valid() && Follows(old(Now()), Now(), MAX_WORDS) && Handed(acts, text, old(Env()))
      ensures Grew(old(trace) + (if old(running) then [Heard(text, old(Top()))] else []), trace, acts)
      ensures acts != [] ==> RunTold(acts[0], old(store.Map()), old(Now()), Now())
      ensures rc == if Words(text, old(Env())).None? then CLI_ERR_ARG else if acts == [] then CLI_OK else acts[0].rc
      decreases !running, MAX_WORDS + 1
    {
      acts := [];
      if running {
        Record(Heard(text, Top()));
      }
      ghost var t := trace;
      Stays(Now(), MAX_WORDS);
      GrewNot(t);
      var ok, out := SplitLine(line, n, text);
      if !ok {
        return CLI_ERR_ARG, acts;
      }
      rc, acts := DispatchWords(out);
    }

    /** The second half: the dispatcher gets the words, if there are any. */
    method DispatchWords(out: seq<nat>) returns (rc: int, ghost acts: seq<Act>)
      requires Valid() && Pointers(out)
      modifies Footprint()
      ensures Valid() && Follows(old(Now()), Now(), MAX_WORDS) && Grew(old(trace), trace, acts)
      ensures AllConform(acts) && Hands(acts, Some(old(Strings(out)))) && rc == if acts == [] then CLI_OK else acts[0].rc
      ensures acts != [] ==> RunTold(acts[0], old(store.Map()), old(Now()), Now())
      decreases !running, MAX_WORDS, 3
    {
      acts := [];
      Stays(Now(), MAX_WORDS);
      GrewNot(trace);
      if |out| == 0 {
        return 0, acts;
      }
      ghost var act;
      rc, act := DispatchArgv(out);
      GrewMore(old(trace), old(trace), trace, [], act);
      acts := [] + [act];
      FollowsLonger(old(Now()), Now(), |out|, MAX_WORDS);
    }

    /** The first half of `cli_dispatch_line`: the line in place into words, and the words expanded into the buffer. */
    method SplitLine(line: array<byte>, ghost n: nat, ghost text: seq<byte>) returns (ok: bool, out: seq<nat>)
      requires Valid() && Holds(line[..], 0, n, text) && line !in Footprint()
      modifies buf, line
      ensures Valid() && Now() == old(Now()) && trace == old(trace) && Pointers(out)
      ensures Words(text, old(Env())) == if ok then Some(Strings(out)) else None
    {
      ok, out := true, [];
      ghost var env := Env();
      assert Strings([]) == [];
      if line[0] == 0 {
        assert text == [];
        return;
      }
      var argc, argv := CliParse(line, MAX_WORDS, n, text);
      if argc == ERR_UNCLOSED_QUOTE || argc == ERR_TOO_MANY_ARGS {
        return false, [];
      }
      ghost var tokens := Tokenize(text, MAX_WORDS).args;
      if argc == 0 {
        assert Expansions(tokens, env) == Some([]);
        return;
      }
      ok, out := ExpandWords(line, argv, n + 1, tokens);
    }

    /** Its second step. */
    method ExpandWords(line: array<byte>, argv: seq<nat>, ghost n: nat, ghost tokens: seq<seq<byte>>)
      returns (ok: bool, out: seq<nat>)
      requires Valid() && line !in Footprint() && |argv| == |tokens| <= MAX_WORDS && AllStored(line[..], argv, tokens, n)
      modifies buf
      ensures Valid() && Now() == old(Now()) && Pointers(out)
      ensures Fitting(tokens, old(Env())) == if ok then Some(Strings(out)) else None
    {
      ghost var env := Env();
      ok, out := ExpandArgv(line, argv, buf, vars, state, n, tokens);
      if !ok {
        return false, [];
      }
      ghost var words := Expansions(tokens, env).value;
      StringsStored(buf[..], out, words, BUF_SIZE);
      assert Strings(out) == words;
    }
  }

  // ---- What a run says of itself ----------------------------------------------------------

  /** No script is running, there is room for a frame, and the store has the script. */
  ghost predicate CanRun(words: seq<seq<byte>>, m: map<seq<byte>, seq<byte>>, s: Snap) {
    |words| >= 2 && !s.running && |s.frames| < STACK_DEPTH && Short(words[1]) in m
  }

  /** The slot that has the script; and unless it was erased, the lines are the script's, in order. */
  ghost predicate FromSlot(slot: nat, lines: seq<Line>, script: seq<byte>, name: seq<byte>, d: Scripts.Disk, e: Scripts.Disk) {
    && slot < SCRIPT_SLOTS == |d.slots| == |d.versions| == |e.versions| && |d.slots[slot]| == SCRIPT_SLOT_SIZE
    && SlotValid(d.slots[slot]) && NameOf(d.slots[slot]) == name
    && (e.versions[slot] == d.versions[slot] ==> Texts(lines) == Lines(script, 0))
  }

  /** What `run` comes to, from state `s` with the scripts `m` to state `t`. */
  ghost predicate RunTells(words: seq<seq<byte>>, rc: int, lines: seq<Line>, m: map<seq<byte>, seq<byte>>, s: Snap, t: Snap) {
    if CanRun(words, m, s) then
      var script := m[Short(words[1])];
      && rc == CLI_OK && t.opens == s.opens + 1 && t.calls <= s.calls + |script| * Bound(MAX_WORDS)
      && exists slot :: FromSlot(slot, lines, script, Short(words[1]), s.disk, t.disk)
    else rc != CLI_OK && lines == [] && t == s
  }

  ghost predicate RunTold(a: Act, m: map<seq<byte>, seq<byte>>, s: Snap, t: Snap) {
    a.words != [] && a.words[0] == RUN ==> RunTells(a.words, a.rc, a.lines, m, s, t)
  }

  /**
   A script dispatched up to `off`: every line so far under frame `f`; and, unless the slot was erased, exactly the
   lines so far.
   */
  ghost predicate Lining(s: Snap, t: Snap, off: nat, lines: seq<Line>, f: Frame, script: seq<byte>, slot: nat) {
    && off <= |script| <= BODY_MAX && slot < |s.disk.versions| == |t.disk.versions|
    && t == s.(calls := t.calls, disk := t.disk) && s.calls <= t.calls <= s.calls + off * Bound(MAX_WORDS)
    && Scripts.Later(s.disk, t.disk) && (t.calls == s.calls ==> t.disk == s.disk)
    && Framed(lines, f)
    && (t.disk.versions[slot] == s.disk.versions[slot] ==> Texts(lines) + Lines(script, off) == Lines(script, 0))
  }

  ghost predicate BodyIn(d: Scripts.Disk, slot: nat, len: nat, script: seq<byte>) {
    && slot < SCRIPT_SLOTS == |d.slots| && |d.slots[slot]| == SCRIPT_SLOT_SIZE && len <= BODY_MAX
    && script == d.slots[slot][HEADER..HEADER + len]
  }

  /** A script dispatched to its end. */
  ghost predicate Lined(s: Snap, t: Snap, lines: seq<Line>, script: seq<byte>, f: Frame, slot: nat) {
    && |script| <= BODY_MAX && slot < |s.disk.versions| == |t.disk.versions|
    && t == s.(calls := t.calls, disk := t.disk) && s.calls <= t.calls <= s.calls + |script| * Bound(MAX_WORDS)
    && Scripts.Later(s.disk, t.disk) && (t.calls == s.calls ==> t.disk == s.disk)
    && Framed(lines, f)
    && (t.disk.versions[slot] == s.disk.versions[slot] ==> Texts(lines) == Lines(script, 0))
  }

  /** The guard and the open flag cleared after it. */
  lemma LinedShut(s: Snap, t: Snap, lines: seq<Line>, script: seq<byte>, f: Frame, slot: nat)
    requires Lined(s, t, lines, script, f, slot)
    ensures Lined(s.(running := false, open := false), t.(running := false, open := false), lines, script, f, slot)
  {
  }

  lemma LiningStart(s: Snap, f: Frame, script: seq<byte>, slot: nat)
    requires Whole(s) && slot < SCRIPT_SLOTS && |script| <= BODY_MAX
    ensures Lining(s, s, 0, [], f, script, slot)
  {
    assert Texts([]) == [];
  }

  lemma LiningMore(s: Snap, t: Snap, u: Snap, off: nat, next: nat, l: Line, was: seq<Line>, lines: seq<Line>, f: Frame,
    script: seq<byte>, body: seq<byte>, slot: nat)
    requires Lining(s, t, off, was, f, script, slot) && off < next <= |script| == |body|
    requires s.running && Follows(t, u, MAX_WORDS) && l.frame == f && lines == if Ignored(l.text) then was else was + [l]
    requires CutAt(body, off) == Cut(l.text, next) && (t.disk.versions[slot] == s.disk.versions[slot] ==> body == script)
    ensures Lining(s, u, next, lines, f, script, slot)
  {
    Widen(off + 1, next, Bound(MAX_WORDS));
    OneMore(off, Bound(MAX_WORDS));
    Scripts.LaterTwice(s.disk, t.disk, u.disk);
    assert Texts(lines) == Texts(was) + Shown(l.text);
    ConcatAssociates(Texts(was), Shown(l.text), Lines(script, next));
  }

  lemma LiningEnd(s: Snap, t: Snap, lines: seq<Line>, f: Frame, script: seq<byte>, slot: nat)
    requires Lining(s, t, |script|, lines, f, script, slot)
    ensures Lined(s, t, lines, script, f, slot)
  {
    assert Texts(lines) + [] == Texts(lines);
  }

  lemma {:induction false} CStringPrefix(b: seq<byte>, l: seq<byte>, p: nat)
    requires p <= |l| < |b| && b[..|l|] == l && b[|l|] == 0
    ensures CString(b, p) == CString(l, p)
    decreases |l| - p
  {
    if p < |l| {
      assert b[p] == b[..|l|][p];
      CStringPrefix(b, l, p + 1);
    }
  }

  /** What the line buffer holds after a line was read into it. */
  lemma LineText(body: seq<byte>, off: nat, b: seq<byte>)
    requires off < |body| && |b| == LINE_MAX
    requires var l := body[off..EndOfLine(body, off)]; b[..|l|] == l && b[|l|] == 0
    ensures var t := CString(b, 0); t == CutAt(body, off).line && Holds(b, 0, |t|, t)
  {
    var l := body[off..EndOfLine(body, off)];
    CutIs(body, off);
    CStringPrefix(b, l, 0);
    CStringNoNul(l, 0);
    CStringNoNul(b, 0);
  }

  /** The text before the suffix `end`. */
  function Upto(t: seq<byte>, end: seq<byte>): seq<byte> { if |end| <= |t| then t[..|t| - |end|] else t }

  /** An assignment to a variable, accepted or refused. */
  ghost predicate Assigns(m: map<seq<byte>, seq<byte>>, n: map<seq<byte>, seq<byte>>, name: seq<byte>, value: seq<byte>, rc: int) {
    && (rc == CLI_OK <==> Vars.ValidName(name) && |value| <= 95 && (name in m || |m| < 32))
    && (rc == CLI_OK ==> n == m[name := value])
    && (rc != CLI_OK ==> rc == CLI_ERR_ARG && n == m)
  }

  /** The assignment in `NAME=VALUE`, split at the first equals sign. */
  ghost predicate Splits(m: map<seq<byte>, seq<byte>>, n: map<seq<byte>, seq<byte>>, t: seq<byte>, rc: int) {
    var eq := FromByte(t, EQUALS);
    if eq.None? then rc == CLI_ERR_USAGE && n == m else Assigns(m, n, Upto(t, eq.value), eq.value[1..], rc)
  }

  lemma {:induction false} FromByteIs(t: seq<byte>, c: byte)
    ensures var r := FromByte(t, c);
      r.Some? ==> |r.value| <= |t| && t[|t| - |r.value|..] == r.value && c !in t[..|t| - |r.value|] && r.value[0] == c
  {
    if t != [] && t[0] != c {
      FromByteIs(t[1..], c);
    }
  }

  lemma {:induction false} FirstByte(a: seq<byte>, c: byte, rest: seq<byte>)
    requires c !in a
    ensures FromByte(a + ([c] + rest), c) == Some([c] + rest) && FromByte(a, c) == None
  {
    var t := a + ([c] + rest);
    if a == [] {
      assert t == [c] + rest;
    } else {
      assert t[0] == a[0] && t[1..] == a[1..] + ([c] + rest);
      FirstByte(a[1..], c, rest);
    }
  }

  /** `NAME=VALUE` assigns the value to the name, whatever the value is; without an equals sign it is a usage error. */
  lemma SplitMeans(m: map<seq<byte>, seq<byte>>, n: map<seq<byte>, seq<byte>>, name: seq<byte>, value: seq<byte>, rc: int)
    requires EQUALS !in name
    ensures Spells([EQUALS], "=")
    ensures Splits(m, n, name + ([EQUALS] + value), rc) <==> Assigns(m, n, name, value, rc)
    ensures Splits(m, n, name, rc) <==> rc == CLI_ERR_USAGE && n == m
  {
    var t := name + ([EQUALS] + value);
    FirstByte(name, EQUALS, value);
    assert t[..|t| - |[EQUALS] + value|] == name && ([EQUALS] + value)[1..] == value;
  }

  /** Writing a NUL over the first `c` of the string at `p` splits it into what stood before and what stood behind. */
  lemma SplitAt(b: seq<byte>, p: nat, c: byte, t: seq<byte>, k: nat, at: nat)
    requires p < |b| && b[|b| - 1] == 0 && t == CString(b, p) && FromByte(t, c).Some?
    requires k == |t| - |FromByte(t, c).value| && at == p + k
    ensures k < |t| && at + 1 < |b|
    ensures CString(b[at := 0], p) == t[..k] && CString(b[at := 0], at + 1) == t[k + 1..] && NoNul(t[k + 1..])
  {
    CStringNoNul(b, p);
    FromByteIs(t, c);
    assert t[|t| - 1] == b[p + |t| - 1];
    SplitHead(b, p, t, k, at);
    SplitTail(b, p, t, k, at);
  }

  lemma Halves(t: seq<byte>, k: nat, r: seq<byte>)
    requires k < |t| && r == t[k..]
    ensures Upto(t, r) == t[..k] && r[1..] == t[k + 1..]
  {
  }

  lemma StoreBeside(b: seq<byte>, at: nat, x: byte, lo: nat, hi: nat)
    requires lo <= hi <= |b| && at < |b| && (at < lo || hi <= at)
    ensures b[at := x][lo..hi] == b[lo..hi]
  {
  }

  lemma SplitHead(b: seq<byte>, p: nat, t: seq<byte>, k: nat, at: nat)
    requires k < |t| && at == p + k && p + |t| < |b| && b[p..p + |t|] == t && NoNul(t)
    ensures CString(b[at := 0], p) == t[..k]
  {
    SliceOfSlice(b, p, p + |t|, 0, k);
    StoreBeside(b, at, 0, p, at);
    StringEnds(b[at := 0], p, t[..k]);
  }

  lemma SplitTail(b: seq<byte>, p: nat, t: seq<byte>, k: nat, at: nat)
    requires k < |t| && at == p + k && p + |t| < |b| && b[p..p + |t|] == t && NoNul(t) && b[p + |t|] == 0
    ensures CString(b[at := 0], at + 1) == t[k + 1..] && NoNul(t[k + 1..])
  {
    SliceOfSlice(b, p, p + |t|, k + 1, |t|);
    StoreBeside(b, at, 0, at + 1, p + |t|);
    StringEnds(b[at := 0], at + 1, t[k + 1..]);
  }
}
