/** What a command may do to the shell around it: the relation every command and every loop of commands keeps. */
module ShellRun {
  import opened FlashMap
  import opened ScriptSlot
  import opened ShellBound
  import opened ShellState
  import Scripts

  /**
   Frames, run guard, open flag; how many scripts were opened and how many handlers other than control commands have
   run; the script slots.
   */
  datatype Snap = Snap(frames: seq<Frame>, running: bool, open: bool, opens: nat, calls: nat, disk: Scripts.Disk)

  /**
   From `s` to `t`, frames, guard and flag are as found, and a running script does not open another. At most
   `all` handlers were called, and at most `quiet` if no script was opened. Only handlers touch the script slots.
   */
  ghost predicate Within(s: Snap, t: Snap, all: nat, quiet: nat) {
    && t.frames == s.frames && t.running == s.running && t.open == s.open
    && s.opens <= t.opens && s.calls <= t.calls && (s.running ==> t.opens == s.opens)
    && t.calls <= s.calls + all && (t.opens == s.opens ==> t.calls <= s.calls + quiet)
    && Scripts.Later(s.disk, t.disk) && (t.calls == s.calls ==> t.disk == s.disk)
  }

  predicate Whole(s: Snap) { |s.disk.slots| == |s.disk.versions| == SCRIPT_SLOTS }

  /** What a command of `n` words may do. */
  ghost predicate Follows(s: Snap, t: Snap, n: nat) {
    Within(s, t, Limit(s.running, n), Bound(n))
  }

  lemma WithinTwice(s: Snap, t: Snap, u: Snap, a: nat, q: nat, b: nat, r: nat)
    requires Within(s, t, a, q) && Within(t, u, b, r)
    ensures Within(s, u, a + b, q + r)
  {
    Scripts.LaterTwice(s.disk, t.disk, u.disk);
  }

  lemma Stays(s: Snap, n: nat)
    requires Whole(s)
    ensures Follows(s, s, n)
  {
  }

  /** One handler called, and nothing else to count. */
  lemma CallsOne(s: Snap, t: Snap, n: nat)
    requires n > 0 && t == s.(calls := s.calls + 1, disk := t.disk) && Scripts.Later(s.disk, t.disk)
    ensures Follows(s, t, n)
  {
    LimitGrows(s.running, 0, n);
    BoundGrows(0, n);
  }

  /** A shorter command in place of a longer one. */
  lemma FollowsLonger(s: Snap, t: Snap, m: nat, n: nat)
    requires Follows(s, t, m) && m <= n
    ensures Follows(s, t, n)
  {
    LimitGrows(s.running, m, n);
    BoundGrows(m, n);
  }

  /** A condition and then a body, as `if` has them. */
  lemma FollowsPair(s: Snap, t: Snap, u: Snap, c: nat, b: nat, n: nat)
    requires Follows(s, t, c) && Follows(t, u, b) && c + b + 2 <= n && n >= 3
    ensures Follows(s, u, n)
  {
    WithinTwice(s, t, u, Limit(s.running, c), Bound(c), Limit(s.running, b), Bound(b));
    PairLimit(s.running, c, b, n);
    PairLimit(true, c, b, n);
  }

  // ---- Loops -----------------------------------------------------------------------

  /** After `i` rounds of `m` words each. */
  ghost predicate Rounds(s: Snap, t: Snap, m: nat, i: nat) {
    Within(s, t, i * Limit(s.running, m), i * Bound(m))
  }

  lemma RoundsMore(s: Snap, t: Snap, u: Snap, m: nat, i: nat)
    requires Rounds(s, t, m, i) && Follows(t, u, m)
    ensures Rounds(s, u, m, i + 1)
  {
  }

  lemma RoundsEnd(s: Snap, t: Snap, m: nat, i: nat)
    requires Rounds(s, t, m, i) && i <= REPEAT_MAX
    ensures Follows(s, t, m + 2)
  {
    if m > 0 {
      RepeatLimit(s.running, m + 2);
      RepeatLimit(true, m + 2);
    }
    Widen(i, REPEAT_MAX, Limit(s.running, m));
    Widen(i, REPEAT_MAX, Bound(m));
  }

  lemma Widen(i: nat, k: nat, l: nat)
    requires i <= k
    ensures i * l <= k * l
  {
  }

  /** After `i` rounds of a condition of `c` words and a body of `b` words. */
  ghost predicate PairRounds(s: Snap, t: Snap, c: nat, b: nat, i: nat) {
    Within(s, t, i * (Limit(s.running, c) + Limit(s.running, b)), i * (Bound(c) + Bound(b)))
  }

  lemma PairRoundsMore(s: Snap, t: Snap, u: Snap, v: Snap, c: nat, b: nat, i: nat)
    requires PairRounds(s, t, c, b, i) && Follows(t, u, c) && Follows(u, v, b)
    ensures PairRounds(s, v, c, b, i + 1)
  {
  }

  lemma PairRoundsEnd(s: Snap, t: Snap, c: nat, b: nat, i: nat, n: nat)
    requires PairRounds(s, t, c, b, i) && i <= WHILE_MAX && c + b + 2 <= n && n >= 3
    ensures Follows(s, t, n)
  {
    PairLimit(s.running, c, b, n);
    PairLimit(true, c, b, n);
    Widen(i, WHILE_MAX, Limit(s.running, c) + Limit(s.running, b));
    Widen(i, WHILE_MAX, Bound(c) + Bound(b));
  }

  /** A condition that fails ends its loop within the round it opens. */
  lemma PairRoundsBreak(s: Snap, t: Snap, u: Snap, c: nat, b: nat, i: nat)
    requires PairRounds(s, t, c, b, i) && Follows(t, u, c)
    ensures PairRounds(s, u, c, b, i + 1)
  {
  }

  // ---- Scripts -----------------------------------------------------------------------

  /** A script that was opened, its lines dispatched, and closed again. */
  lemma Ran(s: Snap, t: Snap, n: nat, lines: nat)
    requires n > 0 && !s.running && lines <= BODY_MAX
    requires t.frames == s.frames && !t.running && t.open == s.open && t.opens == s.opens + 1
    requires s.calls <= t.calls <= s.calls + lines * Bound(MAX_WORDS)
    requires Scripts.Later(s.disk, t.disk) && (t.calls == s.calls ==> t.disk == s.disk)
    ensures Follows(s, t, n)
  {
    RunLimit(n, lines);
  }
}
