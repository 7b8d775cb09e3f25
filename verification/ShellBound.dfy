/** How many handlers one command can reach through `if`, `while`, `repeat` and `run`. */
module ShellBound {
  import opened ScriptSlot

  const REPEAT_MAX: nat := 100000
  const WHILE_MAX: nat := 10000
  const MAX_WORDS: nat := 16

  /** The bound for a command of `n` words that opens no script. */
  function Bound(n: nat): nat {
    if n == 0 then 0 else if n <= 2 then 1 else REPEAT_MAX * Bound(n - 2)
  }

  function Power(b: nat, e: nat): nat {
    if e == 0 then 1 else b * Power(b, e - 1)
  }

  /** It is a power of the largest loop count, one factor for every two words. */
  lemma {:induction false} BoundIs(n: nat)
    requires n > 0
    ensures Bound(n) == Power(REPEAT_MAX, (n - 1) / 2)
  {
    if n > 2 {
      BoundIs(n - 2);
      assert (n - 1) / 2 == (n - 3) / 2 + 1;
    }
  }

  /** The bound when a script may still be opened: each of its lines is a command of at most 16 words. */
  function Limit(closed: bool, n: nat): nat {
    if closed then Bound(n) else BODY_MAX * Bound(MAX_WORDS) * Bound(n)
  }

  lemma {:induction false} BoundGrows(m: nat, n: nat)
    requires m <= n
    ensures Bound(m) <= Bound(n) && (n > 0 ==> 1 <= Bound(n))
    decreases n
  {
    if n > 2 {
      BoundGrows(if m >= 2 then m - 2 else 0, n - 2);
    }
  }

  lemma Times(k: nat, x: nat, y: nat)
    requires x <= y
    ensures k * x <= k * y
  {
  }

  lemma LimitGrows(closed: bool, m: nat, n: nat)
    requires m <= n
    ensures Limit(closed, m) <= Limit(closed, n) && (n > 0 ==> 1 <= Limit(closed, n))
  {
    BoundGrows(m, n);
    BoundGrows(MAX_WORDS, MAX_WORDS);
    var k := BODY_MAX * Bound(MAX_WORDS);
    Times(k, Bound(m), Bound(n));
    if n > 0 {
      Times(k, 1, Bound(n));
    }
  }

  /** `repeat`: at most 100000 times a command two words shorter. */
  lemma RepeatLimit(closed: bool, n: nat)
    requires n >= 3
    ensures REPEAT_MAX * Limit(closed, n - 2) <= Limit(closed, n)
  {
  }

  /** `while` and `if`: two commands that share at most `n - 2` words. */
  lemma PairLimit(closed: bool, c: nat, b: nat, n: nat)
    requires c + b + 2 <= n && n >= 3
    ensures WHILE_MAX * (Limit(closed, c) + Limit(closed, b)) <= Limit(closed, n)
    ensures Limit(closed, c) + Limit(closed, b) <= Limit(closed, n)
  {
    LimitGrows(closed, c, n - 2);
    LimitGrows(closed, b, n - 2);
    RepeatLimit(closed, n);
  }

  /** `run`: a script's lines, each at most `BODY_MAX` of them. */
  lemma RunLimit(n: nat, lines: nat)
    requires n > 0 && lines <= BODY_MAX
    ensures lines * Bound(MAX_WORDS) <= Limit(false, n)
  {
    BoundGrows(n, n);
    BoundGrows(MAX_WORDS, MAX_WORDS);
    var k := Bound(MAX_WORDS);
    Times(k, lines, BODY_MAX);
    Times(BODY_MAX * k, 1, Bound(n));
  }

  lemma OneMore(i: nat, l: nat)
    ensures (i + 1) * l == i * l + l
  {
  }
}
