/**
 The linear algebra of the CRC register, over vectors of 32 booleans (element 0 is the bit shifted out first).
 Crc32 connects it to the 32-bit machine word the code keeps.
 */
module ShiftRegister {
  import opened Bytes

  type Reg = r: seq<bool> | |r| == 32 witness seq(32, i => false)

  function Add(a: Reg, b: Reg): Reg {
    seq(32, i requires 0 <= i < 32 => a[i] != b[i])
  }

  /** Shift down by one, adding `poly` when a one falls out. */
  function Step(poly: Reg, c: Reg): Reg {
    seq(32, i requires 0 <= i < 32 => (i < 31 && c[i + 1]) != (c[0] && poly[i]))
  }

  function Steps(poly: Reg, c: Reg, n: nat): Reg {
    if n == 0 then c else Step(poly, Steps(poly, c, n - 1))
  }

  /** Bit `i` of a byte. */
  function ByteBit(b: byte, i: int): bool {
    (i == 0 && b & 1 != 0) || (i == 1 && b & 2 != 0) || (i == 2 && b & 4 != 0) || (i == 3 && b & 8 != 0) ||
    (i == 4 && b & 16 != 0) || (i == 5 && b & 32 != 0) || (i == 6 && b & 64 != 0) || (i == 7 && b & 128 != 0)
  }

  /** Byte `b` in position `k` of a word. */
  function Lane(b: byte, k: nat): Reg {
    seq(32, i requires 0 <= i < 32 => ByteBit(b, i - 8 * k))
  }

  function FeedByte(poly: Reg, c: Reg, b: byte): Reg {
    Steps(poly, Add(c, Lane(b, 0)), 8)
  }

  /** The register after message `m`. */
  function Feed(poly: Reg, c: Reg, m: seq<byte>): Reg {
    if m == [] then c else FeedByte(poly, Feed(poly, c, m[..|m| - 1]), m[|m| - 1])
  }

  /** `c` with the four bytes of `w` added, each in its lane. */
  function Mix(c: Reg, w: seq<byte>): Reg
    requires |w| == 4
  {
    Add(Add(Add(Add(c, Lane(w[0], 0)), Lane(w[1], 1)), Lane(w[2], 2)), Lane(w[3], 3))
  }

  // ---- Laws of one step -----------------------------------------------------------

  lemma Same(a: Reg, b: Reg)
    requires forall i :: 0 <= i < 32 ==> a[i] == b[i]
    ensures a == b
  {
  }

  lemma StepAdds(poly: Reg, a: Reg, b: Reg)
    ensures Step(poly, Add(a, b)) == Add(Step(poly, a), Step(poly, b))
  {
  }

  lemma StepInjective(poly: Reg, a: Reg, b: Reg)
    requires poly[31] && Step(poly, a) == Step(poly, b)
    ensures a == b
  {
    assert a[0] == Step(poly, a)[31] && b[0] == Step(poly, b)[31];
    forall i | 0 <= i < 32 ensures a[i] == b[i] {
      if i > 0 {
        assert a[i] == (Step(poly, a)[i - 1] != (a[0] && poly[i - 1]));
        assert b[i] == (Step(poly, b)[i - 1] != (b[0] && poly[i - 1]));
      }
    }
  }

  lemma AddInjective(a: Reg, b: Reg, c: Reg)
    requires Add(b, a) == Add(c, a)
    ensures b == c
  {
    forall i | 0 <= i < 32 ensures b[i] == c[i] {
      assert Add(b, a)[i] == Add(c, a)[i];
    }
  }

  // ---- Laws of many steps -----------------------------------------------------------

  lemma {:induction false} StepsAdd(poly: Reg, a: Reg, b: Reg, n: nat)
    ensures Steps(poly, Add(a, b), n) == Add(Steps(poly, a, n), Steps(poly, b, n))
  {
    if n > 0 {
      StepsAdd(poly, a, b, n - 1);
      StepAdds(poly, Steps(poly, a, n - 1), Steps(poly, b, n - 1));
    }
  }

  lemma {:induction false} StepsInjective(poly: Reg, a: Reg, b: Reg, n: nat)
    requires poly[31] && Steps(poly, a, n) == Steps(poly, b, n)
    ensures a == b
  {
    if n > 0 {
      StepInjective(poly, Steps(poly, a, n - 1), Steps(poly, b, n - 1));
      StepsInjective(poly, a, b, n - 1);
    }
  }

  lemma {:induction false} StepsCompose(poly: Reg, c: Reg, m: nat, n: nat)
    ensures Steps(poly, Steps(poly, c, m), n) == Steps(poly, c, m + n)
  {
    if n > 0 {
      StepsCompose(poly, c, m, n - 1);
    }
  }

  /** Zeros leave the register by plain shifting. */
  lemma {:induction false} ShiftOut(poly: Reg, c: Reg, n: nat)
    requires n <= 32 && forall i :: 0 <= i < n ==> !c[i]
    ensures forall i :: 0 <= i < 32 ==> Steps(poly, c, n)[i] == (i + n < 32 && c[i + n])
  {
    if n > 0 {
      ShiftOut(poly, c, n - 1);
    }
  }

  lemma LaneDescends(poly: Reg, b: byte, k: nat)
    requires k < 4
    ensures Steps(poly, Lane(b, k), 8 * k) == Lane(b, 0)
  {
    var c := Lane(b, k);
    assert forall i :: 0 <= i < 8 * k ==> c[i] == ByteBit(b, i - 8 * k);
    ShiftOut(poly, c, 8 * k);
    forall i | 0 <= i < 32 ensures Steps(poly, c, 8 * k)[i] == Lane(b, 0)[i] {
      assert Lane(b, 0)[i] == ByteBit(b, i);
      if i + 8 * k < 32 {
        assert c[i + 8 * k] == ByteBit(b, i + 8 * k - 8 * k);
      }
    }
    Same(Steps(poly, Lane(b, k), 8 * k), Lane(b, 0));
  }

  // ---- Laws of messages --------------------------------------------------------

  lemma {:induction false} FeedInjective(poly: Reg, x: Reg, y: Reg, m: seq<byte>)
    requires poly[31] && Feed(poly, x, m) == Feed(poly, y, m)
    ensures x == y
  {
    if m != [] {
      var n := |m| - 1;
      var (p, q) := (Feed(poly, x, m[..n]), Feed(poly, y, m[..n]));
      StepsInjective(poly, Add(p, Lane(m[n], 0)), Add(q, Lane(m[n], 0)), 8);
      AddInjective(Lane(m[n], 0), p, q);
      FeedInjective(poly, x, y, m[..n]);
    }
  }

  lemma {:induction false} FeedConcat(poly: Reg, c: Reg, a: seq<byte>, b: seq<byte>)
    ensures Feed(poly, c, a + b) == Feed(poly, Feed(poly, c, a), b)
  {
    if b == [] {
      assert a + b == a;
    } else {
      var n := |b| - 1;
      FeedConcat(poly, c, a, b[..n]);
      assert (a + b)[..|a + b| - 1] == a + b[..n];
    }
  }

  /** Feeding a byte after `8 * k` steps is adding it, before them, in lane `k`. */
  lemma FoldEarly(poly: Reg, u: Reg, b: byte, k: nat)
    requires k < 4
    ensures FeedByte(poly, Steps(poly, u, 8 * k), b) == Steps(poly, Add(u, Lane(b, k)), 8 * k + 8)
  {
    LaneDescends(poly, b, k);
    StepsAdd(poly, u, Lane(b, k), 8 * k);
    StepsCompose(poly, Add(u, Lane(b, k)), 8 * k, 8);
  }

  lemma FeedFour(poly: Reg, c: Reg, w: seq<byte>)
    requires |w| == 4
    ensures Feed(poly, c, w) == FeedByte(poly, FeedByte(poly, FeedByte(poly, FeedByte(poly, c, w[0]), w[1]), w[2]), w[3])
  {
    assert w[..3][..2] == w[..2] && w[..2][..1] == w[..1] && w[..1][..0] == [];
    var s1 := Feed(poly, c, w[..1]);
    assert s1 == FeedByte(poly, Feed(poly, c, w[..1][..0]), w[0]);
    var s2 := Feed(poly, c, w[..2]);
    assert s2 == FeedByte(poly, s1, w[1]);
    var s3 := Feed(poly, c, w[..3]);
    assert s3 == FeedByte(poly, s2, w[2]);
  }

  /** Four bytes act on the register as one word. */
  lemma WordStep(poly: Reg, c: Reg, w: seq<byte>)
    requires |w| == 4
    ensures Feed(poly, c, w) == Steps(poly, Mix(c, w), 32)
  {
    var u1 := Add(c, Lane(w[0], 0));
    var u2 := Add(u1, Lane(w[1], 1));
    var u3 := Add(u2, Lane(w[2], 2));
    FeedFour(poly, c, w);
    FoldEarly(poly, u1, w[1], 1);
    FoldEarly(poly, u2, w[2], 2);
    FoldEarly(poly, u3, w[3], 3);
  }

  lemma ByteFromBits(a: byte, b: byte)
    requires forall i :: 0 <= i < 8 ==> ByteBit(a, i) == ByteBit(b, i)
    ensures a == b
  {
    assert ByteBit(a, 0) == ByteBit(b, 0) && ByteBit(a, 1) == ByteBit(b, 1);
    assert ByteBit(a, 2) == ByteBit(b, 2) && ByteBit(a, 3) == ByteBit(b, 3);
    assert ByteBit(a, 4) == ByteBit(b, 4) && ByteBit(a, 5) == ByteBit(b, 5);
    assert ByteBit(a, 6) == ByteBit(b, 6) && ByteBit(a, 7) == ByteBit(b, 7);
  }

  ghost predicate Confined(r: Reg, k: nat) {
    forall i :: 0 <= i < 32 && !(8 * k <= i < 8 * k + 8) ==> !r[i]
  }

  lemma LaneConfined(b: byte, k: nat)
    ensures Confined(Lane(b, k), k)
  {
    forall i | 0 <= i < 32 && !(8 * k <= i < 8 * k + 8) ensures !Lane(b, k)[i] {
      assert !ByteBit(b, i - 8 * k);
    }
  }

  lemma LaneInjective(a: byte, b: byte, k: nat)
    requires k < 4 && Lane(a, k) == Lane(b, k)
    ensures a == b
  {
    forall i | 0 <= i < 8 ensures ByteBit(a, i) == ByteBit(b, i) {
      assert Lane(a, k)[8 * k + i] == Lane(b, k)[8 * k + i];
    }
    ByteFromBits(a, b);
  }

  /** Lanes do not overlap, so a sum of four determines each. */
  lemma LanesDetermined(c: Reg, p0: Reg, p1: Reg, p2: Reg, p3: Reg, q0: Reg, q1: Reg, q2: Reg, q3: Reg)
    requires Confined(p0, 0) && Confined(p1, 1) && Confined(p2, 2) && Confined(p3, 3)
    requires Confined(q0, 0) && Confined(q1, 1) && Confined(q2, 2) && Confined(q3, 3)
    requires Add(Add(Add(Add(c, p0), p1), p2), p3) == Add(Add(Add(Add(c, q0), q1), q2), q3)
    ensures p0 == q0 && p1 == q1 && p2 == q2 && p3 == q3
  {
    forall i | 0 <= i < 32 ensures p0[i] == q0[i] && p1[i] == q1[i] && p2[i] == q2[i] && p3[i] == q3[i] {
      assert Add(Add(Add(Add(c, p0), p1), p2), p3)[i] == ((((c[i] != p0[i]) != p1[i]) != p2[i]) != p3[i]);
      assert Add(Add(Add(Add(c, q0), q1), q2), q3)[i] == ((((c[i] != q0[i]) != q1[i]) != q2[i]) != q3[i]);
    }
    Same(p0, q0);
    Same(p1, q1);
    Same(p2, q2);
    Same(p3, q3);
  }

  lemma MixInjective(c: Reg, v: seq<byte>, w: seq<byte>)
    requires |v| == |w| == 4 && Mix(c, v) == Mix(c, w)
    ensures v == w
  {
    forall b, k: nat ensures Confined(Lane(b, k), k) {
      LaneConfined(b, k);
    }
    LanesDetermined(c, Lane(v[0], 0), Lane(v[1], 1), Lane(v[2], 2), Lane(v[3], 3),
                    Lane(w[0], 0), Lane(w[1], 1), Lane(w[2], 2), Lane(w[3], 3));
    LaneInjective(v[0], w[0], 0);
    LaneInjective(v[1], w[1], 1);
    LaneInjective(v[2], w[2], 2);
    LaneInjective(v[3], w[3], 3);
  }

  lemma OneLane(c: Reg, p0: Reg, p1: Reg, p2: Reg, p3: Reg, k: nat, i: nat)
    requires Confined(p0, 0) && Confined(p1, 1) && Confined(p2, 2) && Confined(p3, 3)
    requires k < 4 && i < 8
    ensures Add(Add(Add(Add(c, p0), p1), p2), p3)[8 * k + i] == (c[8 * k + i] != [p0, p1, p2, p3][k][8 * k + i])
  {
  }

  lemma MixBit(c: Reg, w: seq<byte>, k: nat, i: nat)
    requires |w| == 4 && k < 4 && i < 8
    ensures Mix(c, w)[8 * k + i] == (c[8 * k + i] != ByteBit(w[k], i))
  {
    LaneConfined(w[0], 0);
    LaneConfined(w[1], 1);
    LaneConfined(w[2], 2);
    LaneConfined(w[3], 3);
    OneLane(c, Lane(w[0], 0), Lane(w[1], 1), Lane(w[2], 2), Lane(w[3], 3), k, i);
    assert Lane(w[k], k)[8 * k + i] == ByteBit(w[k], i);
  }

  // ---- Bursts --------------------------------------------------------------------

  /** `a` and `b` differ, and only inside the four bytes that start at `k`. */
  ghost predicate Burst(a: seq<byte>, b: seq<byte>, k: nat) {
    && |a| == |b| && a != b
    && forall i :: 0 <= i < |a| && !(k <= i < k + 4) ==> a[i] == b[i]
  }

  lemma BurstInside(poly: Reg, c: Reg, pre: seq<byte>, v: seq<byte>, w: seq<byte>, post: seq<byte>)
    requires poly[31] && |v| == |w| == 4
    requires Feed(poly, c, pre + v + post) == Feed(poly, c, pre + w + post)
    ensures v == w
  {
    FeedConcat(poly, c, pre + v, post);
    FeedConcat(poly, c, pre + w, post);
    FeedInjective(poly, Feed(poly, c, pre + v), Feed(poly, c, pre + w), post);
    FeedConcat(poly, c, pre, v);
    FeedConcat(poly, c, pre, w);
    var c0 := Feed(poly, c, pre);
    WordStep(poly, c0, v);
    WordStep(poly, c0, w);
    StepsInjective(poly, Mix(c0, v), Mix(c0, w), 32);
    MixInjective(c0, v, w);
  }

  /** Any change confined to four consecutive bytes leaves a different register. */
  lemma BurstChanges(poly: Reg, c: Reg, a: seq<byte>, b: seq<byte>, k: nat)
    requires poly[31] && Burst(a, b, k)
    ensures Feed(poly, c, a) != Feed(poly, c, b)
  {
    // Pad both on the right so that the window lies inside.
    var z := Fill(4, 0);
    var (p, q) := (a + z, b + z);
    var (pre, v, w, post) := (p[..k], p[k..k + 4], q[k..k + 4], p[k + 4..]);
    assert p == pre + v + post && q == pre + w + post;
    assert p[..|a|] == a && q[..|b|] == b;
    FeedConcat(poly, c, a, z);
    FeedConcat(poly, c, b, z);
    if Feed(poly, c, a) == Feed(poly, c, b) {
      BurstInside(poly, c, pre, v, w, post);
    }
  }

  /** A message followed by word `w` leaves the residue of `ones` exactly when `w` complements its register. */
  lemma Residue(poly: Reg, c: Reg, m: seq<byte>, w: seq<byte>, ones: Reg)
    requires poly[31] && |w| == 4
    ensures Feed(poly, c, m + w) == Steps(poly, ones, 32) <==> Mix(Feed(poly, c, m), w) == ones
  {
    var s := Feed(poly, c, m);
    FeedConcat(poly, c, m, w);
    WordStep(poly, s, w);
    if Feed(poly, c, m + w) == Steps(poly, ones, 32) {
      StepsInjective(poly, Mix(s, w), ones, 32);
    }
  }

  // ---- Other carriers ------------------------------------------------------------

  function Iter<T>(f: T -> T, c: T, n: nat): T {
    if n == 0 then c else f(Iter(f, c, n - 1))
  }

  function Fold<T>(absorb: (T, byte) -> T, c: T, m: seq<byte>): T {
    if m == [] then c else absorb(Fold(absorb, c, m[..|m| - 1]), m[|m| - 1])
  }

  lemma {:induction false} IterSteps<T(!new)>(h: T -> Reg, f: T -> T, poly: Reg, c: T, n: nat)
    requires forall a :: h(f(a)) == Step(poly, h(a))
    ensures h(Iter(f, c, n)) == Steps(poly, h(c), n)
  {
    if n > 0 {
      IterSteps(h, f, poly, c, n - 1);
    }
  }

  lemma {:induction false} FoldFeeds<T(!new)>(h: T -> Reg, absorb: (T, byte) -> T, poly: Reg, c: T, m: seq<byte>)
    requires forall a, b :: h(absorb(a, b)) == FeedByte(poly, h(a), b)
    ensures h(Fold(absorb, c, m)) == Feed(poly, h(c), m)
  {
    if m != [] {
      FoldFeeds(h, absorb, poly, c, m[..|m| - 1]);
    }
  }

  lemma {:induction false} FoldSame<T(!new)>(f: (T, byte) -> T, g: (T, byte) -> T, c: T, m: seq<byte>)
    requires forall a, b :: f(a, b) == g(a, b)
    ensures Fold(f, c, m) == Fold(g, c, m)
  {
    if m != [] {
      FoldSame(f, g, c, m[..|m| - 1]);
    }
  }
}
