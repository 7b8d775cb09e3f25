/**
 What pins the specification of SHA-256: the constants are the digits that FIPS 180-4 defines them by (sections 4.2.2 and
 5.3.3), the rotations are rotations, and the digest of the one-block message "abc" is the published one.
 */
module Sha256Example {
  import opened Bytes
  import opened Sha256

  // ---- Constants -----------------------------------------------------------------

  const TWO32: nat := 0x1_0000_0000

  /** Prime `t` of the first 64. */
  function Prime(t: nat): nat
    requires t < 64
  {
    if t < 16 then [2, 3, 5, 7, 11, 13, 17, 19, 23, 29, 31, 37, 41, 43, 47, 53][t]
    else if t < 32 then [59, 61, 67, 71, 73, 79, 83, 89, 97, 101, 103, 107, 109, 113, 127, 131][t - 16]
    else if t < 48 then [137, 139, 149, 151, 157, 163, 167, 173, 179, 181, 191, 193, 197, 199, 211, 223][t - 32]
    else [227, 229, 233, 239, 241, 251, 257, 263, 269, 271, 277, 281, 283, 293, 307, 311][t - 48]
  }

  /** Whole parts of roots. */
  function CubeRoot(p: nat): nat {
    if p < 8 then 1 else if p < 27 then 2 else if p < 64 then 3 else if p < 125 then 4 else if p < 216 then 5 else 6
  }

  function SquareRoot(p: nat): nat { if p < 4 then 1 else if p < 9 then 2 else if p < 16 then 3 else 4 }

  /** `k` is the first 32 bits of the fractional part of the cube root of `p`. */
  predicate CubeRootDigits(k: nat, p: nat) {
    var r := CubeRoot(p) * TWO32 + k;
    k < TWO32 && r * r * r <= p * (TWO32 * TWO32 * TWO32) < (r + 1) * (r + 1) * (r + 1)
  }

  predicate SquareRootDigits(k: nat, p: nat) {
    var r := SquareRoot(p) * TWO32 + k;
    k < TWO32 && r * r <= p * (TWO32 * TWO32) < (r + 1) * (r + 1)
  }

  /** Round constant `t` is cut from the cube root of prime `t`. The countdown keeps the verifier from expanding it. */
  ghost predicate FromRoot(t: nat, countdown: nat := 4)
    requires t < 64
  {
    if countdown > 0 then FromRoot(t, countdown - 1) else CubeRootDigits(RoundConstant(t).v as nat, Prime(t))
  }

  lemma RootIs(t: nat, v: bv32, p: nat)
    requires t < 64 && RoundConstant(t) == Word(v) && Prime(t) == p && CubeRootDigits(v as nat, p)
    ensures FromRoot(t)
  {
    assert FromRoot(t, 0);
    assert FromRoot(t, 2) == FromRoot(t, 1) == FromRoot(t, 0);
    assert FromRoot(t, 4) == FromRoot(t, 3) == FromRoot(t, 2);
  }

  lemma Constants0()
    ensures RoundConstant(0) == Word(0x428a2f98) && RoundConstant(1) == Word(0x71374491)
    ensures RoundConstant(2) == Word(0xb5c0fbcf) && RoundConstant(3) == Word(0xe9b5dba5)
    ensures RoundConstant(4) == Word(0x3956c25b) && RoundConstant(5) == Word(0x59f111f1)
    ensures RoundConstant(6) == Word(0x923f82a4) && RoundConstant(7) == Word(0xab1c5ed5)
  {
  }

  lemma Constants8()
    ensures RoundConstant(8) == Word(0xd807aa98) && RoundConstant(9) == Word(0x12835b01)
    ensures RoundConstant(10) == Word(0x243185be) && RoundConstant(11) == Word(0x550c7dc3)
    ensures RoundConstant(12) == Word(0x72be5d74) && RoundConstant(13) == Word(0x80deb1fe)
    ensures RoundConstant(14) == Word(0x9bdc06a7) && RoundConstant(15) == Word(0xc19bf174)
  {
  }

  lemma Constants16()
    ensures RoundConstant(16) == Word(0xe49b69c1) && RoundConstant(17) == Word(0xefbe4786)
    ensures RoundConstant(18) == Word(0x0fc19dc6) && RoundConstant(19) == Word(0x240ca1cc)
    ensures RoundConstant(20) == Word(0x2de92c6f) && RoundConstant(21) == Word(0x4a7484aa)
    ensures RoundConstant(22) == Word(0x5cb0a9dc) && RoundConstant(23) == Word(0x76f988da)
  {
  }

  lemma Constants24()
    ensures RoundConstant(24) == Word(0x983e5152) && RoundConstant(25) == Word(0xa831c66d)
    ensures RoundConstant(26) == Word(0xb00327c8) && RoundConstant(27) == Word(0xbf597fc7)
    ensures RoundConstant(28) == Word(0xc6e00bf3) && RoundConstant(29) == Word(0xd5a79147)
    ensures RoundConstant(30) == Word(0x06ca6351) && RoundConstant(31) == Word(0x14292967)
  {
  }

  lemma Constants32()
    ensures RoundConstant(32) == Word(0x27b70a85) && RoundConstant(33) == Word(0x2e1b2138)
    ensures RoundConstant(34) == Word(0x4d2c6dfc) && RoundConstant(35) == Word(0x53380d13)
    ensures RoundConstant(36) == Word(0x650a7354) && RoundConstant(37) == Word(0x766a0abb)
    ensures RoundConstant(38) == Word(0x81c2c92e) && RoundConstant(39) == Word(0x92722c85)
  {
  }

  lemma Constants40()
    ensures RoundConstant(40) == Word(0xa2bfe8a1) && RoundConstant(41) == Word(0xa81a664b)
    ensures RoundConstant(42) == Word(0xc24b8b70) && RoundConstant(43) == Word(0xc76c51a3)
    ensures RoundConstant(44) == Word(0xd192e819) && RoundConstant(45) == Word(0xd6990624)
    ensures RoundConstant(46) == Word(0xf40e3585) && RoundConstant(47) == Word(0x106aa070)
  {
  }

  lemma Constants48()
    ensures RoundConstant(48) == Word(0x19a4c116) && RoundConstant(49) == Word(0x1e376c08)
    ensures RoundConstant(50) == Word(0x2748774c) && RoundConstant(51) == Word(0x34b0bcb5)
    ensures RoundConstant(52) == Word(0x391c0cb3) && RoundConstant(53) == Word(0x4ed8aa4a)
    ensures RoundConstant(54) == Word(0x5b9cca4f) && RoundConstant(55) == Word(0x682e6ff3)
  {
  }

  lemma Constants56()
    ensures RoundConstant(56) == Word(0x748f82ee) && RoundConstant(57) == Word(0x78a5636f)
    ensures RoundConstant(58) == Word(0x84c87814) && RoundConstant(59) == Word(0x8cc70208)
    ensures RoundConstant(60) == Word(0x90befffa) && RoundConstant(61) == Word(0xa4506ceb)
    ensures RoundConstant(62) == Word(0xbef9a3f7) && RoundConstant(63) == Word(0xc67178f2)
  {
  }

  lemma Primes0()
    ensures Prime(0) == 2 && Prime(1) == 3 && Prime(2) == 5 && Prime(3) == 7
    ensures Prime(4) == 11 && Prime(5) == 13 && Prime(6) == 17 && Prime(7) == 19
  {
  }

  lemma Primes8()
    ensures Prime(8) == 23 && Prime(9) == 29 && Prime(10) == 31 && Prime(11) == 37
    ensures Prime(12) == 41 && Prime(13) == 43 && Prime(14) == 47 && Prime(15) == 53
  {
  }

  lemma Primes16()
    ensures Prime(16) == 59 && Prime(17) == 61 && Prime(18) == 67 && Prime(19) == 71
    ensures Prime(20) == 73 && Prime(21) == 79 && Prime(22) == 83 && Prime(23) == 89
  {
  }

  lemma Primes24()
    ensures Prime(24) == 97 && Prime(25) == 101 && Prime(26) == 103 && Prime(27) == 107
    ensures Prime(28) == 109 && Prime(29) == 113 && Prime(30) == 127 && Prime(31) == 131
  {
  }

  lemma Primes32()
    ensures Prime(32) == 137 && Prime(33) == 139 && Prime(34) == 149 && Prime(35) == 151
    ensures Prime(36) == 157 && Prime(37) == 163 && Prime(38) == 167 && Prime(39) == 173
  {
  }

  lemma Primes40()
    ensures Prime(40) == 179 && Prime(41) == 181 && Prime(42) == 191 && Prime(43) == 193
    ensures Prime(44) == 197 && Prime(45) == 199 && Prime(46) == 211 && Prime(47) == 223
  {
  }

  lemma Primes48()
    ensures Prime(48) == 227 && Prime(49) == 229 && Prime(50) == 233 && Prime(51) == 239
    ensures Prime(52) == 241 && Prime(53) == 251 && Prime(54) == 257 && Prime(55) == 263
  {
  }

  lemma Primes56()
    ensures Prime(56) == 269 && Prime(57) == 271 && Prime(58) == 277 && Prime(59) == 281
    ensures Prime(60) == 283 && Prime(61) == 293 && Prime(62) == 307 && Prime(63) == 311
  {
  }

  lemma Roots0()
    ensures FromRoot(0) && FromRoot(1) && FromRoot(2) && FromRoot(3)
    ensures FromRoot(4) && FromRoot(5) && FromRoot(6) && FromRoot(7)
  {
    Constants0();
    Primes0();
    RootIs(0, 0x428a2f98, 2);
    RootIs(1, 0x71374491, 3);
    RootIs(2, 0xb5c0fbcf, 5);
    RootIs(3, 0xe9b5dba5, 7);
    RootIs(4, 0x3956c25b, 11);
    RootIs(5, 0x59f111f1, 13);
    RootIs(6, 0x923f82a4, 17);
    RootIs(7, 0xab1c5ed5, 19);
  }

  lemma Roots8()
    ensures FromRoot(8) && FromRoot(9) && FromRoot(10) && FromRoot(11)
    ensures FromRoot(12) && FromRoot(13) && FromRoot(14) && FromRoot(15)
  {
    Constants8();
    Primes8();
    RootIs(8, 0xd807aa98, 23);
    RootIs(9, 0x12835b01, 29);
    RootIs(10, 0x243185be, 31);
    RootIs(11, 0x550c7dc3, 37);
    RootIs(12, 0x72be5d74, 41);
    RootIs(13, 0x80deb1fe, 43);
    RootIs(14, 0x9bdc06a7, 47);
    RootIs(15, 0xc19bf174, 53);
  }

  lemma Roots16()
    ensures FromRoot(16) && FromRoot(17) && FromRoot(18) && FromRoot(19)
    ensures FromRoot(20) && FromRoot(21) && FromRoot(22) && FromRoot(23)
  {
    Constants16();
    Primes16();
    RootIs(16, 0xe49b69c1, 59);
    RootIs(17, 0xefbe4786, 61);
    RootIs(18, 0x0fc19dc6, 67);
    RootIs(19, 0x240ca1cc, 71);
    RootIs(20, 0x2de92c6f, 73);
    RootIs(21, 0x4a7484aa, 79);
    RootIs(22, 0x5cb0a9dc, 83);
    RootIs(23, 0x76f988da, 89);
  }

  lemma Roots24()
    ensures FromRoot(24) && FromRoot(25) && FromRoot(26) && FromRoot(27)
    ensures FromRoot(28) && FromRoot(29) && FromRoot(30) && FromRoot(31)
  {
    Constants24();
    Primes24();
    RootIs(24, 0x983e5152, 97);
    RootIs(25, 0xa831c66d, 101);
    RootIs(26, 0xb00327c8, 103);
    RootIs(27, 0xbf597fc7, 107);
    RootIs(28, 0xc6e00bf3, 109);
    RootIs(29, 0xd5a79147, 113);
    RootIs(30, 0x06ca6351, 127);
    RootIs(31, 0x14292967, 131);
  }

  lemma Roots32()
    ensures FromRoot(32) && FromRoot(33) && FromRoot(34) && FromRoot(35)
    ensures FromRoot(36) && FromRoot(37) && FromRoot(38) && FromRoot(39)
  {
    Constants32();
    Primes32();
    RootIs(32, 0x27b70a85, 137);
    RootIs(33, 0x2e1b2138, 139);
    RootIs(34, 0x4d2c6dfc, 149);
    RootIs(35, 0x53380d13, 151);
    RootIs(36, 0x650a7354, 157);
    RootIs(37, 0x766a0abb, 163);
    RootIs(38, 0x81c2c92e, 167);
    RootIs(39, 0x92722c85, 173);
  }

  lemma Roots40()
    ensures FromRoot(40) && FromRoot(41) && FromRoot(42) && FromRoot(43)
    ensures FromRoot(44) && FromRoot(45) && FromRoot(46) && FromRoot(47)
  {
    Constants40();
    Primes40();
    RootIs(40, 0xa2bfe8a1, 179);
    RootIs(41, 0xa81a664b, 181);
    RootIs(42, 0xc24b8b70, 191);
    RootIs(43, 0xc76c51a3, 193);
    RootIs(44, 0xd192e819, 197);
    RootIs(45, 0xd6990624, 199);
    RootIs(46, 0xf40e3585, 211);
    RootIs(47, 0x106aa070, 223);
  }

  lemma Roots48()
    ensures FromRoot(48) && FromRoot(49) && FromRoot(50) && FromRoot(51)
    ensures FromRoot(52) && FromRoot(53) && FromRoot(54) && FromRoot(55)
  {
    Constants48();
    Primes48();
    RootIs(48, 0x19a4c116, 227);
    RootIs(49, 0x1e376c08, 229);
    RootIs(50, 0x2748774c, 233);
    RootIs(51, 0x34b0bcb5, 239);
    RootIs(52, 0x391c0cb3, 241);
    RootIs(53, 0x4ed8aa4a, 251);
    RootIs(54, 0x5b9cca4f, 257);
    RootIs(55, 0x682e6ff3, 263);
  }

  lemma Roots56()
    ensures FromRoot(56) && FromRoot(57) && FromRoot(58) && FromRoot(59)
    ensures FromRoot(60) && FromRoot(61) && FromRoot(62) && FromRoot(63)
  {
    Constants56();
    Primes56();
    RootIs(56, 0x748f82ee, 269);
    RootIs(57, 0x78a5636f, 271);
    RootIs(58, 0x84c87814, 277);
    RootIs(59, 0x8cc70208, 281);
    RootIs(60, 0x90befffa, 283);
    RootIs(61, 0xa4506ceb, 293);
    RootIs(62, 0xbef9a3f7, 307);
    RootIs(63, 0xc67178f2, 311);
  }

  lemma LowRoots(t: nat)
    requires 0 <= t < 32
    ensures FromRoot(t)
  {
    if t < 8 {
      Roots0();
      assert t == 0 || t == 1 || t == 2 || t == 3 || t == 4 || t == 5 || t == 6 || t == 7;
    } else if t < 16 {
      Roots8();
      assert t == 8 || t == 9 || t == 10 || t == 11 || t == 12 || t == 13 || t == 14 || t == 15;
    } else if t < 24 {
      Roots16();
      assert t == 16 || t == 17 || t == 18 || t == 19 || t == 20 || t == 21 || t == 22 || t == 23;
    } else {
      Roots24();
      assert t == 24 || t == 25 || t == 26 || t == 27 || t == 28 || t == 29 || t == 30 || t == 31;
    }
  }

  lemma HighRoots(t: nat)
    requires 32 <= t < 64
    ensures FromRoot(t)
  {
    if t < 40 {
      Roots32();
      assert t == 32 || t == 33 || t == 34 || t == 35 || t == 36 || t == 37 || t == 38 || t == 39;
    } else if t < 48 {
      Roots40();
      assert t == 40 || t == 41 || t == 42 || t == 43 || t == 44 || t == 45 || t == 46 || t == 47;
    } else if t < 56 {
      Roots48();
      assert t == 48 || t == 49 || t == 50 || t == 51 || t == 52 || t == 53 || t == 54 || t == 55;
    } else {
      Roots56();
      assert t == 56 || t == 57 || t == 58 || t == 59 || t == 60 || t == 61 || t == 62 || t == 63;
    }
  }

  /** Every round constant is what section 4.2.2 says. */
  lemma RoundConstantsAre(t: nat)
    requires t < 64
    ensures FromRoot(t)
  {
    if t < 32 {
      LowRoots(t);
    } else {
      HighRoots(t);
    }
  }

  /** The initial hash value is what section 5.3.3 says. */
  lemma InitialHashIs()
    ensures SquareRootDigits(H0.a.v as nat, 2)
    ensures SquareRootDigits(H0.b.v as nat, 3)
    ensures SquareRootDigits(H0.c.v as nat, 5)
    ensures SquareRootDigits(H0.d.v as nat, 7)
    ensures SquareRootDigits(H0.e.v as nat, 11)
    ensures SquareRootDigits(H0.f.v as nat, 13)
    ensures SquareRootDigits(H0.g.v as nat, 17)
    ensures SquareRootDigits(H0.h.v as nat, 19)
  {
    assert SquareRootDigits(0x6a09e667, 2);
    assert SquareRootDigits(0xbb67ae85, 3);
    assert SquareRootDigits(0x3c6ef372, 5);
    assert SquareRootDigits(0xa54ff53a, 7);
    assert SquareRootDigits(0x510e527f, 11);
    assert SquareRootDigits(0x9b05688c, 13);
    assert SquareRootDigits(0x1f83d9ab, 17);
    assert SquareRootDigits(0x5be0cd19, 19);
  }

  /** Where `x` has a one, the bit of `y`; elsewhere that of `z`. */
  lemma ChIs(x: bv32, y: bv32, z: bv32)
    ensures Ch(Word(x), Word(y), Word(z)).v == (x & y) | (!x & z)
  {
  }

  /** Ones where at least two of the three have them. */
  lemma MajIs(x: bv32, y: bv32, z: bv32)
    ensures Maj(Word(x), Word(y), Word(z)).v == (x & y) | (y & z) | (x & z)
  {
  }

  // ---- The message schedule of "abc" ------------------------------------------------

  const ABC: seq<byte> := [97, 98, 99]

  function Of(a: bv32, b: bv32, c: bv32, d: bv32, e: bv32, f: bv32, g: bv32, h: bv32): Words {
    Words(Word(a), Word(b), Word(c), Word(d), Word(e), Word(f), Word(g), Word(h))
  }

  /** Eight words of a schedule, from word `t` on. */
  predicate Eight(w: seq<Word>, t: nat, x: Words)
    requires t + 8 <= |w|
  {
    && w[t] == x.a && w[t + 1] == x.b && w[t + 2] == x.c && w[t + 3] == x.d
    && w[t + 4] == x.e && w[t + 5] == x.f && w[t + 6] == x.g && w[t + 7] == x.h
  }

  function Scheduled(p: Word, q: Word, r: Word, s: Word): Word { Sum4(p, SmallSigma0(q), r, SmallSigma1(s)) }

  /** Eight words of a schedule from the sixteen before them. */
  predicate Follow(x: Words, y: Words, z: Words) {
    && z.a == Scheduled(x.a, x.b, y.b, y.g) && z.b == Scheduled(x.b, x.c, y.c, y.h)
    && z.c == Scheduled(x.c, x.d, y.d, z.a) && z.d == Scheduled(x.d, x.e, y.e, z.b)
    && z.e == Scheduled(x.e, x.f, y.f, z.c) && z.f == Scheduled(x.f, x.g, y.g, z.d)
    && z.g == Scheduled(x.g, x.h, y.h, z.e) && z.h == Scheduled(x.h, y.a, z.a, z.f)
  }

  lemma {:induction false} ScheduleAt(b: Block, n: nat, t: nat)
    requires t < n <= 64
    ensures ScheduleOf(b, n)[..t] == ScheduleOf(b, t) && ScheduleOf(b, n)[t] == NextWord(b, ScheduleOf(b, t))
  {
    if t < n - 1 {
      ScheduleAt(b, n - 1, t);
    }
  }

  lemma WordAt(b: Block, t: nat)
    requires 16 <= t < 64
    ensures var w := ScheduleOf(b, 64); w[t] == Scheduled(w[t - 16], w[t - 15], w[t - 7], w[t - 2])
  {
    ScheduleAt(b, 64, t);
    var (w, s) := (ScheduleOf(b, 64), ScheduleOf(b, t));
    assert w[..t][t - 16] == w[t - 16] && w[..t][t - 15] == w[t - 15] && w[..t][t - 7] == w[t - 7] && w[..t][t - 2] == w[t - 2];
  }

  lemma EightFollow(b: Block, t: nat, x: Words, y: Words, z: Words)
    requires 16 <= t <= 56 && Eight(ScheduleOf(b, 64), t - 16, x) && Eight(ScheduleOf(b, 64), t - 8, y) && Follow(x, y, z)
    ensures Eight(ScheduleOf(b, 64), t, z)
  {
    WordAt(b, t);
    WordAt(b, t + 1);
    WordAt(b, t + 2);
    WordAt(b, t + 3);
    WordAt(b, t + 4);
    WordAt(b, t + 5);
    WordAt(b, t + 6);
    WordAt(b, t + 7);
  }

  /** The first sixteen words are those of the block. */
  lemma WordIs(b: Block, t: nat)
    requires t < 16
    ensures ScheduleOf(b, 64)[t] == BigEndian(b[4 * t], b[4 * t + 1], b[4 * t + 2], b[4 * t + 3])
  {
    ScheduleAt(b, 64, t);
  }

  lemma {:induction false} PowerAbove(k: nat)
    requires k > 0
    ensures Pow256(k) >= 256
  {
    if k > 1 {
      PowerAbove(k - 1);
    }
  }

  lemma Quotient(p: nat)
    requires p >= 256
    ensures 24 / p % 256 == 0
  {
  }

  lemma ByteIs(x: nat, i: nat, q: nat)
    requires i < 8 && x / Pow256(7 - i) % 256 == q < 256
    ensures BeByte(x, i) == q as byte
  {
  }

  lemma ShortLength(i: nat)
    requires i < 8
    ensures BeByte(24, i) == if i < 7 then 0 else 24
  {
    if i < 7 {
      PowerAbove(7 - i);
      Quotient(Pow256(7 - i));
      ByteIs(24, i, 0);
    } else {
      assert Pow256(0) == 1;
      ByteIs(24, 7, 24);
    }
  }

  lemma AbcLength()
    ensures LengthField(3)[7] == 24 && forall i :: 0 <= i < 7 ==> LengthField(3)[i] == 0
  {
    forall i | 0 <= i < 8 ensures LengthField(3)[i] == if i < 7 then 0 else 24 {
      ShortLength(i);
    }
  }

  /** The padded message: a one bit, zeros, and the length of 24 bits. */
  lemma AbcPadded()
    ensures var p := Pad(ABC);
      && |p| == 64 && p[..3] == ABC && p[3] == 0x80 && (forall i :: 4 <= i < 63 ==> p[i] == 0) && p[63] == 24
  {
    AbcLength();
  }

  // ---- The rounds ------------------------------------------------------------------

  /** One round on literal words. */
  lemma RoundAt(v: Words, w: seq<Word>, t: nat, before: Words, k: Word, x: Word, after: Words)
    requires |w| == 64 && t < 64 && Rounds(v, w, t) == before && RoundConstant(t) == k && w[t] == x
    requires Round(before, k, x) == after
    ensures Rounds(v, w, t + 1) == after
  {
  }

  lemma Rounds0(w: seq<Word>)
    requires |w| == 64
    requires Eight(w, 0, Of(0x61626380, 0x00000000, 0x00000000, 0x00000000, 0x00000000, 0x00000000, 0x00000000, 0x00000000))
    requires Rounds(H0, w, 0) ==
      Of(0x6a09e667, 0xbb67ae85, 0x3c6ef372, 0xa54ff53a, 0x510e527f, 0x9b05688c, 0x1f83d9ab, 0x5be0cd19)
    ensures Rounds(H0, w, 8) ==
      Of(0x85a07b5f, 0xe5030380, 0x2b4209f5, 0x04409a6a, 0x0c657a79, 0x9b27a401, 0x714260ad, 0x43ada245)
  {
    Constants0();
    var s0 := Of(0x6a09e667, 0xbb67ae85, 0x3c6ef372, 0xa54ff53a, 0x510e527f, 0x9b05688c, 0x1f83d9ab, 0x5be0cd19);
    var s1 := Of(0x5d6aebcd, 0x6a09e667, 0xbb67ae85, 0x3c6ef372, 0xfa2a4622, 0x510e527f, 0x9b05688c, 0x1f83d9ab);
    RoundAt(H0, w, 0, s0, Word(0x428a2f98), Word(0x61626380), s1);
    var s2 := Of(0x5a6ad9ad, 0x5d6aebcd, 0x6a09e667, 0xbb67ae85, 0x78ce7989, 0xfa2a4622, 0x510e527f, 0x9b05688c);
    RoundAt(H0, w, 1, s1, Word(0x71374491), Word(0x00000000), s2);
    var s3 := Of(0xc8c347a7, 0x5a6ad9ad, 0x5d6aebcd, 0x6a09e667, 0xf92939eb, 0x78ce7989, 0xfa2a4622, 0x510e527f);
    RoundAt(H0, w, 2, s2, Word(0xb5c0fbcf), Word(0x00000000), s3);
    var s4 := Of(0xd550f666, 0xc8c347a7, 0x5a6ad9ad, 0x5d6aebcd, 0x24e00850, 0xf92939eb, 0x78ce7989, 0xfa2a4622);
    RoundAt(H0, w, 3, s3, Word(0xe9b5dba5), Word(0x00000000), s4);
    var s5 := Of(0x04409a6a, 0xd550f666, 0xc8c347a7, 0x5a6ad9ad, 0x43ada245, 0x24e00850, 0xf92939eb, 0x78ce7989);
    RoundAt(H0, w, 4, s4, Word(0x3956c25b), Word(0x00000000), s5);
    var s6 := Of(0x2b4209f5, 0x04409a6a, 0xd550f666, 0xc8c347a7, 0x714260ad, 0x43ada245, 0x24e00850, 0xf92939eb);
    RoundAt(H0, w, 5, s5, Word(0x59f111f1), Word(0x00000000), s6);
    var s7 := Of(0xe5030380, 0x2b4209f5, 0x04409a6a, 0xd550f666, 0x9b27a401, 0x714260ad, 0x43ada245, 0x24e00850);
    RoundAt(H0, w, 6, s6, Word(0x923f82a4), Word(0x00000000), s7);
    var s8 := Of(0x85a07b5f, 0xe5030380, 0x2b4209f5, 0x04409a6a, 0x0c657a79, 0x9b27a401, 0x714260ad, 0x43ada245);
    RoundAt(H0, w, 7, s7, Word(0xab1c5ed5), Word(0x00000000), s8);
  }

  lemma Rounds8(w: seq<Word>)
    requires |w| == 64
    requires Eight(w, 8, Of(0x00000000, 0x00000000, 0x00000000, 0x00000000, 0x00000000, 0x00000000, 0x00000000, 0x00000018))
    requires Rounds(H0, w, 8) ==
      Of(0x85a07b5f, 0xe5030380, 0x2b4209f5, 0x04409a6a, 0x0c657a79, 0x9b27a401, 0x714260ad, 0x43ada245)
    ensures Rounds(H0, w, 16) ==
      Of(0xb0fa238e, 0xc0645fde, 0xd932eb16, 0x87912990, 0x07590dcd, 0x0b92f20c, 0x745a48de, 0x1e578218)
  {
    Constants8();
    var s8 := Of(0x85a07b5f, 0xe5030380, 0x2b4209f5, 0x04409a6a, 0x0c657a79, 0x9b27a401, 0x714260ad, 0x43ada245);
    var s9 := Of(0x8e04ecb9, 0x85a07b5f, 0xe5030380, 0x2b4209f5, 0x32ca2d8c, 0x0c657a79, 0x9b27a401, 0x714260ad);
    RoundAt(H0, w, 8, s8, Word(0xd807aa98), Word(0x00000000), s9);
    var s10 := Of(0x8c87346b, 0x8e04ecb9, 0x85a07b5f, 0xe5030380, 0x1cc92596, 0x32ca2d8c, 0x0c657a79, 0x9b27a401);
    RoundAt(H0, w, 9, s9, Word(0x12835b01), Word(0x00000000), s10);
    var s11 := Of(0x4798a3f4, 0x8c87346b, 0x8e04ecb9, 0x85a07b5f, 0x436b23e8, 0x1cc92596, 0x32ca2d8c, 0x0c657a79);
    RoundAt(H0, w, 10, s10, Word(0x243185be), Word(0x00000000), s11);
    var s12 := Of(0xf71fc5a9, 0x4798a3f4, 0x8c87346b, 0x8e04ecb9, 0x816fd6e9, 0x436b23e8, 0x1cc92596, 0x32ca2d8c);
    RoundAt(H0, w, 11, s11, Word(0x550c7dc3), Word(0x00000000), s12);
    var s13 := Of(0x87912990, 0xf71fc5a9, 0x4798a3f4, 0x8c87346b, 0x1e578218, 0x816fd6e9, 0x436b23e8, 0x1cc92596);
    RoundAt(H0, w, 12, s12, Word(0x72be5d74), Word(0x00000000), s13);
    var s14 := Of(0xd932eb16, 0x87912990, 0xf71fc5a9, 0x4798a3f4, 0x745a48de, 0x1e578218, 0x816fd6e9, 0x436b23e8);
    RoundAt(H0, w, 13, s13, Word(0x80deb1fe), Word(0x00000000), s14);
    var s15 := Of(0xc0645fde, 0xd932eb16, 0x87912990, 0xf71fc5a9, 0x0b92f20c, 0x745a48de, 0x1e578218, 0x816fd6e9);
    RoundAt(H0, w, 14, s14, Word(0x9bdc06a7), Word(0x00000000), s15);
    var s16 := Of(0xb0fa238e, 0xc0645fde, 0xd932eb16, 0x87912990, 0x07590dcd, 0x0b92f20c, 0x745a48de, 0x1e578218);
    RoundAt(H0, w, 15, s15, Word(0xc19bf174), Word(0x00000018), s16);
  }

  lemma Rounds16(w: seq<Word>)
    requires |w| == 64
    requires Eight(w, 16, Of(0x61626380, 0x000f0000, 0x7da86405, 0x600003c6, 0x3e9d7b78, 0x0183fc00, 0x12dcbfdb, 0xe2e2c38e))
    requires Rounds(H0, w, 16) ==
      Of(0xb0fa238e, 0xc0645fde, 0xd932eb16, 0x87912990, 0x07590dcd, 0x0b92f20c, 0x745a48de, 0x1e578218)
    ensures Rounds(H0, w, 24) ==
      Of(0xc5d53d8d, 0xa7a3623f, 0xc2606d6d, 0x9dc68b63, 0xaa47c347, 0x49f5114a, 0xe1257970, 0x8ada8930)
  {
    Constants16();
    var s16 := Of(0xb0fa238e, 0xc0645fde, 0xd932eb16, 0x87912990, 0x07590dcd, 0x0b92f20c, 0x745a48de, 0x1e578218);
    var s17 := Of(0x21da9a9b, 0xb0fa238e, 0xc0645fde, 0xd932eb16, 0x8034229c, 0x07590dcd, 0x0b92f20c, 0x745a48de);
    RoundAt(H0, w, 16, s16, Word(0xe49b69c1), Word(0x61626380), s17);
    var s18 := Of(0xc2fbd9d1, 0x21da9a9b, 0xb0fa238e, 0xc0645fde, 0x846ee454, 0x8034229c, 0x07590dcd, 0x0b92f20c);
    RoundAt(H0, w, 17, s17, Word(0xefbe4786), Word(0x000f0000), s18);
    var s19 := Of(0xfe777bbf, 0xc2fbd9d1, 0x21da9a9b, 0xb0fa238e, 0xcc899961, 0x846ee454, 0x8034229c, 0x07590dcd);
    RoundAt(H0, w, 18, s18, Word(0x0fc19dc6), Word(0x7da86405), s19);
    var s20 := Of(0xe1f20c33, 0xfe777bbf, 0xc2fbd9d1, 0x21da9a9b, 0xb0638179, 0xcc899961, 0x846ee454, 0x8034229c);
    RoundAt(H0, w, 19, s19, Word(0x240ca1cc), Word(0x600003c6), s20);
    var s21 := Of(0x9dc68b63, 0xe1f20c33, 0xfe777bbf, 0xc2fbd9d1, 0x8ada8930, 0xb0638179, 0xcc899961, 0x846ee454);
    RoundAt(H0, w, 20, s20, Word(0x2de92c6f), Word(0x3e9d7b78), s21);
    var s22 := Of(0xc2606d6d, 0x9dc68b63, 0xe1f20c33, 0xfe777bbf, 0xe1257970, 0x8ada8930, 0xb0638179, 0xcc899961);
    RoundAt(H0, w, 21, s21, Word(0x4a7484aa), Word(0x0183fc00), s22);
    var s23 := Of(0xa7a3623f, 0xc2606d6d, 0x9dc68b63, 0xe1f20c33, 0x49f5114a, 0xe1257970, 0x8ada8930, 0xb0638179);
    RoundAt(H0, w, 22, s22, Word(0x5cb0a9dc), Word(0x12dcbfdb), s23);
    var s24 := Of(0xc5d53d8d, 0xa7a3623f, 0xc2606d6d, 0x9dc68b63, 0xaa47c347, 0x49f5114a, 0xe1257970, 0x8ada8930);
    RoundAt(H0, w, 23, s23, Word(0x76f988da), Word(0xe2e2c38e), s24);
  }

  lemma Rounds24(w: seq<Word>)
    requires |w| == 64
    requires Eight(w, 24, Of(0xc8215c1a, 0xb73679a2, 0xe5bc3909, 0x32663c5b, 0x9d209d67, 0xec8726cb, 0x702138a4, 0xd3b7973b))
    requires Rounds(H0, w, 24) ==
      Of(0xc5d53d8d, 0xa7a3623f, 0xc2606d6d, 0x9dc68b63, 0xaa47c347, 0x49f5114a, 0xe1257970, 0x8ada8930)
    ensures Rounds(H0, w, 32) ==
      Of(0x73b33bf5, 0xea992a22, 0xa0060b30, 0x363482c9, 0xba591112, 0x0109ab3a, 0xade79437, 0x6112a3b7)
  {
    Constants24();
    var s24 := Of(0xc5d53d8d, 0xa7a3623f, 0xc2606d6d, 0x9dc68b63, 0xaa47c347, 0x49f5114a, 0xe1257970, 0x8ada8930);
    var s25 := Of(0x1c2c2838, 0xc5d53d8d, 0xa7a3623f, 0xc2606d6d, 0x2823ef91, 0xaa47c347, 0x49f5114a, 0xe1257970);
    RoundAt(H0, w, 24, s24, Word(0x983e5152), Word(0xc8215c1a), s25);
    var s26 := Of(0xcde8037d, 0x1c2c2838, 0xc5d53d8d, 0xa7a3623f, 0x14383d8e, 0x2823ef91, 0xaa47c347, 0x49f5114a);
    RoundAt(H0, w, 25, s25, Word(0xa831c66d), Word(0xb73679a2), s26);
    var s27 := Of(0xb62ec4bc, 0xcde8037d, 0x1c2c2838, 0xc5d53d8d, 0xc74c6516, 0x14383d8e, 0x2823ef91, 0xaa47c347);
    RoundAt(H0, w, 26, s26, Word(0xb00327c8), Word(0xe5bc3909), s27);
    var s28 := Of(0x77d37528, 0xb62ec4bc, 0xcde8037d, 0x1c2c2838, 0xedffbff8, 0xc74c6516, 0x14383d8e, 0x2823ef91);
    RoundAt(H0, w, 27, s27, Word(0xbf597fc7), Word(0x32663c5b), s28);
    var s29 := Of(0x363482c9, 0x77d37528, 0xb62ec4bc, 0xcde8037d, 0x6112a3b7, 0xedffbff8, 0xc74c6516, 0x14383d8e);
    RoundAt(H0, w, 28, s28, Word(0xc6e00bf3), Word(0x9d209d67), s29);
    var s30 := Of(0xa0060b30, 0x363482c9, 0x77d37528, 0xb62ec4bc, 0xade79437, 0x6112a3b7, 0xedffbff8, 0xc74c6516);
    RoundAt(H0, w, 29, s29, Word(0xd5a79147), Word(0xec8726cb), s30);
    var s31 := Of(0xea992a22, 0xa0060b30, 0x363482c9, 0x77d37528, 0x0109ab3a, 0xade79437, 0x6112a3b7, 0xedffbff8);
    RoundAt(H0, w, 30, s30, Word(0x06ca6351), Word(0x702138a4), s31);
    var s32 := Of(0x73b33bf5, 0xea992a22, 0xa0060b30, 0x363482c9, 0xba591112, 0x0109ab3a, 0xade79437, 0x6112a3b7);
    RoundAt(H0, w, 31, s31, Word(0x14292967), Word(0xd3b7973b), s32);
  }

  lemma Rounds32(w: seq<Word>)
    requires |w| == 64
    requires Eight(w, 32, Of(0x93f5997f, 0x3b68ba73, 0xaff4ffc1, 0xf10a5c62, 0x0a8b3996, 0x72af830a, 0x9409e33e, 0x24641522))
    requires Rounds(H0, w, 32) ==
      Of(0x73b33bf5, 0xea992a22, 0xa0060b30, 0x363482c9, 0xba591112, 0x0109ab3a, 0xade79437, 0x6112a3b7)
    ensures Rounds(H0, w, 40) ==
      Of(0x79ea687a, 0x6dc57a8a, 0x34df1604, 0x41a65cb1, 0x1efbc0a0, 0xf0781bc8, 0xa507a53d, 0x0772a26b)
  {
    Constants32();
    var s32 := Of(0x73b33bf5, 0xea992a22, 0xa0060b30, 0x363482c9, 0xba591112, 0x0109ab3a, 0xade79437, 0x6112a3b7);
    var s33 := Of(0x98e12507, 0x73b33bf5, 0xea992a22, 0xa0060b30, 0x9cd9f5f6, 0xba591112, 0x0109ab3a, 0xade79437);
    RoundAt(H0, w, 32, s32, Word(0x27b70a85), Word(0x93f5997f), s33);
    var s34 := Of(0xfe604df5, 0x98e12507, 0x73b33bf5, 0xea992a22, 0x59249dd3, 0x9cd9f5f6, 0xba591112, 0x0109ab3a);
    RoundAt(H0, w, 33, s33, Word(0x2e1b2138), Word(0x3b68ba73), s34);
    var s35 := Of(0xa9a7738c, 0xfe604df5, 0x98e12507, 0x73b33bf5, 0x085f3833, 0x59249dd3, 0x9cd9f5f6, 0xba591112);
    RoundAt(H0, w, 34, s34, Word(0x4d2c6dfc), Word(0xaff4ffc1), s35);
    var s36 := Of(0x65a0cfe4, 0xa9a7738c, 0xfe604df5, 0x98e12507, 0xf4b002d6, 0x085f3833, 0x59249dd3, 0x9cd9f5f6);
    RoundAt(H0, w, 35, s35, Word(0x53380d13), Word(0xf10a5c62), s36);
    var s37 := Of(0x41a65cb1, 0x65a0cfe4, 0xa9a7738c, 0xfe604df5, 0x0772a26b, 0xf4b002d6, 0x085f3833, 0x59249dd3);
    RoundAt(H0, w, 36, s36, Word(0x650a7354), Word(0x0a8b3996), s37);
    var s38 := Of(0x34df1604, 0x41a65cb1, 0x65a0cfe4, 0xa9a7738c, 0xa507a53d, 0x0772a26b, 0xf4b002d6, 0x085f3833);
    RoundAt(H0, w, 37, s37, Word(0x766a0abb), Word(0x72af830a), s38);
    var s39 := Of(0x6dc57a8a, 0x34df1604, 0x41a65cb1, 0x65a0cfe4, 0xf0781bc8, 0xa507a53d, 0x0772a26b, 0xf4b002d6);
    RoundAt(H0, w, 38, s38, Word(0x81c2c92e), Word(0x9409e33e), s39);
    var s40 := Of(0x79ea687a, 0x6dc57a8a, 0x34df1604, 0x41a65cb1, 0x1efbc0a0, 0xf0781bc8, 0xa507a53d, 0x0772a26b);
    RoundAt(H0, w, 39, s39, Word(0x92722c85), Word(0x24641522), s40);
  }

  lemma Rounds40(w: seq<Word>)
    requires |w| == 64
    requires Eight(w, 40, Of(0x9f47bf94, 0xf0a64f5a, 0x3e246a79, 0x27333ba3, 0x0c4763f2, 0x840abf27, 0x7a290d5d, 0x065c43da))
    requires Rounds(H0, w, 40) ==
      Of(0x79ea687a, 0x6dc57a8a, 0x34df1604, 0x41a65cb1, 0x1efbc0a0, 0xf0781bc8, 0xa507a53d, 0x0772a26b)
    ensures Rounds(H0, w, 48) ==
      Of(0x4172328d, 0xa14c14b0, 0x72ab4b91, 0x26628815, 0xfecf0bc6, 0xd57b94a9, 0xb7755da1, 0xa80f11f0)
  {
    Constants40();
    var s40 := Of(0x79ea687a, 0x6dc57a8a, 0x34df1604, 0x41a65cb1, 0x1efbc0a0, 0xf0781bc8, 0xa507a53d, 0x0772a26b);
    var s41 := Of(0xd6670766, 0x79ea687a, 0x6dc57a8a, 0x34df1604, 0x26352d63, 0x1efbc0a0, 0xf0781bc8, 0xa507a53d);
    RoundAt(H0, w, 40, s40, Word(0xa2bfe8a1), Word(0x9f47bf94), s41);
    var s42 := Of(0xdf46652f, 0xd6670766, 0x79ea687a, 0x6dc57a8a, 0x838b2711, 0x26352d63, 0x1efbc0a0, 0xf0781bc8);
    RoundAt(H0, w, 41, s41, Word(0xa81a664b), Word(0xf0a64f5a), s42);
    var s43 := Of(0x17aa0dfe, 0xdf46652f, 0xd6670766, 0x79ea687a, 0xdecd4715, 0x838b2711, 0x26352d63, 0x1efbc0a0);
    RoundAt(H0, w, 42, s42, Word(0xc24b8b70), Word(0x3e246a79), s43);
    var s44 := Of(0x9d4baf93, 0x17aa0dfe, 0xdf46652f, 0xd6670766, 0xfda24c2e, 0xdecd4715, 0x838b2711, 0x26352d63);
    RoundAt(H0, w, 43, s43, Word(0xc76c51a3), Word(0x27333ba3), s44);
    var s45 := Of(0x26628815, 0x9d4baf93, 0x17aa0dfe, 0xdf46652f, 0xa80f11f0, 0xfda24c2e, 0xdecd4715, 0x838b2711);
    RoundAt(H0, w, 44, s44, Word(0xd192e819), Word(0x0c4763f2), s45);
    var s46 := Of(0x72ab4b91, 0x26628815, 0x9d4baf93, 0x17aa0dfe, 0xb7755da1, 0xa80f11f0, 0xfda24c2e, 0xdecd4715);
    RoundAt(H0, w, 45, s45, Word(0xd6990624), Word(0x840abf27), s46);
    var s47 := Of(0xa14c14b0, 0x72ab4b91, 0x26628815, 0x9d4baf93, 0xd57b94a9, 0xb7755da1, 0xa80f11f0, 0xfda24c2e);
    RoundAt(H0, w, 46, s46, Word(0xf40e3585), Word(0x7a290d5d), s47);
    var s48 := Of(0x4172328d, 0xa14c14b0, 0x72ab4b91, 0x26628815, 0xfecf0bc6, 0xd57b94a9, 0xb7755da1, 0xa80f11f0);
    RoundAt(H0, w, 47, s47, Word(0x106aa070), Word(0x065c43da), s48);
  }

  lemma Rounds48(w: seq<Word>)
    requires |w| == 64
    requires Eight(w, 48, Of(0xfb3e89cb, 0xcc7617db, 0xb9e66c34, 0xa9993667, 0x84badedd, 0xc21462bc, 0x1487472c, 0xb20f7a99))
    requires Rounds(H0, w, 48) ==
      Of(0x4172328d, 0xa14c14b0, 0x72ab4b91, 0x26628815, 0xfecf0bc6, 0xd57b94a9, 0xb7755da1, 0xa80f11f0)
    ensures Rounds(H0, w, 56) ==
      Of(0x38cc9913, 0x3ec45cdb, 0xf5702fdb, 0x101fd28f, 0x54cb266b, 0xe50e1b4f, 0x9f4787c3, 0x529e7d00)
  {
    Constants48();
    var s48 := Of(0x4172328d, 0xa14c14b0, 0x72ab4b91, 0x26628815, 0xfecf0bc6, 0xd57b94a9, 0xb7755da1, 0xa80f11f0);
    var s49 := Of(0x05757ceb, 0x4172328d, 0xa14c14b0, 0x72ab4b91, 0xbd714038, 0xfecf0bc6, 0xd57b94a9, 0xb7755da1);
    RoundAt(H0, w, 48, s48, Word(0x19a4c116), Word(0xfb3e89cb), s49);
    var s50 := Of(0xf11bfaa8, 0x05757ceb, 0x4172328d, 0xa14c14b0, 0x6e5c390c, 0xbd714038, 0xfecf0bc6, 0xd57b94a9);
    RoundAt(H0, w, 49, s49, Word(0x1e376c08), Word(0xcc7617db), s50);
    var s51 := Of(0x7a0508a1, 0xf11bfaa8, 0x05757ceb, 0x4172328d, 0x52f1ccf7, 0x6e5c390c, 0xbd714038, 0xfecf0bc6);
    RoundAt(H0, w, 50, s50, Word(0x2748774c), Word(0xb9e66c34), s51);
    var s52 := Of(0x886e7a22, 0x7a0508a1, 0xf11bfaa8, 0x05757ceb, 0x49231c1e, 0x52f1ccf7, 0x6e5c390c, 0xbd714038);
    RoundAt(H0, w, 51, s51, Word(0x34b0bcb5), Word(0xa9993667), s52);
    var s53 := Of(0x101fd28f, 0x886e7a22, 0x7a0508a1, 0xf11bfaa8, 0x529e7d00, 0x49231c1e, 0x52f1ccf7, 0x6e5c390c);
    RoundAt(H0, w, 52, s52, Word(0x391c0cb3), Word(0x84badedd), s53);
    var s54 := Of(0xf5702fdb, 0x101fd28f, 0x886e7a22, 0x7a0508a1, 0x9f4787c3, 0x529e7d00, 0x49231c1e, 0x52f1ccf7);
    RoundAt(H0, w, 53, s53, Word(0x4ed8aa4a), Word(0xc21462bc), s54);
    var s55 := Of(0x3ec45cdb, 0xf5702fdb, 0x101fd28f, 0x886e7a22, 0xe50e1b4f, 0x9f4787c3, 0x529e7d00, 0x49231c1e);
    RoundAt(H0, w, 54, s54, Word(0x5b9cca4f), Word(0x1487472c), s55);
    var s56 := Of(0x38cc9913, 0x3ec45cdb, 0xf5702fdb, 0x101fd28f, 0x54cb266b, 0xe50e1b4f, 0x9f4787c3, 0x529e7d00);
    RoundAt(H0, w, 55, s55, Word(0x682e6ff3), Word(0xb20f7a99), s56);
  }

  lemma Rounds56(w: seq<Word>)
    requires |w| == 64
    requires Eight(w, 56, Of(0xef57b9cd, 0xebe6b238, 0x9fe3095e, 0x78bc8d4b, 0xa43fcf15, 0x668b2ff8, 0xeeaba2cc, 0x12b1edeb))
    requires Rounds(H0, w, 56) ==
      Of(0x38cc9913, 0x3ec45cdb, 0xf5702fdb, 0x101fd28f, 0x54cb266b, 0xe50e1b4f, 0x9f4787c3, 0x529e7d00)
    ensures Rounds(H0, w, 64) ==
      Of(0x506e3058, 0xd39a2165, 0x04d24d6c, 0xb85e2ce9, 0x5ef50f24, 0xfb121210, 0x948d25b6, 0x961f4894)
  {
    Constants56();
    var s56 := Of(0x38cc9913, 0x3ec45cdb, 0xf5702fdb, 0x101fd28f, 0x54cb266b, 0xe50e1b4f, 0x9f4787c3, 0x529e7d00);
    var s57 := Of(0xfcd1887b, 0x38cc9913, 0x3ec45cdb, 0xf5702fdb, 0x9b5e906c, 0x54cb266b, 0xe50e1b4f, 0x9f4787c3);
    RoundAt(H0, w, 56, s56, Word(0x748f82ee), Word(0xef57b9cd), s57);
    var s58 := Of(0xc062d46f, 0xfcd1887b, 0x38cc9913, 0x3ec45cdb, 0x7e44008e, 0x9b5e906c, 0x54cb266b, 0xe50e1b4f);
    RoundAt(H0, w, 57, s57, Word(0x78a5636f), Word(0xebe6b238), s58);
    var s59 := Of(0xffb70472, 0xc062d46f, 0xfcd1887b, 0x38cc9913, 0x6d83bfc6, 0x7e44008e, 0x9b5e906c, 0x54cb266b);
    RoundAt(H0, w, 58, s58, Word(0x84c87814), Word(0x9fe3095e), s59);
    var s60 := Of(0xb6ae8fff, 0xffb70472, 0xc062d46f, 0xfcd1887b, 0xb21bad3d, 0x6d83bfc6, 0x7e44008e, 0x9b5e906c);
    RoundAt(H0, w, 59, s59, Word(0x8cc70208), Word(0x78bc8d4b), s60);
    var s61 := Of(0xb85e2ce9, 0xb6ae8fff, 0xffb70472, 0xc062d46f, 0x961f4894, 0xb21bad3d, 0x6d83bfc6, 0x7e44008e);
    RoundAt(H0, w, 60, s60, Word(0x90befffa), Word(0xa43fcf15), s61);
    var s62 := Of(0x04d24d6c, 0xb85e2ce9, 0xb6ae8fff, 0xffb70472, 0x948d25b6, 0x961f4894, 0xb21bad3d, 0x6d83bfc6);
    RoundAt(H0, w, 61, s61, Word(0xa4506ceb), Word(0x668b2ff8), s62);
    var s63 := Of(0xd39a2165, 0x04d24d6c, 0xb85e2ce9, 0xb6ae8fff, 0xfb121210, 0x948d25b6, 0x961f4894, 0xb21bad3d);
    RoundAt(H0, w, 62, s62, Word(0xbef9a3f7), Word(0xeeaba2cc), s63);
    var s64 := Of(0x506e3058, 0xd39a2165, 0x04d24d6c, 0xb85e2ce9, 0x5ef50f24, 0xfb121210, 0x948d25b6, 0x961f4894);
    RoundAt(H0, w, 63, s63, Word(0xc67178f2), Word(0x12b1edeb), s64);
  }


  // ---- The digest --------------------------------------------------------------------

  lemma AbcWords0(b: Block)
    requires b == Pad(ABC)
    ensures Eight(ScheduleOf(b, 64), 0,
      Of(0x61626380, 0x00000000, 0x00000000, 0x00000000, 0x00000000, 0x00000000, 0x00000000, 0x00000000))
  {
    AbcPadded();
    WordIs(b, 0);
    WordIs(b, 1);
    WordIs(b, 2);
    WordIs(b, 3);
    WordIs(b, 4);
    WordIs(b, 5);
    WordIs(b, 6);
    WordIs(b, 7);
  }

  lemma AbcWords8(b: Block)
    requires b == Pad(ABC)
    ensures Eight(ScheduleOf(b, 64), 8,
      Of(0x00000000, 0x00000000, 0x00000000, 0x00000000, 0x00000000, 0x00000000, 0x00000000, 0x00000018))
  {
    AbcPadded();
    WordIs(b, 8);
    WordIs(b, 9);
    WordIs(b, 10);
    WordIs(b, 11);
    WordIs(b, 12);
    WordIs(b, 13);
    WordIs(b, 14);
    WordIs(b, 15);
  }

  lemma AbcWords16(b: Block)
    requires b == Pad(ABC)
    ensures Eight(ScheduleOf(b, 64), 16,
      Of(0x61626380, 0x000f0000, 0x7da86405, 0x600003c6, 0x3e9d7b78, 0x0183fc00, 0x12dcbfdb, 0xe2e2c38e))
    ensures Eight(ScheduleOf(b, 64), 24,
      Of(0xc8215c1a, 0xb73679a2, 0xe5bc3909, 0x32663c5b, 0x9d209d67, 0xec8726cb, 0x702138a4, 0xd3b7973b))
  {
    AbcWords0(b);
    AbcWords8(b);
    EightFollow(b, 16,
      Of(0x61626380, 0x00000000, 0x00000000, 0x00000000, 0x00000000, 0x00000000, 0x00000000, 0x00000000),
      Of(0x00000000, 0x00000000, 0x00000000, 0x00000000, 0x00000000, 0x00000000, 0x00000000, 0x00000018),
      Of(0x61626380, 0x000f0000, 0x7da86405, 0x600003c6, 0x3e9d7b78, 0x0183fc00, 0x12dcbfdb, 0xe2e2c38e));
    EightFollow(b, 24,
      Of(0x00000000, 0x00000000, 0x00000000, 0x00000000, 0x00000000, 0x00000000, 0x00000000, 0x00000018),
      Of(0x61626380, 0x000f0000, 0x7da86405, 0x600003c6, 0x3e9d7b78, 0x0183fc00, 0x12dcbfdb, 0xe2e2c38e),
      Of(0xc8215c1a, 0xb73679a2, 0xe5bc3909, 0x32663c5b, 0x9d209d67, 0xec8726cb, 0x702138a4, 0xd3b7973b));
  }

  lemma AbcWords32(b: Block)
    requires b == Pad(ABC)
    ensures Eight(ScheduleOf(b, 64), 32,
      Of(0x93f5997f, 0x3b68ba73, 0xaff4ffc1, 0xf10a5c62, 0x0a8b3996, 0x72af830a, 0x9409e33e, 0x24641522))
    ensures Eight(ScheduleOf(b, 64), 40,
      Of(0x9f47bf94, 0xf0a64f5a, 0x3e246a79, 0x27333ba3, 0x0c4763f2, 0x840abf27, 0x7a290d5d, 0x065c43da))
  {
    AbcWords16(b);
    EightFollow(b, 32,
      Of(0x61626380, 0x000f0000, 0x7da86405, 0x600003c6, 0x3e9d7b78, 0x0183fc00, 0x12dcbfdb, 0xe2e2c38e),
      Of(0xc8215c1a, 0xb73679a2, 0xe5bc3909, 0x32663c5b, 0x9d209d67, 0xec8726cb, 0x702138a4, 0xd3b7973b),
      Of(0x93f5997f, 0x3b68ba73, 0xaff4ffc1, 0xf10a5c62, 0x0a8b3996, 0x72af830a, 0x9409e33e, 0x24641522));
    EightFollow(b, 40,
      Of(0xc8215c1a, 0xb73679a2, 0xe5bc3909, 0x32663c5b, 0x9d209d67, 0xec8726cb, 0x702138a4, 0xd3b7973b),
      Of(0x93f5997f, 0x3b68ba73, 0xaff4ffc1, 0xf10a5c62, 0x0a8b3996, 0x72af830a, 0x9409e33e, 0x24641522),
      Of(0x9f47bf94, 0xf0a64f5a, 0x3e246a79, 0x27333ba3, 0x0c4763f2, 0x840abf27, 0x7a290d5d, 0x065c43da));
  }

  lemma AbcWords48(b: Block)
    requires b == Pad(ABC)
    ensures Eight(ScheduleOf(b, 64), 48,
      Of(0xfb3e89cb, 0xcc7617db, 0xb9e66c34, 0xa9993667, 0x84badedd, 0xc21462bc, 0x1487472c, 0xb20f7a99))
    ensures Eight(ScheduleOf(b, 64), 56,
      Of(0xef57b9cd, 0xebe6b238, 0x9fe3095e, 0x78bc8d4b, 0xa43fcf15, 0x668b2ff8, 0xeeaba2cc, 0x12b1edeb))
  {
    AbcWords32(b);
    EightFollow(b, 48,
      Of(0x93f5997f, 0x3b68ba73, 0xaff4ffc1, 0xf10a5c62, 0x0a8b3996, 0x72af830a, 0x9409e33e, 0x24641522),
      Of(0x9f47bf94, 0xf0a64f5a, 0x3e246a79, 0x27333ba3, 0x0c4763f2, 0x840abf27, 0x7a290d5d, 0x065c43da),
      Of(0xfb3e89cb, 0xcc7617db, 0xb9e66c34, 0xa9993667, 0x84badedd, 0xc21462bc, 0x1487472c, 0xb20f7a99));
    EightFollow(b, 56,
      Of(0x9f47bf94, 0xf0a64f5a, 0x3e246a79, 0x27333ba3, 0x0c4763f2, 0x840abf27, 0x7a290d5d, 0x065c43da),
      Of(0xfb3e89cb, 0xcc7617db, 0xb9e66c34, 0xa9993667, 0x84badedd, 0xc21462bc, 0x1487472c, 0xb20f7a99),
      Of(0xef57b9cd, 0xebe6b238, 0x9fe3095e, 0x78bc8d4b, 0xa43fcf15, 0x668b2ff8, 0xeeaba2cc, 0x12b1edeb));
  }

  /** The whole schedule: each eight words from the sixteen before them. */
  lemma AbcSchedule(b: Block)
    requires b == Pad(ABC)
    ensures var w := ScheduleOf(b, 64);
      && Eight(w, 0, Of(0x61626380, 0x00000000, 0x00000000, 0x00000000, 0x00000000, 0x00000000, 0x00000000, 0x00000000))
      && Eight(w, 8, Of(0x00000000, 0x00000000, 0x00000000, 0x00000000, 0x00000000, 0x00000000, 0x00000000, 0x00000018))
      && Eight(w, 16, Of(0x61626380, 0x000f0000, 0x7da86405, 0x600003c6, 0x3e9d7b78, 0x0183fc00, 0x12dcbfdb, 0xe2e2c38e))
      && Eight(w, 24, Of(0xc8215c1a, 0xb73679a2, 0xe5bc3909, 0x32663c5b, 0x9d209d67, 0xec8726cb, 0x702138a4, 0xd3b7973b))
      && Eight(w, 32, Of(0x93f5997f, 0x3b68ba73, 0xaff4ffc1, 0xf10a5c62, 0x0a8b3996, 0x72af830a, 0x9409e33e, 0x24641522))
      && Eight(w, 40, Of(0x9f47bf94, 0xf0a64f5a, 0x3e246a79, 0x27333ba3, 0x0c4763f2, 0x840abf27, 0x7a290d5d, 0x065c43da))
      && Eight(w, 48, Of(0xfb3e89cb, 0xcc7617db, 0xb9e66c34, 0xa9993667, 0x84badedd, 0xc21462bc, 0x1487472c, 0xb20f7a99))
      && Eight(w, 56, Of(0xef57b9cd, 0xebe6b238, 0x9fe3095e, 0x78bc8d4b, 0xa43fcf15, 0x668b2ff8, 0xeeaba2cc, 0x12b1edeb))
  {
    AbcWords0(b);
    AbcWords8(b);
    AbcWords16(b);
    AbcWords32(b);
    AbcWords48(b);
  }

  lemma AbcCompressed(b: Block)
    requires b == Pad(ABC)
    ensures Compress(H0, b) ==
      Of(0xba7816bf, 0x8f01cfea, 0x414140de, 0x5dae2223, 0xb00361a3, 0x96177a9c, 0xb410ff61, 0xf20015ad)
  {
    AbcSchedule(b);
    var w := ScheduleOf(b, 64);
    Rounds0(w);
    Rounds8(w);
    Rounds16(w);
    Rounds24(w);
    Rounds32(w);
    Rounds40(w);
    Rounds48(w);
    Rounds56(w);
    CompressIs(H0, b);
  }

  lemma AbcHashed()
    ensures HashBlocks(Pad(ABC)) ==
      Of(0xba7816bf, 0x8f01cfea, 0x414140de, 0x5dae2223, 0xb00361a3, 0x96177a9c, 0xb410ff61, 0xf20015ad)
  {
    AbcPadded();
    var b: Block := Pad(ABC);
    AbcCompressed(b);
    assert b[..|b| - 64] == [] && b[|b| - 64..] == b;
    assert HashBlocks([]) == H0;
  }

  lemma Halves(v: Words)
    ensures DigestOf(v)[..16] == WordBytes(v.a) + WordBytes(v.b) + WordBytes(v.c) + WordBytes(v.d)
    ensures DigestOf(v)[16..] == WordBytes(v.e) + WordBytes(v.f) + WordBytes(v.g) + WordBytes(v.h)
  {
  }

  lemma FourBytes(x: Word, b0: byte, b1: byte, b2: byte, b3: byte)
    requires x == BigEndian(b0, b1, b2, b3)
    ensures WordBytes(x) == [b0, b1, b2, b3]
  {
  }

  /** The published digest of "abc". */
  lemma AbcDigest()
    ensures Digest(ABC)[..16] == [
      0xba, 0x78, 0x16, 0xbf, 0x8f, 0x01, 0xcf, 0xea, 0x41, 0x41, 0x40, 0xde, 0x5d, 0xae, 0x22, 0x23]
    ensures Digest(ABC)[16..] == [
      0xb0, 0x03, 0x61, 0xa3, 0x96, 0x17, 0x7a, 0x9c, 0xb4, 0x10, 0xff, 0x61, 0xf2, 0x00, 0x15, 0xad]
  {
    AbcHashed();
    DigestIs(ABC);
    Halves(HashBlocks(Pad(ABC)));
    FourBytes(Word(0xba7816bf), 0xba, 0x78, 0x16, 0xbf);
    FourBytes(Word(0x8f01cfea), 0x8f, 0x01, 0xcf, 0xea);
    FourBytes(Word(0x414140de), 0x41, 0x41, 0x40, 0xde);
    FourBytes(Word(0x5dae2223), 0x5d, 0xae, 0x22, 0x23);
    FourBytes(Word(0xb00361a3), 0xb0, 0x03, 0x61, 0xa3);
    FourBytes(Word(0x96177a9c), 0x96, 0x17, 0x7a, 0x9c);
    FourBytes(Word(0xb410ff61), 0xb4, 0x10, 0xff, 0x61);
    FourBytes(Word(0xf20015ad), 0xf2, 0x00, 0x15, 0xad);
  }

  lemma AbcSpelled()
    ensures Spells(ABC, "abc")
  {
  }
}
