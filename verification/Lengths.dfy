/** Numbers as little-endian bytes, bit by bit. */
module Lengths {
  import opened Bytes

  function Bit(n: nat): byte { if n % 2 == 1 then 1 else 0 }

  function Flag(b: byte): nat { if b == 0 then 0 else 1 }

  function Pack(a: byte, b: byte, c: byte, d: byte, e: byte, f: byte, g: byte, h: byte): byte {
    a | (b << 1) | (c << 2) | (d << 3) | (e << 4) | (f << 5) | (g << 6) | (h << 7)
  }

  function Weigh(a: nat, b: nat, c: nat, d: nat, e: nat, f: nat, g: nat, h: nat): nat {
    a + 2 * b + 4 * c + 8 * d + 16 * e + 32 * f + 64 * g + 128 * h
  }

  /** `n` shifted right by `k` bits. */
  function Shifted(n: nat, k: nat): nat { if k == 0 then n else Shifted(n / 2, k - 1) }

  /** The low byte of a number. */
  function ByteOf(n: nat): byte {
    Pack(Bit(n), Bit(Shifted(n, 1)), Bit(Shifted(n, 2)), Bit(Shifted(n, 3)),
         Bit(Shifted(n, 4)), Bit(Shifted(n, 5)), Bit(Shifted(n, 6)), Bit(Shifted(n, 7)))
  }

  function Value(b: byte, countdown: nat := 4): nat {
    if countdown > 0 then Value(b, countdown - 1) else Weighed(b)
  }

  function Weighed(b: byte): nat {
    Weigh(Flag(b & 1), Flag(b & 2), Flag(b & 4), Flag(b & 8), Flag(b & 16), Flag(b & 32), Flag(b & 64), Flag(b & 128))
  }

  /** Four bytes of a number. The countdowns keep the verifier from expanding them. */
  function LenBytes(n: nat, countdown: nat := 4): (b: seq<byte>)
    ensures |b| == 4
  {
    if countdown > 0 then LenBytes(n, countdown - 1)
    else [ByteOf(n), ByteOf(Next(n)), ByteOf(Next(Next(n))), ByteOf(Next(Next(Next(n))))]
  }

  function Next(n: nat): nat { Shifted(n, 8) }

  function LenOf(b: seq<byte>, countdown: nat := 4): nat
    requires |b| == 4
  {
    if countdown > 0 then LenOf(b, countdown - 1)
    else Value(b[0]) + 256 * (Value(b[1]) + 256 * (Value(b[2]) + 256 * Value(b[3])))
  }

  lemma Packed(a: byte, b: byte, c: byte, d: byte, e: byte, f: byte, g: byte, h: byte, x: byte)
    requires a <= 1 && b <= 1 && c <= 1 && d <= 1 && e <= 1 && f <= 1 && g <= 1 && h <= 1
    requires x == Pack(a, b, c, d, e, f, g, h)
    ensures (x & 1 == 0 <==> a == 0) && (x & 2 == 0 <==> b == 0) && (x & 4 == 0 <==> c == 0) && (x & 8 == 0 <==> d == 0)
    ensures (x & 16 == 0 <==> e == 0) && (x & 32 == 0 <==> f == 0) && (x & 64 == 0 <==> g == 0) && (x & 128 == 0 <==> h == 0)
  {
  }

  lemma ValuePacked(a: byte, b: byte, c: byte, d: byte, e: byte, f: byte, g: byte, h: byte)
    requires a <= 1 && b <= 1 && c <= 1 && d <= 1 && e <= 1 && f <= 1 && g <= 1 && h <= 1
    ensures Weighed(Pack(a, b, c, d, e, f, g, h))
         == Weigh(Flag(a), Flag(b), Flag(c), Flag(d), Flag(e), Flag(f), Flag(g), Flag(h))
  {
  }

  lemma {:induction false} ShiftedNext(n: nat, k: nat)
    ensures Bit(Shifted(n, k)) <= 1 && Flag(Bit(Shifted(n, k))) + 2 * Shifted(n, k + 1) == Shifted(n, k)
  {
    if k > 0 {
      ShiftedNext(n / 2, k - 1);
    }
  }

  lemma ByteValue(n: nat)
    ensures Value(ByteOf(n)) + 256 * Next(n) == n
  {
    var x := ByteOf(n);
    assert Value(x, 2) == Value(x, 1) == Value(x, 0);
    assert Value(x, 4) == Value(x, 3) == Value(x, 2);
    ShiftedNext(n, 0);
    ShiftedNext(n, 1);
    ShiftedNext(n, 2);
    ShiftedNext(n, 3);
    ShiftedNext(n, 4);
    ShiftedNext(n, 5);
    ShiftedNext(n, 6);
    ShiftedNext(n, 7);
    ValuePacked(Bit(n), Bit(Shifted(n, 1)), Bit(Shifted(n, 2)), Bit(Shifted(n, 3)),
                Bit(Shifted(n, 4)), Bit(Shifted(n, 5)), Bit(Shifted(n, 6)), Bit(Shifted(n, 7)));
  }

  lemma NibbleIs(b: byte)
    requires b < 16
    ensures b as nat == Flag(b & 1) + 2 * Flag(b & 2) + 4 * Flag(b & 4) + 8 * Flag(b & 8)
  {
  }

  lemma NibbleSplit(b: byte, hi: byte, lo: byte)
    requires hi == b >> 4 && lo == b & 15
    ensures b as nat == 16 * (hi as nat) + lo as nat && hi < 16 && lo < 16
  {
  }

  lemma LowFlags(b: byte, lo: byte)
    requires lo == b & 15
    ensures Flag(lo & 1) == Flag(b & 1) && Flag(lo & 2) == Flag(b & 2)
    ensures Flag(lo & 4) == Flag(b & 4) && Flag(lo & 8) == Flag(b & 8)
  {
  }

  lemma HighFlags(b: byte, hi: byte)
    requires hi == b >> 4
    ensures Flag(hi & 1) == Flag(b & 16) && Flag(hi & 2) == Flag(b & 32)
    ensures Flag(hi & 4) == Flag(b & 64) && Flag(hi & 8) == Flag(b & 128)
  {
  }

  lemma Nibbles(b: byte, hi: byte, lo: byte)
    requires b as nat == 16 * (hi as nat) + lo as nat
    requires lo as nat == Flag(b & 1) + 2 * Flag(b & 2) + 4 * Flag(b & 4) + 8 * Flag(b & 8)
    requires hi as nat == Flag(b & 16) + 2 * Flag(b & 32) + 4 * Flag(b & 64) + 8 * Flag(b & 128)
    ensures b as nat == Weighed(b)
  {
  }

  lemma WeighedIs(b: byte)
    ensures Weighed(b) == b as nat
  {
    var (hi, lo) := (b >> 4, b & 15);
    NibbleSplit(b, hi, lo);
    NibbleIs(lo);
    NibbleIs(hi);
    LowFlags(b, lo);
    HighFlags(b, hi);
    Nibbles(b, hi, lo);
  }

  lemma ValueIs(b: byte)
    ensures Value(b) == b as nat
  {
    assert Value(b, 2) == Value(b, 1) == Value(b, 0);
    assert Value(b, 4) == Value(b, 3) == Value(b, 2);
    WeighedIs(b);
  }

  /** The number that four bytes stand for, the low one first. */
  lemma LenOfIs(b: seq<byte>)
    requires |b| == 4
    ensures LenOf(b) == b[0] as nat + 0x100 * (b[1] as nat) + 0x1_0000 * (b[2] as nat) + 0x100_0000 * (b[3] as nat)
  {
    assert LenOf(b, 2) == LenOf(b, 1) == LenOf(b, 0);
    assert LenOf(b, 4) == LenOf(b, 3) == LenOf(b, 2);
    ValueIs(b[0]);
    ValueIs(b[1]);
    ValueIs(b[2]);
    ValueIs(b[3]);
  }

  lemma WordOfIs(b: seq<byte>)
    requires |b| == 2
    ensures WordOf(b) == b[0] as nat + 256 * (b[1] as nat)
  {
    ValueIs(b[0]);
    ValueIs(b[1]);
  }

  lemma LenBytesAre(n: nat)
    ensures LenBytes(n) == [ByteOf(n), ByteOf(Next(n)), ByteOf(Next(Next(n))), ByteOf(Next(Next(Next(n))))]
  {
    assert LenBytes(n, 2) == LenBytes(n, 1) == LenBytes(n, 0);
    assert LenBytes(n, 4) == LenBytes(n, 3) == LenBytes(n, 2);
  }

  lemma Digits(v0: nat, v1: nat, v2: nat, v3: nat, n: nat, n1: nat, n2: nat, n3: nat, n4: nat)
    requires n < 0x1_0000_0000 && v0 + 256 * n1 == n && v1 + 256 * n2 == n1 && v2 + 256 * n3 == n2 && v3 + 256 * n4 == n3
    ensures v0 + 256 * (v1 + 256 * (v2 + 256 * v3)) == n
  {
  }

  lemma Assembled(b: seq<byte>, n: nat, n1: nat, n2: nat, n3: nat, n4: nat)
    requires |b| == 4 && n < 0x1_0000_0000
    requires Value(b[0]) + 256 * n1 == n && Value(b[1]) + 256 * n2 == n1
    requires Value(b[2]) + 256 * n3 == n2 && Value(b[3]) + 256 * n4 == n3
    ensures LenOf(b) == n
  {
    Digits(Value(b[0]), Value(b[1]), Value(b[2]), Value(b[3]), n, n1, n2, n3, n4);
    assert LenOf(b, 2) == LenOf(b, 1) == LenOf(b, 0);
    assert LenOf(b, 4) == LenOf(b, 3) == LenOf(b, 2);
  }

  /** Two bytes of a number. */
  function WordBytes(n: nat): (b: seq<byte>)
    ensures |b| == 2
  {
    [ByteOf(n), ByteOf(Next(n))]
  }

  function WordOf(b: seq<byte>): nat
    requires |b| == 2
  {
    Value(b[0]) + 256 * Value(b[1])
  }

  lemma TwoDigits(v0: nat, v1: nat, n: nat, n1: nat, n2: nat)
    requires n < 65536 && v0 + 256 * n1 == n && v1 + 256 * n2 == n1
    ensures v0 + 256 * v1 == n
  {
  }

  /** A 16-bit count stored and read again. */
  lemma WordRoundTrip(n: nat)
    requires n < 65536
    ensures WordOf(WordBytes(n)) == n
  {
    ByteValue(n);
    ByteValue(Next(n));
    TwoDigits(Value(ByteOf(n)), Value(ByteOf(Next(n))), n, Next(n), Next(Next(n)));
  }

  /** A 32-bit length stored and read again. */
  lemma LenRoundTrip(n: nat)
    requires n < 0x1_0000_0000
    ensures LenOf(LenBytes(n)) == n
  {
    var (n1, n2, n3) := (Next(n), Next(Next(n)), Next(Next(Next(n))));
    LenBytesAre(n);
    ByteValue(n);
    ByteValue(n1);
    ByteValue(n2);
    ByteValue(n3);
    Assembled(LenBytes(n), n, n1, n2, n3, Next(n3));
  }

  lemma ValueBound(b: byte)
    ensures Value(b) < 256
  {
    assert Value(b, 2) == Value(b, 1) == Value(b, 0);
    assert Value(b, 4) == Value(b, 3) == Value(b, 2);
  }

  /** Four bytes are a 32-bit number. */
  lemma LenBound(b: seq<byte>)
    requires |b| == 4
    ensures LenOf(b) < 0x1_0000_0000
  {
    ValueBound(b[0]);
    ValueBound(b[1]);
    ValueBound(b[2]);
    ValueBound(b[3]);
    assert LenOf(b, 2) == LenOf(b, 1) == LenOf(b, 0);
    assert LenOf(b, 4) == LenOf(b, 3) == LenOf(b, 2);
  }
}
