/** The CRC-32 that guards every flash record (picow-ota/src/crc32.c). */
module Crc32 {
  import opened Bytes
  import opened ShiftRegister

  const POLY: bv32 := 0xEDB88320
  const INIT: bv32 := 0xFFFFFFFF

  // ---- Definition -------------------------------------------------------------

  /** One step of the reflected shift register. */
  function Bit(c: bv32): bv32 {
    if c & 1 == 1 then (c >> 1) ^ POLY else c >> 1
  }

  function Bits(c: bv32, n: nat): bv32 {
    Iter(Bit, c, n)
  }

  function Widen(b: byte): bv32 {
    b as bv32
  }

  function Absorb(c: bv32, b: byte): bv32 {
    Bits(c ^ Widen(b), 8)
  }

  /** The register after the whole message `m`, started from `c`. */
  function Run(c: bv32, m: seq<byte>): bv32 {
    Fold(Absorb, c, m)
  }

  /** The checksum. The countdown keeps the verifier from expanding it wherever a checksum is mentioned. */
  function Crc(m: seq<byte>, countdown: nat := 4): bv32 {
    if countdown > 0 then Crc(m, countdown - 1) else !Run(INIT, m)
  }

  lemma CrcIs(m: seq<byte>)
    ensures Crc(m) == !Run(INIT, m)
  {
    assert Crc(m, 2) == Crc(m, 1) == Crc(m, 0);
    assert Crc(m, 4) == Crc(m, 3) == Crc(m, 2);
  }

  /** `pico_ota_crc32`: a byte loop around a branch-free bit loop. */
  method PicoOtaCrc32(data: seq<byte>) returns (r: bv32)
    ensures r == Crc(data)
  {
    var crc: bv32 := 0xFFFFFFFF;
    var p := 0;
    while p < |data|
      invariant 0 <= p <= |data|
      invariant crc == Run(INIT, data[..p])
    {
      ghost var before := crc;
      crc := crc ^ Widen(data[p]);
      ghost var mixed := crc;
      for i := 0 to 8
        invariant crc == Bits(mixed, i)
      {
        var mask: bv32 := 0 - (crc & 1);
        ghost var prev := crc;
        crc := (crc >> 1) ^ (0xEDB88320 & mask);
        MaskSelects(prev, mask, crc);
      }
      RunNext(data, p, before, mixed, crc);
      p := p + 1;
    }
    assert data[..p] == data;
    r := !crc;
    CrcIs(data);
  }

  lemma MaskSelects(c: bv32, mask: bv32, next: bv32)
    requires mask == 0 - (c & 1)
    requires next == (c >> 1) ^ (0xEDB88320 & mask)
    ensures next == Bit(c)
  {
    if c & 1 == 1 {
      assert mask == 0xFFFFFFFF;
    } else {
      assert mask == 0;
    }
  }

  lemma RunNext(data: seq<byte>, p: nat, before: bv32, mixed: bv32, after: bv32)
    requires p < |data| && before == Run(INIT, data[..p])
    requires mixed == before ^ Widen(data[p]) && after == Bits(mixed, 8)
    ensures after == Run(INIT, data[..p + 1])
  {
    assert data[..p + 1][..p] == data[..p];
  }

  // ---- Words as bit vectors -----------------------------------------------------

  /** The bits of a word, least significant first, read off its four bytes. */
  function Bools(x: bv32): Reg {
    BoolsOf(Le32(x))
  }

  function BoolsOf(w: seq<byte>): Reg
    requires |w| == 4
  {
    seq(32, i requires 0 <= i < 32 => ByteBit(w[i / 8], i % 8))
  }

  lemma BoolsOfInjective(v: seq<byte>, w: seq<byte>)
    requires |v| == |w| == 4 && BoolsOf(v) == BoolsOf(w)
    ensures v == w
  {
    forall k | 0 <= k < 4 ensures v[k] == w[k] {
      forall j | 0 <= j < 8 ensures ByteBit(v[k], j) == ByteBit(w[k], j) {
        assert BoolsOf(v)[8 * k + j] == BoolsOf(w)[8 * k + j];
      }
      ByteFromBits(v[k], w[k]);
    }
  }

  lemma BoolsInjective(x: bv32, y: bv32)
    requires Bools(x) == Bools(y)
    ensures x == y
  {
    BoolsOfInjective(Le32(x), Le32(y));
    Le32RoundTrip(x);
    Le32RoundTrip(y);
  }

  // Addition.

  lemma XorByte(a: byte, b: byte, c: byte, i: nat)
    requires c == a ^ b && i < 8
    ensures ByteBit(c, i) == (ByteBit(a, i) != ByteBit(b, i))
  {
    if i == 0 {
    } else if i == 1 {
    } else if i == 2 {
    } else if i == 3 {
    } else if i == 4 {
    } else if i == 5 {
    } else if i == 6 {
    }
  }

  predicate BytesXor(u: seq<byte>, v: seq<byte>, w: seq<byte>)
    requires |u| == |v| == |w| == 4
  {
    w[0] == u[0] ^ v[0] && w[1] == u[1] ^ v[1] && w[2] == u[2] ^ v[2] && w[3] == u[3] ^ v[3]
  }

  lemma XorLanes(x: bv32, y: bv32)
    ensures Le32(x ^ y)[0] == Le32(x)[0] ^ Le32(y)[0]
    ensures Le32(x ^ y)[1] == Le32(x)[1] ^ Le32(y)[1]
    ensures Le32(x ^ y)[2] == Le32(x)[2] ^ Le32(y)[2]
    ensures Le32(x ^ y)[3] == Le32(x)[3] ^ Le32(y)[3]
  {
  }

  lemma BytesAdd(u: seq<byte>, v: seq<byte>, w: seq<byte>, i: nat)
    requires |u| == |v| == |w| == 4 && i < 32
    requires BytesXor(u, v, w)
    ensures BoolsOf(w)[i] == (BoolsOf(u)[i] != BoolsOf(v)[i])
  {
    var k := i / 8;
    LaneAdds(u, v, w, k);
    XorByte(u[k], v[k], w[k], i % 8);
  }

  lemma LaneAdds(u: seq<byte>, v: seq<byte>, w: seq<byte>, k: nat)
    requires |u| == |v| == |w| == 4 && k < 4
    requires BytesXor(u, v, w)
    ensures w[k] == u[k] ^ v[k]
  {
    if k == 0 {
    } else if k == 1 {
    } else if k == 2 {
    } else {
    }
  }

  lemma WordAdds(x: bv32, y: bv32, z: bv32, i: nat)
    requires z == x ^ y && i < 32
    ensures Bools(z)[i] == (Bools(x)[i] != Bools(y)[i])
  {
    XorLanes(x, y);
    BytesAdd(Le32(x), Le32(y), Le32(z), i);
  }

  lemma XorAdds(x: bv32, y: bv32, z: bv32)
    requires z == x ^ y
    ensures Bools(z) == Add(Bools(x), Bools(y))
  {
    forall i | 0 <= i < 32 ensures Bools(z)[i] == (Bools(x)[i] != Bools(y)[i]) {
      WordAdds(x, y, z, i);
    }
    Same(Bools(z), Add(Bools(x), Bools(y)));
  }

  // Shifting.

  lemma ShiftByte(lo: byte, hi: byte, out: byte, i: nat)
    requires out == (lo >> 1) | (hi << 7) && i < 8
    ensures ByteBit(out, i) == if i < 7 then ByteBit(lo, i + 1) else ByteBit(hi, 0)
  {
  }

  lemma ShiftLanes(x: bv32, y: bv32)
    requires y == x >> 1
    ensures Le32(y)[0] == (Le32(x)[0] >> 1) | (Le32(x)[1] << 7)
    ensures Le32(y)[1] == (Le32(x)[1] >> 1) | (Le32(x)[2] << 7)
    ensures Le32(y)[2] == (Le32(x)[2] >> 1) | (Le32(x)[3] << 7)
    ensures Le32(y)[3] == (Le32(x)[3] >> 1) | (0 << 7)
  {
  }

  lemma BytesShift(u: seq<byte>, v: seq<byte>, i: nat)
    requires |u| == |v| == 4 && i < 32
    requires v[0] == (u[0] >> 1) | (u[1] << 7) && v[1] == (u[1] >> 1) | (u[2] << 7)
    requires v[2] == (u[2] >> 1) | (u[3] << 7) && v[3] == (u[3] >> 1) | (0 << 7)
    ensures BoolsOf(v)[i] == (i < 31 && BoolsOf(u)[i + 1])
  {
    var k := i / 8;
    LaneShifts(u, v, k);
    ShiftByte(u[k], (u + [0])[k + 1], v[k], i % 8);
    NoZeroBit();
    NextBit(ByteBit, u, v[k], i);
  }

  lemma NoZeroBit()
    ensures !ByteBit(0, 0)
  {
  }

  lemma NextBit(bit: (byte, int) -> bool, u: seq<byte>, out: byte, i: nat)
    requires |u| == 4 && i < 32 && !bit(0, 0)
    requires bit(out, i % 8) == if i % 8 < 7 then bit(u[i / 8], i % 8 + 1) else bit((u + [0])[i / 8 + 1], 0)
    ensures bit(out, i % 8) == (i < 31 && bit(u[(i + 1) / 8], (i + 1) % 8))
  {
  }

  lemma LaneShifts(u: seq<byte>, v: seq<byte>, k: nat)
    requires |u| == |v| == 4 && k < 4
    requires v[0] == (u[0] >> 1) | (u[1] << 7) && v[1] == (u[1] >> 1) | (u[2] << 7)
    requires v[2] == (u[2] >> 1) | (u[3] << 7) && v[3] == (u[3] >> 1) | (0 << 7)
    ensures v[k] == (u[k] >> 1) | ((u + [0])[k + 1] << 7)
  {
    if k == 0 {
    } else if k == 1 {
    } else if k == 2 {
    } else {
    }
  }

  lemma LowBit(x: bv32)
    ensures Bools(x)[0] == (x & 1 == 1)
  {
  }

  lemma WordShifts(x: bv32, y: bv32, i: nat)
    requires y == x >> 1 && i < 32
    ensures Bools(y)[i] == (i < 31 && Bools(x)[i + 1])
  {
    ShiftLanes(x, y);
    BytesShift(Le32(x), Le32(y), i);
  }

  lemma ShiftThenAdd(poly: Reg, u: Reg, v: Reg, r: Reg)
    requires forall i :: 0 <= i < 32 ==> v[i] == (i < 31 && u[i + 1])
    requires r == if u[0] then Add(v, poly) else v
    ensures r == Step(poly, u)
  {
  }

  lemma OddBit(x: bv32, y: bv32)
    requires y == x >> 1 && x & 1 == 1
    ensures Bools(Bit(x)) == Add(Bools(y), Bools(POLY))
  {
    XorAdds(y, POLY, Bit(x));
  }

  lemma BitSteps(x: bv32)
    ensures Bools(Bit(x)) == Step(Bools(POLY), Bools(x))
  {
    var y := x >> 1;
    LowBit(x);
    if x & 1 == 1 {
      OddBit(x, y);
    }
    forall i | 0 <= i < 32 ensures Bools(y)[i] == (i < 31 && Bools(x)[i + 1]) {
      WordShifts(x, y, i);
    }
    ShiftThenAdd(Bools(POLY), Bools(x), Bools(y), Bools(Bit(x)));
  }

  lemma BitsSteps(x: bv32, n: nat)
    ensures Bools(Bits(x, n)) == Steps(Bools(POLY), Bools(x), n)
  {
    forall a ensures Bools(Bit(a)) == Step(Bools(POLY), Bools(a)) {
      BitSteps(a);
    }
    IterSteps(Bools, Bit, Bools(POLY), x, n);
  }

  // Messages.

  lemma ByteOfWord(b: byte, x: bv32)
    requires x == b as bv32
    ensures Le32(x) == [b, 0, 0, 0]
  {
  }

  lemma ByteLane(b: byte)
    ensures BoolsOf([b, 0, 0, 0]) == Lane(b, 0)
  {
    forall i | 0 <= i < 32 ensures BoolsOf([b, 0, 0, 0])[i] == Lane(b, 0)[i] {
      if i >= 8 {
        assert [b, 0, 0, 0][i / 8] == 0 && !ByteBit(0, i % 8) && !ByteBit(b, i);
      }
    }
    Same(BoolsOf([b, 0, 0, 0]), Lane(b, 0));
  }

  lemma AbsorbFeeds(c: bv32, b: byte)
    ensures Bools(Absorb(c, b)) == FeedByte(Bools(POLY), Bools(c), b)
  {
    var w := Widen(b);
    XorAdds(c, w, c ^ w);
    ByteOfWord(b, w);
    ByteLane(b);
    BitsSteps(c ^ w, 8);
  }

  /** The machine word and the bit vector stay in step over every message. */
  lemma RunFeeds(c: bv32, m: seq<byte>)
    ensures Bools(Run(c, m)) == Feed(Bools(POLY), Bools(c), m)
  {
    forall a, b ensures Bools(Absorb(a, b)) == FeedByte(Bools(POLY), Bools(a), b) {
      AbsorbFeeds(a, b);
    }
    FoldFeeds(Bools, Absorb, Bools(POLY), c, m);
  }

  lemma PolyIsMonic()
    ensures Bools(POLY)[31]
  {
  }

  // ---- Burst detection --------------------------------------------------------

  lemma NotInjective(x: bv32, y: bv32)
    requires !x == !y
    ensures x == y
  {
  }

  /** Any change confined to four consecutive bytes changes the CRC-32. */
  lemma BurstDetected(a: seq<byte>, b: seq<byte>, k: nat)
    requires Burst(a, b, k)
    ensures Crc(a) != Crc(b)
  {
    PolyIsMonic();
    BurstChanges(Bools(POLY), Bools(INIT), a, b, k);
    RunFeeds(INIT, a);
    RunFeeds(INIT, b);
    CrcIs(a);
    CrcIs(b);
    if Crc(a) == Crc(b) {
      NotInjective(Run(INIT, a), Run(INIT, b));
    }
  }

  /** Whether the last four bytes of a record are the CRC of what precedes them. */
  predicate SelfChecks(r: seq<byte>)
    requires |r| >= 4
  {
    OfLe32(r[|r| - 4..]) == Crc(r[..|r| - 4])
  }

  lemma ComplementMixes(s: bv32, w: seq<byte>)
    requires |w| == 4 && OfLe32(w) == !s
    ensures Mix(Bools(s), w) == Bools(0xFFFFFFFF)
  {
    OfLe32RoundTrip(w);
    MixAdds(Bools(s), w);
    assert s ^ !s == 0xFFFFFFFF;
    XorAdds(s, !s, 0xFFFFFFFF);
  }

  lemma MixAdds(c: Reg, w: seq<byte>)
    requires |w| == 4
    ensures Mix(c, w) == Add(c, BoolsOf(w))
  {
    forall i | 0 <= i < 32 ensures Mix(c, w)[i] == Add(c, BoolsOf(w))[i] {
      MixBit(c, w, i / 8, i % 8);
    }
    Same(Mix(c, w), Add(c, BoolsOf(w)));
  }

  /** A record that checks drives the register to one fixed residue. */
  lemma SelfCheckResidue(r: seq<byte>)
    requires |r| >= 4 && SelfChecks(r)
    ensures Bools(Run(INIT, r)) == Steps(Bools(POLY), Bools(0xFFFFFFFF), 32)
  {
    var (m, w) := (r[..|r| - 4], r[|r| - 4..]);
    assert r == m + w;
    PolyIsMonic();
    RunFeeds(INIT, m);
    RunFeeds(INIT, r);
    CrcIs(m);
    ComplementMixes(Run(INIT, m), w);
    Residue(Bools(POLY), Bools(INIT), m, w, Bools(0xFFFFFFFF));
  }

  /** No burst of up to four bytes, in the data, in the CRC or across both, passes the check. */
  lemma SelfCheckBurst(r: seq<byte>, t: seq<byte>, k: nat)
    requires |r| >= 4 && SelfChecks(r) && Burst(r, t, k)
    ensures !SelfChecks(t)
  {
    if SelfChecks(t) {
      SelfCheckResidue(r);
      SelfCheckResidue(t);
      PolyIsMonic();
      RunFeeds(INIT, r);
      RunFeeds(INIT, t);
      BurstChanges(Bools(POLY), Bools(INIT), r, t, k);
    }
  }

  // ---- The check value ---------------------------------------------------------------

  const CHECK: seq<byte> := [49, 50, 51, 52, 53, 54, 55, 56, 57]

  lemma CheckSpelled()
    ensures Spells(CHECK, "123456789")
  {
  }

  lemma EightSteps(c: bv32, r: bv32)
    requires r == Bit(Bit(Bit(Bit(Bit(Bit(Bit(Bit(c))))))))
    ensures Bits(c, 8) == r
  {
    assert Bits(c, 1) == Bit(c);
    assert Bits(c, 2) == Bit(Bit(c));
    assert Bits(c, 4) == Bit(Bit(Bit(Bit(c))));
    assert Bits(c, 6) == Bit(Bit(Bit(Bit(Bit(Bit(c))))));
  }

  /** One byte of a message, by its literal registers before, mixed and after. */
  lemma NextByte(m: seq<byte>, k: nat, before: bv32, mixed: bv32, after: bv32)
    requires k < |m| && Run(INIT, m[..k]) == before && mixed == before ^ Widen(m[k])
    requires after == Bit(Bit(Bit(Bit(Bit(Bit(Bit(Bit(mixed))))))))
    ensures Run(INIT, m[..k + 1]) == after
  {
    assert m[..k + 1][..k] == m[..k];
    EightSteps(mixed, after);
  }

  lemma CheckThree()
    ensures Run(INIT, CHECK[..3]) == 0x77B79C2D
  {
    NextByte(CHECK, 0, 0xFFFFFFFF, 0xFFFFFFCE, 0x7C231048);
    NextByte(CHECK, 1, 0x7C231048, 0x7C23107A, 0xB0ACBB32);
    NextByte(CHECK, 2, 0xB0ACBB32, 0xB0ACBB01, 0x77B79C2D);
  }

  lemma CheckSix()
    ensures Run(INIT, CHECK[..6]) == 0xF68D2C9E
  {
    CheckThree();
    NextByte(CHECK, 3, 0x77B79C2D, 0x77B79C19, 0x641C1F5C);
    NextByte(CHECK, 4, 0x641C1F5C, 0x641C1F69, 0x340AC5E3);
    NextByte(CHECK, 5, 0x340AC5E3, 0x340AC5D5, 0xF68D2C9E);
  }

  lemma CheckNine()
    ensures Run(INIT, CHECK[..9]) == 0x340BC6D9
  {
    CheckSix();
    NextByte(CHECK, 6, 0xF68D2C9E, 0xF68D2CA9, 0xAFFC9660);
    NextByte(CHECK, 7, 0xAFFC9660, 0xAFFC9658, 0x651F2550);
    NextByte(CHECK, 8, 0x651F2550, 0x651F2569, 0x340BC6D9);
  }

  /** The checksum of the nine digits that the usual check value of this CRC-32 is defined on. */
  lemma CheckValue()
    ensures Crc(CHECK) == 0xCBF43926
  {
    CheckNine();
    assert CHECK[..9] == CHECK;
    CrcIs(CHECK);
  }

  // ---- The table-driven code of section 8 of RFC 1952 -----------------------------

  /** Entry `n` of the table that section 8 of RFC 1952 builds. */
  function TableEntry(n: bv32): bv32 {
    Bits(n, 8)
  }

  function TableMix(x: bv32, q: bv32): bv32 {
    TableEntry(x & 0xFF) ^ q
  }

  function TableAbsorb(c: bv32, b: byte): bv32 {
    TableMix(c ^ Widen(b), c >> 8)
  }

  function TableRun(c: bv32, m: seq<byte>): bv32 {
    Fold(TableAbsorb, c, m)
  }

  /** The bit-serial register and the RFC's table-driven one agree on every message. */
  lemma TableDriven(c: bv32, m: seq<byte>)
    ensures Run(c, m) == TableRun(c, m)
  {
    forall d, b ensures Absorb(d, b) == TableAbsorb(d, b) {
      TableStep(d, b, d ^ Widen(b), d >> 8);
    }
    FoldSame(Absorb, TableAbsorb, c, m);
  }

  lemma TableStep(c: bv32, b: byte, x: bv32, q: bv32)
    requires x == c ^ Widen(b) && q == c >> 8
    ensures Absorb(c, b) == TableAbsorb(c, b)
  {
    SameTop(c, b, Widen(b), x, q);
    Whole(x, q);
    AbsorbAt(c, b, x, q);
  }

  lemma AbsorbAt(c: bv32, b: byte, x: bv32, q: bv32)
    requires x == c ^ Widen(b) && q == c >> 8
    ensures Absorb(c, b) == Bits(x, 8)
    ensures TableAbsorb(c, b) == TableMix(x, q)
  {
  }

  lemma SameTop(c: bv32, b: byte, w: bv32, x: bv32, q: bv32)
    requires w == b as bv32 && x == c ^ w && q == c >> 8
    ensures (x & 0xFFFFFF00) >> 8 == q
  {
  }

  lemma Whole(x: bv32, q: bv32)
    requires (x & 0xFFFFFF00) >> 8 == q
    ensures Bits(x, 8) == TableMix(x, q)
  {
    Halves(x, x & 0xFF, x & 0xFFFFFF00, q);
  }

  lemma Halves(x: bv32, lo: bv32, hi: bv32, q: bv32)
    requires lo == x & 0xFF && hi == x & 0xFFFFFF00 && hi >> 8 == q
    ensures Bits(x, 8) == TableMix(x, q)
  {
    Parts(x, lo, hi);
    Mixed(x, lo, q, TableEntry(lo));
    SumOfHalves(x, lo, hi, q, TableEntry(lo), TableMix(x, q));
  }

  lemma Parts(x: bv32, lo: bv32, hi: bv32)
    requires lo == x & 0xFF && hi == x & 0xFFFFFF00
    ensures x == lo ^ hi && hi & 0xFF == 0
  {
  }

  lemma Mixed(x: bv32, lo: bv32, q: bv32, e: bv32)
    requires lo == x & 0xFF && e == TableEntry(lo)
    ensures TableMix(x, q) == e ^ q
  {
  }

  lemma SumOfHalves(x: bv32, lo: bv32, hi: bv32, q: bv32, e: bv32, t: bv32)
    requires x == lo ^ hi && hi & 0xFF == 0 && hi >> 8 == q && e == Bits(lo, 8) && t == e ^ q
    ensures Bits(x, 8) == t
  {
    XorAdds(lo, hi, x);
    BitsSteps(x, 8);
    BitsSteps(lo, 8);
    XorAdds(e, q, t);
    HighBytes(hi, q);
    SumSteps(Bools(POLY), Bools(x), Bools(lo), Bools(hi), Bools(e), Bools(q), Bools(t));
    BoolsInjective(Bits(x, 8), t);
  }

  lemma SumSteps(poly: Reg, x: Reg, lo: Reg, hi: Reg, e: Reg, q: Reg, t: Reg)
    requires x == Add(lo, hi) && Steps(poly, lo, 8) == e && Steps(poly, hi, 8) == q && t == Add(e, q)
    ensures Steps(poly, x, 8) == t
  {
    StepsAdd(poly, lo, hi, 8);
  }

  lemma HighBytes(hi: bv32, q: bv32)
    requires hi & 0xFF == 0 && q == hi >> 8
    ensures Steps(Bools(POLY), Bools(hi), 8) == Bools(q)
  {
    BytesAbove(hi, q);
    ZeroBits(Le32(hi)[0]);
    BytesShiftOut(Bools(POLY), Le32(hi), Le32(q));
  }

  lemma ZeroBits(b: byte)
    requires b == 0
    ensures forall i :: 0 <= i < 8 ==> !ByteBit(b, i)
  {
  }

  lemma BytesShiftOut(poly: Reg, w: seq<byte>, v: seq<byte>)
    requires |w| == 4 && v == w[1..] + [0]
    requires forall i :: 0 <= i < 8 ==> !ByteBit(w[0], i)
    ensures Steps(poly, BoolsOf(w), 8) == BoolsOf(v)
  {
    ShiftOut(poly, BoolsOf(w), 8);
    ZeroBits(v[3]);
    forall i | 0 <= i < 32 ensures Steps(poly, BoolsOf(w), 8)[i] == BoolsOf(v)[i] {
      assert (i + 8) / 8 == i / 8 + 1 && (i + 8) % 8 == i % 8;
    }
    Same(Steps(poly, BoolsOf(w), 8), BoolsOf(v));
  }

  lemma BytesAbove(hi: bv32, q: bv32)
    requires hi & 0xFF == 0 && q == hi >> 8
    ensures Le32(hi)[0] == 0 && Le32(q) == Le32(hi)[1..] + [0]
  {
  }
}
