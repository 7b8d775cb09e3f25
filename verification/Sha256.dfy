/**
 SHA-256 (picow-ota/src/sha256.c). The specification is FIPS 180-4: padding in section 5.1.1, functions in section
 4.1.2, the hash computation in section 6.2. The streaming context is proved against it for every way of cutting
 a message into updates.
 */
module Sha256 {
  import opened Bytes

  // ---- FIPS 180-4 -----------------------------------------------------------------

  /** A 32-bit word. */
  datatype Word = Word(v: bv32)

  /** Constant `K_t` of section 4.2.2. */
  function RoundConstant(t: nat): Word
    requires t < 64
  {
    if t < 16 then Word([
      0x428a2f98, 0x71374491, 0xb5c0fbcf, 0xe9b5dba5, 0x3956c25b, 0x59f111f1, 0x923f82a4, 0xab1c5ed5,
      0xd807aa98, 0x12835b01, 0x243185be, 0x550c7dc3, 0x72be5d74, 0x80deb1fe, 0x9bdc06a7, 0xc19bf174][t])
    else if t < 32 then Word([
      0xe49b69c1, 0xefbe4786, 0x0fc19dc6, 0x240ca1cc, 0x2de92c6f, 0x4a7484aa, 0x5cb0a9dc, 0x76f988da,
      0x983e5152, 0xa831c66d, 0xb00327c8, 0xbf597fc7, 0xc6e00bf3, 0xd5a79147, 0x06ca6351, 0x14292967][t - 16])
    else if t < 48 then Word([
      0x27b70a85, 0x2e1b2138, 0x4d2c6dfc, 0x53380d13, 0x650a7354, 0x766a0abb, 0x81c2c92e, 0x92722c85,
      0xa2bfe8a1, 0xa81a664b, 0xc24b8b70, 0xc76c51a3, 0xd192e819, 0xd6990624, 0xf40e3585, 0x106aa070][t - 32])
    else Word([
      0x19a4c116, 0x1e376c08, 0x2748774c, 0x34b0bcb5, 0x391c0cb3, 0x4ed8aa4a, 0x5b9cca4f, 0x682e6ff3,
      0x748f82ee, 0x78a5636f, 0x84c87814, 0x8cc70208, 0x90befffa, 0xa4506ceb, 0xbef9a3f7, 0xc67178f2][t - 48])
  }

  /** The eight working variables, or the eight words of a hash value. */
  datatype Words = Words(a: Word, b: Word, c: Word, d: Word, e: Word, f: Word, g: Word, h: Word)

  const H0 := Words(Word(0x6a09e667), Word(0xbb67ae85), Word(0x3c6ef372), Word(0xa54ff53a),
                    Word(0x510e527f), Word(0x9b05688c), Word(0x1f83d9ab), Word(0x5be0cd19))

  /** Addition modulo 2^32. */
  function Plus(x: Word, y: Word): Word { Word(x.v + y.v) }

  function Ch(x: Word, y: Word, z: Word): Word { Word((x.v & y.v) ^ (!x.v & z.v)) }

  function Maj(x: Word, y: Word, z: Word): Word { Word((x.v & y.v) ^ (x.v & z.v) ^ (y.v & z.v)) }

  function BigSigma0(x: Word): Word {
    Word(((x.v >> 2) | (x.v << 30)) ^ ((x.v >> 13) | (x.v << 19)) ^ ((x.v >> 22) | (x.v << 10)))
  }

  function BigSigma1(x: Word): Word {
    Word(((x.v >> 6) | (x.v << 26)) ^ ((x.v >> 11) | (x.v << 21)) ^ ((x.v >> 25) | (x.v << 7)))
  }

  function SmallSigma0(x: Word): Word {
    Word(((x.v >> 7) | (x.v << 25)) ^ ((x.v >> 18) | (x.v << 14)) ^ (x.v >> 3))
  }

  function SmallSigma1(x: Word): Word {
    Word(((x.v >> 17) | (x.v << 15)) ^ ((x.v >> 19) | (x.v << 13)) ^ (x.v >> 10))
  }

  type Block = b: seq<byte> | |b| == 64 witness Fill(64, 0)

  function BigEndian(b0: byte, b1: byte, b2: byte, b3: byte): Word {
    Word(((b0 as bv32) << 24) | ((b1 as bv32) << 16) | ((b2 as bv32) << 8) | (b3 as bv32))
  }

  /** Longer sums modulo 2^32. */
  function Sum4(p: Word, q: Word, r: Word, s: Word): Word { Word(p.v + q.v + r.v + s.v) }

  function Sum5(p: Word, q: Word, r: Word, s: Word, t: Word): Word { Word(p.v + q.v + r.v + s.v + t.v) }

  /** The word that follows the words `w` of the message schedule of block `b`. */
  function NextWord(b: Block, w: seq<Word>): Word
    requires |w| < 64
  {
    var t := |w|;
    if t < 16 then BigEndian(b[4 * t], b[4 * t + 1], b[4 * t + 2], b[4 * t + 3])
    else Sum4(w[t - 16], SmallSigma0(w[t - 15]), w[t - 7], SmallSigma1(w[t - 2]))
  }

  /** The first `n` words of the message schedule. */
  function ScheduleOf(b: Block, n: nat): (w: seq<Word>)
    requires n <= 64
    ensures |w| == n
  {
    if n == 0 then [] else ScheduleOf(b, n - 1) + [NextWord(b, ScheduleOf(b, n - 1))]
  }

  function T1(v: Words, k: Word, w: Word): Word {
    Sum5(v.h, BigSigma1(v.e), Ch(v.e, v.f, v.g), k, w)
  }

  function T2(v: Words): Word {
    Plus(BigSigma0(v.a), Maj(v.a, v.b, v.c))
  }

  function Round(v: Words, k: Word, w: Word): Words {
    Words(Plus(T1(v, k, w), T2(v)), v.a, v.b, v.c, Plus(v.d, T1(v, k, w)), v.e, v.f, v.g)
  }

  /** The working variables after the first `t` rounds over schedule `w`. */
  function Rounds(v: Words, w: seq<Word>, t: nat): Words
    requires t <= |w| == 64
  {
    if t == 0 then v else Round(Rounds(v, w, t - 1), RoundConstant(t - 1), w[t - 1])
  }

  function Sum(x: Words, y: Words): Words {
    Words(Plus(x.a, y.a), Plus(x.b, y.b), Plus(x.c, y.c), Plus(x.d, y.d),
          Plus(x.e, y.e), Plus(x.f, y.f), Plus(x.g, y.g), Plus(x.h, y.h))
  }

  /** Section 6.2.2. The countdown keeps the verifier from expanding the rounds wherever a hash value is mentioned. */
  function Compress(h: Words, b: Block, countdown: nat := 4): Words {
    if countdown > 0 then Compress(h, b, countdown - 1) else Sum(h, Rounds(h, ScheduleOf(b, 64), 64))
  }

  lemma CompressIs(h: Words, b: Block)
    ensures Compress(h, b) == Sum(h, Rounds(h, ScheduleOf(b, 64), 64))
  {
    assert Compress(h, b, 2) == Compress(h, b, 1) == Compress(h, b, 0);
    assert Compress(h, b, 4) == Compress(h, b, 3) == Compress(h, b, 2);
  }

  /** The hash value after all 64-byte blocks of `m`. */
  function HashBlocks(m: seq<byte>): Words
    requires |m| % 64 == 0
  {
    if m == [] then H0 else Compress(HashBlocks(m[..|m| - 64]), m[|m| - 64..])
  }

  function Pow256(n: nat): (p: nat)
    ensures p > 0
  {
    if n == 0 then 1 else 256 * Pow256(n - 1)
  }

  /** Byte `i` of an eight-byte big-endian number. */
  function BeByte(x: nat, i: nat): byte
    requires i < 8
  {
    (x / Pow256(7 - i) % 256) as byte
  }

  const TWO64: nat := 0x1_0000_0000_0000_0000

  /** The 64-bit counter of message bits after `bytes` bytes. */
  function BitLength(bytes: nat): nat {
    8 * bytes % TWO64
  }

  /** Length field: the number of message bits as 64 bits, which section 5.1.1 defines for fewer than 2^64 of them. */
  function LengthField(bytes: nat): (s: seq<byte>)
    ensures |s| == 8
  {
    seq(8, i requires 0 <= i < 8 => BeByte(BitLength(bytes), i))
  }

  /** The padded message: one 1 bit, the fewest zeros that make it fit, the length. */
  function Pad(m: seq<byte>): (p: seq<byte>)
    ensures |p| % 64 == 0
  {
    m + [0x80] + Fill((55 - |m|) % 64, 0) + LengthField(|m|)
  }

  function WordBytes(x: Word): (s: seq<byte>)
    ensures |s| == 4
  {
    [((x.v >> 24) & 0xFF) as byte, ((x.v >> 16) & 0xFF) as byte, ((x.v >> 8) & 0xFF) as byte, (x.v & 0xFF) as byte]
  }

  function DigestOf(v: Words): (d: seq<byte>)
    ensures |d| == 32
  {
    WordBytes(v.a) + WordBytes(v.b) + WordBytes(v.c) + WordBytes(v.d) +
    WordBytes(v.e) + WordBytes(v.f) + WordBytes(v.g) + WordBytes(v.h)
  }

  /** The digest of a message. The countdown keeps the verifier from expanding it. */
  function Digest(m: seq<byte>, countdown: nat := 4): (d: seq<byte>)
    ensures |d| == 32
  {
    if countdown > 0 then Digest(m, countdown - 1) else DigestOf(HashBlocks(Pad(m)))
  }

  lemma DigestIs(m: seq<byte>)
    ensures Digest(m) == DigestOf(HashBlocks(Pad(m)))
  {
    assert Digest(m, 2) == Digest(m, 1) == Digest(m, 0);
    assert Digest(m, 4) == Digest(m, 3) == Digest(m, 2);
  }

  // ---- Transform ------------------------------------------------------------------

  function ToWords(s: seq<Word>): Words
    requires |s| == 8
  {
    Words(s[0], s[1], s[2], s[3], s[4], s[5], s[6], s[7])
  }

  method Schedule(block: Block) returns (w: array<Word>)
    ensures fresh(w) && w.Length == 64
    ensures w[..] == ScheduleOf(block, 64)
  {
    w := new Word[64](_ => Word(0));
    for i := 0 to 16
      invariant w[..i] == ScheduleOf(block, i)
    {
      w[i] := BigEndian(block[i * 4], block[i * 4 + 1], block[i * 4 + 2], block[i * 4 + 3]);
      assert w[..i + 1] == w[..i] + [w[i]];
    }
    for i := 16 to 64
      invariant w[..i] == ScheduleOf(block, i)
    {
      ghost var before := w[..i];
      var s0 := SmallSigma0(w[i - 15]);
      var s1 := SmallSigma1(w[i - 2]);
      w[i] := Sum4(w[i - 16], s0, w[i - 7], s1);
      assert w[i] == NextWord(block, before);
      assert w[..i + 1] == before + [w[i]];
    }
    assert w[..64] == w[..];
  }

  method RunRounds(start: Words, w: array<Word>) returns (v: Words)
    requires w.Length == 64
    ensures v == Rounds(start, w[..], 64)
  {
    var Words(a, b, c, d, e, f, g, h) := start;
    for i := 0 to 64
      invariant Words(a, b, c, d, e, f, g, h) == Rounds(start, w[..], i)
    {
      ghost var was := Words(a, b, c, d, e, f, g, h);
      var s1 := BigSigma1(e);
      var ch := Ch(e, f, g);
      var t1 := Sum5(h, s1, ch, RoundConstant(i), w[i]);
      var s0 := BigSigma0(a);
      var mj := Maj(a, b, c);
      var t2 := Plus(s0, mj);
      h := g;
      g := f;
      f := e;
      e := Plus(d, t1);
      d := c;
      c := b;
      b := a;
      a := Plus(t1, t2);
      assert t1 == T1(was, RoundConstant(i), w[i]) && t2 == T2(was);
      assert Words(a, b, c, d, e, f, g, h) == Round(was, RoundConstant(i), w[i]);
    }
    v := Words(a, b, c, d, e, f, g, h);
  }

  /** `transform`: one block into the running state, in place. */
  method Transform(state: array<Word>, block: Block)
    requires state.Length == 8
    modifies state
    ensures ToWords(state[..]) == Compress(old(ToWords(state[..])), block)
  {
    var w := Schedule(block);
    var v := RunRounds(ToWords(state[..]), w);
    CompressIs(ToWords(state[..]), block);
    AddInto(state, v);
  }

  method AddInto(state: array<Word>, v: Words)
    requires state.Length == 8
    modifies state
    ensures ToWords(state[..]) == Sum(old(ToWords(state[..])), v)
  {
    var s := state[..];
    var t := [Plus(s[0], v.a), Plus(s[1], v.b), Plus(s[2], v.c), Plus(s[3], v.d),
              Plus(s[4], v.e), Plus(s[5], v.f), Plus(s[6], v.g), Plus(s[7], v.h)];
    forall i | 0 <= i < 8 {
      state[i] := t[i];
    }
    assert state[..] == t;
  }

  lemma PadShort(m: seq<byte>)
    requires |m| % 64 <= 55
    ensures m + [0x80] + Fill(56 - (|m| % 64 + 1), 0) + LengthField(|m|) == Pad(m)
  {
  }

  lemma PadLong(m: seq<byte>)
    requires 55 < |m| % 64
    ensures (m + ([0x80] + Fill(63 - |m| % 64, 0))) + [] + Fill(56, 0) + LengthField(|m|) == Pad(m)
  {
  }

  lemma EmptyMessage()
    ensures Whole([]) == [] && Tail([]) == [] && HashBlocks([]) == H0
  {
  }

  lemma NoBits()
    ensures BitLength(0) == 0
  {
  }

  method LoadInitialHash(state: array<Word>)
    requires state.Length == 8
    modifies state
    ensures ToWords(state[..]) == HashBlocks(Whole([]))
  {
    var h := H0;
    var t := [h.a, h.b, h.c, h.d, h.e, h.f, h.g, h.h];
    forall i | 0 <= i < 8 {
      state[i] := t[i];
    }
    assert state[..] == t;
    EmptyMessage();
  }

  // ---- Streaming context -----------------------------------------------------------

  lemma {:induction false} HashAppend(m: seq<byte>, b: Block)
    requires |m| % 64 == 0
    ensures |m + b| % 64 == 0 && HashBlocks(m + b) == Compress(HashBlocks(m), b)
  {
  }

  /** `m` up to its last whole block. */
  function Whole(m: seq<byte>): (w: seq<byte>)
    ensures |w| % 64 == 0
  {
    m[..|m| - |m| % 64]
  }

  function Tail(m: seq<byte>): seq<byte> {
    m[|m| - |m| % 64..]
  }

  lemma Completes(m: seq<byte>, d: seq<byte>)
    requires |m| % 64 + |d| == 64
    ensures Whole(m + d) == Whole(m) + (Tail(m) + d) && Tail(m + d) == []
  {
  }

  lemma Extends(m: seq<byte>, d: seq<byte>)
    requires |m| % 64 + |d| < 64
    ensures Whole(m + d) == Whole(m) && Tail(m + d) == Tail(m) + d
  {
    var k := |m| - |m| % 64;
    assert |m + d| - |m + d| % 64 == k;
    assert (m + d)[..k] == m[..k] && (m + d)[k..] == m[k..] + d;
  }

  lemma BitCount(m: seq<byte>, d: seq<byte>, t: nat)
    requires t == BitLength(|m|)
    ensures (t + |d| * 8) % TWO64 == BitLength(|m + d|)
  {
  }

  /** `sha256_ctx_t`. The ghost field is the message absorbed so far. */
  class Context {
    const state: array<Word>
    const buf: array<byte>
    var total_bits: nat
    var buf_len: nat
    ghost var msg: seq<byte>

    ghost predicate Allocated() {
      state.Length == 8 && buf.Length == 64
    }

    ghost predicate Hashed(m: seq<byte>)
      reads state
    {
      Allocated() && ToWords(state[..]) == HashBlocks(Whole(m))
    }

    /** The running state is the hash of the whole blocks of `m`, and the buffer holds the rest. */
    ghost predicate Holds(m: seq<byte>)
      reads this`buf_len, state, buf
    {
      && Hashed(m)
      && buf_len == |m| % 64
      && buf[..buf_len] == Tail(m)
    }

    ghost predicate Consistent()
      reads this, state, buf
    {
      Holds(msg) && total_bits == BitLength(|msg|)
    }

    /** What callers keep. The countdown keeps the verifier from expanding it in their proofs. */
    ghost predicate Valid(countdown: nat := 4)
      reads this, state, buf
    {
      if countdown > 0 then Valid(countdown - 1) else Consistent()
    }

    lemma ValidIs()
      ensures Valid() == Consistent()
    {
      assert Valid(2) == Valid(1) == Valid(0);
      assert Valid(4) == Valid(3) == Valid(2);
    }

    /** Storage only; the context is usable after `Init`. */
    constructor ()
      ensures Allocated() && fresh(state) && fresh(buf)
    {
      state := new Word[8](_ => Word(0));
      buf := new byte[64];
      total_bits, buf_len, msg := 0, 0, [];
    }

    method Clear()
      requires Allocated()
      modifies this
      ensures total_bits == BitLength(|msg|) && buf_len == 0 && msg == []
    {
      total_bits, buf_len, msg := 0, 0, [];
      NoBits();
    }

    /** `sha256_init`. */
    method Init()
      requires Allocated()
      modifies this, state
      ensures Valid() && msg == []
    {
      Clear();
      LoadInitialHash(state);
      assert Tail(msg) == [];
      ValidIs();
    }

    /** `memcpy` into the buffer, after its first `at` bytes. */
    method CopyIn(at: nat, data: seq<byte>)
      requires at + |data| <= buf.Length
      modifies buf
      ensures buf[..at + |data|] == old(buf[..at]) + data
    {
      forall i | 0 <= i < |data| {
        buf[at + i] := data[i];
      }
    }

    /** The next whole block, held in `block`, goes into the state. */
    method Absorb(block: Block, ghost m: seq<byte>, ghost d: seq<byte>)
      requires Hashed(m) && |m| % 64 + |d| == 64 && block == Tail(m) + d
      modifies this`buf_len, state
      ensures Holds(m + d) && buf_len == 0
    {
      Completes(m, d);
      HashAppend(Whole(m), block);
      Transform(state, block);
      buf_len := 0;
    }

    /** Top up a partial buffer from the front of `data`; `rest` is what is not used. */
    method TopUp(data: seq<byte>, ghost m: seq<byte>) returns (rest: seq<byte>, ghost done: seq<byte>)
      requires Holds(m)
      modifies this`buf_len, state, buf
      ensures Holds(done) && done + rest == m + data && (buf_len == 0 || rest == [])
    {
      rest, done := data, m;
      if buf_len != 0 {
        var need := 64 - buf_len;
        var take := if |data| < need then |data| else need;
        var used := data[..take];
        CopyIn(buf_len, used);
        if take == need {
          assert buf[..64] == buf[..];
          Absorb(buf[..], m, used);
        } else {
          Extends(m, used);
          buf_len := buf_len + take;
        }
        rest, done := data[take..], m + used;
        assert used + rest == data;
      }
    }

    /** Hash whole blocks straight from the input. */
    method Bulk(data: seq<byte>, ghost m: seq<byte>) returns (rest: seq<byte>, ghost done: seq<byte>)
      requires Holds(m) && (buf_len == 0 || data == [])
      modifies this`buf_len, state
      ensures Holds(done) && done + rest == m + data && |rest| < 64 && (buf_len == 0 || rest == [])
    {
      rest, done := data, m;
      while |rest| >= 64
        invariant Holds(done) && done + rest == m + data && (buf_len == 0 || rest == [])
      {
        var block := rest[..64];
        assert block + rest[64..] == rest;
        assert Tail(done) == [];
        Absorb(block, done, block);
        rest, done := rest[64..], done + block;
      }
    }

    /** Keep what is left of the input. */
    method Stash(rest: seq<byte>, ghost m: seq<byte>)
      requires |rest| < 64 && (buf_len == 0 || rest == []) && Holds(m)
      modifies this`buf_len, buf
      ensures Holds(m + rest)
    {
      if |rest| > 0 {
        Extends(m, rest);
        CopyIn(0, rest);
        buf_len := |rest|;
      } else {
        assert m + rest == m;
      }
    }

    method TakeIn(data: seq<byte>, ghost m: seq<byte>)
      requires Holds(m)
      modifies this`buf_len, state, buf
      ensures Holds(m + data)
    {
      var rest, done := TopUp(data, m);
      rest, done := Bulk(rest, done);
      Stash(rest, done);
    }

    method CountBits(data: seq<byte>)
      requires total_bits == BitLength(|msg|)
      modifies this`total_bits
      ensures total_bits == BitLength(|msg + data|)
    {
      BitCount(msg, data, total_bits);
      total_bits := (total_bits + |data| * 8) % TWO64;
    }

    /** `sha256_update`: top up the partial buffer, hash whole blocks straight from the input, keep the tail. */
    method Update(data: seq<byte>)
      requires Valid()
      modifies this, state, buf
      ensures Valid() && msg == old(msg) + data
    {
      ValidIs();
      CountBits(data);
      TakeIn(data, msg);
      msg := msg + data;
      ValidIs();
    }

    /** Append the byte 0x80, and close the block when the length no longer fits behind it. */
    method MarkEnd(ghost m: seq<byte>) returns (ghost done: seq<byte>, ghost lead: seq<byte>)
      requires Holds(m)
      modifies this`buf_len, state, buf
      ensures Hashed(done) && buf_len == |done| % 64 + |lead| <= 56 && buf[..buf_len] == Tail(done) + lead
      ensures done + lead + Fill(56 - buf_len, 0) + LengthField(|m|) == Pad(m)
    {
      ghost var r := |m| % 64;
      CopyIn(buf_len, [0x80]);
      buf_len := buf_len + 1;
      done, lead := m, [0x80];
      if buf_len > 56 {
        CopyIn(buf_len, Fill(64 - buf_len, 0));
        ghost var d := [0x80] + Fill(63 - r, 0);
        assert buf[..64] == buf[..] == Tail(m) + d;
        Absorb(buf[..], m, d);
        done, lead := m + d, [];
        PadLong(m);
      } else {
        PadShort(m);
      }
    }

    /** The length field, in the last eight bytes of the buffer. */
    method WriteBits(ghost bytes: nat, ghost before: seq<byte>)
      requires Allocated() && total_bits == BitLength(bytes) && |before| == 56 && buf[..56] == before
      modifies buf
      ensures buf[..] == before + LengthField(bytes)
    {
      for i := 0 to 8
        invariant buf[..56 + i] == before + LengthField(bytes)[..i]
      {
        CopyIn(56 + i, [BeByte(total_bits, i)]);
      }
      assert buf[..] == buf[..64];
    }

    /** Zeros up to the length field, the length, and the last block. */
    method WriteLength(ghost m: seq<byte>, ghost done: seq<byte>, ghost lead: seq<byte>)
      requires Hashed(done) && buf_len == |done| % 64 + |lead| <= 56 && buf[..buf_len] == Tail(done) + lead
      requires total_bits == BitLength(|m|)
      modifies this`buf_len, state, buf
      ensures var all := done + lead + Fill(56 - old(buf_len), 0) + LengthField(|m|);
        |all| % 64 == 0 && Hashed(all)
    {
      ghost var zeros := Fill(56 - buf_len, 0);
      CopyIn(buf_len, Fill(56 - buf_len, 0));
      WriteBits(|m|, Tail(done) + lead + zeros);
      ghost var last := lead + zeros + LengthField(|m|);
      assert buf[..] == Tail(done) + last;
      Absorb(buf[..], done, last);
      assert done + last == done + lead + zeros + LengthField(|m|);
    }

    /** `sha256_final`: the context is spent afterwards. */
    method Final() returns (out: seq<byte>)
      requires Valid()
      modifies this, state, buf
      ensures out == Digest(old(msg))
    {
      ValidIs();
      ghost var done, lead := MarkEnd(msg);
      WriteLength(msg, done, lead);
      assert Whole(Pad(msg)) == Pad(msg);
      DigestIs(msg);
      out := DigestOf(ToWords(state[..]));
    }
  }

  /** `sha256`: the one-shot form. */
  method OneShot(data: seq<byte>) returns (out: seq<byte>)
    ensures out == Digest(data)
  {
    var ctx := new Context();
    ctx.Init();
    ctx.Update(data);
    assert [] + data == data;
    out := ctx.Final();
  }

  /** Any cutting of a message into updates gives the digest of the whole message. */
  method InChunks(chunks: seq<seq<byte>>) returns (out: seq<byte>)
    ensures out == Digest(Concat(chunks))
  {
    var ctx := new Context();
    ctx.Init();
    for i := 0 to |chunks|
      invariant ctx.Valid() && ctx.msg == Concat(chunks[..i]) && fresh(ctx) && fresh(ctx.state) && fresh(ctx.buf)
    {
      assert chunks[..i + 1][..i] == chunks[..i];
      ctx.Update(chunks[i]);
    }
    assert chunks[..|chunks|] == chunks;
    out := ctx.Final();
  }

  lemma DiffCollects(diff: byte, a: byte, b: byte)
    ensures diff | (a ^ b) == 0 <==> diff == 0 && a == b
  {
  }

  /** `sha256_equal`: compares in constant time by collecting differences. */
  method Equal(a: seq<byte>, b: seq<byte>) returns (same: bool)
    requires |a| == |b| == 32
    ensures same <==> a == b
  {
    var diff: byte := 0;
    for i := 0 to 32
      invariant diff == 0 <==> a[..i] == b[..i]
    {
      DiffCollects(diff, a[i], b[i]);
      assert a[..i + 1] == a[..i] + [a[i]] && b[..i + 1] == b[..i] + [b[i]];
      diff := diff | (a[i] ^ b[i]);
    }
    assert a[..32] == a && b[..32] == b;
    same := diff == 0;
  }
}
