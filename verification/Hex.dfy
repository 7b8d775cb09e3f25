/** Digests as text (`sha256_parse_hex`, `sha256_format_hex`). */
module Hex {
  import opened Bytes

  /** `hex_nibble`; 16 stands for its -1. */
  function Nibble(c: byte): byte {
    if 48 <= c <= 57 then c - 48 else if 97 <= c <= 102 then c - 87 else if 65 <= c <= 70 then c - 55 else 16
  }

  function Lut(n: byte): byte { if n < 10 then n + 48 else n + 87 }

  function Joined(hi: byte, lo: byte): byte { (hi << 4) | lo }

  function High(b: byte): byte { (b >> 4) & 0xF }

  function Low(b: byte): byte { b & 0xF }

  predicate IsHex(c: byte) { Nibble(c) < 16 }

  /** The 32 bytes that 64 hexadecimal digits stand for. */
  function OfHex(t: seq<byte>): (d: Option<seq<byte>>)
    ensures d.Some? ==> |d.value| == 32
  {
    if |t| == 64 && forall i :: 0 <= i < 64 ==> IsHex(t[i])
    then Some(seq(32, i requires 0 <= i < 32 => Joined(Nibble(t[2 * i]), Nibble(t[2 * i + 1]))))
    else None
  }

  /** A character of a C string, whose end reads as NUL. */
  function CharAt(t: seq<byte>, i: nat): byte { if i < |t| then t[i] else 0 }

  method ParseHex(t: seq<byte>) returns (d: Option<seq<byte>>)
    ensures d == OfHex(t)
  {
    var out: seq<byte> := [];
    for i := 0 to 32
      invariant |out| == i && (forall j :: 0 <= j < 2 * i ==> j < |t| && IsHex(t[j]))
      invariant forall j :: 0 <= j < i ==> 2 * j + 1 < |t| && out[j] == Joined(Nibble(t[2 * j]), Nibble(t[2 * j + 1]))
    {
      var hi, lo := Nibble(CharAt(t, i * 2)), Nibble(CharAt(t, i * 2 + 1));
      if hi >= 16 || lo >= 16 {
        assert |t| == 64 ==> !IsHex(t[2 * i]) || !IsHex(t[2 * i + 1]);
        return None;
      }
      out := out + [Joined(hi, lo)];
    }
    d := if |t| == 64 then Some(out) else None;
    assert |t| == 64 ==> out == OfHex(t).value;
  }

  function ToHex(d: seq<byte>): seq<byte> {
    if d == [] then [] else [Lut(High(d[0])), Lut(Low(d[0]))] + ToHex(d[1..])
  }

  method FormatHex(d: seq<byte>) returns (t: seq<byte>)
    ensures t == ToHex(d)
  {
    t := [];
    for i := 0 to |d|
      invariant t + ToHex(d[i..]) == ToHex(d)
    {
      assert d[i..][1..] == d[i + 1..];
      t := t + [Lut(High(d[i])), Lut(Low(d[i]))];
    }
  }

  lemma NibbleBack(b: byte)
    ensures Nibble(Lut(High(b))) == High(b) && Nibble(Lut(Low(b))) == Low(b) && Joined(High(b), Low(b)) == b
    ensures High(b) < 16 && Low(b) < 16
  {
  }

  lemma {:induction false} ToHexAt(d: seq<byte>, i: nat)
    requires i < |d|
    ensures |ToHex(d)| == 2 * |d| && ToHex(d)[2 * i] == Lut(High(d[i])) && ToHex(d)[2 * i + 1] == Lut(Low(d[i]))
  {
    if |d| > 1 {
      ToHexAt(d[1..], if i == 0 then 0 else i - 1);
    }
  }

  const DIGITS: seq<byte> := [48, 49, 50, 51, 52, 53, 54, 55, 56, 57, 97, 98, 99, 100, 101, 102]
  const CAPITALS: seq<byte> := [48, 49, 50, 51, 52, 53, 54, 55, 56, 57, 65, 66, 67, 68, 69, 70]

  lemma DigitsSpelled()
    ensures Spells(DIGITS, "0123456789abcdef")
  {
  }

  lemma CapitalsSpelled()
    ensures Spells(CAPITALS, "0123456789ABCDEF")
  {
  }

  /** Character `c` is the hexadecimal digit for `n`, small or capital. */
  predicate IsDigitFor(c: byte, n: byte) { n < 16 && (c == DIGITS[n] || c == CAPITALS[n]) }

  /** The nibble of a character is what it is the digit for, and there is none for any other character. */
  lemma NibbleMeans(c: byte)
    ensures Nibble(c) < 16 ==> IsDigitFor(c, Nibble(c))
    ensures forall n :: IsDigitFor(c, n) ==> Nibble(c) == n
  {
    forall n | IsDigitFor(c, n) ensures Nibble(c) == n {
      DigitsRead(n);
    }
    if Nibble(c) < 16 {
      DigitsRead(Nibble(c));
    }
  }

  lemma DigitsRead(n: byte)
    requires n < 16
    ensures DIGITS[n] == Lut(n) == (if n < 10 then 48 + n else 87 + n) && CAPITALS[n] == if n < 10 then 48 + n else 55 + n
  {
  }

  /** A byte is 16 times its high nibble plus the low one. */
  lemma NibblesAre(b: byte)
    ensures High(b) == b / 16 && Low(b) == b % 16
  {
  }

  /** `t` is digest `d` as two digits for each byte, high nibble first, each digit small or capital. */
  ghost predicate WritesOut(t: seq<byte>, d: seq<byte>) {
    |t| == 2 * |d|
    && forall i :: 0 <= i < |d| ==> IsDigitFor(t[2 * i], d[i] / 16) && IsDigitFor(t[2 * i + 1], d[i] % 16)
  }

  lemma WritesAt(t: seq<byte>, d: seq<byte>, i: nat)
    requires i < |d| && |t| == 2 * |d| && IsDigitFor(t[2 * i], d[i] / 16) && IsDigitFor(t[2 * i + 1], d[i] % 16)
    ensures IsHex(t[2 * i]) && IsHex(t[2 * i + 1]) && Joined(Nibble(t[2 * i]), Nibble(t[2 * i + 1])) == d[i]
  {
    NibbleMeans(t[2 * i]);
    NibbleMeans(t[2 * i + 1]);
    NibblesAre(d[i]);
    NibbleBack(d[i]);
  }

  /** A digest written out with small or capital digits is read as that digest. */
  lemma HexReads(t: seq<byte>, d: seq<byte>)
    requires |d| == 32 && WritesOut(t, d)
    ensures OfHex(t) == Some(d)
  {
    forall k | 0 <= k < 64 ensures IsHex(t[k]) {
      WritesAt(t, d, k / 2);
    }
    forall i | 0 <= i < 32 ensures Joined(Nibble(t[2 * i]), Nibble(t[2 * i + 1])) == d[i] {
      WritesAt(t, d, i);
    }
    assert OfHex(t).value == d;
  }

  /** Printing a digest writes it out, in small letters, so a digest printed and parsed again is the same digest. */
  lemma HexRoundTrip(d: seq<byte>)
    requires |d| == 32
    ensures WritesOut(ToHex(d), d) && OfHex(ToHex(d)) == Some(d)
    ensures forall k :: 0 <= k < 64 ==> ToHex(d)[k] in DIGITS
  {
    var t := ToHex(d);
    ToHexAt(d, 0);
    forall i | 0 <= i < 32 ensures IsDigitFor(t[2 * i], d[i] / 16) && IsDigitFor(t[2 * i + 1], d[i] % 16) {
      ToHexAt(d, i);
      NibblesAre(d[i]);
      DigitsRead(d[i] / 16);
      DigitsRead(d[i] % 16);
    }
    forall k | 0 <= k < 64 ensures t[k] in DIGITS {
      ToHexAt(d, k / 2);
      DigitsRead(High(d[k / 2]));
      DigitsRead(Low(d[k / 2]));
    }
    HexReads(t, d);
  }

  /** Text that is read as a digest writes it out: nothing else is accepted. */
  lemma HexAccepts(t: seq<byte>)
    requires OfHex(t).Some?
    ensures WritesOut(t, OfHex(t).value)
  {
    var d := OfHex(t).value;
    forall i | 0 <= i < 32 ensures IsDigitFor(t[2 * i], d[i] / 16) && IsDigitFor(t[2 * i + 1], d[i] % 16) {
      NibbleMeans(t[2 * i]);
      NibbleMeans(t[2 * i + 1]);
      JoinedParts(Nibble(t[2 * i]), Nibble(t[2 * i + 1]));
    }
  }

  lemma JoinedParts(hi: byte, lo: byte)
    requires hi < 16 && lo < 16
    ensures Joined(hi, lo) / 16 == hi && Joined(hi, lo) % 16 == lo
  {
  }
}
