/** The C library functions the program leans on, on byte strings. */
module CLib {
  import opened Bytes

  const TAB: byte := 9
  const LF: byte := 10
  const CR: byte := 13
  const SPACE: byte := 32

  // ---- Strings -------------------------------------------------------------------

  predicate IsWs(c: byte) { c == SPACE || c == TAB }

  function SkipWs(s: seq<byte>): (r: seq<byte>)
    ensures |r| <= |s|
    ensures r != [] ==> !IsWs(r[0])
  {
    if s != [] && IsWs(s[0]) then SkipWs(s[1..]) else s
  }

  /** The C string that starts at `p` in a buffer. */
  function CString(b: seq<byte>, p: nat): seq<byte>
    requires p <= |b|
    decreases |b| - p
  {
    if p == |b| || b[p] == 0 then [] else [b[p]] + CString(b, p + 1)
  }

  predicate NoNul(t: seq<byte>) { forall i :: 0 <= i < |t| ==> t[i] != 0 }

  lemma {:induction false} NoNulText(t: seq<byte>, p: nat)
    requires NoNul(t) && p <= |t|
    ensures CString(t, p) == t[p..]
    decreases |t| - p
  {
    if p < |t| {
      NoNulText(t, p + 1);
      assert [t[p]] + t[p + 1..] == t[p..];
    }
  }

  /** A string in a buffer is what reading from its start up to the terminator gives. */
  lemma {:induction false} StringEnds(b: seq<byte>, p: nat, t: seq<byte>)
    requires p + |t| < |b| && b[p..p + |t|] == t && NoNul(t) && b[p + |t|] == 0
    ensures CString(b, p) == t
    decreases |t|
  {
    if t != [] {
      SliceAt(b, p, p + |t|, 0);
      SliceOfSlice(b, p, p + |t|, 1, |t|);
      StringEnds(b, p + 1, t[1..]);
    }
  }

  /** What is read from `p` on: characters up to a terminator, or to the end. */
  lemma {:induction false} CStringNoNul(b: seq<byte>, p: nat)
    requires p <= |b|
    ensures NoNul(CString(b, p)) && p + |CString(b, p)| <= |b|
    ensures p + |CString(b, p)| < |b| ==> b[p + |CString(b, p)|] == 0
    ensures CString(b, p) == b[p..p + |CString(b, p)|]
    decreases |b| - p
  {
    if p < |b| && b[p] != 0 {
      CStringNoNul(b, p + 1);
    }
  }

  /** `strchr`: the text from the first `c` on. */
  function FromByte(t: seq<byte>, c: byte): (r: Option<seq<byte>>)
    ensures r.Some? ==> r.value != []
  {
    if t == [] then None else if t[0] == c then Some(t) else FromByte(t[1..], c)
  }

  // ---- Numbers -------------------------------------------------------------------

  predicate IsSpace(c: byte) { c == 32 || c == 9 || c == 10 || c == 11 || c == 12 || c == 13 }

  function Digit(d: nat): byte
    requires d < 10
  {
    if d == 0 then 48 else if d == 1 then 49 else if d == 2 then 50 else if d == 3 then 51 else if d == 4 then 52
    else if d == 5 then 53 else if d == 6 then 54 else if d == 7 then 55 else if d == 8 then 56 else 57
  }

  /** The value of a decimal digit; 10 for any other character. */
  function DigitValue(c: byte): nat {
    if c == 48 then 0 else if c == 49 then 1 else if c == 50 then 2 else if c == 51 then 3 else if c == 52 then 4
    else if c == 53 then 5 else if c == 54 then 6 else if c == 55 then 7 else if c == 56 then 8 else if c == 57 then 9
    else 10
  }

  predicate StartsDigit(t: seq<byte>) { t != [] && DigitValue(t[0]) < 10 }

  function SkipSpace(t: seq<byte>): seq<byte> {
    if t != [] && IsSpace(t[0]) then SkipSpace(t[1..]) else t
  }

  /** The number at the front of `t`, on top of the digits `acc` read before. */
  function Number(t: seq<byte>, acc: nat): nat {
    if StartsDigit(t) then Number(t[1..], acc * 10 + DigitValue(t[0])) else acc
  }

  function Unsigned(t: seq<byte>): nat {
    Number(if t != [] && (t[0] == 43 || t[0] == 45) then t[1..] else t, 0)
  }

  predicate Minus(t: seq<byte>) { t != [] && t[0] == 45 }

  const INT_MAX: int := 0x7FFF_FFFF
  const INT_MIN: int := -0x8000_0000
  const ULONG_MAX: nat := 0xFFFF_FFFF

  /** `atoi`, saturating. */
  function Atoi(t: seq<byte>): int {
    var s := SkipSpace(t);
    var v: int := Unsigned(s);
    if Minus(s) then (if v > INT_MAX then INT_MIN else -v) else if v > INT_MAX then INT_MAX else v
  }

  /** `strtoul(t, NULL, 10)` with 32-bit longs: saturating, and a minus sign negates modulo 2^32. */
  function Strtoul(t: seq<byte>): (n: nat)
    ensures n <= ULONG_MAX
  {
    var s := SkipSpace(t);
    var v := Unsigned(s);
    if v > ULONG_MAX then ULONG_MAX else if Minus(s) && v > 0 then ULONG_MAX + 1 - v else v
  }

  function Decimal(n: nat): seq<byte> {
    if n < 10 then [Digit(n)] else Decimal(n / 10) + [Digit(n % 10)]
  }

  lemma DigitReads(d: nat)
    requires d < 10
    ensures DigitValue(Digit(d)) == d && !IsSpace(Digit(d)) && Digit(d) != 43 && Digit(d) != 45
    ensures Digit(d) != 0 && Digit(d) != 13 && Digit(d) != 32 && Digit(d) != 9
  {
  }

  /** Digits are the characters "0" to "9", in order, and nothing else has a digit's value. */
  lemma DigitsAre(c: byte)
    ensures DigitValue(c) < 10 <==> '0' as int <= c as int <= '9' as int
    ensures DigitValue(c) < 10 ==> c as int == '0' as int + DigitValue(c) && Digit(DigitValue(c)) == c
  {
  }

  lemma {:induction false} DecimalDigits(n: nat)
    ensures Decimal(n) != [] && forall i :: 0 <= i < |Decimal(n)| ==> exists d: nat :: d < 10 && Decimal(n)[i] == Digit(d)
  {
    if n >= 10 {
      DecimalDigits(n / 10);
      assert Decimal(n)[|Decimal(n)| - 1] == Digit(n % 10);
    } else {
      assert Decimal(n)[0] == Digit(n);
    }
  }

  /** Reading a written number gives it back, whatever follows it. */
  lemma {:induction false} NumberReads(n: nat, rest: seq<byte>)
    ensures Number(Decimal(n) + rest, 0) == Number(rest, n)
  {
    var d := Digit(n % 10);
    DigitReads(n % 10);
    var tail := [d] + rest;
    assert tail[1..] == rest;
    if n < 10 {
      assert Decimal(n) + rest == tail;
    } else {
      assert Decimal(n) + rest == Decimal(n / 10) + tail;
      NumberReads(n / 10, tail);
    }
  }

  /** Writing another digit behind a number makes it ten times as much and that digit more. */
  lemma {:induction false} NumberMore(t: seq<byte>, acc: nat, d: nat)
    requires d < 10 && forall i :: 0 <= i < |t| ==> 48 <= t[i] <= 57
    ensures Number(t + [Digit(d)], acc) == 10 * Number(t, acc) + d
  {
    DigitReads(d);
    if t != [] {
      DigitsAre(t[0]);
      var s := t + [Digit(d)];
      assert s[0] == t[0] && s[1..] == t[1..] + [Digit(d)];
      NumberMore(t[1..], acc * 10 + DigitValue(t[0]), d);
    } else {
      DigitsAre(Digit(d));
      assert (t + [Digit(d)])[1..] == [];
    }
  }

  lemma SpaceIs(c: byte)
    ensures IsSpace(c) <==> c == 32 || 9 <= c <= 13
  {
  }

  /** The white space of `isspace`. */
  predicate Spaces(g: seq<byte>) { forall i :: 0 <= i < |g| ==> g[i] == 32 || 9 <= g[i] <= 13 }

  lemma {:induction false} SpacesSkipped(g: seq<byte>, t: seq<byte>)
    requires Spaces(g)
    ensures SkipSpace(g + t) == SkipSpace(t)
  {
    if g == [] {
      assert g + t == t;
    } else {
      SpaceIs(g[0]);
      assert (g + t)[1..] == g[1..] + t;
      SpacesSkipped(g[1..], t);
    }
  }

  /** Nothing, a plus or a minus. */
  predicate IsSign(sign: seq<byte>) { sign == [] || sign == [43] || sign == [45] }

  /** White space, a sign, a number and something else. */
  lemma SignedReads(gap: seq<byte>, sign: seq<byte>, n: nat, rest: seq<byte>)
    requires Spaces(gap) && IsSign(sign) && !StartsDigit(rest)
    ensures var s := SkipSpace(gap + (sign + (Decimal(n) + rest)));
      s == sign + (Decimal(n) + rest) && Unsigned(s) == n && (Minus(s) <==> sign == [45])
  {
    var t := Decimal(n) + rest;
    var s := sign + t;
    DecimalStarts(n, rest);
    NumberReads(n, rest);
    SpacesSkipped(gap, s);
    if sign == [] {
      assert s == t;
    } else {
      assert s[0] == sign[0] && s[1..] == t;
    }
  }

  /** What `atoi` and `strtoul` make of a number. */
  lemma NumbersRead(gap: seq<byte>, sign: seq<byte>, n: nat, rest: seq<byte>)
    requires Spaces(gap) && IsSign(sign) && !StartsDigit(rest)
    ensures var (t, m: int) := (gap + (sign + (Decimal(n) + rest)), n);
      && (Atoi(t) == if sign != [45] then (if m <= 0x7FFF_FFFF then m else 0x7FFF_FFFF)
        else if m <= 0x8000_0000 then -m else -0x8000_0000)
      && (Strtoul(t) == if n > 0xFFFF_FFFF then 0xFFFF_FFFF else if sign == [45] && n > 0 then 0x1_0000_0000 - n else n)
  {
    SignedReads(gap, sign, n, rest);
  }

  lemma DecimalStarts(n: nat, rest: seq<byte>)
    ensures var t := Decimal(n) + rest;
      t != [] && !IsSpace(t[0]) && t[0] != 43 && t[0] != 45 && t[0] != 32 && t[0] != 9
  {
  }

  /** A number below the `k`-th power of ten has at most `k` digits. */
  lemma {:induction false} DecimalShort(n: nat, k: nat, power: nat)
    requires k > 0 && power == PowerOfTen(k) && n < power
    ensures |Decimal(n)| <= k
  {
    if n >= 10 {
      DecimalShort(n / 10, k - 1, power / 10);
    }
  }

  function PowerOfTen(k: nat): nat { if k == 0 then 1 else 10 * PowerOfTen(k - 1) }

  lemma TenBillion()
    ensures PowerOfTen(10) == 10000000000
  {
    assert PowerOfTen(4) == 10000;
    assert PowerOfTen(8) == 100000000;
  }
}
