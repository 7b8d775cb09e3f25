/** The 4 KB flash image of a stored script (src/storage/scripts.c): header, checksum, body. */
module ScriptSlot {
  import opened Bytes
  import opened CLib
  import opened Crc32
  import opened FlashMap
  import opened Lengths
  import opened ShiftRegister

  const NAME_MAX: nat := 31
  const HEADER: nat := 64
  const BODY_MAX: nat := SCRIPT_SLOT_SIZE - HEADER
  const MAGIC: seq<byte> := [0x50, 0x52, 0x43, 0x53]
  const VERSION: seq<byte> := [1, 0]

  // ---- Writing -------------------------------------------------------------------------

  predicate NameChar(c: byte) {
    65 <= c <= 90 || 97 <= c <= 122 || 48 <= c <= 57 || c == 95 || c == 45 || c == 46
  }

  /** Letters, digits, underscore, hyphen and dot. */
  lemma NameChars(c: byte)
    ensures NameChar(c) <==>
      || 'A' as int <= c as int <= 'Z' as int || 'a' as int <= c as int <= 'z' as int || '0' as int <= c as int <= '9' as int
      || c as int == '_' as int || c as int == '-' as int || c as int == '.' as int
  {
  }

  predicate ValidName(name: seq<byte>) {
    name != [] && |name| <= NAME_MAX && forall i :: 0 <= i < |name| ==> NameChar(name[i])
  }

  predicate Storable(name: seq<byte>, body: seq<byte>) { ValidName(name) && |body| <= BODY_MAX }

  /** `script_header_t`. */
  function Header(name: seq<byte>, len: nat, crc: seq<byte>): (h: seq<byte>)
    requires |name| <= NAME_MAX && |crc| == 4
    ensures |h| == HEADER
  {
    MAGIC + VERSION + [0, 0] + (name + Fill(32 - |name|, 0)) + LenBytes(len) + crc + Fill(16, 0xFF)
  }

  function CrcOf(name: seq<byte>, body: seq<byte>): bv32
    requires |name| <= NAME_MAX
  {
    Crc(Header(name, |body|, Fill(4, 0)) + body)
  }

  /** What `scripts_save` programs. */
  function Image(name: seq<byte>, body: seq<byte>): (s: seq<byte>)
    requires |name| <= NAME_MAX && |body| <= BODY_MAX
    ensures |s| == SCRIPT_SLOT_SIZE
  {
    Header(name, |body|, Le32(CrcOf(name, body))) + body + Fill(BODY_MAX - |body|, 0xFF)
  }

  // ---- Reading -------------------------------------------------------------------------

  /** `slot_valid`: the checksum is not looked at. */
  predicate SlotValid(s: seq<byte>)
    requires |s| == SCRIPT_SLOT_SIZE
  {
    s[..4] == MAGIC && s[4..6] == VERSION
  }

  /** The first 31 characters, all that `strncmp` compares. */
  function Short(name: seq<byte>): seq<byte> { if |name| > NAME_MAX then name[..NAME_MAX] else name }

  function NameOf(s: seq<byte>): seq<byte>
    requires |s| == SCRIPT_SLOT_SIZE
  {
    Short(CString(s[8..40], 0))
  }

  /** The slot up to its body's end, with the checksum field zeroed. */
  function Checked(s: seq<byte>, len: nat): seq<byte>
    requires |s| == SCRIPT_SLOT_SIZE && len <= BODY_MAX
  {
    s[..44] + Fill(4, 0) + s[48..HEADER + len]
  }

  function BodyOf(s: seq<byte>): Option<seq<byte>>
    requires |s| == SCRIPT_SLOT_SIZE
  {
    var len := LenOf(s[40..44]);
    if len > BODY_MAX then None
    else if Crc(Checked(s, len)) != OfLe32(s[44..48]) then None
    else Some(s[HEADER..HEADER + len])
  }

  // ---- What is written reads back ----------------------------------------------------------

  lemma HeaderParts(name: seq<byte>, len: nat, crc: seq<byte>)
    requires |name| <= NAME_MAX && |crc| == 4
    ensures var h := Header(name, len, crc);
      && h[..4] == MAGIC == Le32(0x53435250) && h[4..6] == VERSION == [1, 0] && h[6..8] == [0, 0]
      && h[8..40] == name + Fill(32 - |name|, 0)
      && h[40..44] == LenBytes(len) && h[44..48] == crc && h[48..64] == Fill(16, 0xFF)
      && h[..44] == Header(name, len, Fill(4, 0))[..44]
  {
  }

  lemma NameField(name: seq<byte>)
    requires |name| <= NAME_MAX && NoNul(name)
    ensures CString(name + Fill(32 - |name|, 0), 0) == name
  {
    StringEnds(name + Fill(32 - |name|, 0), 0, name);
  }

  lemma ImageParts(name: seq<byte>, body: seq<byte>)
    requires |name| <= NAME_MAX && |body| <= BODY_MAX
    ensures var s := Image(name, body);
      var h := Header(name, |body|, Le32(CrcOf(name, body)));
      && s[..HEADER] == h && s[HEADER..HEADER + |body|] == body && s[48..HEADER + |body|] == h[48..64] + body
      && s[..4] == h[..4] && s[4..6] == h[4..6] && s[8..40] == h[8..40] && s[40..44] == h[40..44]
      && s[44..48] == h[44..48] && s[..44] == h[..44]
  {
  }

  /** A saved image is valid, carries its name, and gives back its body. */
  lemma ImageReads(name: seq<byte>, body: seq<byte>)
    requires Storable(name, body)
    ensures var s := Image(name, body); SlotValid(s) && NameOf(s) == name && BodyOf(s) == Some(body)
  {
    var s := Image(name, body);
    var crc := Le32(CrcOf(name, body));
    ImageParts(name, body);
    HeaderParts(name, |body|, crc);
    HeaderParts(name, |body|, Fill(4, 0));
    NameField(name);
    LenRoundTrip(|body|);
    Le32RoundTrip(CrcOf(name, body));
    var z := Header(name, |body|, Fill(4, 0));
    assert z == z[..44] + z[44..48] + z[48..64];
    assert Checked(s, |body|) == z[..44] + Fill(4, 0) + (z[48..64] + body);
    assert Checked(s, |body|) == z + body;
  }

  // ---- Damage ------------------------------------------------------------------------------

  /** Damage within four bytes of the name or the body, or within the checksum. */
  predicate Damaged(s: seq<byte>, t: seq<byte>, len: nat, k: nat)
    requires |s| == |t| == SCRIPT_SLOT_SIZE && len <= BODY_MAX
  {
    && (k + 4 <= 40 || k == 44 || (48 <= k && k + 4 <= HEADER + len)) && s[..HEADER + len] != t[..HEADER + len]
    && forall i :: 0 <= i < HEADER + len && !(k <= i < k + 4) ==> s[i] == t[i]
  }

  lemma CheckedAt(s: seq<byte>, len: nat, i: nat)
    requires |s| == SCRIPT_SLOT_SIZE && len <= BODY_MAX && i < HEADER + len
    ensures |Checked(s, len)| == HEADER + len && Checked(s, len)[i] == if 44 <= i < 48 then 0 else s[i]
  {
  }

  lemma DamageShows(s: seq<byte>, t: seq<byte>, len: nat, k: nat)
    requires |s| == |t| == SCRIPT_SLOT_SIZE && len <= BODY_MAX && Damaged(s, t, len, k) && k != 44
    ensures Burst(Checked(s, len), Checked(t, len), k) && s[44..48] == t[44..48]
  {
    var (a, b) := (Checked(s, len), Checked(t, len));
    forall i | 0 <= i < HEADER + len
      ensures a[i] == (if 44 <= i < 48 then 0 else s[i]) && b[i] == if 44 <= i < 48 then 0 else t[i]
    {
      CheckedAt(s, len, i);
      CheckedAt(t, len, i);
    }
    var i :| 0 <= i < HEADER + len && s[..HEADER + len][i] != t[..HEADER + len][i];
    assert a[i] == s[i] && b[i] == t[i];
  }

  /** A stored body whose slot was damaged like that is not given back. */
  lemma DamageFound(s: seq<byte>, t: seq<byte>, k: nat)
    requires |s| == |t| == SCRIPT_SLOT_SIZE && BodyOf(s).Some? && Damaged(s, t, LenOf(s[40..44]), k)
    ensures BodyOf(t) == None
  {
    var len := LenOf(s[40..44]);
    assert s[40..44] == t[40..44];
    if k == 44 {
      forall i | 0 <= i < HEADER + len ensures Checked(s, len)[i] == Checked(t, len)[i] {
        CheckedAt(s, len, i);
        CheckedAt(t, len, i);
      }
      assert Checked(s, len) == Checked(t, len);
      OfLe32RoundTrip(s[44..48]);
      OfLe32RoundTrip(t[44..48]);
      SameOutside(s, t, HEADER + len);
    } else {
      DamageShows(s, t, len, k);
      BurstDetected(Checked(s, len), Checked(t, len), k);
    }
  }

  lemma SameOutside(s: seq<byte>, t: seq<byte>, n: nat)
    requires 48 <= n <= |s| == |t| && s[..n] != t[..n] && forall i :: 0 <= i < n && !(44 <= i < 48) ==> s[i] == t[i]
    ensures s[44..48] != t[44..48]
  {
    var i :| 0 <= i < n && s[..n][i] != t[..n][i];
    assert s[44..48][i - 44] == s[i] && t[44..48][i - 44] == t[i];
  }
}
