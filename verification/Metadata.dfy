/** The OTA metadata record: layout, checksum, and how it is written to and read from its sector. */
module Metadata {
  import opened Bytes
  import opened Crc32
  import opened Flash
  import opened ShiftRegister

  // ---- Flash layout (picow-ota/include/pico_ota/metadata.h) -----------------------------

  const BOOTLOADER_SIZE: nat := 16 * 1024
  const SLOT_A: nat := BOOTLOADER_SIZE
  const SLOT_SIZE: nat := 768 * 1024
  const SLOT_B: nat := SLOT_A + SLOT_SIZE
  const META: nat := SLOT_B + SLOT_SIZE
  const META_SIZE: nat := 4096

  /** A slot number: 0 is A, 1 is B. */
  type Slot = s: nat | s < 2

  function Other(s: Slot): Slot { 1 - s }

  function SlotBase(s: Slot): nat { if s == 0 then SLOT_A else SLOT_B }

  // ---- The record -----------------------------------------------------------------

  /** `ota_metadata_t` without its magic, version and CRC, which are the same for every record written. */
  datatype Record = Record(
    active: byte, pending: byte, attempts: byte, reserved: seq<byte>,
    size_a: bv32, size_b: bv32, sha_a: seq<byte>, sha_b: seq<byte>)

  ghost predicate Shaped(r: Record) {
    |r.reserved| == 3 && |r.sha_a| == 32 && |r.sha_b| == 32
  }

  const MAGIC: seq<byte> := [0x31, 0x41, 0x54, 0x4F]
  const VERSION: seq<byte> := [1, 0]
  const BODY: nat := 84
  const RECORD: nat := 88

  /** The bytes the CRC covers: everything but the CRC field. */
  function Body(r: Record): (b: seq<byte>)
    requires Shaped(r)
    ensures |b| == BODY
  {
    MAGIC + VERSION + [r.active, r.pending, r.attempts] + r.reserved +
    Le32(r.size_a) + Le32(r.size_b) + r.sha_a + r.sha_b
  }

  function Encode(r: Record): (b: seq<byte>)
    requires Shaped(r)
    ensures |b| == RECORD
  {
    Body(r) + Le32(Crc(Body(r)))
  }

  function Fields(b: seq<byte>): (r: Record)
    requires |b| == RECORD
    ensures Shaped(r)
  {
    Record(b[6], b[7], b[8], b[9..12], OfLe32(b[12..16]), OfLe32(b[16..20]), b[20..52], b[52..84])
  }

  /** `read_metadata` on the 88 bytes of the record. */
  function Decode(b: seq<byte>): Option<Record>
    requires |b| == RECORD
  {
    if b[..4] != MAGIC then None
    else if b[4..6] != VERSION then None
    else if Crc(b[..BODY]) != OfLe32(b[BODY..]) then None
    else Some(Fields(b))
  }

  /** Where the fields of a record stand. */
  lemma BodyParts(r: Record, b: seq<byte>)
    requires Shaped(r) && |b| == RECORD && b[..BODY] == Body(r)
    ensures b[..4] == Le32(0x4F544131) == MAGIC && b[4..6] == [1, 0] == VERSION
    ensures b[6] == r.active && b[7] == r.pending && b[8] == r.attempts && b[9..12] == r.reserved
    ensures b[12..16] == Le32(r.size_a) && b[16..20] == Le32(r.size_b)
    ensures b[20..52] == r.sha_a && b[52..84] == r.sha_b
  {
    var d := Body(r);
    assert d[..4] == MAGIC && d[4..6] == VERSION && d[6..9] == [r.active, r.pending, r.attempts];
    assert d[9..12] == r.reserved && d[12..16] == Le32(r.size_a) && d[16..20] == Le32(r.size_b);
    assert d[20..52] == r.sha_a && d[52..84] == r.sha_b;
    assert b[..4] == d[..4] && b[4..6] == d[4..6] && b[6] == d[6..9][0] && b[7] == d[6..9][1] && b[8] == d[6..9][2];
    assert b[9..12] == d[9..12] && b[12..16] == d[12..16] && b[16..20] == d[16..20];
    assert b[20..52] == d[20..52] && b[52..84] == d[52..84];
  }

  /** A record written reads back as itself. */
  lemma DecodeEncode(r: Record)
    requires Shaped(r)
    ensures Decode(Encode(r)) == Some(r)
  {
    var b := Encode(r);
    assert b[..BODY] == Body(r) && b[BODY..] == Le32(Crc(Body(r)));
    Le32RoundTrip(Crc(Body(r)));
    BodyParts(r, b);
    Le32RoundTrip(r.size_a);
    Le32RoundTrip(r.size_b);
  }

  /** Bytes that are accepted are the encoding of the record read from them. */
  lemma EncodeDecode(b: seq<byte>)
    requires |b| == RECORD && Decode(b).Some?
    ensures Encode(Decode(b).value) == b
  {
    var r := Fields(b);
    OfLe32RoundTrip(b[12..16]);
    OfLe32RoundTrip(b[16..20]);
    assert [b[6], b[7], b[8]] == b[6..9];
    assert b[..BODY] == b[..4] + b[4..6] + b[6..9] + b[9..12] + b[12..16] + b[16..20] + b[20..52] + b[52..84];
    assert Body(r) == b[..BODY];
    OfLe32RoundTrip(b[BODY..]);
    assert b == b[..BODY] + b[BODY..];
  }

  /** No accepted record differs from another only within four consecutive bytes. */
  lemma BurstRejected(b: seq<byte>, t: seq<byte>, k: nat)
    requires |b| == RECORD && Decode(b).Some? && Burst(b, t, k)
    ensures Decode(t) == None
  {
    if Decode(t).Some? {
      assert b[|b| - 4..] == b[BODY..] && t[|t| - 4..] == t[BODY..];
      assert SelfChecks(b) && SelfChecks(t);
      SelfCheckBurst(b, t, k);
    }
  }

  // ---- The sector -----------------------------------------------------------------

  /** The record in a flash image, if there is one. */
  function Stored(m: seq<byte>): Option<Record>
    requires |m| == SIZE
  {
    Decode(m[META..META + RECORD])
  }

  function PageOf(r: Record): (p: seq<byte>)
    requires Shaped(r)
    ensures |p| == PAGE
  {
    Encode(r) + Fill(PAGE - RECORD, 0xFF)
  }

  /** The image after the sector is erased, and after the record is programmed as well. */
  function Wiped(m: seq<byte>): (w: seq<byte>)
    requires |m| == SIZE
    ensures |w| == SIZE
  {
    Erased(m, META, SECTOR)
  }

  function Written(m: seq<byte>, r: Record): (w: seq<byte>)
    requires |m| == SIZE && Shaped(r)
    ensures |w| == SIZE
  {
    Programmed(Wiped(m), META, PageOf(r))
  }

  /** Everything but the metadata sector is as before. */
  ghost predicate OnlyMeta(m: seq<byte>, w: seq<byte>) {
    |m| == |w| == SIZE && w[..META] == m[..META] && w[META + META_SIZE..] == m[META + META_SIZE..]
  }

  lemma WipedReads(m: seq<byte>)
    requires |m| == SIZE
    ensures Stored(Wiped(m)) == None && OnlyMeta(m, Wiped(m))
  {
    var w := Wiped(m);
    assert w[META..META + RECORD][..4] == w[META..META + 4];
    assert w[META] == 0xFF;
    assert w[META..META + 4][0] == w[META];
  }

  lemma WrittenReads(m: seq<byte>, r: Record)
    requires |m| == SIZE && Shaped(r)
    ensures Stored(Written(m, r)) == Some(r) && OnlyMeta(m, Written(m, r))
  {
    var e := Wiped(m);
    assert e[META..META + PAGE] == Fill(PAGE, 0xFF);
    ProgramBlank(e, META, PageOf(r));
    var w := Written(m, r);
    assert w[META..META + RECORD] == Encode(r);
    DecodeEncode(r);
  }

  // ---- Reading and writing in code --------------------------------------------------

  /** `read_metadata`. */
  method ReadMetadata(flash: Device) returns (ok: bool, r: Record)
    requires flash.Valid()
    ensures Stored(flash.mem[..]) == if ok then Some(r) else None
    ensures Shaped(r)
  {
    var b := flash.mem[META..META + RECORD];
    assert b == flash.mem[..][META..META + RECORD];
    ok, r := false, Fields(b);
    if b[..4] != MAGIC {
      return;
    }
    if b[4..6] != VERSION {
      return;
    }
    var crc := PicoOtaCrc32(b[..BODY]);
    ok := crc == OfLe32(b[BODY..]);
  }

  method RecordPage(r: Record) returns (page: seq<byte>)
    requires Shaped(r)
    ensures page == PageOf(r)
  {
    var crc := PicoOtaCrc32(Body(r));
    page := Body(r) + Le32(crc) + Fill(PAGE - RECORD, 0xFF);
  }

  // ---- What the writers store --------------------------------------------------------

  /** A zeroed record that names slot `s`. */
  function Fresh(s: Slot): (r: Record)
    ensures Shaped(r)
  {
    Record(SlotByte(s), 0, 0, [0, 0, 0], 0, 0, Fill(32, 0), Fill(32, 0))
  }

  function SlotByte(s: Slot): byte { if s == 0 then 0 else 1 }

  /** The records this code writes: a real slot, a boolean flag, a counter within its limit that is 0 off probation. */
  ghost predicate WellFormed(r: Record) {
    && Shaped(r) && r.active <= 1 && r.pending <= 1 && r.attempts <= 3
    && (r.pending == 0 ==> r.attempts == 0)
  }

  function Active(r: Record): Slot { if r.active == 0 then 0 else 1 }

  /** `update_metadata` starts from the stored record, or from a fresh one that names the running slot. */
  function Base(stored: Option<Record>, running: Slot): Record {
    if stored.Some? then stored.value else Fresh(running)
  }

  /** `apply_mutator`: slot `t` becomes active, on probation, with its size and digest; the other entry is kept. */
  function Applied(r: Record, t: Slot, size: bv32, digest: seq<byte>): Record {
    var p := r.(active := SlotByte(t), pending := 1, attempts := 0);
    if t == 0 then p.(size_a := size, sha_a := digest) else p.(size_b := size, sha_b := digest)
  }

  /** `confirm_mutator`. */
  function Confirmed(r: Record): Record { r.(pending := 0, attempts := 0) }
}
