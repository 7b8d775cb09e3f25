/** The bootloader's decision (picow-ota/bootloader/main.c). */
module Bootloader {
  import opened Bytes
  import opened Flash
  import opened Metadata

  // ---- Slots --------------------------------------------------------------------

  function SlotImage(m: seq<byte>, s: Slot): (b: seq<byte>)
    requires |m| == SIZE
    ensures |b| == SLOT_SIZE
  {
    m[SlotBase(s)..SlotBase(s) + SLOT_SIZE]
  }

  /**
   The initial stack pointer and the entry address 256 bytes into a slot are plausible. Only its dependence on the
   slot's bytes matters to the proofs; the countdown keeps the verifier from expanding it.
   */
  predicate LooksValid(slot: seq<byte>, countdown: nat := 4)
    requires |slot| == SLOT_SIZE
  {
    if countdown > 0 then LooksValid(slot, countdown - 1)
    else
      var sp := OfLe32(slot[256..260]);
      var entry := OfLe32(slot[260..264]);
      && 0x20000000 <= sp <= 0x20042000
      && entry & 1 != 0
      && 0x10000000 <= entry <= 0x10200000
  }

  lemma LooksValidIs(slot: seq<byte>)
    requires |slot| == SLOT_SIZE
    ensures LooksValid(slot) == LooksValid(slot, 0)
  {
    assert LooksValid(slot, 2) == LooksValid(slot, 1) == LooksValid(slot, 0);
    assert LooksValid(slot, 4) == LooksValid(slot, 3) == LooksValid(slot, 2);
  }

  /**
   An image whose vector table holds the little-endian words `sp` and `entry` is taken when the stack lies in the 264 KB
   of SRAM and the entry is a Thumb address in the 2 MB of flash.
   */
  lemma VectorsTaken(slot: seq<byte>, sp: bv32, entry: bv32)
    requires |slot| == SLOT_SIZE && slot[256..260] == Le32(sp) && slot[260..264] == Le32(entry)
    ensures LooksValid(slot) <==>
      0x20000000 <= sp <= 0x20000000 + 264 * 1024 && entry % 2 == 1 && 0x10000000 <= entry <= 0x10000000 + 2 * 1024 * 1024
  {
    LooksValidIs(slot);
    Le32RoundTrip(sp);
    Le32RoundTrip(entry);
  }

  /** An erased slot is not taken. */
  lemma BlankNotTaken()
    ensures !LooksValid(Fill(SLOT_SIZE, 0xFF))
  {
    var slot := Fill(SLOT_SIZE, 0xFF);
    assert slot[256..260] == [0xFF, 0xFF, 0xFF, 0xFF] == Le32(0xFFFFFFFF);
    assert slot[260..264] == [0xFF, 0xFF, 0xFF, 0xFF];
    VectorsTaken(slot, 0xFFFFFFFF, 0xFFFFFFFF);
  }

  /** Two images that agree on everything but the metadata sector. */
  lemma SlotsKept(m: seq<byte>, w: seq<byte>)
    requires OnlyMeta(m, w)
    ensures forall s: Slot :: SlotImage(w, s) == SlotImage(m, s)
  {
    forall s: Slot ensures SlotImage(w, s) == SlotImage(m, s) {
      var b := SlotBase(s);
      assert SlotImage(w, s) == w[..META][b..b + SLOT_SIZE];
      assert SlotImage(m, s) == m[..META][b..b + SLOT_SIZE];
    }
  }

  // ---- The decision --------------------------------------------------------------

  datatype Outcome = Reboot | Jump(slot: Slot) | Bootsel

  /** What a boot leaves in the metadata sector, whether it rewrote it, and where it ends. */
  datatype Decision = Decision(record: Option<Record>, wrote: bool, outcome: Outcome)

  function Flip(b: byte): byte { b ^ 1 }

  /** The other slot, off probation. */
  function Cleared(r: Record): Record { r.(active := Flip(r.active), pending := 0, attempts := 0) }

  /** One more unconfirmed boot. */
  function Counted(r: Record): Record { r.(attempts := r.attempts + 1) }

  predicate Exhausted(r: Record) { r.pending != 0 && r.attempts >= 3 }

  /** The decision, from the stored record and from which slots look valid. */
  function Boot(v: View): Decision {
    if v.record.None? then
      if v.a then Decision(Some(Fresh(0)), true, Jump(0)) else Decision(None, false, Bootsel)
    else
      var r := v.record.value;
      if Exhausted(r) then Decision(Some(Cleared(r)), true, Reboot)
      else BootSlot(if r.pending != 0 then Counted(r) else r, v.a, v.b)
  }

  /** The choice between the active slot and the other one, once the attempt is counted. */
  function BootSlot(r: Record, a: bool, b: bool): Decision {
    var slot := Active(r);
    if Pick(slot, a, b) then Decision(Some(r), r.pending != 0, Jump(slot))
    else if Pick(Other(slot), a, b) then Decision(Some(Cleared(r)), true, Jump(Other(slot)))
    else Decision(Some(r), r.pending != 0, Bootsel)
  }

  predicate Pick(s: Slot, a: bool, b: bool) { if s == 0 then a else b }

  predicate ValidIn(m: seq<byte>, s: Slot)
    requires |m| == SIZE
  {
    LooksValid(SlotImage(m, s))
  }

  /** A flash image as a boot sees it: the stored record, which slots look valid, and the rest of the bytes. */
  datatype View = View(record: Option<Record>, a: bool, b: bool, low: seq<byte>, high: seq<byte>)

  function See(m: seq<byte>): View
    requires |m| == SIZE
  {
    View(Stored(m), ValidIn(m, 0), ValidIn(m, 1), m[..META], m[META + META_SIZE..])
  }

  // ---- The code ------------------------------------------------------------------

  lemma WriteSeen(m: seq<byte>, r: Record)
    requires |m| == SIZE && Shaped(r)
    ensures See(Written(m, r)) == See(m).(record := Some(r)) && See(Wiped(m)) == See(m).(record := None)
  {
    WrittenReads(m, r);
    SlotsKept(m, Written(m, r));
    WipedReads(m);
    SlotsKept(m, Wiped(m));
  }

  /** `torn` is what flash holds between the erase and the program. */
  method WriteMetadata(flash: Device, r: Record) returns (ghost torn: seq<byte>)
    requires flash.Valid() && Shaped(r)
    modifies flash.mem
    ensures See(flash.mem[..]) == See(old(flash.mem[..])).(record := Some(r))
    ensures |torn| == SIZE && See(torn) == See(old(flash.mem[..])).(record := None)
  {
    WriteSeen(flash.mem[..], r);
    var page := RecordPage(r);
    flash.RangeErase(META, SECTOR);
    torn := flash.mem[..];
    flash.RangeProgram(META, page);
  }

  method SlotLooksValid(flash: Device, s: Slot) returns (ok: bool)
    requires flash.Valid()
    ensures ok == if s == 0 then See(flash.mem[..]).a else See(flash.mem[..]).b
  {
    var image := flash.mem[SlotBase(s)..SlotBase(s) + SLOT_SIZE];
    assert image == SlotImage(flash.mem[..], s);
    ok := LooksValid(image);
  }

  method ReadRecord(flash: Device) returns (ok: bool, r: Record)
    requires flash.Valid()
    ensures See(flash.mem[..]).record == if ok then Some(r) else None
    ensures Shaped(r)
  {
    ok, r := ReadMetadata(flash);
  }

  /** `jump_to_slot` repeats the plausibility test before it jumps. */
  method JumpToSlot(flash: Device, s: Slot) returns (out: Outcome)
    requires flash.Valid()
    ensures out == if Pick(s, See(flash.mem[..]).a, See(flash.mem[..]).b) then Jump(s) else Bootsel
  {
    var ok := SlotLooksValid(flash, s);
    out := if ok then Jump(s) else Bootsel;
  }

  /** The second half of `main`: boot the active slot or fall back to the other one. */
  method BootActive(flash: Device, meta0: Record) returns (out: Outcome, ghost torn: seq<byte>)
    requires flash.Valid() && See(flash.mem[..]).record == Some(meta0) && Shaped(meta0)
    modifies flash.mem
    ensures var v := See(old(flash.mem[..]));
      var d := BootSlot(meta0, v.a, v.b);
      && out == d.outcome && See(flash.mem[..]) == v.(record := d.record)
      && (out != Jump(Other(Active(meta0))) ==> flash.mem[..] == old(flash.mem[..]))
      && (out == Jump(Other(Active(meta0))) ==> |torn| == SIZE && See(torn) == v.(record := None))
  {
    torn := flash.mem[..];
    var meta := meta0;
    var slot: Slot := if meta.active == 0 then 0 else 1;
    var ok := SlotLooksValid(flash, slot);
    if !ok {
      var other := Other(slot);
      var ok2 := SlotLooksValid(flash, other);
      if ok2 {
        meta := Cleared(meta);
        torn := WriteMetadata(flash, meta);
        out := JumpToSlot(flash, other);
        return;
      }
      return Bootsel, torn;
    }
    out := JumpToSlot(flash, slot);
  }

  /** The record is on probation with an attempt left. */
  predicate Counts(stored: Option<Record>) { stored.Some? && stored.value.pending != 0 && !Exhausted(stored.value) }

  /**
   `main`. `cut` is what flash holds once the attempt is counted, before anything else is written; `torn` is what it holds
   between the erase and the program of the last record written.
   */
  method BootMain(flash: Device) returns (out: Outcome, ghost cut: seq<byte>, ghost torn: seq<byte>)
    requires flash.Valid()
    modifies flash.mem
    ensures var v := See(old(flash.mem[..]));
      var d := Boot(v);
      && out == d.outcome && See(flash.mem[..]) == v.(record := d.record)
      && (!d.wrote ==> flash.mem[..] == old(flash.mem[..]))
      && |cut| == SIZE && See(cut) == if Counts(v.record) then v.(record := Some(Counted(v.record.value))) else v
    ensures var v := See(old(flash.mem[..])); |torn| == SIZE && See(torn) == if Boot(v).wrote then v.(record := None) else v
  {
    cut, torn := flash.mem[..], flash.mem[..];
    var valid, meta := ReadRecord(flash);
    if !valid {
      var a := SlotLooksValid(flash, 0);
      if a {
        meta := Fresh(0);
        torn := WriteMetadata(flash, meta);
        out := JumpToSlot(flash, 0);
        return;
      }
      return Bootsel, cut, torn;
    }
    if Exhausted(meta) {
      meta := Cleared(meta);
      torn := WriteMetadata(flash, meta);
      return Reboot, cut, torn;
    }
    if meta.pending != 0 {
      meta := Counted(meta);
      torn := WriteMetadata(flash, meta);
      cut := flash.mem[..];
    }
    ghost var torn2;
    out, torn2 := BootActive(flash, meta);
    torn := if out == Jump(Other(Active(meta))) then torn2 else torn;
  }
}
