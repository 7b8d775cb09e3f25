/** The stored bindings: the 1692-byte record in its sector, saved compacted and installed again on load. */
module BindRecord {
  import opened Bindings
  import opened Bytes
  import opened CLib
  import opened Crc32
  import opened Flash
  import opened FlashMap
  import opened Lengths
  import opened ShiftRegister

  const ENTRY: nat := 105
  const NAME: nat := 97
  const BODY: nat := 8 + 16 * ENTRY
  const RECORD: nat := BODY + 4
  const MAGIC: seq<byte> := [0x31, 0x44, 0x4E, 0x42]
  const VERSION: seq<byte> := [1, 0]

  ghost predicate Good(b: Bound) {
    b.pin <= 29 && b.debounce < WRAP && |b.target| <= TARGET_MAX && NoNul(b.target)
  }

  ghost predicate AllGood(bs: seq<Bound>) {
    |bs| <= COUNT && forall i :: 0 <= i < |bs| ==> Good(bs[i])
  }

  ghost predicate DistinctPins(bs: seq<Bound>) {
    forall i, j :: 0 <= i < j < |bs| ==> bs[i].pin != bs[j].pin
  }

  // ---- The record --------------------------------------------------------------------

  /** `disk_bind_t`. */
  function Entry(b: Bound): (e: seq<byte>)
    requires |b.target| <= TARGET_MAX
    ensures |e| == ENTRY
  {
    [1, b.pin, b.edge, 0] + LenBytes(b.debounce) + (b.target + Fill(NAME - |b.target|, 0))
  }

  /** Where the fields of an entry stand. */
  lemma EntryParts(b: Bound)
    requires |b.target| <= TARGET_MAX
    ensures var e := Entry(b);
      && |e| == 105 && e[0] == 1 && e[1] == b.pin && e[2] == b.edge && e[3] == 0 && e[4..8] == LenBytes(b.debounce)
      && e[8..8 + |b.target|] == b.target && forall i :: 8 + |b.target| <= i < 105 ==> e[i] == 0
  {
  }

  lemma HeaderParts(count: nat)
    ensures var h := Header(count); h[..4] == Le32(0x424E4431) && h[4..6] == [1, 0] && h[6..8] == WordBytes(count)
  {
  }

  function Packed(bs: seq<Bound>): (p: seq<byte>)
    requires forall i :: 0 <= i < |bs| ==> |bs[i].target| <= TARGET_MAX
    ensures |p| == ENTRY * |bs|
  {
    if bs == [] then [] else Packed(bs[..|bs| - 1]) + Entry(bs[|bs| - 1])
  }

  function Header(count: nat): (h: seq<byte>)
    ensures |h| == 8
  {
    MAGIC + VERSION + WordBytes(count)
  }

  function Body(bs: seq<Bound>): (b: seq<byte>)
    requires |bs| <= COUNT && forall i :: 0 <= i < |bs| ==> |bs[i].target| <= TARGET_MAX
    ensures |b| == BODY
  {
    Header(|bs|) + Packed(bs) + Fill(ENTRY * (COUNT - |bs|), 0)
  }

  /** Entries not in use are zeros. */
  lemma RestZero(bs: seq<Bound>)
    requires |bs| <= COUNT && forall i :: 0 <= i < |bs| ==> |bs[i].target| <= TARGET_MAX
    ensures |Body(bs)| == 8 + 105 * 16 && forall i :: 8 + 105 * |bs| <= i < |Body(bs)| ==> Body(bs)[i] == 0
  {
  }

  function Encode(bs: seq<Bound>): (r: seq<byte>)
    requires |bs| <= COUNT && forall i :: 0 <= i < |bs| ==> |bs[i].target| <= TARGET_MAX
    ensures |r| == RECORD
  {
    Body(bs) + Le32(Crc(Body(bs)))
  }

  /** Entry `k` of a record. */
  function EntryAt(r: seq<byte>, k: nat): (e: seq<byte>)
    requires |r| == RECORD && k < COUNT
    ensures |e| == ENTRY
  {
    r[8 + ENTRY * k..8 + ENTRY * (k + 1)]
  }

  function ReadEntry(e: seq<byte>): Bound
    requires |e| == ENTRY
  {
    Bound(e[1], e[2], LenOf(e[4..8]), CString(e[8..], 0))
  }

  /** The entries in use among the first `n`. */
  function ReadEntries(r: seq<byte>, n: nat): seq<Bound>
    requires |r| == RECORD && n <= COUNT
  {
    if n == 0 then []
    else
      var e := EntryAt(r, n - 1);
      ReadEntries(r, n - 1) + (if e[0] != 0 then [ReadEntry(e)] else [])
  }

  /** The countdowns keep the verifier from expanding what they guard. */
  function CountIn(r: seq<byte>, countdown: nat := 4): nat
    requires |r| == RECORD
  {
    if countdown > 0 then CountIn(r, countdown - 1) else WordOf(r[6..8])
  }

  /** The count is the 16-bit number in bytes 6 and 7. */
  lemma CountInIs(r: seq<byte>)
    requires |r| == RECORD
    ensures CountIn(r) == WordOf(r[6..8])
  {
    assert CountIn(r, 2) == CountIn(r, 1) == CountIn(r, 0);
    assert CountIn(r, 4) == CountIn(r, 3) == CountIn(r, 2);
  }

  /** `bindings_load` up to the wipe. */
  function Decode(r: seq<byte>, countdown: nat := 4): Option<seq<Bound>>
    requires |r| == RECORD
  {
    if countdown > 0 then Decode(r, countdown - 1) else Parse(r)
  }

  lemma DecodeIsParse(r: seq<byte>)
    requires |r| == RECORD
    ensures Decode(r) == Parse(r)
  {
    assert Decode(r, 2) == Decode(r, 1) == Decode(r, 0);
    assert Decode(r, 4) == Decode(r, 3) == Decode(r, 2);
  }

  function Parse(r: seq<byte>): Option<seq<Bound>>
    requires |r| == RECORD
  {
    if r[..4] != MAGIC || r[4..6] != VERSION then None
    else if Crc(r[..BODY]) != OfLe32(r[BODY..]) then None
    else if CountIn(r) > COUNT then None
    else Some(ReadEntries(r, CountIn(r)))
  }

  /** Accepted are exactly the records with this magic and version, a good checksum and a count of at most 16. */
  lemma AcceptedMeans(r: seq<byte>)
    requires |r| == RECORD
    ensures Decode(r).Some? <==> r[..4] == Le32(0x424E4431) && r[4..6] == [1, 0] && SelfChecks(r) && CountIn(r) <= 16
  {
    DecodeIsParse(r);
    HeaderParts(0);
    assert r[..BODY] == r[..|r| - 4] && r[BODY..] == r[|r| - 4..];
  }

  /** A record changed only inside four consecutive bytes is rejected. */
  lemma DamageRejected(r: seq<byte>, t: seq<byte>, k: nat)
    requires |r| == RECORD && Decode(r).Some? && Burst(r, t, k)
    ensures Decode(t) == None
  {
    AcceptedMeans(r);
    AcceptedMeans(t);
    SelfCheckBurst(r, t, k);
  }

  lemma EntryReads(b: Bound)
    requires Good(b)
    ensures var e := Entry(b); e[0] != 0 && ReadEntry(e) == b
  {
    var e := Entry(b);
    var field := b.target + Fill(NAME - |b.target|, 0);
    assert e[4..8] == LenBytes(b.debounce) && e[8..] == field;
    LenRoundTrip(b.debounce);
    StringEnds(field, 0, b.target);
  }

  lemma {:induction false} PackedAt(bs: seq<Bound>, k: nat)
    requires k < |bs| && forall i :: 0 <= i < |bs| ==> |bs[i].target| <= TARGET_MAX
    ensures Packed(bs)[ENTRY * k..ENTRY * (k + 1)] == Entry(bs[k])
  {
    var init := bs[..|bs| - 1];
    if k < |init| {
      PackedAt(init, k);
      assert Packed(bs)[ENTRY * k..ENTRY * (k + 1)] == Packed(init)[ENTRY * k..ENTRY * (k + 1)];
    }
  }

  lemma EntryIs(bs: seq<Bound>, k: nat)
    requires AllGood(bs) && k < |bs|
    ensures EntryAt(Encode(bs), k) == Entry(bs[k])
  {
    PackedAt(bs, k);
    var r := Encode(bs);
    assert r[8..8 + ENTRY * |bs|] == Packed(bs);
    SliceOfSlice(r, 8, 8 + ENTRY * |bs|, ENTRY * k, ENTRY * (k + 1));
  }

  lemma {:induction false} EntriesRead(bs: seq<Bound>, r: seq<byte>, n: nat)
    requires AllGood(bs) && n <= |bs| && |r| == RECORD && forall k :: 0 <= k < |bs| ==> EntryAt(r, k) == Entry(bs[k])
    ensures ReadEntries(r, n) == bs[..n]
  {
    if n > 0 {
      EntriesRead(bs, r, n - 1);
      EntryReads(bs[n - 1]);
      assert ReadEntries(r, n) == bs[..n - 1] + [bs[n - 1]];
      OneMore(bs, n);
    }
  }

  lemma OneMore(bs: seq<Bound>, n: nat)
    requires 0 < n <= |bs|
    ensures bs[..n - 1] + [bs[n - 1]] == bs[..n]
  {
  }

  lemma RecordParts(bs: seq<Bound>)
    requires AllGood(bs)
    ensures var r := Encode(bs);
      && r[..4] == MAGIC && r[4..6] == VERSION && r[6..8] == WordBytes(|bs|)
      && r[..BODY] == Body(bs) && r[BODY..] == Le32(Crc(Body(bs)))
  {
  }

  /** A record written reads back as the bindings it was made from. */
  lemma DecodeEncode(bs: seq<Bound>)
    requires AllGood(bs)
    ensures Decode(Encode(bs)) == Some(bs)
  {
    var r := Encode(bs);
    RecordParts(bs);
    Le32RoundTrip(Crc(Body(bs)));
    WordRoundTrip(|bs|);
    CountInIs(r);
    forall k | 0 <= k < |bs| ensures EntryAt(r, k) == Entry(bs[k]) {
      EntryIs(bs, k);
    }
    EntriesRead(bs, r, |bs|);
    DecodeIs(r, bs);
  }

  lemma DecodeIs(r: seq<byte>, bs: seq<Bound>)
    requires |r| == RECORD && r[..4] == MAGIC && r[4..6] == VERSION && Crc(r[..BODY]) == OfLe32(r[BODY..])
    requires CountIn(r) == |bs| <= COUNT && ReadEntries(r, |bs|) == bs[..|bs|]
    ensures Decode(r) == Some(bs)
  {
    DecodeIsParse(r);
    assert bs[..|bs|] == bs;
  }

  // ---- The sector ------------------------------------------------------------------------

  /** The bindings stored in a flash image, if there are any. */
  function StoredIn(m: seq<byte>): Option<seq<Bound>>
    requires |m| == SIZE
  {
    Decode(m[BINDINGS..BINDINGS + RECORD])
  }

  function SectorOf(bs: seq<Bound>): (p: seq<byte>)
    requires |bs| <= COUNT && forall i :: 0 <= i < |bs| ==> |bs[i].target| <= TARGET_MAX
    ensures |p| == SECTOR
  {
    Encode(bs) + Fill(SECTOR - RECORD, 0xFF)
  }

  ghost predicate OnlyBindings(m: seq<byte>, w: seq<byte>) {
    |m| == |w| && |m| == SIZE && w[..BINDINGS] == m[..BINDINGS] && w[BINDINGS + SECTOR..] == m[BINDINGS + SECTOR..]
  }

  lemma WipedReads(m: seq<byte>)
    requires |m| == SIZE
    ensures var w := Erased(m, BINDINGS, SECTOR); StoredIn(w) == None && OnlyBindings(m, w)
  {
    var w := Erased(m, BINDINGS, SECTOR);
    DecodeIsParse(w[BINDINGS..BINDINGS + RECORD]);
    assert w[BINDINGS..BINDINGS + RECORD][..4][0] == w[BINDINGS] == 0xFF;
  }

  lemma WrittenReads(m: seq<byte>, bs: seq<Bound>)
    requires |m| == SIZE && AllGood(bs)
    ensures var w := Programmed(Erased(m, BINDINGS, SECTOR), BINDINGS, SectorOf(bs));
      StoredIn(w) == Some(bs) && OnlyBindings(m, w)
  {
    var e := Erased(m, BINDINGS, SECTOR);
    assert e[BINDINGS..BINDINGS + SECTOR] == Fill(SECTOR, 0xFF);
    ProgramBlank(e, BINDINGS, SectorOf(bs));
    var w := Programmed(e, BINDINGS, SectorOf(bs));
    assert w[BINDINGS..BINDINGS + RECORD] == Encode(bs);
    DecodeEncode(bs);
  }

  // ---- The table, compacted ----------------------------------------------------------------

  /** The bindings in use, in slot order. */
  function InUse(slots: seq<Slot>): seq<Bound> {
    if slots == [] then []
    else InUse(slots[..|slots| - 1]) + (if slots[|slots| - 1].used then [BoundOf(slots[|slots| - 1])] else [])
  }

  /** The slots of a sound table. */
  ghost predicate SoundSlots(slots: seq<Slot>) {
    && (forall i :: 0 <= i < |slots| && slots[i].used ==> Good(BoundOf(slots[i])))
    && forall i, j :: 0 <= i < j < |slots| && slots[i].used && slots[j].used ==> slots[i].pin != slots[j].pin
  }

  lemma {:induction false} InUseGood(slots: seq<Slot>)
    requires SoundSlots(slots)
    ensures |InUse(slots)| <= |slots| && DistinctPins(InUse(slots))
    ensures forall b :: b in InUse(slots) ==> Good(b) && exists i :: 0 <= i < |slots| && slots[i].used && BoundOf(slots[i]) == b
  {
    if slots != [] {
      var (init, last) := (slots[..|slots| - 1], slots[|slots| - 1]);
      InUseGood(init);
      forall b | b in InUse(slots) ensures Good(b) && exists i :: 0 <= i < |slots| && slots[i].used && BoundOf(slots[i]) == b {
        if b in InUse(init) {
          var i :| 0 <= i < |init| && init[i].used && BoundOf(init[i]) == b;
          assert slots[i] == init[i];
        } else {
          assert BoundOf(slots[|slots| - 1]) == b;
        }
      }
      if last.used {
        forall k | 0 <= k < |InUse(init)| ensures InUse(init)[k].pin != last.pin {
          assert InUse(init)[k] in InUse(init);
          var i :| 0 <= i < |init| && init[i].used && BoundOf(init[i]) == InUse(init)[k];
          assert slots[i] == init[i];
        }
      }
    }
  }

  lemma TableSound(t: Table)
    requires t.Valid()
    ensures SoundSlots(t.slots[..]) && AllGood(InUse(t.slots[..])) && DistinctPins(InUse(t.slots[..]))
  {
    forall i | 0 <= i < COUNT ensures t.slots[i].used ==> Good(BoundOf(t.slots[i])) {
      assert Tells(t.Cells()[i].s, t.Cells()[i].h, t.clock);
    }
    forall i, j | 0 <= i < j < COUNT && t.slots[i].used && t.slots[j].used ensures t.slots[i].pin != t.slots[j].pin {
      assert t.Cells()[i].s.pin != t.Cells()[j].s.pin;
    }
    InUseGood(t.slots[..]);
  }

  // ---- The code ------------------------------------------------------------------

  datatype Fault = Written | EraseFails | ProgramFails

  lemma InUseMore(s: seq<Slot>, i: nat)
    requires SoundSlots(s) && |s| == COUNT && i < |s|
    ensures var (bs, cs) := (InUse(s[..i]), InUse(s[..i + 1]));
      && cs == (if s[i].used then bs + [BoundOf(s[i])] else bs) && AllGood(bs) && AllGood(cs)
      && Packed(cs) == (if s[i].used then Packed(bs) + Entry(BoundOf(s[i])) else Packed(bs))
  {
    assert s[..i + 1][..i] == s[..i];
    InUseGood(s[..i]);
    InUseGood(s[..i + 1]);
    var bs := InUse(s[..i]);
    assert (bs + [BoundOf(s[i])])[..|bs|] == bs;
  }

  /** The loop of `bindings_save` over the slots. */
  method Collect(t: Table) returns (packed: seq<byte>, count: nat)
    requires t.Valid()
    ensures var bs := InUse(t.slots[..]);
      AllGood(bs) && count == |bs| && packed == Packed(bs)
  {
    TableSound(t);
    ghost var (s, bs) := (t.slots[..], []);
    packed, count := [], 0;
    assert s[..0] == [];
    for i := 0 to COUNT
      invariant bs == InUse(s[..i]) && count == |bs| && AllGood(bs) && packed == Packed(bs)
    {
      InUseMore(s, i);
      bs := InUse(s[..i + 1]);
      if t.slots[i].used {
        packed, count := packed + Entry(BoundOf(t.slots[i])), count + 1;
      }
    }
    assert s[..COUNT] == s;
  }

  /** `bindings_save`. */
  method Save(t: Table, flash: Device) returns (ok: bool, f: Fault)
    requires t.Valid() && flash.Valid()
    modifies flash, flash.mem
    ensures ok == (f == Written) && OnlyBindings(old(flash.mem[..]), flash.mem[..])
    ensures flash.refused == old(flash.refused) + Refusal(!ok)
    ensures StoredIn(flash.mem[..]) ==
      match f
      case Written => Some(InUse(t.slots[..]))
      case EraseFails => old(StoredIn(flash.mem[..]))
      case ProgramFails => None
  {
    ghost var bs := InUse(t.slots[..]);
    var packed, count := Collect(t);
    var body := Header(count) + packed + Fill(ENTRY * (COUNT - count), 0);
    var crc := PicoOtaCrc32(body);
    var sector := body + Le32(crc) + Fill(SECTOR - RECORD, 0xFF);
    assert sector == SectorOf(bs);
    WipedReads(flash.mem[..]);
    WrittenReads(flash.mem[..], bs);
    f := EraseFails;
    ok := flash.SafeErase(BINDINGS, SECTOR);
    if !ok {
      return;
    }
    ok := flash.SafeProgram(BINDINGS, sector);
    f := if ok then Written else ProgramFails;
  }

  // ---- Loading -----------------------------------------------------------------------

  /** Bindings added one after another to an empty table; one that is refused is left out. */
  function Refill(bs: seq<Bound>): (t: seq<Option<Bound>>)
    ensures |t| == COUNT
  {
    if bs == [] then seq(COUNT, i => None)
    else
      var t := Refill(bs[..|bs| - 1]);
      var r := Added(t, bs[|bs| - 1]);
      if r.Some? then r.value else t
  }

  /** What a save stores. */
  ghost predicate Nice(bs: seq<Bound>) { AllGood(bs) && DistinctPins(bs) }

  /** The bindings stand in the first places, in order, and the others are free. */
  ghost predicate InFront(t: seq<Option<Bound>>, bs: seq<Bound>) {
    && |bs| <= |t| && (forall k :: 0 <= k < |bs| ==> t[k] == Some(bs[k]))
    && forall k :: |bs| <= k < |t| ==> t[k].None?
  }

  /** None of what a save stores is refused, and its order is kept. */
  lemma {:induction false} RefillNice(bs: seq<Bound>)
    requires Nice(bs)
    ensures InFront(Refill(bs), bs)
  {
    if bs != [] {
      var (init, b) := (bs[..|bs| - 1], bs[|bs| - 1]);
      RefillNice(init);
      var t := Refill(init);
      FirstIs(t, Some(b.pin), 0);
      FirstIs(t, None, 0);
      assert t[|init|].None?;
      assert forall k :: 0 <= k < |init| ==> t[k] == Some(bs[k]);
      assert PlaceIn(t, b.pin) == |init|;
    }
  }

  lemma FrontOfInit(slots: seq<Slot>, bs: seq<Bound>)
    requires slots != [] && InFront(Settings(slots), bs)
    ensures var (init, last) := (slots[..|slots| - 1], slots[|slots| - 1]);
      if |bs| == |slots|
      then InFront(Settings(init), bs[..|bs| - 1]) && last.used && bs == bs[..|bs| - 1] + [BoundOf(last)]
      else InFront(Settings(init), bs) && !last.used
  {
    var last := |slots| - 1;
    assert Settings(slots)[last] == Setting(slots[last]);
    assert forall k :: 0 <= k < last ==> Settings(slots[..last])[k] == Settings(slots)[k];
  }

  lemma {:induction false} FrontInUse(slots: seq<Slot>, bs: seq<Bound>)
    requires InFront(Settings(slots), bs)
    ensures InUse(slots) == bs
  {
    if slots != [] {
      var (init, last) := (slots[..|slots| - 1], slots[|slots| - 1]);
      FrontOfInit(slots, bs);
      if |bs| == |slots| {
        FrontInUse(init, bs[..|bs| - 1]);
      } else {
        FrontInUse(init, bs);
        assert bs + [] == bs;
      }
    }
  }

  /** The wipe. */
  method Wipe(t: Table)
    requires t.Valid()
    modifies t`hist, t`gen, t.slots
    ensures t.Valid() && Settings(t.slots[..]) == Refill([])
  {
    for i := 0 to COUNT
      invariant t.Valid() && forall k :: 0 <= k < i ==> !t.slots[k].used
    {
      t.Free(i);
    }
  }

  /** The checks of `bindings_load`: how many entries there are to install, if the record is good. */
  method Check(r: seq<byte>) returns (n: Option<nat>)
    requires |r| == RECORD
    ensures n.Some? ==> n.value <= COUNT
    ensures Decode(r) == if n.Some? then Some(ReadEntries(r, n.value)) else None
  {
    DecodeIsParse(r);
    if r[..4] != MAGIC || r[4..6] != VERSION {
      return None;
    }
    var crc := PicoOtaCrc32(r[..BODY]);
    if crc != OfLe32(r[BODY..]) {
      return None;
    }
    if CountIn(r) > COUNT {
      return None;
    }
    n := Some(CountIn(r));
  }

  /** `bindings_load`: whatever good record is stored, its entries in use are added in order to a wiped table. */
  method Load(t: Table, flash: Device) returns (ok: bool)
    requires t.Valid() && flash.Valid()
    modifies t, t.slots
    ensures t.Valid() && ok == StoredIn(flash.mem[..]).Some?
    ensures !ok ==> t.Cells() == old(t.Cells())
    ensures ok ==> Settings(t.slots[..]) == Refill(StoredIn(flash.mem[..]).value)
  {
    var r := flash.mem[BINDINGS..BINDINGS + RECORD];
    assert r == flash.mem[..][BINDINGS..BINDINGS + RECORD];
    var n := Check(r);
    ok := n.Some?;
    if ok {
      InstallAll(t, r, n.value);
    }
  }

  method InstallAll(t: Table, r: seq<byte>, n: nat)
    requires t.Valid() && |r| == RECORD && n <= COUNT
    modifies t, t.slots
    ensures t.Valid() && Settings(t.slots[..]) == Refill(ReadEntries(r, n))
  {
    Wipe(t);
    InstallEntries(t, r, n);
  }

  method InstallEntries(t: Table, r: seq<byte>, n: nat)
    requires t.Valid() && |r| == RECORD && n <= COUNT && Settings(t.slots[..]) == Refill([])
    modifies t, t.slots
    ensures t.Valid() && Settings(t.slots[..]) == Refill(ReadEntries(r, n))
  {
    for i := 0 to n
      invariant t.Valid() && Settings(t.slots[..]) == Refill(ReadEntries(r, i))
    {
      InstallNext(t, r, i);
    }
  }

  method InstallNext(t: Table, r: seq<byte>, i: nat)
    requires t.Valid() && |r| == RECORD && i < COUNT
    requires Settings(t.slots[..]) == Refill(ReadEntries(r, i))
    modifies t, t.slots
    ensures t.Valid() && Settings(t.slots[..]) == Refill(ReadEntries(r, i + 1))
  {
    ghost var done := ReadEntries(r, i);
    var e := EntryAt(r, i);
    if e[0] != 0 {
      var b := ReadEntry(e);
      LenBound(e[4..8]);
      CStringNoNul(e[8..], 0);
      RefillMore(done, b);
      var ok, at := t.Add(b.pin, b.edge, b.target, b.debounce);
      assert ReadEntries(r, i + 1) == done + [b];
    } else {
      assert done + [] == done;
    }
  }

  lemma RefillMore(bs: seq<Bound>, b: Bound)
    ensures var r := Added(Refill(bs), b); Refill(bs + [b]) == if r.Some? then r.value else Refill(bs)
  {
    assert (bs + [b])[..|bs|] == bs;
  }

  /**
   Save, then load, into the same table or another: unless flash refuses, the same bindings, compacted, whatever was in
   the table before.
   */
  method SaveThenLoad(t: Table, u: Table, flash: Device) returns (ok: bool)
    requires t.Valid() && u.Valid() && flash.Valid()
    modifies flash, flash.mem, u, u.slots
    ensures u.Valid() && ok == (flash.refused == old(flash.refused))
    ensures ok ==> InUse(u.slots[..]) == old(InUse(t.slots[..])) && InFront(Settings(u.slots[..]), old(InUse(t.slots[..])))
  {
    TableSound(t);
    ghost var bs := InUse(t.slots[..]);
    var f;
    ok, f := Save(t, flash);
    if ok {
      ok := Load(u, flash);
      RefillNice(bs);
      FrontInUse(u.slots[..], bs);
    }
  }
}
