/** Flash by region: which bytes an erase or a program in one region can reach. */
module FlashMap {
  import opened Bytes
  import opened Flash
  import opened Metadata

  // ---- Regions --------------------------------------------------------------------

  const SCRIPTS: nat := 0x185000
  const SCRIPT_SLOT_SIZE: nat := 4096
  const SCRIPT_SLOTS: nat := 16
  const BINDINGS: nat := 0x1FA000
  const CONFIG: nat := SIZE - SECTOR

  /** The regions, in flash order: bootloader, slot A, slot B, metadata, scripts, bindings, configuration. */
  const REGIONS: seq<(nat, nat)> := [
    (0, BOOTLOADER_SIZE), (SLOT_A, SLOT_SIZE), (SLOT_B, SLOT_SIZE), (META, META_SIZE),
    (SCRIPTS, SCRIPT_SLOTS * SCRIPT_SLOT_SIZE), (BINDINGS, SECTOR), (CONFIG, SECTOR)]

  lemma RegionsDisjoint(i: nat, j: nat)
    requires i < j < |REGIONS|
    ensures REGIONS[i].0 + REGIONS[i].1 <= REGIONS[j].0 && REGIONS[j].0 + REGIONS[j].1 <= SIZE
    ensures REGIONS[i].0 % SECTOR == 0 && REGIONS[j].0 % SECTOR == 0
  {
  }

  /** Where the regions start: what the sizes in the header come to, and the addresses the other modules are given. */
  lemma RegionsStart()
    ensures SlotBase(0) == 0x4000 && SlotBase(1) == 0xC4000 && META == 0x184000 && SIZE == 0x200000
    ensures REGIONS == [(0, 0x4000), (0x4000, 0xC0000), (0xC4000, 0xC0000), (0x184000, 0x1000),
                        (0x185000, 0x10000), (0x1FA000, 0x1000), (0x1FF000, 0x1000)]
  {
  }

  // ---- The image by parts ---------------------------------------------------------------

  datatype Parts = Parts(boot: seq<byte>, a: seq<byte>, b: seq<byte>, meta: seq<byte>, rest: seq<byte>)
  {
    function At(s: Slot): seq<byte> { if s == 0 then a else b }

    function With(s: Slot, image: seq<byte>): Parts { if s == 0 then this.(a := image) else this.(b := image) }
  }

  /** `q` is `p` except for the contents of slot `s`. */
  ghost predicate OnlySlot(p: Parts, q: Parts, s: Slot) { q.With(s, p.At(s)) == p }

  /** The countdown keeps the verifier from expanding the slices. */
  function PartsOf(m: seq<byte>, countdown: nat := 4): (p: Parts)
    requires |m| == SIZE
    ensures |p.a| == |p.b| == SLOT_SIZE && |p.meta| == META_SIZE
  {
    if countdown > 0 then PartsOf(m, countdown - 1)
    else Parts(m[..SLOT_A], m[SLOT_A..SLOT_B], m[SLOT_B..META], m[META..META + META_SIZE], m[META + META_SIZE..])
  }

  lemma PartsAre(m: seq<byte>)
    requires |m| == SIZE
    ensures PartsOf(m) == Parts(m[..SLOT_A], m[SLOT_A..SLOT_B], m[SLOT_B..META], m[META..META + META_SIZE], m[META + META_SIZE..])
  {
    assert PartsOf(m, 2) == PartsOf(m, 1) == PartsOf(m, 0);
    assert PartsOf(m, 4) == PartsOf(m, 3) == PartsOf(m, 2);
  }

  lemma SpliceSlice(m: seq<byte>, at: nat, d: seq<byte>, lo: nat, hi: nat)
    requires at + |d| <= |m| && lo <= hi <= |m|
    ensures var w := m[..at] + d + m[at + |d|..];
      && (hi <= at || at + |d| <= lo ==> w[lo..hi] == m[lo..hi])
      && (lo <= at && at + |d| <= hi ==> w[lo..hi] == m[lo..hi][..at - lo] + d + m[lo..hi][at + |d| - lo..])
  {
  }

  /** Replacing bytes inside slot `s` changes that slot only. */
  lemma SpliceInSlot(m: seq<byte>, s: Slot, off: nat, d: seq<byte>)
    requires |m| == SIZE && off + |d| <= SLOT_SIZE
    ensures var at := SlotBase(s) + off;
      var w := m[..at] + d + m[at + |d|..];
      var i := PartsOf(m).At(s);
      |w| == SIZE && PartsOf(w) == PartsOf(m).With(s, i[..off] + d + i[off + |d|..])
  {
    var at := SlotBase(s) + off;
    var w := m[..at] + d + m[at + |d|..];
    PartsAre(m);
    PartsAre(w);
    SpliceSlice(m, at, d, 0, SLOT_A);
    SpliceSlice(m, at, d, SLOT_A, SLOT_B);
    SpliceSlice(m, at, d, SLOT_B, META);
    SpliceSlice(m, at, d, META, META + META_SIZE);
    SpliceSlice(m, at, d, META + META_SIZE, SIZE);
    assert m[..SLOT_A] == m[0..SLOT_A] && w[..SLOT_A] == w[0..SLOT_A];
    assert m[META + META_SIZE..] == m[META + META_SIZE..SIZE] && w[META + META_SIZE..] == w[META + META_SIZE..SIZE];
  }

  lemma EraseInSlot(m: seq<byte>, s: Slot, off: nat, len: nat)
    requires |m| == SIZE && off + len <= SLOT_SIZE
    ensures PartsOf(Erased(m, SlotBase(s) + off, len)) == PartsOf(m).With(s, Erased(PartsOf(m).At(s), off, len))
  {
    SpliceInSlot(m, s, off, Fill(len, 0xFF));
  }

  lemma ProgramInSlot(m: seq<byte>, s: Slot, off: nat, d: seq<byte>)
    requires |m| == SIZE && off + |d| <= SLOT_SIZE
    ensures PartsOf(Programmed(m, SlotBase(s) + off, d)) == PartsOf(m).With(s, Programmed(PartsOf(m).At(s), off, d))
  {
    var at := SlotBase(s) + off;
    PartsAre(m);
    if s == 0 {
      SliceOfSlice(m, SLOT_A, SLOT_B, off, off + |d|);
    } else {
      SliceOfSlice(m, SLOT_B, META, off, off + |d|);
    }
    SpliceInSlot(m, s, off, Anded(m[at..at + |d|], d));
  }

  /** What rewriting the metadata sector does, whole or torn. */
  lemma WriteParts(m: seq<byte>, r: Record)
    requires |m| == SIZE && Shaped(r)
    ensures var p := PartsOf(m);
      && PartsOf(Wiped(m)) == p.(meta := PartsOf(Wiped(m)).meta) && RecordIn(PartsOf(Wiped(m))) == None
      && PartsOf(Written(m, r)) == p.(meta := PartsOf(Written(m, r)).meta) && RecordIn(PartsOf(Written(m, r))) == Some(r)
  {
    MetaOnly(m, Wiped(m));
    MetaOnly(m, Written(m, r));
    WipedReads(m);
    WrittenReads(m, r);
    RecordInIs(Wiped(m));
    RecordInIs(Written(m, r));
  }

  lemma MetaOnly(m: seq<byte>, w: seq<byte>)
    requires OnlyMeta(m, w)
    ensures PartsOf(w) == PartsOf(m).(meta := PartsOf(w).meta)
  {
    PartsAre(m);
    PartsAre(w);
    assert m[..SLOT_A] == m[..META][..SLOT_A] && w[..SLOT_A] == w[..META][..SLOT_A];
    assert m[SLOT_A..SLOT_B] == m[..META][SLOT_A..SLOT_B] && w[SLOT_A..SLOT_B] == w[..META][SLOT_A..SLOT_B];
    assert m[SLOT_B..META] == m[..META][SLOT_B..META] && w[SLOT_B..META] == w[..META][SLOT_B..META];
  }

  /** The record a metadata sector holds. */
  function RecordIn(p: Parts): Option<Record>
    requires |p.meta| == META_SIZE
  {
    Decode(p.meta[..RECORD])
  }

  lemma RecordInIs(m: seq<byte>)
    requires |m| == SIZE
    ensures RecordIn(PartsOf(m)) == Stored(m)
  {
    PartsAre(m);
    assert m[META..META + META_SIZE][..RECORD] == m[META..META + RECORD];
  }
}
