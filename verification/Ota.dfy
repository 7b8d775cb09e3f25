/** The application side of the update (picow-ota/src/ota.c). */
module Ota {
  import opened Bytes
  import opened Flash
  import opened Metadata
  import opened FlashMap
  import opened BootSystem
  import Sha256

  datatype Result = Ok | ErrBusy | ErrNotStarted | ErrSize | ErrRange | ErrVerify | ErrIo | ErrNoImage | Rebooting

  // ---- The staged image -------------------------------------------------------------

  /** A slot whose first `next` bytes, followed by `buf`, are `staged`, and which is blank from `next` on. */
  ghost predicate Staged(slot: seq<byte>, next: nat, buf: seq<byte>, staged: seq<byte>) {
    && |slot| == SLOT_SIZE && next <= SLOT_SIZE && next % PAGE == 0
    && slot[..next] + buf == staged && slot[next..] == Fill(SLOT_SIZE - next, 0xFF)
  }

  /** A slot that holds exactly `image`, and is blank after it. */
  ghost predicate HoldsImage(slot: seq<byte>, image: seq<byte>) {
    |image| <= SLOT_SIZE && slot == image + Fill(SLOT_SIZE - |image|, 0xFF)
  }

  lemma StagedPage(slot: seq<byte>, next: nat, page: seq<byte>, staged: seq<byte>)
    requires Staged(slot, next, page, staged) && |page| == PAGE && next + PAGE <= SLOT_SIZE
    ensures Staged(Programmed(slot, next, page), next + PAGE, [], staged)
  {
  }

  lemma StagedMore(slot: seq<byte>, next: nat, buf: seq<byte>, staged: seq<byte>, d: seq<byte>)
    requires Staged(slot, next, buf, staged)
    ensures Staged(slot, next, buf + d, staged + d)
  {
  }

  lemma StagedBlank(slot: seq<byte>)
    requires slot == Fill(SLOT_SIZE, 0xFF)
    ensures Staged(slot, 0, [], [])
  {
  }

  /** The padded last page completes the image. */
  lemma StagedLast(slot: seq<byte>, next: nat, buf: seq<byte>, staged: seq<byte>, page: seq<byte>)
    requires Staged(slot, next, buf, staged) && 0 < |buf| <= PAGE && next + PAGE <= SLOT_SIZE
    requires page == buf + Fill(PAGE - |buf|, 0xFF)
    ensures HoldsImage(Programmed(slot, next, page), staged)
  {
  }

  lemma StagedDone(slot: seq<byte>, next: nat, staged: seq<byte>)
    requires Staged(slot, next, [], staged)
    ensures HoldsImage(slot, staged)
  {
  }

  /** Slot `s` with its first `off` bytes erased. The countdown keeps the verifier from expanding it. */
  ghost function FrontErased(p: Parts, s: Slot, off: nat, countdown: nat := 4): (q: Parts)
    requires |p.At(s)| == SLOT_SIZE && off <= SLOT_SIZE
    ensures |q.At(s)| == SLOT_SIZE
  {
    if countdown > 0 then FrontErased(p, s, off, countdown - 1) else p.With(s, Erased(p.At(s), 0, off))
  }

  lemma FrontErasedIs(p: Parts, s: Slot, off: nat)
    requires |p.At(s)| == SLOT_SIZE && off <= SLOT_SIZE
    ensures FrontErased(p, s, off) == p.With(s, Erased(p.At(s), 0, off))
    ensures OnlySlot(p, FrontErased(p, s, off), s)
  {
    assert FrontErased(p, s, off, 2) == FrontErased(p, s, off, 1) == FrontErased(p, s, off, 0);
    assert FrontErased(p, s, off, 4) == FrontErased(p, s, off, 3) == FrontErased(p, s, off, 2);
  }

  lemma FrontErasedMore(p: Parts, s: Slot, off: nat)
    requires |p.At(s)| == SLOT_SIZE && off + SECTOR <= SLOT_SIZE
    ensures var q := FrontErased(p, s, off);
      q.With(s, Erased(q.At(s), off, SECTOR)) == FrontErased(p, s, off + SECTOR)
    ensures OnlySlot(p, FrontErased(p, s, off + SECTOR), s)
  {
    FrontErasedIs(p, s, off);
    FrontErasedIs(p, s, off + SECTOR);
    var i := p.At(s);
    assert Erased(Erased(i, 0, off), off, SECTOR) == Erased(i, 0, off + SECTOR);
  }

  lemma FrontErasedEnds(p: Parts, s: Slot)
    requires |p.At(s)| == SLOT_SIZE
    ensures FrontErased(p, s, 0) == p && OnlySlot(p, p, s)
    ensures FrontErased(p, s, SLOT_SIZE).At(s) == Fill(SLOT_SIZE, 0xFF)
  {
    FrontErasedIs(p, s, 0);
    FrontErasedIs(p, s, SLOT_SIZE);
    assert Erased(p.At(s), 0, 0) == p.At(s);
    assert Erased(p.At(s), 0, SLOT_SIZE) == Fill(SLOT_SIZE, 0xFF);
  }

  // ---- Programs per page ------------------------------------------------------------

  const PAGES: nat := SLOT_SIZE / PAGE

  /** How often each page was programmed, once the sector at `off` is erased. */
  function Unprogrammed(programs: seq<nat>, off: nat): (r: seq<nat>)
    ensures |r| == |programs|
  {
    seq(|programs|, k requires 0 <= k < |programs| => if off <= k * PAGE < off + SECTOR then 0 else programs[k])
  }

  /** No page was programmed twice since its sector was erased. */
  predicate AtMostOnce(programs: seq<nat>) {
    |programs| == PAGES && forall k :: 0 <= k < |programs| ==> programs[k] <= 1
  }

  /** No page from `lo` to `hi` was programmed at all. */
  predicate Untouched(programs: seq<nat>, lo: nat, hi: nat) {
    forall k :: 0 <= k < |programs| && lo <= k * PAGE < hi ==> programs[k] == 0
  }

  lemma UnprogrammedMore(programs: seq<nat>, off: nat)
    requires AtMostOnce(programs) && Untouched(programs, 0, off)
    ensures AtMostOnce(Unprogrammed(programs, off)) && Untouched(Unprogrammed(programs, off), 0, off + SECTOR)
  {
  }

  lemma OnceMore(programs: seq<nat>, off: nat)
    requires AtMostOnce(programs) && Untouched(programs, off, SLOT_SIZE) && off % PAGE == 0 && off + PAGE <= SLOT_SIZE
    ensures off / PAGE < PAGES
    ensures var q := programs[off / PAGE := programs[off / PAGE] + 1];
      AtMostOnce(q) && Untouched(q, off + PAGE, SLOT_SIZE)
  {
    assert off / PAGE * PAGE == off;
  }

  // ---- The module's state ------------------------------------------------------------

  /** `ota_status_t`, without the two slot numbers, which never change. */
  datatype Status = Status(
    update_in_progress: bool, pending_verify: bool, boot_attempts: byte, image_ready: bool,
    staging_size: nat, bytes_written: nat, computed_sha256: seq<byte>)

  const ZERO_STATUS := Status(false, false, 0, false, 0, 0, Fill(32, 0))

  /**
   What has happened to the staging slot since the last begin. `staged` has gone into pages or the page buffer,
   `message` has been hashed; `lost`: a page program failed inside a write before all its data was buffered;
   `stale`: a later begin failed, having perhaps erased part of a finalized image.
   */
  datatype History = History(staged: seq<byte>, message: seq<byte>, lost: bool, stale: bool)

  /** While an update is in progress: pages, then the page buffer, are what was staged, and all of it was hashed. */
  ghost predicate InFlight(st: Status, h: History, slot: seq<byte>, next: nat, buf: seq<byte>) {
    && Staged(slot, next, buf, h.staged) && |buf| <= PAGE
    && |h.staged| <= |h.message| == st.bytes_written <= Limit(st) <= SLOT_SIZE
    && (!h.lost ==> h.staged == h.message)
  }

  /** A write that failed put only the first `taken` bytes of its data into pages or the page buffer. */
  ghost predicate TookPart(h: History, data: seq<byte>, taken: nat, h': History) {
    taken <= |data| && h'.staged == h.staged + data[..taken] && h'.lost == (h.lost || taken < |data|)
  }

  function Limit(st: Status): nat { if st.staging_size != 0 then st.staging_size else SLOT_SIZE }

  /** The announced size, or the 768 KB of the slot when none was announced. */
  lemma LimitIs(st: Status)
    ensures st.staging_size > 0 ==> Limit(st) == st.staging_size
    ensures st.staging_size == 0 ==> Limit(st) == 768 * 1024
  {
  }

  /** Once an image is ready: the slot holds what was staged; size and digest are those of the hashed bytes. */
  ghost predicate Described(st: Status, h: History, slot: seq<byte>) {
    && (!h.stale ==> HoldsImage(slot, h.staged))
    && st.bytes_written == |h.message| && st.computed_sha256 == Sha256.Digest(h.message)
    && (!h.lost ==> h.staged == h.message)
  }

  function SizeIn(r: Record, s: Slot): bv32 { if s == 0 then r.size_a else r.size_b }

  function ShaIn(r: Record, s: Slot): seq<byte> { if s == 0 then r.sha_a else r.sha_b }

  /**
   What `ota_apply` records. Unless a page program failed or a later begin did, the slot holds exactly one image, and
   the new entry is its size and its SHA-256; the running slot's entry stays.
   */
  lemma AppliedDescribes(st: Status, h: History, slot: seq<byte>, stored: Option<Record>, t: Slot, size: bv32)
    requires Described(st, h, slot) && !h.lost && !h.stale && size == st.bytes_written as bv32
    ensures var r := Applied(Base(stored, Other(t)), t, size, st.computed_sha256);
      && HoldsImage(slot, h.message) && st.bytes_written == |h.message|
      && SizeIn(r, t) == size && ShaIn(r, t) == Sha256.Digest(h.message)
      && (stored.Some? ==>
        SizeIn(r, Other(t)) == SizeIn(stored.value, Other(t)) && ShaIn(r, Other(t)) == ShaIn(stored.value, Other(t)))
  {
  }

  /** Flash without a record, and otherwise as it was. */
  predicate IsTorn(p: Parts, torn: Parts) {
    |torn.meta| == META_SIZE && torn == p.(meta := torn.meta) && RecordIn(torn) == None
  }

  /** The static variables of ota.c. Ghost: how often each page of the staging slot was programmed since its erase. */
  class Updater {
    const slot: Slot
    const flash: Device
    const sha: Sha256.Context
    const page_buf: array<byte>
    var page_buf_len: nat
    var next_page_off: nat
    var status: Status
    ghost var history: History
    ghost var programs: seq<nat>

    ghost predicate Wired() {
      && flash.Valid() && sha.Allocated() && page_buf.Length == PAGE
      && page_buf != flash.mem && page_buf != sha.buf && sha.buf != flash.mem
    }

    ghost function Map(): (p: Parts)
      requires flash.Valid()
      reads flash.mem
      ensures |p.a| == |p.b| == SLOT_SIZE && |p.meta| == META_SIZE
    {
      PartsOf(flash.mem[..])
    }

    ghost function Staging(): (image: seq<byte>)
      requires flash.Valid()
      reads flash.mem
      ensures |image| == SLOT_SIZE
    {
      Map().At(Other(slot))
    }

    ghost predicate Valid()
      reads this, flash.mem, sha, sha.state, sha.buf, page_buf
    {
      && Wired() && |status.computed_sha256| == 32 && status.bytes_written <= SLOT_SIZE && page_buf_len <= PAGE
      && !(status.update_in_progress && status.image_ready) && AtMostOnce(programs)
      && (status.update_in_progress ==>
        sha.Valid() && sha.msg == history.message && Untouched(programs, next_page_off, SLOT_SIZE)
        && InFlight(status, history, Staging(), next_page_off, page_buf[..page_buf_len]))
      && (status.image_ready ==> Described(status, history, Staging()))
    }

    constructor (slot: Slot, flash: Device)
      requires flash.Valid()
      ensures this.slot == slot && this.flash == flash && Valid() && status == ZERO_STATUS
      ensures history == History([], [], false, false)
      ensures fresh(sha) && fresh(sha.state) && fresh(sha.buf) && fresh(page_buf)
    {
      this.slot, this.flash := slot, flash;
      var ctx := new Sha256.Context();
      sha := ctx;
      page_buf := new byte[PAGE];
      page_buf_len, next_page_off := 0, 0;
      status, history, programs := ZERO_STATUS, History([], [], false, false), seq(PAGES, k => 0);
    }

    // ---- Flash in the staging slot ------------------------------------------------------

    method EraseSector(off: nat) returns (ok: bool)
      requires Wired() && off + SECTOR <= SLOT_SIZE && off % SECTOR == 0
      modifies this`programs, flash, flash.mem
      ensures programs == if ok then Unprogrammed(old(programs), off) else old(programs)
      ensures flash.refused == old(flash.refused) + Refusal(!ok)
      ensures var p := old(Map());
        Map() == if ok then p.With(Other(slot), Erased(p.At(Other(slot)), off, SECTOR)) else p
    {
      EraseInSlot(flash.mem[..], Other(slot), off, SECTOR);
      ok := flash.SafeErase(SlotBase(Other(slot)) + off, SECTOR);
      programs := if ok then Unprogrammed(programs, off) else programs;
    }

    method ProgramPage(off: nat) returns (ok: bool)
      requires Wired() && off + PAGE <= SLOT_SIZE && off % PAGE == 0
      requires AtMostOnce(programs) && Untouched(programs, off, SLOT_SIZE)
      modifies this`programs, flash, flash.mem
      ensures AtMostOnce(programs) && Untouched(programs, off + PAGE, SLOT_SIZE) && off / PAGE < PAGES
      ensures programs == if ok then old(programs)[off / PAGE := 1] else old(programs)
      ensures flash.refused == old(flash.refused) + Refusal(!ok)
      ensures var p := old(Map());
        Map() == if ok then p.With(Other(slot), Programmed(p.At(Other(slot)), off, page_buf[..])) else p
    {
      ProgramInSlot(flash.mem[..], Other(slot), off, page_buf[..]);
      ok := flash.SafeProgram(SlotBase(Other(slot)) + off, page_buf[..]);
      CountProgram(off, ok);
    }

    ghost method CountProgram(off: nat, done: bool)
      requires off + PAGE <= SLOT_SIZE && off % PAGE == 0 && AtMostOnce(programs) && Untouched(programs, off, SLOT_SIZE)
      modifies this`programs
      ensures AtMostOnce(programs) && Untouched(programs, off + PAGE, SLOT_SIZE) && off / PAGE < PAGES
      ensures programs == if done then old(programs)[off / PAGE := 1] else old(programs)
    {
      OnceMore(programs, off);
      assert off / PAGE * PAGE == off;
      programs := if done then programs[off / PAGE := programs[off / PAGE] + 1] else programs;
    }

    /** The erase loop of `ota_begin`, sector by sector. */
    method EraseSlot() returns (ok: bool)
      requires Wired() && AtMostOnce(programs)
      modifies this`programs, flash, flash.mem
      ensures OnlySlot(old(Map()), Map(), Other(slot))
      ensures AtMostOnce(programs) && (ok ==> Untouched(programs, 0, SLOT_SIZE))
      ensures flash.refused == old(flash.refused) + Refusal(!ok)
      ensures ok ==> Staging() == Fill(SLOT_SIZE, 0xFF)
    {
      ghost var p := Map();
      FrontErasedEnds(p, Other(slot));
      var off := 0;
      while off < SLOT_SIZE
        invariant off <= SLOT_SIZE && off % SECTOR == 0 && Map() == FrontErased(p, Other(slot), off)
        invariant OnlySlot(p, Map(), Other(slot)) && AtMostOnce(programs) && Untouched(programs, 0, off)
        invariant flash.refused == old(flash.refused)
      {
        UnprogrammedMore(programs, off);
        FrontErasedMore(p, Other(slot), off);
        ok := EraseSector(off);
        if !ok {
          return;
        }
        off := off + SECTOR;
      }
      ok := true;
    }

    /** `ota_begin`. */
    method Begin(image_size: nat) returns (r: Result)
      requires Valid()
      modifies this, flash, flash.mem, sha, sha.state
      ensures Valid() && OnlySlot(old(Map()), Map(), Other(slot))
      ensures if old(status.update_in_progress) then r == ErrBusy
        else if image_size > 768 * 1024 then r == ErrSize
        else r in {Ok, ErrIo}
      ensures flash.refused == old(flash.refused) + Refusal(r == ErrIo)
      ensures r in {ErrBusy, ErrSize} ==> Map() == old(Map()) && history == old(history)
      ensures r == ErrIo ==> history == old(history).(stale := true)
      ensures r == Ok ==> history == History([], [], false, false)
      ensures status == if r == Ok
        then old(status).(update_in_progress := true, image_ready := false, staging_size := image_size, bytes_written := 0,
                          computed_sha256 := Fill(32, 0))
        else old(status)
    {
      if status.update_in_progress {
        return ErrBusy;
      }
      if image_size > SLOT_SIZE {
        return ErrSize;
      }
      r := ErrIo;
      var erased := EraseSlot();
      if !erased {
        history := history.(stale := true);
        return;
      }
      StagedBlank(Staging());
      sha.Init();
      status := status.(update_in_progress := true, image_ready := false, staging_size := image_size, bytes_written := 0,
                        computed_sha256 := Fill(32, 0));
      page_buf_len, next_page_off := 0, 0;
      history := History([], [], false, false);
      assert page_buf[..page_buf_len] == [];
      r := Ok;
    }

    /** `memcpy` into the page buffer, after its filled part. */
    method CopyIn(d: seq<byte>)
      requires Wired() && page_buf_len + |d| <= PAGE
      modifies this`page_buf_len, page_buf
      ensures page_buf_len == old(page_buf_len) + |d|
      ensures page_buf[..page_buf_len] == old(page_buf[..page_buf_len]) + d
    {
      forall i | 0 <= i < |d| {
        page_buf[page_buf_len + i] := d[i];
      }
      page_buf_len := page_buf_len + |d|;
    }

    /** Program the page buffer once it is full; nothing moves if the flash refuses. */
    method FlushFull(ghost staged: seq<byte>) returns (ok: bool)
      requires Wired() && page_buf_len == PAGE && |staged| <= SLOT_SIZE
      requires AtMostOnce(programs) && Untouched(programs, next_page_off, SLOT_SIZE)
      requires Staged(Staging(), next_page_off, page_buf[..page_buf_len], staged)
      modifies this`page_buf_len, this`next_page_off, this`programs, flash, flash.mem
      ensures AtMostOnce(programs) && Untouched(programs, next_page_off, SLOT_SIZE)
      ensures flash.refused == old(flash.refused) + Refusal(!ok)
      ensures page_buf_len == (if ok then 0 else PAGE) && OnlySlot(old(Map()), Map(), Other(slot))
      ensures Staged(Staging(), next_page_off, page_buf[..page_buf_len], staged)
    {
      assert page_buf[..page_buf_len] == page_buf[..];
      StagedPage(Staging(), next_page_off, page_buf[..], staged);
      ok := ProgramPage(next_page_off);
      if ok {
        next_page_off := next_page_off + PAGE;
        page_buf_len := 0;
        assert page_buf[..page_buf_len] == [];
      }
    }

    /** The loop of `ota_write`: fill pages and program them. `taken` bytes of the data were buffered. */
    method FillPages(data: seq<byte>, ghost staged: seq<byte>) returns (ok: bool, ghost taken: nat)
      requires Wired() && page_buf_len <= PAGE && |staged| + |data| <= SLOT_SIZE
      requires AtMostOnce(programs) && Untouched(programs, next_page_off, SLOT_SIZE)
      requires Staged(Staging(), next_page_off, page_buf[..page_buf_len], staged)
      modifies this`page_buf_len, this`next_page_off, this`programs, flash, flash.mem, page_buf
      ensures AtMostOnce(programs) && Untouched(programs, next_page_off, SLOT_SIZE)
      ensures page_buf_len <= PAGE && taken <= |data| && (ok ==> taken == |data|)
      ensures !ok ==> page_buf_len == PAGE
      ensures flash.refused == old(flash.refused) + Refusal(!ok)
      ensures Staged(Staging(), next_page_off, page_buf[..page_buf_len], staged + data[..taken])
      ensures OnlySlot(old(Map()), Map(), Other(slot))
    {
      var rest := data;
      taken := 0;
      assert staged + data[..0] == staged;
      while |rest| > 0
        invariant page_buf_len <= PAGE && taken <= |data| && rest == data[taken..]
        invariant Staged(Staging(), next_page_off, page_buf[..page_buf_len], staged + data[..taken])
        invariant OnlySlot(old(Map()), Map(), Other(slot))
        invariant AtMostOnce(programs) && Untouched(programs, next_page_off, SLOT_SIZE)
        invariant flash.refused == old(flash.refused)
        decreases |rest|, page_buf_len
      {
        var space := PAGE - page_buf_len;
        var take := if |rest| < space then |rest| else space;
        StagedMore(Staging(), next_page_off, page_buf[..page_buf_len], staged + data[..taken], rest[..take]);
        CopyIn(rest[..take]);
        assert data[..taken + take] == data[..taken] + rest[..take];
        ConcatAssociates(staged, data[..taken], rest[..take]);
        rest, taken := rest[take..], taken + take;
        if page_buf_len == PAGE {
          ok := FlushFull(staged + data[..taken]);
          if !ok {
            return;
          }
        }
      }
      ok := true;
    }

    /** `ota_write`. */
    method Write(offset: nat, data: seq<byte>) returns (r: Result)
      requires Valid()
      modifies this, flash, flash.mem, sha, sha.state, sha.buf, page_buf
      ensures Valid() && OnlySlot(old(Map()), Map(), Other(slot))
      ensures if !old(status.update_in_progress) then r == ErrNotStarted
        else if data == [] || offset != old(status.bytes_written) || offset + |data| > Limit(old(status)) then r == ErrRange
        else r in {Ok, ErrIo}
      ensures flash.refused == old(flash.refused) + Refusal(r == ErrIo)
      ensures r !in {Ok, ErrIo} ==> Map() == old(Map()) && status == old(status) && history == old(history)
      ensures r in {Ok, ErrIo} ==>
        && status == old(status).(bytes_written := offset + |data|)
        && history.message == old(history).message + data && history.stale == old(history).stale
      ensures r == Ok ==> history.staged == old(history).staged + data && history.lost == old(history).lost
      ensures r == ErrIo ==> (exists taken :: TookPart(old(history), data, taken, history))
    {
      if !status.update_in_progress {
        return ErrNotStarted;
      }
      if |data| == 0 {
        return ErrRange;
      }
      if offset != status.bytes_written {
        return ErrRange;
      }
      if offset + |data| > Limit(status) {
        return ErrRange;
      }
      sha.Update(data);
      status := status.(bytes_written := status.bytes_written + |data|);
      ghost var h := history;
      var ok, taken := FillPages(data, h.staged);
      history := History(h.staged + data[..taken], h.message + data, h.lost || taken < |data|, h.stale);
      assert data[..|data|] == data;
      assert TookPart(h, data, taken, history);
      r := if ok then Ok else ErrIo;
    }

    /** The rest of the page buffer becomes 0xFF. */
    method Pad()
      requires Wired() && page_buf_len <= PAGE
      modifies page_buf
      ensures page_buf[..page_buf_len] == old(page_buf[..page_buf_len])
      ensures page_buf[..] == old(page_buf[..page_buf_len]) + Fill(PAGE - page_buf_len, 0xFF)
    {
      forall i | page_buf_len <= i < PAGE {
        page_buf[i] := 0xFF;
      }
    }

    /** `ota_finalize`: a refused last page leaves the update in progress, to be finalized again. */
    method Finalize() returns (r: Result)
      requires Valid()
      modifies this, flash, flash.mem, sha, sha.state, sha.buf, page_buf
      ensures Valid() && OnlySlot(old(Map()), Map(), Other(slot))
      ensures if !old(status.update_in_progress) then r == ErrNotStarted else r in {Ok, ErrIo}
      ensures flash.refused == old(flash.refused) + Refusal(r == ErrIo)
      ensures r != Ok ==> Map() == old(Map()) && status == old(status) && history == old(history)
      ensures r == Ok ==>
        && status == old(status).(update_in_progress := false, image_ready := true,
                                  computed_sha256 := Sha256.Digest(old(history.message)))
        && history == old(history).(stale := false)
    {
      if !status.update_in_progress {
        return ErrNotStarted;
      }
      if page_buf_len > 0 {
        ghost var head := page_buf[..page_buf_len];
        Pad();
        StagedLast(Staging(), next_page_off, head, history.staged, page_buf[..]);
        var ok := ProgramPage(next_page_off);
        if !ok {
          return ErrIo;
        }
        next_page_off := next_page_off + PAGE;
        page_buf_len := 0;
      } else {
        assert page_buf[..page_buf_len] == [];
        StagedDone(Staging(), next_page_off, history.staged);
      }
      var digest := sha.Final();
      status := status.(update_in_progress := false, image_ready := true, computed_sha256 := digest);
      history := history.(stale := false);
      r := Ok;
    }

    /** `ota_abort`. */
    method Abort()
      requires Valid()
      modifies this
      ensures Valid() && history == old(history)
      ensures status == if !old(status.update_in_progress) then old(status)
        else old(status).(update_in_progress := false, image_ready := false, staging_size := 0, bytes_written := 0,
                          computed_sha256 := Fill(32, 0))
    {
      if !status.update_in_progress {
        return;
      }
      status := status.(update_in_progress := false, image_ready := false, staging_size := 0, bytes_written := 0,
                        computed_sha256 := Fill(32, 0));
      page_buf_len, next_page_off := 0, 0;
    }

    /** `ota_verify`. */
    method Verify(expected: seq<byte>) returns (r: Result)
      requires Valid() && |expected| == 32
      ensures r == if !status.image_ready then ErrNotStarted
        else if expected == Sha256.Digest(history.message) then Ok else ErrVerify
    {
      if !status.image_ready {
        return ErrNotStarted;
      }
      var same := Sha256.Equal(status.computed_sha256, expected);
      r := if same then Ok else ErrVerify;
    }

    // ---- Metadata ------------------------------------------------------------------

    /** `write_metadata` of the application, with both its ways to fail; `torn` is flash after the erase. */
    method WriteRecord(r: Record) returns (ok: bool, ghost f: Fault, ghost torn: Parts)
      requires Wired() && Shaped(r)
      modifies flash, flash.mem
      ensures f != PowerLost && ok == (f == Good) && flash.refused == old(flash.refused) + Refusal(!ok)
      ensures RecordIn(Map()) == RecordAfter(old(RecordIn(Map())), r, f)
      ensures Map() == old(Map()).(meta := Map().meta) && (f != EraseFails ==> IsTorn(old(Map()), torn))
    {
      WriteParts(flash.mem[..], r);
      torn := Map();
      var page := RecordPage(r);
      f := EraseFails;
      ok := flash.SafeErase(META, SECTOR);
      if !ok {
        return;
      }
      f, torn := ProgramFails, Map();
      ok := flash.SafeProgram(META, page);
      if ok {
        f := Good;
      }
    }

    /** The same, in a state it leaves as sound as it was. */
    method Rewrite(r: Record) returns (ok: bool, ghost f: Fault, ghost torn: Parts)
      requires Valid() && Shaped(r)
      modifies flash, flash.mem
      ensures Valid() && f != PowerLost && ok == (f == Good) && flash.refused == old(flash.refused) + Refusal(!ok)
      ensures RecordIn(Map()) == RecordAfter(old(RecordIn(Map())), r, f)
      ensures Map() == old(Map()).(meta := Map().meta) && (f != EraseFails ==> IsTorn(old(Map()), torn))
    {
      ok, f, torn := WriteRecord(r);
    }

    method ReadRecord() returns (have: bool, r: Record)
      requires Wired()
      ensures RecordIn(Map()) == if have then Some(r) else None
      ensures Shaped(r)
    {
      RecordInIs(flash.mem[..]);
      have, r := ReadMetadata(flash);
    }

    /** The first half of `update_metadata`. */
    method ReadBase() returns (r: Record)
      requires Wired()
      ensures r == Base(RecordIn(Map()), slot) && Shaped(r)
    {
      var have;
      have, r := ReadRecord();
      if !have {
        r := Fresh(slot);
      }
    }

    /** `ota_init`. */
    method Init() returns (ghost f: Fault, ghost torn: Parts)
      requires Wired() && AtMostOnce(programs)
      modifies this, flash, flash.mem
      ensures Valid() && f != PowerLost && Map() == old(Map()).(meta := Map().meta)
      ensures flash.refused == old(flash.refused) + Refusal(f != Good)
      ensures old(RecordIn(Map())).None? && f != EraseFails ==> IsTorn(old(Map()), torn)
      ensures history == old(history)
      ensures var stored := old(RecordIn(Map()));
        && RecordIn(Map()) == (if stored.Some? then stored else RecordAfter(stored, Fresh(slot), f))
        && status == if stored.Some?
          then ZERO_STATUS.(pending_verify := stored.value.pending != 0, boot_attempts := stored.value.attempts)
          else ZERO_STATUS
      ensures var left := RecordIn(Map());
        && (status.pending_verify <==> left.Some? && left.value.pending != 0)
        && status.boot_attempts == (if left.Some? then left.value.attempts else 0)
        && !status.update_in_progress && !status.image_ready
    {
      status, page_buf_len, f, torn := ZERO_STATUS, 0, Good, Map();
      var have, r := ReadRecord();
      if have {
        status := status.(pending_verify := r.pending != 0, boot_attempts := r.attempts);
      } else {
        var ok;
        ok, f, torn := WriteRecord(Fresh(slot));
      }
    }

    /** `ota_apply`: a record that is written ends in a reboot. */
    method Apply() returns (r: Result, ghost f: Fault, ghost torn: Parts)
      requires Valid()
      modifies flash, flash.mem
      ensures Valid() && f != PowerLost && flash.refused == old(flash.refused) + Refusal(r == ErrIo)
      ensures status.image_ready && f != EraseFails ==> IsTorn(old(Map()), torn)
      ensures if !status.image_ready then r == ErrNoImage && Map() == old(Map())
        else
          && r == (if f == Good then Rebooting else ErrIo) && Map() == old(Map()).(meta := Map().meta)
          && RecordIn(Map()) == RecordAfter(old(RecordIn(Map())),
            Applied(Base(old(RecordIn(Map())), slot), Other(slot), status.bytes_written as bv32, status.computed_sha256), f)
    {
      f, torn := Good, Map();
      if !status.image_ready {
        return ErrNoImage, f, torn;
      }
      var ok;
      ok, f, torn := RecordApply();
      r := if ok then Rebooting else ErrIo;
    }

    /** `update_metadata` for an apply. */
    method RecordApply() returns (ok: bool, ghost f: Fault, ghost torn: Parts)
      requires Valid() && status.image_ready
      modifies flash, flash.mem
      ensures Valid() && f != PowerLost && ok == (f == Good) && flash.refused == old(flash.refused) + Refusal(!ok)
      ensures Map() == old(Map()).(meta := Map().meta) && (f != EraseFails ==> IsTorn(old(Map()), torn))
      ensures RecordIn(Map()) == RecordAfter(old(RecordIn(Map())),
          Applied(Base(old(RecordIn(Map())), slot), Other(slot), status.bytes_written as bv32, status.computed_sha256), f)
    {
      var m := ReadBase();
      m := Applied(m, Other(slot), status.bytes_written as bv32, status.computed_sha256);
      ok, f, torn := Rewrite(m);
    }

    /** `ota_confirm`. */
    method ConfirmImage() returns (ghost f: Fault, ghost torn: Parts)
      requires Valid()
      modifies this, flash, flash.mem
      ensures Valid() && f != PowerLost && history == old(history)
      ensures flash.refused == old(flash.refused) + Refusal(f != Good)
      ensures (old(status.pending_verify) || old(status.boot_attempts) != 0) && f != EraseFails ==> IsTorn(old(Map()), torn)
      ensures if !old(status.pending_verify) && old(status.boot_attempts) == 0 then status == old(status) && Map() == old(Map())
        else
          && Map() == old(Map()).(meta := Map().meta)
          && RecordIn(Map()) == RecordAfter(old(RecordIn(Map())), Confirmed(Base(old(RecordIn(Map())), slot)), f)
          && status == if f == Good then old(status).(pending_verify := false, boot_attempts := 0) else old(status)
    {
      f, torn := Good, Map();
      if !status.pending_verify && status.boot_attempts == 0 {
        return;
      }
      var m := ReadBase();
      m := Confirmed(m);
      var ok;
      ok, f, torn := Rewrite(m);
      if ok {
        status := status.(pending_verify := false, boot_attempts := 0);
      }
    }
  }
}
