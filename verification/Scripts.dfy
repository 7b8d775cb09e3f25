/** The script store (src/storage/scripts.c): sixteen flash slots that are a map of bounded size. */
module Scripts {
  import opened Bytes
  import opened Crc32
  import opened Flash
  import opened FlashMap
  import opened Lengths
  import opened ScriptSlot
  import opened SlotTable

  const END: nat := SCRIPTS + SCRIPT_SLOTS * SCRIPT_SLOT_SIZE

  // ---- The region by slots -----------------------------------------------------------------

  /** The sixteen slots, and all other bytes of flash. */
  datatype Region = Region(low: seq<byte>, slots: seq<seq<byte>>, high: seq<byte>)

  ghost predicate Shaped(r: Region) {
    |r.slots| == SCRIPT_SLOTS && forall i :: 0 <= i < SCRIPT_SLOTS ==> |r.slots[i]| == SCRIPT_SLOT_SIZE
  }

  function SlotAt(m: seq<byte>, i: nat): (s: seq<byte>)
    requires |m| == SIZE && i < SCRIPT_SLOTS
    ensures |s| == SCRIPT_SLOT_SIZE
  {
    m[SCRIPTS + i * SCRIPT_SLOT_SIZE..SCRIPTS + (i + 1) * SCRIPT_SLOT_SIZE]
  }

  /** The countdown keeps the verifier from expanding the slices. */
  function RegionOf(m: seq<byte>, countdown: nat := 4): (r: Region)
    requires |m| == SIZE
    ensures Shaped(r)
  {
    if countdown > 0 then RegionOf(m, countdown - 1)
    else Region(m[..SCRIPTS], seq(SCRIPT_SLOTS, i requires 0 <= i < SCRIPT_SLOTS => SlotAt(m, i)), m[END..])
  }

  lemma RegionIs(m: seq<byte>)
    requires |m| == SIZE
    ensures var r := RegionOf(m);
      r.low == m[..SCRIPTS] && r.high == m[END..] && forall i :: 0 <= i < SCRIPT_SLOTS ==> r.slots[i] == SlotAt(m, i)
  {
    assert RegionOf(m, 2) == RegionOf(m, 1) == RegionOf(m, 0);
    assert RegionOf(m, 4) == RegionOf(m, 3) == RegionOf(m, 2);
  }

  /** Replacing slot `k` changes that slot only. */
  lemma SpliceInRegion(m: seq<byte>, k: nat, d: seq<byte>)
    requires |m| == SIZE && k < SCRIPT_SLOTS && |d| == SCRIPT_SLOT_SIZE
    ensures var at := SCRIPTS + k * SCRIPT_SLOT_SIZE;
      var w := m[..at] + d + m[at + SCRIPT_SLOT_SIZE..];
      |w| == SIZE && RegionOf(w) == RegionOf(m).(slots := RegionOf(m).slots[k := d])
  {
    var at := SCRIPTS + k * SCRIPT_SLOT_SIZE;
    var w := m[..at] + d + m[at + SCRIPT_SLOT_SIZE..];
    RegionIs(m);
    RegionIs(w);
    SpliceSlice(m, at, d, 0, SCRIPTS);
    SpliceSlice(m, at, d, END, SIZE);
    assert m[..SCRIPTS] == m[0..SCRIPTS] && w[..SCRIPTS] == w[0..SCRIPTS];
    assert m[END..] == m[END..SIZE] && w[END..] == w[END..SIZE];
    forall i | 0 <= i < SCRIPT_SLOTS ensures RegionOf(w).slots[i] == RegionOf(m).slots[k := d][i] {
      SpliceSlice(m, at, d, SCRIPTS + i * SCRIPT_SLOT_SIZE, SCRIPTS + (i + 1) * SCRIPT_SLOT_SIZE);
      if i == k {
        assert SlotAt(w, i) == SlotAt(m, i)[..0] + d + SlotAt(m, i)[SCRIPT_SLOT_SIZE..];
      }
    }
  }

  const BLANK: seq<byte> := Fill(SCRIPT_SLOT_SIZE, 0xFF)

  lemma EraseInRegion(m: seq<byte>, k: nat)
    requires |m| == SIZE && k < SCRIPT_SLOTS
    ensures RegionOf(Erased(m, SCRIPTS + k * SCRIPT_SLOT_SIZE, SCRIPT_SLOT_SIZE))
         == RegionOf(m).(slots := RegionOf(m).slots[k := BLANK])
  {
    SpliceInRegion(m, k, BLANK);
  }

  lemma ProgramInRegion(m: seq<byte>, k: nat, d: seq<byte>)
    requires |m| == SIZE && k < SCRIPT_SLOTS && |d| == SCRIPT_SLOT_SIZE && RegionOf(m).slots[k] == BLANK
    ensures RegionOf(Programmed(m, SCRIPTS + k * SCRIPT_SLOT_SIZE, d))
         == RegionOf(m).(slots := RegionOf(m).slots[k := d])
  {
    RegionIs(m);
    ProgramBlank(m, SCRIPTS + k * SCRIPT_SLOT_SIZE, d);
    SpliceInRegion(m, k, d);
  }

  // ---- The store as a map ------------------------------------------------------------------

  /** A slot is free, or holds exactly what a save of some script programs. */
  ghost predicate Sound(s: seq<byte>)
    requires |s| == SCRIPT_SLOT_SIZE
  {
    SlotValid(s) ==> BodyOf(s).Some? && Storable(NameOf(s), BodyOf(s).value) && s == Image(NameOf(s), BodyOf(s).value)
  }

  function EntryOf(s: seq<byte>): Entry<seq<byte>>
    requires |s| == SCRIPT_SLOT_SIZE
  {
    if SlotValid(s) && BodyOf(s).Some? then Taken(NameOf(s), BodyOf(s).value) else Vacant
  }

  function TableOf(slots: seq<seq<byte>>, countdown: nat := 4): (t: seq<Entry<seq<byte>>>)
    requires forall i :: 0 <= i < |slots| ==> |slots[i]| == SCRIPT_SLOT_SIZE
    ensures |t| == |slots|
  {
    if countdown > 0 then TableOf(slots, countdown - 1)
    else seq(|slots|, i requires 0 <= i < |slots| => EntryOf(slots[i]))
  }

  lemma TableIs(slots: seq<seq<byte>>)
    requires forall i :: 0 <= i < |slots| ==> |slots[i]| == SCRIPT_SLOT_SIZE
    ensures forall i :: 0 <= i < |slots| ==> TableOf(slots)[i] == EntryOf(slots[i])
  {
    assert TableOf(slots, 2) == TableOf(slots, 1) == TableOf(slots, 0);
    assert TableOf(slots, 4) == TableOf(slots, 3) == TableOf(slots, 2);
  }

  /** Every slot is sound, and no two valid slots have the same name. */
  ghost predicate Consistent(r: Region) {
    && Shaped(r) && (forall i :: 0 <= i < SCRIPT_SLOTS ==> Sound(r.slots[i]))
    && Distinct(TableOf(r.slots))
  }

  ghost function ScriptsIn(r: Region): map<seq<byte>, seq<byte>>
    requires Shaped(r)
  {
    MapOf(TableOf(r.slots))
  }

  lemma BlankEntry()
    ensures !SlotValid(BLANK) && EntryOf(BLANK) == Vacant
  {
    assert BLANK[..4][0] == 0xFF;
  }

  /** A region that was never written is the empty store. */
  lemma BlankStore(r: Region)
    requires Shaped(r) && forall i :: 0 <= i < SCRIPT_SLOTS ==> r.slots[i] == BLANK
    ensures Consistent(r) && ScriptsIn(r) == map[]
  {
    BlankEntry();
    TableIs(r.slots);
    forall n ensures n !in ScriptsIn(r) {
      Absent(TableOf(r.slots), n);
    }
  }

  /** Replacing slot `k` replaces its entry. */
  lemma TableUpdate(slots: seq<seq<byte>>, k: nat, s: seq<byte>)
    requires k < |slots| && |s| == SCRIPT_SLOT_SIZE && forall i :: 0 <= i < |slots| ==> |slots[i]| == SCRIPT_SLOT_SIZE
    ensures TableOf(slots[k := s]) == TableOf(slots)[k := EntryOf(s)]
  {
    TableIs(slots);
    TableIs(slots[k := s]);
  }

  /** What an erase of slot `k` does to the store. */
  lemma EraseStore(r: Region, k: nat)
    requires Consistent(r) && k < SCRIPT_SLOTS
    ensures var q := r.(slots := r.slots[k := BLANK]);
      && Consistent(q)
      && ScriptsIn(q) == if SlotValid(r.slots[k]) then ScriptsIn(r) - {NameOf(r.slots[k])} else ScriptsIn(r)
  {
    BlankEntry();
    TableIs(r.slots);
    TableUpdate(r.slots, k, BLANK);
    var t := TableOf(r.slots);
    if SlotValid(r.slots[k]) {
      assert Names(t, k, NameOf(r.slots[k]));
      Clear(t, k, NameOf(r.slots[k]));
    } else {
      assert t[k := Vacant] == t;
    }
  }

  /** Programming a script into a blank slot adds it to the store. */
  lemma ProgramStore(r: Region, k: nat, name: seq<byte>, body: seq<byte>)
    requires Consistent(r) && k < SCRIPT_SLOTS && r.slots[k] == BLANK && Storable(name, body) && name !in ScriptsIn(r)
    ensures var q := r.(slots := r.slots[k := Image(name, body)]);
      Consistent(q) && ScriptsIn(q) == ScriptsIn(r)[name := body]
  {
    BlankEntry();
    ImageReads(name, body);
    TableIs(r.slots);
    TableUpdate(r.slots, k, Image(name, body));
    Put(TableOf(r.slots), k, name, body);
  }

  lemma StoreHas(r: Region, name: seq<byte>)
    requires Consistent(r)
    ensures name in ScriptsIn(r) <==> Has(TableOf(r.slots), name)
  {
    Found(TableOf(r.slots), name);
  }

  lemma StoreFull(r: Region)
    requires Consistent(r)
    ensures |ScriptsIn(r)| <= SCRIPT_SLOTS
    ensures |ScriptsIn(r)| == SCRIPT_SLOTS <==> Full(TableOf(r.slots))
  {
    Sized(TableOf(r.slots));
  }

  lemma EntryIs(r: Region, i: nat, name: seq<byte>)
    requires Consistent(r) && i < SCRIPT_SLOTS
    ensures TableOf(r.slots)[i].Taken? == SlotValid(r.slots[i])
    ensures Names(TableOf(r.slots), i, name) <==> SlotValid(r.slots[i]) && NameOf(r.slots[i]) == name
    ensures SlotValid(r.slots[i]) ==> BodyOf(r.slots[i]).Some? && |BodyOf(r.slots[i]).value| <= BODY_MAX
    ensures SlotValid(r.slots[i]) && NameOf(r.slots[i]) == name ==>
      name in ScriptsIn(r) && ScriptsIn(r)[name] == BodyOf(r.slots[i]).value
  {
    TableIs(r.slots);
    if SlotValid(r.slots[i]) && NameOf(r.slots[i]) == name {
      Present(TableOf(r.slots), i);
    }
  }

  // ---- The code ------------------------------------------------------------------

  /** How a rewrite of a slot ends. */
  datatype Fault = Good | EraseFails | ProgramFails

  ghost predicate Accepts(m: map<seq<byte>, seq<byte>>, name: seq<byte>, body: seq<byte>) {
    ValidName(name) && |name| <= 31 && |body| <= 4032 && (name in m || |m| < 16)
  }

  ghost function Saved(m: map<seq<byte>, seq<byte>>, name: seq<byte>, body: seq<byte>, f: Fault): map<seq<byte>, seq<byte>> {
    match f
    case Good => m[name := body]
    case EraseFails => m
    case ProgramFails => m - {name}
  }

  /** The slots, how often each was erased, and how often flash refused. */
  datatype Disk = Disk(slots: seq<seq<byte>>, versions: seq<nat>, refused: nat)

  /** Only time has passed and erases have happened: a slot that was not erased is as it was. */
  ghost predicate Later(d: Disk, e: Disk) {
    && |d.slots| == |e.slots| == |d.versions| == |e.versions| == SCRIPT_SLOTS && d.refused <= e.refused
    && forall i :: 0 <= i < SCRIPT_SLOTS ==>
      d.versions[i] <= e.versions[i] && (d.versions[i] == e.versions[i] ==> d.slots[i] == e.slots[i])
  }

  /** Only slots that are free or carry the name may have been erased. */
  ghost predicate OnlyNamed(d: Disk, e: Disk, name: seq<byte>) {
    && |d.slots| == |d.versions| == |e.versions| == SCRIPT_SLOTS
    && forall i :: 0 <= i < SCRIPT_SLOTS && |d.slots[i]| == SCRIPT_SLOT_SIZE && SlotValid(d.slots[i]) && NameOf(d.slots[i]) != name ==>
      e.versions[i] == d.versions[i]
  }

  lemma OneSlot(d: Disk, e: Disk, k: nat, name: seq<byte>)
    requires k < SCRIPT_SLOTS == |d.slots| == |d.versions| && |d.slots[k]| == SCRIPT_SLOT_SIZE
    requires !SlotValid(d.slots[k]) || NameOf(d.slots[k]) == name
    requires e.versions == d.versions || e.versions == d.versions[k := d.versions[k] + 1]
    ensures OnlyNamed(d, e, name)
  {
  }

  lemma LaterTwice(d: Disk, e: Disk, f: Disk)
    requires Later(d, e) && Later(e, f)
    ensures Later(d, f)
  {
  }

  /** The static variable of scripts.c is whether a script is open. Ghost: how often each slot was erased. */
  class Store {
    const flash: Device
    var open: bool
    ghost var versions: seq<nat>

    ghost predicate Valid()
      reads this, flash.mem
    {
      flash.Valid() && Consistent(RegionOf(flash.mem[..])) && |versions| == SCRIPT_SLOTS
    }

    ghost function Now(): Disk
      requires flash.Valid()
      reads this, flash, flash.mem
    {
      Disk(Flashed().slots, versions, flash.refused)
    }

    ghost function Flashed(): (r: Region)
      requires flash.Valid()
      reads this, flash.mem
      ensures Shaped(r)
    {
      RegionOf(flash.mem[..])
    }

    ghost function Map(): map<seq<byte>, seq<byte>>
      requires flash.Valid()
      reads this, flash.mem
    {
      ScriptsIn(Flashed())
    }

    constructor (flash: Device)
      requires flash.Valid() && Consistent(RegionOf(flash.mem[..]))
      ensures this.flash == flash && Valid() && !open
    {
      this.flash, open, versions := flash, false, seq(SCRIPT_SLOTS, i => 0);
    }

    method ReadSlot(i: nat) returns (s: seq<byte>)
      requires flash.Valid() && i < SCRIPT_SLOTS
      ensures s == Flashed().slots[i] && |s| == SCRIPT_SLOT_SIZE
    {
      RegionIs(flash.mem[..]);
      s := flash.mem[SCRIPTS + i * SCRIPT_SLOT_SIZE..SCRIPTS + (i + 1) * SCRIPT_SLOT_SIZE];
      assert s == SlotAt(flash.mem[..], i);
    }

    /** `find_by_name`: names are compared up to 31 characters. */
    method FindByName(name: seq<byte>) returns (i: nat)
      requires Valid()
      ensures i <= SCRIPT_SLOTS && (i < SCRIPT_SLOTS <==> Short(name) in Map())
      ensures i < SCRIPT_SLOTS ==> SlotValid(Flashed().slots[i]) && NameOf(Flashed().slots[i]) == Short(name)
    {
      StoreHas(Flashed(), Short(name));
      i := 0;
      while i < SCRIPT_SLOTS
        invariant i <= SCRIPT_SLOTS && forall j :: 0 <= j < i ==> !Names(TableOf(Flashed().slots), j, Short(name))
      {
        EntryIs(Flashed(), i, Short(name));
        var s := ReadSlot(i);
        if SlotValid(s) && NameOf(s) == Short(name) {
          return;
        }
        i := i + 1;
      }
    }

    /** `find_free`. */
    method FindFree() returns (i: nat)
      requires Valid()
      ensures i <= SCRIPT_SLOTS && (i == SCRIPT_SLOTS <==> Full(TableOf(Flashed().slots)))
      ensures i < SCRIPT_SLOTS ==> !SlotValid(Flashed().slots[i])
    {
      ghost var r := Flashed();
      ghost var t := TableOf(r.slots);
      i := 0;
      while i < SCRIPT_SLOTS
        invariant i <= SCRIPT_SLOTS && forall j :: 0 <= j < i ==> t[j].Taken?
      {
        EntryIs(r, i, []);
        var s := ReadSlot(i);
        if !SlotValid(s) {
          assert !t[i].Taken?;
          return;
        }
        i := i + 1;
      }
      assert Full(t);
    }

    /** The buffer `scripts_save` builds. */
    method BuildImage(name: seq<byte>, body: seq<byte>) returns (scratch: seq<byte>)
      requires Storable(name, body)
      ensures scratch == Image(name, body)
    {
      var crc := PicoOtaCrc32(Header(name, |body|, Fill(4, 0)) + body);
      scratch := Header(name, |body|, Le32(crc)) + body + Fill(BODY_MAX - |body|, 0xFF);
    }

    /** Erase slot `k`, then program it. */
    method Rewrite(k: nat, image: seq<byte>) returns (f: Fault)
      requires flash.Valid() && k < SCRIPT_SLOTS && |image| == SCRIPT_SLOT_SIZE && |versions| == SCRIPT_SLOTS
      modifies this`versions, flash, flash.mem
      ensures var r := old(Flashed());
        Flashed() == match f
          case Good => r.(slots := r.slots[k := image])
          case EraseFails => r
          case ProgramFails => r.(slots := r.slots[k := BLANK])
      ensures versions == if f == EraseFails then old(versions) else old(versions)[k := old(versions)[k] + 1]
      ensures flash.refused == old(flash.refused) + Refusal(f != Good)
      ensures Later(old(Now()), Now()) && (f == EraseFails ==> Now() == old(Now()).(refused := flash.refused))
    {
      f := EraseFails;
      EraseInRegion(flash.mem[..], k);
      var ok := flash.SafeErase(SCRIPTS + k * SCRIPT_SLOT_SIZE, SCRIPT_SLOT_SIZE);
      if !ok {
        return;
      }
      versions := versions[k := versions[k] + 1];
      f := ProgramFails;
      ProgramInRegion(flash.mem[..], k, image);
      ok := flash.SafeProgram(SCRIPTS + k * SCRIPT_SLOT_SIZE, image);
      if ok {
        f := Good;
      }
    }

    /**
     `scripts_save`. It fails for a bad name, a long body, a new name when all sixteen slots are taken, or because flash
     refused, and only then. A power loss between the erase and the program is the same as a program that fails: the name
     is lost, and nothing else.
     */
    method Save(name: seq<byte>, body: seq<byte>) returns (ok: bool, f: Fault)
      requires Valid()
      modifies this`versions, flash, flash.mem
      ensures Valid() && Later(old(Now()), Now()) && OnlyNamed(old(Now()), Now(), name)
      ensures !Accepts(old(Map()), name, body) ==> !ok && Map() == old(Map()) && Now() == old(Now())
      ensures Accepts(old(Map()), name, body) ==> flash.refused == old(flash.refused) + Refusal(!ok)
      ensures f == EraseFails ==> Now() == old(Now()).(refused := flash.refused)
      ensures Accepts(old(Map()), name, body) ==> ok == (f == Good) && Map() == Saved(old(Map()), name, body, f)
      ensures Flashed().low == old(Flashed().low) && Flashed().high == old(Flashed().high)
    {
      f := Good;
      if !ValidName(name) {
        return false, f;
      }
      if |body| > BODY_MAX {
        return false, f;
      }
      var slot := FindByName(name);
      if slot == SCRIPT_SLOTS {
        StoreFull(Flashed());
        slot := FindFree();
      }
      if slot == SCRIPT_SLOTS {
        return false, f;
      }
      ok, f := SaveAt(slot, name, body);
    }

    /** The second half: the image is built and the slot rewritten. */
    method SaveAt(slot: nat, name: seq<byte>, body: seq<byte>) returns (ok: bool, f: Fault)
      requires Valid() && Storable(name, body) && slot < SCRIPT_SLOTS
      requires if name in Map() then SlotValid(Flashed().slots[slot]) && NameOf(Flashed().slots[slot]) == name
        else !SlotValid(Flashed().slots[slot])
      modifies this`versions, flash, flash.mem
      ensures Valid() && Later(old(Now()), Now()) && OnlyNamed(old(Now()), Now(), name)
      ensures flash.refused == old(flash.refused) + Refusal(!ok)
      ensures f == EraseFails ==> Now() == old(Now()).(refused := flash.refused)
      ensures ok == (f == Good) && Map() == Saved(old(Map()), name, body, f)
      ensures Flashed().low == old(Flashed().low) && Flashed().high == old(Flashed().high)
    {
      var scratch := BuildImage(name, body);
      SaveStores(Flashed(), slot, name, body);
      ghost var d := Now();
      f := Rewrite(slot, scratch);
      OneSlot(d, Now(), slot, name);
      ok := f == Good;
    }

    /** `scripts_remove`. */
    method Remove(name: seq<byte>) returns (ok: bool)
      requires Valid()
      modifies this`versions, flash, flash.mem
      ensures Valid() && Later(old(Now()), Now()) && OnlyNamed(old(Now()), Now(), Short(name))
      ensures !ok ==> Now() == old(Now()).(refused := flash.refused)
      ensures flash.refused == old(flash.refused) + Refusal(!ok && Short(name) in old(Map()))
      ensures Map() == if ok then old(Map()) - {Short(name)} else old(Map())
      ensures ok ==> Short(name) in old(Map())
      ensures Flashed().low == old(Flashed().low) && Flashed().high == old(Flashed().high)
    {
      var slot := FindByName(name);
      if slot == SCRIPT_SLOTS {
        return false;
      }
      EraseStore(Flashed(), slot);
      EraseInRegion(flash.mem[..], slot);
      ok := flash.SafeErase(SCRIPTS + slot * SCRIPT_SLOT_SIZE, SCRIPT_SLOT_SIZE);
      if ok {
        versions := versions[slot := versions[slot] + 1];
      }
    }

    /** The lookup and checksum that `scripts_load` and `scripts_open` share. */
    method Read(name: seq<byte>) returns (body: Option<seq<byte>>)
      requires Valid()
      ensures body == if Short(name) in Map() then Some(Map()[Short(name)]) else None
      ensures body.Some? ==> |body.value| <= BODY_MAX
    {
      var slot := FindByName(name);
      if slot == SCRIPT_SLOTS {
        return None;
      }
      EntryIs(Flashed(), slot, Short(name));
      var s := ReadSlot(slot);
      var len := LenOf(s[40..44]);
      if len > BODY_MAX {
        return None;
      }
      var crc := PicoOtaCrc32(Checked(s, len));
      if crc != OfLe32(s[44..48]) {
        return None;
      }
      body := Some(s[HEADER..HEADER + len]);
    }

    /** `scripts_load` into a buffer of `out_max` bytes. */
    method Load(name: seq<byte>, out_max: nat) returns (body: Option<seq<byte>>)
      requires Valid()
      ensures body == if Short(name) in Map() && |Map()[Short(name)]| <= out_max then Some(Map()[Short(name)]) else None
    {
      body := Read(name);
      if body.Some? && |body.value| > out_max {
        body := None;
      }
    }

    /** `scripts_open`: one script at a time. It gives out where the body lies in flash. */
    method Open(name: seq<byte>) returns (found: bool, slot: nat, len: nat)
      requires Valid()
      modifies this`open
      ensures found <==> !old(open) && Short(name) in Map()
      ensures open == (old(open) || found)
      ensures found ==> slot < SCRIPT_SLOTS && len <= BODY_MAX && BodyAt(slot, len) == Map()[Short(name)]
      ensures found ==> SlotValid(Flashed().slots[slot]) && NameOf(Flashed().slots[slot]) == Short(name)
    {
      found, slot, len := false, 0, 0;
      if open {
        return;
      }
      slot := FindByName(name);
      if slot == SCRIPT_SLOTS {
        return;
      }
      EntryIs(Flashed(), slot, Short(name));
      var body := Read(name);
      var s := ReadSlot(slot);
      len := LenOf(s[40..44]);
      found := body.Some?;
      open := open || found;
    }

    /** The bytes an open script's body pointer refers to. */
    ghost function BodyAt(slot: nat, len: nat): (b: seq<byte>)
      requires flash.Valid() && slot < SCRIPT_SLOTS && len <= BODY_MAX
      reads this, flash.mem
      ensures |b| == len
    {
      Flashed().slots[slot][HEADER..HEADER + len]
    }

    method ReadBody(slot: nat, len: nat) returns (b: seq<byte>)
      requires flash.Valid() && slot < SCRIPT_SLOTS && len <= BODY_MAX
      ensures b == BodyAt(slot, len) && |b| == len
    {
      var s := ReadSlot(slot);
      b := s[HEADER..HEADER + len];
    }

    /** `scripts_close`. */
    method Close()
      modifies this`open
      ensures !open
    {
      open := false;
    }
  }

  /** The map after each way a save into slot `k` can end. */
  lemma SaveStores(r: Region, k: nat, name: seq<byte>, body: seq<byte>)
    requires Consistent(r) && k < SCRIPT_SLOTS && Storable(name, body)
    requires if name in ScriptsIn(r) then SlotValid(r.slots[k]) && NameOf(r.slots[k]) == name else !SlotValid(r.slots[k])
    ensures var (e, q) := (r.(slots := r.slots[k := BLANK]), r.(slots := r.slots[k := Image(name, body)]));
      && Consistent(e) && ScriptsIn(e) == ScriptsIn(r) - {name}
      && Consistent(q) && ScriptsIn(q) == ScriptsIn(r)[name := body]
  {
    var e := r.(slots := r.slots[k := BLANK]);
    EraseStore(r, k);
    ProgramStore(e, k, name, body);
    assert e.(slots := e.slots[k := Image(name, body)]) == r.(slots := r.slots[k := Image(name, body)]);
    assert (ScriptsIn(r) - {name})[name := body] == ScriptsIn(r)[name := body];
  }
}
