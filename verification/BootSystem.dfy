/**
 The bootloader and the application's OTA layer as one transition system over the stored record, the two slots,
 what is running and what it holds in RAM. A step may be cut short by a power loss between the erase and the
 program of a metadata write, or by a flash operation that fails.
 */
module BootSystem {
  import opened Bytes
  import opened Metadata
  import opened Bootloader

  // ---- States and steps ----------------------------------------------------------------

  datatype Phase = Off | Running(slot: Slot) | Stuck

  /** The part of `ota_status_t` that decides what the application may write. */
  datatype App = App(in_progress: bool, image_ready: bool, pending: bool, attempts: byte)

  const BLANK := App(false, false, false, 0)

  type Image = b: seq<byte> | |b| == SLOT_SIZE witness Fill(SLOT_SIZE, 0)

  datatype Sys = Sys(record: Option<Record>, a: Image, b: Image, phase: Phase, app: App)
  {
    function At(s: Slot): Image { if s == 0 then a else b }

    function With(s: Slot, image: Image): Sys { if s == 0 then this.(a := image) else this.(b := image) }

    predicate Valid(s: Slot) { LooksValid(At(s)) }
  }

  /** How a metadata write ends. */
  datatype Fault = Good | EraseFails | ProgramFails | PowerLost

  /**
   Three of them are bootloader entries: a complete one, one that loses power between the erase and the program of a
   record, and one that loses power after the attempt is counted and before anything else is written.
   */
  datatype Event =
    | BootUp
    | BootTorn
    | BootCut
    | Reset
    | Init(fault: Fault)
    | Begin(ok: bool, image: Image)
    | Write(image: Image)
    | Finalize(ok: bool, image: Image)
    | Abort
    | Apply(size: bv32, digest: seq<byte>, fault: Fault)
    | Confirm(fault: Fault)

  function Decide(s: Sys): Decision { Boot(View(s.record, s.Valid(0), s.Valid(1), [], [])) }

  function PhaseAfter(o: Outcome): Phase {
    match o
    case Reboot => Off
    case Jump(k) => Running(k)
    case Bootsel => Stuck
  }

  function RecordAfter(stored: Option<Record>, r: Record, f: Fault): Option<Record> {
    match f
    case Good => Some(r)
    case EraseFails => stored
    case ProgramFails => None
    case PowerLost => None
  }

  /** A metadata write by the application in slot `k`; a power loss ends the run. */
  function AfterUpdate(s: Sys, r: Record, f: Fault): Sys {
    var t := s.(record := RecordAfter(s.record, r, f));
    if f == PowerLost then t.(phase := Off, app := BLANK) else t
  }

  function Step(s: Sys, e: Event): Sys {
    match e
    case BootUp =>
      if s.phase != Off then s
      else s.(record := Decide(s).record, phase := PhaseAfter(Decide(s).outcome), app := BLANK)
    case BootTorn => if s.phase == Off && Decide(s).wrote then s.(record := None) else s
    case BootCut => if s.phase == Off && Counts(s.record) then s.(record := Some(Counted(s.record.value))) else s
    case Reset => s.(phase := Off, app := BLANK)
    case _ => if s.phase.Running? then AppStep(s, s.phase.slot, e) else s
  }

  function AppStep(s: Sys, k: Slot, e: Event): Sys {
    match e
    case Init(f) =>
      if s.record.Some? then s.(app := App(false, false, s.record.value.pending != 0, s.record.value.attempts))
      else AfterUpdate(s.(app := BLANK), Fresh(k), f)
    case Begin(ok, image) =>
      if s.app.in_progress then s
      else s.With(Other(k), image).(app := if ok then s.app.(in_progress := true, image_ready := false) else s.app)
    case Write(image) => if s.app.in_progress then s.With(Other(k), image) else s
    case Finalize(ok, image) =>
      if !s.app.in_progress then s
      else s.With(Other(k), image).(app := if ok then s.app.(in_progress := false, image_ready := true) else s.app)
    case Abort => if s.app.in_progress then s.(app := s.app.(in_progress := false, image_ready := false)) else s
    case Apply(size, digest, f) =>
      if !s.app.image_ready then s
      else
        var t := AfterUpdate(s, Applied(Base(s.record, k), Other(k), size, digest), f);
        if f == Good then t.(phase := Off, app := BLANK) else t
    case Confirm(f) =>
      if !s.app.pending && s.app.attempts == 0 then s
      else
        var t := AfterUpdate(s, Confirmed(Base(s.record, k)), f);
        if f == Good then t.(app := s.app.(pending := false, attempts := 0)) else t
    case _ => s
  }

  // ---- Runs -----------------------------------------------------------------------

  ghost predicate IsRun(run: seq<Sys>, events: seq<Event>) {
    && |run| == |events| + 1
    && forall i :: 0 <= i < |events| ==> run[i + 1] == Step(run[i], events[i])
  }

  ghost predicate Legal(e: Event) { e.Apply? ==> |e.digest| == 32 }

  /** Every stored record is well formed, and a running application is the one the record names. */
  ghost predicate Inv(s: Sys) {
    && (s.record.Some? ==> WellFormed(s.record.value))
    && (s.phase.Running? && s.record.Some? ==> s.record.value.active == SlotByte(s.phase.slot))
  }

  lemma FlipIs()
    ensures Flip(0) == 1 && Flip(1) == 0
  {
  }

  lemma ClearedNames(r: Record)
    requires WellFormed(r)
    ensures WellFormed(Cleared(r)) && Cleared(r).active == SlotByte(Other(Active(r)))
  {
  }

  lemma CountedIs(r: Record)
    requires WellFormed(r) && r.pending != 0 && !Exhausted(r)
    ensures WellFormed(Counted(r))
  {
  }

  /** When a boot jumps, flash holds a well-formed record naming the slot, and the slot looks valid. */
  lemma BootJumps(s: Sys)
    requires Inv(s)
    ensures var d := Decide(s);
      && (d.record.Some? ==> WellFormed(d.record.value))
      && (d.outcome.Jump? ==>
        d.record.Some? && d.record.value.active == SlotByte(d.outcome.slot) && s.Valid(d.outcome.slot))
  {
    if s.record.Some? {
      var r := s.record.value;
      ClearedNames(r);
      if r.pending != 0 && !Exhausted(r) {
        CountedIs(r);
        ClearedNames(Counted(r));
      }
    }
  }

  lemma StepKeeps(s: Sys, e: Event)
    requires Inv(s) && Legal(e)
    ensures Inv(Step(s, e))
  {
    if e.BootUp? {
      BootJumps(s);
    } else if e.BootCut? && Counts(s.record) {
      CountedIs(s.record.value);
    }
  }

  /** Safety over whole runs, whatever fails and whenever power is lost. */
  lemma {:induction false} RunKeeps(run: seq<Sys>, events: seq<Event>, i: nat)
    requires IsRun(run, events) && Inv(run[0]) && i < |run| && forall e :: e in events ==> Legal(e)
    ensures Inv(run[i])
  {
    if i > 0 {
      RunKeeps(run, events, i - 1);
      StepKeeps(run[i - 1], events[i - 1]);
    }
  }

  /** Whenever a bootloader entry of a run jumps, flash holds a well-formed record naming that slot, which looks valid. */
  lemma RunJumps(run: seq<Sys>, events: seq<Event>, i: nat)
    requires IsRun(run, events) && Inv(run[0]) && i < |events| && forall e :: e in events ==> Legal(e)
    ensures var n := run[i + 1];
      run[i].phase == Off && events[i].BootUp? && n.phase.Running? ==>
        n.record.Some? && WellFormed(n.record.value) && n.record.value.active == SlotByte(n.phase.slot)
        && n.Valid(n.phase.slot)
  {
    RunKeeps(run, events, i);
    BootJumps(run[i]);
  }

  // ---- Rollback --------------------------------------------------------------------

  /** Events that neither confirm, nor begin another update, nor tear a record in the bootloader. */
  predicate Quiet(e: Event) {
    !e.Confirm? && !e.Begin? && !e.BootTorn?
  }

  /** Slot `s` is sound, nothing is staged, and the record is on probation in the other slot or settled on `s`. */
  ghost predicate OnTrial(st: Sys, s: Slot) {
    && Inv(st) && st.Valid(s) && st.phase != Stuck && !st.app.in_progress && !st.app.image_ready
    && st.record.Some?
    && var r := st.record.value;
      if r.pending != 0 then r.active == SlotByte(Other(s)) else r.active == SlotByte(s)
  }

  function Count(b: byte): nat { if b == 0 then 0 else if b == 1 then 1 else if b == 2 then 2 else 3 }

  /** Control is in slot `s`, off probation. */
  ghost predicate RolledBack(st: Sys, s: Slot) {
    st.phase == Running(s) && st.record.Some? && st.record.value.pending == 0 && st.record.value.attempts == 0
  }

  /** Bootloader entries still to come before control is back in slot `s`. */
  ghost function Left(st: Sys, s: Slot): nat
    requires OnTrial(st, s)
  {
    if st.record.value.pending != 0 then 5 - Count(st.record.value.attempts)
    else if st.phase == Running(s) then 0
    else 1
  }

  /** Whether step `i` of a run is a bootloader entry. */
  predicate EntersBoot(run: seq<Sys>, events: seq<Event>, i: nat)
    requires i < |run| && i < |events|
  {
    run[i].phase == Off && events[i].BootUp?
  }

  function Boots(run: seq<Sys>, events: seq<Event>, n: nat): nat
    requires n < |run| && n <= |events|
  {
    if n == 0 then 0 else Boots(run, events, n - 1) + (if EntersBoot(run, events, n - 1) then 1 else 0)
  }

  /** Boots that enter slot `t` in the first `n` steps of a run. */
  function Entries(run: seq<Sys>, events: seq<Event>, t: Slot, n: nat): nat
    requires n < |run| && n <= |events|
  {
    if n == 0 then 0
    else Entries(run, events, t, n - 1) + (if EntersBoot(run, events, n - 1) && run[n].phase == Running(t) then 1 else 0)
  }

  lemma CountedCounts(r: Record)
    requires WellFormed(r) && r.pending != 0 && !Exhausted(r)
    ensures Count(Counted(r).attempts) == Count(r.attempts) + 1 <= 3
  {
  }

  /** One boot: closer to slot `s` by exactly one, or there already by falling back. */
  lemma TrialBoots(st: Sys, s: Slot)
    requires OnTrial(st, s) && st.phase == Off
    ensures var n := Step(st, BootUp);
      && OnTrial(n, s) && (RolledBack(n, s) || Left(n, s) == Left(st, s) - 1)
      && (n.phase == Running(Other(s)) ==>
        n.record.value.pending != 0 && st.record.value.pending != 0
        && Count(n.record.value.attempts) == Count(st.record.value.attempts) + 1)
  {
    var r := st.record.value;
    BootJumps(st);
    FlipIs();
    if r.pending != 0 && !Exhausted(r) {
      CountedCounts(r);
      CountedIs(r);
      ClearedNames(Counted(r));
    } else {
      ClearedNames(r);
    }
  }

  /** A boot cut short after the count uses up an attempt. */
  lemma TrialCut(st: Sys, s: Slot)
    requires OnTrial(st, s)
    ensures var n := Step(st, BootCut);
      && OnTrial(n, s) && n.phase == st.phase && (n.record.value.pending != 0 <==> st.record.value.pending != 0)
      && if st.phase == Off && Counts(st.record)
         then Left(n, s) == Left(st, s) - 1 && Count(n.record.value.attempts) == Count(st.record.value.attempts) + 1
         else n == st
  {
    if st.phase == Off && Counts(st.record) {
      CountedCounts(st.record.value);
      CountedIs(st.record.value);
    }
  }

  /** Any other quiet step leaves the trial where it was. */
  lemma TrialWaits(st: Sys, e: Event, s: Slot)
    requires OnTrial(st, s) && Quiet(e) && Legal(e) && !e.BootCut? && (!e.BootUp? || st.phase != Off)
    ensures var n := Step(st, e); OnTrial(n, s) && n.record == st.record
  {
  }

  lemma {:induction false} TrialRuns(run: seq<Sys>, events: seq<Event>, s: Slot, n: nat)
    requires IsRun(run, events) && n <= |events| && OnTrial(run[0], s) && Left(run[0], s) == 5
    requires forall e :: e in events ==> Quiet(e) && Legal(e)
    ensures OnTrial(run[n], s)
    ensures (exists i :: 0 <= i <= n && RolledBack(run[i], s)) || Boots(run, events, n) + Left(run[n], s) <= 5
    ensures Entries(run, events, Other(s), n)
         <= if run[n].record.value.pending != 0 then Count(run[n].record.value.attempts) else 3
  {
    if n > 0 {
      TrialRuns(run, events, s, n - 1);
      var (st, e) := (run[n - 1], events[n - 1]);
      if EntersBoot(run, events, n - 1) {
        TrialBoots(st, s);
      } else if e.BootCut? {
        TrialCut(st, s);
      } else {
        TrialWaits(st, e, s);
        assert RolledBack(run[n], s) || Left(run[n], s) <= Left(st, s) || Left(st, s) == 0;
        assert Left(st, s) == 0 ==> RolledBack(st, s);
      }
    }
  }

  /**
   Rollback. From just after an apply that left slot `s`, without a confirm, another begin or a torn metadata
   write, the fifth complete bootloader entry at the latest brings control back to `s` off probation, and the new slot
   is entered at most three times. Entries that lose power after the count write may come in between.
   */
  lemma Rollback(run: seq<Sys>, events: seq<Event>, s: Slot)
    requires IsRun(run, events) && forall e :: e in events ==> Quiet(e) && Legal(e)
    requires OnTrial(run[0], s) && run[0].record.value.pending != 0 && run[0].record.value.attempts == 0
    ensures Boots(run, events, |events|) >= 5 ==> exists i :: 0 <= i < |run| && RolledBack(run[i], s)
    ensures Entries(run, events, Other(s), |events|) <= 3
  {
    TrialRuns(run, events, s, |events|);
    var last := run[|events|];
    assert Left(last, s) == 0 ==> RolledBack(last, s);
  }

  /** Entries that lose power after the attempt is counted, in the first `n` steps of a run. */
  function Cuts(run: seq<Sys>, events: seq<Event>, n: nat): nat
    requires n < |run| && n <= |events|
  {
    if n == 0 then 0
    else Cuts(run, events, n - 1) + (if events[n - 1].BootCut? && run[n] != run[n - 1] then 1 else 0)
  }

  /** A trial in progress has spent one attempt on each entry of the new slot and on each cut; a finished one spent three. */
  ghost predicate Spent(st: Sys, entries: nat, boots: nat, cuts: nat) {
    && st.record.Some?
    && if st.record.value.pending != 0 then entries == boots && entries + cuts == Count(st.record.value.attempts) <= 3
       else entries + cuts == 3 && boots > entries
  }

  /** A boot with attempts left and a sound new slot enters the new slot; with none left the trial ends. */
  lemma TrialSpends(st: Sys, s: Slot, entries: nat, boots: nat, cuts: nat)
    requires OnTrial(st, s) && st.Valid(Other(s)) && st.phase == Off && Spent(st, entries, boots, cuts)
    ensures var n := Step(st, BootUp);
      && Spent(n, entries + (if n.phase == Running(Other(s)) then 1 else 0), boots + 1, cuts)
      && n.Valid(Other(s)) && (st.record.value.pending == 0 ==> n.phase == Running(s))
  {
    var r := st.record.value;
    FlipIs();
    if r.pending != 0 && !Exhausted(r) {
      CountedCounts(r);
    }
  }

  lemma TrialTriesOn(st: Sys, e: Event, s: Slot, entries: nat, boots: nat, cuts: nat)
    requires OnTrial(st, s) && st.Valid(Other(s)) && Quiet(e) && Legal(e) && Spent(st, entries, boots, cuts)
    ensures var n := Step(st, e);
      var boot := st.phase == Off && e.BootUp?;
      && OnTrial(n, s) && n.Valid(Other(s))
      && Spent(n, entries + (if boot && n.phase == Running(Other(s)) then 1 else 0), boots + (if boot then 1 else 0),
           cuts + (if e.BootCut? && n != st then 1 else 0))
  {
    if st.phase == Off && e.BootUp? {
      TrialBoots(st, s);
      TrialSpends(st, s, entries, boots, cuts);
    } else if e.BootCut? {
      TrialCut(st, s);
    } else {
      TrialWaits(st, e, s);
    }
  }

  lemma {:induction false} TrialTries(run: seq<Sys>, events: seq<Event>, s: Slot, n: nat)
    requires IsRun(run, events) && n <= |events| && OnTrial(run[0], s) && run[0].Valid(Other(s))
    requires run[0].record.value.pending != 0 && run[0].record.value.attempts == 0
    requires forall e :: e in events ==> Quiet(e) && Legal(e)
    ensures OnTrial(run[n], s) && run[n].Valid(Other(s))
    ensures Spent(run[n], Entries(run, events, Other(s), n), Boots(run, events, n), Cuts(run, events, n))
  {
    if n > 0 {
      TrialTries(run, events, s, n - 1);
      TrialTriesOn(run[n - 1], events[n - 1], s, Entries(run, events, Other(s), n - 1), Boots(run, events, n - 1),
        Cuts(run, events, n - 1));
    }
  }

  /** A sound new slot gets its three attempts: the first three bootloader entries, cut or not, are spent on it. */
  lemma ThreeAttempts(run: seq<Sys>, events: seq<Event>, s: Slot)
    requires IsRun(run, events) && forall e :: e in events ==> Quiet(e) && Legal(e)
    requires OnTrial(run[0], s) && run[0].Valid(Other(s))
    requires run[0].record.value.pending != 0 && run[0].record.value.attempts == 0
    ensures var n := |events|;
      var (boots, cuts) := (Boots(run, events, n), Cuts(run, events, n));
      Entries(run, events, Other(s), n) + cuts == if boots + cuts <= 3 then boots + cuts else 3
  {
    TrialTries(run, events, s, |events|);
  }

  /** An apply from slot `s` that succeeds starts such a trial. */
  lemma ApplyStartsTrial(st: Sys, s: Slot, size: bv32, digest: seq<byte>)
    requires Inv(st) && st.phase == Running(s) && st.app.image_ready && st.Valid(s) && |digest| == 32
    ensures var n := Step(st, Apply(size, digest, Good));
      OnTrial(n, s) && n.phase == Off && n.record.value.pending != 0 && n.record.value.attempts == 0
    ensures var (r, b) := (Step(st, Apply(size, digest, Good)).record.value, Base(st.record, s));
      if s == 0 then r == Record(1, 1, 0, b.reserved, b.size_a, size, b.sha_a, digest)
      else r == Record(0, 1, 0, b.reserved, size, b.size_b, digest, b.sha_b)
  {
  }

  // ---- A confirmed image stays ----------------------------------------------------------

  /** The record settles on slot `t`, which looks valid, and only `t` runs. */
  ghost predicate Settled(st: Sys, t: Slot) {
    && Inv(st) && st.Valid(t) && st.record.Some?
    && st.record.value.active == SlotByte(t) && st.record.value.pending == 0
    && (st.phase == Off || st.phase == Running(t))
    && !st.app.pending && st.app.attempts == 0
  }

  /** An apply that gets as far as erasing the old record. */
  predicate Applies(e: Event) { e.Apply? && e.fault != EraseFails }

  lemma SettledStep(st: Sys, e: Event, t: Slot)
    requires Settled(st, t) && !Applies(e) && Legal(e)
    ensures Settled(Step(st, e), t)
    ensures e.BootUp? && st.phase == Off ==> Step(st, e).phase == Running(t)
  {
  }

  /** Whatever else happens - updates begun, written or abandoned, flash failures, resets - slot `t` keeps booting. */
  lemma {:induction false} ConfirmedStays(run: seq<Sys>, events: seq<Event>, t: Slot, n: nat)
    requires IsRun(run, events) && n <= |events| && Settled(run[0], t)
    requires forall e :: e in events ==> !Applies(e) && Legal(e)
    ensures Settled(run[n], t)
    ensures n > 0 && EntersBoot(run, events, n - 1) ==> run[n].phase == Running(t)
  {
    if n > 0 {
      ConfirmedStays(run, events, t, n - 1);
      SettledStep(run[n - 1], events[n - 1], t);
    }
  }

  /** A confirm that succeeds while its slot looks valid settles on it. */
  lemma ConfirmSettles(st: Sys, t: Slot)
    requires Inv(st) && st.phase == Running(t) && st.Valid(t) && (st.app.pending || st.app.attempts != 0)
    ensures Settled(Step(st, Confirm(Good)), t)
  {
  }

  // ---- The first record -------------------------------------------------------------------

  /** The application's view of the record agrees with the record. */
  ghost predicate Agrees(st: Sys) {
    st.record.Some? ==>
      (st.app.pending <==> st.record.value.pending != 0) && st.app.attempts == st.record.value.attempts
  }

  /** No image was ever described. */
  ghost predicate Undescribed(r: Record) {
    r.size_a == 0 && r.size_b == 0 && r.sha_a == r.sha_b == Fill(32, 0) && r.reserved == [0, 0, 0]
  }

  /** The first boot without a record, with a plausible image in slot A, settles on slot A. */
  lemma FirstBoot(st: Sys)
    requires st.phase == Off && st.record.None? && st.Valid(0)
    ensures var n := Step(st, BootUp);
      Settled(n, 0) && n.phase == Running(0) && n.record.value.active == 0 && Undescribed(n.record.value)
  {
  }

  /** A board that was never updated: every boot enters slot A until an apply. */
  lemma {:induction false} FirstBootStays(run: seq<Sys>, events: seq<Event>, n: nat)
    requires IsRun(run, events) && n <= |events|
    requires run[0].phase == Off && run[0].record.None? && run[0].Valid(0)
    requires forall e :: e in events ==> !Applies(e) && Legal(e)
    ensures Settled(run[n], 0) || (run[n].phase == Off && run[n].record.None? && run[n].Valid(0))
    ensures n > 0 && EntersBoot(run, events, n - 1) ==> run[n].phase == Running(0)
  {
    if n > 0 {
      FirstBootStays(run, events, n - 1);
      var (st, e) := (run[n - 1], events[n - 1]);
      if Settled(st, 0) {
        SettledStep(st, e, 0);
      } else if e.BootUp? {
        FirstBoot(st);
      }
    }
  }

  /** The first initialisation without a record settles on the running slot, when its write succeeds. */
  lemma FirstInit(st: Sys, k: Slot)
    requires st.phase == Running(k) && st.record.None? && st.Valid(k)
    ensures var n := Step(st, Init(Good)); Settled(n, k) && Undescribed(n.record.value)
  {
  }

  /** After an initialisation the application's view agrees with whatever record is left. */
  lemma InitAgrees(st: Sys, f: Fault)
    requires st.phase.Running?
    ensures Agrees(Step(st, Init(f)))
  {
  }

  // ---- Slots that do not look valid --------------------------------------------------------

  /** An active slot that does not look valid: the other one is entered, off probation, when it does. */
  lemma BootFallsBack(st: Sys, t: Slot)
    requires Inv(st) && st.phase == Off && st.record.Some? && st.record.value.active == SlotByte(Other(t))
    requires !Exhausted(st.record.value) && !st.Valid(Other(t)) && st.Valid(t)
    ensures Settled(Step(st, BootUp), t) && Step(st, BootUp).phase == Running(t)
  {
    var r := st.record.value;
    FlipIs();
    ClearedNames(r);
    if r.pending != 0 {
      CountedIs(r);
      ClearedNames(Counted(r));
    }
  }

  /** With neither slot looking valid only the USB loader is left, unless the trial was over and its end goes on record first. */
  lemma BootStops(st: Sys)
    requires st.phase == Off && !st.Valid(0) && !st.Valid(1)
    ensures var over := st.record.Some? && st.record.value.pending != 0 && st.record.value.attempts >= 3;
      Step(st, BootUp).phase == if over then Off else Stuck
  {
  }

  // ---- Power loss during a metadata write -------------------------------------------------

  /** Without a record only slot A is tried. */
  lemma TornBoot(st: Sys)
    requires st.phase == Off && st.record.None?
    ensures Step(st, BootUp).phase == if st.Valid(0) then Running(0) else Stuck
  {
  }

  /**
   Power lost inside an apply: the slot that was running is entered again if and only if it is slot A. With slot B
   running, the next boot goes to the image staged in A, or to BOOTSEL when A holds none.
   */
  lemma TornApply(st: Sys, s: Slot, size: bv32, digest: seq<byte>)
    requires st.phase == Running(s) && st.app.image_ready && st.Valid(s)
    ensures var n := Step(Step(st, Apply(size, digest, PowerLost)), BootUp);
      && (n.phase == Running(s) <==> s == 0)
      && (s == 1 ==> n.phase == if st.Valid(0) then Running(0) else Stuck)
  {
  }
}
