/** The bootloader's and the update layer's code refine the transition system: every session is one of its runs. */
module Refinement {
  import opened Bytes
  import opened Flash
  import opened Metadata
  import opened FlashMap
  import opened Bootloader
  import opened BootSystem
  import Ota
  import Sha256

  /** Flash by parts, what is running, and its RAM, as a state of the transition system. */
  function Of(p: Parts, phase: Phase, app: App): Sys
    requires |p.a| == |p.b| == SLOT_SIZE && |p.meta| == META_SIZE
  {
    Sys(RecordIn(p), p.a, p.b, phase, app)
  }

  function Ram(st: Ota.Status): App {
    App(st.update_in_progress, st.image_ready, st.pending_verify, st.boot_attempts)
  }

  // ---- The bootloader --------------------------------------------------------------

  lemma SeenParts(m: seq<byte>, phase: Phase, app: App)
    requires |m| == SIZE
    ensures var s := Of(PartsOf(m), phase, app);
      var v := See(m);
      s.record == v.record && s.Valid(0) == v.a && s.Valid(1) == v.b && Decide(s) == Boot(v)
  {
    PartsAre(m);
    RecordInIs(m);
  }

  lemma SeenElsewhere(m: seq<byte>, w: seq<byte>)
    requires |m| == |w| == SIZE && See(w).low == See(m).low && See(w).high == See(m).high
    ensures PartsOf(w).a == PartsOf(m).a && PartsOf(w).b == PartsOf(m).b && Beside(PartsOf(m), PartsOf(w))
  {
    MetaOnly(m, w);
  }

  lemma BootRefines(m: seq<byte>, w: seq<byte>, app: App)
    requires |m| == |w| == SIZE && See(w) == See(m).(record := Boot(See(m)).record)
    ensures Of(PartsOf(w), PhaseAfter(Boot(See(m)).outcome), BLANK) == Step(Of(PartsOf(m), Off, app), BootUp)
    ensures Beside(PartsOf(m), PartsOf(w))
  {
    SeenParts(m, Off, app);
    SeenParts(w, Off, app);
    SeenElsewhere(m, w);
  }

  lemma RecordOnly(m: seq<byte>, w: seq<byte>, app: App)
    requires |m| == |w| == SIZE && See(w) == See(m).(record := See(w).record)
    ensures var s := Of(PartsOf(m), Off, app);
      s.record == See(m).record && Decide(s) == Boot(See(m)) && Of(PartsOf(w), Off, app) == s.(record := See(w).record)
  {
    SeenParts(m, Off, app);
    SeenParts(w, Off, app);
    SeenElsewhere(m, w);
  }

  lemma CutRefines(m: seq<byte>, w: seq<byte>, app: App)
    requires |m| == |w| == SIZE
    requires var v := See(m); See(w) == if Counts(v.record) then v.(record := Some(Counted(v.record.value))) else v
    ensures Of(PartsOf(w), Off, app) == Step(Of(PartsOf(m), Off, app), BootCut)
  {
    RecordOnly(m, w, app);
  }

  lemma TornRefines(m: seq<byte>, w: seq<byte>, app: App)
    requires |m| == |w| == SIZE && See(w) == if Boot(See(m)).wrote then See(m).(record := None) else See(m)
    ensures Of(PartsOf(w), Off, app) == Step(Of(PartsOf(m), Off, app), BootTorn)
  {
    RecordOnly(m, w, app);
  }

  /** One call of the bootloader is one `BootUp` step; losing power at `cut` or `torn` is a `BootCut` or `BootTorn` step. */
  method RunBootloader(flash: Device) returns (phase: Phase, ghost cut: seq<byte>, ghost torn: seq<byte>)
    requires flash.Valid()
    modifies flash.mem
    ensures Of(PartsOf(flash.mem[..]), phase, BLANK) == Step(Of(PartsOf(old(flash.mem[..])), Off, BLANK), BootUp)
    ensures |cut| == SIZE && Of(PartsOf(cut), Off, BLANK) == Step(Of(PartsOf(old(flash.mem[..])), Off, BLANK), BootCut)
    ensures Beside(PartsOf(old(flash.mem[..])), PartsOf(flash.mem[..]))
    ensures |torn| == SIZE && Of(PartsOf(torn), Off, BLANK) == Step(Of(PartsOf(old(flash.mem[..])), Off, BLANK), BootTorn)
  {
    var out;
    out, cut, torn := BootMain(flash);
    CutRefines(old(flash.mem[..]), cut, BLANK);
    TornRefines(old(flash.mem[..]), torn, BLANK);
    BootRefines(old(flash.mem[..]), flash.mem[..], BLANK);
    phase := PhaseAfter(out);
  }

  // ---- The application -----------------------------------------------------------------

  datatype Call = Init | Begin(size: nat) | Write(offset: nat, data: seq<byte>) | Finalize | Abort | Apply | Confirm

  lemma SlotRefines(p: Parts, q: Parts, s: Slot, phase: Phase, app: App)
    requires |p.a| == |p.b| == |q.a| == |q.b| == SLOT_SIZE && |p.meta| == |q.meta| == META_SIZE && OnlySlot(p, q, s)
    ensures Of(q, phase, app) == Of(p, phase, app).With(s, q.At(s))
  {
  }

  /** Whether an event is one that a call can be. */
  predicate Answers(c: Call, e: Event) {
    match c
    case Init => e.Init?
    case Begin(_) => e.Begin?
    case Write(_, _) => e.Write?
    case Finalize => e.Finalize?
    case Abort => e.Abort?
    case Apply => e.Apply?
    case Confirm => e.Confirm?
  }

  /** What is neither slot nor metadata stays. */
  predicate Beside(p: Parts, q: Parts) { q.boot == p.boot && q.rest == p.rest }

  /** Size and digest are those of the one image that the slot holds. */
  ghost predicate Describes(slot: seq<byte>, size: bv32, digest: seq<byte>) {
    exists image: seq<byte> ::
      Ota.HoldsImage(slot, image) && size == |image| as bv32 && digest == Sha256.Digest(image)
  }

  /** No page program failed since the last begin, and no later begin did. */
  predicate Faithful(h: Ota.History) { !h.lost && !h.stale }

  /** An apply records the image that is staged. */
  ghost predicate AppliesImage(st: Sys, e: Event) {
    e.Apply? && st.phase.Running? && st.app.image_ready ==> Describes(st.At(Other(st.phase.slot)), e.size, e.digest)
  }

  method ServeBegin(u: Ota.Updater, c: Call) returns (ghost e: Event)
    requires u.Valid() && c.Begin?
    modifies u, u.flash, u.flash.mem, u.sha, u.sha.state
    ensures u.Valid() && Answers(c, e) && Beside(old(u.Map()), u.Map()) && u.flash.refused >= old(u.flash.refused)
    ensures u.flash.refused == old(u.flash.refused) && Faithful(old(u.history)) ==> Faithful(u.history)
    ensures Of(u.Map(), Running(u.slot), Ram(u.status)) == Step(old(Of(u.Map(), Running(u.slot), Ram(u.status))), e)
  {
    var r := u.Begin(c.size);
    e := Event.Begin(r == Ota.Ok, u.Staging());
    SlotRefines(old(u.Map()), u.Map(), Other(u.slot), Running(u.slot), old(Ram(u.status)));
  }

  method ServeWrite(u: Ota.Updater, c: Call) returns (ghost e: Event)
    requires u.Valid() && c.Write?
    modifies u, u.flash, u.flash.mem, u.sha, u.sha.state, u.sha.buf, u.page_buf
    ensures u.Valid() && Answers(c, e) && Beside(old(u.Map()), u.Map()) && u.flash.refused >= old(u.flash.refused)
    ensures u.flash.refused == old(u.flash.refused) && Faithful(old(u.history)) ==> Faithful(u.history)
    ensures Of(u.Map(), Running(u.slot), Ram(u.status)) == Step(old(Of(u.Map(), Running(u.slot), Ram(u.status))), e)
  {
    var r := u.Write(c.offset, c.data);
    e := Event.Write(u.Staging());
    SlotRefines(old(u.Map()), u.Map(), Other(u.slot), Running(u.slot), old(Ram(u.status)));
  }

  method ServeFinalize(u: Ota.Updater, c: Call) returns (ghost e: Event)
    requires u.Valid() && c.Finalize?
    modifies u, u.flash, u.flash.mem, u.sha, u.sha.state, u.sha.buf, u.page_buf
    ensures u.Valid() && Answers(c, e) && Beside(old(u.Map()), u.Map()) && u.flash.refused >= old(u.flash.refused)
    ensures u.flash.refused == old(u.flash.refused) && Faithful(old(u.history)) ==> Faithful(u.history)
    ensures Of(u.Map(), Running(u.slot), Ram(u.status)) == Step(old(Of(u.Map(), Running(u.slot), Ram(u.status))), e)
  {
    var r := u.Finalize();
    e := Event.Finalize(r == Ota.Ok, u.Staging());
    SlotRefines(old(u.Map()), u.Map(), Other(u.slot), Running(u.slot), old(Ram(u.status)));
  }

  /** A call that may write the staging slot. */
  method ServeStaging(u: Ota.Updater, c: Call) returns (ghost e: Event)
    requires u.Valid() && (c.Begin? || c.Write? || c.Finalize?)
    modifies u, u.flash, u.flash.mem, u.sha, u.sha.state, u.sha.buf, u.page_buf
    ensures u.Valid() && Answers(c, e) && Beside(old(u.Map()), u.Map()) && u.flash.refused >= old(u.flash.refused)
    ensures u.flash.refused == old(u.flash.refused) && Faithful(old(u.history)) ==> Faithful(u.history)
    ensures Of(u.Map(), Running(u.slot), Ram(u.status)) == Step(old(Of(u.Map(), Running(u.slot), Ram(u.status))), e)
  {
    if c.Begin? {
      e := ServeBegin(u, c);
    } else if c.Write? {
      e := ServeWrite(u, c);
    } else {
      e := ServeFinalize(u, c);
    }
  }

  /** Losing power between erase and program of a record is the same call with the fault `PowerLost`. */
  ghost predicate TearsTo(st: Sys, torn: Parts, e: Event) {
    |torn.a| == |torn.b| == SLOT_SIZE && |torn.meta| == META_SIZE && Of(torn, Off, BLANK) == Step(st, e)
  }

  lemma ApplyRefines(p: Parts, q: Parts, k: Slot, app: App, size: bv32, digest: seq<byte>, f: Fault)
    requires |p.a| == |p.b| == SLOT_SIZE && |p.meta| == |q.meta| == META_SIZE && q == p.(meta := q.meta) && app.image_ready
    requires |digest| == 32
    requires RecordIn(q) == RecordAfter(RecordIn(p), Applied(Base(RecordIn(p), k), Other(k), size, digest), f)
    ensures var ends := f == Good || f == PowerLost;
      Of(q, if ends then Off else Running(k), if ends then BLANK else app)
      == Step(Of(p, Running(k), app), Event.Apply(size, digest, f))
  {
  }

  lemma TornIs(p: Parts, torn: Parts, r: Record)
    requires |p.meta| == META_SIZE && Ota.IsTorn(p, torn)
    ensures RecordIn(torn) == RecordAfter(RecordIn(p), r, PowerLost)
  {
  }

  lemma ApplyServed(p: Parts, q: Parts, torn: Parts, k: Slot, app: App, size: bv32, digest: seq<byte>, f: Fault, rebooted: bool)
    requires |p.a| == |p.b| == SLOT_SIZE && |p.meta| == |q.meta| == META_SIZE && |digest| == 32
    requires rebooted == (app.image_ready && f == Good) && f != PowerLost
    requires if !app.image_ready then q == p
      else
        && q == p.(meta := q.meta) && (f != EraseFails ==> Ota.IsTorn(p, torn))
        && RecordIn(q) == RecordAfter(RecordIn(p), Applied(Base(RecordIn(p), k), Other(k), size, digest), f)
    ensures var (st, e) := (Of(p, Running(k), app), Event.Apply(size, digest, f));
      && Beside(p, q) && Of(q, if rebooted then Off else Running(k), if rebooted then BLANK else app) == Step(st, e)
      && (app.image_ready && f != EraseFails ==> TearsTo(st, torn, e.(fault := PowerLost)))
  {
    if app.image_ready {
      ApplyRefines(p, q, k, app, size, digest, f);
      if f != EraseFails {
        TornIs(p, torn, Applied(Base(RecordIn(p), k), Other(k), size, digest));
        ApplyRefines(p, torn, k, app, size, digest, PowerLost);
      }
    }
  }

  lemma ConfirmRefines(p: Parts, q: Parts, k: Slot, app: App, f: Fault)
    requires |p.a| == |p.b| == SLOT_SIZE && |p.meta| == |q.meta| == META_SIZE && q == p.(meta := q.meta)
    requires (app.pending || app.attempts != 0) && RecordIn(q) == RecordAfter(RecordIn(p), Confirmed(Base(RecordIn(p), k)), f)
    ensures var after := if f == Good then app.(pending := false, attempts := 0) else if f == PowerLost then BLANK else app;
      Of(q, if f == PowerLost then Off else Running(k), after) == Step(Of(p, Running(k), app), Event.Confirm(f))
  {
  }

  lemma ConfirmServed(p: Parts, q: Parts, torn: Parts, k: Slot, app: App, app': App, f: Fault)
    requires |p.a| == |p.b| == SLOT_SIZE && |p.meta| == |q.meta| == META_SIZE && f != PowerLost
    requires if !app.pending && app.attempts == 0 then q == p && app' == app
      else
        && q == p.(meta := q.meta) && (f != EraseFails ==> Ota.IsTorn(p, torn))
        && RecordIn(q) == RecordAfter(RecordIn(p), Confirmed(Base(RecordIn(p), k)), f)
        && app' == if f == Good then app.(pending := false, attempts := 0) else app
    ensures var st := Of(p, Running(k), app);
      && Beside(p, q) && Of(q, Running(k), app') == Step(st, Event.Confirm(f))
      && ((app.pending || app.attempts != 0) && f != EraseFails ==> TearsTo(st, torn, Event.Confirm(PowerLost)))
  {
    if app.pending || app.attempts != 0 {
      ConfirmRefines(p, q, k, app, f);
      if f != EraseFails {
        TornIs(p, torn, Confirmed(Base(RecordIn(p), k)));
        ConfirmRefines(p, torn, k, app, PowerLost);
      }
    }
  }

  lemma StagedIs(st: Ota.Status, h: Ota.History, slot: seq<byte>, size: bv32, digest: seq<byte>)
    requires Ota.Described(st, h, slot) && Faithful(h) && st.bytes_written <= SLOT_SIZE
    requires size == st.bytes_written as bv32 && digest == st.computed_sha256
    ensures Describes(slot, size, digest)
  {
    assert Ota.HoldsImage(slot, h.message);
  }

  /** `ota_apply` either returns or reboots. `torn` is flash after the erase. */
  method ServeApply(u: Ota.Updater) returns (rebooted: bool, ghost e: Event, ghost torn: Parts)
    requires u.Valid()
    modifies u.flash, u.flash.mem
    ensures u.Valid() && Answers(Call.Apply, e) && Legal(e)
    ensures Beside(old(u.Map()), u.Map()) && u.flash.refused >= old(u.flash.refused)
    ensures e.size == u.status.bytes_written as bv32 && e.digest == u.status.computed_sha256
    ensures u.status.image_ready && e.fault != EraseFails ==>
      TearsTo(old(Of(u.Map(), Running(u.slot), Ram(u.status))), torn, e.(fault := PowerLost))
    ensures Of(u.Map(), if rebooted then Off else Running(u.slot), if rebooted then BLANK else Ram(u.status))
         == Step(old(Of(u.Map(), Running(u.slot), Ram(u.status))), e)
  {
    var r;
    ghost var f;
    r, f, torn := u.Apply();
    e := Event.Apply(u.status.bytes_written as bv32, u.status.computed_sha256, f);
    rebooted := r == Ota.Rebooting;
    ApplyServed(old(u.Map()), u.Map(), torn, u.slot, Ram(u.status), e.size, e.digest, f, rebooted);
  }

  method ServeInit(u: Ota.Updater) returns (ghost e: Event, ghost torn: Parts)
    requires u.Valid()
    modifies u, u.flash, u.flash.mem
    ensures u.Valid() && Answers(Call.Init, e) && u.history == old(u.history)
    ensures Beside(old(u.Map()), u.Map()) && u.flash.refused >= old(u.flash.refused)
    ensures old(RecordIn(u.Map())).None? && e.fault != EraseFails ==>
      TearsTo(old(Of(u.Map(), Running(u.slot), Ram(u.status))), torn, Event.Init(PowerLost))
    ensures Of(u.Map(), Running(u.slot), Ram(u.status)) == Step(old(Of(u.Map(), Running(u.slot), Ram(u.status))), e)
  {
    ghost var f;
    f, torn := u.Init();
    e := Event.Init(f);
  }

  method ServeAbort(u: Ota.Updater) returns (ghost e: Event)
    requires u.Valid()
    modifies u
    ensures u.Valid() && Answers(Call.Abort, e) && u.history == old(u.history)
    ensures Of(u.Map(), Running(u.slot), Ram(u.status)) == Step(old(Of(u.Map(), Running(u.slot), Ram(u.status))), e)
  {
    u.Abort();
    e := Event.Abort;
  }

  method ServeConfirm(u: Ota.Updater) returns (ghost e: Event, ghost torn: Parts)
    requires u.Valid()
    modifies u, u.flash, u.flash.mem
    ensures u.Valid() && Answers(Call.Confirm, e) && u.history == old(u.history)
    ensures Beside(old(u.Map()), u.Map()) && u.flash.refused >= old(u.flash.refused)
    ensures (old(u.status.pending_verify) || old(u.status.boot_attempts) != 0) && e.fault != EraseFails ==>
      TearsTo(old(Of(u.Map(), Running(u.slot), Ram(u.status))), torn, Event.Confirm(PowerLost))
    ensures Of(u.Map(), Running(u.slot), Ram(u.status)) == Step(old(Of(u.Map(), Running(u.slot), Ram(u.status))), e)
  {
    ghost var f;
    f, torn := u.ConfirmImage();
    e := Event.Confirm(f);
    ConfirmServed(old(u.Map()), u.Map(), torn, u.slot, old(Ram(u.status)), Ram(u.status), f);
  }

  // ---- Whole sessions -----------------------------------------------------------------

  datatype Op = PowerUp | Reset | Do(call: Call)

  /** The event that a step of a session is: a boot, a reset, or the event of the call. */
  ghost predicate Matches(op: Op, e: Event) {
    match op
    case PowerUp => e == BootUp
    case Reset => e == Event.Reset
    case Do(c) => Answers(c, e) && Legal(e)
  }

  /** A run whose events answer the operations of a script one by one. */
  ghost predicate IsSession(script: seq<Op>, run: seq<Sys>, events: seq<Event>) {
    IsRun(run, events) && |events| == |script| && forall i :: 0 <= i < |script| ==> Matches(script[i], events[i])
  }

  lemma SessionGrows(script: seq<Op>, run: seq<Sys>, events: seq<Event>, i: nat, e: Event, s: Sys)
    requires i < |script| && IsSession(script[..i], run, events) && Matches(script[i], e) && s == Step(run[i], e)
    ensures IsSession(script[..i + 1], run + [s], events + [e])
  {
    assert script[..i + 1] == script[..i] + [script[i]];
  }

  /** An event of the right kind that changes nothing while no application is running. */
  function Idle(c: Call, image: Image): (e: Event)
    ensures Answers(c, e) && Legal(e)
  {
    match c
    case Init => Event.Init(Good)
    case Begin(_) => Event.Begin(false, image)
    case Write(_, _) => Event.Write(image)
    case Finalize => Event.Finalize(false, image)
    case Abort => Event.Abort
    case Apply => Event.Apply(0, Fill(32, 0), EraseFails)
    case Confirm => Event.Confirm(EraseFails)
  }

  lemma SessionLegal(script: seq<Op>, run: seq<Sys>, events: seq<Event>)
    requires IsSession(script, run, events)
    ensures forall e :: e in events ==> Legal(e)
  {
    forall e | e in events ensures Legal(e) {
      var i :| 0 <= i < |events| && events[i] == e;
      assert Matches(script[i], events[i]);
    }
  }

  /** The board: flash, and the application whose RAM is lost at every reset. */
  class Board {
    const flash: Device
    var phase: Phase
    var app: Ota.Updater

    ghost predicate Valid()
      reads this, app, app.flash.mem, app.sha, app.sha.state, app.sha.buf, app.page_buf
    {
      app.flash == flash && app.Valid() && (phase.Running? ==> phase.slot == app.slot)
    }

    ghost function State(): Sys
      requires flash.Valid()
      reads this, app, flash.mem
    {
      Of(PartsOf(flash.mem[..]), phase, if phase.Running? then Ram(app.status) else BLANK)
    }

    constructor (flash: Device)
      requires flash.Valid()
      ensures this.flash == flash && Valid() && phase == Off && Faithful(app.history)
      ensures fresh(app) && fresh(app.sha) && fresh(app.sha.state) && fresh(app.sha.buf) && fresh(app.page_buf)
    {
      this.flash, phase := flash, Off;
      var u := new Ota.Updater(0, flash);
      app := u;
    }

    method Serve(c: Call) returns (ghost e: Event)
      requires Valid() && phase.Running?
      modifies this`phase, app, flash, flash.mem, app.sha, app.sha.state, app.sha.buf, app.page_buf
      ensures Valid() && Answers(c, e) && Legal(e) && State() == Step(old(State()), e)
      ensures Beside(old(PartsOf(flash.mem[..])), PartsOf(flash.mem[..])) && flash.refused >= old(flash.refused)
      ensures flash.refused == old(flash.refused) && Faithful(old(app.history)) ==> Faithful(app.history)
      ensures Faithful(old(app.history)) ==> AppliesImage(old(State()), e)
    {
      ghost var torn;
      if c.Apply? {
        e, torn := Apply();
      } else if c.Begin? || c.Write? || c.Finalize? {
        e := ServeStaging(app, c);
      } else if c.Init? {
        e, torn := ServeInit(app);
      } else if c.Abort? {
        e := ServeAbort(app);
      } else {
        e, torn := ServeConfirm(app);
      }
    }

    method Apply() returns (ghost e: Event, ghost torn: Parts)
      requires Valid() && phase.Running?
      modifies this`phase, flash, flash.mem
      ensures Valid() && Answers(Call.Apply, e) && Legal(e) && State() == Step(old(State()), e)
      ensures Beside(old(PartsOf(flash.mem[..])), PartsOf(flash.mem[..])) && flash.refused >= old(flash.refused)
      ensures Faithful(app.history) ==> AppliesImage(old(State()), e)
    {
      ghost var slot := app.Staging();
      assert app.status.image_ready ==> Ota.Described(app.status, app.history, slot);
      var rebooted;
      rebooted, e, torn := ServeApply(app);
      if app.status.image_ready && Faithful(app.history) {
        StagedIs(app.status, app.history, slot, e.size, e.digest);
      }
      if rebooted {
        phase := Off;
      }
    }

    method Boot()
      requires Valid() && phase == Off
      modifies this, flash.mem
      ensures Valid() && State() == Step(old(State()), BootUp) && Faithful(app.history)
      ensures Beside(old(PartsOf(flash.mem[..])), PartsOf(flash.mem[..]))
      ensures fresh(app) && fresh(app.sha) && fresh(app.sha.state) && fresh(app.sha.buf) && fresh(app.page_buf)
    {
      ghost var cut, torn;
      phase, cut, torn := RunBootloader(flash);
      var u := new Ota.Updater(if phase.Running? then phase.slot else 0, flash);
      app := u;
    }
  }

  /**
   Every session - boots, resets and calls in any order, whatever flash refuses - is a run of the system. Bootloader and
   everything behind the metadata stay. If flash refuses nothing, every apply records exactly the staged image.
   */
  method Live(flash: Device, script: seq<Op>) returns (board: Board, ghost run: seq<Sys>, ghost events: seq<Event>)
    requires flash.Valid()
    modifies flash, flash.mem
    ensures fresh(board) && board.flash == flash && board.Valid() && IsSession(script, run, events)
    ensures run[0] == Of(PartsOf(old(flash.mem[..])), Off, BLANK) && run[|script|] == board.State()
    ensures Beside(PartsOf(old(flash.mem[..])), PartsOf(flash.mem[..]))
    ensures flash.refused == old(flash.refused) ==> AllApplyImages(run, events)
  {
    board := new Board(flash);
    run, events := [board.State()], [];
    for i := 0 to |script|
      invariant fresh(board) && board.flash == flash && board.Valid()
      invariant fresh(board.app) && fresh(board.app.sha) && fresh(board.app.sha.state)
      invariant fresh(board.app.sha.buf) && fresh(board.app.page_buf)
      invariant IsSession(script[..i], run, events)
      invariant run[0] == Of(PartsOf(old(flash.mem[..])), Off, BLANK) && run[i] == board.State()
      invariant Beside(PartsOf(old(flash.mem[..])), PartsOf(flash.mem[..])) && flash.refused >= old(flash.refused)
      invariant flash.refused == old(flash.refused) ==> Faithful(board.app.history) && AllApplyImages(run, events)
    {
      ghost var e := Perform(board, script[i]);
      SessionGrows(script, run, events, i, e, board.State());
      run, events := run + [board.State()], events + [e];
    }
    assert script[..|script|] == script;
  }

  ghost predicate AllApplyImages(run: seq<Sys>, events: seq<Event>) {
    |events| < |run| && forall i :: 0 <= i < |events| ==> AppliesImage(run[i], events[i])
  }

  /** One operation of a session. A call needs a running application. */
  method Perform(board: Board, op: Op) returns (ghost e: Event)
    requires board.Valid()
    modifies board, board.app, board.flash, board.flash.mem
    modifies board.app.sha, board.app.sha.state, board.app.sha.buf, board.app.page_buf
    ensures board.Valid() && Matches(op, e) && board.State() == Step(old(board.State()), e)
    ensures board.app == old(board.app) || (fresh(board.app) && fresh(board.app.sha) && fresh(board.app.sha.state)
      && fresh(board.app.sha.buf) && fresh(board.app.page_buf))
    ensures Beside(old(PartsOf(board.flash.mem[..])), PartsOf(board.flash.mem[..]))
    ensures board.flash.refused >= old(board.flash.refused)
    ensures board.flash.refused == old(board.flash.refused) && Faithful(old(board.app.history)) ==> Faithful(board.app.history)
    ensures Faithful(old(board.app.history)) ==> AppliesImage(old(board.State()), e)
  {
    match op {
      case PowerUp =>
        e := BootUp;
        if board.phase == Off {
          board.Boot();
        }
      case Reset =>
        e := Event.Reset;
        board.phase := Off;
      case Do(c) =>
        e := Idle(c, Fill(SLOT_SIZE, 0));
        if board.phase.Running? {
          e := board.Serve(c);
        }
    }
  }

  // ---- What that says of every session ---------------------------------------------------

  /** Whenever power-up starts an application, flash holds a well-formed record naming its slot, which looks valid. */
  lemma SessionJumps(script: seq<Op>, run: seq<Sys>, events: seq<Event>, i: nat)
    requires IsSession(script, run, events) && Inv(run[0]) && i < |script| && script[i] == PowerUp && run[i].phase == Off
    ensures var n := run[i + 1];
      n.phase.Running? ==>
        n.record.Some? && WellFormed(n.record.value) && n.record.value.active == SlotByte(n.phase.slot)
        && n.Valid(n.phase.slot)
  {
    SessionLegal(script, run, events);
    assert Matches(script[i], events[i]);
    RunJumps(run, events, i);
  }

  lemma SessionRest(script: seq<Op>, run: seq<Sys>, events: seq<Event>, a: nat)
    requires IsSession(script, run, events) && a <= |script|
    ensures IsSession(script[a..], run[a..], events[a..])
  {
    var (s, r, e) := (script[a..], run[a..], events[a..]);
    forall i | 0 <= i < |e| ensures r[i + 1] == Step(r[i], e[i]) && Matches(s[i], e[i]) {
      assert run[a + i + 1] == Step(run[a + i], events[a + i]) && Matches(script[a + i], events[a + i]);
    }
  }

  /** An operation after which a trial is not a trial any more. */
  predicate EndsTrial(op: Op) { op.Do? && (op.call.Begin? || op.call.Confirm?) }

  /** An apply that rebooted from a sound slot `s`, and neither a begin nor a confirm after it. */
  ghost predicate TrialFrom(script: seq<Op>, run: seq<Sys>, events: seq<Event>, a: nat, s: Slot) {
    && IsSession(script, run, events) && Inv(run[0]) && a < |script| && script[a] == Do(Call.Apply)
    && run[a].phase == Running(s) && run[a].app.image_ready && run[a].Valid(s)
    && run[a + 1].phase == Off && run[a + 1].record.Some?
    && forall i :: a < i < |script| ==> !EndsTrial(script[i])
  }

  lemma TrialIsQuiet(script: seq<Op>, run: seq<Sys>, events: seq<Event>, a: nat, s: Slot)
    requires TrialFrom(script, run, events, a, s)
    ensures var (r, e) := (run[a + 1..], events[a + 1..]);
      && IsRun(r, e) && (forall x :: x in e ==> Quiet(x) && Legal(x))
      && OnTrial(r[0], s) && r[0].record.value.pending != 0 && r[0].record.value.attempts == 0 && Left(r[0], s) == 5
    ensures events[a].Apply? && run[a + 1] == Step(run[a], Event.Apply(events[a].size, events[a].digest, Good))
  {
    SessionLegal(script, run, events);
    RunKeeps(run, events, a);
    SessionRest(script, run, events, a + 1);
    assert Matches(script[a], events[a]) && run[a + 1] == Step(run[a], events[a]);
    ApplyStartsTrial(run[a], s, events[a].size, events[a].digest);
    var (r, e) := (run[a + 1..], events[a + 1..]);
    forall x | x in e ensures Quiet(x) && Legal(x) {
      var i :| 0 <= i < |e| && e[i] == x;
      assert Matches(script[a + 1 + i], events[a + 1 + i]) && !EndsTrial(script[a + 1 + i]);
    }
  }

  /** Rollback, for every session: the new slot is entered at most three times, and five boots bring control back to `s`. */
  lemma SessionRollback(script: seq<Op>, run: seq<Sys>, events: seq<Event>, a: nat, s: Slot)
    requires TrialFrom(script, run, events, a, s)
    ensures var (r, e) := (run[a + 1..], events[a + 1..]);
      && Entries(r, e, Other(s), |e|) <= 3
      && (Boots(r, e, |e|) >= 5 ==> exists i :: 0 <= i < |r| && RolledBack(r[i], s))
  {
    TrialIsQuiet(script, run, events, a, s);
    Rollback(run[a + 1..], events[a + 1..], s);
  }

  /** During a trial the new slot is not written, and its entry in the record stays as long as it is on probation. */
  lemma TrialKeepsImage(st: Sys, e: Event, s: Slot)
    requires OnTrial(st, s) && Quiet(e) && Legal(e)
    ensures var (n, t) := (Step(st, e), Other(s));
      && n.At(t) == st.At(t)
      && (n.record.Some? && n.record.value.pending != 0 ==>
        && st.record.value.pending != 0
        && Ota.SizeIn(n.record.value, t) == Ota.SizeIn(st.record.value, t)
        && Ota.ShaIn(n.record.value, t) == Ota.ShaIn(st.record.value, t))
  {
  }

  /** While the record is on probation, its entry describes the image in slot `t`. */
  ghost predicate EntryDescribes(st: Sys, t: Slot) {
    st.record.Some? && st.record.value.pending != 0 ==>
      Describes(st.At(t), Ota.SizeIn(st.record.value, t), Ota.ShaIn(st.record.value, t))
  }

  lemma {:induction false} TrialDescribes(run: seq<Sys>, events: seq<Event>, s: Slot, n: nat)
    requires IsRun(run, events) && n <= |events| && OnTrial(run[0], s) && Left(run[0], s) == 5
    requires forall e :: e in events ==> Quiet(e) && Legal(e)
    requires EntryDescribes(run[0], Other(s))
    ensures OnTrial(run[n], s) && EntryDescribes(run[n], Other(s))
    ensures n > 0 && EntersBoot(run, events, n - 1) && run[n].phase == Running(Other(s)) ==> run[n].record.value.pending != 0
  {
    if n > 0 {
      TrialDescribes(run, events, s, n - 1);
      TrialRuns(run, events, s, n);
      TrialKeepsImage(run[n - 1], events[n - 1], s);
      if EntersBoot(run, events, n - 1) {
        TrialBoots(run[n - 1], s);
      }
    }
  }

  /**
   In a session in which flash refuses nothing: whenever the new slot is entered on trial after an apply, the record's
   size and SHA-256 are those of the one image that the slot holds.
   */
  lemma SessionDescribes(script: seq<Op>, run: seq<Sys>, events: seq<Event>, a: nat, s: Slot, i: nat)
    requires TrialFrom(script, run, events, a, s) && AllApplyImages(run, events)
    requires a < i < |script| && script[i] == PowerUp && run[i].phase == Off && run[i + 1].phase == Running(Other(s))
    ensures var (n, t) := (run[i + 1], Other(s));
      n.record.Some? && Describes(n.At(t), Ota.SizeIn(n.record.value, t), Ota.ShaIn(n.record.value, t))
  {
    TrialIsQuiet(script, run, events, a, s);
    assert AppliesImage(run[a], events[a]);
    ApplyDescribes(run[a], s, events[a].size, events[a].digest);
    var (r, e) := (run[a + 1..], events[a + 1..]);
    assert Matches(script[i], events[i]) && r[i - a] == run[i + 1] && r[i - a - 1] == run[i] && e[i - a - 1] == events[i];
    TrialDescribes(r, e, s, i - a);
  }

  lemma EntryIs(r: Record, t: Slot, size: bv32, digest: seq<byte>)
    ensures var p := Applied(r, t, size, digest); Ota.SizeIn(p, t) == size && Ota.ShaIn(p, t) == digest
  {
  }

  lemma ApplyIs(st: Sys, s: Slot, size: bv32, digest: seq<byte>)
    requires st.phase == Running(s) && st.app.image_ready
    ensures Step(st, Event.Apply(size, digest, Good))
         == Sys(Some(Applied(Base(st.record, s), Other(s), size, digest)), st.a, st.b, Off, BLANK)
  {
  }

  lemma ApplyDescribes(st: Sys, s: Slot, size: bv32, digest: seq<byte>)
    requires st.phase == Running(s) && st.app.image_ready && |digest| == 32 && Describes(st.At(Other(s)), size, digest)
    ensures EntryDescribes(Step(st, Event.Apply(size, digest, Good)), Other(s))
  {
    ApplyIs(st, s, size, digest);
    EntryIs(Base(st.record, s), Other(s), size, digest);
    assert Step(st, Event.Apply(size, digest, Good)).At(Other(s)) == st.At(Other(s));
  }

  /** A confirm that took effect while its slot looked valid, and no apply after it: every later boot enters that slot. */
  lemma SessionConfirmed(script: seq<Op>, run: seq<Sys>, events: seq<Event>, c: nat, t: Slot, i: nat)
    requires IsSession(script, run, events) && Inv(run[0]) && c < i < |script| && script[c] == Do(Call.Confirm)
    requires run[c].phase == Running(t) && run[c].Valid(t) && (run[c].app.pending || run[c].app.attempts != 0)
    requires run[c + 1].phase == Running(t) && !run[c + 1].app.pending && run[c + 1].app.attempts == 0
    requires forall j :: c < j < |script| ==> script[j] != Do(Call.Apply)
    requires script[i] == PowerUp && run[i].phase == Off
    ensures run[i + 1].phase == Running(t)
  {
    SessionLegal(script, run, events);
    RunKeeps(run, events, c);
    SessionRest(script, run, events, c + 1);
    assert Matches(script[c], events[c]) && run[c + 1] == Step(run[c], events[c]);
    ConfirmSettles(run[c], t);
    var (r, e) := (run[c + 1..], events[c + 1..]);
    forall x | x in e ensures !Applies(x) && Legal(x) {
      var j :| 0 <= j < |e| && e[j] == x;
      assert Matches(script[c + 1 + j], events[c + 1 + j]) && script[c + 1 + j] != Do(Call.Apply);
    }
    assert Matches(script[i], events[i]) && r[i - c - 1] == run[i] && r[i - c] == run[i + 1] && e[i - c - 1] == events[i];
    ConfirmedStays(r, e, t, i - c);
  }
}
