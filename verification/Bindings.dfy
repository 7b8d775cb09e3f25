/**
 GPIO bindings (src/system/bindings.c): the interrupt handler, the table, and the pump on the main loop, with
 interrupts at any point between the pump's steps.
 */
module Bindings {
  import opened Bytes
  import opened CLib

  const COUNT: nat := 16
  const TARGET_MAX: nat := 96
  const WRAP: nat := 0x1_0000_0000

  const HIGH: byte := 0
  const LOW: byte := 1
  const CHANGE: byte := 2

  /** `slot_t`; times are 32-bit milliseconds. */
  datatype Slot = Slot(used: bool, pin: byte, edge: byte, debounce: nat, target: seq<byte>, last: nat, pending: bool)

  const EMPTY := Slot(false, 0, 0, 0, [], 0, false)

  /** The settings of a binding. */
  datatype Bound = Bound(pin: byte, edge: byte, debounce: nat, target: seq<byte>)

  function BoundOf(s: Slot): Bound { Bound(s.pin, s.edge, s.debounce, s.target) }

  function Setting(s: Slot): Option<Bound> { if s.used then Some(BoundOf(s)) else None }

  function Settings(slots: seq<Slot>): (t: seq<Option<Bound>>)
    ensures |t| == |slots| && forall i :: 0 <= i < |t| ==> t[i] == Setting(slots[i])
  {
    seq(|slots|, i requires 0 <= i < |slots| => Setting(slots[i]))
  }

  // ---- Where a binding goes --------------------------------------------------------------------

  function PinOf(x: Option<Bound>): Option<byte> { if x.Some? then Some(x.value.pin) else None }

  /** The first place from `from` on with that pin, or, for no pin, that is free. */
  function First(t: seq<Option<Bound>>, pin: Option<byte>, from: nat): (i: nat)
    requires from <= |t|
    ensures from <= i <= |t|
    decreases |t| - from
  {
    if from == |t| || PinOf(t[from]) == pin then from else First(t, pin, from + 1)
  }

  lemma {:induction false} FirstIs(t: seq<Option<Bound>>, pin: Option<byte>, from: nat)
    requires from <= |t|
    ensures var i := First(t, pin, from);
      (forall j :: from <= j < i ==> PinOf(t[j]) != pin) && (i < |t| ==> PinOf(t[i]) == pin)
    decreases |t| - from
  {
    if from < |t| && PinOf(t[from]) != pin {
      FirstIs(t, pin, from + 1);
    }
  }

  /** A binding takes the place of the one on its pin, or else the first free one. */
  function PlaceIn(t: seq<Option<Bound>>, pin: byte): (at: nat)
    ensures at <= |t|
  {
    var i := First(t, Some(pin), 0);
    if i < |t| then i else First(t, None, 0)
  }

  /** The table with one binding more, if it is acceptable and there is a place for it. */
  function Added(t: seq<Option<Bound>>, b: Bound): Option<seq<Option<Bound>>> {
    var at := PlaceIn(t, b.pin);
    if b.pin > 29 || |b.target| > TARGET_MAX || at == |t| then None else Some(t[at := Some(b)])
  }

  /** A binding is refused only for a bad pin, a long target, or a table full of other pins; and no pin is bound twice. */
  lemma AddedWhen(t: seq<Option<Bound>>, b: Bound)
    requires DistinctIn(t)
    ensures Added(t, b).Some? <==>
      b.pin <= 29 && |b.target| <= TARGET_MAX && exists j :: 0 <= j < |t| && (t[j].None? || t[j].value.pin == b.pin)
    ensures Added(t, b).Some? ==> var u := Added(t, b).value;
      && DistinctIn(u) && Some(b) in u
      && forall x :: x in t && x.Some? && x.value.pin != b.pin ==> x in u
  {
    FirstIs(t, Some(b.pin), 0);
    FirstIs(t, None, 0);
    var at := PlaceIn(t, b.pin);
    if Added(t, b).Some? {
      var u := Added(t, b).value;
      assert u[at] == Some(b);
      assert forall j :: 0 <= j < |t| && j != at ==> u[j] == t[j];
    }
  }

  /** No pin is bound twice. */
  ghost predicate DistinctIn(t: seq<Option<Bound>>) {
    forall i, j :: 0 <= i < j < |t| && t[i].Some? && t[j].Some? ==> t[i].value.pin != t[j].value.pin
  }

  /** 32-bit unsigned subtraction. */
  function Elapsed(now: nat, last: nat): (d: nat)
    requires now < WRAP && last < WRAP
  {
    if now >= last then now - last else now + WRAP - last
  }

  predicate Matches(edge: byte, rise: bool, fall: bool) {
    (rise && (edge == HIGH || edge == CHANGE)) || (fall && (edge == LOW || edge == CHANGE))
  }

  /** Whether the interrupt handler accepts an edge for a slot at clock value `now`. */
  predicate Accepts(s: Slot, gpio: byte, rise: bool, fall: bool, now: nat)
    requires now < WRAP && s.last < WRAP
  {
    s.used && s.pin == gpio && Matches(s.edge, rise, fall) && !(s.debounce > 0 && Elapsed(now, s.last) < s.debounce)
  }

  // ---- The history of a slot -----------------------------------------------------------------

  /**
   What happened to a slot since its reference time was last set to 0; `Accepted` carries the true time, which never
   wraps. `Dropped` is the clearing of the flag that ends an installation.
   */
  datatype Event = Accepted(time: nat) | Cleared | Dispatched(target: seq<byte>) | Dropped

  /** The times of two accepted edges, and how far apart they are at least. */
  ghost predicate Spaced(h: seq<Event>, debounce: nat) {
    forall i, j :: 0 <= i < j < |h| && h[i].Accepted? && h[j].Accepted? ==> h[i].time + debounce <= h[j].time
  }

  /** An edge was accepted after the last time the flag was cleared. */
  function Due(h: seq<Event>): bool {
    if h == [] then false
    else if h[|h| - 1].Accepted? then true
    else if h[|h| - 1].Cleared? || h[|h| - 1].Dropped? then false
    else Due(h[..|h| - 1])
  }

  /** A clearing has not been followed by its dispatch yet. */
  function Owed(h: seq<Event>): bool {
    if h == [] then false
    else if h[|h| - 1].Cleared? then true
    else if h[|h| - 1].Dispatched? || h[|h| - 1].Dropped? then false
    else Owed(h[..|h| - 1])
  }

  predicate OnlyAccepted(h: seq<Event>) { forall i :: 0 <= i < |h| ==> h[i].Accepted? }

  /** Every clearing of the flag was due, every dispatch was owed, and edges are dropped by an installation only. */
  function Honest(h: seq<Event>): bool {
    h == [] ||
    (Honest(h[..|h| - 1]) && match h[|h| - 1] {
      case Accepted(_) => true
      case Cleared => Due(h[..|h| - 1])
      case Dispatched(_) => Owed(h[..|h| - 1])
      case Dropped => OnlyAccepted(h[..|h| - 1])
    })
  }

  function Edges(h: seq<Event>): nat {
    if h == [] then 0 else Edges(h[..|h| - 1]) + (if h[|h| - 1].Accepted? then 1 else 0)
  }

  function Dispatches(h: seq<Event>): nat {
    if h == [] then 0 else Dispatches(h[..|h| - 1]) + (if h[|h| - 1].Dispatched? then 1 else 0)
  }

  function One(b: bool): nat { if b then 1 else 0 }

  /** In an honest history there are never more dispatches than accepted edges: each uses one up. */
  lemma {:induction false} NoSpurious(h: seq<Event>)
    requires Honest(h)
    ensures Dispatches(h) + One(Owed(h)) + One(Due(h)) <= Edges(h)
  {
    if h != [] {
      NoSpurious(h[..|h| - 1]);
    }
  }

  lemma {:induction false} NoneDispatched(h: seq<Event>)
    requires OnlyAccepted(h)
    ensures Dispatches(h) == 0
  {
    if h != [] {
      NoneDispatched(h[..|h| - 1]);
    }
  }

  /** Edges accepted while the binding is being installed are lost: only later ones are ever dispatched. */
  lemma {:induction false} DroppedAreLost(es: seq<Event>, rest: seq<Event>)
    requires Honest(es + [Dropped] + rest) && OnlyAccepted(es)
    ensures var h := es + [Dropped] + rest; Dispatches(h) + One(Owed(h)) + One(Due(h)) <= Edges(rest)
  {
    var h := es + [Dropped] + rest;
    if rest == [] {
      assert h[..|h| - 1] == es;
      NoneDispatched(es);
    } else {
      assert h[..|h| - 1] == es + [Dropped] + rest[..|rest| - 1];
      DroppedAreLost(es, rest[..|rest| - 1]);
    }
  }

  /** The true time of the last accepted edge, or 0. */
  function LastTime(h: seq<Event>): nat {
    if h == [] then 0 else if h[|h| - 1].Accepted? then h[|h| - 1].time else LastTime(h[..|h| - 1])
  }

  predicate Bounded(s: Slot) {
    s.last < WRAP && s.debounce < WRAP && |s.target| <= TARGET_MAX && NoNul(s.target) && s.pin <= 29
  }

  /** What a slot's fields say about its history. */
  ghost predicate Tells(s: Slot, h: seq<Event>, clock: nat) {
    && Bounded(s)
    && (s.used ==>
      && Spaced(h, s.debounce) && (forall i :: 0 <= i < |h| && h[i].Accepted? ==> h[i].time <= LastTime(h))
      && LastTime(h) <= clock && s.last == LastTime(h) % WRAP && s.pending == Due(h) && Honest(h))
  }

  lemma Wraps(t: nat, u: nat)
    requires t <= u
    ensures Elapsed(u % WRAP, t % WRAP) == (u - t) % WRAP <= u - t
  {
  }

  /** An accepted edge is at least the debounce time after every earlier one, in true time. */
  lemma AcceptTells(s: Slot, h: seq<Event>, clock: nat, gpio: byte, rise: bool, fall: bool)
    requires Tells(s, h, clock) && Accepts(s, gpio, rise, fall, clock % WRAP)
    ensures Tells(s.(last := clock % WRAP, pending := true), h + [Accepted(clock)], clock)
  {
  }

  lemma ClearTells(s: Slot, h: seq<Event>, clock: nat)
    requires Tells(s, h, clock) && s.used && s.pending
    ensures Tells(s.(pending := false), h + [Cleared], clock) && Owed(h + [Cleared])
  {
  }

  /** The last store of an installation. */
  lemma DropTells(c: Cell, clock: nat)
    requires Flagging(c, clock) && c.s.used
    ensures Tells(c.s.(pending := false), c.h + [Dropped], clock)
  {
    var h := c.h + [Dropped];
    assert h[..|h| - 1] == c.h;
  }

  lemma DispatchTells(s: Slot, h: seq<Event>, clock: nat)
    requires Tells(s, h, clock) && s.used && Owed(h)
    ensures Tells(s, h + [Dispatched(s.target)], clock)
  {
  }

  /**
   When an edge is accepted, exactly: the slot is in use for that pin, the edge is one it is bound to - 0 stands for
   rising, 1 for falling, 2 for both - and it has no debounce time or the time since its last
   accepted edge, modulo 2^32 milliseconds, is at least that. So an edge that comes within the debounce time after a
   multiple of 2^32 milliseconds since the last one is refused although that one is long past. Before any edge was
   accepted the reference time is 0: the first edge is refused within the debounce time of boot, or of a multiple of
   2^32 milliseconds after it.
   */
  lemma AcceptedWhen(s: Slot, h: seq<Event>, clock: nat, gpio: byte, rise: bool, fall: bool)
    requires Tells(s, h, clock)
    ensures Accepts(s, gpio, rise, fall, clock % WRAP) <==>
      && s.used && s.pin == gpio && ((rise && (s.edge == 0 || s.edge == 2)) || (fall && (s.edge == 1 || s.edge == 2)))
      && (s.debounce == 0 || (clock - LastTime(h)) % 0x1_0000_0000 >= s.debounce)
  {
    if s.used {
      Wraps(LastTime(h), clock);
    }
  }

  // ---- What may happen to a slot -------------------------------------------------------------

  /** A slot, its history, and how often it was installed or removed. */
  datatype Cell = Cell(s: Slot, h: seq<Event>, g: nat)

  /** Unless it was installed or removed meanwhile, a slot kept its settings, and its flag if that was up. */
  ghost predicate Kept(c: Cell, d: Cell) {
    && c.g <= d.g
    && (d.g == c.g ==>
      && d.s == c.s.(last := d.s.last, pending := d.s.pending) && c.h <= d.h && (c.s.pending ==> d.s.pending))
  }

  /** Nothing but interrupts reached the slot. */
  ghost predicate Interrupted(c: Cell, d: Cell) {
    Kept(c, d) && d.g == c.g && forall i :: |c.h| <= i < |d.h| ==> d.h[i].Accepted?
  }

  lemma KeptTwice(c: Cell, d: Cell, e: Cell)
    requires Kept(c, d) && Kept(d, e)
    ensures Kept(c, e)
  {
  }

  /** Accepted edges do not settle what is owed. */
  lemma {:induction false} OwedStays(h: seq<Event>, g: seq<Event>)
    requires Owed(h) && h <= g && forall i :: |h| <= i < |g| ==> g[i].Accepted?
    ensures Owed(g)
    decreases |g|
  {
    if |g| > |h| {
      OwedStays(h, g[..|g| - 1]);
    } else {
      assert g == h;
    }
  }

  /** The slot was dispatched since, with its target, or installed or removed. */
  ghost predicate Served(c: Cell, d: Cell) {
    c.g < d.g || (exists k :: |c.h| <= k < |d.h| && d.h[k] == Dispatched(c.s.target))
  }

  /** The slot was due at `c`; at `d` it still is, or it has been served. */
  ghost predicate Carried(c: Cell, d: Cell, passed: bool) {
    && c.g <= d.g && (d.g == c.g ==> c.h <= d.h && d.s == c.s.(last := d.s.last, pending := d.s.pending))
    && (c.s.used && c.s.pending ==> if passed then Served(c, d) else c.g < d.g || d.s.pending)
  }

  lemma CarriedOn(c: Cell, d: Cell, e: Cell, passed: bool)
    requires Carried(c, d, passed) && Kept(d, e)
    ensures Carried(c, e, passed)
  {
  }

  /** Dispatched at `d` with its target, and then whatever the command did. */
  ghost predicate Dispatching(c: Cell, d: Cell, e: Cell) {
    && d.s == c.s.(last := d.s.last, pending := d.s.pending) && d.g == c.g && c.h <= d.h
    && Kept(d.(h := d.h + [Dispatched(d.s.target)]), e)
  }

  lemma CarriedServed(c: Cell, b: Cell, d: Cell, e: Cell)
    requires Carried(c, b, false) && Dispatching(b, d, e)
    ensures Carried(c, e, true)
  {
    if e.g == c.g {
      assert e.h[|d.h|] == (d.h + [Dispatched(d.s.target)])[|d.h|];
    }
  }

  // ---- What may happen to the table -----------------------------------------------------------

  ghost predicate AllKept(cs: seq<Cell>, ds: seq<Cell>) {
    |cs| == |ds| && forall i :: 0 <= i < |cs| ==> Kept(cs[i], ds[i])
  }

  ghost predicate AllInterrupted(cs: seq<Cell>, ds: seq<Cell>) {
    |cs| == |ds| && forall i :: 0 <= i < |cs| ==> Interrupted(cs[i], ds[i])
  }

  lemma AllKeptTwice(cs: seq<Cell>, ds: seq<Cell>, es: seq<Cell>)
    requires AllKept(cs, ds) && AllKept(ds, es)
    ensures AllKept(cs, es)
  {
  }

  lemma AllInterruptedTwice(cs: seq<Cell>, ds: seq<Cell>, es: seq<Cell>)
    requires AllInterrupted(cs, ds) && AllInterrupted(ds, es)
    ensures AllInterrupted(cs, es)
  {
  }

  /** The pump has passed the first `n` slots. */
  ghost predicate AllCarried(cs: seq<Cell>, ds: seq<Cell>, n: nat) {
    |cs| == |ds| && forall i :: 0 <= i < |cs| ==> Carried(cs[i], ds[i], i < n)
  }

  lemma AllCarriedOn(cs: seq<Cell>, ds: seq<Cell>, es: seq<Cell>, n: nat)
    requires AllCarried(cs, ds, n) && AllKept(ds, es)
    ensures AllCarried(cs, es, n)
  {
  }

  /** Slot `n` was not due any more. */
  lemma CarriedPast(cs: seq<Cell>, ds: seq<Cell>, n: nat)
    requires AllCarried(cs, ds, n) && n < |cs| && (!ds[n].s.used || !ds[n].s.pending)
    ensures AllCarried(cs, ds, n + 1)
  {
  }

  /** Slot `n` was dispatched. */
  lemma CarriedOver(cs: seq<Cell>, bs: seq<Cell>, es: seq<Cell>, n: nat, d: Cell)
    requires AllCarried(cs, bs, n) && n < |cs| == |es| && Dispatching(bs[n], d, es[n])
    requires forall i :: 0 <= i < |cs| && i != n ==> Kept(bs[i], es[i])
    ensures AllCarried(cs, es, n + 1)
  {
    forall i | 0 <= i < |cs| ensures Carried(cs[i], es[i], i < n + 1) {
      if i == n {
        CarriedServed(cs[i], bs[i], d, es[i]);
      } else {
        CarriedOn(cs[i], bs[i], es[i], i < n);
      }
    }
  }

  // ---- The code ------------------------------------------------------------------

  /** What the handler makes of a slot. */
  ghost function Fire(c: Cell, gpio: byte, rise: bool, fall: bool, clock: nat): Cell
    requires c.s.last < WRAP
  {
    if Accepts(c.s, gpio, rise, fall, clock % WRAP)
    then c.(s := c.s.(last := clock % WRAP, pending := true), h := c.h + [Accepted(clock)])
    else c
  }

  lemma FireTells(c: Cell, clock: nat, gpio: byte, rise: bool, fall: bool)
    requires Tells(c.s, c.h, clock)
    ensures var d := Fire(c, gpio, rise, fall, clock); Tells(d.s, d.h, clock)
  {
    if Accepts(c.s, gpio, rise, fall, clock % WRAP) {
      AcceptTells(c.s, c.h, clock, gpio, rise, fall);
    }
  }

  /** A slot with its final settings and reference time, whose flag has still to be cleared. */
  ghost predicate Flagging(c: Cell, clock: nat) {
    Tells(c.s.(pending := Due(c.h)), c.h, clock) && OnlyAccepted(c.h)
  }

  lemma FlaggingIs(c: Cell, s: Slot, clock: nat)
    requires Tells(s, c.h, clock) && OnlyAccepted(c.h) && s == c.s.(pending := Due(c.h))
    ensures Flagging(c, clock)
  {
  }

  lemma DueNow(h: seq<Event>, clock: nat)
    requires OnlyAccepted(h)
    ensures Due(h + [Accepted(clock)]) && OnlyAccepted(h + [Accepted(clock)])
  {
  }

  lemma FireFlagging(c: Cell, clock: nat, gpio: byte, rise: bool, fall: bool)
    requires Flagging(c, clock)
    ensures Flagging(Fire(c, gpio, rise, fall, clock), clock)
  {
    if Accepts(c.s, gpio, rise, fall, clock % WRAP) {
      var s := c.s.(pending := Due(c.h));
      AcceptTells(s, c.h, clock, gpio, rise, fall);
      DueNow(c.h, clock);
      FlaggingIs(Fire(c, gpio, rise, fall, clock), s.(last := clock % WRAP, pending := true), clock);
    }
  }

  /**
   Every slot tells its history, and installed slots have different pins. Slot `at`, if there is one, is being
   installed: its settings are in place if `set`.
   */
  ghost predicate SoundBut(cs: seq<Cell>, clock: nat, at: nat, placed: bool) {
    && |cs| == COUNT && (forall i :: 0 <= i < COUNT && i != at ==> Tells(cs[i].s, cs[i].h, clock))
    && (at < COUNT ==> Bounded(cs[at].s) && (placed ==> Flagging(cs[at], clock)))
    && forall i, j :: 0 <= i < j < COUNT && (placed || (i != at && j != at)) && cs[i].s.used && cs[j].s.used ==>
      cs[i].s.pin != cs[j].s.pin
  }

  ghost predicate Sound(cs: seq<Cell>, clock: nat) { SoundBut(cs, clock, COUNT, false) }

  lemma FireSound(cs: seq<Cell>, clock: nat, at: nat, placed: bool, i: nat, gpio: byte, rise: bool, fall: bool)
    requires SoundBut(cs, clock, at, placed) && i < COUNT
    ensures SoundBut(cs[i := Fire(cs[i], gpio, rise, fall, clock)], clock, at, placed)
  {
    if i != at {
      FireTells(cs[i], clock, gpio, rise, fall);
    } else if placed {
      FireFlagging(cs[i], clock, gpio, rise, fall);
    }
  }

  /** The settings are in place, and the reference time is 0. */
  lemma SetSound(cs: seq<Cell>, ds: seq<Cell>, clock: nat, at: nat, b: Bound)
    requires |cs| == COUNT && OthersInterrupted(cs, ds, at) && SoundBut(ds, clock, at, false) && at < COUNT
    requires ds[at].s.used && BoundOf(ds[at].s) == b
    requires forall j :: 0 <= j < COUNT && j != at && cs[j].s.used ==> cs[j].s.pin != b.pin
    ensures SoundBut(ds[at := Cell(ds[at].s.(last := 0), [], ds[at].g)], clock, at, true)
  {
    assert forall j :: 0 <= j < COUNT && j != at ==> Interrupted(cs[j], ds[j]);
  }

  /** No other binding has the pin. */
  lemma PlaceApart(cs: seq<Cell>, slots: seq<Slot>, clock: nat, pin: byte)
    requires Sound(cs, clock) && |slots| == COUNT && forall i :: 0 <= i < COUNT ==> cs[i].s == slots[i]
    ensures forall j :: 0 <= j < COUNT && j != PlaceIn(Settings(slots), pin) && slots[j].used ==> slots[j].pin != pin
  {
    FirstIs(Settings(slots), Some(pin), 0);
  }

  /** A new binding, and interrupts elsewhere. */
  lemma InstalledSettings(cs: seq<Cell>, ds: seq<Cell>, s: seq<Slot>, t: seq<Slot>, at: nat, b: Bound)
    requires OthersInterrupted(cs, ds, at) && at < |cs| == |s| == |t| && Installed(ds[at], b)
    requires forall i :: 0 <= i < |s| ==> cs[i].s == s[i] && ds[i].s == t[i]
    ensures Settings(t) == Settings(s)[at := Some(b)]
  {
    forall i | 0 <= i < |s| && i != at ensures Setting(t[i]) == Setting(s[i]) {
      assert Interrupted(cs[i], ds[i]);
    }
  }

  function Lower(c: Cell): Cell { c.(s := c.s.(pending := false), h := c.h + [Dropped]) }

  lemma DropSound(cs: seq<Cell>, clock: nat, at: nat)
    requires SoundBut(cs, clock, at, true) && at < COUNT && cs[at].s.used
    ensures Sound(cs[at := Lower(cs[at])], clock) && OnlyAccepted(cs[at].h)
  {
    DropTells(cs[at], clock);
  }

  lemma Lowered(c: Cell, d: Cell, b: Bound)
    requires d == Lower(c) && OnlyAccepted(c.h) && c.s.used && BoundOf(c.s) == b
    ensures Installed(d, b)
  {
    assert d.h[..|d.h| - 1] == c.h;
  }

  /** Only interrupts reached the slots other than `at`. */
  ghost predicate OthersInterrupted(cs: seq<Cell>, ds: seq<Cell>, at: nat) {
    |cs| == |ds| && forall i :: 0 <= i < |cs| && i != at ==> Interrupted(cs[i], ds[i])
  }

  lemma OthersTwice(cs: seq<Cell>, ds: seq<Cell>, es: seq<Cell>, at: nat)
    requires OthersInterrupted(cs, ds, at) && OthersInterrupted(ds, es, at)
    ensures OthersInterrupted(cs, es, at)
  {
  }

  /** A slot just installed: edges accepted before its flag was cleared are on record as dropped. */
  ghost predicate Installed(c: Cell, b: Bound) {
    && c.s.used && BoundOf(c.s) == b && !c.s.pending
    && c.h != [] && c.h[|c.h| - 1] == Dropped && OnlyAccepted(c.h[..|c.h| - 1])
  }

  /** `g_slots` and the millisecond clock. */
  class Table {
    const slots: array<Slot>
    var clock: nat
    ghost var hist: seq<seq<Event>>
    ghost var gen: seq<nat>

    ghost function Cells(): (cs: seq<Cell>)
      requires slots.Length == |hist| == |gen| == COUNT
      reads this, slots
      ensures |cs| == COUNT && forall i :: 0 <= i < COUNT ==> cs[i] == Cell(slots[i], hist[i], gen[i])
    {
      var (s, h, g) := (slots[..], hist, gen);
      seq(COUNT, i requires 0 <= i < COUNT => Cell(s[i], h[i], g[i]))
    }

    ghost predicate Valid()
      reads this, slots
    {
      Working(COUNT, false)
    }

    /** The table while slot `at` is being installed. */
    ghost predicate Working(at: nat, placed: bool)
      reads this, slots
    {
      slots.Length == |hist| == |gen| == COUNT && SoundBut(Cells(), clock, at, placed)
    }

    constructor ()
      ensures Valid() && fresh(slots) && forall i :: 0 <= i < COUNT ==> !slots[i].used && !slots[i].pending
    {
      slots := new Slot[COUNT](i => EMPTY);
      clock, hist, gen := 0, seq(COUNT, i => []), seq(COUNT, i => 0);
    }

    /** The tests of the handler's loop body. */
    static method Decide(s: Slot, gpio: byte, rise: bool, fall: bool, now: nat) returns (accepted: bool)
      requires now < WRAP && s.last < WRAP
      ensures accepted == Accepts(s, gpio, rise, fall, now)
    {
      if !s.used || s.pin != gpio {
        return false;
      }
      var matched := false;
      if rise {
        matched := s.edge == HIGH || s.edge == CHANGE;
      }
      if fall {
        matched := matched || s.edge == LOW || s.edge == CHANGE;
      }
      if !matched {
        return false;
      }
      if s.debounce > 0 && Elapsed(now, s.last) < s.debounce {
        return false;
      }
      accepted := true;
    }

    /** The handler's loop body. */
    method FireSlot(i: nat, gpio: byte, rise: bool, fall: bool, ghost at: nat, ghost placed: bool)
      requires Working(at, placed) && i < COUNT
      modifies this`hist, slots
      ensures Working(at, placed) && Cells() == old(Cells())[i := Fire(old(Cells())[i], gpio, rise, fall, clock)]
    {
      ghost var cs := Cells();
      FireSound(cs, clock, at, placed, i, gpio, rise, fall);
      var (now, s) := (clock % WRAP, slots[i]);
      assert cs[i].s == s;
      var accepted := Decide(s, gpio, rise, fall, now);
      if accepted {
        slots[i] := s.(last := now, pending := true);
        hist := hist[i := hist[i] + [Accepted(clock)]];
      }
      assert Cells() == cs[i := Fire(cs[i], gpio, rise, fall, clock)];
    }

    /** `gpio_irq_cb`. */
    method GpioIrq(gpio: byte, rise: bool, fall: bool, ghost at: nat, ghost placed: bool)
      requires Working(at, placed)
      modifies this`hist, slots
      ensures Working(at, placed) && AllInterrupted(old(Cells()), Cells())
      ensures forall i :: 0 <= i < COUNT ==> Cells()[i] == Fire(old(Cells())[i], gpio, rise, fall, clock)
    {
      ghost var cs := Cells();
      for i := 0 to COUNT
        invariant Working(at, placed)
        invariant forall j :: 0 <= j < COUNT ==> Cells()[j] == if j < i then Fire(cs[j], gpio, rise, fall, clock) else cs[j]
      {
        FireSlot(i, gpio, rise, fall, at, placed);
      }
    }

    /** Time passes, and any number of interrupts come. */
    method Interrupts(ghost at: nat, ghost placed: bool)
      requires Working(at, placed)
      modifies this`hist, this`clock, slots
      ensures Working(at, placed) && AllInterrupted(old(Cells()), Cells())
    {
      var n: nat :| true;
      for k := 0 to n
        invariant Working(at, placed) && AllInterrupted(old(Cells()), Cells())
      {
        ghost var ds := Cells();
        var ms: nat :| true;
        clock := clock + ms;
        var gpio: byte, rise: bool, fall: bool := *, *, *;
        GpioIrq(gpio, rise, fall, at, placed);
        AllInterruptedTwice(old(Cells()), ds, Cells());
      }
    }

    /** `find_slot`. */
    method FindSlot(pin: byte) returns (i: nat)
      requires Valid()
      ensures i == First(Settings(slots[..]), Some(pin), 0)
    {
      i := 0;
      while i < COUNT && !(slots[i].used && slots[i].pin == pin)
        invariant i <= COUNT && First(Settings(slots[..]), Some(pin), i) == First(Settings(slots[..]), Some(pin), 0)
      {
        i := i + 1;
      }
    }

    /** `find_free`. */
    method FindFree() returns (i: nat)
      requires Valid()
      ensures i == First(Settings(slots[..]), None, 0)
    {
      i := 0;
      while i < COUNT && slots[i].used
        invariant i <= COUNT && First(Settings(slots[..]), None, i) == First(Settings(slots[..]), None, 0)
      {
        i := i + 1;
      }
    }

    /** The slot `bindings_add` uses. */
    method Place(pin: byte) returns (at: nat)
      requires Valid()
      ensures at == PlaceIn(Settings(slots[..]), pin)
    {
      at := FindSlot(pin);
      if at == COUNT {
        at := FindFree();
      }
    }

    /** `used = false`, the one store that frees a slot. */
    method Free(at: nat)
      requires Valid() && at < COUNT
      modifies this`hist, this`gen, slots
      ensures Valid() && AllKept(old(Cells()), Cells()) && slots[..] == old(slots[..])[at := old(slots[at]).(used := false)]
    {
      assert Cells()[at].s == slots[at];
      slots[at] := slots[at].(used := false);
      hist, gen := hist[at := []], gen[at := gen[at] + 1];
    }

    /** An installation begins: what was known of the slot is over. */
    ghost method Open(at: nat)
      requires Valid() && at < COUNT
      modifies this`hist, this`gen
      ensures Working(at, false) && Cells() == old(Cells())[at := Cell(slots[at], [], old(gen)[at] + 1)]
    {
      assert Cells()[at].s == slots[at];
      hist, gen := hist[at := []], gen[at := gen[at] + 1];
      assert Cells() == old(Cells())[at := Cell(slots[at], [], old(gen)[at] + 1)];
    }

    /** One store into a slot that is being installed, and interrupts after it; `cs` are the cells at the start. */
    method Store(at: nat, s: Slot, ghost cs: seq<Cell>)
      requires Working(at, false) && at < COUNT && Bounded(s) && OthersInterrupted(cs, Cells(), at)
      modifies this`hist, this`clock, slots
      ensures Working(at, false) && OthersInterrupted(cs, Cells(), at)
      ensures slots[at] == s.(last := slots[at].last, pending := slots[at].pending) && Bounded(slots[at])
    {
      ghost var ds := Cells();
      slots[at] := s;
      ghost var es := Cells();
      assert es == ds[at := ds[at].(s := s)];
      Interrupts(at, false);
      ghost var fs := Cells();
      assert Interrupted(es[at], fs[at]);
      OthersTwice(cs, es, fs, at);
    }

    /** The stores of `bindings_add` up to the reference time. */
    method StoreSettings(at: nat, b: Bound)
      requires Valid() && at < COUNT && b.pin <= 29 && |b.target| <= TARGET_MAX && NoNul(b.target) && b.debounce < WRAP
      requires forall j :: 0 <= j < COUNT && j != at && slots[j].used ==> slots[j].pin != b.pin
      modifies this, slots
      ensures Working(at, true) && OthersInterrupted(old(Cells()), Cells(), at) && gen[at] > old(gen)[at]
      ensures slots[at].used && BoundOf(slots[at]) == b
    {
      ghost var cs := Cells();
      Open(at);
      StoreFields(at, b, cs);
      ghost var ds := Cells();
      SetSound(cs, ds, clock, at, b);
      slots[at] := slots[at].(last := 0);
      hist := hist[at := []];
      assert Cells() == ds[at := Cell(ds[at].s.(last := 0), [], ds[at].g)];
    }

    method StoreFields(at: nat, b: Bound, ghost cs: seq<Cell>)
      requires Working(at, false) && at < COUNT && OthersInterrupted(cs, Cells(), at)
      requires b.pin <= 29 && |b.target| <= TARGET_MAX && NoNul(b.target) && b.debounce < WRAP
      modifies this`hist, this`clock, slots
      ensures Working(at, false) && OthersInterrupted(cs, Cells(), at)
      ensures slots[at].used && BoundOf(slots[at]) == b
    {
      assert Bounded(Cells()[at].s);
      Store(at, slots[at].(used := true), cs);
      Store(at, slots[at].(pin := b.pin), cs);
      Store(at, slots[at].(edge := b.edge), cs);
      Store(at, slots[at].(debounce := b.debounce), cs);
      Store(at, slots[at].(target := b.target), cs);
    }

    /** All stores of `bindings_add`. */
    method Overwrite(at: nat, b: Bound)
      requires Valid() && at < COUNT && b.pin <= 29 && |b.target| <= TARGET_MAX && NoNul(b.target) && b.debounce < WRAP
      requires forall j :: 0 <= j < COUNT && j != at && slots[j].used ==> slots[j].pin != b.pin
      modifies this, slots
      ensures Valid() && OthersInterrupted(old(Cells()), Cells(), at) && gen[at] > old(gen)[at]
      ensures Installed(Cells()[at], b)
    {
      ghost var cs := Cells();
      StoreSettings(at, b);
      FlagWindow(at, b, cs);
    }

    /** Interrupts before the last store, and that store; `cs` are the cells at the start. */
    method FlagWindow(at: nat, ghost b: Bound, ghost cs: seq<Cell>)
      requires Working(at, true) && at < COUNT && OthersInterrupted(cs, Cells(), at)
      requires slots[at].used && BoundOf(slots[at]) == b
      modifies this`hist, this`clock, slots
      ensures Valid() && OthersInterrupted(cs, Cells(), at) && Installed(Cells()[at], b)
    {
      ghost var ds := Cells();
      Interrupts(at, true);
      ghost var es := Cells();
      OthersTwice(cs, ds, es, at);
      assert Interrupted(ds[at], es[at]);
      LowerFlag(at);
      Lowered(es[at], Cells()[at], b);
    }

    /** `pending = false`, the last store of an installation. */
    method LowerFlag(at: nat)
      requires Working(at, true) && at < COUNT && slots[at].used
      modifies this`hist, slots
      ensures Valid() && Cells() == old(Cells())[at := Lower(old(Cells())[at])] && OnlyAccepted(old(Cells())[at].h)
    {
      ghost var cs := Cells();
      DropSound(cs, clock, at);
      slots[at] := slots[at].(pending := false);
      hist := hist[at := hist[at] + [Dropped]];
      assert Cells() == cs[at := Lower(cs[at])];
    }

    /** `bindings_add`, interrupted between any two of its stores. */
    method Add(pin: byte, edge: byte, target: seq<byte>, debounce: nat) returns (ok: bool, ghost at: nat)
      requires Valid() && debounce < WRAP && NoNul(target)
      modifies this, slots
      ensures Valid() && AllKept(old(Cells()), Cells())
      ensures ok == Added(Settings(old(slots[..])), Bound(pin, edge, debounce, target)).Some?
      ensures !ok ==> Cells() == old(Cells())
      ensures ok ==> Settings(slots[..]) == Added(Settings(old(slots[..])), Bound(pin, edge, debounce, target)).value
      ensures ok ==> at < COUNT && Installed(Cells()[at], Bound(pin, edge, debounce, target))
      ensures ok ==> OthersInterrupted(old(Cells()), Cells(), at)
    {
      ok, at := false, COUNT;
      if pin > 29 || |target| > TARGET_MAX {
        return;
      }
      var k := Place(pin);
      if k == COUNT {
        return;
      }
      ok, at := true, k;
      ghost var (cs, s) := (Cells(), slots[..]);
      PlaceApart(cs, s, clock, pin);
      Overwrite(k, Bound(pin, edge, debounce, target));
      InstalledSettings(cs, Cells(), s, slots[..], k, Bound(pin, edge, debounce, target));
    }

    /** `bindings_remove`. */
    method Remove(pin: byte) returns (ok: bool)
      requires Valid()
      modifies this`hist, this`gen, slots
      ensures Valid() && AllKept(old(Cells()), Cells())
      ensures ok == old(exists j :: 0 <= j < COUNT && slots[j].used && slots[j].pin == pin)
      ensures forall i :: 0 <= i < COUNT ==>
        if old(slots[i]).used && old(slots[i]).pin == pin then !slots[i].used else slots[i] == old(slots[i])
    {
      FirstIs(Settings(slots[..]), Some(pin), 0);
      PlaceApart(Cells(), slots[..], clock, pin);
      var at := FindSlot(pin);
      if at == COUNT {
        return false;
      }
      Free(at);
      ok := true;
    }

    /** A dispatched command may change the table, and is interrupted as it runs. */
    method Command()
      requires Valid()
      modifies this, slots
      ensures Valid() && AllKept(old(Cells()), Cells())
    {
      var n: nat :| true;
      for k := 0 to n
        invariant Valid() && AllKept(old(Cells()), Cells())
      {
        ghost var ds := Cells();
        Interrupts(COUNT, false);
        AllKeptTwice(old(Cells()), ds, Cells());
        ds := Cells();
        var add: bool, pin: byte, edge: byte := *, *, *;
        var target: seq<byte> :| NoNul(target);
        var debounce: nat :| debounce < WRAP;
        if add {
          var ok, at := Add(pin, edge, target, debounce);
        } else {
          var ok := Remove(pin);
        }
        AllKeptTwice(old(Cells()), ds, Cells());
      }
    }

    /**
     `bindings_dispatch_pending`, interrupted anywhere. Every binding that was due at the start is dispatched with its
     target, unless a command installed or removed it meanwhile.
     */
    method DispatchPending()
      requires Valid()
      modifies this, slots
      ensures Valid()
      ensures forall i :: 0 <= i < COUNT && old(slots[i].used && slots[i].pending) ==> Served(old(Cells())[i], Cells()[i])
    {
      ghost var cs := Cells();
      for i := 0 to COUNT
        invariant Valid() && AllCarried(cs, Cells(), i)
      {
        ghost var bs := Cells();
        Interrupts(COUNT, false);
        AllCarriedOn(cs, bs, Cells(), i);
        bs := Cells();
        if !slots[i].used || !slots[i].pending {
          CarriedPast(cs, bs, i);
          continue;
        }
        ghost var d := DispatchOne(i);
        CarriedOver(cs, bs, Cells(), i, d);
      }
      assert forall i :: 0 <= i < COUNT ==> Carried(cs[i], Cells()[i], true);
    }

    /** The body of that loop for a slot that is due. */
    method DispatchOne(i: nat) returns (ghost d: Cell)
      requires Valid() && i < COUNT && slots[i].used && slots[i].pending
      modifies this, slots
      ensures Valid() && Dispatching(old(Cells())[i], d, Cells()[i])
      ensures forall j :: 0 <= j < COUNT && j != i ==> Kept(old(Cells())[j], Cells()[j])
    {
      ghost var cs := Cells();
      Interrupts(COUNT, false);
      ghost var ds := Cells();
      assert Interrupted(cs[i], ds[i]);
      ClearFlag(i);
      ghost var es := Cells();
      Interrupts(COUNT, false);
      ghost var fs := Cells();
      assert Interrupted(es[i], fs[i]);
      OwedStays(es[i].h, fs[i].h);
      d := fs[i];
      Dispatch(i);
      forall j | 0 <= j < COUNT && j != i ensures Kept(cs[j], Cells()[j]) {
        KeptTwice(cs[j], ds[j], fs[j]);
        KeptTwice(cs[j], fs[j], Cells()[j]);
      }
    }

    method ClearFlag(i: nat)
      requires Valid() && i < COUNT && slots[i].used && slots[i].pending
      modifies this`hist, slots
      ensures Valid() && Owed(hist[i])
      ensures var c := old(Cells())[i];
        Cells() == old(Cells())[i := c.(s := c.s.(pending := false), h := c.h + [Cleared])]
    {
      ClearTells(slots[i], hist[i], clock);
      slots[i] := slots[i].(pending := false);
      hist := hist[i := hist[i] + [Cleared]];
    }

    /** The target, dispatched: it goes on record, and the command does what it does. */
    method Dispatch(i: nat)
      requires Valid() && i < COUNT && slots[i].used && Owed(hist[i])
      modifies this, slots
      ensures Valid()
      ensures var c := old(Cells())[i]; Kept(c.(h := c.h + [Dispatched(c.s.target)]), Cells()[i])
      ensures forall j :: 0 <= j < COUNT && j != i ==> Kept(old(Cells())[j], Cells()[j])
    {
      DispatchTells(slots[i], hist[i], clock);
      hist := hist[i := hist[i] + [Dispatched(slots[i].target)]];
      Command();
    }
  }
}
