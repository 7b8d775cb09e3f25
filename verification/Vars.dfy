/** Shell variables (src/system/vars.c): a table of 32 slots that is a map of bounded size. */
module Vars {
  import opened Bytes
  import opened SlotTable

  const COUNT: nat := 32
  const NAME_MAX: nat := 31
  const VALUE_MAX: nat := 95

  predicate NameCharFirst(c: byte) { 65 <= c <= 90 || 97 <= c <= 122 || c == 95 }

  predicate NameCharRest(c: byte) { NameCharFirst(c) || 48 <= c <= 57 }

  /** Letters and underscore, and digits as well after the first character. */
  lemma NameChars(c: byte)
    ensures NameCharFirst(c) <==>
      || 'A' as int <= c as int <= 'Z' as int || 'a' as int <= c as int <= 'z' as int || c as int == '_' as int
    ensures NameCharRest(c) <==> NameCharFirst(c) || '0' as int <= c as int <= '9' as int
  {
  }

  predicate ValidName(n: seq<byte>) {
    n != [] && NameCharFirst(n[0]) && |n| <= NAME_MAX && forall i :: 0 <= i < |n| ==> NameCharRest(n[i])
  }

  /** The variables: names and values without NUL, within their lengths. */
  ghost predicate Bounded(vars: map<seq<byte>, seq<byte>>) {
    |vars| <= COUNT && forall n :: n in vars ==> ValidName(n) && |vars[n]| <= VALUE_MAX && 0 !in vars[n]
  }

  type Slots = seq<Entry<seq<byte>>>

  ghost predicate Fits(s: Slots) {
    |s| == COUNT && Distinct(s)
    && forall i :: 0 <= i < COUNT && s[i].Taken? ==> ValidName(s[i].name) && |s[i].value| <= VALUE_MAX && 0 !in s[i].value
  }

  /** `g_slots`. */
  class Table {
    const slots: array<Entry<seq<byte>>>

    ghost predicate Valid()
      reads slots
    {
      Fits(slots[..])
    }

    ghost function Map(): map<seq<byte>, seq<byte>>
      reads slots
    {
      MapOf(slots[..])
    }

    constructor ()
      ensures Valid() && Map() == map[] && fresh(slots)
    {
      slots := new Entry<seq<byte>>[COUNT](i => Vacant);
      new;
      Sized(slots[..]);
      forall n ensures n !in MapOf(slots[..]) {
        Absent(slots[..], n);
      }
    }

    /** `find_slot`. */
    method FindSlot(name: seq<byte>) returns (i: nat)
      requires Valid()
      ensures i < COUNT ==> Names(slots[..], i, name)
      ensures i < COUNT <==> name in Map()
      ensures i <= COUNT
    {
      Found(slots[..], name);
      i := 0;
      while i < COUNT
        invariant i <= COUNT && forall j :: 0 <= j < i ==> !Names(slots[..], j, name)
      {
        if slots[i].Taken? && slots[i].name == name {
          assert Names(slots[..], i, name);
          return;
        }
        i := i + 1;
      }
    }

    /** `free_slot`. */
    method FreeSlot() returns (i: nat)
      requires Valid()
      ensures i < COUNT ==> slots[i].Vacant?
      ensures i < COUNT <==> |Map()| < COUNT
      ensures i <= COUNT
    {
      Sized(slots[..]);
      i := 0;
      while i < COUNT
        invariant i <= COUNT && forall j :: 0 <= j < i ==> slots[j].Taken?
      {
        if slots[i].Vacant? {
          return;
        }
        i := i + 1;
      }
    }

    /** `vars_set` of a string. */
    method Set(name: seq<byte>, value: seq<byte>) returns (ok: bool)
      requires Valid() && 0 !in value
      modifies slots
      ensures Valid()
      ensures ok <==> ValidName(name) && |value| <= VALUE_MAX && (name in old(Map()) || |old(Map())| < COUNT)
      ensures Map() == if ok then old(Map())[name := value] else old(Map())
    {
      if !ValidName(name) {
        return false;
      }
      if |value| > VALUE_MAX {
        return false;
      }
      var i := FindSlot(name);
      if i == COUNT {
        i := FreeSlot();
        if i == COUNT {
          return false;
        }
      }
      Put(slots[..], i, name, value);
      slots[i] := Taken(name, value);
      ok := true;
    }

    /** `vars_unset`. */
    method Unset(name: seq<byte>) returns (ok: bool)
      requires Valid()
      modifies slots
      ensures Valid() && ok == (name in old(Map())) && Map() == old(Map()) - {name}
    {
      var i := FindSlot(name);
      if i == COUNT {
        return false;
      }
      Clear(slots[..], i, name);
      slots[i] := Vacant;
      ok := true;
    }

    /** `vars_get`. */
    method Get(name: seq<byte>) returns (v: Option<seq<byte>>)
      requires Valid()
      ensures v == if name in Map() then Some(Map()[name]) else None
      ensures v.Some? ==> |v.value| <= VALUE_MAX && 0 !in v.value
    {
      var i := FindSlot(name);
      if i == COUNT {
        return None;
      }
      Present(slots[..], i);
      v := Some(slots[i].value);
    }
  }

  /** What the table always is: a map of at most 32 valid names to short values. */
  lemma TableBounded(s: Slots)
    requires Fits(s)
    ensures Bounded(MapOf(s)) && |MapOf(s)| <= 32
    ensures forall n :: n in MapOf(s) ==> n != [] && |n| <= 31 && |MapOf(s)[n]| <= 95
  {
    Sized(s);
    forall n | n in MapOf(s) ensures ValidName(n) && |MapOf(s)[n]| <= VALUE_MAX && 0 !in MapOf(s)[n] {
      Found(s, n);
      var i :| Names(s, i, n);
      Present(s, i);
    }
  }
}
