/** A fixed array of named slots as a bounded map: what the variables and the script store have in common. */
module SlotTable {
  import opened Bytes

  datatype Entry<V> = Vacant | Taken(name: seq<byte>, value: V)

  ghost predicate Names<V>(s: seq<Entry<V>>, i: nat, name: seq<byte>) {
    i < |s| && s[i].Taken? && s[i].name == name
  }

  ghost predicate Has<V>(s: seq<Entry<V>>, name: seq<byte>) { exists i :: Names(s, i, name) }

  ghost predicate Full<V>(s: seq<Entry<V>>) { forall i :: 0 <= i < |s| ==> s[i].Taken? }

  ghost predicate Distinct<V>(s: seq<Entry<V>>) {
    forall i, j :: 0 <= i < j < |s| && s[i].Taken? && s[j].Taken? ==> s[i].name != s[j].name
  }

  /** The table as a map. */
  ghost function MapOf<V>(s: seq<Entry<V>>): map<seq<byte>, V> {
    if s == [] then map[]
    else
      var (m, last) := (MapOf(s[..|s| - 1]), s[|s| - 1]);
      if last.Taken? then m[last.name := last.value] else m
  }

  lemma {:induction false} Present<V>(s: seq<Entry<V>>, i: nat)
    requires Distinct(s) && i < |s| && s[i].Taken?
    ensures s[i].name in MapOf(s) && MapOf(s)[s[i].name] == s[i].value
  {
    var init := s[..|s| - 1];
    if i < |s| - 1 {
      assert init[i] == s[i];
      Present(init, i);
    }
  }

  lemma {:induction false} Absent<V>(s: seq<Entry<V>>, name: seq<byte>)
    requires forall i :: 0 <= i < |s| ==> !(s[i].Taken? && s[i].name == name)
    ensures name !in MapOf(s)
  {
    if s != [] {
      Absent(s[..|s| - 1], name);
    }
  }

  /** Membership is being in a slot. */
  lemma Found<V>(s: seq<Entry<V>>, name: seq<byte>)
    requires Distinct(s)
    ensures name in MapOf(s) <==> Has(s, name)
  {
    if i :| Names(s, i, name) {
      Present(s, i);
    } else {
      forall i | 0 <= i < |s| ensures !(s[i].Taken? && s[i].name == name) {
        assert !Names(s, i, name);
      }
      Absent(s, name);
    }
  }

  /** The table is full exactly when the map has as many names as there are slots. */
  lemma {:induction false} Sized<V>(s: seq<Entry<V>>)
    requires Distinct(s)
    ensures |MapOf(s)| <= |s|
    ensures |MapOf(s)| == |s| <==> Full(s)
  {
    if s != [] {
      var (init, last) := (s[..|s| - 1], s[|s| - 1]);
      Sized(init);
      if last.Taken? {
        Absent(init, last.name);
        assert MapOf(s).Keys == MapOf(init).Keys + {last.name};
        assert |MapOf(s)| == |MapOf(s).Keys| == |MapOf(init).Keys| + 1;
        assert Full(s) <==> Full(init);
      }
    }
  }

  /** Where slot `i` is vacant, or already holds this name, taking it updates the map. */
  lemma Put<V>(s: seq<Entry<V>>, i: nat, name: seq<byte>, value: V)
    requires Distinct(s) && i < |s|
    requires Names(s, i, name) || (s[i].Vacant? && name !in MapOf(s))
    ensures Distinct(s[i := Taken(name, value)])
    ensures MapOf(s[i := Taken(name, value)]) == MapOf(s)[name := value]
  {
    var t := s[i := Taken(name, value)];
    forall j | 0 <= j < |s| && s[j].Taken? && j != i ensures s[j].name != name {
      Present(s, j);
    }
    Same(s, t, i, name, MapOf(s)[name := value]);
  }

  /** Vacating a slot removes its name. */
  lemma Clear<V>(s: seq<Entry<V>>, i: nat, name: seq<byte>)
    requires Distinct(s) && Names(s, i, name)
    ensures Distinct(s[i := Vacant]) && MapOf(s[i := Vacant]) == MapOf(s) - {name}
  {
    Same(s, s[i := Vacant], i, name, MapOf(s) - {name});
  }

  /** Two tables that differ in slot `i` only, in maps that differ at `name` only. */
  lemma Same<V>(s: seq<Entry<V>>, t: seq<Entry<V>>, i: nat, name: seq<byte>, m: map<seq<byte>, V>)
    requires Distinct(s) && Distinct(t) && i < |s| == |t| && t == s[i := t[i]]
    requires forall n :: n != name ==> (n in m <==> n in MapOf(s)) && (n in m ==> m[n] == MapOf(s)[n])
    requires forall j :: 0 <= j < |s| && j != i && s[j].Taken? ==> s[j].name != name
    requires s[i].Taken? ==> s[i].name == name
    requires t[i].Taken? ==> t[i].name == name
    requires if t[i].Taken? then name in m && m[name] == t[i].value else name !in m
    ensures MapOf(t) == m
  {
    forall n ensures n in MapOf(t) <==> n in m {
      Found(s, n);
      Found(t, n);
      if n != name {
        assert forall j :: Names(t, j, n) ==> Names(s, j, n);
        assert forall j :: Names(s, j, n) ==> Names(t, j, n);
      } else if n in m {
        assert Names(t, i, n);
      }
    }
    forall n | n in m ensures MapOf(t)[n] == m[n] {
      Found(t, n);
      var j :| Names(t, j, n);
      Present(t, j);
      if j != i {
        assert Names(s, j, n);
        Present(s, j);
      }
    }
  }
}
