/**
 * JsonNamedEnumNoexceptConverter: an enumeration read and written by the
 * names given to its members. The name table (`s_name_lookup`) lists
 * (name, value) pairs in the order of the names; a name occurs once.
 * Values are 64-bit patterns, and flag enumerations combine them with `|`.
 */
module NamedEnum {
  import opened Wrappers

  type Entry = (string, bv64)

  /** `(a & b) != 0`. */
  predicate Overlaps(a: bv64, b: bv64)
  {
    a & b != 0
  }

  /** `a | b`. */
  function BitOr(a: bv64, b: bv64): bv64
  {
    a | b
  }

  /** The table is a sorted list: no name twice. */
  predicate KeysDistinct(t: seq<Entry>)
  {
    forall i, j :: 0 <= i < j < |t| ==> t[i].0 != t[j].0
  }

  /** `TryGetValue` on the name table. */
  function Lookup(t: seq<Entry>, name: string): (r: Option<bv64>)
    ensures r.Some? ==> exists i :: 0 <= i < |t| && t[i] == (name, r.value)
    ensures r.None? <==> forall i :: 0 <= i < |t| ==> t[i].0 != name
    decreases |t|
  {
    if t == [] then None
    else if t[0].0 == name then Some(t[0].1)
    else
      var r := Lookup(t[1..], name);
      assert r.Some? ==> t[1..] == t[1..] && exists i :: 0 <= i < |t| && t[i] == (name, r.value) by {
        if r.Some? {
          var i :| 0 <= i < |t[1..]| && t[1..][i] == (name, r.value);
          assert t[i + 1] == (name, r.value);
        }
      }
      assert r.None? <==> forall i :: 0 <= i < |t| ==> t[i].0 != name by {
        if r.None? {
          forall i | 0 <= i < |t| ensures t[i].0 != name {
            if i > 0 {
              assert t[i] == t[1..][i - 1];
            }
          }
        }
      }
      r
  }

  /** With distinct names, every entry is what looking its name up gives. */
  lemma LookupEntry(t: seq<Entry>, i: int)
    requires KeysDistinct(t) && 0 <= i < |t|
    ensures Lookup(t, t[i].0) == Some(t[i].1)
  {
    var r := Lookup(t, t[i].0);
    var j :| 0 <= j < |t| && t[j] == (t[i].0, r.value);
  }

  /** `TryParse(name)`: the value named `name`, if the table has it. */
  function TryParse(t: seq<Entry>, name: string): (r: Option<bv64>)
    requires KeysDistinct(t)
    ensures r.Some? <==> exists i :: 0 <= i < |t| && t[i].0 == name
    ensures forall i :: 0 <= i < |t| && t[i].0 == name ==> r == Some(t[i].1)
  {
    forall i | 0 <= i < |t| && t[i].0 == name ensures Lookup(t, name) == Some(t[i].1) {
      LookupEntry(t, i);
    }
    Lookup(t, name)
  }

  /** The first name, in table order, whose value is exactly `v`. */
  function FirstName(t: seq<Entry>, v: bv64): Option<string>
    decreases |t|
  {
    if t == [] then None
    else if t[0].1 == v then Some(t[0].0)
    else FirstName(t[1..], v)
  }

  /** `TryGetName`. */
  method TryGetName(t: seq<Entry>, value: bv64) returns (name: Option<string>)
    ensures name == FirstName(t, value)
  {
    var i := 0;
    while i < |t|
      invariant 0 <= i <= |t|
      invariant FirstName(t[i..], value) == FirstName(t, value)
    {
      assert t[i..][1..] == t[i + 1..];
      if t[i].1 == value {
        return Some(t[i].0);
      }
      i := i + 1;
    }
    return None;
  }

  /** A name found for a value is a name for exactly that value; none is found only when no entry has it. */
  lemma {:induction false} FirstNameSpec(t: seq<Entry>, v: bv64)
    requires KeysDistinct(t)
    ensures FirstName(t, v).Some? ==> TryParse(t, FirstName(t, v).value) == Some(v)
    ensures FirstName(t, v).None? <==> forall i :: 0 <= i < |t| ==> t[i].1 != v
    decreases |t|
  {
    if t != [] {
      if t[0].1 == v {
        LookupEntry(t, 0);
      } else {
        var s := t[1..];
        assert KeysDistinct(s) by {
          forall i, j | 0 <= i < j < |s| ensures s[i].0 != s[j].0 {
            assert s[i] == t[i + 1] && s[j] == t[j + 1];
          }
        }
        FirstNameSpec(s, v);
        if FirstName(s, v).Some? {
          var n := FirstName(s, v).value;
          var k :| 0 <= k < |s| && s[k].0 == n;
          assert t[k + 1] == s[k];
          LookupEntry(s, k);
          LookupEntry(t, k + 1);
        }
        assert forall i :: 0 < i < |t| ==> t[i] == s[i - 1];
      }
    }
  }

  // ------------------------------------------------------------ flag names

  /** The entries, in table order, whose value shares a bit with `v`. */
  function Overlapping(t: seq<Entry>, v: bv64): seq<Entry>
    decreases |t|
  {
    if t == [] then []
    else
      var init := Overlapping(t[..|t| - 1], v);
      if !Overlaps(t[|t| - 1].1, v) then init else init + [t[|t| - 1]]
  }

  function Union(es: seq<Entry>): bv64
    decreases |es|
  {
    if es == [] then 0 else BitOr(Union(es[..|es| - 1]), es[|es| - 1].1)
  }

  function NamesOf(es: seq<Entry>): seq<string>
  {
    seq(|es|, i requires 0 <= i < |es| => es[i].0)
  }

  /** `TryGetNames`: the overlapping names, provided their union is exactly `v`. */
  function Names(t: seq<Entry>, v: bv64): Option<seq<string>>
  {
    var es := Overlapping(t, v);
    if Union(es) == v then Some(NamesOf(es)) else None
  }

  lemma OverlappingStep(t: seq<Entry>, i: int, v: bv64)
    requires 0 <= i < |t|
    ensures Overlapping(t[..i + 1], v) == Overlapping(t[..i], v) + (if !Overlaps(t[i].1, v) then [] else [t[i]])
  {
    var u := t[..i + 1];
    assert u[..|u| - 1] == t[..i];
    assert u[|u| - 1] == t[i];
  }

  lemma UnionStep(es: seq<Entry>, e: Entry)
    ensures Union(es + [e]) == BitOr(Union(es), e.1)
    ensures NamesOf(es + [e]) == NamesOf(es) + [e.0]
  {
    assert (es + [e])[..|es|] == es;
  }

  method TryGetNames(t: seq<Entry>, value: bv64) returns (names: Option<seq<string>>)
    ensures names == Names(t, value)
  {
    var collected: seq<string> := [];
    ghost var entries: seq<Entry> := [];
    var reconstructed: bv64 := 0;
    var i := 0;
    while i < |t|
      invariant 0 <= i <= |t|
      invariant entries == Overlapping(t[..i], value)
      invariant collected == NamesOf(entries)
      invariant reconstructed == Union(entries)
    {
      OverlappingStep(t, i, value);
      if !Overlaps(t[i].1, value) {
        i := i + 1;
        continue;
      }
      UnionStep(entries, t[i]);
      collected := collected + [t[i].0];
      entries := entries + [t[i]];
      reconstructed := BitOr(reconstructed, t[i].1);
      i := i + 1;
    }
    assert t[..i] == t;
    if reconstructed != value {
      return None;
    }
    return Some(collected);
  }

  /** `TryParse(names)`: the union of the named values; None when a name is unknown. */
  function ParseNames(t: seq<Entry>, names: seq<string>): Option<bv64>
    decreases |names|
  {
    if names == [] then Some(0)
    else
      var init := ParseNames(t, names[..|names| - 1]);
      var last := Lookup(t, names[|names| - 1]);
      if init.Some? && last.Some? then Some(BitOr(init.value, last.value)) else None
  }

  method TryParseNames(t: seq<Entry>, names: seq<string>) returns (r: Option<bv64>)
    ensures r == ParseNames(t, names)
  {
    var aggregate: bv64 := 0;
    var i := 0;
    while i < |names|
      invariant 0 <= i <= |names|
      invariant ParseNames(t, names[..i]) == Some(aggregate)
    {
      ParseNamesStep(t, names, i);
      var promoted := Lookup(t, names[i]);
      if promoted.None? {
        UnknownNameFails(t, names, i);
        return None;
      }
      aggregate := BitOr(aggregate, promoted.value);
      i := i + 1;
    }
    assert names[..i] == names;
    return Some(aggregate);
  }

  lemma ParseNamesStep(t: seq<Entry>, names: seq<string>, i: int)
    requires 0 <= i < |names|
    ensures ParseNames(t, names[..i + 1]) ==
      var init := ParseNames(t, names[..i]);
      var last := Lookup(t, names[i]);
      if init.Some? && last.Some? then Some(BitOr(init.value, last.value)) else None
  {
    var u := names[..i + 1];
    assert u[..|u| - 1] == names[..i];
    assert u[|u| - 1] == names[i];
  }

  /** One unknown name anywhere makes the whole list fail. */
  lemma {:induction false} UnknownNameFails(t: seq<Entry>, names: seq<string>, k: int)
    requires 0 <= k < |names| && Lookup(t, names[k]).None?
    ensures ParseNames(t, names).None?
    decreases |names|
  {
    if k < |names| - 1 {
      assert names[..|names| - 1][k] == names[k];
      UnknownNameFails(t, names[..|names| - 1], k);
    }
  }

  /** Parsing back the names written for a value gives that value. */
  lemma NamesRoundTrip(t: seq<Entry>, v: bv64)
    requires KeysDistinct(t)
    requires Names(t, v).Some?
    ensures ParseNames(t, Names(t, v).value) == Some(v)
  {
    OverlappingFromTable(t, v);
    ParseUnion(t, Overlapping(t, v));
  }

  lemma {:induction false} OverlappingFromTable(t: seq<Entry>, v: bv64)
    ensures forall e :: e in Overlapping(t, v) ==> e in t
    decreases |t|
  {
    if t != [] {
      OverlappingFromTable(t[..|t| - 1], v);
    }
  }

  lemma {:induction false} ParseUnion(t: seq<Entry>, es: seq<Entry>)
    requires KeysDistinct(t)
    requires forall e :: e in es ==> e in t
    ensures ParseNames(t, NamesOf(es)) == Some(Union(es))
    decreases |es|
  {
    if es != [] {
      var init := es[..|es| - 1];
      var last := es[|es| - 1];
      assert forall e :: e in init ==> e in es;
      ParseUnion(t, init);
      var ns := NamesOf(es);
      assert ns[..|es| - 1] == NamesOf(init);
      assert ns[|es| - 1] == last.0;
      assert last in es;
      var i :| 0 <= i < |t| && t[i] == last;
      LookupEntry(t, i);
      assert Union(es) == BitOr(Union(init), last.1);
      assert ParseNames(t, ns) == Some(BitOr(Union(init), last.1));
    }
  }
}
