/**
 * JsonExtenders: arrays and objects read into lists, and the structural
 * equivalence of JSON values that `const`, `enum` and `uniqueItems` use.
 */
module JsonExtenders {
  import opened Wrappers
  import opened JsonElements

  type Member = (string, JsonValue)

  // ------------------------------------------------------ ordinal key order

  /** Ordinal (code point by code point) order on member names. */
  predicate KeyLe(a: string, b: string)
    decreases |a|
  {
    if a == [] then true
    else if b == [] then false
    else a[0] < b[0] || (a[0] == b[0] && KeyLe(a[1..], b[1..]))
  }

  lemma {:induction false} KeyLeTotal(a: string, b: string)
    ensures KeyLe(a, b) || KeyLe(b, a)
    decreases |a|
  {
    if a != [] && b != [] && a[0] == b[0] {
      KeyLeTotal(a[1..], b[1..]);
    }
  }

  predicate SortedByKey(s: seq<Member>)
  {
    forall i :: 0 < i < |s| ==> KeyLe(s[i - 1].0, s[i].0)
  }

  /** Inserts `m` before the first member whose name is not below it. */
  function Insert(m: Member, s: seq<Member>): (r: seq<Member>)
    requires SortedByKey(s)
    ensures SortedByKey(r)
    ensures multiset(r) == multiset(s) + multiset{m}
    ensures |r| == |s| + 1
    ensures r[0] == m || (s != [] && r[0] == s[0])
    decreases |s|
  {
    if s == [] then [m]
    else if KeyLe(m.0, s[0].0) then [m] + s
    else
      KeyLeTotal(m.0, s[0].0);
      var tail := Insert(m, s[1..]);
      assert s == [s[0]] + s[1..];
      [s[0]] + tail
  }

  /** The members ordered by name (List.Sort with string comparison). */
  function SortByKey(s: seq<Member>): (r: seq<Member>)
    ensures SortedByKey(r)
    ensures multiset(r) == multiset(s)
    ensures |r| == |s|
    decreases |s|
  {
    if s == [] then []
    else
      assert s == [s[0]] + s[1..];
      Insert(s[0], SortByKey(s[1..]))
  }

  lemma MemberOfSorted(s: seq<Member>, i: int)
    requires 0 <= i < |SortByKey(s)|
    ensures SortByKey(s)[i] in s
  {
    var r := SortByKey(s);
    assert r[i] in multiset(r);
  }

  // ------------------------------------------------------- list extraction

  /** `TryGetArrayAsList`: the elements in document order, or None when not an array. */
  method TryGetArrayAsList(that: JsonValue) returns (r: Option<seq<JsonValue>>)
    ensures that.Arr? <==> r.Some?
    ensures r.Some? ==> r.value == that.items
  {
    if KindOf(that) != ArrayKind {
      return None;
    }
    var value: seq<JsonValue> := [];
    var i := 0;
    while i < |that.items|
      invariant 0 <= i <= |that.items|
      invariant value == that.items[..i]
    {
      value := value + [that.items[i]];
      i := i + 1;
    }
    assert that.items[..i] == that.items;
    return Some(value);
  }

  /** The members of an object as `TryGetObjectAsList` returns them: sorted by name. */
  function ObjectAsList(that: JsonValue): (r: seq<Member>)
    requires that.Obj?
    ensures SortedByKey(r) && multiset(r) == multiset(that.members)
  {
    SortByKey(that.members)
  }

  /** `TryGetObjectAsList`: copies the members, then sorts them by name. */
  method TryGetObjectAsList(that: JsonValue) returns (r: Option<seq<Member>>)
    ensures that.Obj? <==> r.Some?
    ensures r.Some? ==> SortedByKey(r.value) && multiset(r.value) == multiset(that.members)
    ensures r.Some? ==> r.value == ObjectAsList(that)
  {
    if KindOf(that) != ObjectKind {
      return None;
    }
    var value: seq<Member> := [];
    var i := 0;
    while i < |that.members|
      invariant 0 <= i <= |that.members|
      invariant value == that.members[..i]
    {
      value := value + [(that.members[i].0, that.members[i].1)];
      i := i + 1;
    }
    assert that.members[..i] == that.members;
    value := SortByKey(value);
    return Some(value);
  }

  // ----------------------------------------------------------- equivalence

  /**
   * The numeric comparison cascade: 64-bit integer, then decimal, then double;
   * two numbers beyond the double range compare by value, where the source
   * compares their raw text.
   */
  predicate NumbersEquivalent(a: JsonValue, b: JsonValue)
    requires IsNumber(a) && IsNumber(b)
  {
    if TryGetInt64(a).Some? then TryGetInt64(b).Some? && TryGetInt64(a).value == TryGetInt64(b).value
    else if TryGetDecimal(a).Some? then TryGetDecimal(b).Some? && TryGetDecimal(a).value == TryGetDecimal(b).value
    else if TryGetDouble(a).Some? then TryGetDouble(b).Some? && TryGetDouble(a).value == TryGetDouble(b).value
    else NumberValue(a) == NumberValue(b)
  }

  /** `IsEquivalent`, as a definition. */
  predicate Equivalent(a: JsonValue, b: JsonValue)
    decreases a
  {
    if KindOf(a) != KindOf(b) then false
    else match a
      case Undefined => true
      case Null => true
      case Bool(_) => true
      case Str(s) => s == b.s
      case Int(_) => NumbersEquivalent(a, b)
      case Num(_) => NumbersEquivalent(a, b)
      case Arr(xs) =>
        |xs| == |b.items| &&
        forall i :: 0 <= i < |xs| ==> Equivalent(xs[i], b.items[i])
      case Obj(ms) =>
        var m1 := ObjectAsList(a);
        var m2 := ObjectAsList(b);
        |m1| == |m2| &&
        forall i :: 0 <= i < |m1| ==>
          m1[i].0 == m2[i].0 && (MemberOfSorted(ms, i); Equivalent(m1[i].1, m2[i].1))
  }

  /** `IsEquivalent` as written: kind test, then a case per kind, loops for arrays and objects. */
  method IsEquivalent(that: JsonValue, other: JsonValue) returns (r: bool)
    ensures r == Equivalent(that, other)
    decreases that, 1
  {
    if KindOf(that) != KindOf(other) {
      return false;
    }
    match that {
      case Undefined => return true;
      case Null => return true;
      case Bool(_) => return true;
      case Str(s) => return s == other.s;
      case Int(_) => return NumbersEquivalent(that, other);
      case Num(_) => return NumbersEquivalent(that, other);
      case Arr(_) => r := ArraysEquivalent(that, other);
      case Obj(_) => r := ObjectsEquivalent(that, other);
    }
  }

  /** The array case of `IsEquivalent`: same count, then element by element. */
  method ArraysEquivalent(that: JsonValue, other: JsonValue) returns (r: bool)
    requires that.Arr? && other.Arr?
    ensures r == Equivalent(that, other)
    decreases that, 0
  {
    var list1 := TryGetArrayAsList(that);
    var list2 := TryGetArrayAsList(other);
    if |list1.value| != |list2.value| {
      return false;
    }
    var i := 0;
    while i < |list1.value|
      invariant 0 <= i <= |list1.value|
      invariant forall j :: 0 <= j < i ==> Equivalent(that.items[j], other.items[j])
    {
      var e := IsEquivalent(list1.value[i], list2.value[i]);
      if !e {
        return false;
      }
      i := i + 1;
    }
    return true;
  }

  /** The object case of `IsEquivalent`: same count, then sorted member by member. */
  method ObjectsEquivalent(that: JsonValue, other: JsonValue) returns (r: bool)
    requires that.Obj? && other.Obj?
    ensures r == Equivalent(that, other)
    decreases that, 0
  {
    var map1 := TryGetObjectAsList(that);
    var map2 := TryGetObjectAsList(other);
    var m1, m2 := map1.value, map2.value;
    ObjectsEquivalentUnfold(that, other);
    if |m1| != |m2| {
      return false;
    }
    var i := 0;
    while i < |m1|
      invariant 0 <= i <= |m1|
      invariant forall j :: 0 <= j < i ==> m1[j].0 == m2[j].0 && Equivalent(m1[j].1, m2[j].1)
    {
      var pair1 := m1[i];
      var pair2 := m2[i];
      if pair1.0 != pair2.0 {
        return false;
      }
      MemberOfSorted(that.members, i);
      var e := IsEquivalent(pair1.1, pair2.1);
      if !e {
        return false;
      }
      i := i + 1;
    }
    return true;
  }

  /** The object case of `Equivalent`, spelled out. */
  lemma ObjectsEquivalentUnfold(a: JsonValue, b: JsonValue)
    requires a.Obj? && b.Obj?
    ensures Equivalent(a, b) <==>
      |ObjectAsList(a)| == |ObjectAsList(b)| &&
      forall i :: 0 <= i < |ObjectAsList(a)| ==>
        ObjectAsList(a)[i].0 == ObjectAsList(b)[i].0 && Equivalent(ObjectAsList(a)[i].1, ObjectAsList(b)[i].1)
  {
  }

  // ------------------------------------------------------------ properties

  /** Every value is equivalent to itself. */
  lemma {:induction false} EquivalentReflexive(a: JsonValue)
    ensures Equivalent(a, a)
    decreases a
  {
    match a {
      case Arr(xs) =>
        forall i | 0 <= i < |xs| ensures Equivalent(xs[i], xs[i]) {
          EquivalentReflexive(xs[i]);
        }
      case Obj(ms) =>
        var m := ObjectAsList(a);
        forall i | 0 <= i < |m| ensures Equivalent(m[i].1, m[i].1) {
          MemberOfSorted(ms, i);
          EquivalentReflexive(m[i].1);
        }
      case _ =>
    }
  }

  /** Equivalent values have the same kind, and equivalent numbers the same value. */
  lemma EquivalentSameKind(a: JsonValue, b: JsonValue)
    requires Equivalent(a, b)
    ensures KindOf(a) == KindOf(b)
    ensures IsNumber(a) ==> IsNumber(b) && NumberValue(a) == NumberValue(b)
  {
  }

  /**
   * The number cascade is not symmetric: the integer literal 17 is not
   * equivalent to the literal 17.0, but 17.0 is equivalent to 17.
   */
  lemma EquivalentNotSymmetric()
    ensures !Equivalent(Int(17), Num(17.0))
    ensures Equivalent(Num(17.0), Int(17))
  {
  }

  /**
   * The reference reading of equivalence: the same JSON data once every
   * object's members are ordered by name and every number is read as its value.
   */
  function Normal(v: JsonValue): JsonValue
    decreases v
  {
    match v
    case Int(i) => Num(i as real)
    case Arr(xs) => Arr(seq(|xs|, i requires 0 <= i < |xs| => Normal(xs[i])))
    case Obj(ms) =>
      var m := ObjectAsList(v);
      Obj(seq(|m|, i requires 0 <= i < |m| => (m[i].0, (MemberOfSorted(ms, i); Normal(m[i].1)))))
    case _ => v
  }

  /** Equivalent values are equal after normalisation. */
  lemma {:induction false} EquivalentSound(a: JsonValue, b: JsonValue)
    requires Equivalent(a, b)
    ensures Normal(a) == Normal(b)
    decreases a, 1
  {
    match a {
      case Arr(xs) => ArraysSound(a, b);
      case Obj(ms) => ObjectsSound(a, b);
      case Bool(x) =>
        assert KindOf(a) == KindOf(b);
      case _ =>
    }
  }

  lemma {:induction false} ArraysSound(a: JsonValue, b: JsonValue)
    requires a.Arr? && Equivalent(a, b)
    ensures Normal(a) == Normal(b)
    decreases a, 0
  {
    var xs := a.items;
    forall i | 0 <= i < |xs| ensures Normal(xs[i]) == Normal(b.items[i]) {
      EquivalentSound(xs[i], b.items[i]);
    }
    assert Normal(a).items == Normal(b).items;
  }

  lemma {:induction false} ObjectsSound(a: JsonValue, b: JsonValue)
    requires a.Obj? && Equivalent(a, b)
    ensures Normal(a) == Normal(b)
    decreases a, 0
  {
    var m1 := ObjectAsList(a);
    var m2 := ObjectAsList(b);
    forall i | 0 <= i < |m1| ensures Normal(m1[i].1) == Normal(m2[i].1) {
      MemberOfSorted(a.members, i);
      EquivalentSound(m1[i].1, m2[i].1);
    }
    assert Normal(a).members == Normal(b).members;
  }
}
