/**
 * What `IsMatch` decides, stated without the loops: each stage of
 * `SchemaMatcher` is characterised by a quantified condition on the
 * matches of its sub-schemas, and the whole query by the conjunction of
 * those conditions.
 */
module SchemaMatchFacts {
  import opened Wrappers
  import opened JsonElements
  import SimpleTypes
  import Diagnostics
  import opened SchemaKeywords
  import opened SchemaValidation
  import opened SchemaNodes
  import opened SchemaMatcher

  // ------------------------------------------------------------ lists

  /** `allOf`: every member from `i` on matches. */
  lemma {:induction false} AllFromMeaning(env: Env, nodes: seq<Node>, list: seq<Slot>, v: JsonValue, i: nat, f: nat)
    requires Closed(nodes) && SlotsBelow(list, |nodes|)
    ensures AllFrom(env, nodes, list, v, i, f) == Value(true) <==>
      forall k :: i <= k < |list| ==> MatchAt(env, nodes, list[k], v, f) == Value(true)
    decreases |list| - i
  {
    if i < |list| {
      AllFromMeaning(env, nodes, list, v, i + 1, f);
    }
  }

  /** The positions from `i` on whose member matches. */
  ghost function MatchingFrom(env: Env, nodes: seq<Node>, list: seq<Slot>, v: JsonValue, i: nat, f: nat): set<nat>
    requires Closed(nodes) && SlotsBelow(list, |nodes|)
  {
    Positions((k: nat) => k < |list| && MatchAt(env, nodes, list[k], v, f) == Value(true), i, |list|)
  }

  /** The positions in `[i, n)` where `p` holds. */
  ghost function Positions(p: nat -> bool, i: nat, n: nat): set<nat>
  {
    set k: nat | i <= k < n && p(k)
  }

  lemma PositionsStep(p: nat -> bool, i: nat, n: nat)
    requires i < n
    ensures |Positions(p, i, n)| == |Positions(p, i + 1, n)| + if p(i) then 1 else 0
  {
    if p(i) {
      assert Positions(p, i, n) == Positions(p, i + 1, n) + {i};
    } else {
      assert Positions(p, i, n) == Positions(p, i + 1, n);
    }
  }

  /** The count behind `anyOf` and `oneOf` throws exactly when some member throws. */
  lemma {:induction false} CountFromThrows(env: Env, nodes: seq<Node>, list: seq<Slot>, v: JsonValue, i: nat, f: nat)
    requires Closed(nodes) && SlotsBelow(list, |nodes|)
    ensures CountFrom(env, nodes, list, v, i, f).Value? <==>
      forall k :: i <= k < |list| ==> MatchAt(env, nodes, list[k], v, f).Value?
    decreases |list| - i
  {
    if i < |list| {
      CountFromThrows(env, nodes, list, v, i + 1, f);
    }
  }

  /** When it does not throw, the count is the number of matching members. */
  lemma {:induction false} CountFromMeaning(env: Env, nodes: seq<Node>, list: seq<Slot>, v: JsonValue, i: nat, f: nat)
    requires Closed(nodes) && SlotsBelow(list, |nodes|)
    ensures CountFrom(env, nodes, list, v, i, f).Value? ==>
      CountFrom(env, nodes, list, v, i, f).value == |MatchingFrom(env, nodes, list, v, i, f)|
    decreases |list| - i
  {
    if i < |list| {
      CountFromMeaning(env, nodes, list, v, i + 1, f);
      MatchingFromStep(env, nodes, list, v, i, f);
    } else {
      assert MatchingFrom(env, nodes, list, v, i, f) == {};
    }
  }

  lemma MatchingFromStep(env: Env, nodes: seq<Node>, list: seq<Slot>, v: JsonValue, i: nat, f: nat)
    requires Closed(nodes) && SlotsBelow(list, |nodes|) && i < |list|
    ensures |MatchingFrom(env, nodes, list, v, i, f)| ==
      |MatchingFrom(env, nodes, list, v, i + 1, f)| + if MatchAt(env, nodes, list[i], v, f) == Value(true) then 1 else 0
  {
    PositionsStep((k: nat) => k < |list| && MatchAt(env, nodes, list[k], v, f) == Value(true), i, |list|);
  }

  // ------------------------------------------------------------ arrays

  /** `prefixItems` passes when the array is long enough and each position matches its schema. */
  lemma {:induction false} PrefixFromMeaning(env: Env, nodes: seq<Node>, prefix: seq<Slot>, items: seq<JsonValue>, i: nat, f: nat)
    requires Closed(nodes) && SlotsBelow(prefix, |nodes|)
    ensures PrefixFrom(env, nodes, prefix, items, i, f) == Value(true) <==>
      (i < |prefix| ==> |prefix| <= |items|) &&
      forall k :: i <= k < |prefix| ==> k < |items| && MatchAt(env, nodes, prefix[k], items[k], f) == Value(true)
    decreases |prefix| - i
  {
    if i < |prefix| && i < |items| {
      PrefixFromMeaning(env, nodes, prefix, items, i + 1, f);
    }
  }

  /** `prefixItems` longer than the array throws unless an earlier position fails first. */
  lemma {:induction false} PrefixPastEnd(env: Env, nodes: seq<Node>, prefix: seq<Slot>, items: seq<JsonValue>, i: nat, f: nat)
    requires Closed(nodes) && SlotsBelow(prefix, |nodes|) && i <= |items| < |prefix|
    requires forall k :: i <= k < |items| ==> MatchAt(env, nodes, prefix[k], items[k], f) == Value(true)
    ensures PrefixFrom(env, nodes, prefix, items, i, f) == Thrown(ArgumentOutOfRange)
    decreases |prefix| - i
  {
    if i < |items| {
      PrefixPastEnd(env, nodes, prefix, items, i + 1, f);
    }
  }

  /** `items` passes when every position from `i` on matches. */
  lemma {:induction false} ItemsFromMeaning(env: Env, nodes: seq<Node>, s: SchemaId, items: seq<JsonValue>, i: nat, f: nat)
    requires Closed(nodes) && s < |nodes|
    ensures ItemsFrom(env, nodes, s, items, i, f) == Value(true) <==>
      forall k :: i <= k < |items| ==> Match(env, nodes, s, items[k], f) == Value(true)
    decreases |items| - i
  {
    if i < |items| {
      ItemsFromMeaning(env, nodes, s, items, i + 1, f);
      var m := Match(env, nodes, s, items[i], f);
      var rest := ItemsFrom(env, nodes, s, items, i + 1, f);
      assert ItemsFrom(env, nodes, s, items, i, f) == Then(m, rest);
      assert (forall k :: i <= k < |items| ==> Match(env, nodes, s, items[k], f) == Value(true)) <==>
        m == Value(true) && forall k :: i + 1 <= k < |items| ==> Match(env, nodes, s, items[k], f) == Value(true);
    }
  }

  /** The positions from `i` on whose item matches `contains`. */
  ghost function HitsFrom(env: Env, nodes: seq<Node>, s: SchemaId, items: seq<JsonValue>, i: nat, f: nat): set<nat>
    requires Closed(nodes) && s < |nodes|
  {
    set k: nat | i <= k < |items| && Match(env, nodes, s, items[k], f) == Value(true)
  }

  /** The `contains` loop throws exactly when some item throws, and otherwise collects the matching positions. */
  lemma {:induction false} ContainsFromMeaning(env: Env, nodes: seq<Node>, s: SchemaId, items: seq<JsonValue>, i: nat, f: nat)
    requires Closed(nodes) && s < |nodes|
    ensures ContainsFrom(env, nodes, s, items, i, f).Value? <==>
      forall k :: i <= k < |items| ==> Match(env, nodes, s, items[k], f).Value?
    ensures ContainsFrom(env, nodes, s, items, i, f).Value? ==>
      ContainsFrom(env, nodes, s, items, i, f).value == HitsFrom(env, nodes, s, items, i, f)
    decreases |items| - i
  {
    if i < |items| {
      ContainsFromMeaning(env, nodes, s, items, i + 1, f);
      var rest := HitsFrom(env, nodes, s, items, i + 1, f);
      if Match(env, nodes, s, items[i], f) == Value(true) {
        assert HitsFrom(env, nodes, s, items, i, f) == {i} + rest;
      } else {
        assert HitsFrom(env, nodes, s, items, i, f) == rest;
      }
    } else {
      assert HitsFrom(env, nodes, s, items, i, f) == {};
    }
  }

  /** `unevaluatedItems` passes when every position from `i` on that is not in `ev` matches. */
  lemma {:induction false} UnevaluatedFromMeaning(env: Env, nodes: seq<Node>, s: SchemaId, items: seq<JsonValue>, ev: set<nat>, i: nat, f: nat)
    requires Closed(nodes) && s < |nodes|
    ensures UnevaluatedFrom(env, nodes, s, items, ev, i, f) == Value(true) <==>
      forall k :: i <= k < |items| && k !in ev ==> Match(env, nodes, s, items[k], f) == Value(true)
    decreases |items| - i
  {
    if i < |items| {
      UnevaluatedFromMeaning(env, nodes, s, items, ev, i + 1, f);
      var m := Match(env, nodes, s, items[i], f);
      var rest := UnevaluatedFrom(env, nodes, s, items, ev, i + 1, f);
      assert UnevaluatedFrom(env, nodes, s, items, ev, i, f) == if i in ev then rest else Then(m, rest);
      assert (forall k :: i <= k < |items| && k !in ev ==> Match(env, nodes, s, items[k], f) == Value(true)) <==>
        (i !in ev ==> m == Value(true)) &&
        forall k :: i + 1 <= k < |items| && k !in ev ==> Match(env, nodes, s, items[k], f) == Value(true);
    }
  }

  // ------------------------------------------------------------- types

  /**
   * The type loop matches exactly when some tried kind, at position `j`
   * of the kind order, matches and every tried kind before it cleanly
   * fails (a throw at an earlier kind ends the loop).
   */
  lemma {:induction false} TypeFromMeaning(env: Env, nodes: seq<Node>, id: SchemaId, v: JsonValue, k: nat, f: nat)
    requires Closed(nodes) && id < |nodes| && k <= 7
    ensures TypeFrom(env, nodes, id, v, k, f) == Value(true) <==>
      exists j :: k <= j < 7 && TypeWins(env, nodes, id, v, k, j, f)
    decreases 7 - k
  {
    if k < 7 {
      TypeFromMeaning(env, nodes, id, v, k + 1, f);
      var x := SimpleTypes.AllTypes()[k];
      var t := nodes[id].kw.validation.schemaType;
      if TypeFrom(env, nodes, id, v, k, f) == Value(true) {
        if Tried(t, x) && KindOutcome(env, nodes, id, v, x, f) == Value(true) {
          assert TypeWins(env, nodes, id, v, k, k, f);
        } else {
          var j :| k + 1 <= j < 7 && TypeWins(env, nodes, id, v, k + 1, j, f);
          assert TypeWins(env, nodes, id, v, k, j, f);
        }
      }
      if exists j :: k <= j < 7 && TypeWins(env, nodes, id, v, k, j, f) {
        var j :| k <= j < 7 && TypeWins(env, nodes, id, v, k, j, f);
        if j > k {
          assert TypeWins(env, nodes, id, v, k + 1, j, f);
        }
      }
    }
  }

  /** Kind `j` is the first tried kind from `k` on that does not cleanly fail, and it matches. */
  ghost predicate TypeWins(env: Env, nodes: seq<Node>, id: SchemaId, v: JsonValue, k: nat, j: nat, f: nat)
    requires Closed(nodes) && id < |nodes| && j < 7
  {
    var t := nodes[id].kw.validation.schemaType;
    Tried(t, SimpleTypes.AllTypes()[j]) && KindOutcome(env, nodes, id, v, SimpleTypes.AllTypes()[j], f) == Value(true) &&
    forall l :: k <= l < j && Tried(t, SimpleTypes.AllTypes()[l]) ==>
      KindOutcome(env, nodes, id, v, SimpleTypes.AllTypes()[l], f) == Value(false)
  }

  // ------------------------------------------------------------ arrays, whole

  /** `prefixItems`: the array is at least as long, and each position matches its schema. */
  ghost predicate PrefixHolds(env: Env, nodes: seq<Node>, prefix: seq<Slot>, items: seq<JsonValue>, f: nat)
    requires Closed(nodes) && SlotsBelow(prefix, |nodes|)
  {
    |prefix| <= |items| &&
    forall k :: 0 <= k < |prefix| ==> MatchAt(env, nodes, prefix[k], items[k], f) == Value(true)
  }

  lemma PrefixMeaning(env: Env, nodes: seq<Node>, prefix: seq<Slot>, items: seq<JsonValue>, f: nat)
    requires Closed(nodes) && SlotsBelow(prefix, |nodes|)
    ensures PrefixFrom(env, nodes, prefix, items, 0, f) == Value(true) <==> PrefixHolds(env, nodes, prefix, items, f)
  {
    PrefixFromMeaning(env, nodes, prefix, items, 0, f);
  }

  /** `items`: when present, every position from `start` on matches it. */
  ghost predicate ItemsHold(env: Env, nodes: seq<Node>, s: Slot, items: seq<JsonValue>, start: nat, f: nat)
    requires Closed(nodes) && SlotBelow(s, |nodes|)
  {
    s.Some? ==> forall k :: start <= k < |items| ==> Match(env, nodes, s.value, items[k], f) == Value(true)
  }

  /** The positions `contains` hits, or none when the keyword is absent. */
  ghost function Hits(env: Env, nodes: seq<Node>, s: Slot, items: seq<JsonValue>, f: nat): set<nat>
    requires Closed(nodes) && SlotBelow(s, |nodes|)
  {
    if s.None? then {} else HitsFrom(env, nodes, s.value, items, 0, f)
  }

  /** `contains`: when present, no item throws and the hits are within `minContains` and `maxContains`. */
  ghost predicate ContainsHolds(env: Env, nodes: seq<Node>, s: Slot, val: ValidationKeywords, items: seq<JsonValue>, f: nat)
    requires Closed(nodes) && SlotBelow(s, |nodes|)
  {
    var hits := Hits(env, nodes, s, items, f);
    s.Some? ==>
      (forall k :: 0 <= k < |items| ==> Match(env, nodes, s.value, items[k], f).Value?) &&
      val.minContains <= |hits| && (val.maxContains.Some? ==> |hits| <= val.maxContains.value)
  }

  /** `unevaluatedItems`: when present, every position outside `ev` matches it. */
  ghost predicate UnevaluatedHold(env: Env, nodes: seq<Node>, s: Slot, items: seq<JsonValue>, ev: set<nat>, f: nat)
    requires Closed(nodes) && SlotBelow(s, |nodes|)
  {
    s.Some? ==> forall k :: 0 <= k < |items| && k !in ev ==> Match(env, nodes, s.value, items[k], f) == Value(true)
  }

  /** The array keywords of node `id`, read declaratively. */
  ghost predicate ArrayConditions(env: Env, nodes: seq<Node>, id: SchemaId, items: seq<JsonValue>, f: nat)
    requires Closed(nodes) && id < |nodes|
  {
    var kw := KeywordsOf(nodes, id);
    BelowSlots(kw, |nodes|);
    var a := kw.applicator;
    var val := kw.validation;
    var n := |items|;
    var hits := Hits(env, nodes, a.contains, items, f);
    n >= val.minItems && (val.maxItems.Some? ==> n <= val.maxItems.value) &&
    (val.uniqueItems ==> DistinctItems(items)) &&
    PrefixHolds(env, nodes, a.prefixItems, items, f) &&
    ItemsHold(env, nodes, a.items, items, |a.prefixItems|, f) &&
    ContainsHolds(env, nodes, a.contains, val, items, f) &&
    UnevaluatedHold(env, nodes, kw.other.unevaluatedItems, items, Evaluated(|a.prefixItems|, n, a.items.Some?, hits), f)
  }

  lemma ItemsMeaning(env: Env, nodes: seq<Node>, s: Slot, items: seq<JsonValue>, start: nat, f: nat)
    requires Closed(nodes) && SlotBelow(s, |nodes|)
    ensures (if s.Some? then ItemsFrom(env, nodes, s.value, items, start, f) else Value(true)) == Value(true) <==>
      ItemsHold(env, nodes, s, items, start, f)
  {
    if s.Some? {
      ItemsFromMeaning(env, nodes, s.value, items, start, f);
    }
  }

  lemma HitsMeaning(env: Env, nodes: seq<Node>, s: Slot, items: seq<JsonValue>, f: nat)
    requires Closed(nodes) && SlotBelow(s, |nodes|)
    ensures var h := if s.Some? then ContainsFrom(env, nodes, s.value, items, 0, f) else Value({});
      (h.Value? <==> s.Some? ==> forall k :: 0 <= k < |items| ==> Match(env, nodes, s.value, items[k], f).Value?) &&
      (h.Value? ==> h.value == Hits(env, nodes, s, items, f))
  {
    if s.Some? {
      ContainsFromMeaning(env, nodes, s.value, items, 0, f);
    }
  }

  lemma UnevaluatedMeaning(env: Env, nodes: seq<Node>, s: Slot, items: seq<JsonValue>, ev: set<nat>, f: nat)
    requires Closed(nodes) && SlotBelow(s, |nodes|)
    ensures (if s.Some? then UnevaluatedFrom(env, nodes, s.value, items, ev, 0, f) else Value(true)) == Value(true) <==>
      UnevaluatedHold(env, nodes, s, items, ev, f)
  {
    if s.Some? {
      UnevaluatedFromMeaning(env, nodes, s.value, items, ev, 0, f);
    }
  }

  /** `TryValidateArray` passes exactly when every array keyword holds. */
  lemma ArrayMeaning(env: Env, nodes: seq<Node>, id: SchemaId, items: seq<JsonValue>, f: nat)
    requires Closed(nodes) && id < |nodes|
    ensures ArrayOutcome(env, nodes, id, items, f) == Value(true) <==> ArrayConditions(env, nodes, id, items, f)
  {
    var kw := KeywordsOf(nodes, id);
    BelowSlots(kw, |nodes|);
    var a := kw.applicator;
    PrefixMeaning(env, nodes, a.prefixItems, items, f);
    ItemsMeaning(env, nodes, a.items, items, |a.prefixItems|, f);
    HitsMeaning(env, nodes, a.contains, items, f);
    var ev := Evaluated(|a.prefixItems|, |items|, a.items.Some?, Hits(env, nodes, a.contains, items, f));
    UnevaluatedMeaning(env, nodes, kw.other.unevaluatedItems, items, ev, f);
  }

  // ------------------------------------------------------------ IsMatch, whole

  ghost predicate ReferenceHolds(env: Env, nodes: seq<Node>, id: SchemaId, v: JsonValue, f: nat)
    requires Closed(nodes) && id < |nodes|
  {
    nodes[id].resolved.Some? ==> Match(env, nodes, nodes[id].resolved.value, v, f) == Value(true)
  }

  /** `if` does not throw, and the branch it selects, when present, matches. */
  ghost predicate ConditionHolds(env: Env, nodes: seq<Node>, id: SchemaId, v: JsonValue, f: nat)
    requires Closed(nodes) && id < |nodes|
  {
    var kw := KeywordsOf(nodes, id);
    BelowSlots(kw, |nodes|);
    var a := kw.applicator;
    a.ifSchema.Some? ==>
      var c := Match(env, nodes, a.ifSchema.value, v, f);
      c.Value? &&
      (c.value && a.thenSchema.Some? ==> Match(env, nodes, a.thenSchema.value, v, f) == Value(true)) &&
      (!c.value && a.elseSchema.Some? ==> Match(env, nodes, a.elseSchema.value, v, f) == Value(true))
  }

  lemma ConditionMeaning(env: Env, nodes: seq<Node>, id: SchemaId, v: JsonValue, f: nat)
    requires Closed(nodes) && id < |nodes|
    ensures ConditionStage(env, nodes, id, v, f) == Value(true) <==> ConditionHolds(env, nodes, id, v, f)
  {
  }

  ghost predicate AllOfHolds(env: Env, nodes: seq<Node>, id: SchemaId, v: JsonValue, f: nat)
    requires Closed(nodes) && id < |nodes|
  {
    var kw := KeywordsOf(nodes, id);
    BelowSlots(kw, |nodes|);
    var l := kw.applicator.allOf;
    l.Some? ==> forall k :: 0 <= k < |l.value| ==> MatchAt(env, nodes, l.value[k], v, f) == Value(true)
  }

  lemma AllOfMeaning(env: Env, nodes: seq<Node>, id: SchemaId, v: JsonValue, f: nat)
    requires Closed(nodes) && id < |nodes|
    ensures AllOfStage(env, nodes, id, v, f) == Value(true) <==> AllOfHolds(env, nodes, id, v, f)
  {
    BelowSlots(nodes[id].kw, |nodes|);
    var l := nodes[id].kw.applicator.allOf;
    if l.Some? {
      AllFromMeaning(env, nodes, l.value, v, 0, f);
    }
  }

  /** No member of `l` throws, and one member (`exactlyOne`) or at least one member matches. */
  ghost predicate CountHolds(env: Env, nodes: seq<Node>, l: Option<seq<Slot>>, v: JsonValue, f: nat, exactlyOne: bool)
    requires Closed(nodes) && ListBelow(l, |nodes|)
  {
    l.Some? ==>
      (forall k :: 0 <= k < |l.value| ==> MatchAt(env, nodes, l.value[k], v, f).Value?) &&
      (if exactlyOne then |MatchingFrom(env, nodes, l.value, v, 0, f)| == 1
       else |MatchingFrom(env, nodes, l.value, v, 0, f)| >= 1)
  }

  ghost predicate AnyOfHolds(env: Env, nodes: seq<Node>, id: SchemaId, v: JsonValue, f: nat)
    requires Closed(nodes) && id < |nodes|
  {
    var kw := KeywordsOf(nodes, id);
    BelowSlots(kw, |nodes|);
    CountHolds(env, nodes, kw.applicator.anyOf, v, f, false)
  }

  ghost predicate OneOfHolds(env: Env, nodes: seq<Node>, id: SchemaId, v: JsonValue, f: nat)
    requires Closed(nodes) && id < |nodes|
  {
    var kw := KeywordsOf(nodes, id);
    BelowSlots(kw, |nodes|);
    CountHolds(env, nodes, kw.applicator.oneOf, v, f, true)
  }

  lemma AnyOfMeaning(env: Env, nodes: seq<Node>, id: SchemaId, v: JsonValue, f: nat)
    requires Closed(nodes) && id < |nodes|
    ensures AnyOfStage(env, nodes, id, v, f) == Value(true) <==> AnyOfHolds(env, nodes, id, v, f)
  {
    BelowSlots(nodes[id].kw, |nodes|);
    var l := nodes[id].kw.applicator.anyOf;
    if l.Some? {
      CountFromThrows(env, nodes, l.value, v, 0, f);
      CountFromMeaning(env, nodes, l.value, v, 0, f);
    }
  }

  lemma OneOfMeaning(env: Env, nodes: seq<Node>, id: SchemaId, v: JsonValue, f: nat)
    requires Closed(nodes) && id < |nodes|
    ensures OneOfStage(env, nodes, id, v, f) == Value(true) <==> OneOfHolds(env, nodes, id, v, f)
  {
    BelowSlots(nodes[id].kw, |nodes|);
    var l := nodes[id].kw.applicator.oneOf;
    if l.Some? {
      CountFromThrows(env, nodes, l.value, v, 0, f);
      CountFromMeaning(env, nodes, l.value, v, 0, f);
    }
  }

  ghost predicate NotHolds(env: Env, nodes: seq<Node>, id: SchemaId, v: JsonValue, f: nat)
    requires Closed(nodes) && id < |nodes|
  {
    var kw := KeywordsOf(nodes, id);
    BelowSlots(kw, |nodes|);
    kw.applicator.not.Some? ==> Match(env, nodes, kw.applicator.not.value, v, f) == Value(false)
  }

  ghost predicate TypeHolds(env: Env, nodes: seq<Node>, id: SchemaId, v: JsonValue, f: nat)
    requires Closed(nodes) && id < |nodes|
  {
    exists j :: 0 <= j < 7 && TypeWins(env, nodes, id, v, 0, j, f)
  }

  /** Every check of a non-trivial schema, read declaratively; `f` is the fuel for nested matches. */
  ghost predicate ChecksHold(env: Env, nodes: seq<Node>, id: SchemaId, v: JsonValue, f: nat)
    requires Closed(nodes) && id < |nodes|
  {
    ReferenceHolds(env, nodes, id, v, f) &&
    ConditionHolds(env, nodes, id, v, f) &&
    AllOfHolds(env, nodes, id, v, f) &&
    AnyOfHolds(env, nodes, id, v, f) &&
    OneOfHolds(env, nodes, id, v, f) &&
    NotHolds(env, nodes, id, v, f) &&
    Permissible(nodes[id].kw.validation, v) &&
    TypeHolds(env, nodes, id, v, f)
  }

  lemma ChecksMeaning(env: Env, nodes: seq<Node>, id: SchemaId, v: JsonValue, f: nat)
    requires Closed(nodes) && id < |nodes|
    ensures Checks(env, nodes, id, v, f) == Value(true) <==> ChecksHold(env, nodes, id, v, f)
  {
    ConditionMeaning(env, nodes, id, v, f);
    AllOfMeaning(env, nodes, id, v, f);
    AnyOfMeaning(env, nodes, id, v, f);
    OneOfMeaning(env, nodes, id, v, f);
    TypeFromMeaning(env, nodes, id, v, 0, f);
  }

  /**
   * A schema without errors, external or unresolved references that is
   * not a singleton matches exactly when all of its checks hold.
   */
  lemma MatchMeaning(env: Env, nodes: seq<Node>, id: SchemaId, v: JsonValue, fuel: nat)
    requires Closed(nodes) && id < |nodes| && fuel > 0
    requires !Diagnostics.HasLevel(nodes[id].messages, Diagnostics.Error)
    requires !nodes[id].ownsExternal && !nodes[id].ownsUnresolved
    requires !nodes[id].isTrivialTrue && !nodes[id].isTrivialFalse
    ensures Match(env, nodes, id, v, fuel) == Value(true) <==> ChecksHold(env, nodes, id, v, fuel - 1)
  {
    ChecksMeaning(env, nodes, id, v, fuel - 1);
  }
}
