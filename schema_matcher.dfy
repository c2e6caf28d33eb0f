/**
 * `BasicSchema.IsMatch`: whether a JSON value matches a schema of the
 * arena. The query reads the arena and changes nothing; exceptions it
 * raises are `Thrown` outcomes and abort the whole query, as they do in
 * the source.
 *
 * The source recurses without a termination argument (a `$ref` to an
 * ancestor is not a cycle of resolved references), so the model bounds
 * the depth of nested `IsMatch` calls by `fuel`.
 */
module SchemaMatcher {
  import opened Wrappers
  import opened JsonElements
  import JsonExtenders
  import SimpleTypes
  import Diagnostics
  import opened SchemaKeywords
  import opened SchemaValidation
  import opened SchemaNodes

  /** The exceptions a match can raise. */
  datatype Fault =
    | Malformed          // NotSupportedException: the schema has error diagnostics
    | External           // NotSupportedException: the schema owns external references
    | Unresolved         // InvalidOperationException: local references not resolved
    | NotImplemented     // an object instance reached `TryValidateObject`
    | ArgumentOutOfRange // `List` indexed past its end: more `prefixItems` than array items
    | NullReference      // a null schema inside a schema list
    | OutOfFuel          // the model's depth bound

  datatype Outcome<T> = Value(value: T) | Thrown(fault: Fault)

  /** Sequencing of early-returning checks: a fault or a failure ends the match. */
  function Then(o: Outcome<bool>, rest: Outcome<bool>): (r: Outcome<bool>)
    ensures r == Value(true) <==> o == Value(true) && rest == Value(true)
    ensures o.Thrown? ==> r == o
  {
    if o.Thrown? then o else if !o.value then Value(false) else rest
  }

  /** The named single slots of keywords below `bound` are below `bound`. */
  lemma BelowSlots(kw: Keywords, bound: nat)
    requires Below(kw, bound)
    ensures SlotBelow(kw.applicator.items, bound) && SlotBelow(kw.applicator.contains, bound)
    ensures SlotBelow(kw.applicator.ifSchema, bound) && SlotBelow(kw.applicator.thenSchema, bound)
    ensures SlotBelow(kw.applicator.elseSchema, bound) && SlotBelow(kw.applicator.not, bound)
    ensures SlotBelow(kw.other.unevaluatedItems, bound)
    ensures SlotsBelow(kw.applicator.prefixItems, bound) && ListBelow(kw.applicator.allOf, bound)
    ensures ListBelow(kw.applicator.anyOf, bound) && ListBelow(kw.applicator.oneOf, bound)
  {
    var s := SingleValues(kw);
    assert s[0] == kw.applicator.items && s[1] == kw.applicator.contains;
    assert s[4] == kw.applicator.ifSchema && s[5] == kw.applicator.thenSchema;
    assert s[6] == kw.applicator.elseSchema && s[7] == kw.applicator.not && s[8] == kw.other.unevaluatedItems;
  }

  /** The keywords of node `id`, with the arena bounds of its slots. */
  function KeywordsOf(nodes: seq<Node>, id: SchemaId): (kw: Keywords)
    requires Closed(nodes) && id < |nodes|
    ensures kw == nodes[id].kw && Below(kw, |nodes|)
  {
    nodes[id].kw
  }

  // ------------------------------------------------------------ IsMatch

  /** `IsMatch(ref element)`: the misuse guards, the trivial schemas, then every check in turn. */
  function Match(env: Env, nodes: seq<Node>, id: SchemaId, v: JsonValue, fuel: nat): (r: Outcome<bool>)
    requires Closed(nodes) && id < |nodes|
    ensures fuel == 0 ==> r == Thrown(OutOfFuel)
    ensures fuel > 0 && Diagnostics.HasLevel(nodes[id].messages, Diagnostics.Error) ==> r == Thrown(Malformed)
    ensures fuel > 0 && !Diagnostics.HasLevel(nodes[id].messages, Diagnostics.Error) ==>
      (nodes[id].ownsExternal ==> r == Thrown(External)) &&
      (!nodes[id].ownsExternal && nodes[id].ownsUnresolved ==> r == Thrown(Unresolved)) &&
      (!nodes[id].ownsExternal && !nodes[id].ownsUnresolved ==>
        (nodes[id].isTrivialTrue ==> r == Value(true)) &&
        (!nodes[id].isTrivialTrue && nodes[id].isTrivialFalse ==> r == Value(false)))
    decreases fuel, 9, 0
  {
    if fuel == 0 then Thrown(OutOfFuel)
    else
      var n := nodes[id];
      if Diagnostics.HasLevel(n.messages, Diagnostics.Error) then Thrown(Malformed)
      else if n.ownsExternal then Thrown(External)
      else if n.ownsUnresolved then Thrown(Unresolved)
      else if n.isTrivialTrue then Value(true)
      else if n.isTrivialFalse then Value(false)
      else Checks(env, nodes, id, v, fuel - 1)
  }

  /** The checks of a non-trivial schema, in source order; `f` is the fuel left for nested matches. */
  function Checks(env: Env, nodes: seq<Node>, id: SchemaId, v: JsonValue, f: nat): Outcome<bool>
    requires Closed(nodes) && id < |nodes|
    decreases f + 1, 8, 0
  {
    Then(ReferenceStage(env, nodes, id, v, f),
    Then(ConditionStage(env, nodes, id, v, f),
    Then(AllOfStage(env, nodes, id, v, f),
    Then(AnyOfStage(env, nodes, id, v, f),
    Then(OneOfStage(env, nodes, id, v, f),
    Then(NotStage(env, nodes, id, v, f),
    Then(Value(Permissible(nodes[id].kw.validation, v)),
    TypeStage(env, nodes, id, v, f))))))))
  }

  /** A call on a schema taken from a list: a null entry throws. */
  function MatchAt(env: Env, nodes: seq<Node>, s: Slot, v: JsonValue, f: nat): Outcome<bool>
    requires Closed(nodes) && SlotBelow(s, |nodes|)
    decreases f + 1, 0, 0
  {
    if s.None? then Thrown(NullReference) else Match(env, nodes, s.value, v, f)
  }

  /** The resolved reference, when there is one, must match. */
  function ReferenceStage(env: Env, nodes: seq<Node>, id: SchemaId, v: JsonValue, f: nat): Outcome<bool>
    requires Closed(nodes) && id < |nodes|
    decreases f + 1, 5, 0
  {
    if nodes[id].resolved.None? then Value(true) else Match(env, nodes, nodes[id].resolved.value, v, f)
  }

  /** `if`, then `then` when it matched and `else` when it did not. */
  function ConditionStage(env: Env, nodes: seq<Node>, id: SchemaId, v: JsonValue, f: nat): Outcome<bool>
    requires Closed(nodes) && id < |nodes|
    decreases f + 1, 5, 0
  {
    var kw := KeywordsOf(nodes, id);
    BelowSlots(kw, |nodes|);
    var a := kw.applicator;
    if a.ifSchema.None? then Value(true)
    else
      var c := Match(env, nodes, a.ifSchema.value, v, f);
      if c.Thrown? then c
      else if c.value then (if a.thenSchema.Some? then Match(env, nodes, a.thenSchema.value, v, f) else Value(true))
      else (if a.elseSchema.Some? then Match(env, nodes, a.elseSchema.value, v, f) else Value(true))
  }

  function AllOfStage(env: Env, nodes: seq<Node>, id: SchemaId, v: JsonValue, f: nat): Outcome<bool>
    requires Closed(nodes) && id < |nodes|
    decreases f + 1, 5, 0
  {
    var kw := KeywordsOf(nodes, id);
    BelowSlots(kw, |nodes|);
    if kw.applicator.allOf.None? then Value(true) else AllFrom(env, nodes, kw.applicator.allOf.value, v, 0, f)
  }

  /** `allOf` from position `i`: every member must match, and the first failure ends the loop. */
  function AllFrom(env: Env, nodes: seq<Node>, list: seq<Slot>, v: JsonValue, i: nat, f: nat): Outcome<bool>
    requires Closed(nodes) && SlotsBelow(list, |nodes|)
    decreases f + 1, 1, |list| - i
  {
    if i >= |list| then Value(true)
    else Then(MatchAt(env, nodes, list[i], v, f), AllFrom(env, nodes, list, v, i + 1, f))
  }

  /** The number of list members from position `i` that match; every member is tried. */
  function CountFrom(env: Env, nodes: seq<Node>, list: seq<Slot>, v: JsonValue, i: nat, f: nat): Outcome<nat>
    requires Closed(nodes) && SlotsBelow(list, |nodes|)
    decreases f + 1, 1, |list| - i
  {
    if i >= |list| then Value(0)
    else
      var o := MatchAt(env, nodes, list[i], v, f);
      if o.Thrown? then Thrown(o.fault)
      else
        var rest := CountFrom(env, nodes, list, v, i + 1, f);
        if rest.Thrown? then rest else Value(rest.value + if o.value then 1 else 0)
  }

  /** `anyOf`: at least one member matches (`isGood`). */
  function AnyOfStage(env: Env, nodes: seq<Node>, id: SchemaId, v: JsonValue, f: nat): Outcome<bool>
    requires Closed(nodes) && id < |nodes|
    decreases f + 1, 5, 0
  {
    var kw := KeywordsOf(nodes, id);
    BelowSlots(kw, |nodes|);
    if kw.applicator.anyOf.None? then Value(true)
    else
      var c := CountFrom(env, nodes, kw.applicator.anyOf.value, v, 0, f);
      if c.Thrown? then Thrown(c.fault) else Value(c.value >= 1)
  }

  /** `oneOf`: exactly one member matches (`countGood == 1`). */
  function OneOfStage(env: Env, nodes: seq<Node>, id: SchemaId, v: JsonValue, f: nat): Outcome<bool>
    requires Closed(nodes) && id < |nodes|
    decreases f + 1, 5, 0
  {
    var kw := KeywordsOf(nodes, id);
    BelowSlots(kw, |nodes|);
    if kw.applicator.oneOf.None? then Value(true)
    else
      var c := CountFrom(env, nodes, kw.applicator.oneOf.value, v, 0, f);
      if c.Thrown? then Thrown(c.fault) else Value(c.value == 1)
  }

  function NotStage(env: Env, nodes: seq<Node>, id: SchemaId, v: JsonValue, f: nat): Outcome<bool>
    requires Closed(nodes) && id < |nodes|
    decreases f + 1, 5, 0
  {
    var kw := KeywordsOf(nodes, id);
    BelowSlots(kw, |nodes|);
    if kw.applicator.not.None? then Value(true)
    else
      var o := Match(env, nodes, kw.applicator.not.value, v, f);
      if o.Thrown? then o else Value(!o.value)
  }

  /** Whether the type loop tries kind `x`: every kind when `type` is `Missing`, else the declared ones. */
  predicate Tried(t: bv64, x: SimpleTypes.SimpleType)
  {
    t == 0 || Declares(t, x)
  }

  /** The type loop: the first tried kind that matches makes the schema match (`IsMatchOverride` is true). */
  function TypeStage(env: Env, nodes: seq<Node>, id: SchemaId, v: JsonValue, f: nat): Outcome<bool>
    requires Closed(nodes) && id < |nodes|
    decreases f + 1, 5, 0
  {
    TypeFrom(env, nodes, id, v, 0, f)
  }

  function TypeFrom(env: Env, nodes: seq<Node>, id: SchemaId, v: JsonValue, k: nat, f: nat): Outcome<bool>
    requires Closed(nodes) && id < |nodes|
    decreases f + 1, 4, 7 - k
  {
    if k >= 7 then Value(false)
    else
      var x := SimpleTypes.AllTypes()[k];
      if !Tried(nodes[id].kw.validation.schemaType, x) then TypeFrom(env, nodes, id, v, k + 1, f)
      else
        var o := KindOutcome(env, nodes, id, v, x, f);
        if o.Thrown? || o.value then o else TypeFrom(env, nodes, id, v, k + 1, f)
  }

  /** `IsMatch(ref element, singletonType)`: the kind test, then that kind's keywords. */
  function KindOutcome(env: Env, nodes: seq<Node>, id: SchemaId, v: JsonValue, x: SimpleTypes.SimpleType, f: nat): Outcome<bool>
    requires Closed(nodes) && id < |nodes|
    decreases f + 1, 3, 0
  {
    var val := nodes[id].kw.validation;
    match x
    case Null => Value(v.Null?)
    case Boolean => Value(v.Bool?)
    case Integer => Value(IsNumber(v) && TryGetInt64(v).Some? && TryValidateInteger(val, TryGetInt64(v).value))
    case Number => Value(IsNumber(v) && TryGetDouble(v).Some? && TryValidateNumber(val, TryGetDouble(v).value))
    case String => Value(v.Str? && TryValidateString(env, val, v.s))
    case Object => if v.Obj? then Thrown(NotImplemented) else Value(false)
    case Array => if v.Arr? then ArrayOutcome(env, nodes, id, v.items, f) else Value(false)
  }

  // ------------------------------------------------------------- arrays

  /** No item is equivalent to a later one (the order `uniqueItems` compares in). */
  predicate DistinctItems(items: seq<JsonValue>)
  {
    forall i, j :: 0 <= i < j < |items| ==> !JsonExtenders.Equivalent(items[i], items[j])
  }

  /** The positions marked evaluated once `prefixItems` and `items` have passed, plus the `contains` hits. */
  function Evaluated(prefixLength: nat, n: nat, hasItems: bool, hits: set<nat>): set<nat>
  {
    (set j | 0 <= j < n && Covered(j, prefixLength, hasItems)) + hits
  }

  /** Position `j` is evaluated by `prefixItems` or by `items`. */
  predicate Covered(j: nat, prefixLength: nat, hasItems: bool)
  {
    j < prefixLength || hasItems
  }

  /** `TryValidateArray`. */
  function ArrayOutcome(env: Env, nodes: seq<Node>, id: SchemaId, items: seq<JsonValue>, f: nat): Outcome<bool>
    requires Closed(nodes) && id < |nodes|
    decreases f + 1, 2, 0
  {
    var kw := KeywordsOf(nodes, id);
    BelowSlots(kw, |nodes|);
    var a := kw.applicator;
    var val := kw.validation;
    var n := |items|;
    if n < val.minItems || (val.maxItems.Some? && n > val.maxItems.value) then Value(false)
    else if val.uniqueItems && !DistinctItems(items) then Value(false)
    else
      var p := PrefixFrom(env, nodes, a.prefixItems, items, 0, f);
      if p != Value(true) then p
      else
        var q := if a.items.Some? then ItemsFrom(env, nodes, a.items.value, items, |a.prefixItems|, f) else Value(true);
        if q != Value(true) then q
        else
          var hits := if a.contains.Some? then ContainsFrom(env, nodes, a.contains.value, items, 0, f) else Value({});
          if hits.Thrown? then Thrown(hits.fault)
          else if a.contains.Some? &&
            (|hits.value| < val.minContains || (val.maxContains.Some? && |hits.value| > val.maxContains.value))
          then Value(false)
          else if kw.other.unevaluatedItems.None? then Value(true)
          else
            var ev := Evaluated(|a.prefixItems|, n, a.items.Some?, hits.value);
            UnevaluatedFrom(env, nodes, kw.other.unevaluatedItems.value, items, ev, 0, f)
  }

  /** The `prefixItems` loop from position `i`: indexing past the array throws. */
  function PrefixFrom(env: Env, nodes: seq<Node>, prefix: seq<Slot>, items: seq<JsonValue>, i: nat, f: nat): Outcome<bool>
    requires Closed(nodes) && SlotsBelow(prefix, |nodes|)
    decreases f + 1, 1, |prefix| - i
  {
    if i >= |prefix| then Value(true)
    else if i >= |items| then Thrown(ArgumentOutOfRange)
    else Then(MatchAt(env, nodes, prefix[i], items[i], f), PrefixFrom(env, nodes, prefix, items, i + 1, f))
  }

  /** The `items` loop from position `i`. */
  function ItemsFrom(env: Env, nodes: seq<Node>, s: SchemaId, items: seq<JsonValue>, i: nat, f: nat): Outcome<bool>
    requires Closed(nodes) && s < |nodes|
    decreases f + 1, 1, |items| - i
  {
    if i >= |items| then Value(true)
    else Then(Match(env, nodes, s, items[i], f), ItemsFrom(env, nodes, s, items, i + 1, f))
  }

  /** The positions from `i` on whose item matches `contains`; every item is tried. */
  function ContainsFrom(env: Env, nodes: seq<Node>, s: SchemaId, items: seq<JsonValue>, i: nat, f: nat): Outcome<set<nat>>
    requires Closed(nodes) && s < |nodes|
    decreases f + 1, 1, |items| - i
  {
    if i >= |items| then Value({})
    else
      var o := Match(env, nodes, s, items[i], f);
      if o.Thrown? then Thrown(o.fault)
      else
        var rest := ContainsFrom(env, nodes, s, items, i + 1, f);
        if rest.Thrown? then rest else Value(if o.value then {i} + rest.value else rest.value)
  }

  /** The `unevaluatedItems` loop from position `i`, skipping evaluated positions. */
  function UnevaluatedFrom(env: Env, nodes: seq<Node>, s: SchemaId, items: seq<JsonValue>, ev: set<nat>, i: nat, f: nat): Outcome<bool>
    requires Closed(nodes) && s < |nodes|
    decreases f + 1, 1, |items| - i
  {
    if i >= |items| then Value(true)
    else if i in ev then UnevaluatedFrom(env, nodes, s, items, ev, i + 1, f)
    else Then(Match(env, nodes, s, items[i], f), UnevaluatedFrom(env, nodes, s, items, ev, i + 1, f))
  }

  /** A set of matches grown by the hits still to come, unless they throw. */
  function Plus(hits: set<nat>, o: Outcome<set<nat>>): Outcome<set<nat>>
  {
    if o.Thrown? then o else Value(hits + o.value)
  }

  /** `TryValidateArray` as written: the counts, the pairwise test, then the loops over `hasBeenEvaluated`. */
  method TryValidateArray(env: Env, nodes: seq<Node>, id: SchemaId, items: seq<JsonValue>, f: nat) returns (r: Outcome<bool>)
    requires Closed(nodes) && id < |nodes|
    ensures r == ArrayOutcome(env, nodes, id, items, f)
  {
    var kw := KeywordsOf(nodes, id);
    BelowSlots(kw, |nodes|);
    var a := kw.applicator;
    var val := kw.validation;
    var n := |items|;
    if n < val.minItems {
      return Value(false);
    }
    if val.maxItems.Some? && n > val.maxItems.value {
      return Value(false);
    }
    if val.uniqueItems {
      var distinct := AreDistinct(items);
      if !distinct {
        return Value(false);
      }
    }
    var evaluated := new bool[n](_ => false);
    var offset, p := CheckPrefix(env, nodes, a.prefixItems, items, evaluated, f);
    if p != Value(true) {
      return p;
    }
    if a.items.Some? {
      var q := CheckItems(env, nodes, a.items.value, items, offset, evaluated, f);
      if q != Value(true) {
        return q;
      }
    }
    assert forall j :: 0 <= j < n ==> evaluated[j] == Covered(j, |a.prefixItems|, a.items.Some?);
    ghost var hits: set<nat> := {};
    if a.contains.Some? {
      var c;
      c, hits := CountContains(env, nodes, a.contains.value, items, evaluated, f);
      if c.Thrown? {
        return Thrown(c.fault);
      }
      if c.value < val.minContains {
        return Value(false);
      }
      if val.maxContains.Some? && c.value > val.maxContains.value {
        return Value(false);
      }
    }
    if kw.other.unevaluatedItems.Some? {
      ghost var ev := Evaluated(|a.prefixItems|, n, a.items.Some?, hits);
      r := CheckUnevaluated(env, nodes, kw.other.unevaluatedItems.value, items, ev, evaluated, f);
      return r;
    }
    return Value(true);
  }

  /** The `prefixItems` loop: marks each matched position and stops at the first failure or fault. */
  method CheckPrefix(env: Env, nodes: seq<Node>, prefix: seq<Slot>, items: seq<JsonValue>, evaluated: array<bool>, f: nat)
    returns (offset: nat, r: Outcome<bool>)
    requires Closed(nodes) && SlotsBelow(prefix, |nodes|)
    requires evaluated.Length == |items| && forall j :: 0 <= j < evaluated.Length ==> !evaluated[j]
    modifies evaluated
    ensures r == PrefixFrom(env, nodes, prefix, items, 0, f)
    ensures r == Value(true) ==> offset == |prefix| <= |items|
    ensures r == Value(true) ==> forall j :: 0 <= j < evaluated.Length ==> evaluated[j] == (j < offset)
  {
    offset := 0;
    while offset < |prefix|
      invariant 0 <= offset <= |prefix| && offset <= |items|
      invariant PrefixFrom(env, nodes, prefix, items, 0, f) == PrefixFrom(env, nodes, prefix, items, offset, f)
      invariant forall j :: 0 <= j < evaluated.Length ==> evaluated[j] == (j < offset)
    {
      if offset >= |items| {
        return offset, Thrown(ArgumentOutOfRange);
      }
      var o := MatchAt(env, nodes, prefix[offset], items[offset], f);
      if o != Value(true) {
        return offset, o;
      }
      evaluated[offset] := true;
      offset := offset + 1;
    }
    r := Value(true);
  }

  /** The `items` loop from `offset`: marks every position it matches. */
  method CheckItems(env: Env, nodes: seq<Node>, s: SchemaId, items: seq<JsonValue>, offset: nat, evaluated: array<bool>, f: nat)
    returns (r: Outcome<bool>)
    requires Closed(nodes) && s < |nodes| && offset <= |items|
    requires evaluated.Length == |items| && forall j :: 0 <= j < evaluated.Length ==> evaluated[j] == (j < offset)
    modifies evaluated
    ensures r == ItemsFrom(env, nodes, s, items, offset, f)
    ensures r == Value(true) ==> forall j :: 0 <= j < evaluated.Length ==> evaluated[j]
  {
    var i := offset;
    while i < |items|
      invariant offset <= i <= |items|
      invariant ItemsFrom(env, nodes, s, items, offset, f) == ItemsFrom(env, nodes, s, items, i, f)
      invariant forall j :: 0 <= j < evaluated.Length ==> evaluated[j] == (j < i)
    {
      var o := Match(env, nodes, s, items[i], f);
      if o != Value(true) {
        return o;
      }
      evaluated[i] := true;
      i := i + 1;
    }
    r := Value(true);
  }

  /** The `contains` loop: counts (`countContains`) and marks every matching position. */
  method CountContains(env: Env, nodes: seq<Node>, s: SchemaId, items: seq<JsonValue>, evaluated: array<bool>, f: nat)
    returns (r: Outcome<nat>, ghost hits: set<nat>)
    requires Closed(nodes) && s < |nodes| && evaluated.Length == |items|
    modifies evaluated
    ensures r.Thrown? ==> ContainsFrom(env, nodes, s, items, 0, f) == Thrown(r.fault)
    ensures r.Value? ==> ContainsFrom(env, nodes, s, items, 0, f) == Value(hits) && r.value == |hits|
    ensures r.Value? ==> forall j :: 0 <= j < evaluated.Length ==> evaluated[j] == (old(evaluated[j]) || j in hits)
  {
    hits := {};
    var count := 0;
    var i := 0;
    while i < |items|
      invariant 0 <= i <= |items|
      invariant forall j :: j in hits ==> j < i
      invariant count == |hits|
      invariant ContainsFrom(env, nodes, s, items, 0, f) == Plus(hits, ContainsFrom(env, nodes, s, items, i, f))
      invariant forall j :: 0 <= j < evaluated.Length ==> evaluated[j] == (old(evaluated[j]) || j in hits)
    {
      var o := Match(env, nodes, s, items[i], f);
      if o.Thrown? {
        return Thrown(o.fault), hits;
      }
      ContainsStep(env, nodes, s, items, i, f, hits);
      if o.value {
        evaluated[i] := true;
        count := count + 1;
        hits := hits + {i};
      }
      i := i + 1;
    }
    r := Value(count);
  }

  /** One step of the `contains` loop: position `i` joins the hits exactly when it matches. */
  lemma ContainsStep(env: Env, nodes: seq<Node>, s: SchemaId, items: seq<JsonValue>, i: nat, f: nat, hits: set<nat>)
    requires Closed(nodes) && s < |nodes| && i < |items|
    requires Match(env, nodes, s, items[i], f).Value?
    ensures var step: set<nat> := if Match(env, nodes, s, items[i], f).value then {i} else {};
      Plus(hits, ContainsFrom(env, nodes, s, items, i, f)) == Plus(hits + step, ContainsFrom(env, nodes, s, items, i + 1, f))
  {
    var rest := ContainsFrom(env, nodes, s, items, i + 1, f);
    if rest.Value? {
      var o := Match(env, nodes, s, items[i], f);
      if o.value {
        assert ContainsFrom(env, nodes, s, items, i, f) == Value({i} + rest.value);
        assert hits + ({i} + rest.value) == (hits + {i}) + rest.value;
      } else {
        assert ContainsFrom(env, nodes, s, items, i, f) == Value(rest.value);
        assert hits + rest.value == (hits + {}) + rest.value;
      }
    }
  }

  /** The `unevaluatedItems` loop: positions not marked must match. */
  method CheckUnevaluated(env: Env, nodes: seq<Node>, s: SchemaId, items: seq<JsonValue>, ghost ev: set<nat>,
    evaluated: array<bool>, f: nat) returns (r: Outcome<bool>)
    requires Closed(nodes) && s < |nodes| && evaluated.Length == |items|
    requires forall j :: 0 <= j < evaluated.Length ==> evaluated[j] == (j in ev)
    ensures r == UnevaluatedFrom(env, nodes, s, items, ev, 0, f)
  {
    var i := 0;
    while i < |items|
      invariant 0 <= i <= |items|
      invariant UnevaluatedFrom(env, nodes, s, items, ev, 0, f) == UnevaluatedFrom(env, nodes, s, items, ev, i, f)
    {
      if !evaluated[i] {
        var o := Match(env, nodes, s, items[i], f);
        if o != Value(true) {
          return o;
        }
      }
      i := i + 1;
    }
    r := Value(true);
  }

  /** The `uniqueItems` double loop: each item against every later one. */
  method AreDistinct(items: seq<JsonValue>) returns (r: bool)
    ensures r == DistinctItems(items)
  {
    var i := 0;
    while i < |items|
      invariant 0 <= i <= |items|
      invariant forall p, q :: 0 <= p < i && p < q < |items| ==> !JsonExtenders.Equivalent(items[p], items[q])
    {
      var j := i + 1;
      while j < |items|
        invariant i + 1 <= j <= |items|
        invariant forall q :: i < q < j ==> !JsonExtenders.Equivalent(items[i], items[q])
      {
        var e := JsonExtenders.IsEquivalent(items[i], items[j]);
        if e {
          return false;
        }
        j := j + 1;
      }
      i := i + 1;
    }
    return true;
  }
}
