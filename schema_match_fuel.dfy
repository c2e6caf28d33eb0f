/**
 * The depth bound of `SchemaMatcher` is only a device of the model: once a
 * query finishes without running out of fuel, more fuel gives the same
 * answer. Every function of the matcher is shown monotone in its fuel, by
 * an induction that follows the matcher's own recursion.
 */
module SchemaMatchFuel {
  import opened Wrappers
  import opened JsonElements
  import SimpleTypes
  import opened SchemaKeywords
  import opened SchemaValidation
  import opened SchemaNodes
  import opened SchemaMatcher
  import opened SchemaLifecycle

  /** The outcome is an answer or a fault of the source, not the model's depth bound. */
  predicate Settled<T>(o: Outcome<T>)
  {
    !o.Thrown? || o.fault != OutOfFuel
  }

  /** A query that settles with fuel `f` gives the same outcome with any larger fuel `g`. */
  lemma {:induction false} MatchFuelMonotone(env: Env, nodes: seq<Node>, id: SchemaId, v: JsonValue, f: nat, g: nat)
    requires Closed(nodes) && id < |nodes| && f <= g
    requires Settled(Match(env, nodes, id, v, f))
    ensures Match(env, nodes, id, v, g) == Match(env, nodes, id, v, f)
    decreases f, 9, 0
  {
    if f > 0 {
      ChecksFuel(env, nodes, id, v, f - 1, g - 1);
    }
  }

  lemma {:induction false} ChecksFuel(env: Env, nodes: seq<Node>, id: SchemaId, v: JsonValue, f: nat, g: nat)
    requires Closed(nodes) && id < |nodes| && f <= g
    ensures Settled(Checks(env, nodes, id, v, f)) ==> Checks(env, nodes, id, v, g) == Checks(env, nodes, id, v, f)
    decreases f + 1, 8, 0
  {
    ReferenceStageFuel(env, nodes, id, v, f, g);
    ConditionStageFuel(env, nodes, id, v, f, g);
    AllOfStageFuel(env, nodes, id, v, f, g);
    AnyOfStageFuel(env, nodes, id, v, f, g);
    OneOfStageFuel(env, nodes, id, v, f, g);
    NotStageFuel(env, nodes, id, v, f, g);
    TypeFromFuel(env, nodes, id, v, 0, f, g);
  }

  lemma {:induction false} MatchAtFuel(env: Env, nodes: seq<Node>, s: Slot, v: JsonValue, f: nat, g: nat)
    requires Closed(nodes) && SlotBelow(s, |nodes|) && f <= g
    ensures Settled(MatchAt(env, nodes, s, v, f)) ==> MatchAt(env, nodes, s, v, g) == MatchAt(env, nodes, s, v, f)
    decreases f + 1, 0, 0
  {
    if s.Some? && Settled(Match(env, nodes, s.value, v, f)) {
      MatchFuelMonotone(env, nodes, s.value, v, f, g);
    }
  }

  lemma {:induction false} ReferenceStageFuel(env: Env, nodes: seq<Node>, id: SchemaId, v: JsonValue, f: nat, g: nat)
    requires Closed(nodes) && id < |nodes| && f <= g
    ensures Settled(ReferenceStage(env, nodes, id, v, f)) ==>
      ReferenceStage(env, nodes, id, v, g) == ReferenceStage(env, nodes, id, v, f)
    decreases f + 1, 5, 0
  {
    if nodes[id].resolved.Some? {
      if Settled(Match(env, nodes, nodes[id].resolved.value, v, f)) {
        MatchFuelMonotone(env, nodes, nodes[id].resolved.value, v, f, g);
      }
    }
  }

  lemma {:induction false} ConditionStageFuel(env: Env, nodes: seq<Node>, id: SchemaId, v: JsonValue, f: nat, g: nat)
    requires Closed(nodes) && id < |nodes| && f <= g
    ensures Settled(ConditionStage(env, nodes, id, v, f)) ==>
      ConditionStage(env, nodes, id, v, g) == ConditionStage(env, nodes, id, v, f)
    decreases f + 1, 5, 0
  {
    var kw := KeywordsOf(nodes, id);
    BelowSlots(kw, |nodes|);
    var a := kw.applicator;
    if a.ifSchema.Some? {
      if Settled(Match(env, nodes, a.ifSchema.value, v, f)) {
        MatchFuelMonotone(env, nodes, a.ifSchema.value, v, f, g);
      }
      if a.thenSchema.Some? {
        if Settled(Match(env, nodes, a.thenSchema.value, v, f)) {
          MatchFuelMonotone(env, nodes, a.thenSchema.value, v, f, g);
        }
      }
      if a.elseSchema.Some? {
        if Settled(Match(env, nodes, a.elseSchema.value, v, f)) {
          MatchFuelMonotone(env, nodes, a.elseSchema.value, v, f, g);
        }
      }
    }
  }

  lemma {:induction false} AllOfStageFuel(env: Env, nodes: seq<Node>, id: SchemaId, v: JsonValue, f: nat, g: nat)
    requires Closed(nodes) && id < |nodes| && f <= g
    ensures Settled(AllOfStage(env, nodes, id, v, f)) ==>
      AllOfStage(env, nodes, id, v, g) == AllOfStage(env, nodes, id, v, f)
    decreases f + 1, 5, 0
  {
    var kw := KeywordsOf(nodes, id);
    BelowSlots(kw, |nodes|);
    if kw.applicator.allOf.Some? {
      AllFromFuel(env, nodes, kw.applicator.allOf.value, v, 0, f, g);
    }
  }

  lemma {:induction false} AllFromFuel(env: Env, nodes: seq<Node>, list: seq<Slot>, v: JsonValue, i: nat, f: nat, g: nat)
    requires Closed(nodes) && SlotsBelow(list, |nodes|) && f <= g
    ensures Settled(AllFrom(env, nodes, list, v, i, f)) ==>
      AllFrom(env, nodes, list, v, i, g) == AllFrom(env, nodes, list, v, i, f)
    decreases f + 1, 1, |list| - i
  {
    if i < |list| {
      MatchAtFuel(env, nodes, list[i], v, f, g);
      AllFromFuel(env, nodes, list, v, i + 1, f, g);
    }
  }

  lemma {:induction false} CountFromFuel(env: Env, nodes: seq<Node>, list: seq<Slot>, v: JsonValue, i: nat, f: nat, g: nat)
    requires Closed(nodes) && SlotsBelow(list, |nodes|) && f <= g
    ensures Settled(CountFrom(env, nodes, list, v, i, f)) ==>
      CountFrom(env, nodes, list, v, i, g) == CountFrom(env, nodes, list, v, i, f)
    decreases f + 1, 1, |list| - i
  {
    if i < |list| {
      MatchAtFuel(env, nodes, list[i], v, f, g);
      CountFromFuel(env, nodes, list, v, i + 1, f, g);
    }
  }

  lemma {:induction false} AnyOfStageFuel(env: Env, nodes: seq<Node>, id: SchemaId, v: JsonValue, f: nat, g: nat)
    requires Closed(nodes) && id < |nodes| && f <= g
    ensures Settled(AnyOfStage(env, nodes, id, v, f)) ==>
      AnyOfStage(env, nodes, id, v, g) == AnyOfStage(env, nodes, id, v, f)
    decreases f + 1, 5, 0
  {
    var kw := KeywordsOf(nodes, id);
    BelowSlots(kw, |nodes|);
    if kw.applicator.anyOf.Some? {
      CountFromFuel(env, nodes, kw.applicator.anyOf.value, v, 0, f, g);
    }
  }

  lemma {:induction false} OneOfStageFuel(env: Env, nodes: seq<Node>, id: SchemaId, v: JsonValue, f: nat, g: nat)
    requires Closed(nodes) && id < |nodes| && f <= g
    ensures Settled(OneOfStage(env, nodes, id, v, f)) ==>
      OneOfStage(env, nodes, id, v, g) == OneOfStage(env, nodes, id, v, f)
    decreases f + 1, 5, 0
  {
    var kw := KeywordsOf(nodes, id);
    BelowSlots(kw, |nodes|);
    if kw.applicator.oneOf.Some? {
      CountFromFuel(env, nodes, kw.applicator.oneOf.value, v, 0, f, g);
    }
  }

  lemma {:induction false} NotStageFuel(env: Env, nodes: seq<Node>, id: SchemaId, v: JsonValue, f: nat, g: nat)
    requires Closed(nodes) && id < |nodes| && f <= g
    ensures Settled(NotStage(env, nodes, id, v, f)) ==>
      NotStage(env, nodes, id, v, g) == NotStage(env, nodes, id, v, f)
    decreases f + 1, 5, 0
  {
    var kw := KeywordsOf(nodes, id);
    BelowSlots(kw, |nodes|);
    if kw.applicator.not.Some? {
      if Settled(Match(env, nodes, kw.applicator.not.value, v, f)) {
        MatchFuelMonotone(env, nodes, kw.applicator.not.value, v, f, g);
      }
    }
  }

  lemma {:induction false} TypeFromFuel(env: Env, nodes: seq<Node>, id: SchemaId, v: JsonValue, k: nat, f: nat, g: nat)
    requires Closed(nodes) && id < |nodes| && f <= g
    ensures Settled(TypeFrom(env, nodes, id, v, k, f)) ==>
      TypeFrom(env, nodes, id, v, k, g) == TypeFrom(env, nodes, id, v, k, f)
    decreases f + 1, 4, 7 - k
  {
    if k < 7 {
      KindOutcomeFuel(env, nodes, id, v, SimpleTypes.AllTypes()[k], f, g);
      TypeFromFuel(env, nodes, id, v, k + 1, f, g);
    }
  }

  lemma {:induction false} KindOutcomeFuel(env: Env, nodes: seq<Node>, id: SchemaId, v: JsonValue, x: SimpleTypes.SimpleType, f: nat, g: nat)
    requires Closed(nodes) && id < |nodes| && f <= g
    ensures Settled(KindOutcome(env, nodes, id, v, x, f)) ==>
      KindOutcome(env, nodes, id, v, x, g) == KindOutcome(env, nodes, id, v, x, f)
    decreases f + 1, 3, 0
  {
    if x.Array? && v.Arr? {
      ArrayOutcomeFuel(env, nodes, id, v.items, f, g);
    }
  }

  lemma {:induction false} ArrayOutcomeFuel(env: Env, nodes: seq<Node>, id: SchemaId, items: seq<JsonValue>, f: nat, g: nat)
    requires Closed(nodes) && id < |nodes| && f <= g
    ensures Settled(ArrayOutcome(env, nodes, id, items, f)) ==>
      ArrayOutcome(env, nodes, id, items, g) == ArrayOutcome(env, nodes, id, items, f)
    decreases f + 1, 2, 0
  {
    var kw := KeywordsOf(nodes, id);
    BelowSlots(kw, |nodes|);
    var a := kw.applicator;
    PrefixFromFuel(env, nodes, a.prefixItems, items, 0, f, g);
    if a.items.Some? {
      ItemsFromFuel(env, nodes, a.items.value, items, |a.prefixItems|, f, g);
    }
    if a.contains.Some? {
      ContainsFromFuel(env, nodes, a.contains.value, items, 0, f, g);
      var hits := ContainsFrom(env, nodes, a.contains.value, items, 0, f);
      if kw.other.unevaluatedItems.Some? && hits.Value? {
        var ev := Evaluated(|a.prefixItems|, |items|, a.items.Some?, hits.value);
        UnevaluatedFromFuel(env, nodes, kw.other.unevaluatedItems.value, items, ev, 0, f, g);
      }
    } else if kw.other.unevaluatedItems.Some? {
      var ev := Evaluated(|a.prefixItems|, |items|, a.items.Some?, {});
      UnevaluatedFromFuel(env, nodes, kw.other.unevaluatedItems.value, items, ev, 0, f, g);
    }
  }

  lemma {:induction false} PrefixFromFuel(env: Env, nodes: seq<Node>, prefix: seq<Slot>, items: seq<JsonValue>, i: nat, f: nat, g: nat)
    requires Closed(nodes) && SlotsBelow(prefix, |nodes|) && f <= g
    ensures Settled(PrefixFrom(env, nodes, prefix, items, i, f)) ==>
      PrefixFrom(env, nodes, prefix, items, i, g) == PrefixFrom(env, nodes, prefix, items, i, f)
    decreases f + 1, 1, |prefix| - i
  {
    if i < |prefix| && i < |items| {
      MatchAtFuel(env, nodes, prefix[i], items[i], f, g);
      PrefixFromFuel(env, nodes, prefix, items, i + 1, f, g);
    }
  }

  lemma {:induction false} ItemsFromFuel(env: Env, nodes: seq<Node>, s: SchemaId, items: seq<JsonValue>, i: nat, f: nat, g: nat)
    requires Closed(nodes) && s < |nodes| && f <= g
    ensures Settled(ItemsFrom(env, nodes, s, items, i, f)) ==>
      ItemsFrom(env, nodes, s, items, i, g) == ItemsFrom(env, nodes, s, items, i, f)
    decreases f + 1, 1, |items| - i
  {
    if i < |items| {
      if Settled(Match(env, nodes, s, items[i], f)) {
        MatchFuelMonotone(env, nodes, s, items[i], f, g);
      }
      ItemsFromFuel(env, nodes, s, items, i + 1, f, g);
    }
  }

  lemma {:induction false} ContainsFromFuel(env: Env, nodes: seq<Node>, s: SchemaId, items: seq<JsonValue>, i: nat, f: nat, g: nat)
    requires Closed(nodes) && s < |nodes| && f <= g
    ensures Settled(ContainsFrom(env, nodes, s, items, i, f)) ==>
      ContainsFrom(env, nodes, s, items, i, g) == ContainsFrom(env, nodes, s, items, i, f)
    decreases f + 1, 1, |items| - i
  {
    if i < |items| {
      if Settled(Match(env, nodes, s, items[i], f)) {
        MatchFuelMonotone(env, nodes, s, items[i], f, g);
      }
      ContainsFromFuel(env, nodes, s, items, i + 1, f, g);
    }
  }

  lemma {:induction false} UnevaluatedFromFuel(env: Env, nodes: seq<Node>, s: SchemaId, items: seq<JsonValue>, ev: set<nat>,
                                               i: nat, f: nat, g: nat)
    requires Closed(nodes) && s < |nodes| && f <= g
    ensures Settled(UnevaluatedFrom(env, nodes, s, items, ev, i, f)) ==>
      UnevaluatedFrom(env, nodes, s, items, ev, i, g) == UnevaluatedFrom(env, nodes, s, items, ev, i, f)
    decreases f + 1, 1, |items| - i
  {
    if i < |items| {
      if i !in ev {
        if Settled(Match(env, nodes, s, items[i], f)) {
          MatchFuelMonotone(env, nodes, s, items[i], f, g);
        }
      }
      UnevaluatedFromFuel(env, nodes, s, items, ev, i + 1, f, g);
    }
  }

  // ----------------------------------------------------- OnDeserialized

  lemma SelfMatchFuel(env: Env, nodes: seq<Node>, self: Node, v: JsonValue, f: nat, g: nat)
    requires Closed(nodes) && Below(self.kw, |nodes|) && self.resolved.None? && f <= g
    ensures Settled(SelfMatch(env, nodes, self, v, f)) ==> SelfMatch(env, nodes, self, v, g) == SelfMatch(env, nodes, self, v, f)
  {
    ProbeClosed(nodes, self);
    if Settled(Match(env, nodes + [self], |nodes|, v, f)) {
      MatchFuelMonotone(env, nodes + [self], |nodes|, v, f, g);
    }
  }

  lemma {:induction false} CheckPermissibleFuel(env: Env, nodes: seq<Node>, base: Node, values: seq<JsonValue>, m: seq<Message>,
                                                f: nat, g: nat)
    requires Closed(nodes) && Below(base.kw, |nodes|) && base.resolved.None? && f <= g
    ensures Settled(CheckPermissible(env, nodes, base, values, m, f)) ==>
      CheckPermissible(env, nodes, base, values, m, g) == CheckPermissible(env, nodes, base, values, m, f)
    decreases |values|
  {
    ShapesAgree(base.kw, |nodes|);
    if values != [] {
      var probe := Probe(base, WithoutEnum(base.kw), m);
      SelfMatchFuel(env, nodes, probe, values[0], f, g);
      var o := SelfMatch(env, nodes, probe, values[0], f);
      if o.Value? {
        CheckPermissibleFuel(env, nodes, base, values[1..], m + When(!o.value, PermissibleRejected(env, values[0])), f, g);
      }
    }
  }

  lemma CheckConstantFuel(env: Env, nodes: seq<Node>, base: Node, m: seq<Message>, f: nat, g: nat)
    requires Closed(nodes) && Below(base.kw, |nodes|) && base.resolved.None? && f <= g
    ensures Settled(CheckConstant(env, nodes, base, m, f)) ==>
      CheckConstant(env, nodes, base, m, g) == CheckConstant(env, nodes, base, m, f)
  {
    ShapesAgree(base.kw, |nodes|);
    var c := base.kw.validation.constant;
    if !c.Undefined? {
      SelfMatchFuel(env, nodes, Probe(base, WithoutValues(base.kw), m), c, f, g);
    }
  }

  lemma CheckValuesFuel(env: Env, nodes: seq<Node>, base: Node, m: seq<Message>, f: nat, g: nat)
    requires Closed(nodes) && Below(base.kw, |nodes|) && base.resolved.None? && f <= g
    ensures Settled(CheckValues(env, nodes, base, m, f)) ==>
      CheckValues(env, nodes, base, m, g) == CheckValues(env, nodes, base, m, f)
  {
    CheckConstantFuel(env, nodes, base, m, f, g);
    var first := CheckConstant(env, nodes, base, m, f);
    if first.Value? {
      CheckPermissibleFuel(env, nodes, base, EnumValues(base.kw.validation), first.value, f, g);
    }
  }

  /**
   * `OnDeserialized` runs its self matches with the caller's fuel: once it
   * finishes without running out, more fuel finishes it the same way.
   */
  lemma DeserializedFuelMonotone(env: Env, nodes: seq<Node>, kw: Keywords, blocks: seq<Message>, f: nat, g: nat)
    requires Closed(nodes) && Below(kw, |nodes|) && f <= g
    requires Settled(Deserialized(env, nodes, kw, blocks, f))
    ensures Deserialized(env, nodes, kw, blocks, g) == Deserialized(env, nodes, kw, blocks, f)
  {
    var base := Initialized(nodes, kw);
    CheckValuesFuel(env, nodes, base, blocks, f, g);
  }
}
