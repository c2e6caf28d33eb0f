/**
 * `BasicSchema.OnDeserialized`: what happens to a schema right after the
 * decoder has read its keywords. It is initialised, the applicator, core
 * and validation blocks log their diagnostics, `const` and every `enum`
 * value are matched against the schema itself with those keywords
 * removed, the deprecated keywords draw warnings and, last, the messages
 * of the immediate schemas are copied in, each re-addressed under the key
 * of its schema.
 *
 * The schema under construction is not in the arena yet; while it matches
 * against itself it is the node `|nodes|` of `nodes + [self]`. An
 * exception raised by one of those matches leaves `OnDeserialized`, so the
 * outcome is a `Thrown` fault and no schema is added.
 */
module SchemaLifecycle {
  import opened Wrappers
  import opened JsonElements
  import JsonPointer
  import Diagnostics
  import opened SchemaKeywords
  import opened SchemaValidation
  import opened SchemaBlocks
  import opened SchemaNodes
  import opened SchemaMatcher

  // ------------------------------------------------------------- shapes

  /** The keywords while `const` is checked: `ConstantValue`, `PermissibleValues` and `Examples` cleared. */
  function WithoutValues(kw: Keywords): Keywords
  {
    kw.(validation := kw.validation.(constant := Undefined, enumValues := None), other := kw.other.(examples := []))
  }

  /** The keywords while `enum` is checked: `const` is back, `PermissibleValues` and `Examples` are cleared. */
  function WithoutEnum(kw: Keywords): Keywords
  {
    kw.(validation := kw.validation.(enumValues := None), other := kw.other.(examples := []))
  }

  /** The keywords `OnDeserialized` leaves: `Examples` is never restored. */
  function WithoutExamples(kw: Keywords): Keywords
  {
    kw.(other := kw.other.(examples := []))
  }

  /** Two sets of keywords that hold the same sub-schemas and the same references. */
  predicate SameSchemas(a: Keywords, b: Keywords)
  {
    a.core == b.core && a.applicator == b.applicator && a.other.unevaluatedItems == b.other.unevaluatedItems &&
    a.other.unevaluatedProperties == b.other.unevaluatedProperties && a.other.contentSchema == b.other.contentSchema
  }

  lemma SameSchemasAgree(a: Keywords, b: Keywords, bound: nat)
    requires SameSchemas(a, b)
    ensures Below(a, bound) <==> Below(b, bound)
    ensures Immediate(a) == Immediate(b)
  {
    assert SingleSlots(a) == SingleSlots(b);
    assert SingleValues(a) == SingleValues(b);
    assert ListSlots(a) == ListSlots(b);
    assert MapSlots(a) == MapSlots(b);
  }

  lemma ShapesAgree(kw: Keywords, bound: nat)
    ensures SameSchemas(WithoutValues(kw), kw) && SameSchemas(WithoutEnum(kw), kw) && SameSchemas(WithoutExamples(kw), kw)
    ensures Below(kw, bound) ==>
      Below(WithoutValues(kw), bound) && Below(WithoutEnum(kw), bound) && Below(WithoutExamples(kw), bound)
    ensures Immediate(WithoutExamples(kw)) == Immediate(kw)
  {
    SameSchemasAgree(WithoutValues(kw), kw, bound);
    SameSchemasAgree(WithoutEnum(kw), kw, bound);
    SameSchemasAgree(WithoutExamples(kw), kw, bound);
  }

  // ---------------------------------------------------------- self match

  /** The schema under construction as its own `IsMatch` sees it: keywords `shape`, the diagnostics logged so far. */
  function Probe(base: Node, shape: Keywords, messages: seq<Message>): Node
  {
    base.(kw := shape, messages := messages)
  }

  /** A node whose sub-schemas are in the arena and which has no resolved reference keeps the arena closed. */
  lemma ProbeClosed(nodes: seq<Node>, self: Node)
    requires Closed(nodes) && Below(self.kw, |nodes|) && self.resolved.None?
    ensures Closed(nodes + [self])
  {
    var all := nodes + [self];
    forall i | 0 <= i < |all|
      ensures Below(all[i].kw, |all|) && (all[i].resolved.Some? ==> all[i].resolved.value < |all|)
    {
      if i < |nodes| {
        BelowMonotone(nodes[i].kw, |nodes|, |all|);
      } else {
        BelowMonotone(self.kw, |nodes|, |all|);
      }
    }
  }

  /** `this.IsMatch(x)` called from inside `OnDeserialized`. */
  function SelfMatch(env: Env, nodes: seq<Node>, self: Node, v: JsonValue, fuel: nat): Outcome<bool>
    requires Closed(nodes) && Below(self.kw, |nodes|) && self.resolved.None?
  {
    ProbeClosed(nodes, self);
    Match(env, nodes + [self], |nodes|, v, fuel)
  }

  /** The guards of `IsMatch` see the schema under construction: its errors so far, its flags. */
  lemma SelfMatchGuards(env: Env, nodes: seq<Node>, self: Node, v: JsonValue, fuel: nat)
    requires Closed(nodes) && Below(self.kw, |nodes|) && self.resolved.None?
    ensures fuel > 0 && Diagnostics.HasLevel(self.messages, Diagnostics.Error) ==>
      SelfMatch(env, nodes, self, v, fuel) == Thrown(Malformed)
    ensures fuel > 0 && !Diagnostics.HasLevel(self.messages, Diagnostics.Error) && self.ownsExternal ==>
      SelfMatch(env, nodes, self, v, fuel) == Thrown(External)
    ensures fuel > 0 && !Diagnostics.HasLevel(self.messages, Diagnostics.Error) && !self.ownsExternal && self.ownsUnresolved ==>
      SelfMatch(env, nodes, self, v, fuel) == Thrown(Unresolved)
  {
    ProbeClosed(nodes, self);
    assert (nodes + [self])[|nodes|] == self;
  }

  // -------------------------------------------------------------- messages

  function ConstantRejected(env: Env, c: JsonValue): Message
  {
    ErrorAt("Constant value \"" + env.rawText(c) + "\" does not pass schema validation.", "const")
  }

  function PermissibleRejected(env: Env, x: JsonValue): Message
  {
    ErrorAt("Permissible value \"" + env.rawText(x) + "\" does not pass schema validation.", "enum")
  }

  const ConstantNotPermissible := "Constant value is not present in permissible value list."
  const DefinitionsReplaced := "\"definitions\" has been replaced by \"$defs\"."
  const DependenciesReplaced := "\"dependencies\" has been split and replaced by \"dependentSchemas\" and \"dependentRequired\" in order to serve their differing semantics."
  const RecursiveAnchorReplaced := "\"$recursiveAnchor\" has been replaced by \"$dynamicAnchor\"."
  const RecursiveRefReplaced := "\"$recursiveRef\" has been replaced by \"$dynamicRef\"."

  function WarningAt(text: string, keyword: string): Message
  {
    Diagnostics.ConsoleMessage(text, Diagnostics.Warning, Some(KeywordPointer(keyword)))
  }

  /** The three blocks, in the order `OnDeserialized` runs them. */
  ghost function BlockMessages(env: Env, kw: Keywords): seq<Message>
  {
    ApplicatorMessages(env, kw.applicator) + CoreMessages(env, kw.core) +
    ValidationMessages(kw.validation, kw.applicator.contains.Some?)
  }

  /** `const` against the schema without `const`, `enum` and `examples`; the log after it. */
  function CheckConstant(env: Env, nodes: seq<Node>, base: Node, m: seq<Message>, fuel: nat): Outcome<seq<Message>>
    requires Closed(nodes) && Below(base.kw, |nodes|) && base.resolved.None?
  {
    var c := base.kw.validation.constant;
    ShapesAgree(base.kw, |nodes|);
    if c.Undefined? then Value(m)
    else match SelfMatch(env, nodes, Probe(base, WithoutValues(base.kw), m), c, fuel)
      case Thrown(f) => Thrown(f)
      case Value(ok) => Value(m + When(!ok, ConstantRejected(env, c)))
  }

  /** The `enum` values, in order, against the schema without `enum` and `examples`; the log after them. */
  function CheckPermissible(env: Env, nodes: seq<Node>, base: Node, values: seq<JsonValue>, m: seq<Message>, fuel: nat)
    : Outcome<seq<Message>>
    requires Closed(nodes) && Below(base.kw, |nodes|) && base.resolved.None?
    decreases |values|
  {
    ShapesAgree(base.kw, |nodes|);
    if values == [] then Value(m)
    else match SelfMatch(env, nodes, Probe(base, WithoutEnum(base.kw), m), values[0], fuel)
      case Thrown(f) => Thrown(f)
      case Value(ok) =>
        CheckPermissible(env, nodes, base, values[1..], m + When(!ok, PermissibleRejected(env, values[0])), fuel)
  }

  /** The `enum` values, none when `enum` is absent. */
  function EnumValues(v: ValidationKeywords): seq<JsonValue>
  {
    if v.enumValues.Some? then v.enumValues.value else []
  }

  /** `const` together with an empty `enum`. */
  function EnumMessages(v: ValidationKeywords): seq<Message>
  {
    When(!v.constant.Undefined? && v.enumValues == Some([]), ErrorHere(ConstantNotPermissible))
  }

  function DeprecationMessages(o: OtherKeywords): seq<Message>
  {
    When(!o.deprecatedDefinitions.Undefined?,
      WarningAt(DefinitionsReplaced, "definitions")) +
    When(!o.deprecatedDependencies.Undefined?,
      WarningAt(DependenciesReplaced, "dependencies")) +
    When(!o.deprecatedRecursiveAnchor.Undefined?,
      WarningAt(RecursiveAnchorReplaced, "$recursiveAnchor")) +
    When(!o.deprecatedRecursiveReference.Undefined?,
      WarningAt(RecursiveRefReplaced, "$recursiveRef"))
  }

  predicate EntriesIn(nodes: seq<Node>, es: seq<Entry>)
  {
    forall k :: 0 <= k < |es| ==> es[k].1 < |nodes|
  }

  /** The messages of the schemas `es`, in order, each re-addressed under its key. */
  function ChildMessages(nodes: seq<Node>, es: seq<Entry>): seq<Message>
    requires EntriesIn(nodes, es)
    decreases |es|
  {
    if es == [] then []
    else
      var last := es[|es| - 1];
      ChildMessages(nodes, es[..|es| - 1]) + Diagnostics.RelocatedAll(nodes[last.1].messages, last.0, JsonPointer.Compose)
  }

  // ---------------------------------------------------------- the whole

  /** `const`, then each `enum` value, checked against the schema itself; the log after them. */
  function CheckValues(env: Env, nodes: seq<Node>, base: Node, m: seq<Message>, fuel: nat): Outcome<seq<Message>>
    requires Closed(nodes) && Below(base.kw, |nodes|) && base.resolved.None?
  {
    match CheckConstant(env, nodes, base, m, fuel)
    case Thrown(f) => Thrown(f)
    case Value(m1) => CheckPermissible(env, nodes, base, EnumValues(base.kw.validation), m1, fuel)
  }

  /** What is logged after the values are checked: the empty-`enum` error, the deprecations, the children's messages. */
  function FinalMessages(nodes: seq<Node>, kw: Keywords, es: seq<Entry>): seq<Message>
    requires EntriesIn(nodes, es)
  {
    EnumMessages(kw.validation) + DeprecationMessages(kw.other) + ChildMessages(nodes, es)
  }

  /** The finished schema, once the values are checked and `m` is the log. */
  ghost function Finished(nodes: seq<Node>, kw: Keywords, m: seq<Message>): Node
    requires Below(kw, |nodes|)
  {
    ImmediateBelow(kw, |nodes|);
    Initialized(nodes, kw).(kw := WithoutExamples(kw), messages := m + FinalMessages(nodes, kw, Immediate(kw)))
  }

  /**
   * `OnDeserialized` on a schema with keywords `kw` whose sub-schemas are in
   * `nodes`, when its blocks logged `blocks` (`BlockMessages(env, kw)`): the
   * finished node, or the fault one of its self matches raised.
   */
  ghost function Deserialized(env: Env, nodes: seq<Node>, kw: Keywords, blocks: seq<Message>, fuel: nat): Outcome<Node>
    requires Closed(nodes) && Below(kw, |nodes|)
  {
    match CheckValues(env, nodes, Initialized(nodes, kw), blocks, fuel)
    case Thrown(f) => Thrown(f)
    case Value(m) => Value(Finished(nodes, kw, m))
  }

  // ------------------------------------------------------------ properties

  predicate IsPrefix<T(==)>(a: seq<T>, b: seq<T>)
  {
    |a| <= |b| && b[..|a|] == a
  }

  /**
   * The `enum` loop only appends, and only "Permissible value ... does not
   * pass schema validation." errors about its own values.
   */
  lemma {:induction false} PermissibleOnlyAppends(env: Env, nodes: seq<Node>, base: Node, values: seq<JsonValue>,
                                                  m: seq<Message>, fuel: nat)
    requires Closed(nodes) && Below(base.kw, |nodes|) && base.resolved.None?
    requires CheckPermissible(env, nodes, base, values, m, fuel).Value?
    ensures IsPrefix(m, CheckPermissible(env, nodes, base, values, m, fuel).value)
    ensures var m2 := CheckPermissible(env, nodes, base, values, m, fuel).value;
      forall k :: |m| <= k < |m2| ==> exists j :: 0 <= j < |values| && m2[k] == PermissibleRejected(env, values[j])
    decreases |values|
  {
    ShapesAgree(base.kw, |nodes|);
    if values != [] {
      var ok := SelfMatch(env, nodes, Probe(base, WithoutEnum(base.kw), m), values[0], fuel);
      var m1 := m + When(!ok.value, PermissibleRejected(env, values[0]));
      PermissibleOnlyAppends(env, nodes, base, values[1..], m1, fuel);
      var m2 := CheckPermissible(env, nodes, base, values, m, fuel).value;
      assert m2 == CheckPermissible(env, nodes, base, values[1..], m1, fuel).value;
      forall k | |m| <= k < |m2| ensures exists j :: 0 <= j < |values| && m2[k] == PermissibleRejected(env, values[j]) {
        if k < |m1| {
          assert m2[k] == m1[k] == PermissibleRejected(env, values[0]);
        } else {
          var j :| 0 <= j < |values[1..]| && m2[k] == PermissibleRejected(env, values[1..][j]);
          assert values[1..][j] == values[j + 1];
        }
      }
    }
  }

  /**
   * Once an error is logged, every further `IsMatch` of the schema on itself
   * raises `Malformed`: the `enum` loop can reject at most one value, the
   * last one, and only when nothing before it was an error.
   */
  lemma {:induction false} PermissibleRejectsAtMostLast(env: Env, nodes: seq<Node>, base: Node, values: seq<JsonValue>,
                                                        m: seq<Message>, fuel: nat)
    requires Closed(nodes) && Below(base.kw, |nodes|) && base.resolved.None? && fuel > 0
    requires CheckPermissible(env, nodes, base, values, m, fuel).Value?
    ensures var m2 := CheckPermissible(env, nodes, base, values, m, fuel).value;
      m2 == m ||
      (values != [] && !Diagnostics.HasLevel(m, Diagnostics.Error) &&
       m2 == m + [PermissibleRejected(env, values[|values| - 1])])
    decreases |values|
  {
    ShapesAgree(base.kw, |nodes|);
    if values != [] {
      var probe := Probe(base, WithoutEnum(base.kw), m);
      SelfMatchGuards(env, nodes, probe, values[0], fuel);
      var ok := SelfMatch(env, nodes, probe, values[0], fuel);
      assert !Diagnostics.HasLevel(m, Diagnostics.Error);
      var rest := values[1..];
      if ok.value {
        assert m + When(!ok.value, PermissibleRejected(env, values[0])) == m;
        PermissibleRejectsAtMostLast(env, nodes, base, rest, m, fuel);
        if rest != [] {
          assert rest[|rest| - 1] == values[|values| - 1];
        }
      } else {
        var m1 := m + [PermissibleRejected(env, values[0])];
        assert m1[|m|].level == Diagnostics.Error;
        if rest != [] {
          assert false;
        }
      }
    }
  }

  /** The log only grows while the values are checked. */
  lemma ValuesOnlyAppend(env: Env, nodes: seq<Node>, base: Node, m: seq<Message>, fuel: nat)
    requires Closed(nodes) && Below(base.kw, |nodes|) && base.resolved.None?
    requires CheckValues(env, nodes, base, m, fuel).Value?
    ensures IsPrefix(m, CheckValues(env, nodes, base, m, fuel).value)
  {
    var m1 := CheckConstant(env, nodes, base, m, fuel).value;
    assert IsPrefix(m, m1);
    PermissibleOnlyAppends(env, nodes, base, EnumValues(base.kw.validation), m1, fuel);
  }

  /**
   * A finished schema: `Initialize`'s flags and map of immediate schemas,
   * its keywords without `examples`, no resolved reference, and a log that
   * starts with `m` and ends with the children's messages.
   */
  lemma FinishedShape(nodes: seq<Node>, kw: Keywords, m: seq<Message>)
    requires Below(kw, |nodes|)
    ensures var n := Finished(nodes, kw, m);
      n.kw == kw.(other := kw.other.(examples := [])) && n.immediate == Immediate(kw) && n.resolved.None? &&
      !n.isTrivialTrue && !n.isTrivialFalse &&
      (forall f :: Owns(n, f) <==> Refers(kw.core, f) || ChildOwns(nodes, Immediate(kw), f))
    ensures EntriesIn(nodes, Immediate(kw))
    ensures var n := Finished(nodes, kw, m);
      IsPrefix(m, n.messages) && |ChildMessages(nodes, Immediate(kw))| <= |n.messages| &&
      n.messages[|n.messages| - |ChildMessages(nodes, Immediate(kw))|..] == ChildMessages(nodes, Immediate(kw))
  {
    ImmediateBelow(kw, |nodes|);
    var c := ChildMessages(nodes, Immediate(kw));
    var n := Finished(nodes, kw, m);
    assert n.messages == m + (EnumMessages(kw.validation) + DeprecationMessages(kw.other)) + c;
  }

  /** The finished schema's log starts with what the blocks logged. */
  lemma DeserializedShape(env: Env, nodes: seq<Node>, kw: Keywords, blocks: seq<Message>, fuel: nat)
    requires Closed(nodes) && Below(kw, |nodes|)
    requires Deserialized(env, nodes, kw, blocks, fuel).Value?
    ensures exists m :: IsPrefix(blocks, m) && Deserialized(env, nodes, kw, blocks, fuel).value == Finished(nodes, kw, m)
  {
    ValuesOnlyAppend(env, nodes, Initialized(nodes, kw), blocks, fuel);
  }

  /** Without `const` and `enum`, `OnDeserialized` never raises, and the log is the blocks' then the final messages. */
  lemma NoValuesNeverThrow(env: Env, nodes: seq<Node>, kw: Keywords, blocks: seq<Message>, fuel: nat)
    requires Closed(nodes) && Below(kw, |nodes|)
    requires kw.validation.constant.Undefined? && EnumValues(kw.validation) == []
    ensures Deserialized(env, nodes, kw, blocks, fuel) == Value(Finished(nodes, kw, blocks))
  {
  }

  /**
   * A schema whose own keywords are malformed and that has `const` or a
   * non-empty `enum` cannot be read: the first self match raises `Malformed`.
   */
  lemma MalformedValuesThrow(env: Env, nodes: seq<Node>, kw: Keywords, blocks: seq<Message>, fuel: nat)
    requires Closed(nodes) && Below(kw, |nodes|) && fuel > 0
    requires Diagnostics.HasLevel(blocks, Diagnostics.Error)
    requires !kw.validation.constant.Undefined? || EnumValues(kw.validation) != []
    ensures Deserialized(env, nodes, kw, blocks, fuel) == Thrown(Malformed)
  {
    var base := Initialized(nodes, kw);
    ShapesAgree(kw, |nodes|);
    if !kw.validation.constant.Undefined? {
      SelfMatchGuards(env, nodes, Probe(base, WithoutValues(kw), blocks), kw.validation.constant, fuel);
    } else {
      SelfMatchGuards(env, nodes, Probe(base, WithoutEnum(kw), blocks), EnumValues(kw.validation)[0], fuel);
    }
  }

  /**
   * A local `$ref` or `$dynamicRef` with `const` cannot be read either: the
   * reference is not resolved yet, so the self match raises `Unresolved`.
   */
  lemma ReferenceWithConstantThrows(env: Env, nodes: seq<Node>, kw: Keywords, blocks: seq<Message>, fuel: nat)
    requires Closed(nodes) && Below(kw, |nodes|) && fuel > 0
    requires IsLocalStaticReference(kw.core) || IsLocalDynamicReference(kw.core)
    requires !IsExternalReference(kw.core) && !ChildOwns(nodes, Immediate(kw), ExternalFlag)
    requires !Diagnostics.HasLevel(blocks, Diagnostics.Error)
    requires !kw.validation.constant.Undefined?
    ensures Deserialized(env, nodes, kw, blocks, fuel) == Thrown(Unresolved)
  {
    var base := Initialized(nodes, kw);
    ShapesAgree(kw, |nodes|);
    assert Owns(base, StaticFlag) || Owns(base, DynamicFlag);
    assert !Owns(base, ExternalFlag);
    SelfMatchGuards(env, nodes, Probe(base, WithoutValues(kw), blocks), kw.validation.constant, fuel);
  }

  /**
   * A constant the schema itself rejects is an error of the finished schema
   * (when `enum` is non-empty, the `enum` loop then raises instead).
   */
  lemma RejectedConstantLogged(env: Env, nodes: seq<Node>, kw: Keywords, blocks: seq<Message>, fuel: nat)
    requires Closed(nodes) && Below(kw, |nodes|) && fuel > 0
    requires !kw.validation.constant.Undefined?
    requires (ShapesAgree(kw, |nodes|);
      SelfMatch(env, nodes, Probe(Initialized(nodes, kw), WithoutValues(kw), blocks), kw.validation.constant, fuel) == Value(false))
    ensures EnumValues(kw.validation) != [] ==> Deserialized(env, nodes, kw, blocks, fuel) == Thrown(Malformed)
    ensures EnumValues(kw.validation) == [] ==>
      Deserialized(env, nodes, kw, blocks, fuel) == Value(Finished(nodes, kw, blocks + [ConstantRejected(env, kw.validation.constant)]))
  {
    var base := Initialized(nodes, kw);
    var m1 := blocks + [ConstantRejected(env, kw.validation.constant)];
    assert CheckConstant(env, nodes, base, blocks, fuel) == Value(m1);
    assert m1[|blocks|].level == Diagnostics.Error;
    if EnumValues(kw.validation) != [] {
      SelfMatchGuards(env, nodes, Probe(base, WithoutEnum(kw), m1), EnumValues(kw.validation)[0], fuel);
    }
  }

  /** `const` with an empty `enum` is reported after the values are checked. */
  lemma EmptyEnumWithConstant(nodes: seq<Node>, kw: Keywords, m: seq<Message>)
    requires Below(kw, |nodes|)
    requires !kw.validation.constant.Undefined? && kw.validation.enumValues == Some([])
    ensures Finished(nodes, kw, m).messages[|m|] == ErrorHere(ConstantNotPermissible)
    ensures Diagnostics.HasLevel(Finished(nodes, kw, m).messages, Diagnostics.Error)
  {
    ImmediateBelow(kw, |nodes|);
    assert Finished(nodes, kw, m).messages[|m|] == ErrorHere(ConstantNotPermissible);
  }

  /** The deprecation warnings are warnings, one per deprecated keyword present. */
  lemma DeprecationWarnings(o: OtherKeywords)
    ensures !Diagnostics.HasLevel(DeprecationMessages(o), Diagnostics.Error)
    ensures forall k :: 0 <= k < |DeprecationMessages(o)| ==> DeprecationMessages(o)[k].level == Diagnostics.Warning
    ensures DeprecationMessages(o) == [] <==>
      o.deprecatedDefinitions.Undefined? && o.deprecatedDependencies.Undefined? &&
      o.deprecatedRecursiveAnchor.Undefined? && o.deprecatedRecursiveReference.Undefined?
  {
  }

  /** `m` is a message of one of the schemas `es`, re-addressed under its key. */
  predicate FromChild(nodes: seq<Node>, es: seq<Entry>, m: Message)
    requires EntriesIn(nodes, es)
  {
    exists k, i :: 0 <= k < |es| && 0 <= i < |nodes[es[k].1].messages| &&
      m == Diagnostics.Relocated(nodes[es[k].1].messages[i], es[k].0, JsonPointer.Compose)
  }

  /**
   * Aggregation keeps every message of every immediate schema, re-addressed
   * under its key, and brings in no other message.
   */
  lemma {:induction false} ChildMessagesMeaning(nodes: seq<Node>, es: seq<Entry>)
    requires EntriesIn(nodes, es)
    ensures forall k, i :: 0 <= k < |es| && 0 <= i < |nodes[es[k].1].messages| ==>
      Diagnostics.Relocated(nodes[es[k].1].messages[i], es[k].0, JsonPointer.Compose) in ChildMessages(nodes, es)
    ensures forall m :: m in ChildMessages(nodes, es) ==> FromChild(nodes, es, m)
    decreases |es|
  {
    if es != [] {
      var init := es[..|es| - 1];
      var last := es[|es| - 1];
      ChildMessagesMeaning(nodes, init);
      var tail := Diagnostics.RelocatedAll(nodes[last.1].messages, last.0, JsonPointer.Compose);
      assert ChildMessages(nodes, es) == ChildMessages(nodes, init) + tail;
      forall k, i | 0 <= k < |es| && 0 <= i < |nodes[es[k].1].messages|
        ensures Diagnostics.Relocated(nodes[es[k].1].messages[i], es[k].0, JsonPointer.Compose) in ChildMessages(nodes, es)
      {
        if k < |es| - 1 {
          assert es[k] == init[k];
        } else {
          assert tail[i] == Diagnostics.Relocated(nodes[es[k].1].messages[i], es[k].0, JsonPointer.Compose);
        }
      }
      forall m | m in ChildMessages(nodes, es)
        ensures FromChild(nodes, es, m)
      {
        if m in ChildMessages(nodes, init) {
          assert FromChild(nodes, init, m);
          var k, i :| 0 <= k < |init| && 0 <= i < |nodes[init[k].1].messages| &&
            m == Diagnostics.Relocated(nodes[init[k].1].messages[i], init[k].0, JsonPointer.Compose);
          assert es[k] == init[k];
        } else {
          var i :| 0 <= i < |tail| && tail[i] == m;
          assert es[|es| - 1] == last;
        }
      }
    }
  }

  /** Re-addressing keeps the levels. */
  lemma RelocatedLevels(ms: seq<Message>, outer: JsonPointer.Pointer, level: Diagnostics.MessageLevel)
    ensures Diagnostics.HasLevel(Diagnostics.RelocatedAll(ms, outer, JsonPointer.Compose), level) <==>
      Diagnostics.HasLevel(ms, level)
  {
    var r := Diagnostics.RelocatedAll(ms, outer, JsonPointer.Compose);
    if Diagnostics.HasLevel(ms, level) {
      var i :| 0 <= i < |ms| && ms[i].level == level;
      assert r[i].level == level;
    }
  }

  /** Aggregation carries each level of a child's messages into the aggregate, and no other level. */
  lemma {:induction false} ChildLevels(nodes: seq<Node>, es: seq<Entry>, level: Diagnostics.MessageLevel)
    requires EntriesIn(nodes, es)
    ensures Diagnostics.HasLevel(ChildMessages(nodes, es), level) <==>
      exists k :: 0 <= k < |es| && Diagnostics.HasLevel(nodes[es[k].1].messages, level)
    decreases |es|
  {
    if es != [] {
      var init := es[..|es| - 1];
      var last := es[|es| - 1];
      ChildLevels(nodes, init, level);
      var tail := Diagnostics.RelocatedAll(nodes[last.1].messages, last.0, JsonPointer.Compose);
      assert ChildMessages(nodes, es) == ChildMessages(nodes, init) + tail;
      HasLevelConcat(ChildMessages(nodes, init), tail, level);
      RelocatedLevels(nodes[last.1].messages, last.0, level);
      SomeChildSnoc(nodes, es, init, level);
    }
  }

  /** A child of `es` has a message at `level` iff one of all but the last does, or the last does. */
  lemma SomeChildSnoc(nodes: seq<Node>, es: seq<Entry>, init: seq<Entry>, level: Diagnostics.MessageLevel)
    requires EntriesIn(nodes, es) && es != [] && init == es[..|es| - 1]
    ensures (exists k :: 0 <= k < |es| && Diagnostics.HasLevel(nodes[es[k].1].messages, level)) <==>
      (exists k :: 0 <= k < |init| && Diagnostics.HasLevel(nodes[init[k].1].messages, level)) ||
      Diagnostics.HasLevel(nodes[es[|es| - 1].1].messages, level)
  {
    if exists k :: 0 <= k < |es| && Diagnostics.HasLevel(nodes[es[k].1].messages, level) {
      var k :| 0 <= k < |es| && Diagnostics.HasLevel(nodes[es[k].1].messages, level);
      if k < |init| {
        assert init[k] == es[k];
      }
    }
    if exists k :: 0 <= k < |init| && Diagnostics.HasLevel(nodes[init[k].1].messages, level) {
      var k :| 0 <= k < |init| && Diagnostics.HasLevel(nodes[init[k].1].messages, level);
      assert init[k] == es[k];
    }
  }

  lemma SuffixLevel(s: seq<Message>, t: seq<Message>, level: Diagnostics.MessageLevel)
    requires |t| <= |s| && s[|s| - |t|..] == t && Diagnostics.HasLevel(t, level)
    ensures Diagnostics.HasLevel(s, level)
  {
    var j :| 0 <= j < |t| && t[j].level == level;
    assert s[|s| - |t| + j] == t[j];
  }

  /** An error of any immediate schema is an error of the finished schema. */
  lemma ChildErrorsReachParent(nodes: seq<Node>, kw: Keywords, m: seq<Message>, k: nat)
    requires Below(kw, |nodes|)
    requires k < |Immediate(kw)| && Immediate(kw)[k].1 < |nodes|
    requires Diagnostics.HasLevel(nodes[Immediate(kw)[k].1].messages, Diagnostics.Error)
    ensures Diagnostics.HasLevel(Finished(nodes, kw, m).messages, Diagnostics.Error)
  {
    FinishedShape(nodes, kw, m);
    ChildLevels(nodes, Immediate(kw), Diagnostics.Error);
    SuffixLevel(Finished(nodes, kw, m).messages, ChildMessages(nodes, Immediate(kw)), Diagnostics.Error);
  }

  // ------------------------------------------------------------ validity

  /** The flags of the schemas `es` do not change when a node is appended after them. */
  lemma ChildOwnsExtend(nodes: seq<Node>, n: Node, es: seq<Entry>)
    requires EntriesIn(nodes, es)
    ensures forall f :: ChildOwns(nodes + [n], es, f) <==> ChildOwns(nodes, es, f)
  {
    var all := nodes + [n];
    forall f ensures ChildOwns(all, es, f) <==> ChildOwns(nodes, es, f) {
      if ChildOwns(all, es, f) {
        var k :| 0 <= k < |es| && es[k].1 < |all| && Owns(all[es[k].1], f);
        assert all[es[k].1] == nodes[es[k].1];
      }
      if ChildOwns(nodes, es, f) {
        var k :| 0 <= k < |es| && es[k].1 < |nodes| && Owns(nodes[es[k].1], f);
        assert all[es[k].1] == nodes[es[k].1];
      }
    }
  }

  /** Appending a node that `Initialize` could have produced from the arena keeps the arena valid. */
  lemma AppendValid(nodes: seq<Node>, n: Node)
    requires Valid(nodes) && Below(n.kw, |nodes|) && n.immediate == Immediate(n.kw) && n.resolved.None?
    requires forall f :: Owns(n, f) <==> Refers(n.kw.core, f) || ChildOwns(nodes, n.immediate, f)
    ensures Valid(nodes + [n])
  {
    var all := nodes + [n];
    forall i | 0 <= i < |all| ensures NodeValid(all, i) {
      if i < |nodes| {
        assert NodeValid(nodes, i);
        ImmediateBelow(nodes[i].kw, i);
        ChildOwnsExtend(nodes, n, nodes[i].immediate);
      } else {
        ImmediateBelow(n.kw, |nodes|);
        ChildOwnsExtend(nodes, n, n.immediate);
        assert n.ownsStatic <==> IsLocalStaticReference(n.kw.core) || ChildOwns(all, n.immediate, StaticFlag) by {
          assert Owns(n, StaticFlag) == n.ownsStatic;
        }
        assert n.ownsDynamic <==> IsLocalDynamicReference(n.kw.core) || ChildOwns(all, n.immediate, DynamicFlag) by {
          assert Owns(n, DynamicFlag) == n.ownsDynamic;
        }
        assert n.ownsExternal <==> IsExternalReference(n.kw.core) || ChildOwns(all, n.immediate, ExternalFlag) by {
          assert Owns(n, ExternalFlag) == n.ownsExternal;
        }
      }
    }
  }

  /** A schema `OnDeserialized` finishes can join the arena: the arena stays valid. */
  lemma FinishedValid(nodes: seq<Node>, kw: Keywords, m: seq<Message>)
    requires Valid(nodes) && Below(kw, |nodes|)
    ensures Valid(nodes + [Finished(nodes, kw, m)])
  {
    ShapesAgree(kw, |nodes|);
    FinishedShape(nodes, kw, m);
    AppendValid(nodes, Finished(nodes, kw, m));
  }

  // ------------------------------------------------------------ methods

  /** `InitializeApplicatorBlock`, `InitializeCoreBlock`, `InitializeValidationBlock`. */
  method LogBlocks(logger: Diagnostics.Verbose<JsonPointer.Pointer>, env: Env, kw: Keywords)
    modifies logger
    ensures logger.messages == old(logger.messages) + BlockMessages(env, kw)
  {
    ghost var m0 := logger.messages;
    InitializeApplicatorBlock(logger, env, kw.applicator);
    InitializeCoreBlock(logger, env, kw.core);
    InitializeValidationBlock(logger, kw.validation, kw.applicator.contains.Some?);
    AppendAssoc3(m0, ApplicatorMessages(env, kw.applicator), CoreMessages(env, kw.core),
      ValidationMessages(kw.validation, kw.applicator.contains.Some?));
  }

  /** The check of `const`; `fault` is the exception `IsMatch` raised, if any. */
  method ValidateConstant(env: Env, nodes: seq<Node>, base: Node, logger: Diagnostics.Verbose<JsonPointer.Pointer>, fuel: nat)
    returns (fault: Option<Fault>)
    requires Closed(nodes) && Below(base.kw, |nodes|) && base.resolved.None?
    modifies logger
    ensures CheckConstant(env, nodes, base, old(logger.messages), fuel) ==
      if fault.Some? then Thrown(fault.value) else Value(logger.messages)
  {
    var c := base.kw.validation.constant;
    if c.Undefined? {
      return None;
    }
    ShapesAgree(base.kw, |nodes|);
    var ok := SelfMatch(env, nodes, Probe(base, WithoutValues(base.kw), logger.messages), c, fuel);
    if ok.Thrown? {
      return Some(ok.fault);
    }
    LogWhen(logger, !ok.value, ConstantRejected(env, c));
    return None;
  }

  /** The loop over `enum`; `fault` is the exception `IsMatch` raised, if any. */
  method ValidatePermissible(env: Env, nodes: seq<Node>, base: Node, logger: Diagnostics.Verbose<JsonPointer.Pointer>, fuel: nat)
    returns (fault: Option<Fault>)
    requires Closed(nodes) && Below(base.kw, |nodes|) && base.resolved.None?
    modifies logger
    ensures CheckPermissible(env, nodes, base, EnumValues(base.kw.validation), old(logger.messages), fuel) ==
      if fault.Some? then Thrown(fault.value) else Value(logger.messages)
  {
    var values := EnumValues(base.kw.validation);
    ShapesAgree(base.kw, |nodes|);
    for i := 0 to |values|
      invariant CheckPermissible(env, nodes, base, values, old(logger.messages), fuel) ==
        CheckPermissible(env, nodes, base, values[i..], logger.messages, fuel)
    {
      var ok := SelfMatch(env, nodes, Probe(base, WithoutEnum(base.kw), logger.messages), values[i], fuel);
      assert values[i..][1..] == values[i + 1..];
      if ok.Thrown? {
        return Some(ok.fault);
      }
      LogWhen(logger, !ok.value, PermissibleRejected(env, values[i]));
    }
    return None;
  }

  /** The check of `const` against an empty `enum`, then the four deprecation warnings. */
  method LogRemainingChecks(logger: Diagnostics.Verbose<JsonPointer.Pointer>, kw: Keywords)
    modifies logger
    ensures logger.messages == old(logger.messages) + EnumMessages(kw.validation) + DeprecationMessages(kw.other)
  {
    var v := kw.validation;
    LogWhen(logger, !v.constant.Undefined? && v.enumValues == Some([]), ErrorHere(ConstantNotPermissible));
    ghost var m1 := logger.messages;
    LogDeprecationHead(logger, kw.other);
    LogDeprecationTail(logger, kw.other);
    DeprecationSplit(kw.other);
    AppendAssoc2(m1, DeprecationHead(kw.other), DeprecationTail(kw.other));
  }

  method LogDeprecationHead(logger: Diagnostics.Verbose<JsonPointer.Pointer>, o: OtherKeywords)
    modifies logger
    ensures logger.messages == old(logger.messages) + DeprecationHead(o)
  {
    LogWhen(logger, !o.deprecatedDefinitions.Undefined?, WarningAt(DefinitionsReplaced, "definitions"));
    LogWhen(logger, !o.deprecatedDependencies.Undefined?, WarningAt(DependenciesReplaced, "dependencies"));
  }

  method LogDeprecationTail(logger: Diagnostics.Verbose<JsonPointer.Pointer>, o: OtherKeywords)
    modifies logger
    ensures logger.messages == old(logger.messages) + DeprecationTail(o)
  {
    LogWhen(logger, !o.deprecatedRecursiveAnchor.Undefined?, WarningAt(RecursiveAnchorReplaced, "$recursiveAnchor"));
    LogWhen(logger, !o.deprecatedRecursiveReference.Undefined?, WarningAt(RecursiveRefReplaced, "$recursiveRef"));
  }

  function DeprecationHead(o: OtherKeywords): seq<Message>
  {
    When(!o.deprecatedDefinitions.Undefined?,
      WarningAt(DefinitionsReplaced, "definitions")) +
    When(!o.deprecatedDependencies.Undefined?,
      WarningAt(DependenciesReplaced, "dependencies"))
  }

  function DeprecationTail(o: OtherKeywords): seq<Message>
  {
    When(!o.deprecatedRecursiveAnchor.Undefined?,
      WarningAt(RecursiveAnchorReplaced, "$recursiveAnchor")) +
    When(!o.deprecatedRecursiveReference.Undefined?,
      WarningAt(RecursiveRefReplaced, "$recursiveRef"))
  }

  lemma DeprecationSplit(o: OtherKeywords)
    ensures DeprecationMessages(o) == DeprecationHead(o) + DeprecationTail(o)
  {
  }

  /** Each message as a present list item. */
  function Present(ms: seq<Message>): seq<Option<Message>>
  {
    seq(|ms|, i requires 0 <= i < |ms| => Some(ms[i]))
  }

  lemma {:induction false} PresentValues(ms: seq<Message>)
    ensures Diagnostics.PresentPrefix(Present(ms)) == |ms|
    ensures Diagnostics.Values(Present(ms)[..|ms|]) == ms
    decreases |ms|
  {
    if ms != [] {
      assert Present(ms)[1..] == Present(ms[1..]);
      PresentValues(ms[1..]);
    }
  }

  /** The final loop: `LogRange(child.Messages, JsonPointer.Parse(key))` for each immediate schema. */
  method AggregateChildMessages(nodes: seq<Node>, es: seq<Entry>, logger: Diagnostics.Verbose<JsonPointer.Pointer>)
    requires EntriesIn(nodes, es) && logger.compose == JsonPointer.Compose
    requires forall k :: 0 <= k < |es| ==> es[k].0.Valid()
    modifies logger
    ensures logger.messages == old(logger.messages) + ChildMessages(nodes, es)
  {
    for i := 0 to |es|
      invariant logger.messages == old(logger.messages) + ChildMessages(nodes, es[..i])
    {
      var e := es[i];
      JsonPointer.ParseText(e.0);
      var outer := JsonPointer.Parse(JsonPointer.Text(e.0));
      PresentValues(nodes[e.1].messages);
      var thrown := logger.LogRangeRelative(Present(nodes[e.1].messages), outer.value);
      assert es[..i + 1][..i] == es[..i];
    }
    assert es[..|es|] == es;
  }

  /** The checks of `const` and `enum`; `fault` is the exception `IsMatch` raised, if any. */
  method ValidateValues(env: Env, nodes: seq<Node>, base: Node, logger: Diagnostics.Verbose<JsonPointer.Pointer>, fuel: nat)
    returns (fault: Option<Fault>)
    requires Closed(nodes) && Below(base.kw, |nodes|) && base.resolved.None?
    modifies logger
    ensures CheckValues(env, nodes, base, old(logger.messages), fuel) ==
      if fault.Some? then Thrown(fault.value) else Value(logger.messages)
  {
    fault := ValidateConstant(env, nodes, base, logger, fuel);
    if fault.None? {
      fault := ValidatePermissible(env, nodes, base, logger, fuel);
    }
  }

  /** The end of `OnDeserialized`, after the values are checked. */
  method LogFinalMessages(nodes: seq<Node>, kw: Keywords, logger: Diagnostics.Verbose<JsonPointer.Pointer>)
    requires Below(kw, |nodes|) && logger.compose == JsonPointer.Compose
    modifies logger
    ensures EntriesIn(nodes, Immediate(kw))
    ensures logger.messages == old(logger.messages) + FinalMessages(nodes, kw, Immediate(kw))
  {
    ghost var m0 := logger.messages;
    LogRemainingChecks(logger, kw);
    ImmediateBelow(kw, |nodes|);
    ImmediatePointers(kw);
    AggregateChildMessages(nodes, Immediate(kw), logger);
    AppendAssoc3(m0, EnumMessages(kw.validation), DeprecationMessages(kw.other), ChildMessages(nodes, Immediate(kw)));
  }

  /**
   * `OnDeserialized` as written, from `Initialize` to the aggregation of the
   * children's messages, on a fresh logger.
   */
  method OnDeserialized(env: Env, nodes: seq<Node>, kw: Keywords, fuel: nat) returns (r: Outcome<Node>)
    requires Closed(nodes) && Below(kw, |nodes|)
    ensures r == Deserialized(env, nodes, kw, BlockMessages(env, kw), fuel)
  {
    var base := Initialize(nodes, kw);
    var logger := new Diagnostics.Verbose(JsonPointer.Compose);
    LogBlocks(logger, env, kw);
    assert logger.messages == BlockMessages(env, kw);
    var fault := ValidateValues(env, nodes, base, logger, fuel);
    if fault.Some? {
      return Thrown(fault.value);
    }
    LogFinalMessages(nodes, kw, logger);
    return Value(base.(kw := WithoutExamples(kw), messages := logger.messages));
  }
}
