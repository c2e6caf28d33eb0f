/**
 * Whole `IsMatch` queries on one-schema arenas: the schema decoded from
 * an object with a single validation keyword, next to the two singletons.
 */
module SchemaMatchExamples {
  import opened Wrappers
  import opened JsonElements
  import Diagnostics
  import opened SchemaKeywords
  import opened SchemaValidation
  import opened SchemaNodes
  import opened SchemaMatcher

  /** The keywords of an object holding only validation keywords. */
  function WithValidation(val: ValidationKeywords): Keywords
  {
    DefaultKeywords.(validation := val)
  }

  /** The singletons followed by the initialised schema at index 2. */
  ghost function Decoded(val: ValidationKeywords): seq<Node>
  {
    var base := [TrivialTrueNode, TrivialFalseNode];
    base + [Initialized(base, WithValidation(val))]
  }

  /** Such a schema is closed, owns no reference and carries no diagnostics. */
  lemma DecodedPlain(val: ValidationKeywords)
    ensures Closed(Decoded(val)) && |Decoded(val)| == 3
    ensures var n := Decoded(val)[2];
      n.kw == WithValidation(val) && n.messages == [] && n.resolved.None? &&
      !n.ownsStatic && !n.ownsDynamic && !n.ownsExternal && !n.ownsUnresolved &&
      !n.isTrivialTrue && !n.isTrivialFalse
  {
    var base := [TrivialTrueNode, TrivialFalseNode];
    var kw := WithValidation(val);
    assert Immediate(kw) == Immediate(DefaultKeywords);
    ImmediateOfDefaults();
    ImmediateIsChildren(kw);
    BelowIffChildren(kw, 3);
    forall f ensures !ChildOwns(base, Immediate(kw), f) {
      forall k | 0 <= k < |Immediate(kw)| ensures Immediate(kw)[k].1 == TrivialTrueId {
        assert Immediate(kw)[k].1 in EntryIds(Immediate(kw));
      }
    }
    ImmediateOfTrivial();
    BelowIffChildren(TrivialKeywords, 3);
    assert Children(TrivialKeywords) == {};
    assert !Diagnostics.HasLevel(Decoded(val)[2].messages, Diagnostics.Error);
  }

  /** `{"enum": []}` admits nothing. */
  lemma NoPermissibleValues(env: Env)
    ensures var nodes := Decoded(DefaultValidation.(enumValues := Some([])));
      Closed(nodes) &&
      Match(env, nodes, 2, Int(17), 1) == Value(false) &&
      Match(env, nodes, 2, Num(2.9), 1) == Value(false) &&
      Match(env, nodes, 2, Str(""), 1) == Value(false) &&
      Match(env, nodes, 2, Null, 1) == Value(false) &&
      Match(env, nodes, 2, Bool(false), 1) == Value(false)
  {
    DecodedPlain(DefaultValidation.(enumValues := Some([])));
  }
}
