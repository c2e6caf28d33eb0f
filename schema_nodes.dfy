/**
 * A decoded schema as `BasicSchema` holds it after `Initialize`: its
 * keywords, the trivial flags of the two singletons, the map of its
 * immediate schemas, the four ownership flags, the resolved reference and
 * its diagnostics.
 *
 * Schemas live in an arena `seq<Node>`; a node refers to its sub-schemas
 * by index and the decoder builds children before their parent, so every
 * child of node `i` has an index below `i`. Index 0 is `TrivialTrue` and
 * index 1 is `TrivialFalse`.
 */
module SchemaNodes {
  import opened Wrappers
  import opened SchemaKeywords
  import SchemaValidation

  type Message = SchemaValidation.Message

  datatype Node = Node(
    kw: Keywords,
    isTrivialTrue: bool,
    isTrivialFalse: bool,
    immediate: seq<Entry>,
    ownsStatic: bool,
    ownsDynamic: bool,
    ownsExternal: bool,
    ownsUnresolved: bool,
    resolved: Option<SchemaId>,
    messages: seq<Message>)

  /** The three kinds of reference a schema, or one of its descendants, can be. */
  datatype Flag = StaticFlag | DynamicFlag | ExternalFlag

  predicate Refers(c: CoreKeywords, f: Flag)
  {
    match f
    case StaticFlag => IsLocalStaticReference(c)
    case DynamicFlag => IsLocalDynamicReference(c)
    case ExternalFlag => IsExternalReference(c)
  }

  predicate Owns(n: Node, f: Flag)
  {
    match f
    case StaticFlag => n.ownsStatic
    case DynamicFlag => n.ownsDynamic
    case ExternalFlag => n.ownsExternal
  }

  /** Some immediate schema has flag `f` set. */
  predicate ChildOwns(nodes: seq<Node>, es: seq<Entry>, f: Flag)
  {
    exists k :: 0 <= k < |es| && es[k].1 < |nodes| && Owns(nodes[es[k].1], f)
  }

  /** The singletons: only their trivial flag is set. */
  const TrivialTrueNode := Node(TrivialKeywords, true, false, [], false, false, false, false, None, [])
  const TrivialFalseNode := Node(TrivialKeywords, false, true, [], false, false, false, false, None, [])

  /** What `Initialize` leaves in a schema whose children are `nodes`. */
  ghost function Initialized(nodes: seq<Node>, kw: Keywords): (n: Node)
    ensures n.immediate == Immediate(kw) && n.messages == [] && n.resolved.None?
    ensures !n.isTrivialTrue && !n.isTrivialFalse
    ensures forall f :: Owns(n, f) <==> Refers(kw.core, f) || ChildOwns(nodes, Immediate(kw), f)
    ensures n.ownsUnresolved <==> n.ownsStatic || n.ownsDynamic
  {
    var imm := Immediate(kw);
    var s := IsLocalStaticReference(kw.core) || ChildOwns(nodes, imm, StaticFlag);
    var d := IsLocalDynamicReference(kw.core) || ChildOwns(nodes, imm, DynamicFlag);
    var e := IsExternalReference(kw.core) || ChildOwns(nodes, imm, ExternalFlag);
    Node(kw, false, false, imm, s, d, e, s || d, None, [])
  }

  /** Every immediate schema of keywords below `bound` is below `bound`. */
  lemma ImmediateBelow(kw: Keywords, bound: nat)
    requires Below(kw, bound)
    ensures forall k :: 0 <= k < |Immediate(kw)| ==> Immediate(kw)[k].1 < bound
  {
    ImmediateIsChildren(kw);
    BelowIffChildren(kw, bound);
    forall k | 0 <= k < |Immediate(kw)| ensures Immediate(kw)[k].1 < bound {
      assert Immediate(kw)[k].1 in EntryIds(Immediate(kw));
    }
  }

  /**
   * `Initialize`: clears the diagnostics and the resolved reference, maps
   * the immediate schemas, sets each flag from the schema itself, then ORs
   * in the children's flags (the children are already initialised).
   */
  method Initialize(nodes: seq<Node>, kw: Keywords) returns (n: Node)
    requires Below(kw, |nodes|)
    ensures n == Initialized(nodes, kw)
  {
    var imm := InitializeImmediateSchemas(kw);
    ImmediateBelow(kw, |nodes|);
    var s := IsLocalStaticReference(kw.core);
    var d := IsLocalDynamicReference(kw.core);
    var e := IsExternalReference(kw.core);
    var i := 0;
    while i < |imm|
      invariant 0 <= i <= |imm|
      invariant s == (IsLocalStaticReference(kw.core) || ChildOwns(nodes, imm[..i], StaticFlag))
      invariant d == (IsLocalDynamicReference(kw.core) || ChildOwns(nodes, imm[..i], DynamicFlag))
      invariant e == (IsExternalReference(kw.core) || ChildOwns(nodes, imm[..i], ExternalFlag))
    {
      var child := nodes[imm[i].1];
      ChildOwnsSnoc(nodes, imm[..i], imm[i]);
      assert imm[..i + 1] == imm[..i] + [imm[i]];
      s := s || child.ownsStatic;
      d := d || child.ownsDynamic;
      e := e || child.ownsExternal;
      i := i + 1;
    }
    assert imm[..i] == imm;
    n := Node(kw, false, false, imm, s, d, e, s || d, None, []);
  }

  lemma ChildOwnsSnoc(nodes: seq<Node>, es: seq<Entry>, e: Entry)
    requires e.1 < |nodes|
    ensures forall f :: ChildOwns(nodes, es + [e], f) <==> ChildOwns(nodes, es, f) || Owns(nodes[e.1], f)
  {
    forall f ensures ChildOwns(nodes, es + [e], f) <==> ChildOwns(nodes, es, f) || Owns(nodes[e.1], f) {
      if ChildOwns(nodes, es, f) {
        var k :| 0 <= k < |es| && es[k].1 < |nodes| && Owns(nodes[es[k].1], f);
        assert (es + [e])[k] == es[k];
      }
      if Owns(nodes[e.1], f) {
        assert (es + [e])[|es|] == e;
      }
      if ChildOwns(nodes, es + [e], f) {
        var k :| 0 <= k < |es + [e]| && (es + [e])[k].1 < |nodes| && Owns(nodes[(es + [e])[k].1], f);
        if k < |es| {
          assert (es + [e])[k] == es[k];
        }
      }
    }
  }

  // ------------------------------------------------------------- arena

  /** Node `i` is as decoding and `Initialize` left it, apart from the resolution state. */
  ghost predicate NodeValid(nodes: seq<Node>, i: nat)
    requires i < |nodes|
  {
    var n := nodes[i];
    Below(n.kw, i) && n.immediate == Immediate(n.kw) &&
    (n.ownsStatic <==> IsLocalStaticReference(n.kw.core) || ChildOwns(nodes, n.immediate, StaticFlag)) &&
    (n.ownsDynamic <==> IsLocalDynamicReference(n.kw.core) || ChildOwns(nodes, n.immediate, DynamicFlag)) &&
    (n.ownsExternal <==> IsExternalReference(n.kw.core) || ChildOwns(nodes, n.immediate, ExternalFlag)) &&
    (n.resolved.Some? ==> n.resolved.value < |nodes|)
  }

  ghost predicate Valid(nodes: seq<Node>)
  {
    |nodes| >= 2 && nodes[TrivialTrueId] == TrivialTrueNode && nodes[TrivialFalseId] == TrivialFalseNode &&
    forall i :: 0 <= i < |nodes| ==> NodeValid(nodes, i)
  }

  /** Every index a node mentions is inside the arena. */
  ghost predicate Closed(nodes: seq<Node>)
  {
    forall i :: 0 <= i < |nodes| ==>
      Below(nodes[i].kw, |nodes|) && (nodes[i].resolved.Some? ==> nodes[i].resolved.value < |nodes|)
  }

  lemma BelowMonotone(kw: Keywords, lo: nat, hi: nat)
    requires Below(kw, lo) && lo <= hi
    ensures Below(kw, hi)
  {
    BelowIffChildren(kw, lo);
    BelowIffChildren(kw, hi);
  }

  lemma ValidIsClosed(nodes: seq<Node>)
    requires Valid(nodes)
    ensures Closed(nodes)
  {
    forall i | 0 <= i < |nodes|
      ensures Below(nodes[i].kw, |nodes|) && (nodes[i].resolved.Some? ==> nodes[i].resolved.value < |nodes|)
    {
      assert NodeValid(nodes, i);
      BelowMonotone(nodes[i].kw, i, |nodes|);
    }
  }

  /** `j` is `i` or one of its descendants through the immediate schemas. */
  ghost predicate Reaches(nodes: seq<Node>, i: nat, j: nat)
    requires i < |nodes|
    decreases i
  {
    i == j ||
    exists k :: 0 <= k < |nodes[i].immediate| && nodes[i].immediate[k].1 < i &&
      Reaches(nodes, nodes[i].immediate[k].1, j)
  }

  lemma {:induction false} ReachesBelow(nodes: seq<Node>, i: nat, j: nat)
    requires i < |nodes| && Reaches(nodes, i, j)
    ensures j <= i
    decreases i
  {
    if i != j {
      var k :| 0 <= k < |nodes[i].immediate| && nodes[i].immediate[k].1 < i &&
        Reaches(nodes, nodes[i].immediate[k].1, j);
      ReachesBelow(nodes, nodes[i].immediate[k].1, j);
    }
  }

  /**
   * The ownership flags mean what their comments in BasicSchema.cs say:
   * "this schema or any of its descendant schemas" is a reference of that kind.
   */
  lemma {:induction false} OwnsMeaning(nodes: seq<Node>, i: nat, f: Flag)
    requires Valid(nodes) && i < |nodes|
    ensures Owns(nodes[i], f) <==> exists j :: 0 <= j <= i && Reaches(nodes, i, j) && Refers(nodes[j].kw.core, f)
    decreases i
  {
    var n := nodes[i];
    assert NodeValid(nodes, i);
    ImmediateBelow(n.kw, i);
    assert Owns(n, f) <==> Refers(n.kw.core, f) || ChildOwns(nodes, n.immediate, f);
    if Owns(n, f) {
      if Refers(n.kw.core, f) {
        assert Reaches(nodes, i, i);
      } else {
        var k :| 0 <= k < |n.immediate| && n.immediate[k].1 < |nodes| && Owns(nodes[n.immediate[k].1], f);
        var c := n.immediate[k].1;
        OwnsMeaning(nodes, c, f);
        var j :| 0 <= j <= c && Reaches(nodes, c, j) && Refers(nodes[j].kw.core, f);
        assert Reaches(nodes, i, j);
      }
    }
    if exists j :: 0 <= j <= i && Reaches(nodes, i, j) && Refers(nodes[j].kw.core, f) {
      var j :| 0 <= j <= i && Reaches(nodes, i, j) && Refers(nodes[j].kw.core, f);
      if j != i {
        var k :| 0 <= k < |n.immediate| && n.immediate[k].1 < i && Reaches(nodes, n.immediate[k].1, j);
        var c := n.immediate[k].1;
        ReachesBelow(nodes, c, j);
        OwnsMeaning(nodes, c, f);
        assert ChildOwns(nodes, n.immediate, f);
      }
    }
  }

  /** The singletons are initialised schemas with no children. */
  lemma TrivialNodesInitialized(nodes: seq<Node>)
    ensures Initialized(nodes, TrivialKeywords).immediate == []
    ensures TrivialTrueNode == Initialized(nodes, TrivialKeywords).(isTrivialTrue := true)
    ensures TrivialFalseNode == Initialized(nodes, TrivialKeywords).(isTrivialFalse := true)
  {
    ImmediateOfTrivial();
  }

  /** An arena holding just the singletons is valid. */
  lemma SingletonsValid()
    ensures Valid([TrivialTrueNode, TrivialFalseNode])
  {
    ImmediateOfTrivial();
  }
}
