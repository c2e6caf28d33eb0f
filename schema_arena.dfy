/**
 * The schemas of one document as `BasicSchema` objects hold them: every
 * node is decoded bottom-up and finished by `OnDeserialized`, and
 * `TryResolveLocalReferences` later updates the resolved reference and the
 * unresolved flag of nodes in place.
 *
 * The arena is a class whose field `nodes` the two operations update;
 * each of them is proved equal to the functions of `SchemaLifecycle` and
 * `SchemaResolver`, whose properties are proved there.
 */
module SchemaArena {
  import opened Wrappers
  import opened JsonElements
  import JsonPointer
  import Diagnostics
  import opened SchemaKeywords
  import opened SchemaValidation
  import opened SchemaBlocks
  import opened SchemaNodes
  import opened SchemaMatcher
  import SchemaResolver
  import SchemaLifecycle

  type Pointer = JsonPointer.Pointer

  class Arena {
    /** Every schema decoded so far, children before their parents. */
    var nodes: seq<Node>

    ghost predicate Valid()
      reads this
    {
      SchemaNodes.Valid(nodes)
    }

    /** An arena holding only the two singletons `TrivialTrue` and `TrivialFalse`. */
    constructor()
      ensures Valid() && nodes == [TrivialTrueNode, TrivialFalseNode]
    {
      nodes := [TrivialTrueNode, TrivialFalseNode];
      SingletonsValid();
    }

    /**
     * A schema the decoder has just read with keywords `kw`, finished by
     * `OnDeserialized`: on success it becomes the newest node; when one of
     * its self matches raises, nothing is added.
     */
    method Add(env: Env, kw: Keywords, fuel: nat) returns (r: Outcome<SchemaId>)
      requires Valid() && Below(kw, |nodes|)
      modifies this
      ensures Valid()
      ensures Closed(old(nodes)) && r.Thrown? == SchemaLifecycle.Deserialized(env, old(nodes), kw, SchemaLifecycle.BlockMessages(env, kw), fuel).Thrown?
      ensures r.Thrown? ==> r.fault == SchemaLifecycle.Deserialized(env, old(nodes), kw, SchemaLifecycle.BlockMessages(env, kw), fuel).fault && nodes == old(nodes)
      ensures r.Value? ==> r.value == |old(nodes)|
      ensures r.Value? ==> nodes == old(nodes) + [SchemaLifecycle.Deserialized(env, old(nodes), kw, SchemaLifecycle.BlockMessages(env, kw), fuel).value]
    {
      ValidIsClosed(nodes);
      var o := SchemaLifecycle.OnDeserialized(env, nodes, kw, fuel);
      if o.Thrown? {
        return Thrown(o.fault);
      }
      SchemaLifecycle.DeserializedShape(env, nodes, kw, SchemaLifecycle.BlockMessages(env, kw), fuel);
      ghost var m :| o.value == SchemaLifecycle.Finished(nodes, kw, m);
      SchemaLifecycle.FinishedValid(nodes, kw, m);
      r := Value(|nodes|);
      nodes := nodes + [o.value];
    }

    /** `MapChildSchemas`: the immediate schemas, then each one's descendants under its key. */
    method MapChildSchemas(id: SchemaId) returns (schemaMap: seq<Entry>)
      requires Valid() && id < |nodes|
      ensures SchemaResolver.Layered(nodes)
      ensures schemaMap == SchemaResolver.MapChildSchemas(nodes, id)
      decreases id
    {
      SchemaResolver.ValidIsLayered(nodes);
      var imm := nodes[id].immediate;
      schemaMap := [];
      for k := 0 to |imm|
        invariant schemaMap == imm[..k]
      {
        schemaMap := schemaMap + [imm[k]];
      }
      assert imm[..|imm|] == imm;
      assert SchemaResolver.Descendants(nodes, imm[..0], id) == [];
      for k := 0 to |imm|
        invariant schemaMap == imm + SchemaResolver.Descendants(nodes, imm[..k], id)
      {
        var x := imm[k];
        var inner := MapChildSchemas(x.1);
        var composed: seq<Entry> := [];
        for j := 0 to |inner|
          invariant composed == SchemaResolver.Under(x.0, inner[..j])
        {
          composed := composed + [(JsonPointer.Compose(x.0, inner[j].0), inner[j].1)];
        }
        assert inner[..|inner|] == inner;
        SchemaResolver.DescendantsSnoc(nodes, imm, k, id);
        schemaMap := schemaMap + composed;
      }
      assert imm[..|imm|] == imm;
    }

    /** `MapLocalAnchors`: the anchor dictionary and the worklist, logging every redefined anchor. */
    method MapLocalAnchors(schemas: seq<Entry>, logger: Diagnostics.Verbose<Pointer>)
      returns (anchorPointers: map<string, string>, unresolvedSchemas: seq<SchemaId>)
      requires SchemaResolver.InArena(nodes, schemas)
      modifies logger
      ensures anchorPointers == SchemaResolver.MapAnchors(nodes, schemas).anchors
      ensures unresolvedSchemas == SchemaResolver.MapAnchors(nodes, schemas).worklist
      ensures logger.messages == old(logger.messages) + SchemaResolver.MapAnchors(nodes, schemas).messages
    {
      anchorPointers := map["#" := ""];
      unresolvedSchemas := [];
      ghost var before := logger.messages;
      for k := 0 to |schemas|
        invariant SchemaResolver.InArena(nodes, schemas[..k])
        invariant anchorPointers == SchemaResolver.MapAnchors(nodes, schemas[..k]).anchors
        invariant unresolvedSchemas == SchemaResolver.MapAnchors(nodes, schemas[..k]).worklist
        invariant logger.messages == before + SchemaResolver.MapAnchors(nodes, schemas[..k]).messages
      {
        var x := schemas[k];
        var child := nodes[x.1].kw.core;
        if child.anchor.Some? {
          if "#" + child.anchor.value in anchorPointers {
            logger.Log("Anchor \"#" + child.anchor.value + "\" cannot be redefined.", Diagnostics.Error, Some(x.0));
          } else {
            anchorPointers := anchorPointers["#" + child.anchor.value := JsonPointer.Text(x.0)];
          }
        }
        if child.dynamicAnchor.Some? {
          if "#" + child.dynamicAnchor.value in anchorPointers {
            logger.Log("Anchor \"#" + child.dynamicAnchor.value + "\" cannot be redefined.", Diagnostics.Error, Some(x.0));
          } else {
            anchorPointers := anchorPointers["#" + child.dynamicAnchor.value := JsonPointer.Text(x.0)];
          }
        }
        if SchemaResolver.LocalReference(child) {
          unresolvedSchemas := unresolvedSchemas + [x.1];
        }
        assert schemas[..k + 1][..k] == schemas[..k];
      }
      assert schemas[..|schemas|] == schemas;
    }

    /**
     * `ResolveLocalReferences`: sets the resolved reference of every
     * worklist node that has a target and logs the others; `thrown` when
     * `JsonPointer.Parse` throws, which ends the pass.
     */
    method ResolveLocalReferences(schemas: seq<Entry>, anchorPointers: map<string, string>,
                                  unresolvedSchemas: seq<SchemaId>, logger: Diagnostics.Verbose<Pointer>)
      returns (thrown: bool)
      requires forall k :: 0 <= k < |unresolvedSchemas| ==> unresolvedSchemas[k] < |nodes|
      modifies this, logger
      ensures nodes == SchemaResolver.ResolveAll(old(nodes), schemas, anchorPointers, unresolvedSchemas).nodes
      ensures thrown == SchemaResolver.ResolveAll(old(nodes), schemas, anchorPointers, unresolvedSchemas).thrown
      ensures logger.messages == old(logger.messages) +
        SchemaResolver.ResolveAll(old(nodes), schemas, anchorPointers, unresolvedSchemas).messages
    {
      ghost var original := nodes;
      ghost var before := logger.messages;
      for k := 0 to |unresolvedSchemas|
        invariant |nodes| == |original|
        invariant !SchemaResolver.ResolveAll(original, schemas, anchorPointers, unresolvedSchemas[..k]).thrown
        invariant nodes == SchemaResolver.ResolveAll(original, schemas, anchorPointers, unresolvedSchemas[..k]).nodes
        invariant logger.messages == before + SchemaResolver.ResolveAll(original, schemas, anchorPointers, unresolvedSchemas[..k]).messages
      {
        var x := unresolvedSchemas[k];
        assert unresolvedSchemas[..k + 1][..k] == unresolvedSchemas[..k];
        var reference := SchemaResolver.Target(schemas, anchorPointers, nodes[x].kw.core);
        if reference.Err? {
          SchemaResolver.ThrownSticks(original, schemas, anchorPointers, unresolvedSchemas, k + 1);
          return true;
        }
        if reference.value.Some? {
          nodes := nodes[x := nodes[x].(resolved := reference.value)];
        }
        if nodes[x].resolved.None? {
          logger.Log("Reference \"#" + SchemaResolver.ReferenceText(nodes[x].kw.core) + "\" could not be resolved.",
            Diagnostics.Error, None);
        }
      }
      assert unresolvedSchemas[..|unresolvedSchemas|] == unresolvedSchemas;
      return false;
    }

    /** The `while` loop of `CheckCircularReferences`: follow resolved references, remembering the nodes visited. */
    method IsCircular(start: SchemaId) returns (circular: bool)
      requires Closed(nodes) && start < |nodes|
      ensures circular <==> SchemaResolver.Revisits(nodes, start)
    {
      var trace: set<SchemaId> := {};
      var current := start;
      ghost var path: seq<SchemaId> := [];
      while nodes[current].resolved.Some?
        invariant current < |nodes|
        invariant SchemaResolver.Chain(nodes, start, |path|) == Some(current)
        invariant forall i :: 0 <= i < |path| ==> SchemaResolver.Chain(nodes, start, i) == Some(path[i])
        invariant forall i, j :: 0 <= i < j < |path| ==> path[i] != path[j]
        invariant forall y :: y in trace <==> y in path
        invariant forall y :: y in trace ==> y < |nodes| && nodes[y].resolved.Some?
        invariant |trace| == |path|
        decreases |nodes| - |trace|
      {
        if current in trace {
          SchemaResolver.RepeatRevisits(nodes, start, path, current);
          return true;
        }
        SchemaResolver.BoundedSetSize(trace + {current}, |nodes|);
        trace := trace + {current};
        SchemaResolver.PathExtends(nodes, start, path, current);
        path := path + [current];
        current := nodes[current].resolved.value;
      }
      SchemaResolver.EndWithoutRepeat(nodes, start, path, current);
      return false;
    }
    /** `CheckCircularReferences`: one error for every listed node whose chain of references comes back. */
    method CheckCircularReferences(schemas: seq<Entry>, logger: Diagnostics.Verbose<Pointer>)
      requires Closed(nodes) && SchemaResolver.InArena(nodes, schemas)
      modifies logger
      ensures logger.messages == old(logger.messages) + SchemaResolver.CycleMessages(nodes, schemas)
    {
      ghost var before := logger.messages;
      for k := 0 to |schemas|
        invariant logger.messages == before + SchemaResolver.CycleMessages(nodes, schemas[..k])
      {
        var x := schemas[k];
        var circular := IsCircular(x.1);
        if circular {
          logger.Log("Circular JSON reference originating at \"#" + JsonPointer.Text(x.0) + "\" encountered.",
            Diagnostics.Error, None);
        }
        assert schemas[..k + 1][..k] == schemas[..k];
      }
      assert schemas[..|schemas|] == schemas;
    }

    /**
     * The end of `TryResolveLocalReferences`: check for cycles, then commit
     * (clear the unresolved flag) or roll back (clear the resolved reference
     * and set the flag) every worklist node.
     */
    method CommitOrRollBack(schemas: seq<Entry>, unresolvedSchemas: seq<SchemaId>, logger: Diagnostics.Verbose<Pointer>)
      returns (success: bool)
      requires Closed(nodes) && SchemaResolver.InArena(nodes, schemas)
      requires forall k :: 0 <= k < |unresolvedSchemas| ==> unresolvedSchemas[k] < |nodes|
      modifies this, logger
      ensures logger.messages == old(logger.messages) + SchemaResolver.CycleMessages(old(nodes), schemas)
      ensures success <==> !Diagnostics.HasLevel(logger.messages, Diagnostics.Error)
      ensures nodes == SchemaResolver.Settled(old(nodes), unresolvedSchemas, !success)
    {
      CheckCircularReferences(schemas, logger);
      var failed := logger.Has(Diagnostics.Error);
      ghost var checked := nodes;
      ghost var logged := logger.messages;
      for k := 0 to |unresolvedSchemas|
        invariant nodes == SchemaResolver.Settled(checked, unresolvedSchemas[..k], failed)
        invariant logger.messages == logged
      {
        var x := unresolvedSchemas[k];
        nodes := nodes[x := SchemaResolver.Settle(nodes[x], failed)];
        assert unresolvedSchemas[..k + 1] == unresolvedSchemas[..k] + [x];
      }
      assert unresolvedSchemas[..|unresolvedSchemas|] == unresolvedSchemas;
      return !failed;
    }

    /** The first half of `TryResolveLocalReferences`: `childrenAndI`, then `MapLocalAnchors` over it. */
    method MapRootAnchors(root: SchemaId, logger: Diagnostics.Verbose<Pointer>)
      returns (childrenAndI: seq<Entry>, anchorPointers: map<string, string>, unresolvedSchemas: seq<SchemaId>)
      requires Valid() && root < |nodes|
      modifies logger
      ensures SchemaResolver.Layered(nodes) && childrenAndI == SchemaResolver.Schemas(nodes, root)
      ensures SchemaResolver.InArena(nodes, childrenAndI)
      ensures anchorPointers == SchemaResolver.MapAnchors(nodes, childrenAndI).anchors
      ensures unresolvedSchemas == SchemaResolver.MapAnchors(nodes, childrenAndI).worklist
      ensures forall k :: 0 <= k < |unresolvedSchemas| ==> unresolvedSchemas[k] < |nodes|
      ensures logger.messages == old(logger.messages) + SchemaResolver.MapAnchors(nodes, childrenAndI).messages
    {
      var children := MapChildSchemas(root);
      childrenAndI := children + [(JsonPointer.Root, root)];
      SchemaResolver.SchemasInArena(nodes, root);
      anchorPointers, unresolvedSchemas := MapLocalAnchors(childrenAndI, logger);
      SchemaResolver.WorklistMeaning(nodes, childrenAndI);
    }

    /**
     * The second half of `TryResolveLocalReferences`, after the anchor
     * pass `AnchorPass(anchorPointers, unresolvedSchemas, logger.messages)`:
     * `ResolveLocalReferences`, then the cycle check and the commit or rollback.
     */
    method ResolveAndSettle(schemas: seq<Entry>, anchorPointers: map<string, string>,
                            unresolvedSchemas: seq<SchemaId>, logger: Diagnostics.Verbose<Pointer>)
      returns (r: SchemaResolver.Resolution)
      requires SchemaResolver.InArena(nodes, schemas)
      requires forall k :: 0 <= k < |unresolvedSchemas| ==> unresolvedSchemas[k] < |nodes|
      requires Closed(SchemaResolver.ResolveAll(nodes, schemas, anchorPointers, unresolvedSchemas).nodes)
      modifies this, logger
      ensures var p := SchemaResolver.ResolveAll(old(nodes), schemas, anchorPointers, unresolvedSchemas);
        (r, nodes, logger.messages) ==
        SchemaResolver.Finish(SchemaResolver.AnchorPass(anchorPointers, unresolvedSchemas, old(logger.messages)),
          p, SchemaResolver.CycleMessages(p.nodes, schemas))
    {
      var thrown := ResolveLocalReferences(schemas, anchorPointers, unresolvedSchemas, logger);
      if thrown {
        return SchemaResolver.FormatFault;
      }
      var success := CommitOrRollBack(schemas, unresolvedSchemas, logger);
      return SchemaResolver.Resolved(success);
    }

    /** `TryResolveLocalReferences` past its two early returns, logging into the empty `logger`. */
    method ResolveOwnedReferences(root: SchemaId, logger: Diagnostics.Verbose<Pointer>) returns (r: SchemaResolver.Resolution)
      requires Valid() && root < |nodes| && logger.messages == []
      modifies this, logger
      ensures (r, nodes, logger.messages) == SchemaResolver.Resolve(old(nodes), root)
    {
      ghost var original := nodes;
      var childrenAndI, anchorPointers, unresolvedSchemas := MapRootAnchors(root, logger);
      ghost var a := SchemaResolver.MapAnchors(original, childrenAndI);
      assert a == SchemaResolver.AnchorPass(anchorPointers, unresolvedSchemas, logger.messages);
      ghost var p := SchemaResolver.ResolveAll(original, childrenAndI, a.anchors, a.worklist);
      SchemaResolver.ResolveSteps(original, root, childrenAndI, a, p);
      SchemaResolver.ResolvedClosed(original, root);
      r := ResolveAndSettle(childrenAndI, anchorPointers, unresolvedSchemas, logger);
    }

    /**
     * `TryResolveLocalReferences` on the schema `root`: refused on a
     * malformed schema, nothing to do when it owns no unresolved local
     * reference, and otherwise the steps above followed by the commit or
     * rollback of every worklist node, as `SchemaResolver.Resolve` says.
     */
    method TryResolveLocalReferences(root: SchemaId) returns (r: SchemaResolver.Resolution, logger: Diagnostics.Verbose<Pointer>)
      requires Valid() && root < |nodes|
      modifies this
      ensures Valid() && fresh(logger)
      ensures Diagnostics.HasLevel(old(nodes)[root].messages, Diagnostics.Error) ==>
        r == SchemaResolver.NotSupported && nodes == old(nodes) && logger.messages == []
      ensures !Diagnostics.HasLevel(old(nodes)[root].messages, Diagnostics.Error) && !old(nodes)[root].ownsUnresolved ==>
        r == SchemaResolver.Resolved(true) && nodes == old(nodes) && logger.messages == []
      ensures !Diagnostics.HasLevel(old(nodes)[root].messages, Diagnostics.Error) && old(nodes)[root].ownsUnresolved ==>
        (r, nodes, logger.messages) == SchemaResolver.Resolve(old(nodes), root)
    {
      logger := new Diagnostics.Verbose<Pointer>(JsonPointer.Compose);
      if Diagnostics.HasLevel(nodes[root].messages, Diagnostics.Error) {
        return SchemaResolver.NotSupported, logger;
      }
      if !nodes[root].ownsUnresolved {
        return SchemaResolver.Resolved(true), logger;
      }
      SchemaResolver.ResolveKeepsValid(nodes, root);
      r := ResolveOwnedReferences(root, logger);
    }
  }
}
