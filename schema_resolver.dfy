/**
 * What `TryResolveLocalReferences` computes (BasicSchema.cs and
 * BasicSchema.static.cs), stated as functions of the arena: the map of a
 * root's descendants by JSON Pointer (`MapChildSchemas`), the anchor map
 * and the worklist (`MapLocalAnchors`), the target of every local
 * reference (`ResolveLocalReferences`), the circular-reference errors
 * (`CheckCircularReferences`) and the final commit or rollback.
 *
 * The class `SchemaArena.Arena` runs these steps as the source does, with
 * loops and in-place updates, and is proved to produce exactly these values.
 *
 * Dictionaries keyed by a pointer's text are sequences of entries here, and
 * a lookup finds the first entry with the key. The source fills the
 * descendants dictionary with `Dictionary.Add`, which throws on a repeated
 * key; the model does not prove the keys different and has no such error.
 * The anchor dictionary is a `map`: its keys are unique, so "the first
 * mapping whose key equals the token" is the only one.
 */
module SchemaResolver {
  import opened Wrappers
  import JsonPointer
  import MiscExtenders
  import Diagnostics
  import opened SchemaKeywords
  import opened SchemaValidation
  import opened SchemaNodes

  type Pointer = JsonPointer.Pointer

  // ------------------------------------------------------- descendants

  /** Every immediate schema of a node has a smaller index (children are built first). */
  ghost predicate Layered(nodes: seq<Node>)
  {
    forall i, k :: 0 <= i < |nodes| && 0 <= k < |nodes[i].immediate| ==> nodes[i].immediate[k].1 < i
  }

  lemma ValidIsLayered(nodes: seq<Node>)
    requires SchemaNodes.Valid(nodes)
    ensures Layered(nodes)
  {
    forall i, k | 0 <= i < |nodes| && 0 <= k < |nodes[i].immediate| ensures nodes[i].immediate[k].1 < i {
      assert NodeValid(nodes, i);
      ImmediateBelow(nodes[i].kw, i);
    }
  }

  /** Entries re-addressed under `p`: `p + key` for every key. */
  function Under(p: Pointer, es: seq<Entry>): seq<Entry>
  {
    seq(|es|, k requires 0 <= k < |es| => (JsonPointer.Compose(p, es[k].0), es[k].1))
  }

  /**
   * `MapChildSchemas`: the immediate schemas, then, for each immediate
   * schema in turn, its own descendants under its pointer.
   */
  function MapChildSchemas(nodes: seq<Node>, id: SchemaId): seq<Entry>
    requires Layered(nodes) && id < |nodes|
    decreases id, 1, 0
  {
    nodes[id].immediate + Descendants(nodes, nodes[id].immediate, id)
  }

  /** The inner loop of `MapChildSchemas` over the entries `es`, all below `bound`. */
  function Descendants(nodes: seq<Node>, es: seq<Entry>, bound: nat): seq<Entry>
    requires Layered(nodes) && bound <= |nodes|
    requires forall k :: 0 <= k < |es| ==> es[k].1 < bound
    decreases bound, 0, |es|
  {
    if es == [] then []
    else Under(es[0].0, MapChildSchemas(nodes, es[0].1)) + Descendants(nodes, es[1..], bound)
  }

  /** `childrenAndI`: every descendant by pointer, then the root itself at "". */
  function Schemas(nodes: seq<Node>, root: SchemaId): seq<Entry>
    requires Layered(nodes) && root < |nodes|
  {
    MapChildSchemas(nodes, root) + [(JsonPointer.Root, root)]
  }

  /** Every entry names a node of the arena. */
  predicate InArena(nodes: seq<Node>, s: seq<Entry>)
  {
    forall k :: 0 <= k < |s| ==> s[k].1 < |nodes|
  }

  /** Every key is a valid pointer, so printing and re-parsing it gives it back. */
  predicate ValidKeys(s: seq<Entry>)
  {
    forall k :: 0 <= k < |s| ==> s[k].0.Valid()
  }

  lemma UnderIds(p: Pointer, es: seq<Entry>)
    ensures EntryIds(Under(p, es)) == EntryIds(es)
  {
    var u := Under(p, es);
    forall j | j in EntryIds(es) ensures j in EntryIds(u) {
      var k :| 0 <= k < |es| && es[k].1 == j;
      assert u[k].1 == j;
    }
    forall j | j in EntryIds(u) ensures j in EntryIds(es) {
      var k :| 0 <= k < |u| && u[k].1 == j;
      assert es[k].1 == j;
    }
  }

  /**
   * The descendants listed are exactly the nodes reachable through
   * immediate schemas, the node itself excepted (the graph indexer's contract).
   */
  lemma {:induction false} MapChildSchemasMeaning(nodes: seq<Node>, id: SchemaId)
    requires Layered(nodes) && id < |nodes|
    ensures forall j: nat :: j in EntryIds(MapChildSchemas(nodes, id)) <==> j < id && Reaches(nodes, id, j)
    decreases id, 1, 0
  {
    var imm := nodes[id].immediate;
    DescendantsMeaning(nodes, imm, id);
    EntryIdsConcat(imm, Descendants(nodes, imm, id));
    forall j: nat ensures j in EntryIds(MapChildSchemas(nodes, id)) <==> j < id && Reaches(nodes, id, j) {
      if j in EntryIds(imm) {
        var k :| 0 <= k < |imm| && imm[k].1 == j;
        assert Reaches(nodes, j, j);
        assert j < id && Reaches(nodes, id, j);
      }
      if j in EntryIds(Descendants(nodes, imm, id)) {
        var k :| 0 <= k < |imm| && j < imm[k].1 && Reaches(nodes, imm[k].1, j);
        assert Reaches(nodes, id, j);
        ReachesBelow(nodes, imm[k].1, j);
      }
      if j < id && Reaches(nodes, id, j) {
        var k :| 0 <= k < |imm| && imm[k].1 < id && Reaches(nodes, imm[k].1, j);
        var c := imm[k].1;
        if c == j {
          assert imm[k].1 in EntryIds(imm);
        } else {
          ReachesBelow(nodes, c, j);
          assert j < c && Reaches(nodes, c, j);
        }
      }
    }
  }

  lemma {:induction false} DescendantsMeaning(nodes: seq<Node>, es: seq<Entry>, bound: nat)
    requires Layered(nodes) && bound <= |nodes|
    requires forall k :: 0 <= k < |es| ==> es[k].1 < bound
    ensures forall j: nat :: j in EntryIds(Descendants(nodes, es, bound)) <==>
      exists k :: 0 <= k < |es| && j < es[k].1 && Reaches(nodes, es[k].1, j)
    decreases bound, 0, |es|
  {
    if es != [] {
      var head := Under(es[0].0, MapChildSchemas(nodes, es[0].1));
      var tail := Descendants(nodes, es[1..], bound);
      MapChildSchemasMeaning(nodes, es[0].1);
      DescendantsMeaning(nodes, es[1..], bound);
      UnderIds(es[0].0, MapChildSchemas(nodes, es[0].1));
      EntryIdsConcat(head, tail);
      forall j: nat ensures j in EntryIds(head + tail) <==>
        exists k :: 0 <= k < |es| && j < es[k].1 && Reaches(nodes, es[k].1, j)
      {
        if j in EntryIds(tail) {
          var k :| 0 <= k < |es[1..]| && j < es[1..][k].1 && Reaches(nodes, es[1..][k].1, j);
          assert es[k + 1] == es[1..][k];
        }
        if exists k :: 0 <= k < |es| && j < es[k].1 && Reaches(nodes, es[k].1, j) {
          var k :| 0 <= k < |es| && j < es[k].1 && Reaches(nodes, es[k].1, j);
          if k > 0 {
            assert es[1..][k - 1] == es[k];
          }
        }
      }
    } else {
      EntryIdsEmpty([]);
    }
  }

  /** Every node listed is inside the arena. */
  lemma SchemasInArena(nodes: seq<Node>, root: SchemaId)
    requires Layered(nodes) && root < |nodes|
    ensures InArena(nodes, Schemas(nodes, root))
  {
    var s := Schemas(nodes, root);
    MapChildSchemasMeaning(nodes, root);
    forall k | 0 <= k < |s| ensures s[k].1 < |nodes| {
      if k < |s| - 1 {
        assert s[k] == MapChildSchemas(nodes, root)[k];
        assert s[k].1 in EntryIds(MapChildSchemas(nodes, root));
      }
    }
  }

  lemma ValidKeysConcat(a: seq<Entry>, b: seq<Entry>)
    requires ValidKeys(a) && ValidKeys(b)
    ensures ValidKeys(a + b)
  {
    forall k | 0 <= k < |a + b| ensures (a + b)[k].0.Valid() {
      if k >= |a| {
        assert (a + b)[k] == b[k - |a|];
      }
    }
  }

  /** Every key of `MapChildSchemas` is a valid, non-empty pointer. */
  lemma {:induction false} MapChildSchemasKeys(nodes: seq<Node>, id: SchemaId)
    requires SchemaNodes.Valid(nodes) && id < |nodes|
    ensures Layered(nodes)
    ensures ValidKeys(MapChildSchemas(nodes, id))
    ensures forall k :: 0 <= k < |MapChildSchemas(nodes, id)| ==> MapChildSchemas(nodes, id)[k].0.Length() > 0
    decreases id, 1, 0
  {
    ValidIsLayered(nodes);
    var imm := nodes[id].immediate;
    assert NodeValid(nodes, id);
    ImmediatePointers(nodes[id].kw);
    assert forall k :: 0 <= k < |imm| ==> imm[k] in imm;
    DescendantsKeys(nodes, imm, id);
    ValidKeysConcat(imm, Descendants(nodes, imm, id));
    var r := MapChildSchemas(nodes, id);
    forall k | 0 <= k < |r| ensures r[k].0.Length() > 0 {
      if k >= |imm| {
        assert r[k] == Descendants(nodes, imm, id)[k - |imm|];
      }
    }
  }

  lemma {:induction false} DescendantsKeys(nodes: seq<Node>, es: seq<Entry>, bound: nat)
    requires SchemaNodes.Valid(nodes) && Layered(nodes) && bound <= |nodes|
    requires forall k :: 0 <= k < |es| ==> es[k].1 < bound
    requires ValidKeys(es) && forall k :: 0 <= k < |es| ==> es[k].0.Length() > 0
    ensures ValidKeys(Descendants(nodes, es, bound))
    ensures forall k :: 0 <= k < |Descendants(nodes, es, bound)| ==> Descendants(nodes, es, bound)[k].0.Length() > 0
    decreases bound, 0, |es|
  {
    if es != [] {
      var inner := MapChildSchemas(nodes, es[0].1);
      var head := Under(es[0].0, inner);
      MapChildSchemasKeys(nodes, es[0].1);
      DescendantsKeys(nodes, es[1..], bound);
      var tail := Descendants(nodes, es[1..], bound);
      ValidKeysConcat(head, tail);
      forall k | 0 <= k < |head + tail| ensures (head + tail)[k].0.Length() > 0 {
        if k >= |head| {
          assert (head + tail)[k] == tail[k - |head|];
        }
      }
    }
  }

  // ------------------------------------------------------------ anchors

  /** The anchor dictionary (anchor key to address text), the worklist and the errors logged so far. */
  datatype AnchorPass = AnchorPass(anchors: map<string, string>, worklist: seq<SchemaId>, messages: seq<Message>)

  /** The error for an anchor declared a second time, at the later declaration. */
  function Redefined(name: string, at: Pointer): Message
  {
    Diagnostics.ConsoleMessage("Anchor \"#" + name + "\" cannot be redefined.", Diagnostics.Error, Some(at))
  }

  /** `anchorPointers.TryAdd("#" + name, key)`, logging when the key is taken. */
  function AddAnchor(p: AnchorPass, name: Option<string>, at: Pointer): AnchorPass
  {
    if name.None? then p
    else if "#" + name.value in p.anchors then p.(messages := p.messages + [Redefined(name.value, at)])
    else p.(anchors := p.anchors["#" + name.value := JsonPointer.Text(at)])
  }

  /** The node goes on the worklist: a local `$ref` or a local `$dynamicRef`. */
  predicate LocalReference(c: CoreKeywords)
  {
    IsLocalStaticReference(c) || IsLocalDynamicReference(c)
  }

  /** One iteration of `MapLocalAnchors`: `$anchor`, then `$dynamicAnchor`, then the worklist. */
  function AnchorStep(nodes: seq<Node>, p: AnchorPass, e: Entry): AnchorPass
    requires e.1 < |nodes|
  {
    var c := nodes[e.1].kw.core;
    var q := AddAnchor(AddAnchor(p, c.anchor, e.0), c.dynamicAnchor, e.0);
    if LocalReference(c) then q.(worklist := q.worklist + [e.1]) else q
  }

  /** `MapLocalAnchors` over the entries `s`, starting from `{"#": ""}`. */
  function MapAnchors(nodes: seq<Node>, s: seq<Entry>): AnchorPass
    requires InArena(nodes, s)
    decreases |s|
  {
    if s == [] then AnchorPass(map["#" := ""], [], [])
    else AnchorStep(nodes, MapAnchors(nodes, s[..|s| - 1]), s[|s| - 1])
  }

  /** The entry declares `name` as its `$anchor` or its `$dynamicAnchor`. */
  predicate DeclaresAnchor(c: CoreKeywords, name: string)
  {
    c.anchor == Some(name) || c.dynamicAnchor == Some(name)
  }

  /** The anchor names declared by `s`, in the order they are registered. */
  function DeclaredAnchors(nodes: seq<Node>, s: seq<Entry>): seq<string>
    requires InArena(nodes, s)
    decreases |s|
  {
    if s == [] then []
    else
      var c := nodes[s[|s| - 1].1].kw.core;
      DeclaredAnchors(nodes, s[..|s| - 1]) +
      (if c.anchor.Some? then [c.anchor.value] else []) +
      (if c.dynamicAnchor.Some? then [c.dynamicAnchor.value] else [])
  }

  /** The keys of the anchor dictionary: "#" and one per declared name. */
  function KeysOf(names: seq<string>): set<string>
  {
    {"#"} + set k | 0 <= k < |names| :: "#" + names[k]
  }

  lemma HashKeyInjective(a: string, b: string)
    requires "#" + a == "#" + b
    ensures a == b
  {
    assert a == ("#" + a)[1..];
    assert b == ("#" + b)[1..];
  }

  lemma KeysOfSnoc(names: seq<string>, n: string)
    ensures KeysOf(names + [n]) == KeysOf(names) + {"#" + n}
  {
    var l := names + [n];
    assert "#" + l[|names|] == "#" + n;
    forall x | x in KeysOf(l) ensures x in KeysOf(names) + {"#" + n} {
      if x != "#" {
        var k :| 0 <= k < |l| && x == "#" + l[k];
        if k < |names| {
          assert l[k] == names[k];
        }
      }
    }
    forall x | x in KeysOf(names) ensures x in KeysOf(l) {
      if x != "#" {
        var k :| 0 <= k < |names| && x == "#" + names[k];
        assert l[k] == names[k];
      }
    }
  }

  /** "#" + name is "#" only for the empty name. */
  lemma KeyIsHashOnly(n: string)
    ensures ("#" + n == "#") <==> n == ""
  {
    if "#" + n == "#" {
      assert |"#" + n| == 1 + |n|;
    }
  }

  /** Adding a name keeps the list distinct iff its key is new. */
  lemma DistinctSnoc(names: seq<string>, n: string)
    requires MiscExtenders.Distinct([""] + names)
    ensures MiscExtenders.Distinct([""] + names + [n]) <==> "#" + n !in KeysOf(names)
  {
    var l := [""] + names;
    var l2 := l + [n];
    if "#" + n in KeysOf(names) {
      if "#" + n == "#" {
        KeyIsHashOnly(n);
        assert l2[0] == l2[|l|];
      } else {
        var k :| 0 <= k < |names| && "#" + n == "#" + names[k];
        HashKeyInjective(n, names[k]);
        assert l2[k + 1] == l2[|l|];
      }
    } else {
      forall i, j | 0 <= i < j < |l2| ensures l2[i] != l2[j] {
        if j == |l| {
          if i == 0 {
            KeyIsHashOnly(n);
          } else {
            assert l2[i] == names[i - 1];
            assert "#" + names[i - 1] in KeysOf(names);
          }
        } else {
          assert l2[i] == l[i] && l2[j] == l[j];
        }
      }
    }
  }

  lemma DistinctPrefix(l: seq<string>, n: string)
    requires MiscExtenders.Distinct(l + [n])
    ensures MiscExtenders.Distinct(l)
  {
    forall i, j | 0 <= i < j < |l| ensures l[i] != l[j] {
      assert (l + [n])[i] == l[i] && (l + [n])[j] == l[j];
    }
  }

  /** The anchor pass agrees with the names declared so far. */
  ghost predicate AnchorsAgree(p: AnchorPass, names: seq<string>)
  {
    p.anchors.Keys == KeysOf(names) &&
    (p.messages == [] <==> MiscExtenders.Distinct([""] + names)) &&
    forall k :: 0 <= k < |p.messages| ==> p.messages[k].level == Diagnostics.Error
  }

  /** The name list after one (possibly absent) declaration. */
  function WithName(names: seq<string>, name: Option<string>): seq<string>
  {
    if name.Some? then names + [name.value] else names
  }

  lemma {:induction false} AddAnchorAgrees(p: AnchorPass, names: seq<string>, name: Option<string>, at: Pointer)
    requires AnchorsAgree(p, names)
    ensures AnchorsAgree(AddAnchor(p, name, at), WithName(names, name))
    ensures AddAnchor(p, name, at).worklist == p.worklist
  {
    if name.Some? {
      var n := name.value;
      var q := AddAnchor(p, name, at);
      KeysOfSnoc(names, n);
      assert [""] + (names + [n]) == [""] + names + [n];
      if MiscExtenders.Distinct([""] + names) {
        DistinctSnoc(names, n);
      } else if MiscExtenders.Distinct([""] + names + [n]) {
        DistinctPrefix([""] + names, n);
      }
      if "#" + n in p.anchors {
        assert q.messages[|p.messages|] == Redefined(n, at);
        if q.messages != p.messages {
          forall k | 0 <= k < |q.messages| ensures q.messages[k].level == Diagnostics.Error {
            if k < |p.messages| {
              assert q.messages[k] == p.messages[k];
            } else {
              assert q.messages[k] == Redefined(n, at);
            }
          }
        }
      }
    }
  }

  /**
   * The dictionary holds "#" and one key per declared anchor, and an error
   * is logged iff some anchor repeats an earlier key: the declared names
   * are pairwise different and none is empty (whose key would be "#").
   */
  lemma {:induction false} AnchorKeysAndErrors(nodes: seq<Node>, s: seq<Entry>)
    requires InArena(nodes, s)
    ensures AnchorsAgree(MapAnchors(nodes, s), DeclaredAnchors(nodes, s))
    decreases |s|
  {
    if s == [] {
      assert KeysOf([]) == {"#"};
      assert MiscExtenders.Distinct([""]);
    } else {
      var init := s[..|s| - 1];
      var e := s[|s| - 1];
      var c := nodes[e.1].kw.core;
      assert InArena(nodes, init);
      AnchorKeysAndErrors(nodes, init);
      var p := MapAnchors(nodes, init);
      var names := DeclaredAnchors(nodes, init);
      AddAnchorAgrees(p, names, c.anchor, e.0);
      var q := AddAnchor(p, c.anchor, e.0);
      AddAnchorAgrees(q, WithName(names, c.anchor), c.dynamicAnchor, e.0);
      assert DeclaredAnchors(nodes, s) == WithName(WithName(names, c.anchor), c.dynamicAnchor);
    }
  }
  /** The entry at `j` declares `name` and no earlier entry does. */
  predicate FirstDeclarer(nodes: seq<Node>, s: seq<Entry>, name: string, j: nat)
    requires InArena(nodes, s)
  {
    j < |s| && DeclaresAnchor(nodes[s[j].1].kw.core, name) &&
    forall i :: 0 <= i < j ==> !DeclaresAnchor(nodes[s[i].1].kw.core, name)
  }

  /** Looking up `"#" + name` after one `AddAnchor`: the first registration of a key wins. */
  lemma AddAnchorLookup(p: AnchorPass, opt: Option<string>, at: Pointer, name: string)
    ensures var q := AddAnchor(p, opt, at);
      var key := "#" + name;
      (key in q.anchors <==> key in p.anchors || opt == Some(name)) &&
      (key in p.anchors ==> q.anchors[key] == p.anchors[key]) &&
      (key !in p.anchors && opt == Some(name) ==> q.anchors[key] == JsonPointer.Text(at)) &&
      ("#" in p.anchors ==> "#" in q.anchors && q.anchors["#"] == p.anchors["#"])
  {
    if opt.Some? && "#" + opt.value == "#" + name {
      HashKeyInjective(opt.value, name);
    }
  }

  /** Looking up `"#" + name` after one entry of `MapLocalAnchors`. */
  lemma AnchorStepLookup(nodes: seq<Node>, p: AnchorPass, e: Entry, name: string)
    requires e.1 < |nodes|
    ensures var q := AnchorStep(nodes, p, e);
      var key := "#" + name;
      (key in q.anchors <==> key in p.anchors || DeclaresAnchor(nodes[e.1].kw.core, name)) &&
      (key in p.anchors ==> q.anchors[key] == p.anchors[key]) &&
      (key !in p.anchors && DeclaresAnchor(nodes[e.1].kw.core, name) ==> q.anchors[key] == JsonPointer.Text(e.0)) &&
      ("#" in p.anchors ==> "#" in q.anchors && q.anchors["#"] == p.anchors["#"])
  {
    var c := nodes[e.1].kw.core;
    AddAnchorLookup(p, c.anchor, e.0, name);
    AddAnchorLookup(AddAnchor(p, c.anchor, e.0), c.dynamicAnchor, e.0, name);
  }

  /**
   * `"#" + name` maps to the address of the first entry declaring `name`,
   * and is absent when no entry declares it; the root key "#" maps to "".
   */
  lemma {:induction false} AnchorTargets(nodes: seq<Node>, s: seq<Entry>, name: string)
    requires InArena(nodes, s)
    ensures "#" in MapAnchors(nodes, s).anchors && MapAnchors(nodes, s).anchors["#"] == ""
    ensures "#" + name in MapAnchors(nodes, s).anchors <==>
      name == "" || exists j :: 0 <= j < |s| && DeclaresAnchor(nodes[s[j].1].kw.core, name)
    ensures name != "" ==> forall j: nat :: FirstDeclarer(nodes, s, name, j) ==>
      MapAnchors(nodes, s).anchors["#" + name] == JsonPointer.Text(s[j].0)
    decreases |s|
  {
    KeyIsHashOnly(name);
    if s != [] {
      var init := s[..|s| - 1];
      var e := s[|s| - 1];
      assert InArena(nodes, init);
      AnchorTargets(nodes, init, name);
      AnchorStepLookup(nodes, MapAnchors(nodes, init), e, name);
      assert forall j :: 0 <= j < |init| ==> init[j] == s[j];
      if exists j :: 0 <= j < |s| && DeclaresAnchor(nodes[s[j].1].kw.core, name) {
        var j :| 0 <= j < |s| && DeclaresAnchor(nodes[s[j].1].kw.core, name);
        if j < |init| {
          assert DeclaresAnchor(nodes[init[j].1].kw.core, name);
        }
      }
      if name != "" {
        forall j: nat | FirstDeclarer(nodes, s, name, j)
          ensures MapAnchors(nodes, s).anchors["#" + name] == JsonPointer.Text(s[j].0)
        {
          if j < |init| {
            assert FirstDeclarer(nodes, init, name, j);
          }
        }
      }
    }
  }

  /** The worklist: every listed node that is a local static or local dynamic reference, in order. */
  lemma {:induction false} WorklistMeaning(nodes: seq<Node>, s: seq<Entry>)
    requires InArena(nodes, s)
    ensures forall x :: x in MapAnchors(nodes, s).worklist <==>
      exists k :: 0 <= k < |s| && s[k].1 == x && LocalReference(nodes[x].kw.core)
    ensures forall k :: 0 <= k < |MapAnchors(nodes, s).worklist| ==> MapAnchors(nodes, s).worklist[k] < |nodes|
    decreases |s|
  {
    if s != [] {
      var init := s[..|s| - 1];
      assert InArena(nodes, init);
      WorklistMeaning(nodes, init);
      forall x ensures x in MapAnchors(nodes, s).worklist <==>
        exists k :: 0 <= k < |s| && s[k].1 == x && LocalReference(nodes[x].kw.core)
      {
        if exists k :: 0 <= k < |s| && s[k].1 == x && LocalReference(nodes[x].kw.core) {
          var k :| 0 <= k < |s| && s[k].1 == x && LocalReference(nodes[x].kw.core);
          if k < |init| {
            assert init[k] == s[k];
          }
        }
        if x in MapAnchors(nodes, init).worklist {
          var k :| 0 <= k < |init| && init[k].1 == x && LocalReference(nodes[x].kw.core);
          assert s[k] == init[k];
        }
      }
    }
  }

  // --------------------------------------------------------- resolution

  /** `x.StaticReference!` as string concatenation and slicing read it: null is "". */
  function ReferenceText(c: CoreKeywords): string
  {
    if c.reference.Some? then c.reference.value else ""
  }

  /** `schemas.TryGetValue(address)`: the first entry whose pointer prints as `address`. */
  function SchemaAt(s: seq<Entry>, address: string): (r: Option<SchemaId>)
    ensures r.Some? ==> exists k :: 0 <= k < |s| && s[k].1 == r.value && JsonPointer.Text(s[k].0) == address
    ensures r.None? ==> forall k :: 0 <= k < |s| ==> JsonPointer.Text(s[k].0) != address
  {
    if s == [] then None
    else if JsonPointer.Text(s[0].0) == address then Some(s[0].1)
    else
      var r := SchemaAt(s[1..], address);
      assert forall k :: 1 <= k < |s| ==> s[1..][k - 1] == s[k];
      r
  }

  /** The text before the first '/' is a prefix of the string. */
  lemma {:induction false} SplitHeadPrefix(r: string)
    ensures |JsonPointer.Split(r)[0]| <= |r|
    ensures JsonPointer.Split(r)[0] == r[..|JsonPointer.Split(r)[0]|]
    decreases |r|
  {
    if r != [] && r[0] != '/' {
      SplitHeadPrefix(r[1..]);
    }
  }

  /**
   * The target of a local reference (the body of the loop in
   * `ResolveLocalReferences`). The address `"/" + $ref` is parsed as a JSON
   * Pointer (Err: `JsonPointer.Parse` throws); its first token, unescaped,
   * is looked up among the anchor keys; the reference text after that key
   * is appended to the anchor's address, and the schema at the result is
   * the target. `$dynamicRef` is never read: a node with only a dynamic
   * reference parses "/" and looks up the empty token.
   */
  function Target(s: seq<Entry>, anchors: map<string, string>, c: CoreKeywords): Result<Option<SchemaId>, JsonPointer.PointerError>
  {
    var r := ReferenceText(c);
    var augmented := JsonPointer.Parse("/" + r);
    if augmented.None? then Err(JsonPointer.Format)
    else
      assert ("/" + r)[1..] == r;
      match augmented.value.At(0)
      case Err(e) => Err(e)
      case Ok(key) =>
        if key !in anchors then Ok(None)
        else
          SplitHeadPrefix(r);
          Ok(SchemaAt(s, anchors[key] + r[|key|..]))
  }

  /** The resolution pass so far: the arena, the errors logged, and whether `JsonPointer.Parse` threw. */
  datatype ResolvePass = ResolvePass(nodes: seq<Node>, messages: seq<Message>, thrown: bool)

  /** The error for a reference left without a target. */
  function Unresolvable(c: CoreKeywords): Message
  {
    Diagnostics.ConsoleMessage("Reference \"#" + ReferenceText(c) + "\" could not be resolved.", Diagnostics.Error, None)
  }

  /**
   * One worklist node: on a target, `ResolvedReference` is set; then an
   * error is logged if `ResolvedReference` is (still) null.
   */
  function ResolveStep(p: ResolvePass, s: seq<Entry>, anchors: map<string, string>, x: SchemaId): ResolvePass
    requires x < |p.nodes|
  {
    var c := p.nodes[x].kw.core;
    match Target(s, anchors, c)
    case Err(_) => p.(thrown := true)
    case Ok(t) =>
      var ns := if t.Some? then p.nodes[x := p.nodes[x].(resolved := t)] else p.nodes;
      ResolvePass(ns, p.messages + (if ns[x].resolved.None? then [Unresolvable(c)] else []), false)
  }

  /** `ResolveLocalReferences` over the worklist `w`; a throw ends the pass. */
  function ResolveAll(nodes: seq<Node>, s: seq<Entry>, anchors: map<string, string>, w: seq<SchemaId>): (p: ResolvePass)
    requires forall k :: 0 <= k < |w| ==> w[k] < |nodes|
    ensures |p.nodes| == |nodes|
    decreases |w|
  {
    if w == [] then ResolvePass(nodes, [], false)
    else
      var p := ResolveAll(nodes, s, anchors, w[..|w| - 1]);
      if p.thrown then p else ResolveStep(p, s, anchors, w[|w| - 1])
  }

  /** One worklist node: only its resolved reference may change, to a listed schema; messages only grow. */
  lemma ResolveStepFrame(p: ResolvePass, s: seq<Entry>, anchors: map<string, string>, x: SchemaId)
    requires x < |p.nodes|
    ensures var q := ResolveStep(p, s, anchors, x);
      |q.nodes| == |p.nodes| &&
      (forall i :: 0 <= i < |p.nodes| && i != x ==> q.nodes[i] == p.nodes[i]) &&
      q.nodes[x] == p.nodes[x].(resolved := q.nodes[x].resolved) &&
      (q.nodes[x].resolved != p.nodes[x].resolved ==> exists k :: 0 <= k < |s| && q.nodes[x].resolved == Some(s[k].1)) &&
      (q.messages == p.messages || q.messages == p.messages + [Unresolvable(p.nodes[x].kw.core)]) &&
      (!q.thrown && q.nodes[x].resolved.None? ==> q.messages != [])
  {
  }

  /**
   * The pass changes only the resolved references of worklist nodes, only
   * to schemas listed in `s`.
   */
  lemma {:induction false} ResolveAllFrame(nodes: seq<Node>, s: seq<Entry>, anchors: map<string, string>, w: seq<SchemaId>)
    requires forall k :: 0 <= k < |w| ==> w[k] < |nodes|
    ensures var p := ResolveAll(nodes, s, anchors, w);
      (forall i :: 0 <= i < |nodes| ==> p.nodes[i] == nodes[i].(resolved := p.nodes[i].resolved)) &&
      (forall i :: 0 <= i < |nodes| && i !in w ==> p.nodes[i] == nodes[i]) &&
      (forall i :: 0 <= i < |nodes| && p.nodes[i].resolved != nodes[i].resolved ==>
        exists k :: 0 <= k < |s| && p.nodes[i].resolved == Some(s[k].1))
    decreases |w|
  {
    if w != [] {
      var init := w[..|w| - 1];
      ResolveAllFrame(nodes, s, anchors, init);
      var p := ResolveAll(nodes, s, anchors, init);
      if !p.thrown {
        ResolveStepFrame(p, s, anchors, w[|w| - 1]);
      }
    }
  }

  /**
   * Every message is an error, and when no exception ended the pass, each
   * worklist node without a target has had an error logged.
   */
  lemma {:induction false} ResolveAllReports(nodes: seq<Node>, s: seq<Entry>, anchors: map<string, string>, w: seq<SchemaId>)
    requires forall k :: 0 <= k < |w| ==> w[k] < |nodes|
    ensures var p := ResolveAll(nodes, s, anchors, w);
      (forall k :: 0 <= k < |p.messages| ==> p.messages[k].level == Diagnostics.Error) &&
      (!p.thrown ==> forall x :: x in w && p.nodes[x].resolved.None? ==> p.messages != [])
    decreases |w|
  {
    if w != [] {
      var init := w[..|w| - 1];
      var x := w[|w| - 1];
      ResolveAllReports(nodes, s, anchors, init);
      var p := ResolveAll(nodes, s, anchors, init);
      assert forall k :: 0 <= k < |p.messages| ==> p.messages[k].level == Diagnostics.Error;
      if !p.thrown {
        ResolveStepFrame(p, s, anchors, x);
        var q := ResolveStep(p, s, anchors, x);
        if q.messages != p.messages {
          forall k | 0 <= k < |q.messages| ensures q.messages[k].level == Diagnostics.Error {
            if k < |p.messages| {
              assert q.messages[k] == p.messages[k];
            } else {
              assert q.messages[k] == Unresolvable(p.nodes[x].kw.core);
            }
          }
        }
        forall y | y in w && q.nodes[y].resolved.None? && !q.thrown ensures q.messages != [] {
          if y != x {
            assert y in init;
          }
        }
      }
    }
  }
  // ------------------------------------------------------------- cycles

  /** The schema a node's resolved reference leads to. */
  function Next(nodes: seq<Node>, c: SchemaId): Option<SchemaId>
  {
    if c < |nodes| then nodes[c].resolved else None
  }

  /** The node reached from `start` after `k` resolved-reference links, if the chain is that long. */
  function Chain(nodes: seq<Node>, start: SchemaId, k: nat): Option<SchemaId>
    decreases k
  {
    if k == 0 then Some(start)
    else
      var prev := Chain(nodes, start, k - 1);
      if prev.None? then None else Next(nodes, prev.value)
  }

  /** Following resolved references from `start` comes back to a node already visited. */
  ghost predicate Revisits(nodes: seq<Node>, start: SchemaId)
  {
    exists i, j :: 0 <= i < j && Chain(nodes, start, j).Some? && Chain(nodes, start, i) == Chain(nodes, start, j)
  }

  /** A node whose reference is itself revisits itself (`CircularReferenceZero`). */
  lemma SelfReferenceRevisits(nodes: seq<Node>, a: SchemaId)
    requires a < |nodes| && nodes[a].resolved == Some(a)
    ensures Revisits(nodes, a)
  {
    assert Chain(nodes, a, 1) == Some(a);
  }

  /** Two nodes referring to each other (`CircularReferenceOne`). */
  lemma TwoCycleRevisits(nodes: seq<Node>, a: SchemaId, b: SchemaId)
    requires a < |nodes| && b < |nodes| && nodes[a].resolved == Some(b) && nodes[b].resolved == Some(a)
    ensures Revisits(nodes, a) && Revisits(nodes, b)
  {
    assert Chain(nodes, a, 1) == Some(b) && Chain(nodes, a, 2) == Some(a);
    assert Chain(nodes, b, 1) == Some(a) && Chain(nodes, b, 2) == Some(b);
  }

  /** Three nodes in a ring (`CircularReferenceTwo`). */
  lemma ThreeCycleRevisits(nodes: seq<Node>, a: SchemaId, b: SchemaId, c: SchemaId)
    requires a < |nodes| && b < |nodes| && c < |nodes|
    requires nodes[a].resolved == Some(b) && nodes[b].resolved == Some(c) && nodes[c].resolved == Some(a)
    ensures Revisits(nodes, a) && Revisits(nodes, b) && Revisits(nodes, c)
  {
    assert Chain(nodes, a, 1) == Some(b) && Chain(nodes, a, 2) == Some(c) && Chain(nodes, a, 3) == Some(a);
    assert Chain(nodes, b, 1) == Some(c) && Chain(nodes, b, 2) == Some(a) && Chain(nodes, b, 3) == Some(b);
    assert Chain(nodes, c, 1) == Some(a) && Chain(nodes, c, 2) == Some(b) && Chain(nodes, c, 3) == Some(c);
  }

  /** A node without a resolved reference starts no cycle. */
  lemma UnresolvedDoesNotRevisit(nodes: seq<Node>, a: SchemaId)
    requires a < |nodes| && nodes[a].resolved.None?
    ensures !Revisits(nodes, a)
  {
    forall j: nat | 1 <= j ensures Chain(nodes, a, j).None? {
      ChainStuck(nodes, a, j);
    }
  }

  lemma {:induction false} ChainStuck(nodes: seq<Node>, a: SchemaId, j: nat)
    requires Next(nodes, a).None? && 1 <= j
    ensures Chain(nodes, a, j).None?
    decreases j
  {
    if j > 1 {
      ChainStuck(nodes, a, j - 1);
    }
  }

  /** The error for a chain of references that comes back to itself. */
  function Circular(at: Pointer): Message
  {
    Diagnostics.ConsoleMessage("Circular JSON reference originating at \"#" + JsonPointer.Text(at) + "\" encountered.",
      Diagnostics.Error, None)
  }

  /** `CheckCircularReferences`: one error per listed node from which the chain revisits a node. */
  ghost function CycleMessages(nodes: seq<Node>, s: seq<Entry>): seq<Message>
    decreases |s|
  {
    if s == [] then []
    else
      var e := s[|s| - 1];
      CycleMessages(nodes, s[..|s| - 1]) + (if Revisits(nodes, e.1) then [Circular(e.0)] else [])
  }

  /** At most one error per start node, every one an error, and some error iff some start node revisits. */
  lemma {:induction false} CycleMessagesMeaning(nodes: seq<Node>, s: seq<Entry>)
    ensures |CycleMessages(nodes, s)| <= |s|
    ensures forall k :: 0 <= k < |CycleMessages(nodes, s)| ==> CycleMessages(nodes, s)[k].level == Diagnostics.Error
    ensures CycleMessages(nodes, s) != [] <==> exists k :: 0 <= k < |s| && Revisits(nodes, s[k].1)
    decreases |s|
  {
    if s != [] {
      var init := s[..|s| - 1];
      CycleMessagesMeaning(nodes, init);
      if exists k :: 0 <= k < |init| && Revisits(nodes, init[k].1) {
        var k :| 0 <= k < |init| && Revisits(nodes, init[k].1);
        assert s[k] == init[k];
      }
      if exists k :: 0 <= k < |s| && Revisits(nodes, s[k].1) {
        var k :| 0 <= k < |s| && Revisits(nodes, s[k].1);
        if k < |init| {
          assert init[k] == s[k];
        }
      }
    }
  }

  // ------------------------------------------------------ commit or roll back

  /** The end of `TryResolveLocalReferences` for one worklist node. */
  function Settle(n: Node, failed: bool): Node
  {
    if failed then n.(resolved := None, ownsUnresolved := true) else n.(ownsUnresolved := false)
  }

  /** Every worklist node settled, every other node as it was. */
  function Settled(nodes: seq<Node>, w: seq<SchemaId>, failed: bool): seq<Node>
  {
    seq(|nodes|, i requires 0 <= i < |nodes| => if i in w then Settle(nodes[i], failed) else nodes[i])
  }

  /** What `TryResolveLocalReferences` reports. */
  datatype Resolution =
    | Resolved(success: bool)  // the returned bool
    | NotSupported             // NotSupportedException: the schema has error diagnostics
    | FormatFault              // FormatException from `JsonPointer.Parse` on a reference

  /**
   * The outcome of resolving the root `root` that has no errors and owns
   * unresolved references: the result, the arena afterwards, the messages logged.
   */
  ghost function Resolve(nodes: seq<Node>, root: SchemaId): (Resolution, seq<Node>, seq<Message>)
    requires SchemaNodes.Valid(nodes) && root < |nodes|
  {
    ValidIsLayered(nodes);
    var s := Schemas(nodes, root);
    SchemasInArena(nodes, root);
    var a := MapAnchors(nodes, s);
    WorklistMeaning(nodes, s);
    var p := ResolveAll(nodes, s, a.anchors, a.worklist);
    Finish(a, p, CycleMessages(p.nodes, s))
  }

  /** Commit or roll back after the anchor pass `a`, the resolution pass `p` and the cycle check. */
  function Finish(a: AnchorPass, p: ResolvePass, cycles: seq<Message>): (Resolution, seq<Node>, seq<Message>)
  {
    if p.thrown then (FormatFault, p.nodes, a.messages + p.messages)
    else
      var msgs := a.messages + p.messages + cycles;
      var failed := Diagnostics.HasLevel(msgs, Diagnostics.Error);
      (Resolved(!failed), Settled(p.nodes, a.worklist, failed), msgs)
  }

  /** `Resolve` step by step, for the method that runs it. */
  lemma ResolveSteps(nodes: seq<Node>, root: SchemaId, s: seq<Entry>, a: AnchorPass, p: ResolvePass)
    requires SchemaNodes.Valid(nodes) && root < |nodes|
    requires Layered(nodes) && s == Schemas(nodes, root) && InArena(nodes, s) && a == MapAnchors(nodes, s)
    requires forall k :: 0 <= k < |a.worklist| ==> a.worklist[k] < |nodes|
    requires p == ResolveAll(nodes, s, a.anchors, a.worklist)
    ensures Resolve(nodes, root) == Finish(a, p, CycleMessages(p.nodes, s))
  {
  }

  /** The worklist of a root: its local references, in `Schemas` order. */
  ghost function Worklist(nodes: seq<Node>, root: SchemaId): (w: seq<SchemaId>)
    requires SchemaNodes.Valid(nodes) && root < |nodes|
    ensures forall k :: 0 <= k < |w| ==> w[k] < |nodes|
  {
    ValidIsLayered(nodes);
    SchemasInArena(nodes, root);
    WorklistMeaning(nodes, Schemas(nodes, root));
    MapAnchors(nodes, Schemas(nodes, root)).worklist
  }

  lemma HasErrorIff(msgs: seq<Message>)
    requires forall k :: 0 <= k < |msgs| ==> msgs[k].level == Diagnostics.Error
    ensures Diagnostics.HasLevel(msgs, Diagnostics.Error) <==> msgs != []
  {
    if msgs != [] {
      assert msgs[0].level == Diagnostics.Error;
    }
  }

  lemma AllErrorsConcat3(a: seq<Message>, b: seq<Message>, c: seq<Message>)
    requires forall k :: 0 <= k < |a| ==> a[k].level == Diagnostics.Error
    requires forall k :: 0 <= k < |b| ==> b[k].level == Diagnostics.Error
    requires forall k :: 0 <= k < |c| ==> c[k].level == Diagnostics.Error
    ensures forall k :: 0 <= k < |a + b + c| ==> (a + b + c)[k].level == Diagnostics.Error
  {
    forall k | 0 <= k < |a + b + c| ensures (a + b + c)[k].level == Diagnostics.Error {
      if k < |a| {
        assert (a + b + c)[k] == a[k];
      } else if k < |a| + |b| {
        assert (a + b + c)[k] == b[k - |a|];
      } else {
        assert (a + b + c)[k] == c[k - |a| - |b|];
      }
    }
  }

  /**
   * All or nothing. Resolution fails iff an anchor is declared twice (or
   * empty), a reference has no target, or a listed node starts a cycle. On
   * failure every worklist node is left unresolved and flagged, and every
   * other node is exactly as it was; on success every worklist node has a
   * target, no listed node starts a cycle, and only the worklist nodes
   * changed, losing their unresolved flag.
   */
  lemma ResolveAllOrNothing(nodes: seq<Node>, root: SchemaId)
    requires SchemaNodes.Valid(nodes) && root < |nodes|
    ensures Layered(nodes) && InArena(nodes, Schemas(nodes, root))
    ensures var (r, after, msgs) := Resolve(nodes, root);
      var s := Schemas(nodes, root);
      var w := Worklist(nodes, root);
      |after| == |nodes| &&
      (forall i :: 0 <= i < |nodes| && i !in w ==> after[i] == nodes[i]) &&
      (r == Resolved(false) ==>
        after == Settled(nodes, w, true) &&
        forall x :: x in w ==> after[x].resolved.None? && after[x].ownsUnresolved) &&
      (r == Resolved(true) ==>
        MiscExtenders.Distinct([""] + DeclaredAnchors(nodes, s)) &&
        (forall k :: 0 <= k < |s| ==> !Revisits(after, s[k].1)) &&
        forall x :: x in w ==>
          (after[x].resolved.Some? && !after[x].ownsUnresolved &&
           after[x] == nodes[x].(resolved := after[x].resolved, ownsUnresolved := false)))
  {
    ValidIsLayered(nodes);
    var s := Schemas(nodes, root);
    SchemasInArena(nodes, root);
    WorklistMeaning(nodes, s);
    var a := MapAnchors(nodes, s);
    var p := ResolveAll(nodes, s, a.anchors, a.worklist);
    ResolveAllFrame(nodes, s, a.anchors, a.worklist);
    ResolveAllReports(nodes, s, a.anchors, a.worklist);
    AnchorKeysAndErrors(nodes, s);
    ResolveSteps(nodes, root, s, a, p);
    FinishMeaning(nodes, s, a, p);
  }

  /**
   * `Finish` for any anchor pass and resolution pass that keep the facts
   * `AnchorKeysAndErrors`, `ResolveAllFrame` and `ResolveAllReports` prove.
   */
  lemma FinishMeaning(nodes: seq<Node>, s: seq<Entry>, a: AnchorPass, p: ResolvePass)
    requires InArena(nodes, s) && AnchorsAgree(a, DeclaredAnchors(nodes, s))
    requires forall k :: 0 <= k < |a.worklist| ==> a.worklist[k] < |nodes|
    requires |p.nodes| == |nodes|
    requires forall i :: 0 <= i < |nodes| ==> p.nodes[i] == nodes[i].(resolved := p.nodes[i].resolved)
    requires forall i :: 0 <= i < |nodes| && i !in a.worklist ==> p.nodes[i] == nodes[i]
    requires forall k :: 0 <= k < |p.messages| ==> p.messages[k].level == Diagnostics.Error
    requires !p.thrown ==> forall x :: x in a.worklist && p.nodes[x].resolved.None? ==> p.messages != []
    ensures var (r, after, msgs) := Finish(a, p, CycleMessages(p.nodes, s));
      var w := a.worklist;
      |after| == |nodes| &&
      (forall i :: 0 <= i < |nodes| && i !in w ==> after[i] == nodes[i]) &&
      (r == Resolved(false) ==>
        after == Settled(nodes, w, true) &&
        forall x :: x in w ==> after[x].resolved.None? && after[x].ownsUnresolved) &&
      (r == Resolved(true) ==>
        MiscExtenders.Distinct([""] + DeclaredAnchors(nodes, s)) &&
        (forall k :: 0 <= k < |s| ==> !Revisits(after, s[k].1)) &&
        forall x :: x in w ==>
          (after[x].resolved.Some? && !after[x].ownsUnresolved &&
           after[x] == nodes[x].(resolved := after[x].resolved, ownsUnresolved := false)))
  {
    if !p.thrown {
      var w := a.worklist;
      var cycles := CycleMessages(p.nodes, s);
      var msgs := a.messages + p.messages + cycles;
      CycleMessagesMeaning(p.nodes, s);
      AllErrorsConcat3(a.messages, p.messages, cycles);
      HasErrorIff(msgs);
      var failed := Diagnostics.HasLevel(msgs, Diagnostics.Error);
      var after := Settled(p.nodes, w, failed);
      if failed {
        SettledFailed(nodes, p.nodes, w);
      } else {
        assert a.messages == [] && p.messages == [] && cycles == [];
        forall k | 0 <= k < |s| ensures !Revisits(after, s[k].1) {
          RevisitsIgnoresFlags(p.nodes, after, s[k].1);
        }
      }
    }
  }

  /** Rolling back forgets whatever the pass resolved. */
  lemma SettledFailed(nodes: seq<Node>, q: seq<Node>, w: seq<SchemaId>)
    requires |q| == |nodes|
    requires forall i :: 0 <= i < |nodes| ==> q[i] == nodes[i].(resolved := q[i].resolved)
    requires forall i :: 0 <= i < |nodes| && i !in w ==> q[i] == nodes[i]
    ensures Settled(q, w, true) == Settled(nodes, w, true)
  {
    forall i | 0 <= i < |nodes| ensures Settled(q, w, true)[i] == Settled(nodes, w, true)[i] {
      if i in w {
        assert q[i].(resolved := None, ownsUnresolved := true) == nodes[i].(resolved := None, ownsUnresolved := true);
      }
    }
  }

  /** Cycles depend only on the resolved references. */
  lemma RevisitsIgnoresFlags(a: seq<Node>, b: seq<Node>, start: SchemaId)
    requires |a| == |b| && forall i :: 0 <= i < |a| ==> a[i].resolved == b[i].resolved
    ensures Revisits(a, start) <==> Revisits(b, start)
  {
    forall k: nat ensures Chain(a, start, k) == Chain(b, start, k) {
      ChainsAgree(a, b, start, k);
    }
  }

  lemma {:induction false} ChainsAgree(a: seq<Node>, b: seq<Node>, start: SchemaId, k: nat)
    requires |a| == |b| && forall i :: 0 <= i < |a| ==> a[i].resolved == b[i].resolved
    ensures Chain(a, start, k) == Chain(b, start, k)
    decreases k
  {
    if k > 0 {
      ChainsAgree(a, b, start, k - 1);
    }
  }

  // ------------------------------------------------- facts the loops use

  lemma {:induction false} DescendantsConcat(nodes: seq<Node>, a: seq<Entry>, b: seq<Entry>, bound: nat)
    requires Layered(nodes) && bound <= |nodes|
    requires forall k :: 0 <= k < |a| ==> a[k].1 < bound
    requires forall k :: 0 <= k < |b| ==> b[k].1 < bound
    ensures Descendants(nodes, a + b, bound) == Descendants(nodes, a, bound) + Descendants(nodes, b, bound)
    decreases |a|
  {
    if a != [] {
      assert (a + b)[0] == a[0] && (a + b)[1..] == a[1..] + b;
      DescendantsConcat(nodes, a[1..], b, bound);
    } else {
      assert a + b == b;
    }
  }

  /** The loop over the immediate schemas, one more entry. */
  lemma DescendantsSnoc(nodes: seq<Node>, es: seq<Entry>, k: nat, bound: nat)
    requires Layered(nodes) && bound <= |nodes| && k < |es|
    requires forall i :: 0 <= i < |es| ==> es[i].1 < bound
    ensures Descendants(nodes, es[..k + 1], bound) ==
      Descendants(nodes, es[..k], bound) + Under(es[k].0, MapChildSchemas(nodes, es[k].1))
  {
    assert es[..k + 1] == es[..k] + [es[k]];
    DescendantsConcat(nodes, es[..k], [es[k]], bound);
    var single: seq<Entry> := [es[k]];
    assert single[1..] == [];
  }

  /** Once `JsonPointer.Parse` throws, the rest of the worklist is not visited. */
  lemma {:induction false} ThrownSticks(nodes: seq<Node>, s: seq<Entry>, anchors: map<string, string>, w: seq<SchemaId>, k: nat)
    requires forall i :: 0 <= i < |w| ==> w[i] < |nodes|
    requires k <= |w| && ResolveAll(nodes, s, anchors, w[..k]).thrown
    ensures ResolveAll(nodes, s, anchors, w) == ResolveAll(nodes, s, anchors, w[..k])
    decreases |w| - k
  {
    if k < |w| {
      assert w[..k + 1][..k] == w[..k];
      ThrownSticks(nodes, s, anchors, w, k + 1);
    } else {
      assert w[..k] == w;
    }
  }

  /** After a node without a resolved reference the chain stops. */
  lemma {:induction false} ChainEnds(nodes: seq<Node>, start: SchemaId, steps: nat, c: SchemaId, j: nat)
    requires Chain(nodes, start, steps) == Some(c) && Next(nodes, c).None? && steps < j
    ensures Chain(nodes, start, j).None?
    decreases j
  {
    if j > steps + 1 {
      ChainEnds(nodes, start, steps, c, j - 1);
    }
  }

  /** A chain whose first `steps + 1` nodes differ and that stops there does not revisit. */
  lemma NoRevisitAtEnd(nodes: seq<Node>, start: SchemaId, steps: nat, c: SchemaId)
    requires Chain(nodes, start, steps) == Some(c) && Next(nodes, c).None?
    requires forall i, j :: 0 <= i < j <= steps ==> Chain(nodes, start, i) != Chain(nodes, start, j)
    ensures !Revisits(nodes, start)
  {
    forall i, j | 0 <= i < j && Chain(nodes, start, j).Some?
      ensures Chain(nodes, start, i) != Chain(nodes, start, j)
    {
      if j > steps {
        ChainEnds(nodes, start, steps, c, j);
      }
    }
  }

  /** A set of indices below `n` has at most `n` elements. */
  lemma {:induction false} BoundedSetSize(s: set<nat>, n: nat)
    requires forall x :: x in s ==> x < n
    ensures |s| <= n
    decreases n
  {
    if n > 0 {
      BoundedSetSize(s - {n - 1}, n - 1);
    } else {
      assert s == {};
    }
  }

  /**
   * Changing only resolved references, to nodes of the arena, and the
   * unresolved flags keeps the arena well formed.
   */
  lemma StillValid(nodes: seq<Node>, after: seq<Node>)
    requires SchemaNodes.Valid(nodes) && |after| == |nodes|
    requires nodes[TrivialTrueId] == after[TrivialTrueId] && nodes[TrivialFalseId] == after[TrivialFalseId]
    requires forall i :: 0 <= i < |nodes| ==>
      after[i] == nodes[i].(resolved := after[i].resolved, ownsUnresolved := after[i].ownsUnresolved)
    requires forall i :: 0 <= i < |after| && after[i].resolved.Some? ==> after[i].resolved.value < |after|
    ensures SchemaNodes.Valid(after)
  {
    forall i | 0 <= i < |after| ensures NodeValid(after, i) {
      assert NodeValid(nodes, i);
      forall f ensures ChildOwns(after, after[i].immediate, f) == ChildOwns(nodes, nodes[i].immediate, f) {
        var es := nodes[i].immediate;
        if ChildOwns(nodes, es, f) {
          var k :| 0 <= k < |es| && es[k].1 < |nodes| && Owns(nodes[es[k].1], f);
          assert Owns(after[es[k].1], f);
        }
        if ChildOwns(after, es, f) {
          var k :| 0 <= k < |es| && es[k].1 < |after| && Owns(after[es[k].1], f);
          assert Owns(nodes[es[k].1], f);
        }
      }
    }
  }

  /** The singletons are never on a worklist: they hold no reference. */
  lemma SingletonsNotListed(nodes: seq<Node>, root: SchemaId)
    requires SchemaNodes.Valid(nodes) && root < |nodes|
    ensures TrivialTrueId !in Worklist(nodes, root) && TrivialFalseId !in Worklist(nodes, root)
  {
    ValidIsLayered(nodes);
    SchemasInArena(nodes, root);
    WorklistMeaning(nodes, Schemas(nodes, root));
  }

  /** Resolution keeps the arena well formed, whatever its outcome. */
  lemma ResolveKeepsValid(nodes: seq<Node>, root: SchemaId)
    requires SchemaNodes.Valid(nodes) && root < |nodes|
    ensures SchemaNodes.Valid(Resolve(nodes, root).1)
  {
    ValidIsLayered(nodes);
    var s := Schemas(nodes, root);
    SchemasInArena(nodes, root);
    WorklistMeaning(nodes, s);
    var a := MapAnchors(nodes, s);
    var p := ResolveAll(nodes, s, a.anchors, a.worklist);
    ResolveAllFrame(nodes, s, a.anchors, a.worklist);
    SingletonsNotListed(nodes, root);
    ResolveSteps(nodes, root, s, a, p);
    PassKeepsValid(nodes, s, a.worklist, p.nodes);
    if !p.thrown {
      var msgs := a.messages + p.messages + CycleMessages(p.nodes, s);
      SettledKeepsValid(p.nodes, a.worklist, Diagnostics.HasLevel(msgs, Diagnostics.Error));
    }
  }

  /** Committing or rolling back keeps the arena well formed. */
  lemma SettledKeepsValid(q: seq<Node>, w: seq<SchemaId>, failed: bool)
    requires SchemaNodes.Valid(q) && TrivialTrueId !in w && TrivialFalseId !in w
    ensures SchemaNodes.Valid(Settled(q, w, failed))
  {
    var after := Settled(q, w, failed);
    forall i | 0 <= i < |after| && after[i].resolved.Some? ensures after[i].resolved.value < |after| {
      assert NodeValid(q, i);
    }
    StillValid(q, after);
  }

  /** A pass that only points worklist references at listed schemas keeps the arena well formed. */
  lemma PassKeepsValid(nodes: seq<Node>, s: seq<Entry>, w: seq<SchemaId>, q: seq<Node>)
    requires SchemaNodes.Valid(nodes) && InArena(nodes, s) && |q| == |nodes|
    requires TrivialTrueId !in w && TrivialFalseId !in w
    requires forall i :: 0 <= i < |nodes| ==> q[i] == nodes[i].(resolved := q[i].resolved)
    requires forall i :: 0 <= i < |nodes| && i !in w ==> q[i] == nodes[i]
    requires forall i :: 0 <= i < |nodes| && q[i].resolved != nodes[i].resolved ==>
      exists k :: 0 <= k < |s| && q[i].resolved == Some(s[k].1)
    ensures SchemaNodes.Valid(q)
  {
    forall i | 0 <= i < |q| && q[i].resolved.Some? ensures q[i].resolved.value < |q| {
      if q[i].resolved != nodes[i].resolved {
        var k :| 0 <= k < |s| && q[i].resolved == Some(s[k].1);
      } else {
        assert NodeValid(nodes, i);
      }
    }
    StillValid(nodes, q);
  }

  /** A node met twice on the chain: the chain revisits. */
  lemma RepeatRevisits(nodes: seq<Node>, start: SchemaId, path: seq<SchemaId>, current: SchemaId)
    requires Chain(nodes, start, |path|) == Some(current) && current in path
    requires forall i :: 0 <= i < |path| ==> Chain(nodes, start, i) == Some(path[i])
    ensures Revisits(nodes, start)
  {
    var i :| 0 <= i < |path| && path[i] == current;
    assert Chain(nodes, start, i) == Chain(nodes, start, |path|);
  }

  /** The chain visited `path`, all different, then stopped at `current`, met for the first time. */
  lemma EndWithoutRepeat(nodes: seq<Node>, start: SchemaId, path: seq<SchemaId>, current: SchemaId)
    requires current < |nodes| && nodes[current].resolved.None?
    requires Chain(nodes, start, |path|) == Some(current)
    requires forall i :: 0 <= i < |path| ==> Chain(nodes, start, i) == Some(path[i])
    requires forall i, j :: 0 <= i < j < |path| ==> path[i] != path[j]
    requires forall y :: y in path ==> y < |nodes| && nodes[y].resolved.Some?
    ensures !Revisits(nodes, start)
  {
    forall i, j | 0 <= i < j <= |path| ensures Chain(nodes, start, i) != Chain(nodes, start, j) {
      if j < |path| {
        assert path[i] != path[j];
      } else {
        assert path[i] in path;
      }
    }
    NoRevisitAtEnd(nodes, start, |path|, current);
  }

  /** After the resolution pass every resolved reference still names a node of the arena. */
  lemma ResolvedClosed(nodes: seq<Node>, root: SchemaId)
    requires SchemaNodes.Valid(nodes) && root < |nodes|
    ensures Layered(nodes) && InArena(nodes, Schemas(nodes, root))
    ensures var s := Schemas(nodes, root);
      var a := MapAnchors(nodes, s);
      (forall k :: 0 <= k < |a.worklist| ==> a.worklist[k] < |nodes|) &&
      Closed(ResolveAll(nodes, s, a.anchors, a.worklist).nodes)
  {
    ValidIsLayered(nodes);
    var s := Schemas(nodes, root);
    SchemasInArena(nodes, root);
    WorklistMeaning(nodes, s);
    var a := MapAnchors(nodes, s);
    var p := ResolveAll(nodes, s, a.anchors, a.worklist);
    ResolveAllFrame(nodes, s, a.anchors, a.worklist);
    forall i | 0 <= i < |p.nodes|
      ensures Below(p.nodes[i].kw, |p.nodes|) && (p.nodes[i].resolved.Some? ==> p.nodes[i].resolved.value < |p.nodes|)
    {
      assert NodeValid(nodes, i);
      BelowMonotone(nodes[i].kw, i, |nodes|);
      if p.nodes[i].resolved != nodes[i].resolved {
        var k :| 0 <= k < |s| && p.nodes[i].resolved == Some(s[k].1);
      }
    }
  }

  /** The nodes visited so far, one more step along the chain. */
  lemma PathExtends(nodes: seq<Node>, start: SchemaId, path: seq<SchemaId>, current: SchemaId)
    requires Chain(nodes, start, |path|) == Some(current)
    requires forall i :: 0 <= i < |path| ==> Chain(nodes, start, i) == Some(path[i])
    ensures forall i :: 0 <= i < |path + [current]| ==> Chain(nodes, start, i) == Some((path + [current])[i])
    ensures Chain(nodes, start, |path + [current]|) == Next(nodes, current)
  {
  }
}
