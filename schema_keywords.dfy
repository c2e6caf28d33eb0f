/**
 * The keywords a JSON Schema (draft 2020-12) object carries once decoded,
 * grouped as the partial classes of `BasicSchema` group them, and the map
 * of the schemas a schema owns immediately, keyed by their JSON Pointer.
 *
 * Schemas live in an arena (see module SchemaArena) and refer to their
 * sub-schemas by index: a schema-valued property is a `Slot`, `None` being
 * a null reference. Index 0 is the `TrivialTrue` singleton and index 1 the
 * `TrivialFalse` singleton.
 */
module SchemaKeywords {
  import opened Wrappers
  import opened JsonElements
  import JsonPointer

  type SchemaId = nat

  /** A schema-valued property; `None` is null. */
  type Slot = Option<SchemaId>

  /** A dictionary of schemas, in enumeration order. */
  type NamedSlots = seq<(string, Slot)>

  const TrivialTrueId: SchemaId := 0
  const TrivialFalseId: SchemaId := 1

  /** BasicSchema.Core.cs. `$vocabulary` keeps only its keys; the flags are never read. */
  datatype CoreKeywords = CoreKeywords(
    id: Option<string>,
    schema: Option<string>,
    reference: Option<string>,
    anchor: Option<string>,
    dynamicReference: Option<string>,
    dynamicAnchor: Option<string>,
    vocabulary: seq<string>,
    comment: Option<string>,
    definitions: NamedSlots)

  /** BasicSchema.Applicator.cs. */
  datatype ApplicatorKeywords = ApplicatorKeywords(
    prefixItems: seq<Slot>,
    items: Slot,
    contains: Slot,
    additionalProperties: Slot,
    properties: NamedSlots,
    patternProperties: NamedSlots,
    dependentSchemas: NamedSlots,
    propertyNames: Slot,
    ifSchema: Slot,
    thenSchema: Slot,
    elseSchema: Slot,
    allOf: Option<seq<Slot>>,
    anyOf: Option<seq<Slot>>,
    oneOf: Option<seq<Slot>>,
    not: Slot)

  /**
   * BasicSchema.Validation.cs. `schemaType` is the SimpleType flags value
   * (0 is `Missing`), `constant` is `Undefined` when absent, and `pattern`
   * is the source text of the regular expression.
   */
  datatype ValidationKeywords = ValidationKeywords(
    schemaType: bv64,
    constant: JsonValue,
    enumValues: Option<seq<JsonValue>>,
    multipleOf: Option<real>,
    maximum: Option<real>,
    exclusiveMaximum: Option<real>,
    minimum: Option<real>,
    exclusiveMinimum: Option<real>,
    maxLength: Option<int>,
    minLength: int,
    pattern: string,
    maxItems: Option<int>,
    minItems: int,
    uniqueItems: bool,
    maxContains: Option<int>,
    minContains: int,
    maxProperties: Option<int>,
    minProperties: int,
    required: seq<string>,
    dependentRequired: seq<(string, seq<string>)>)

  /**
   * The content, unevaluated and metadata blocks, and the deprecated
   * keywords of BasicSchema.cs (`Undefined` when absent). The string-valued
   * annotations (title, format, ...) are never read and are not kept.
   */
  datatype OtherKeywords = OtherKeywords(
    unevaluatedItems: Slot,
    unevaluatedProperties: Slot,
    contentSchema: Slot,
    examples: seq<JsonValue>,
    deprecatedDefinitions: JsonValue,
    deprecatedDependencies: JsonValue,
    deprecatedRecursiveAnchor: JsonValue,
    deprecatedRecursiveReference: JsonValue)

  datatype Keywords = Keywords(
    core: CoreKeywords,
    applicator: ApplicatorKeywords,
    validation: ValidationKeywords,
    other: OtherKeywords)

  // -------------------------------------------------------------- defaults

  /** The property initialisers. */
  const DefaultCore := CoreKeywords(None, None, None, None, None, None, [], None, [])
  const DefaultValidation := ValidationKeywords(0, Undefined, None, None, None, None, None, None,
    None, 0, "", None, 0, false, None, 1, None, 0, [], [])

  /** What `{}` decodes to: `items`, `additionalProperties`, `propertyNames` and `contentSchema` are `TrivialTrue`. */
  const DefaultKeywords := Keywords(
    DefaultCore,
    ApplicatorKeywords([], Some(TrivialTrueId), None, Some(TrivialTrueId), [], [], [], Some(TrivialTrueId),
      None, None, None, None, None, None, None),
    DefaultValidation,
    OtherKeywords(None, None, Some(TrivialTrueId), [], Undefined, Undefined, Undefined, Undefined))

  /**
   * The keywords of the two singletons. They are constructed while
   * `TrivialTrue` is still null, so their `TrivialTrue`-initialised slots are null.
   */
  const TrivialKeywords := Keywords(
    DefaultCore,
    ApplicatorKeywords([], None, None, None, [], [], [], None, None, None, None, None, None, None, None),
    DefaultValidation,
    OtherKeywords(None, None, None, [], Undefined, Undefined, Undefined, Undefined))

  // ------------------------------------------------------------ references

  predicate StartsWithHash(s: string)
  {
    |s| > 0 && s[0] == '#'
  }

  /** `IsLocalStaticReference`: `$ref` is present and starts with '#'. */
  predicate IsLocalStaticReference(c: CoreKeywords)
  {
    c.reference.Some? && StartsWithHash(c.reference.value)
  }

  /** `IsLocalDynamicReference`: `$dynamicRef` is present and starts with '#'. */
  predicate IsLocalDynamicReference(c: CoreKeywords)
  {
    c.dynamicReference.Some? && StartsWithHash(c.dynamicReference.value)
  }

  /** `IsExternalReference`: either reference is present and does not start with '#'. */
  predicate IsExternalReference(c: CoreKeywords)
  {
    (c.reference.Some? && !StartsWithHash(c.reference.value)) ||
    (c.dynamicReference.Some? && !StartsWithHash(c.dynamicReference.value))
  }

  /** A present reference is either local or external, never both. */
  lemma ReferenceKinds(c: CoreKeywords)
    ensures c.reference.Some? ==> (IsLocalStaticReference(c) <==> !(c.reference.Some? && !StartsWithHash(c.reference.value)))
    ensures c.reference.None? && c.dynamicReference.None? ==>
      !IsLocalStaticReference(c) && !IsLocalDynamicReference(c) && !IsExternalReference(c)
    ensures IsLocalStaticReference(c) && IsLocalDynamicReference(c) ==> !IsExternalReference(c)
  {
  }

  // ---------------------------------------------------------- pointers

  /** A keyword name: neither '~' nor '/', so escaping leaves it unchanged. */
  predicate PlainName(name: string)
  {
    '~' !in name && '/' !in name
  }

  /**
   * `s_jsonPointers[...]`: the one-token pointer to a keyword, holding the
   * name as it is; `KeywordPointerEscaped` shows this is `new JsonPointer(name)`.
   */
  function KeywordPointer(name: string): (p: JsonPointer.Pointer)
    ensures p.Length() == 1 && p.tokens[0] == name
  {
    JsonPointer.Pointer([name])
  }

  lemma KeywordPointerEscaped(name: string)
    requires PlainName(name)
    ensures KeywordPointer(name) == JsonPointer.FromTokens([name])
    ensures KeywordPointer(name).Valid() && KeywordPointer(name).At(0) == Ok(name)
  {
    JsonPointer.EscapedPlain(name);
    assert JsonPointer.FromTokens([name]).tokens[0] == name;
  }

  /** `int.ToString()` for a non-negative number. */
  function DecimalText(n: nat): (r: string)
    ensures |r| >= 1
    ensures forall i :: 0 <= i < |r| ==> '0' <= r[i] <= '9'
  {
    if n < 10 then [(48 + n) as char]
    else DecimalText(n / 10) + [(48 + n % 10) as char]
  }

  /** Different numbers have different decimal texts. */
  lemma {:induction false} DecimalTextInjective(m: nat, n: nat)
    requires DecimalText(m) == DecimalText(n)
    ensures m == n
    decreases m
  {
    var a, b := DecimalText(m), DecimalText(n);
    if m >= 10 && n >= 10 {
      assert a[..|a| - 1] == DecimalText(m / 10) && b[..|b| - 1] == DecimalText(n / 10);
      DecimalTextInjective(m / 10, n / 10);
      assert a[|a| - 1] == b[|b| - 1];
    }
  }

  /** `s_jsonPointers[name] + new JsonPointer(token)`. */
  function MemberPointer(name: string, token: string): (p: JsonPointer.Pointer)
    ensures p.Length() == 2 && p.tokens[0] == name
  {
    JsonPointer.Compose(KeywordPointer(name), JsonPointer.FromTokens([token]))
  }

  lemma MemberPointerEscaped(name: string, token: string)
    requires PlainName(name)
    ensures MemberPointer(name, token).Valid()
    ensures MemberPointer(name, token).At(0) == Ok(name) && MemberPointer(name, token).At(1) == Ok(token)
  {
    KeywordPointerEscaped(name);
  }

  lemma DecimalTextExamples()
    ensures DecimalText(0) == "0" && DecimalText(7) == "7" && DecimalText(42) == "42"
  {
  }

  // ------------------------------------------------- immediate schemas

  /** An immediately owned schema and the pointer to it, relative to its owner. */
  type Entry = (JsonPointer.Pointer, SchemaId)

  /** The schema-valued properties (`s_schemaGetters`), in the order the model fixes. */
  function SingleSlots(kw: Keywords): seq<(string, Slot)>
  {
    var a := kw.applicator;
    var o := kw.other;
    [("items", a.items), ("contains", a.contains), ("additionalProperties", a.additionalProperties),
     ("propertyNames", a.propertyNames), ("if", a.ifSchema), ("then", a.thenSchema),
     ("else", a.elseSchema), ("not", a.not), ("unevaluatedItems", o.unevaluatedItems),
     ("unevaluatedProperties", o.unevaluatedProperties), ("contentSchema", o.contentSchema)]
  }

  /** The values of the single slots, in the same order. */
  function SingleValues(kw: Keywords): (r: seq<Slot>)
    ensures |r| == 11
  {
    var a := kw.applicator;
    var o := kw.other;
    [a.items, a.contains, a.additionalProperties, a.propertyNames, a.ifSchema, a.thenSchema,
     a.elseSchema, a.not, o.unevaluatedItems, o.unevaluatedProperties, o.contentSchema]
  }

  /** The list-valued properties (`s_collectinGetters`); `prefixItems` is never null. */
  function ListSlots(kw: Keywords): seq<(string, Option<seq<Slot>>)>
  {
    var a := kw.applicator;
    [("prefixItems", Some(a.prefixItems)), ("allOf", a.allOf), ("anyOf", a.anyOf), ("oneOf", a.oneOf)]
  }

  /** The dictionary-valued properties (`s_dictionaryGetters`). */
  function MapSlots(kw: Keywords): seq<(string, NamedSlots)>
  {
    var a := kw.applicator;
    [("properties", a.properties), ("patternProperties", a.patternProperties),
     ("dependentSchemas", a.dependentSchemas), ("$defs", kw.core.definitions)]
  }

  /** The non-null single slots, each under its keyword. */
  function SingleEntries(slots: seq<(string, Slot)>): seq<Entry>
    decreases |slots|
  {
    if slots == [] then []
    else
      var last := slots[|slots| - 1];
      SingleEntries(slots[..|slots| - 1]) +
      (if last.1.Some? then [(KeywordPointer(last.0), last.1.value)] else [])
  }

  /** The non-null items of one list; the index token counts the non-null items before it. */
  function ListEntries(name: string, items: seq<Slot>): seq<Entry>
    decreases |items|
  {
    if items == [] then []
    else
      var init := ListEntries(name, items[..|items| - 1]);
      var last := items[|items| - 1];
      init + (if last.Some? then [(MemberPointer(name, DecimalText(|init|)), last.value)] else [])
  }

  function ListsEntries(lists: seq<(string, Option<seq<Slot>>)>): seq<Entry>
    decreases |lists|
  {
    if lists == [] then []
    else
      var last := lists[|lists| - 1];
      ListsEntries(lists[..|lists| - 1]) + (if last.1.Some? then ListEntries(last.0, last.1.value) else [])
  }

  /** The non-null members of one dictionary, each under its key. */
  function MapEntries(name: string, named: NamedSlots): seq<Entry>
    decreases |named|
  {
    if named == [] then []
    else
      var last := named[|named| - 1];
      MapEntries(name, named[..|named| - 1]) +
      (if last.1.Some? then [(MemberPointer(name, last.0), last.1.value)] else [])
  }

  function MapsEntries(maps: seq<(string, NamedSlots)>): seq<Entry>
    decreases |maps|
  {
    if maps == [] then []
    else
      var last := maps[|maps| - 1];
      MapsEntries(maps[..|maps| - 1]) + MapEntries(last.0, last.1)
  }

  /** `InitializeImmediateSchemas`: single slots, then lists, then dictionaries. */
  function Immediate(kw: Keywords): seq<Entry>
  {
    SingleEntries(SingleSlots(kw)) + ListsEntries(ListSlots(kw)) + MapsEntries(MapSlots(kw))
  }

  /** `InitializeImmediateSchemas` as written: one loop per kind of property, skipping nulls. */
  method InitializeImmediateSchemas(kw: Keywords) returns (schemaMap: seq<Entry>)
    ensures schemaMap == Immediate(kw)
  {
    schemaMap := AddSingles(SingleSlots(kw));
    schemaMap := AddLists(schemaMap, ListSlots(kw));
    schemaMap := AddMaps(schemaMap, MapSlots(kw));
  }

  /** The loop over `s_schemaGetters`. */
  method AddSingles(singles: seq<(string, Slot)>) returns (schemaMap: seq<Entry>)
    ensures schemaMap == SingleEntries(singles)
  {
    schemaMap := [];
    var i := 0;
    while i < |singles|
      invariant 0 <= i <= |singles|
      invariant schemaMap == SingleEntries(singles[..i])
    {
      assert singles[..i + 1][..i] == singles[..i];
      if singles[i].1.Some? {
        schemaMap := schemaMap + [(KeywordPointer(singles[i].0), singles[i].1.value)];
      }
      i := i + 1;
    }
    assert singles[..i] == singles;
  }

  /** The loop over `s_collectinGetters`. */
  method AddLists(lead: seq<Entry>, lists: seq<(string, Option<seq<Slot>>)>) returns (schemaMap: seq<Entry>)
    ensures schemaMap == lead + ListsEntries(lists)
  {
    schemaMap := lead;
    var i := 0;
    while i < |lists|
      invariant 0 <= i <= |lists|
      invariant schemaMap == lead + ListsEntries(lists[..i])
    {
      assert lists[..i + 1][..i] == lists[..i];
      if lists[i].1.Some? {
        schemaMap := AddList(schemaMap, lists[i].0, lists[i].1.value);
      }
      i := i + 1;
    }
    assert lists[..i] == lists;
  }

  /** One list: `index` counts the non-null items added so far. */
  method AddList(lead: seq<Entry>, name: string, schemas: seq<Slot>) returns (schemaMap: seq<Entry>)
    ensures schemaMap == lead + ListEntries(name, schemas)
  {
    schemaMap := lead;
    var index := 0;
    var j := 0;
    while j < |schemas|
      invariant 0 <= j <= |schemas|
      invariant schemaMap == lead + ListEntries(name, schemas[..j])
      invariant index == |ListEntries(name, schemas[..j])|
    {
      assert schemas[..j + 1][..j] == schemas[..j];
      if schemas[j].Some? {
        schemaMap := schemaMap + [(MemberPointer(name, DecimalText(index)), schemas[j].value)];
        index := index + 1;
      }
      j := j + 1;
    }
    assert schemas[..j] == schemas;
  }

  /** The loop over `s_dictionaryGetters`. */
  method AddMaps(lead: seq<Entry>, maps: seq<(string, NamedSlots)>) returns (schemaMap: seq<Entry>)
    ensures schemaMap == lead + MapsEntries(maps)
  {
    schemaMap := lead;
    var i := 0;
    while i < |maps|
      invariant 0 <= i <= |maps|
      invariant schemaMap == lead + MapsEntries(maps[..i])
    {
      assert maps[..i + 1][..i] == maps[..i];
      schemaMap := AddMap(schemaMap, maps[i].0, maps[i].1);
      i := i + 1;
    }
    assert maps[..i] == maps;
  }

  /** One dictionary, in its enumeration order. */
  method AddMap(lead: seq<Entry>, name: string, named: NamedSlots) returns (schemaMap: seq<Entry>)
    ensures schemaMap == lead + MapEntries(name, named)
  {
    schemaMap := lead;
    var j := 0;
    while j < |named|
      invariant 0 <= j <= |named|
      invariant schemaMap == lead + MapEntries(name, named[..j])
    {
      assert named[..j + 1][..j] == named[..j];
      if named[j].1.Some? {
        schemaMap := schemaMap + [(MemberPointer(name, named[j].0), named[j].1.value)];
      }
      j := j + 1;
    }
    assert named[..j] == named;
  }

  // ----------------------------------------------------------- children

  function SlotIds(s: seq<Slot>): set<SchemaId>
  {
    set i | 0 <= i < |s| && s[i].Some? :: s[i].value
  }

  function NamedIds(m: NamedSlots): set<SchemaId>
  {
    set i | 0 <= i < |m| && m[i].1.Some? :: m[i].1.value
  }

  function ListIds(l: Option<seq<Slot>>): set<SchemaId>
  {
    if l.Some? then SlotIds(l.value) else {}
  }

  /** Every non-null schema a schema refers to through its properties. */
  function Children(kw: Keywords): set<SchemaId>
  {
    var a := kw.applicator;
    SlotIds(SingleValues(kw)) + SlotIds(a.prefixItems) + ListIds(a.allOf) + ListIds(a.anyOf) + ListIds(a.oneOf) +
    NamedIds(a.properties) + NamedIds(a.patternProperties) + NamedIds(a.dependentSchemas) +
    NamedIds(kw.core.definitions)
  }

  function EntryIds(es: seq<Entry>): set<SchemaId>
  {
    set i | 0 <= i < |es| :: es[i].1
  }

  lemma EntryIdsSingle(e: Entry)
    ensures EntryIds([e]) == {e.1}
  {
    assert [e][0].1 == e.1;
  }

  lemma EntryIdsConcat(a: seq<Entry>, b: seq<Entry>)
    ensures EntryIds(a + b) == EntryIds(a) + EntryIds(b)
  {
    var ab := a + b;
    forall x | x in EntryIds(ab) ensures x in EntryIds(a) + EntryIds(b) {
      var i :| 0 <= i < |ab| && ab[i].1 == x;
      if i >= |a| {
        assert b[i - |a|].1 == x;
      }
    }
    forall x | x in EntryIds(a) + EntryIds(b) ensures x in EntryIds(ab) {
      if x in EntryIds(a) {
        var i :| 0 <= i < |a| && a[i].1 == x;
        assert ab[i].1 == x;
      } else {
        var i :| 0 <= i < |b| && b[i].1 == x;
        assert ab[|a| + i].1 == x;
      }
    }
  }

  lemma SlotIdsSnoc(s: seq<Slot>)
    requires s != []
    ensures SlotIds(s) == SlotIds(s[..|s| - 1]) + (if s[|s| - 1].Some? then {s[|s| - 1].value} else {})
  {
    var init := s[..|s| - 1];
    forall x | x in SlotIds(s) ensures x in SlotIds(init) + (if s[|s| - 1].Some? then {s[|s| - 1].value} else {}) {
      var i :| 0 <= i < |s| && s[i].Some? && s[i].value == x;
      if i < |s| - 1 {
        assert init[i] == s[i];
      }
    }
    forall x | x in SlotIds(init) ensures x in SlotIds(s) {
      var i :| 0 <= i < |init| && init[i].Some? && init[i].value == x;
      assert s[i] == init[i];
    }
  }

  lemma NamedIdsSnoc(m: NamedSlots)
    requires m != []
    ensures NamedIds(m) == NamedIds(m[..|m| - 1]) + (if m[|m| - 1].1.Some? then {m[|m| - 1].1.value} else {})
  {
    var init := m[..|m| - 1];
    forall x | x in NamedIds(m) ensures x in NamedIds(init) + (if m[|m| - 1].1.Some? then {m[|m| - 1].1.value} else {}) {
      var i :| 0 <= i < |m| && m[i].1.Some? && m[i].1.value == x;
      if i < |m| - 1 {
        assert init[i] == m[i];
      }
    }
    forall x | x in NamedIds(init) ensures x in NamedIds(m) {
      var i :| 0 <= i < |init| && init[i].1.Some? && init[i].1.value == x;
      assert m[i] == init[i];
    }
  }

  lemma {:induction false} SingleEntriesIds(slots: seq<(string, Slot)>)
    ensures EntryIds(SingleEntries(slots)) == SlotIds(seq(|slots|, i requires 0 <= i < |slots| => slots[i].1))
    decreases |slots|
  {
    var values := seq(|slots|, i requires 0 <= i < |slots| => slots[i].1);
    if slots != [] {
      var init := slots[..|slots| - 1];
      var last := slots[|slots| - 1];
      SingleEntriesIds(init);
      assert values[..|values| - 1] == seq(|init|, i requires 0 <= i < |init| => init[i].1);
      SlotIdsSnoc(values);
      EntryIdsConcat(SingleEntries(init), if last.1.Some? then [(KeywordPointer(last.0), last.1.value)] else []);
    }
  }

  lemma {:induction false} ListEntriesIds(name: string, items: seq<Slot>)
    ensures EntryIds(ListEntries(name, items)) == SlotIds(items)
    decreases |items|
  {
    if items != [] {
      var init := ListEntries(name, items[..|items| - 1]);
      var last := items[|items| - 1];
      ListEntriesIds(name, items[..|items| - 1]);
      SlotIdsSnoc(items);
      var tail := if last.Some? then [(MemberPointer(name, DecimalText(|init|)), last.value)] else [];
      assert ListEntries(name, items) == init + tail;
      if last.Some? {
        EntryIdsSingle(tail[0]);
      }
      EntryIdsConcat(init, tail);
    }
  }

  lemma {:induction false} MapEntriesIds(name: string, named: NamedSlots)
    ensures EntryIds(MapEntries(name, named)) == NamedIds(named)
    decreases |named|
  {
    if named != [] {
      var last := named[|named| - 1];
      MapEntriesIds(name, named[..|named| - 1]);
      NamedIdsSnoc(named);
      var tail := if last.1.Some? then [(MemberPointer(name, last.0), last.1.value)] else [];
      assert MapEntries(name, named) == MapEntries(name, named[..|named| - 1]) + tail;
      if last.1.Some? {
        EntryIdsSingle(tail[0]);
      }
      EntryIdsConcat(MapEntries(name, named[..|named| - 1]), tail);
    }
  }

  lemma ListsEntriesIds4(lists: seq<(string, Option<seq<Slot>>)>)
    requires |lists| == 4
    ensures EntryIds(ListsEntries(lists)) ==
      ListIds(lists[0].1) + ListIds(lists[1].1) + ListIds(lists[2].1) + ListIds(lists[3].1)
  {
    var l1, l2, l3 := lists[..1], lists[..2], lists[..3];
    assert lists[..4] == lists && l1[..0] == [] && l2[..1] == l1 && l3[..2] == l2 && lists[..3] == l3;
    forall k | 0 <= k < 4
      ensures EntryIds(if lists[k].1.Some? then ListEntries(lists[k].0, lists[k].1.value) else []) == ListIds(lists[k].1)
    {
      if lists[k].1.Some? {
        ListEntriesIds(lists[k].0, lists[k].1.value);
      }
    }
    assert ListsEntries(l1) == [] + (if lists[0].1.Some? then ListEntries(lists[0].0, lists[0].1.value) else []);
    EntryIdsConcat([], if lists[0].1.Some? then ListEntries(lists[0].0, lists[0].1.value) else []);
    EntryIdsConcat(ListsEntries(l1), if lists[1].1.Some? then ListEntries(lists[1].0, lists[1].1.value) else []);
    EntryIdsConcat(ListsEntries(l2), if lists[2].1.Some? then ListEntries(lists[2].0, lists[2].1.value) else []);
    EntryIdsConcat(ListsEntries(l3), if lists[3].1.Some? then ListEntries(lists[3].0, lists[3].1.value) else []);
  }

  lemma MapsEntriesIds4(maps: seq<(string, NamedSlots)>)
    requires |maps| == 4
    ensures EntryIds(MapsEntries(maps)) ==
      NamedIds(maps[0].1) + NamedIds(maps[1].1) + NamedIds(maps[2].1) + NamedIds(maps[3].1)
  {
    var m1, m2, m3 := maps[..1], maps[..2], maps[..3];
    assert maps[..4] == maps && m1[..0] == [] && m2[..1] == m1 && m3[..2] == m2 && maps[..3] == m3;
    forall k | 0 <= k < 4 ensures EntryIds(MapEntries(maps[k].0, maps[k].1)) == NamedIds(maps[k].1) {
      MapEntriesIds(maps[k].0, maps[k].1);
    }
    assert MapsEntries(m1) == [] + MapEntries(maps[0].0, maps[0].1);
    assert MapsEntries(m2) == MapsEntries(m1) + MapEntries(maps[1].0, maps[1].1);
    assert MapsEntries(m3) == MapsEntries(m2) + MapEntries(maps[2].0, maps[2].1);
    assert MapsEntries(maps) == MapsEntries(m3) + MapEntries(maps[3].0, maps[3].1);
    EntryIdsConcat([], MapEntries(maps[0].0, maps[0].1));
    EntryIdsConcat(MapsEntries(m1), MapEntries(maps[1].0, maps[1].1));
    EntryIdsConcat(MapsEntries(m2), MapEntries(maps[2].0, maps[2].1));
    EntryIdsConcat(MapsEntries(m3), MapEntries(maps[3].0, maps[3].1));
  }

  /** The immediate schemas are exactly the non-null schema-valued properties. */
  lemma ImmediateIsChildren(kw: Keywords)
    ensures EntryIds(Immediate(kw)) == Children(kw)
  {
    var singles := SingleSlots(kw);
    SingleEntriesIds(singles);
    assert seq(|singles|, i requires 0 <= i < |singles| => singles[i].1) == SingleValues(kw);
    ListsEntriesIds4(ListSlots(kw));
    MapsEntriesIds4(MapSlots(kw));
    EntryIdsConcat(SingleEntries(singles), ListsEntries(ListSlots(kw)));
    EntryIdsConcat(SingleEntries(singles) + ListsEntries(ListSlots(kw)), MapsEntries(MapSlots(kw)));
  }

  /** The k-th entry of a list is addressed by the number k: null items are skipped and not counted. */
  lemma {:induction false} ListEntriesIndices(name: string, items: seq<Slot>)
    ensures |ListEntries(name, items)| == |SlotIndices(items)|
    ensures forall k :: 0 <= k < |ListEntries(name, items)| ==>
      ListEntries(name, items)[k] == (MemberPointer(name, DecimalText(k)), items[SlotIndices(items)[k]].value)
    decreases |items|
  {
    if items != [] {
      var init, last := items[..|items| - 1], items[|items| - 1];
      ListEntriesIndices(name, init);
      var e0, i0 := ListEntries(name, init), SlotIndices(init);
      var e, ix := ListEntries(name, items), SlotIndices(items);
      assert e == e0 + (if last.Some? then [(MemberPointer(name, DecimalText(|e0|)), last.value)] else []);
      assert ix == i0 + (if last.Some? then [|items| - 1] else []);
      forall k | 0 <= k < |e| ensures e[k] == (MemberPointer(name, DecimalText(k)), items[ix[k]].value) {
        if k < |e0| {
          assert e[k] == e0[k] && ix[k] == i0[k];
          SlotIndicesBound(init, k);
          assert items[i0[k]] == init[i0[k]];
        } else {
          assert ix[k] == |items| - 1;
        }
      }
    }
  }

  /** The positions of the non-null items. */
  function SlotIndices(items: seq<Slot>): (r: seq<nat>)
    ensures forall k :: 0 <= k < |r| ==> r[k] < |items| && items[r[k]].Some?
    decreases |items|
  {
    if items == [] then []
    else SlotIndices(items[..|items| - 1]) + (if items[|items| - 1].Some? then [|items| - 1] else [])
  }

  lemma SlotIndicesBound(items: seq<Slot>, k: nat)
    requires k < |SlotIndices(items)|
    ensures SlotIndices(items)[k] < |items|
  {
  }

  /** Every key is a valid pointer of one or two tokens whose first token names the keyword. */
  lemma {:induction false} ImmediatePointers(kw: Keywords)
    ensures forall e :: e in Immediate(kw) ==> e.0.Valid() && 1 <= e.0.Length() <= 2
  {
    SlotNamesPlain(kw);
    SingleEntriesPointers(SingleSlots(kw));
    ListsEntriesPointers(ListSlots(kw));
    MapsEntriesPointers(MapSlots(kw));
    var es := Immediate(kw);
    assert ShortPointers(es);
    forall e | e in es ensures e.0.Valid() && 1 <= e.0.Length() <= 2 {
      var i :| 0 <= i < |es| && es[i] == e;
    }
  }

  predicate NamesPlain<T>(slots: seq<(string, T)>)
  {
    forall i :: 0 <= i < |slots| ==> PlainName(slots[i].0)
  }

  /** The keyword names that address immediate schemas need no escaping. */
  lemma SlotNamesPlain(kw: Keywords)
    ensures NamesPlain(SingleSlots(kw)) && NamesPlain(ListSlots(kw)) && NamesPlain(MapSlots(kw))
  {
    SingleSlotNamesPlain(kw);
  }

  lemma SingleSlotNamesPlain(kw: Keywords)
    ensures NamesPlain(SingleSlots(kw))
  {
  }

  predicate ShortPointers(es: seq<Entry>)
  {
    forall i :: 0 <= i < |es| ==> es[i].0.Valid() && 1 <= es[i].0.Length() <= 2
  }

  lemma ShortPointersConcat(a: seq<Entry>, b: seq<Entry>)
    requires ShortPointers(a) && ShortPointers(b)
    ensures ShortPointers(a + b)
  {
    assert forall i :: |a| <= i < |a + b| ==> (a + b)[i] == b[i - |a|];
  }

  lemma {:induction false} SingleEntriesPointers(slots: seq<(string, Slot)>)
    requires NamesPlain(slots)
    ensures ShortPointers(SingleEntries(slots))
    decreases |slots|
  {
    if slots != [] {
      var init := slots[..|slots| - 1];
      var last := slots[|slots| - 1];
      assert NamesPlain(init) by {
        assert forall i :: 0 <= i < |init| ==> init[i] == slots[i];
      }
      SingleEntriesPointers(init);
      KeywordPointerEscaped(last.0);
      ShortPointersConcat(SingleEntries(init), if last.1.Some? then [(KeywordPointer(last.0), last.1.value)] else []);
    }
  }

  lemma {:induction false} ListEntriesPointers(name: string, items: seq<Slot>)
    requires PlainName(name)
    ensures ShortPointers(ListEntries(name, items))
    decreases |items|
  {
    if items != [] {
      var init := ListEntries(name, items[..|items| - 1]);
      var last := items[|items| - 1];
      ListEntriesPointers(name, items[..|items| - 1]);
      MemberPointerEscaped(name, DecimalText(|init|));
      ShortPointersConcat(init, if last.Some? then [(MemberPointer(name, DecimalText(|init|)), last.value)] else []);
    }
  }

  lemma {:induction false} ListsEntriesPointers(lists: seq<(string, Option<seq<Slot>>)>)
    requires NamesPlain(lists)
    ensures ShortPointers(ListsEntries(lists))
    decreases |lists|
  {
    if lists != [] {
      var init := lists[..|lists| - 1];
      assert NamesPlain(init) by {
        assert forall i :: 0 <= i < |init| ==> init[i] == lists[i];
      }
      ListsEntriesPointers(init);
      var last := lists[|lists| - 1];
      if last.1.Some? {
        ListEntriesPointers(last.0, last.1.value);
        ShortPointersConcat(ListsEntries(init), ListEntries(last.0, last.1.value));
      } else {
        assert ListsEntries(lists) == ListsEntries(init) + [];
        ShortPointersConcat(ListsEntries(init), []);
      }
    }
  }

  lemma {:induction false} MapEntriesPointers(name: string, named: NamedSlots)
    requires PlainName(name)
    ensures ShortPointers(MapEntries(name, named))
    decreases |named|
  {
    if named != [] {
      var last := named[|named| - 1];
      MapEntriesPointers(name, named[..|named| - 1]);
      MemberPointerEscaped(name, last.0);
      ShortPointersConcat(MapEntries(name, named[..|named| - 1]),
        if last.1.Some? then [(MemberPointer(name, last.0), last.1.value)] else []);
    }
  }

  lemma {:induction false} MapsEntriesPointers(maps: seq<(string, NamedSlots)>)
    requires NamesPlain(maps)
    ensures ShortPointers(MapsEntries(maps))
    decreases |maps|
  {
    if maps != [] {
      var init := maps[..|maps| - 1];
      assert NamesPlain(init) by {
        assert forall i :: 0 <= i < |init| ==> init[i] == maps[i];
      }
      MapsEntriesPointers(init);
      var last := maps[|maps| - 1];
      MapEntriesPointers(last.0, last.1);
      ShortPointersConcat(MapsEntries(init), MapEntries(last.0, last.1));
    }
  }

  lemma EntryIdsEmpty(es: seq<Entry>)
    ensures EntryIds(es) == {} <==> es == []
  {
    if es != [] {
      assert es[0].1 in EntryIds(es);
    }
  }

  lemma NoIds()
    ensures SlotIds([]) == {} && NamedIds([]) == {} && ListIds(None) == {}
  {
  }

  /** The singletons own no schema. */
  lemma ImmediateOfTrivial()
    ensures Immediate(TrivialKeywords) == []
  {
    var t: seq<Slot> := [None, None, None, None, None, None, None, None, None, None, None];
    assert SlotIds(t) == {} && SingleValues(TrivialKeywords) == t;
    NoIds();
    assert Children(TrivialKeywords) == {};
    ImmediateIsChildren(TrivialKeywords);
    EntryIdsEmpty(Immediate(TrivialKeywords));
  }

  /** Every schema `{}` owns is `TrivialTrue`. */
  lemma ImmediateOfDefaults()
    ensures EntryIds(Immediate(DefaultKeywords)) == {TrivialTrueId}
  {
    var d: seq<Slot> := [Some(TrivialTrueId), None, Some(TrivialTrueId), Some(TrivialTrueId), None, None, None, None, None, None, Some(TrivialTrueId)];
    assert d[0].Some? && d[0].value == TrivialTrueId;
    assert SlotIds(d) == {TrivialTrueId} && SingleValues(DefaultKeywords) == d;
    NoIds();
    assert Children(DefaultKeywords) == {TrivialTrueId};
    ImmediateIsChildren(DefaultKeywords);
  }

  // ---------------------------------------------------- arena bounds

  predicate SlotBelow(s: Slot, bound: nat)
  {
    s.Some? ==> s.value < bound
  }

  predicate SlotsBelow(s: seq<Slot>, bound: nat)
  {
    forall i :: 0 <= i < |s| ==> SlotBelow(s[i], bound)
  }

  predicate ListBelow(l: Option<seq<Slot>>, bound: nat)
  {
    l.Some? ==> SlotsBelow(l.value, bound)
  }

  predicate NamedBelow(m: NamedSlots, bound: nat)
  {
    forall i :: 0 <= i < |m| ==> SlotBelow(m[i].1, bound)
  }

  /** Every schema the keywords refer to has an index below `bound`. */
  predicate Below(kw: Keywords, bound: nat)
  {
    var a := kw.applicator;
    SlotsBelow(SingleValues(kw), bound) && SlotsBelow(a.prefixItems, bound) && ListBelow(a.allOf, bound) && ListBelow(a.anyOf, bound) &&
    ListBelow(a.oneOf, bound) && NamedBelow(a.properties, bound) && NamedBelow(a.patternProperties, bound) &&
    NamedBelow(a.dependentSchemas, bound) && NamedBelow(kw.core.definitions, bound)
  }

  lemma SlotsBelowIff(s: seq<Slot>, bound: nat)
    ensures SlotsBelow(s, bound) <==> AllBelow(SlotIds(s), bound)
  {
    if AllBelow(SlotIds(s), bound) {
      forall i | 0 <= i < |s| ensures SlotBelow(s[i], bound) {
        if s[i].Some? {
          assert s[i].value in SlotIds(s);
        }
      }
    }
  }

  lemma NamedBelowIff(m: NamedSlots, bound: nat)
    ensures NamedBelow(m, bound) <==> AllBelow(NamedIds(m), bound)
  {
    if AllBelow(NamedIds(m), bound) {
      forall i | 0 <= i < |m| ensures SlotBelow(m[i].1, bound) {
        if m[i].1.Some? {
          assert m[i].1.value in NamedIds(m);
        }
      }
    }
  }

  predicate AllBelow(ids: set<SchemaId>, bound: nat)
  {
    forall c :: c in ids ==> c < bound
  }

  lemma ListBelowIff(l: Option<seq<Slot>>, bound: nat)
    ensures ListBelow(l, bound) <==> AllBelow(ListIds(l), bound)
  {
    if l.Some? {
      SlotsBelowIff(l.value, bound);
    }
  }

  lemma AllBelowUnion(a: set<SchemaId>, b: set<SchemaId>, bound: nat)
    ensures AllBelow(a + b, bound) <==> AllBelow(a, bound) && AllBelow(b, bound)
  {
  }

  /** `Below` says exactly that every child is below the bound. */
  lemma BelowIffChildren(kw: Keywords, bound: nat)
    ensures Below(kw, bound) <==> AllBelow(Children(kw), bound)
  {
    var a := kw.applicator;
    SlotsBelowIff(SingleValues(kw), bound);
    SlotsBelowIff(a.prefixItems, bound);
    ListBelowIff(a.allOf, bound);
    ListBelowIff(a.anyOf, bound);
    ListBelowIff(a.oneOf, bound);
    NamedBelowIff(a.properties, bound);
    NamedBelowIff(a.patternProperties, bound);
    NamedBelowIff(a.dependentSchemas, bound);
    NamedBelowIff(kw.core.definitions, bound);
    var s1 := SlotIds(SingleValues(kw)) + SlotIds(a.prefixItems);
    var s2 := s1 + ListIds(a.allOf);
    var s3 := s2 + ListIds(a.anyOf);
    var s4 := s3 + ListIds(a.oneOf);
    var s5 := s4 + NamedIds(a.properties);
    var s6 := s5 + NamedIds(a.patternProperties);
    var s7 := s6 + NamedIds(a.dependentSchemas);
    AllBelowUnion(SlotIds(SingleValues(kw)), SlotIds(a.prefixItems), bound);
    AllBelowUnion(s1, ListIds(a.allOf), bound);
    AllBelowUnion(s2, ListIds(a.anyOf), bound);
    AllBelowUnion(s3, ListIds(a.oneOf), bound);
    AllBelowUnion(s4, NamedIds(a.properties), bound);
    AllBelowUnion(s5, NamedIds(a.patternProperties), bound);
    AllBelowUnion(s6, NamedIds(a.dependentSchemas), bound);
    AllBelowUnion(s7, NamedIds(kw.core.definitions), bound);
  }
}
