/**
 * The core and applicator vocabularies' checks on a freshly read schema:
 * `InitializeCoreBlock` (BasicSchema.Core.cs) and
 * `InitializeApplicatorBlock` (BasicSchema.Applicator.cs). Each logs an
 * error or a warning per malformed keyword and changes nothing else.
 */
module SchemaBlocks {
  import opened Wrappers
  import JsonPointer
  import Diagnostics
  import opened SchemaKeywords
  import opened SchemaValidation

  const ExpectedNonEmptyArray := "At least one item expected."
  const ExpectedRegex := "Regular expression expected."
  const ExpectedUriReference := "URI or relative reference expected."
  const ExpectedAbsoluteUri := "URI expected."
  const NotRecognized := "Value not recognized."
  const NonEmptyFragment := "Non-empty fragments not allowed."
  const ThenElseIgnored := "Conditional then/else schema will be ignored when conditional if schema is not present."
  const IfIgnored := "Conditional if schema will be ignored when conditional then/else schema is not present."

  // ------------------------------------------------------ regular patterns

  /** `[^#]*#?` over the whole string: a '#' may only be the last character. */
  predicate HashOnlyLast(t: string)
  {
    forall i :: 0 <= i < |t| && t[i] == '#' ==> i == |t| - 1
  }

  /**
   * `^[^#]*#?$` as .NET matches it: `$` also matches before a final
   * line feed, so one trailing '\n' is allowed after the optional '#'.
   */
  predicate IdMatches(s: string)
  {
    HashOnlyLast(s) || (|s| > 0 && s[|s| - 1] == '\n' && HashOnlyLast(s[..|s| - 1]))
  }

  predicate AnchorStart(c: char)
  {
    'A' <= c <= 'Z' || 'a' <= c <= 'z' || c == '_'
  }

  predicate AnchorPart(c: char)
  {
    AnchorStart(c) || '0' <= c <= '9' || c == '-' || c == '.'
  }

  /** `[A-Za-z_][-A-Za-z0-9._]*` over the whole string. */
  predicate AnchorName(t: string)
  {
    |t| > 0 && AnchorStart(t[0]) && forall i :: 1 <= i < |t| ==> AnchorPart(t[i])
  }

  /** `^[A-Za-z_][-A-Za-z0-9._]*$`, again with the final line feed `$` lets through. */
  predicate AnchorMatches(s: string)
  {
    AnchorName(s) || (|s| > 0 && s[|s| - 1] == '\n' && AnchorName(s[..|s| - 1]))
  }

  /** Fragments are rejected, a lone trailing '#' is not; nor, through `$`, is "#\n". */
  lemma IdExamples()
    ensures IdMatches("") && IdMatches("https://example.com/root.json") && IdMatches("root.json#")
    ensures !IdMatches("root.json#foo") && !IdMatches("##")
    ensures IdMatches("root.json#\n")
  {
    var s := "root.json#foo";
    assert s[9] == '#';
    assert "##"[0] == '#';
    var t := "root.json#\n";
    assert t[..|t| - 1] == "root.json#";
  }

  /** Plain names pass, a leading digit or an inner space does not; a final line feed is let through. */
  lemma AnchorExamples()
    ensures AnchorMatches("foo") && AnchorMatches("_a-b.c9")
    ensures !AnchorMatches("") && !AnchorMatches("9lives") && !AnchorMatches("a b")
    ensures AnchorMatches("foo\n")
  {
    assert "a b"[1] == ' ';
    assert !AnchorName("a b"[..2]);
    assert "foo\n"[..3] == "foo";
  }

  // ------------------------------------------------------------- core block

  /** The errors about one optional string keyword, in the order the checks run. */
  function UnlessValid(value: Option<string>, valid: string -> bool, text: string, keyword: string): seq<Message>
  {
    When(value.Some? && !valid(value.value), ErrorAt(text, keyword))
  }

  /** `$id`: a URI reference, and without a non-empty fragment. */
  function IdMessages(env: Env, id: Option<string>): seq<Message>
  {
    if id.None? then []
    else
      When(!env.isUriReference(id.value), ErrorAt(ExpectedUriReference, "$id")) +
      When(!IdMatches(id.value), ErrorAt(NonEmptyFragment, "$id"))
  }

  /** One error for each `$vocabulary` key that is not a URI reference, all at `$vocabulary`. */
  function VocabularyMessages(env: Env, keys: seq<string>): seq<Message>
    decreases |keys|
  {
    if keys == [] then []
    else
      VocabularyMessages(env, keys[..|keys| - 1]) +
      When(!env.isUriReference(keys[|keys| - 1]), ErrorAt(ExpectedUriReference, "$vocabulary"))
  }

  /**
   * Everything `InitializeCoreBlock` logs, in order. `$ref` and
   * `$dynamicRef` are checked as URI references but reported with the
   * absolute-URI text, as the source does.
   */
  function CoreMessages(env: Env, c: CoreKeywords): seq<Message>
  {
    IdMessages(env, c.id) +
    UnlessValid(c.schema, env.isAbsoluteUri, ExpectedAbsoluteUri, "$schema") +
    UnlessValid(c.reference, env.isUriReference, ExpectedAbsoluteUri, "$ref") +
    UnlessValid(c.dynamicReference, env.isUriReference, ExpectedAbsoluteUri, "$dynamicRef") +
    UnlessValid(c.anchor, AnchorMatches, NotRecognized, "$anchor") +
    UnlessValid(c.dynamicAnchor, AnchorMatches, NotRecognized, "$dynamicAnchor") +
    VocabularyMessages(env, c.vocabulary)
  }

  method InitializeCoreBlock(log: Diagnostics.Verbose<JsonPointer.Pointer>, env: Env, c: CoreKeywords)
    modifies log
    ensures log.messages == old(log.messages) + CoreMessages(env, c)
  {
    ghost var m0 := log.messages;
    LogIdErrors(log, env, c.id);
    LogReferenceErrors(log, env, c);
    LogAnchorErrors(log, c);
    LogVocabularyErrors(log, env, c.vocabulary);
    CoreMessagesSplit(env, c, m0);
  }

  method LogIdErrors(log: Diagnostics.Verbose<JsonPointer.Pointer>, env: Env, id: Option<string>)
    modifies log
    ensures log.messages == old(log.messages) + IdMessages(env, id)
  {
    if id.Some? {
      ghost var m0 := log.messages;
      LogWhen(log, !env.isUriReference(id.value), ErrorAt(ExpectedUriReference, "$id"));
      LogWhen(log, !IdMatches(id.value), ErrorAt(NonEmptyFragment, "$id"));
      AppendAssoc2(m0, When(!env.isUriReference(id.value), ErrorAt(ExpectedUriReference, "$id")),
        When(!IdMatches(id.value), ErrorAt(NonEmptyFragment, "$id")));
    }
  }

  method LogReferenceErrors(log: Diagnostics.Verbose<JsonPointer.Pointer>, env: Env, c: CoreKeywords)
    modifies log
    ensures log.messages == old(log.messages) +
      (UnlessValid(c.schema, env.isAbsoluteUri, ExpectedAbsoluteUri, "$schema") +
       UnlessValid(c.reference, env.isUriReference, ExpectedAbsoluteUri, "$ref") +
       UnlessValid(c.dynamicReference, env.isUriReference, ExpectedAbsoluteUri, "$dynamicRef"))
  {
    ghost var m0 := log.messages;
    ghost var b1 := UnlessValid(c.schema, env.isAbsoluteUri, ExpectedAbsoluteUri, "$schema");
    ghost var b2 := UnlessValid(c.reference, env.isUriReference, ExpectedAbsoluteUri, "$ref");
    ghost var b3 := UnlessValid(c.dynamicReference, env.isUriReference, ExpectedAbsoluteUri, "$dynamicRef");
    LogWhen(log, c.schema.Some? && !env.isAbsoluteUri(c.schema.value), ErrorAt(ExpectedAbsoluteUri, "$schema"));
    LogWhen(log, c.reference.Some? && !env.isUriReference(c.reference.value), ErrorAt(ExpectedAbsoluteUri, "$ref"));
    AppendAssoc2(m0, b1, b2);
    LogWhen(log, c.dynamicReference.Some? && !env.isUriReference(c.dynamicReference.value),
      ErrorAt(ExpectedAbsoluteUri, "$dynamicRef"));
    AppendAssoc2(m0, b1 + b2, b3);
  }

  method LogAnchorErrors(log: Diagnostics.Verbose<JsonPointer.Pointer>, c: CoreKeywords)
    modifies log
    ensures log.messages == old(log.messages) +
      (UnlessValid(c.anchor, AnchorMatches, NotRecognized, "$anchor") +
       UnlessValid(c.dynamicAnchor, AnchorMatches, NotRecognized, "$dynamicAnchor"))
  {
    ghost var m0 := log.messages;
    LogWhen(log, c.anchor.Some? && !AnchorMatches(c.anchor.value), ErrorAt(NotRecognized, "$anchor"));
    LogWhen(log, c.dynamicAnchor.Some? && !AnchorMatches(c.dynamicAnchor.value), ErrorAt(NotRecognized, "$dynamicAnchor"));
    AppendAssoc2(m0, UnlessValid(c.anchor, AnchorMatches, NotRecognized, "$anchor"),
      UnlessValid(c.dynamicAnchor, AnchorMatches, NotRecognized, "$dynamicAnchor"));
  }

  method LogVocabularyErrors(log: Diagnostics.Verbose<JsonPointer.Pointer>, env: Env, keys: seq<string>)
    modifies log
    ensures log.messages == old(log.messages) + VocabularyMessages(env, keys)
  {
    ghost var m0 := log.messages;
    var i := 0;
    while i < |keys|
      invariant 0 <= i <= |keys|
      invariant log.messages == m0 + VocabularyMessages(env, keys[..i])
    {
      assert keys[..i + 1][..i] == keys[..i];
      LogWhen(log, !env.isUriReference(keys[i]), ErrorAt(ExpectedUriReference, "$vocabulary"));
      i := i + 1;
    }
    assert keys[..i] == keys;
  }

  /** Regroups the seven parts of `CoreMessages` the way `InitializeCoreBlock` appends them. */
  lemma CoreMessagesSplit(env: Env, c: CoreKeywords, m0: seq<Message>)
    ensures m0 + CoreMessages(env, c) ==
      m0 + IdMessages(env, c.id) +
      (UnlessValid(c.schema, env.isAbsoluteUri, ExpectedAbsoluteUri, "$schema") +
       UnlessValid(c.reference, env.isUriReference, ExpectedAbsoluteUri, "$ref") +
       UnlessValid(c.dynamicReference, env.isUriReference, ExpectedAbsoluteUri, "$dynamicRef")) +
      (UnlessValid(c.anchor, AnchorMatches, NotRecognized, "$anchor") +
       UnlessValid(c.dynamicAnchor, AnchorMatches, NotRecognized, "$dynamicAnchor")) +
      VocabularyMessages(env, c.vocabulary)
  {
    var a := IdMessages(env, c.id);
    var b1 := UnlessValid(c.schema, env.isAbsoluteUri, ExpectedAbsoluteUri, "$schema");
    var b2 := UnlessValid(c.reference, env.isUriReference, ExpectedAbsoluteUri, "$ref");
    var b3 := UnlessValid(c.dynamicReference, env.isUriReference, ExpectedAbsoluteUri, "$dynamicRef");
    var d1 := UnlessValid(c.anchor, AnchorMatches, NotRecognized, "$anchor");
    var d2 := UnlessValid(c.dynamicAnchor, AnchorMatches, NotRecognized, "$dynamicAnchor");
    var e := VocabularyMessages(env, c.vocabulary);
    Regroup(m0, a, b1, b2, b3, d1, d2, e);
  }

  lemma Regroup<T>(m: seq<T>, a: seq<T>, b1: seq<T>, b2: seq<T>, b3: seq<T>, d1: seq<T>, d2: seq<T>, e: seq<T>)
    ensures m + (a + b1 + b2 + b3 + d1 + d2 + e) == m + a + (b1 + b2 + b3) + (d1 + d2) + e
  {
  }

  /** The core keywords are well formed. */
  predicate CoreWellFormed(env: Env, c: CoreKeywords)
  {
    (c.id.Some? ==> env.isUriReference(c.id.value) && IdMatches(c.id.value)) &&
    (c.schema.Some? ==> env.isAbsoluteUri(c.schema.value)) &&
    (c.reference.Some? ==> env.isUriReference(c.reference.value)) &&
    (c.dynamicReference.Some? ==> env.isUriReference(c.dynamicReference.value)) &&
    (c.anchor.Some? ==> AnchorMatches(c.anchor.value)) &&
    (c.dynamicAnchor.Some? ==> AnchorMatches(c.dynamicAnchor.value)) &&
    forall i :: 0 <= i < |c.vocabulary| ==> env.isUriReference(c.vocabulary[i])
  }

  predicate AllErrors(s: seq<Message>)
  {
    forall i :: 0 <= i < |s| ==> s[i].level == Diagnostics.Error
  }

  lemma AllErrorsConcat(a: seq<Message>, b: seq<Message>)
    requires AllErrors(a) && AllErrors(b)
    ensures AllErrors(a + b)
  {
    assert forall i :: |a| <= i < |a + b| ==> (a + b)[i] == b[i - |a|];
  }

  lemma {:induction false} VocabularyIff(env: Env, keys: seq<string>)
    ensures AllErrors(VocabularyMessages(env, keys))
    ensures VocabularyMessages(env, keys) == [] <==> forall i :: 0 <= i < |keys| ==> env.isUriReference(keys[i])
    decreases |keys|
  {
    if keys != [] {
      var init := keys[..|keys| - 1];
      VocabularyIff(env, init);
      var tail := When(!env.isUriReference(keys[|keys| - 1]), ErrorAt(ExpectedUriReference, "$vocabulary"));
      AllErrorsConcat(VocabularyMessages(env, init), tail);
      assert forall i :: 0 <= i < |init| ==> init[i] == keys[i];
    }
  }

  /** The core block logs only errors, and logs nothing exactly when the core keywords are well formed. */
  lemma CoreIff(env: Env, c: CoreKeywords)
    ensures AllErrors(CoreMessages(env, c))
    ensures CoreMessages(env, c) == [] <==> CoreWellFormed(env, c)
  {
    var a := IdMessages(env, c.id);
    var b1 := UnlessValid(c.schema, env.isAbsoluteUri, ExpectedAbsoluteUri, "$schema");
    var b2 := UnlessValid(c.reference, env.isUriReference, ExpectedAbsoluteUri, "$ref");
    var b3 := UnlessValid(c.dynamicReference, env.isUriReference, ExpectedAbsoluteUri, "$dynamicRef");
    var d1 := UnlessValid(c.anchor, AnchorMatches, NotRecognized, "$anchor");
    var d2 := UnlessValid(c.dynamicAnchor, AnchorMatches, NotRecognized, "$dynamicAnchor");
    var e := VocabularyMessages(env, c.vocabulary);
    VocabularyIff(env, c.vocabulary);
    AllErrorsConcat(a, b1);
    AllErrorsConcat(a + b1, b2);
    AllErrorsConcat(a + b1 + b2, b3);
    AllErrorsConcat(a + b1 + b2 + b3, d1);
    AllErrorsConcat(a + b1 + b2 + b3 + d1, d2);
    AllErrorsConcat(a + b1 + b2 + b3 + d1 + d2, e);
  }

  // ------------------------------------------------------ applicator block

  /** One error per `patternProperties` key that is not a regular expression, at that key. */
  function PatternMessages(env: Env, named: NamedSlots): seq<Message>
    decreases |named|
  {
    if named == [] then []
    else
      var key := named[|named| - 1].0;
      PatternMessages(env, named[..|named| - 1]) +
      When(!env.isRegex(key), Diagnostics.ConsoleMessage(ExpectedRegex, Diagnostics.Error,
        Some(MemberPointer("patternProperties", key))))
  }

  /** `allOf`, `anyOf` and `oneOf`, when present, must not be empty. */
  function CombinatorMessages(a: ApplicatorKeywords): seq<Message>
  {
    When(a.allOf == Some([]), ErrorAt(ExpectedNonEmptyArray, "allOf")) +
    When(a.anyOf == Some([]), ErrorAt(ExpectedNonEmptyArray, "anyOf")) +
    When(a.oneOf == Some([]), ErrorAt(ExpectedNonEmptyArray, "oneOf"))
  }

  /** A `then`/`else` without `if`, or an `if` without either, is ignored with a warning. */
  function ConditionalMessages(a: ApplicatorKeywords): seq<Message>
  {
    var hasIf, hasThen, hasElse := a.ifSchema.Some?, a.thenSchema.Some?, a.elseSchema.Some?;
    When(!hasIf && (hasThen || hasElse), WarningHere(ThenElseIgnored)) +
    When(hasIf && !hasThen && !hasElse, WarningHere(IfIgnored))
  }

  /** Everything `InitializeApplicatorBlock` logs, in order. */
  function ApplicatorMessages(env: Env, a: ApplicatorKeywords): seq<Message>
  {
    PatternMessages(env, a.patternProperties) + CombinatorMessages(a) + ConditionalMessages(a)
  }

  method InitializeApplicatorBlock(log: Diagnostics.Verbose<JsonPointer.Pointer>, env: Env, a: ApplicatorKeywords)
    modifies log
    ensures log.messages == old(log.messages) + ApplicatorMessages(env, a)
  {
    ghost var m0 := log.messages;
    LogPatternErrors(log, env, a.patternProperties);
    LogCombinatorErrors(log, a);
    LogConditionalWarnings(log, a);
    AppendAssoc2(m0, PatternMessages(env, a.patternProperties), CombinatorMessages(a));
    AppendAssoc2(m0, PatternMessages(env, a.patternProperties) + CombinatorMessages(a), ConditionalMessages(a));
  }

  method LogPatternErrors(log: Diagnostics.Verbose<JsonPointer.Pointer>, env: Env, named: NamedSlots)
    modifies log
    ensures log.messages == old(log.messages) + PatternMessages(env, named)
  {
    ghost var m0 := log.messages;
    var i := 0;
    while i < |named|
      invariant 0 <= i <= |named|
      invariant log.messages == m0 + PatternMessages(env, named[..i])
    {
      assert named[..i + 1][..i] == named[..i];
      LogWhen(log, !env.isRegex(named[i].0), Diagnostics.ConsoleMessage(ExpectedRegex, Diagnostics.Error,
        Some(MemberPointer("patternProperties", named[i].0))));
      i := i + 1;
    }
    assert named[..i] == named;
  }

  method LogCombinatorErrors(log: Diagnostics.Verbose<JsonPointer.Pointer>, a: ApplicatorKeywords)
    modifies log
    ensures log.messages == old(log.messages) + CombinatorMessages(a)
  {
    ghost var m0 := log.messages;
    ghost var c1 := When(a.allOf == Some([]), ErrorAt(ExpectedNonEmptyArray, "allOf"));
    ghost var c2 := When(a.anyOf == Some([]), ErrorAt(ExpectedNonEmptyArray, "anyOf"));
    ghost var c3 := When(a.oneOf == Some([]), ErrorAt(ExpectedNonEmptyArray, "oneOf"));
    LogWhen(log, a.allOf == Some([]), ErrorAt(ExpectedNonEmptyArray, "allOf"));
    LogWhen(log, a.anyOf == Some([]), ErrorAt(ExpectedNonEmptyArray, "anyOf"));
    AppendAssoc2(m0, c1, c2);
    LogWhen(log, a.oneOf == Some([]), ErrorAt(ExpectedNonEmptyArray, "oneOf"));
    AppendAssoc2(m0, c1 + c2, c3);
  }

  method LogConditionalWarnings(log: Diagnostics.Verbose<JsonPointer.Pointer>, a: ApplicatorKeywords)
    modifies log
    ensures log.messages == old(log.messages) + ConditionalMessages(a)
  {
    ghost var m0 := log.messages;
    var hasIf := a.ifSchema.Some?;
    var hasThen := a.thenSchema.Some?;
    var hasElse := a.elseSchema.Some?;
    LogWhen(log, !hasIf && (hasThen || hasElse), WarningHere(ThenElseIgnored));
    LogWhen(log, hasIf && !hasThen && !hasElse, WarningHere(IfIgnored));
    AppendAssoc2(m0, When(!hasIf && (hasThen || hasElse), WarningHere(ThenElseIgnored)),
      When(hasIf && !hasThen && !hasElse, WarningHere(IfIgnored)));
  }

  lemma {:induction false} PatternIff(env: Env, named: NamedSlots)
    ensures AllErrors(PatternMessages(env, named))
    ensures PatternMessages(env, named) == [] <==> forall i :: 0 <= i < |named| ==> env.isRegex(named[i].0)
    decreases |named|
  {
    if named != [] {
      var init := named[..|named| - 1];
      PatternIff(env, init);
      var tail := When(!env.isRegex(named[|named| - 1].0), Diagnostics.ConsoleMessage(ExpectedRegex, Diagnostics.Error,
        Some(MemberPointer("patternProperties", named[|named| - 1].0))));
      AllErrorsConcat(PatternMessages(env, init), tail);
      assert forall i :: 0 <= i < |init| ==> init[i] == named[i];
    }
  }

  /**
   * The applicator block raises an error exactly when a `patternProperties`
   * key is not a regular expression or a combinator list is empty.
   */
  lemma ApplicatorErrorsIff(env: Env, a: ApplicatorKeywords)
    ensures Diagnostics.HasLevel(ApplicatorMessages(env, a), Diagnostics.Error) <==>
      (exists i :: 0 <= i < |a.patternProperties| && !env.isRegex(a.patternProperties[i].0)) ||
      a.allOf == Some([]) || a.anyOf == Some([]) || a.oneOf == Some([])
  {
    var e := Diagnostics.Error;
    var p := PatternMessages(env, a.patternProperties);
    PatternIff(env, a.patternProperties);
    AllErrorsLevel(p);
    WhenLevel3(a.allOf == Some([]), ErrorAt(ExpectedNonEmptyArray, "allOf"),
      a.anyOf == Some([]), ErrorAt(ExpectedNonEmptyArray, "anyOf"),
      a.oneOf == Some([]), ErrorAt(ExpectedNonEmptyArray, "oneOf"), e);
    ConditionalWarnings(a);
    HasLevelConcat(p, CombinatorMessages(a), e);
    HasLevelConcat(p + CombinatorMessages(a), ConditionalMessages(a), e);
  }

  lemma AllErrorsLevel(s: seq<Message>)
    requires AllErrors(s)
    ensures Diagnostics.HasLevel(s, Diagnostics.Error) <==> s != []
  {
    if s != [] {
      assert s[0].level == Diagnostics.Error;
    }
  }

  /** At most one conditional warning: exactly when the `if` and the `then`/`else` keywords do not come together. */
  lemma ConditionalWarnings(a: ApplicatorKeywords)
    ensures |ConditionalMessages(a)| <= 1
    ensures ConditionalMessages(a) != [] <==>
      (a.ifSchema.None? && (a.thenSchema.Some? || a.elseSchema.Some?)) ||
      (a.ifSchema.Some? && a.thenSchema.None? && a.elseSchema.None?)
    ensures !Diagnostics.HasLevel(ConditionalMessages(a), Diagnostics.Error)
  {
  }
}
