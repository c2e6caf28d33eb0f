/**
 * The validation vocabulary of `BasicSchema` (BasicSchema.Validation.cs):
 * numeric bounds, the tests a number or a string must pass, `enum`/`const`,
 * the count of declared types, and the messages `InitializeValidationBlock`
 * logs for malformed keyword values.
 *
 * Doubles are exact reals here. The decoder never produces a non-finite
 * number, so the "Finite number expected." branches cannot be taken and are
 * not part of the message sequences.
 */
module SchemaValidation {
  import opened Wrappers
  import opened JsonElements
  import JsonExtenders
  import JsonPointer
  import MiscExtenders
  import SimpleTypes
  import Diagnostics
  import opened SchemaKeywords

  type Message = Diagnostics.ConsoleMessage<JsonPointer.Pointer>

  /** Regular expressions and URIs are library calls outside the model, passed in as oracles. */
  datatype Env = Env(
    isRegex: string -> bool,
    regexMatch: (string, string) -> bool,
    isUriReference: string -> bool,
    isAbsoluteUri: string -> bool,
    rawText: JsonValue -> string)

  /** `new Regex(pattern).IsMatch(s)`; the empty pattern matches every string. */
  predicate PatternMatches(env: Env, pattern: string, s: string)
  {
    pattern == "" || env.regexMatch(pattern, s)
  }

  function ErrorAt(text: string, keyword: string): Message
  {
    Diagnostics.ConsoleMessage(text, Diagnostics.Error, Some(KeywordPointer(keyword)))
  }

  function ErrorHere(text: string): Message
  {
    Diagnostics.ConsoleMessage(text, Diagnostics.Error, None)
  }

  function WarningHere(text: string): Message
  {
    Diagnostics.ConsoleMessage(text, Diagnostics.Warning, None)
  }

  function When(condition: bool, m: Message): seq<Message>
  {
    if condition then [m] else []
  }

  const ExpectedPositive := "Positive number expected."
  const ExpectedNonNegative := "Non-negative number expected."
  const ExpectedDistinctItems := "Distinct items expected."

  // ----------------------------------------------------------------- bounds

  datatype Bound = Bound(value: real, exclusive: bool)

  /** `TryGetLowerBound`: the more restrictive of `minimum` and `exclusiveMinimum`; the exclusive one wins a tie. */
  function TryGetLowerBound(v: ValidationKeywords): (r: Option<Bound>)
    ensures r.None? <==> v.minimum.None? && v.exclusiveMinimum.None?
    ensures r.Some? && r.value.exclusive ==> v.exclusiveMinimum == Some(r.value.value)
    ensures r.Some? && !r.value.exclusive ==> v.minimum == Some(r.value.value)
  {
    if v.minimum.Some? then
      if v.exclusiveMinimum.None? || v.minimum.value > v.exclusiveMinimum.value then Some(Bound(v.minimum.value, false))
      else Some(Bound(v.exclusiveMinimum.value, true))
    else if v.exclusiveMinimum.Some? then Some(Bound(v.exclusiveMinimum.value, true))
    else None
  }

  /** `TryGetUpperBound`: the more restrictive of `maximum` and `exclusiveMaximum`; the exclusive one wins a tie. */
  function TryGetUpperBound(v: ValidationKeywords): (r: Option<Bound>)
    ensures r.None? <==> v.maximum.None? && v.exclusiveMaximum.None?
    ensures r.Some? && r.value.exclusive ==> v.exclusiveMaximum == Some(r.value.value)
    ensures r.Some? && !r.value.exclusive ==> v.maximum == Some(r.value.value)
  {
    if v.maximum.Some? then
      if v.exclusiveMaximum.None? || v.maximum.value < v.exclusiveMaximum.value then Some(Bound(v.maximum.value, false))
      else Some(Bound(v.exclusiveMaximum.value, true))
    else if v.exclusiveMaximum.Some? then Some(Bound(v.exclusiveMaximum.value, true))
    else None
  }

  /** How `TryValidate` tests a value against a lower bound. */
  predicate AboveLower(x: real, b: Option<Bound>)
  {
    b.Some? ==> !(x < b.value.value) && !(b.value.exclusive && x == b.value.value)
  }

  predicate BelowUpper(x: real, b: Option<Bound>)
  {
    b.Some? ==> !(x > b.value.value) && !(b.value.exclusive && x == b.value.value)
  }

  /** What the four keywords mean, read independently. */
  predicate LowerKeywordsHold(v: ValidationKeywords, x: real)
  {
    (v.minimum.Some? ==> x >= v.minimum.value) && (v.exclusiveMinimum.Some? ==> x > v.exclusiveMinimum.value)
  }

  predicate UpperKeywordsHold(v: ValidationKeywords, x: real)
  {
    (v.maximum.Some? ==> x <= v.maximum.value) && (v.exclusiveMaximum.Some? ==> x < v.exclusiveMaximum.value)
  }

  /** The single bound `TryGetLowerBound` picks accepts exactly what both lower keywords accept. */
  lemma LowerBoundMeaning(v: ValidationKeywords, x: real)
    ensures AboveLower(x, TryGetLowerBound(v)) <==> LowerKeywordsHold(v, x)
  {
  }

  lemma UpperBoundMeaning(v: ValidationKeywords, x: real)
    ensures BelowUpper(x, TryGetUpperBound(v)) <==> UpperKeywordsHold(v, x)
  {
  }

  // ---------------------------------------------------------------- numbers

  /** `value % multipleOf == 0` (a NaN remainder when `multipleOf` is zero fails the test). */
  predicate IsMultiple(x: real, m: real)
  {
    m != 0.0 && (x / m).Floor as real == x / m
  }

  /** A multiple is an integer number of times the divisor, and every such number is a multiple. */
  lemma MultipleMeaning(x: real, m: real, k: int)
    ensures IsMultiple(x, m) ==> x == (x / m).Floor as real * m
    ensures m != 0.0 && x == k as real * m ==> IsMultiple(x, m)
  {
    if m != 0.0 && x == k as real * m {
      assert x / m == k as real;
    }
  }

  /** `TryValidate(double)`. */
  predicate TryValidateNumber(v: ValidationKeywords, x: real)
  {
    (v.multipleOf.Some? ==> IsMultiple(x, v.multipleOf.value)) &&
    AboveLower(x, TryGetLowerBound(v)) &&
    BelowUpper(x, TryGetUpperBound(v))
  }

  /** `TryValidate(long)`: the same tests on the integer's exact value (the source converts it to a double first). */
  predicate TryValidateInteger(v: ValidationKeywords, i: int)
  {
    TryValidateNumber(v, i as real)
  }

  /** A number passes exactly when it is a multiple and satisfies each bound keyword. */
  lemma NumberMeaning(v: ValidationKeywords, x: real)
    ensures TryValidateNumber(v, x) <==>
      (v.multipleOf.Some? ==> IsMultiple(x, v.multipleOf.value)) &&
      LowerKeywordsHold(v, x) && UpperKeywordsHold(v, x)
  {
    LowerBoundMeaning(v, x);
    UpperBoundMeaning(v, x);
  }

  /** A long whose tests pass exactly when the keywords, read independently, hold for it. */
  lemma IntegerMeaning(v: ValidationKeywords, i: int)
    ensures TryValidateInteger(v, i) <==>
      (v.multipleOf.Some? ==> IsMultiple(i as real, v.multipleOf.value)) &&
      LowerKeywordsHold(v, i as real) && UpperKeywordsHold(v, i as real)
  {
    NumberMeaning(v, i as real);
  }

  /** For a whole divisor, `value % multipleOf != 0` is the integer remainder test. */
  lemma IntegerMultiple(i: int, k: int)
    requires k != 0
    ensures IsMultiple(i as real, k as real) <==> i % k == 0
  {
    if i % k == 0 {
      assert i == (i / k) * k;
      MultipleMeaning(i as real, k as real, i / k);
    }
    if IsMultiple(i as real, k as real) {
      var q := (i as real / k as real).Floor;
      MultipleMeaning(i as real, k as real, q);
      assert i == q * k;
      assert i % k == 0 by {
        MultipleRemainder(i, k, q);
      }
    }
  }

  /** The Euclidean remainder of an exact multiple is zero. */
  lemma MultipleRemainder(i: int, k: int, q: int)
    requires k != 0 && i == q * k
    ensures i % k == 0
  {
    var r, d := i % k, q - i / k;
    assert i == (i / k) * k + r;
    assert d * k == q * k - (i / k) * k;
    assert d * k == r;
  }

  /** The UTF-16 code units of one character: two for a character outside the Basic Multilingual Plane. */
  function Utf16Units(c: char): nat
  {
    if c as int < 0x1_0000 then 1 else 2
  }

  /** `string.Length`: the number of UTF-16 code units. */
  function Utf16Length(s: string): (n: nat)
    ensures |s| <= n <= 2 * |s|
    ensures n == |s| <==> forall i :: 0 <= i < |s| ==> s[i] as int < 0x1_0000
  {
    if s == [] then 0
    else
      var init := s[..|s| - 1];
      assert forall i :: 0 <= i < |init| ==> init[i] == s[i];
      Utf16Length(init) + Utf16Units(s[|s| - 1])
  }

  /** Lengths of a concatenation add up. */
  lemma {:induction false} Utf16Concat(a: string, b: string)
    ensures Utf16Length(a + b) == Utf16Length(a) + Utf16Length(b)
    decreases |b|
  {
    if b == [] {
      assert a + b == a;
    } else {
      assert (a + b)[..|a + b| - 1] == a + b[..|b| - 1];
      Utf16Concat(a, b[..|b| - 1]);
    }
  }

  /** `TryValidate(string)`: the length in UTF-16 code units, then the pattern. */
  predicate TryValidateString(env: Env, v: ValidationKeywords, s: string)
  {
    Utf16Length(s) >= v.minLength &&
    (v.maxLength.Some? ==> Utf16Length(s) <= v.maxLength.value) &&
    PatternMatches(env, v.pattern, s)
  }

  /**
   * A string passes only when the pattern matches and its character count
   * fits the bounds up to surrogate pairs; for text in the Basic
   * Multilingual Plane the bounds are on the character count itself.
   */
  lemma StringMeaning(env: Env, v: ValidationKeywords, s: string)
    ensures TryValidateString(env, v, s) ==>
      PatternMatches(env, v.pattern, s) && v.minLength <= 2 * |s| &&
      (v.maxLength.Some? ==> |s| <= v.maxLength.value)
    ensures (forall i :: 0 <= i < |s| ==> s[i] as int < 0x1_0000) ==>
      (TryValidateString(env, v, s) <==>
        v.minLength <= |s| && (v.maxLength.Some? ==> |s| <= v.maxLength.value) && PatternMatches(env, v.pattern, s))
  {
  }

  /** One character outside the Basic Multilingual Plane is two code units: it exceeds `maxLength` 1. */
  lemma AstralCharacterCountsTwice(env: Env, v: ValidationKeywords)
    requires v.maxLength == Some(1)
    ensures !TryValidateString(env, v, "\U{1F600}")
  {
    var s := "\U{1F600}";
    assert s[..0] == [];
  }

  // ------------------------------------------------------------ permissible

  /** `IsPermissible`: against `const` when present, else against `enum` when present. */
  predicate Permissible(v: ValidationKeywords, value: JsonValue)
  {
    if v.constant.Undefined? then
      v.enumValues.None? ||
      exists i :: 0 <= i < |v.enumValues.value| && JsonExtenders.Equivalent(value, v.enumValues.value[i])
    else JsonExtenders.Equivalent(value, v.constant)
  }

  /** `IsPermissible` as written: a loop over `enum` that stops at the first equivalent value. */
  method IsPermissible(v: ValidationKeywords, value: JsonValue) returns (r: bool)
    ensures r == Permissible(v, value)
  {
    if v.constant.Undefined? {
      if v.enumValues.None? {
        return true;
      }
      var values := v.enumValues.value;
      var i := 0;
      while i < |values|
        invariant 0 <= i <= |values|
        invariant forall j :: 0 <= j < i ==> !JsonExtenders.Equivalent(value, values[j])
      {
        var e := JsonExtenders.IsEquivalent(value, values[i]);
        if e {
          return true;
        }
        i := i + 1;
      }
      return false;
    }
    r := JsonExtenders.IsEquivalent(value, v.constant);
  }

  /** An empty `enum` without `const` admits nothing; without either everything is admitted. */
  lemma PermissibleExtremes(v: ValidationKeywords, value: JsonValue)
    ensures v.constant.Undefined? && v.enumValues == Some([]) ==> !Permissible(v, value)
    ensures v.constant.Undefined? && v.enumValues.None? ==> Permissible(v, value)
    ensures !v.constant.Undefined? ==> Permissible(v, v.constant)
  {
    if !v.constant.Undefined? {
      JsonExtenders.EquivalentReflexive(v.constant);
    }
  }

  // ------------------------------------------------------------------ types

  /** `(type & x) != Missing`. */
  predicate Declares(t: bv64, x: SimpleTypes.SimpleType)
  {
    t & SimpleTypes.Bit(x) != 0
  }

  /** The named members whose bit is set in `t`, in `Enum.GetValues` order. */
  function DeclaredTypes(t: bv64): (r: seq<SimpleTypes.SimpleType>)
  {
    DeclaredAmong(SimpleTypes.AllTypes(), t)
  }

  function DeclaredAmong(ts: seq<SimpleTypes.SimpleType>, t: bv64): (r: seq<SimpleTypes.SimpleType>)
    ensures |r| <= |ts|
    ensures forall x :: x in r <==> x in ts && Declares(t, x)
    decreases |ts|
  {
    if ts == [] then []
    else
      var init := DeclaredAmong(ts[..|ts| - 1], t);
      assert ts == ts[..|ts| - 1] + [ts[|ts| - 1]];
      init + (if Declares(t, ts[|ts| - 1]) then [ts[|ts| - 1]] else [])
  }

  /** `TypeCount`: the number of flags set, counted over `Enum.GetValues`. */
  method TypeCount(v: ValidationKeywords) returns (count: int)
    ensures count == |DeclaredTypes(v.schemaType)|
  {
    count := 0;
    var all := SimpleTypes.AllTypes();
    var i := 0;
    while i < |all|
      invariant 0 <= i <= |all|
      invariant count == |DeclaredAmong(all[..i], v.schemaType)|
    {
      assert all[..i + 1][..i] == all[..i];
      if Declares(v.schemaType, all[i]) {
        count := count + 1;
      }
      i := i + 1;
    }
    assert all[..i] == all;
  }

  /** `Missing` declares no type and at most seven are declared. */
  lemma TypeCountBounds(t: bv64)
    ensures |DeclaredTypes(t)| <= 7
    ensures DeclaredTypes(0) == []
  {
    NoneDeclared(SimpleTypes.AllTypes());
  }

  lemma {:induction false} NoneDeclared(ts: seq<SimpleTypes.SimpleType>)
    ensures DeclaredAmong(ts, 0) == []
    decreases |ts|
  {
    if ts != [] {
      NoneDeclared(ts[..|ts| - 1]);
      assert !Declares(0, ts[|ts| - 1]);
    }
  }

  /** `"type": "integer"` declares exactly one type. */
  lemma TypeCountSingle()
    ensures DeclaredTypes(SimpleTypes.Bit(SimpleTypes.Integer)) == [SimpleTypes.Integer]
  {
    var t := SimpleTypes.Bit(SimpleTypes.Integer);
    var all := SimpleTypes.AllTypes();
    assert !Declares(t, SimpleTypes.Array) && !Declares(t, SimpleTypes.Boolean) && Declares(t, SimpleTypes.Integer);
    assert !Declares(t, SimpleTypes.Null) && !Declares(t, SimpleTypes.Number);
    assert !Declares(t, SimpleTypes.Object) && !Declares(t, SimpleTypes.String);
    var p1 := [SimpleTypes.Array];
    var p2 := p1 + [SimpleTypes.Boolean];
    var p3 := p2 + [SimpleTypes.Integer];
    var p4 := p3 + [SimpleTypes.Null];
    var p5 := p4 + [SimpleTypes.Number];
    var p6 := p5 + [SimpleTypes.Object];
    assert all == p6 + [SimpleTypes.String];
    assert p1[..0] == [] && p2[..1] == p1 && p3[..2] == p2 && p4[..3] == p3 && p5[..4] == p4 && p6[..5] == p5;
    assert DeclaredAmong(p1, t) == [];
    assert DeclaredAmong(p2, t) == [];
    assert DeclaredAmong(p3, t) == [SimpleTypes.Integer];
    assert DeclaredAmong(p4, t) == [SimpleTypes.Integer];
    assert DeclaredAmong(p5, t) == [SimpleTypes.Integer];
    assert DeclaredAmong(p6, t) == [SimpleTypes.Integer];
    assert (p6 + [SimpleTypes.String])[..6] == p6;
  }

  // -------------------------------------------------- block messages

  const MaxLengthBelowMin := "Maximum length cannot exceed minimum length."
  const MaxItemsBelowMin := "Maximum number of items cannot exceed minimum number of items."
  const MaxContainsIgnored := "Maximum number of \"contains\" will be ignored: \"contains\" schema is not present."
  const MinContainsIgnored := "Minimum number of \"contains\" will be ignored: \"contains\" schema is not present."
  const MaxContainsBelowMin := "Maximum number of contains cannot exceed minimum number of contains."
  const MaxPropertiesBelowMin := "Maximum number of properties cannot exceed minimum number of properties."

  /** `multipleOf` must be positive. */
  function MultipleOfMessages(v: ValidationKeywords): seq<Message>
  {
    When(v.multipleOf.Some? && v.multipleOf.value <= 0.0, ErrorAt(ExpectedPositive, "multipleOf"))
  }

  /** `ValidateLowerBound`: one warning when both lower keywords are present. */
  function LowerBoundMessages(v: ValidationKeywords): seq<Message>
  {
    if v.minimum.None? || v.exclusiveMinimum.None? then []
    else if v.minimum.value > v.exclusiveMinimum.value then
      [WarningHere("Exclusive minimum will be ignored as minimum is more restrictive.")]
    else [WarningHere("Minimum will be ignored as exclusive minimum is more restrictive.")]
  }

  /** `ValidateUpperBound`: one warning when both upper keywords are present. */
  function UpperBoundMessages(v: ValidationKeywords): seq<Message>
  {
    if v.maximum.None? || v.exclusiveMaximum.None? then []
    else if v.maximum.value < v.exclusiveMaximum.value then
      [WarningHere("Exclusive maximum will be ignored as maximum is more restrictive.")]
    else [WarningHere("Maximum will be ignored as exclusive maximum is more restrictive.")]
  }

  /** `ValidateInterval`: an error when the two effective bounds leave no value. */
  function IntervalMessages(v: ValidationKeywords): seq<Message>
  {
    var lower := TryGetLowerBound(v);
    var upper := TryGetUpperBound(v);
    if lower.None? || upper.None? || lower.value.value < upper.value.value then []
    else if lower.value.value > upper.value.value then [ErrorHere("Lower bound cannot exceed upper bound.")]
    else When(lower.value.exclusive || upper.value.exclusive, ErrorHere("Bounds result in no acceptable values."))
  }

  function StringCountMessages(v: ValidationKeywords): seq<Message>
  {
    When(v.maxLength.Some? && v.maxLength.value < 0, ErrorAt(ExpectedNonNegative, "maxLength")) +
    When(v.minLength < 0, ErrorAt(ExpectedNonNegative, "minLength")) +
    When(v.maxLength.Some? && v.maxLength.value < v.minLength, ErrorHere(MaxLengthBelowMin))
  }

  function ItemCountMessages(v: ValidationKeywords): seq<Message>
  {
    When(v.maxItems.Some? && v.maxItems.value < 0, ErrorAt(ExpectedNonNegative, "maxItems")) +
    When(v.minItems < 0, ErrorAt(ExpectedNonNegative, "minItems")) +
    When(v.maxItems.Some? && v.maxItems.value < v.minItems, ErrorHere(MaxItemsBelowMin))
  }

  /** The `contains` counts; the two warnings say a count is given without a `contains` schema. */
  function ContainsCountMessages(v: ValidationKeywords, hasContains: bool): seq<Message>
  {
    When(v.maxContains.Some? && v.maxContains.value < 0, ErrorAt(ExpectedNonNegative, "maxContains")) +
    When(v.maxContains.Some? && !hasContains, WarningHere(MaxContainsIgnored)) +
    When(v.minContains < 0, ErrorAt(ExpectedNonNegative, "minContains")) +
    When(v.minContains > 1 && !hasContains, WarningHere(MinContainsIgnored)) +
    When(v.maxContains.Some? && v.maxContains.value < v.minContains, ErrorHere(MaxContainsBelowMin))
  }

  function PropertyCountMessages(v: ValidationKeywords): seq<Message>
  {
    When(v.maxProperties.Some? && v.maxProperties.value < 0, ErrorAt(ExpectedNonNegative, "maxProperties")) +
    When(v.minProperties < 0, ErrorAt(ExpectedNonNegative, "minProperties")) +
    When(v.maxProperties.Some? && v.maxProperties.value < v.minProperties, ErrorHere(MaxPropertiesBelowMin))
  }

  /** The length, item, contains and property counts: non-negative, and maximum not below minimum. */
  function CountMessages(v: ValidationKeywords, hasContains: bool): seq<Message>
  {
    StringCountMessages(v) + ItemCountMessages(v) + ContainsCountMessages(v, hasContains) + PropertyCountMessages(v)
  }

  /** The error logged for a list of names with a repetition, at `at`. */
  ghost function DistinctMessages(names: seq<string>, at: JsonPointer.Pointer): (r: seq<Message>)
    ensures r == [] <==> MiscExtenders.Distinct(names)
  {
    if MiscExtenders.Distinct(names) then []
    else [Diagnostics.ConsoleMessage(ExpectedDistinctItems, Diagnostics.Error, Some(at))]
  }

  /** One error per `dependentRequired` list with a repeated name, at that list. */
  ghost function DependentRequiredMessages(deps: seq<(string, seq<string>)>): seq<Message>
    decreases |deps|
  {
    if deps == [] then []
    else
      var last := deps[|deps| - 1];
      DependentRequiredMessages(deps[..|deps| - 1]) + DistinctMessages(last.1, MemberPointer("dependentRequired", last.0))
  }

  ghost function RequiredMessages(v: ValidationKeywords): seq<Message>
  {
    DistinctMessages(v.required, KeywordPointer("required")) + DependentRequiredMessages(v.dependentRequired)
  }

  /** Everything `InitializeValidationBlock` logs, in order. */
  ghost function ValidationMessages(v: ValidationKeywords, hasContains: bool): seq<Message>
  {
    MultipleOfMessages(v) + LowerBoundMessages(v) + UpperBoundMessages(v) + IntervalMessages(v) +
    CountMessages(v, hasContains) + RequiredMessages(v)
  }

  // ---------------------------------------------------- block methods

  /** `InitializeValidationBlock`; `hasContains` says whether the `contains` schema is present. */
  method InitializeValidationBlock(log: Diagnostics.Verbose<JsonPointer.Pointer>, v: ValidationKeywords, hasContains: bool)
    modifies log
    ensures log.messages == old(log.messages) + ValidationMessages(v, hasContains)
  {
    ghost var m0 := log.messages;
    LogWhen(log, v.multipleOf.Some? && v.multipleOf.value <= 0.0, ErrorAt(ExpectedPositive, "multipleOf"));
    ValidateLowerBound(log, v);
    ValidateUpperBound(log, v);
    ghost var m1 := log.messages;
    ValidateInterval(log, v);
    ValidateCounts(log, v, hasContains);
    ValidateRequired(log, v);
    AppendAssoc3(m0, MultipleOfMessages(v), LowerBoundMessages(v), UpperBoundMessages(v));
    AppendAssoc3(m1, IntervalMessages(v), CountMessages(v, hasContains), RequiredMessages(v));
    AppendAssoc2(m0, MultipleOfMessages(v) + LowerBoundMessages(v) + UpperBoundMessages(v),
      IntervalMessages(v) + CountMessages(v, hasContains) + RequiredMessages(v));
    AppendAssoc3(MultipleOfMessages(v) + LowerBoundMessages(v) + UpperBoundMessages(v),
      IntervalMessages(v), CountMessages(v, hasContains), RequiredMessages(v));
  }

  lemma AppendAssoc2<T>(m: seq<T>, a: seq<T>, b: seq<T>)
    ensures m + a + b == m + (a + b)
  {
  }

  lemma AppendAssoc3<T>(m: seq<T>, a: seq<T>, b: seq<T>, c: seq<T>)
    ensures m + a + b + c == m + (a + b + c)
  {
  }

  method ValidateLowerBound(log: Diagnostics.Verbose<JsonPointer.Pointer>, v: ValidationKeywords)
    modifies log
    ensures log.messages == old(log.messages) + LowerBoundMessages(v)
  {
    if v.minimum.None? || v.exclusiveMinimum.None? {
      return;
    }
    if v.minimum.value > v.exclusiveMinimum.value {
      log.Log("Exclusive minimum will be ignored as minimum is more restrictive.", Diagnostics.Warning, None);
    } else {
      log.Log("Minimum will be ignored as exclusive minimum is more restrictive.", Diagnostics.Warning, None);
    }
  }

  method ValidateUpperBound(log: Diagnostics.Verbose<JsonPointer.Pointer>, v: ValidationKeywords)
    modifies log
    ensures log.messages == old(log.messages) + UpperBoundMessages(v)
  {
    if v.maximum.None? || v.exclusiveMaximum.None? {
      return;
    }
    if v.maximum.value < v.exclusiveMaximum.value {
      log.Log("Exclusive maximum will be ignored as maximum is more restrictive.", Diagnostics.Warning, None);
    } else {
      log.Log("Maximum will be ignored as exclusive maximum is more restrictive.", Diagnostics.Warning, None);
    }
  }

  method ValidateInterval(log: Diagnostics.Verbose<JsonPointer.Pointer>, v: ValidationKeywords)
    modifies log
    ensures log.messages == old(log.messages) + IntervalMessages(v)
  {
    var lower := TryGetLowerBound(v);
    if lower.None? {
      return;
    }
    var upper := TryGetUpperBound(v);
    if upper.None? {
      return;
    }
    if lower.value.value < upper.value.value {
      return;
    }
    if lower.value.value > upper.value.value {
      log.Log("Lower bound cannot exceed upper bound.", Diagnostics.Error, None);
      return;
    }
    if lower.value.exclusive || upper.value.exclusive {
      log.Log("Bounds result in no acceptable values.", Diagnostics.Error, None);
    }
  }

  /** `if (condition) Log(...)`. */
  method LogWhen(log: Diagnostics.Verbose<JsonPointer.Pointer>, condition: bool, m: Message)
    modifies log
    ensures log.messages == old(log.messages) + When(condition, m)
  {
    if condition {
      log.LogMessage(m);
    }
  }

  method ValidateCounts(log: Diagnostics.Verbose<JsonPointer.Pointer>, v: ValidationKeywords, hasContains: bool)
    modifies log
    ensures log.messages == old(log.messages) + CountMessages(v, hasContains)
  {
    ghost var m0 := log.messages;
    ValidateStringCounts(log, v);
    ValidateItemCounts(log, v);
    ValidateContainsCounts(log, v, hasContains);
    ValidatePropertyCounts(log, v);
    AppendAssoc2(m0, StringCountMessages(v), ItemCountMessages(v));
    AppendAssoc2(m0, StringCountMessages(v) + ItemCountMessages(v), ContainsCountMessages(v, hasContains));
    AppendAssoc2(m0, StringCountMessages(v) + ItemCountMessages(v) + ContainsCountMessages(v, hasContains),
      PropertyCountMessages(v));
  }

  method ValidateStringCounts(log: Diagnostics.Verbose<JsonPointer.Pointer>, v: ValidationKeywords)
    modifies log
    ensures log.messages == old(log.messages) + StringCountMessages(v)
  {
    LogWhen(log, v.maxLength.Some? && v.maxLength.value < 0, ErrorAt(ExpectedNonNegative, "maxLength"));
    LogWhen(log, v.minLength < 0, ErrorAt(ExpectedNonNegative, "minLength"));
    LogWhen(log, v.maxLength.Some? && v.maxLength.value < v.minLength, ErrorHere(MaxLengthBelowMin));
  }

  method ValidateItemCounts(log: Diagnostics.Verbose<JsonPointer.Pointer>, v: ValidationKeywords)
    modifies log
    ensures log.messages == old(log.messages) + ItemCountMessages(v)
  {
    LogWhen(log, v.maxItems.Some? && v.maxItems.value < 0, ErrorAt(ExpectedNonNegative, "maxItems"));
    LogWhen(log, v.minItems < 0, ErrorAt(ExpectedNonNegative, "minItems"));
    LogWhen(log, v.maxItems.Some? && v.maxItems.value < v.minItems, ErrorHere(MaxItemsBelowMin));
  }

  method ValidateContainsCounts(log: Diagnostics.Verbose<JsonPointer.Pointer>, v: ValidationKeywords, hasContains: bool)
    modifies log
    ensures log.messages == old(log.messages) + ContainsCountMessages(v, hasContains)
  {
    ghost var m0 := log.messages;
    ghost var a := When(v.maxContains.Some? && v.maxContains.value < 0, ErrorAt(ExpectedNonNegative, "maxContains"));
    ghost var b := When(v.maxContains.Some? && !hasContains, WarningHere(MaxContainsIgnored));
    ghost var c := When(v.minContains < 0, ErrorAt(ExpectedNonNegative, "minContains"));
    ghost var d := When(v.minContains > 1 && !hasContains, WarningHere(MinContainsIgnored));
    ghost var e := When(v.maxContains.Some? && v.maxContains.value < v.minContains, ErrorHere(MaxContainsBelowMin));
    LogWhen(log, v.maxContains.Some? && v.maxContains.value < 0, ErrorAt(ExpectedNonNegative, "maxContains"));
    LogWhen(log, v.maxContains.Some? && !hasContains, WarningHere(MaxContainsIgnored));
    AppendAssoc2(m0, a, b);
    LogWhen(log, v.minContains < 0, ErrorAt(ExpectedNonNegative, "minContains"));
    AppendAssoc2(m0, a + b, c);
    LogWhen(log, v.minContains > 1 && !hasContains, WarningHere(MinContainsIgnored));
    AppendAssoc2(m0, a + b + c, d);
    LogWhen(log, v.maxContains.Some? && v.maxContains.value < v.minContains, ErrorHere(MaxContainsBelowMin));
    AppendAssoc2(m0, a + b + c + d, e);
  }

  method ValidatePropertyCounts(log: Diagnostics.Verbose<JsonPointer.Pointer>, v: ValidationKeywords)
    modifies log
    ensures log.messages == old(log.messages) + PropertyCountMessages(v)
  {
    LogWhen(log, v.maxProperties.Some? && v.maxProperties.value < 0, ErrorAt(ExpectedNonNegative, "maxProperties"));
    LogWhen(log, v.minProperties < 0, ErrorAt(ExpectedNonNegative, "minProperties"));
    LogWhen(log, v.maxProperties.Some? && v.maxProperties.value < v.minProperties, ErrorHere(MaxPropertiesBelowMin));
  }

  /** `required` must be distinct, and so must every `dependentRequired` list. */
  method ValidateRequired(log: Diagnostics.Verbose<JsonPointer.Pointer>, v: ValidationKeywords)
    modifies log
    ensures log.messages == old(log.messages) + RequiredMessages(v)
  {
    LogUnlessDistinct(log, v.required, KeywordPointer("required"));
    ghost var lead := log.messages;
    var deps := v.dependentRequired;
    var i := 0;
    while i < |deps|
      invariant 0 <= i <= |deps|
      invariant log.messages == lead + DependentRequiredMessages(deps[..i])
    {
      ghost var before := log.messages;
      LogUnlessDistinct(log, deps[i].1, MemberPointer("dependentRequired", deps[i].0));
      assert deps[..i + 1][..i] == deps[..i];
      assert DependentRequiredMessages(deps[..i + 1]) ==
        DependentRequiredMessages(deps[..i]) + DistinctMessages(deps[i].1, MemberPointer("dependentRequired", deps[i].0));
      i := i + 1;
    }
    assert deps[..i] == deps;
  }

  /** `if (!names.IsDistinct()) Log(ExpectedDistinctItems, Error, at)`. */
  method LogUnlessDistinct(log: Diagnostics.Verbose<JsonPointer.Pointer>, names: seq<string>, at: JsonPointer.Pointer)
    modifies log
    ensures log.messages == old(log.messages) + DistinctMessages(names, at)
  {
    var distinct := MiscExtenders.IsDistinct(names);
    if !distinct {
      log.Log(ExpectedDistinctItems, Diagnostics.Error, Some(at));
    }
  }

  // ------------------------------------------------------------ properties

  /** Some number satisfies all four bound keywords. */
  ghost predicate IntervalInhabited(v: ValidationKeywords)
  {
    exists x: real :: LowerKeywordsHold(v, x) && UpperKeywordsHold(v, x)
  }

  /** The interval check logs an error exactly when no number can satisfy the bounds. */
  lemma IntervalErrorIff(v: ValidationKeywords)
    ensures IntervalMessages(v) != [] <==> !IntervalInhabited(v)
    ensures forall m :: m in IntervalMessages(v) ==> m.level == Diagnostics.Error
  {
    var lower := TryGetLowerBound(v);
    var upper := TryGetUpperBound(v);
    if IntervalMessages(v) != [] {
      forall x: real ensures !(LowerKeywordsHold(v, x) && UpperKeywordsHold(v, x)) {
        LowerBoundMeaning(v, x);
        UpperBoundMeaning(v, x);
      }
    } else {
      var x: real;
      if lower.None? && upper.None? {
        x := 0.0;
      } else if lower.None? {
        x := upper.value.value - 1.0;
      } else if upper.None? {
        x := lower.value.value + 1.0;
      } else if lower.value.value < upper.value.value {
        x := (lower.value.value + upper.value.value) / 2.0;
      } else {
        x := lower.value.value;
      }
      LowerBoundMeaning(v, x);
      UpperBoundMeaning(v, x);
      assert LowerKeywordsHold(v, x) && UpperKeywordsHold(v, x);
    }
  }

  /** At most one warning per pair of bound keywords, and only when both are present. */
  lemma BoundWarnings(v: ValidationKeywords)
    ensures |LowerBoundMessages(v)| == (if v.minimum.Some? && v.exclusiveMinimum.Some? then 1 else 0)
    ensures |UpperBoundMessages(v)| == (if v.maximum.Some? && v.exclusiveMaximum.Some? then 1 else 0)
    ensures !Diagnostics.HasLevel(LowerBoundMessages(v), Diagnostics.Error)
    ensures !Diagnostics.HasLevel(UpperBoundMessages(v), Diagnostics.Error)
  {
    LowerBoundWarning(v);
    UpperBoundWarning(v);
  }

  lemma LowerBoundWarning(v: ValidationKeywords)
    ensures |LowerBoundMessages(v)| == (if v.minimum.Some? && v.exclusiveMinimum.Some? then 1 else 0)
    ensures !Diagnostics.HasLevel(LowerBoundMessages(v), Diagnostics.Error)
  {
  }

  lemma UpperBoundWarning(v: ValidationKeywords)
    ensures |UpperBoundMessages(v)| == (if v.maximum.Some? && v.exclusiveMaximum.Some? then 1 else 0)
    ensures !Diagnostics.HasLevel(UpperBoundMessages(v), Diagnostics.Error)
  {
  }

  lemma HasLevelConcat(a: seq<Message>, b: seq<Message>, level: Diagnostics.MessageLevel)
    ensures Diagnostics.HasLevel(a + b, level) <==> Diagnostics.HasLevel(a, level) || Diagnostics.HasLevel(b, level)
  {
    if Diagnostics.HasLevel(a + b, level) {
      var i :| 0 <= i < |a + b| && (a + b)[i].level == level;
      if i >= |a| {
        assert b[i - |a|].level == level;
      }
    }
    if Diagnostics.HasLevel(b, level) {
      var i :| 0 <= i < |b| && b[i].level == level;
      assert (a + b)[|a| + i].level == level;
    }
    if Diagnostics.HasLevel(a, level) {
      var i :| 0 <= i < |a| && a[i].level == level;
      assert (a + b)[i].level == level;
    }
  }

  /** Three guarded messages raise a level exactly when one whose guard holds has it. */
  lemma WhenLevel3(c1: bool, m1: Message, c2: bool, m2: Message, c3: bool, m3: Message, level: Diagnostics.MessageLevel)
    ensures Diagnostics.HasLevel(When(c1, m1) + When(c2, m2) + When(c3, m3), level) <==>
      (c1 && m1.level == level) || (c2 && m2.level == level) || (c3 && m3.level == level)
  {
    HasLevelConcat(When(c1, m1), When(c2, m2), level);
    HasLevelConcat(When(c1, m1) + When(c2, m2), When(c3, m3), level);
    WhenLevel(c1, m1, level);
    WhenLevel(c2, m2, level);
    WhenLevel(c3, m3, level);
  }

  lemma WhenLevel(c: bool, m: Message, level: Diagnostics.MessageLevel)
    ensures Diagnostics.HasLevel(When(c, m), level) <==> c && m.level == level
  {
    if c {
      assert When(c, m)[0] == m;
    }
  }

  predicate StringCountsWellFormed(v: ValidationKeywords)
  {
    (v.maxLength.Some? ==> 0 <= v.maxLength.value && v.minLength <= v.maxLength.value) && v.minLength >= 0
  }

  predicate ItemCountsWellFormed(v: ValidationKeywords)
  {
    (v.maxItems.Some? ==> 0 <= v.maxItems.value && v.minItems <= v.maxItems.value) && v.minItems >= 0
  }

  predicate ContainsCountsWellFormed(v: ValidationKeywords)
  {
    (v.maxContains.Some? ==> 0 <= v.maxContains.value && v.minContains <= v.maxContains.value) && v.minContains >= 0
  }

  predicate PropertyCountsWellFormed(v: ValidationKeywords)
  {
    (v.maxProperties.Some? ==> 0 <= v.maxProperties.value && v.minProperties <= v.maxProperties.value) &&
    v.minProperties >= 0
  }

  predicate CountsWellFormed(v: ValidationKeywords)
  {
    StringCountsWellFormed(v) && ItemCountsWellFormed(v) && ContainsCountsWellFormed(v) && PropertyCountsWellFormed(v)
  }

  lemma ContainsCountErrorsIff(v: ValidationKeywords, hasContains: bool)
    ensures Diagnostics.HasLevel(ContainsCountMessages(v, hasContains), Diagnostics.Error) <==> !ContainsCountsWellFormed(v)
  {
    var e := Diagnostics.Error;
    var a := When(v.maxContains.Some? && v.maxContains.value < 0, ErrorAt(ExpectedNonNegative, "maxContains"));
    var b := When(v.maxContains.Some? && !hasContains, WarningHere(MaxContainsIgnored));
    var c := When(v.minContains < 0, ErrorAt(ExpectedNonNegative, "minContains"));
    var d := When(v.minContains > 1 && !hasContains, WarningHere(MinContainsIgnored));
    WhenLevel3(v.maxContains.Some? && v.maxContains.value < 0, ErrorAt(ExpectedNonNegative, "maxContains"),
      v.maxContains.Some? && !hasContains, WarningHere(MaxContainsIgnored),
      v.minContains < 0, ErrorAt(ExpectedNonNegative, "minContains"), e);
    HasLevelConcat(a + b + c, d, e);
    HasLevelConcat(a + b + c + d, When(v.maxContains.Some? && v.maxContains.value < v.minContains, ErrorHere(MaxContainsBelowMin)), e);
    WhenLevel(v.minContains > 1 && !hasContains, WarningHere(MinContainsIgnored), e);
    WhenLevel(v.maxContains.Some? && v.maxContains.value < v.minContains, ErrorHere(MaxContainsBelowMin), e);
  }

  /** The count checks log an error exactly when a count keyword is negative or a maximum is below its minimum. */
  lemma CountErrorsIff(v: ValidationKeywords, hasContains: bool)
    ensures Diagnostics.HasLevel(CountMessages(v, hasContains), Diagnostics.Error) <==> !CountsWellFormed(v)
  {
    var e := Diagnostics.Error;
    WhenLevel3(v.maxLength.Some? && v.maxLength.value < 0, ErrorAt(ExpectedNonNegative, "maxLength"),
      v.minLength < 0, ErrorAt(ExpectedNonNegative, "minLength"),
      v.maxLength.Some? && v.maxLength.value < v.minLength, ErrorHere(MaxLengthBelowMin), e);
    WhenLevel3(v.maxItems.Some? && v.maxItems.value < 0, ErrorAt(ExpectedNonNegative, "maxItems"),
      v.minItems < 0, ErrorAt(ExpectedNonNegative, "minItems"),
      v.maxItems.Some? && v.maxItems.value < v.minItems, ErrorHere(MaxItemsBelowMin), e);
    WhenLevel3(v.maxProperties.Some? && v.maxProperties.value < 0, ErrorAt(ExpectedNonNegative, "maxProperties"),
      v.minProperties < 0, ErrorAt(ExpectedNonNegative, "minProperties"),
      v.maxProperties.Some? && v.maxProperties.value < v.minProperties, ErrorHere(MaxPropertiesBelowMin), e);
    ContainsCountErrorsIff(v, hasContains);
    var s := StringCountMessages(v);
    var i := ItemCountMessages(v);
    var c := ContainsCountMessages(v, hasContains);
    var p := PropertyCountMessages(v);
    HasLevelConcat(s, i, e);
    HasLevelConcat(s + i, c, e);
    HasLevelConcat(s + i + c, p, e);
  }

  /** Every name list is free of repetitions. */
  ghost predicate NamesDistinct(v: ValidationKeywords)
  {
    MiscExtenders.Distinct(v.required) &&
    forall i :: 0 <= i < |v.dependentRequired| ==> MiscExtenders.Distinct(v.dependentRequired[i].1)
  }

  /** `dependentRequired` logs nothing exactly when every list is distinct, and only errors otherwise. */
  lemma {:induction false} DependentRequiredIff(deps: seq<(string, seq<string>)>)
    ensures DependentRequiredMessages(deps) == [] <==>
      forall i :: 0 <= i < |deps| ==> MiscExtenders.Distinct(deps[i].1)
    ensures forall m :: m in DependentRequiredMessages(deps) ==> m.level == Diagnostics.Error
    decreases |deps|
  {
    if deps != [] {
      var init := deps[..|deps| - 1];
      var last := deps[|deps| - 1];
      DependentRequiredIff(init);
      var tail := DistinctMessages(last.1, MemberPointer("dependentRequired", last.0));
      assert DependentRequiredMessages(deps) == DependentRequiredMessages(init) + tail;
      assert forall i :: 0 <= i < |init| ==> init[i] == deps[i];
    }
  }

  lemma ErrorsOnly(s: seq<Message>)
    requires forall m :: m in s ==> m.level == Diagnostics.Error
    ensures Diagnostics.HasLevel(s, Diagnostics.Error) <==> s != []
  {
    if s != [] {
      assert s[0] in s;
    }
  }

  lemma RequiredErrorsIff(v: ValidationKeywords)
    ensures Diagnostics.HasLevel(RequiredMessages(v), Diagnostics.Error) <==> !NamesDistinct(v)
  {
    var r := DistinctMessages(v.required, KeywordPointer("required"));
    DependentRequiredIff(v.dependentRequired);
    assert forall m :: m in RequiredMessages(v) ==> m.level == Diagnostics.Error;
    ErrorsOnly(RequiredMessages(v));
  }

  /**
   * The validation block marks a schema malformed exactly when `multipleOf`
   * is not positive, the bounds leave no number, a count keyword is out of
   * range, or a name list repeats a name.
   */
  lemma ValidationErrorsIff(v: ValidationKeywords, hasContains: bool)
    ensures Diagnostics.HasLevel(ValidationMessages(v, hasContains), Diagnostics.Error) <==>
      (v.multipleOf.Some? && v.multipleOf.value <= 0.0) || !IntervalInhabited(v) ||
      !CountsWellFormed(v) || !NamesDistinct(v)
  {
    var e := Diagnostics.Error;
    var a := MultipleOfMessages(v);
    var b := LowerBoundMessages(v);
    var c := UpperBoundMessages(v);
    var d := IntervalMessages(v);
    var f := CountMessages(v, hasContains);
    var g := RequiredMessages(v);
    assert ValidationMessages(v, hasContains) == a + b + c + d + f + g;
    HasLevelConcat(a, b, e);
    HasLevelConcat(a + b, c, e);
    HasLevelConcat(a + b + c, d, e);
    HasLevelConcat(a + b + c + d, f, e);
    HasLevelConcat(a + b + c + d + f, g, e);
    WhenLevel(v.multipleOf.Some? && v.multipleOf.value <= 0.0, ErrorAt(ExpectedPositive, "multipleOf"), e);
    BoundWarnings(v);
    IntervalErrorIff(v);
    ErrorsOnly(d);
    CountErrorsIff(v, hasContains);
    RequiredErrorsIff(v);
  }

  // -------------------------------------------------------------- examples

  function WithBounds(min: Option<real>, exclMin: Option<real>, max: Option<real>, exclMax: Option<real>): ValidationKeywords
  {
    DefaultValidation.(minimum := min, exclusiveMinimum := exclMin, maximum := max, exclusiveMaximum := exclMax)
  }

  /** `{"minimum": 17}` and `{"exclusiveMaximum": 29}` on the boundary and around it. */
  lemma BoundExamples()
    ensures !TryValidateInteger(WithBounds(Some(17.0), None, None, None), 16)
    ensures !TryValidateNumber(WithBounds(Some(17.0), None, None, None), 16.9)
    ensures TryValidateInteger(WithBounds(Some(17.0), None, None, None), 17)
    ensures TryValidateNumber(WithBounds(Some(17.0), None, None, None), 17.0)
    ensures TryValidateNumber(WithBounds(Some(17.0), None, None, None), 18.9)
    ensures TryValidateInteger(WithBounds(None, None, None, Some(29.0)), 28)
    ensures TryValidateNumber(WithBounds(None, None, None, Some(29.0)), 28.9)
    ensures !TryValidateInteger(WithBounds(None, None, None, Some(29.0)), 29)
    ensures !TryValidateNumber(WithBounds(None, None, None, Some(29.0)), 29.0)
    ensures !TryValidateNumber(WithBounds(None, None, None, Some(29.0)), 30.1)
  {
  }

  /** `minimum` 3 with `exclusiveMaximum` 3 leaves nothing and is an error; `minimum` 3 with `maximum` 3 admits 3. */
  lemma IntervalExamples()
    ensures IntervalMessages(WithBounds(Some(3.0), None, None, Some(3.0))) == [ErrorHere("Bounds result in no acceptable values.")]
    ensures IntervalMessages(WithBounds(Some(4.0), None, Some(3.0), None)) == [ErrorHere("Lower bound cannot exceed upper bound.")]
    ensures IntervalMessages(WithBounds(Some(3.0), None, Some(3.0), None)) == []
  {
  }
}
