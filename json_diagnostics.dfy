/**
 * Ropufu.Json's `Verbose`: a list of error messages whose sources are the
 * string forms of JSON Pointers.
 */
module JsonDiagnostics {
  import opened Wrappers
  import JsonPointer

  datatype ErrorLevel = Information | Warning | Error

  datatype ErrorMessage = ErrorMessage(message: string, level: ErrorLevel, source: Option<string>)

  predicate HasLevel(s: seq<ErrorMessage>, level: ErrorLevel)
  {
    exists i :: 0 <= i < |s| && s[i].level == level
  }

  /** The messages whose level is not `level`, in their original order. */
  function Without(s: seq<ErrorMessage>, level: ErrorLevel): seq<ErrorMessage>
    decreases |s|
  {
    if s == [] then []
    else if s[|s| - 1].level == level then Without(s[..|s| - 1], level)
    else Without(s[..|s| - 1], level) + [s[|s| - 1]]
  }

  /** After removing a level, no message of that level is left and every other message is kept. */
  lemma {:induction false} WithoutSpec(s: seq<ErrorMessage>, level: ErrorLevel)
    ensures !HasLevel(Without(s, level), level)
    ensures forall m :: m in Without(s, level) <==> m in s && m.level != level
    ensures !HasLevel(s, level) ==> Without(s, level) == s
    decreases |s|
  {
    if s != [] {
      WithoutSpec(s[..|s| - 1], level);
      assert s == s[..|s| - 1] + [s[|s| - 1]];
    }
  }

  /** The string form of an optional pointer (`source?.ToString()`). */
  function SourceText(source: Option<JsonPointer.Pointer>): Option<string>
  {
    if source.Some? then Some(JsonPointer.Text(source.value)) else None
  }

  /**
   * A message given relative to `source`: without a source it takes
   * `source`, otherwise the message's source is appended to the text of `source`.
   */
  function Relocated(m: ErrorMessage, source: JsonPointer.Pointer): (r: ErrorMessage)
    ensures r.message == m.message && r.level == m.level && r.source.Some?
  {
    if m.source.None? then ErrorMessage(m.message, m.level, Some(JsonPointer.Text(source)))
    else ErrorMessage(m.message, m.level, Some(JsonPointer.Text(source) + m.source.value))
  }

  /** When the message's source is itself a pointer, relocation composes the two pointers. */
  lemma RelocatedComposes(m: ErrorMessage, source: JsonPointer.Pointer)
    requires m.source.Some? && JsonPointer.Parse(m.source.value).Some?
    ensures Relocated(m, source).source ==
      Some(JsonPointer.Text(JsonPointer.Compose(source, JsonPointer.Parse(m.source.value).value)))
  {
    JsonPointer.TextParse(m.source.value);
    JsonPointer.TextCompose(source, JsonPointer.Parse(m.source.value).value);
  }

  function PresentPrefix(ms: seq<Option<ErrorMessage>>): (k: nat)
    ensures k <= |ms|
    ensures forall i :: 0 <= i < k ==> ms[i].Some?
    ensures k < |ms| ==> ms[k].None?
    decreases |ms|
  {
    if ms == [] || ms[0].None? then 0 else 1 + PresentPrefix(ms[1..])
  }

  function Values(ms: seq<Option<ErrorMessage>>): seq<ErrorMessage>
    requires forall i :: 0 <= i < |ms| ==> ms[i].Some?
  {
    seq(|ms|, i requires 0 <= i < |ms| => ms[i].value)
  }

  function RelocatedAll(ms: seq<ErrorMessage>, source: JsonPointer.Pointer): seq<ErrorMessage>
  {
    seq(|ms|, i requires 0 <= i < |ms| => Relocated(ms[i], source))
  }

  class Verbose {
    var errorMessages: seq<ErrorMessage>

    constructor()
      ensures errorMessages == []
    {
      errorMessages := [];
    }

    /** `Has`: is there a message of this level? */
    method Has(level: ErrorLevel) returns (r: bool)
      ensures r <==> HasLevel(errorMessages, level)
    {
      var i := 0;
      while i < |errorMessages|
        invariant 0 <= i <= |errorMessages|
        invariant forall j :: 0 <= j < i ==> errorMessages[j].level != level
      {
        if errorMessages[i].level == level {
          return true;
        }
        i := i + 1;
      }
      return false;
    }

    /** `Log(message, level, source)`; `LogError`, `LogWarning` and `LogInformation` fix the level. */
    method Log(message: string, level: ErrorLevel, source: Option<JsonPointer.Pointer>)
      modifies this
      ensures errorMessages == old(errorMessages) + [ErrorMessage(message, level, SourceText(source))]
    {
      var text: Option<string> := None;
      if source.Some? {
        var t := JsonPointer.ToString(source.value);
        text := Some(t);
      }
      errorMessages := errorMessages + [ErrorMessage(message, level, text)];
    }

    method LogError(message: string, source: Option<JsonPointer.Pointer>)
      modifies this
      ensures errorMessages == old(errorMessages) + [ErrorMessage(message, Error, SourceText(source))]
    {
      Log(message, Error, source);
    }

    method LogWarning(message: string, source: Option<JsonPointer.Pointer>)
      modifies this
      ensures errorMessages == old(errorMessages) + [ErrorMessage(message, Warning, SourceText(source))]
    {
      Log(message, Warning, source);
    }

    method LogInformation(message: string, source: Option<JsonPointer.Pointer>)
      modifies this
      ensures errorMessages == old(errorMessages) + [ErrorMessage(message, Information, SourceText(source))]
    {
      Log(message, Information, source);
    }

    /** `Log(message)`. */
    method LogMessage(message: ErrorMessage)
      modifies this
      ensures errorMessages == old(errorMessages) + [message]
    {
      errorMessages := errorMessages + [message];
    }

    /** `Log(message, source)`: the message re-addressed under `source`. */
    method LogRelative(message: ErrorMessage, source: JsonPointer.Pointer)
      modifies this
      ensures errorMessages == old(errorMessages) + [Relocated(message, source)]
    {
      var outer := JsonPointer.ToString(source);
      if message.source.None? {
        errorMessages := errorMessages + [ErrorMessage(message.message, message.level, Some(outer))];
      } else {
        errorMessages := errorMessages + [ErrorMessage(message.message, message.level, Some(outer + message.source.value))];
      }
    }

    /** `Log(messages)`: appends in order; a null item raises after the earlier items were added. */
    method LogAll(items: seq<Option<ErrorMessage>>) returns (thrown: bool)
      modifies this
      ensures thrown <==> PresentPrefix(items) < |items|
      ensures errorMessages == old(errorMessages) + Values(items[..PresentPrefix(items)])
    {
      var k := PresentPrefix(items);
      var i := 0;
      while i < |items|
        invariant 0 <= i <= k
        invariant errorMessages == old(errorMessages) + Values(items[..i])
      {
        if items[i].None? {
          return true;
        }
        assert items[..i + 1] == items[..i] + [items[i]];
        errorMessages := errorMessages + [items[i].value];
        i := i + 1;
      }
      return false;
    }

    /** `Log(messages, source)`: as `LogAll`, each item re-addressed under `source`. */
    method LogAllRelative(items: seq<Option<ErrorMessage>>, source: JsonPointer.Pointer) returns (thrown: bool)
      modifies this
      ensures thrown <==> PresentPrefix(items) < |items|
      ensures errorMessages == old(errorMessages) + RelocatedAll(Values(items[..PresentPrefix(items)]), source)
    {
      var k := PresentPrefix(items);
      var i := 0;
      while i < |items|
        invariant 0 <= i <= k
        invariant errorMessages == old(errorMessages) + RelocatedAll(Values(items[..i]), source)
      {
        if items[i].None? {
          return true;
        }
        assert items[..i + 1] == items[..i] + [items[i]];
        LogRelative(items[i].value, source);
        i := i + 1;
      }
      return false;
    }

    /** `Clear()`. */
    method Clear()
      modifies this
      ensures errorMessages == []
    {
      errorMessages := [];
    }

    /** `Clear(level)`: removes, in place, every message of that level. */
    method ClearLevel(level: ErrorLevel)
      modifies this
      ensures errorMessages == Without(old(errorMessages), level)
    {
      ghost var original := errorMessages;
      ghost var j := 0;
      var i := 0;
      while i < |errorMessages|
        invariant 0 <= i <= |errorMessages| && 0 <= j <= |original|
        invariant errorMessages[..i] == Without(original[..j], level)
        invariant errorMessages[i..] == original[j..]
        decreases |errorMessages| - i
      {
        assert original[..j + 1] == original[..j] + [original[j]];
        assert errorMessages[i] == original[j];
        if errorMessages[i].level == level {
          errorMessages := errorMessages[..i] + errorMessages[i + 1..];
          i := i - 1;
        }
        i := i + 1;
        j := j + 1;
      }
      assert original[..j] == original;
    }
  }
}
