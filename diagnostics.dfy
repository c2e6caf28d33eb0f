/**
 * Ropufu's generic `Verbose<TSource>`: a list of console messages, each
 * with a level and an optional source, and the operations that add,
 * re-address and remove them. The abstract `Compose` of the source is the
 * `compose` function the object is constructed with (`JsonLogger` composes
 * JSON Pointers).
 */
module Diagnostics {
  import opened Wrappers

  datatype MessageLevel = Information | Success | Warning | Error

  datatype ConsoleMessage<S> = ConsoleMessage(message: string, level: MessageLevel, source: Option<S>)

  predicate HasLevel<S>(s: seq<ConsoleMessage<S>>, level: MessageLevel)
  {
    exists i :: 0 <= i < |s| && s[i].level == level
  }

  /** The messages whose level is not `level`, in their original order. */
  function Without<S>(s: seq<ConsoleMessage<S>>, level: MessageLevel): seq<ConsoleMessage<S>>
    decreases |s|
  {
    if s == [] then []
    else if s[|s| - 1].level == level then Without(s[..|s| - 1], level)
    else Without(s[..|s| - 1], level) + [s[|s| - 1]]
  }

  /** After removing a level, no message of that level is left and every other message is kept. */
  lemma {:induction false} WithoutSpec<S>(s: seq<ConsoleMessage<S>>, level: MessageLevel)
    ensures !HasLevel(Without(s, level), level)
    ensures forall m :: m in Without(s, level) <==> m in s && m.level != level
    ensures |Without(s, level)| <= |s|
    ensures !HasLevel(s, level) ==> Without(s, level) == s
    decreases |s|
  {
    if s != [] {
      var init := s[..|s| - 1];
      WithoutSpec(init, level);
      assert s == init + [s[|s| - 1]];
    }
  }

  /** A message given relative to `outer`: without a source it takes `outer`, otherwise `compose(outer, source)`. */
  function Relocated<S>(m: ConsoleMessage<S>, outer: S, compose: (S, S) -> S): (r: ConsoleMessage<S>)
    ensures r.message == m.message && r.level == m.level && r.source.Some?
    ensures m.source.Some? ==> r.source == Some(compose(outer, m.source.value))
  {
    if m.source.None? then ConsoleMessage(m.message, m.level, Some(outer))
    else ConsoleMessage(m.message, m.level, Some(compose(outer, m.source.value)))
  }

  /** The number of items before the first null one. */
  function PresentPrefix<S>(ms: seq<Option<ConsoleMessage<S>>>): (k: nat)
    ensures k <= |ms|
    ensures forall i :: 0 <= i < k ==> ms[i].Some?
    ensures k < |ms| ==> ms[k].None?
    decreases |ms|
  {
    if ms == [] || ms[0].None? then 0 else 1 + PresentPrefix(ms[1..])
  }

  function Values<S>(ms: seq<Option<ConsoleMessage<S>>>): seq<ConsoleMessage<S>>
    requires forall i :: 0 <= i < |ms| ==> ms[i].Some?
  {
    seq(|ms|, i requires 0 <= i < |ms| => ms[i].value)
  }

  function RelocatedAll<S>(ms: seq<ConsoleMessage<S>>, outer: S, compose: (S, S) -> S): seq<ConsoleMessage<S>>
  {
    seq(|ms|, i requires 0 <= i < |ms| => Relocated(ms[i], outer, compose))
  }

  class Verbose<S(==)> {
    const compose: (S, S) -> S
    var messages: seq<ConsoleMessage<S>>

    constructor(compose: (S, S) -> S)
      ensures this.compose == compose && messages == []
    {
      this.compose := compose;
      messages := [];
    }

    /** `Has`: is there a message of this level? */
    method Has(level: MessageLevel) returns (r: bool)
      ensures r <==> HasLevel(messages, level)
    {
      var i := 0;
      while i < |messages|
        invariant 0 <= i <= |messages|
        invariant forall j :: 0 <= j < i ==> messages[j].level != level
      {
        if messages[i].level == level {
          return true;
        }
        i := i + 1;
      }
      return false;
    }

    /** `Log(message, level, source)`. */
    method Log(message: string, level: MessageLevel, source: Option<S>)
      modifies this
      ensures messages == old(messages) + [ConsoleMessage(message, level, source)]
    {
      messages := messages + [ConsoleMessage(message, level, source)];
    }

    /** `Log(message)`. */
    method LogMessage(message: ConsoleMessage<S>)
      modifies this
      ensures messages == old(messages) + [message]
    {
      messages := messages + [message];
    }

    /** `Log(message, outerSource)`: the message re-addressed under `outer`. */
    method LogRelative(message: ConsoleMessage<S>, outer: S)
      modifies this
      ensures messages == old(messages) + [Relocated(message, outer, compose)]
    {
      if message.source.None? {
        messages := messages + [ConsoleMessage(message.message, message.level, Some(outer))];
      } else {
        messages := messages + [ConsoleMessage(message.message, message.level, Some(compose(outer, message.source.value)))];
      }
    }

    /**
     * `LogRange(messages)`: appends in order; a null item raises (reported as
     * `thrown`) after the items before it have been added.
     */
    method LogRange(items: seq<Option<ConsoleMessage<S>>>) returns (thrown: bool)
      modifies this
      ensures thrown <==> PresentPrefix(items) < |items|
      ensures messages == old(messages) + Values(items[..PresentPrefix(items)])
    {
      var k := PresentPrefix(items);
      var i := 0;
      while i < |items|
        invariant 0 <= i <= k
        invariant messages == old(messages) + Values(items[..i])
      {
        if items[i].None? {
          return true;
        }
        assert items[..i + 1] == items[..i] + [items[i]];
        messages := messages + [items[i].value];
        i := i + 1;
      }
      return false;
    }

    /** `LogRange(messages, outerSource)`: as `LogRange`, each item re-addressed under `outer`. */
    method LogRangeRelative(items: seq<Option<ConsoleMessage<S>>>, outer: S) returns (thrown: bool)
      modifies this
      ensures thrown <==> PresentPrefix(items) < |items|
      ensures messages == old(messages) + RelocatedAll(Values(items[..PresentPrefix(items)]), outer, compose)
    {
      var k := PresentPrefix(items);
      var i := 0;
      while i < |items|
        invariant 0 <= i <= k
        invariant messages == old(messages) + RelocatedAll(Values(items[..i]), outer, compose)
      {
        if items[i].None? {
          return true;
        }
        assert items[..i + 1] == items[..i] + [items[i]];
        LogRelative(items[i].value, outer);
        i := i + 1;
      }
      return false;
    }

    /** `Clear()`. */
    method Clear()
      modifies this
      ensures messages == []
    {
      messages := [];
    }

    /** `Clear(level)`: removes, in place, every message of that level. */
    method ClearLevel(level: MessageLevel)
      modifies this
      ensures messages == Without(old(messages), level)
    {
      ghost var original := messages;
      ghost var j := 0;
      var i := 0;
      while i < |messages|
        invariant 0 <= i <= |messages| && 0 <= j <= |original|
        invariant messages[..i] == Without(original[..j], level)
        invariant messages[i..] == original[j..]
        decreases |messages| - i
      {
        ghost var prev := messages;
        assert original[..j + 1] == original[..j] + [original[j]];
        assert prev[i] == original[j] && prev[i + 1..] == original[j + 1..];
        if messages[i].level == level {
          messages := messages[..i] + messages[i + 1..];
          assert messages[..i] == prev[..i] && messages[i..] == prev[i + 1..];
          i := i - 1;
        } else {
          assert prev[..i + 1] == prev[..i] + [prev[i]];
        }
        i := i + 1;
        j := j + 1;
      }
      assert original[..j] == original;
    }
  }
}
