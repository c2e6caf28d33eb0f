/**
 * JSON Pointer (RFC 6901): an immutable sequence of reference tokens,
 * stored in escaped form ("~0" for '~', "~1" for '/').
 */
module JsonPointer {
  import opened Wrappers

  /** What the pointer operations can raise. */
  datatype PointerError = IndexOutOfRange | Format

  // ---------------------------------------------------------------- tokens

  function EscapedChar(c: char): string
  {
    if c == '~' then "~0" else if c == '/' then "~1" else [c]
  }

  /** The escaped form of one unescaped reference token. */
  function Escaped(s: string): (r: string)
    ensures |r| >= |s|
    decreases |s|
  {
    if s == [] then [] else EscapedChar(s[0]) + Escaped(s[1..])
  }

  function Cons(c: char, o: Option<string>): Option<string>
  {
    if o.Some? then Some([c] + o.value) else None
  }

  function Prefixed(p: string, o: Option<string>): Option<string>
  {
    if o.Some? then Some(p + o.value) else None
  }

  lemma PrefixedCons(p: string, c: char, o: Option<string>)
    ensures Prefixed(p, Cons(c, o)) == Prefixed(p + [c], o)
  {
    if o.Some? {
      assert p + ([c] + o.value) == (p + [c]) + o.value;
    }
  }

  /** Decoding of an escaped token; None when the token is malformed. */
  function Unescaped(t: string): (r: Option<string>)
    ensures r.Some? ==> |r.value| <= |t|
    decreases |t|
  {
    if t == [] then Some([])
    else if t[0] == '/' then None
    else if t[0] == '~' then
      if |t| == 1 then None
      else if t[1] == '0' then Cons('~', Unescaped(t[2..]))
      else if t[1] == '1' then Cons('/', Unescaped(t[2..]))
      else None
    else Cons(t[0], Unescaped(t[1..]))
  }

  /** Position `i` of `t` is acceptable: not '/', and a '~' is followed by '0' or '1'. */
  predicate OkAt(t: string, i: nat)
    requires i < |t|
  {
    t[i] != '/' && (t[i] == '~' ==> i + 1 < |t| && (t[i + 1] == '0' || t[i + 1] == '1'))
  }

  /** Reference definition of a legitimate escaped token: every position is acceptable. */
  predicate WellEscaped(t: string)
  {
    forall i :: 0 <= i < |t| ==> OkAt(t, i)
  }

  lemma OkAtShift(t: string, k: nat, i: nat)
    requires k <= i < |t|
    ensures OkAt(t, i) == OkAt(t[k..], i - k)
  {
    assert t[k..][i - k] == t[i];
    if i + 1 < |t| {
      assert t[k..][i - k + 1] == t[i + 1];
    }
  }

  /** Dropping the first `k` positions, all acceptable, keeps well-escapedness. */
  lemma WellEscapedDrop(t: string, k: nat)
    requires k <= |t|
    requires forall i :: 0 <= i < k ==> OkAt(t, i)
    ensures WellEscaped(t) <==> WellEscaped(t[k..])
  {
    if WellEscaped(t[k..]) {
      forall i | 0 <= i < |t| ensures OkAt(t, i) {
        if i >= k {
          OkAtShift(t, k, i);
        }
      }
    }
    if WellEscaped(t) {
      forall j | 0 <= j < |t[k..]| ensures OkAt(t[k..], j) {
        OkAtShift(t, k, j + k);
      }
    }
  }

  lemma {:induction false} UnescapedDefinedIff(t: string)
    ensures Unescaped(t).Some? <==> WellEscaped(t)
    decreases |t|
  {
    if t == [] {
    } else if t[0] == '/' {
      assert !OkAt(t, 0);
    } else if t[0] == '~' {
      if |t| == 1 {
        assert !OkAt(t, 0);
      } else if t[1] == '0' || t[1] == '1' {
        UnescapedDefinedIff(t[2..]);
        assert OkAt(t, 0) && OkAt(t, 1);
        WellEscapedDrop(t, 2);
      } else {
        assert !OkAt(t, 0);
      }
    } else {
      UnescapedDefinedIff(t[1..]);
      assert OkAt(t, 0);
      WellEscapedDrop(t, 1);
    }
  }

  /** Decoding undoes escaping. */
  lemma {:induction false} UnescapeEscape(s: string)
    ensures Unescaped(Escaped(s)) == Some(s)
    decreases |s|
  {
    if s != [] {
      UnescapeEscape(s[1..]);
      var e := Escaped(s[1..]);
      assert Escaped(s) == EscapedChar(s[0]) + e;
      if s[0] == '~' || s[0] == '/' {
        assert (EscapedChar(s[0]) + e)[2..] == e;
      } else {
        assert (EscapedChar(s[0]) + e)[1..] == e;
      }
      assert [s[0]] + s[1..] == s;
    }
  }

  lemma WellEscapedHasNoSlash(t: string)
    requires WellEscaped(t)
    ensures '/' !in t
  {
    forall j | 0 <= j < |t| ensures t[j] != '/' {
      assert OkAt(t, j);
    }
  }

  /** Escaping undoes decoding: each legitimate token has exactly one decoding. */
  lemma {:induction false} EscapeUnescape(t: string)
    requires Unescaped(t).Some?
    ensures Escaped(Unescaped(t).value) == t
    decreases |t|
  {
    if t != [] {
      var u := Unescaped(t).value;
      if t[0] == '~' {
        EscapeUnescape(t[2..]);
        assert u == [if t[1] == '0' then '~' else '/'] + Unescaped(t[2..]).value;
        assert u[1..] == Unescaped(t[2..]).value;
        assert t == t[..2] + t[2..];
      } else {
        EscapeUnescape(t[1..]);
        assert u[1..] == Unescaped(t[1..]).value;
        assert t == [t[0]] + t[1..];
      }
    }
  }

  /** An escaped token never contains the separator. */
  lemma {:induction false} EscapedHasNoSlash(s: string)
    ensures '/' !in Escaped(s)
    decreases |s|
  {
    if s != [] {
      EscapedHasNoSlash(s[1..]);
    }
  }

  /** A token with neither '~' nor '/' is its own escaped form. */
  lemma {:induction false} EscapedPlain(s: string)
    requires '~' !in s && '/' !in s
    ensures Escaped(s) == s
    decreases |s|
  {
    if s != [] {
      assert s == [s[0]] + s[1..];
      EscapedPlain(s[1..]);
    }
  }

  /** `JsonPointer.Escape`: encodes '~' as "~0" and '/' as "~1", in one pass. */
  method Escape(value: string) returns (r: string)
    ensures r == Escaped(value)
  {
    r := "";
    var i := 0;
    while i < |value|
      invariant 0 <= i <= |value|
      invariant r == Escaped(value[..i])
    {
      assert value[..i + 1] == value[..i] + [value[i]];
      EscapedSnoc(value[..i], value[i]);
      var c := value[i];
      if c == '~' {
        r := r + "~0";
      } else if c == '/' {
        r := r + "~1";
      } else {
        r := r + [c];
      }
      i := i + 1;
    }
    assert value[..i] == value;
  }

  /** Escaping one more character appends its escape. */
  lemma {:induction false} EscapedSnoc(s: string, c: char)
    ensures Escaped(s + [c]) == Escaped(s) + EscapedChar(c)
    decreases |s|
  {
    if s == [] {
      assert [c][1..] == [];
    } else {
      assert (s + [c])[1..] == s[1..] + [c];
      EscapedSnoc(s[1..], c);
    }
  }

  /** `JsonPointer.TryUnescape(value)`: is `value` a legitimate reference token? */
  method IsReferenceToken(value: string) returns (ok: bool)
    ensures ok <==> WellEscaped(value)
  {
    UnescapedDefinedIff(value);
    var i := 0;
    while i < |value|
      invariant 0 <= i <= |value|
      invariant Unescaped(value).Some? <==> Unescaped(value[i..]).Some?
    {
      assert value[i..][1..] == value[i + 1..];
      if value[i] == '/' {
        return false;
      } else if value[i] == '~' {
        if i + 1 == |value| {
          return false;
        }
        i := i + 1;
        if value[i] != '0' && value[i] != '1' {
          return false;
        }
        assert value[i - 1..][2..] == value[i + 1..];
      }
      i := i + 1;
    }
    return true;
  }

  /** `JsonPointer.TryUnescape(value, out result)`: decodes one token. */
  method TryUnescape(value: string) returns (r: Option<string>)
    ensures r == Unescaped(value)
  {
    var builder := "";
    var i := 0;
    assert value[0..] == value;
    if Unescaped(value).Some? {
      assert "" + Unescaped(value).value == Unescaped(value).value;
    }
    while i < |value|
      invariant 0 <= i <= |value|
      invariant Unescaped(value) == Prefixed(builder, Unescaped(value[i..]))
    {
      assert value[i..][1..] == value[i + 1..];
      if value[i] != '/' && value[i] != '~' {
        PrefixedCons(builder, value[i], Unescaped(value[i + 1..]));
      } else if value[i] == '~' && i + 1 < |value| {
        PrefixedCons(builder, '~', Unescaped(value[i + 2..]));
        PrefixedCons(builder, '/', Unescaped(value[i + 2..]));
      }
      if value[i] == '/' {
        return None;
      } else if value[i] == '~' {
        if i + 1 == |value| {
          return None;
        }
        i := i + 1;
        assert value[i - 1..][2..] == value[i + 1..];
        if value[i] == '0' {
          builder := builder + "~";
        } else if value[i] == '1' {
          builder := builder + "/";
        } else {
          return None;
        }
      } else {
        builder := builder + [value[i]];
      }
      i := i + 1;
    }
    assert value[i..] == [];
    assert builder + "" == builder;
    return Some(builder);
  }

  // -------------------------------------------------------------- pointers

  /** A pointer holds its reference tokens in escaped form. */
  datatype Pointer = Pointer(tokens: seq<string>)
  {
    predicate Valid()
    {
      forall i :: 0 <= i < |tokens| ==> WellEscaped(tokens[i])
    }

    /** `Length`: the number of reference tokens. */
    function Length(): nat
    {
      |tokens|
    }

    /** The indexer: the unescaped token at `index`, or IndexOutOfRange. */
    function At(index: int): (r: Result<string, PointerError>)
      requires Valid()
      ensures r.Err? <==> !(0 <= index < Length())
      ensures r.Ok? ==> Escaped(r.value) == tokens[index]
    {
      if index < 0 || index >= |tokens| then Err(IndexOutOfRange)
      else
        UnescapedDefinedIff(tokens[index]);
        EscapeUnescape(tokens[index]);
        Ok(Unescaped(tokens[index]).value)
    }
  }

  /** The pointer to the whole document. */
  const Root := Pointer([])

  /** `new JsonPointer(params string[] tokens)`: escapes every token. */
  function FromTokens(ts: seq<string>): (p: Pointer)
    ensures p.Valid() && p.Length() == |ts|
    ensures forall i :: 0 <= i < |ts| ==> p.At(i) == Ok(ts[i])
  {
    var p := Pointer(seq(|ts|, i requires 0 <= i < |ts| => Escaped(ts[i])));
    assert p.Valid() by {
      forall i | 0 <= i < |ts| ensures WellEscaped(p.tokens[i]) {
        UnescapeEscape(ts[i]);
        UnescapedDefinedIff(p.tokens[i]);
      }
    }
    assert forall i :: 0 <= i < |ts| ==> p.At(i) == Ok(ts[i]) by {
      forall i | 0 <= i < |ts| ensures p.At(i) == Ok(ts[i]) {
        UnescapeEscape(ts[i]);
      }
    }
    p
  }

  /** `Compose` (and `+`): the tokens of `a` followed by those of `b`. */
  function Compose(a: Pointer, b: Pointer): (r: Pointer)
    ensures a.Valid() && b.Valid() ==> r.Valid()
    ensures r.Length() == a.Length() + b.Length()
    ensures a.Valid() && b.Valid() ==> forall i :: 0 <= i < r.Length() ==>
      r.At(i) == if i < a.Length() then a.At(i) else b.At(i - a.Length())
  {
    var r := Pointer(a.tokens + b.tokens);
    assert a.Valid() && b.Valid() ==> r.Valid() by {
      if a.Valid() && b.Valid() {
        forall i | 0 <= i < |r.tokens| ensures WellEscaped(r.tokens[i]) {
          if i >= |a.tokens| {
            assert r.tokens[i] == b.tokens[i - |a.tokens|];
          }
        }
      }
    }
    r
  }

  lemma ComposeAssociative(a: Pointer, b: Pointer, c: Pointer)
    ensures Compose(Compose(a, b), c) == Compose(a, Compose(b, c))
  {
    assert (a.tokens + b.tokens) + c.tokens == a.tokens + (b.tokens + c.tokens);
  }

  // ------------------------------------------------------ text and parsing

  /** The string form: "/" before every token. */
  function Text(p: Pointer): string
    decreases |p.tokens|
  {
    if p.tokens == [] then "" else "/" + p.tokens[0] + Text(Pointer(p.tokens[1..]))
  }

  /** `ToString`. */
  method ToString(p: Pointer) returns (r: string)
    ensures r == Text(p)
  {
    r := "";
    var i := 0;
    while i < |p.tokens|
      invariant 0 <= i <= |p.tokens|
      invariant r == Text(Pointer(p.tokens[..i]))
    {
      assert p.tokens[..i + 1] == p.tokens[..i] + [p.tokens[i]];
      TextConcat(p.tokens[..i], [p.tokens[i]]);
      assert [p.tokens[i]][1..] == [];
      r := r + "/" + p.tokens[i];
      i := i + 1;
    }
    assert p.tokens[..i] == p.tokens;
  }

  /** The text of a composition is the concatenation of the texts. */
  lemma TextCompose(a: Pointer, b: Pointer)
    ensures Text(Compose(a, b)) == Text(a) + Text(b)
  {
    assert Compose(a, b) == Pointer(a.tokens + b.tokens);
    TextConcat(a.tokens, b.tokens);
  }

  lemma {:induction false} TextConcat(x: seq<string>, y: seq<string>)
    ensures Text(Pointer(x + y)) == Text(Pointer(x)) + Text(Pointer(y))
    decreases |x|
  {
    if x != [] {
      assert (x + y)[0] == x[0] && (x + y)[1..] == x[1..] + y;
      TextConcat(x[1..], y);
      var head := "/" + x[0];
      assert Text(Pointer(x + y)) == head + Text(Pointer(x[1..] + y));
      assert Text(Pointer(x)) == head + Text(Pointer(x[1..]));
    } else {
      assert x + y == y;
    }
  }

  /** `string.Split('/')`: always at least one piece, none containing '/'. */
  function Split(s: string): (r: seq<string>)
    ensures |r| >= 1
    ensures forall i :: 0 <= i < |r| ==> '/' !in r[i]
    decreases |s|
  {
    if s == [] then [""]
    else if s[0] == '/' then [""] + Split(s[1..])
    else
      var rest := Split(s[1..]);
      [[s[0]] + rest[0]] + rest[1..]
  }

  /** The inverse of Split: the pieces joined by '/'. */
  function Join(ts: seq<string>): string
    requires |ts| >= 1
    decreases |ts|
  {
    if |ts| == 1 then ts[0] else ts[0] + "/" + Join(ts[1..])
  }

  lemma {:induction false} JoinSplit(s: string)
    ensures Join(Split(s)) == s
    decreases |s|
  {
    if s != [] {
      JoinSplit(s[1..]);
      var rest := Split(s[1..]);
      if s[0] == '/' {
        assert Split(s)[1..] == rest;
      } else if |rest| == 1 {
        assert Join(Split(s)) == [s[0]] + rest[0];
      } else {
        assert Split(s)[1..] == rest[1..];
        assert Join(Split(s)) == ([s[0]] + rest[0]) + "/" + Join(rest[1..]);
      }
    }
  }

  /** Splitting a piece without '/' followed by more text glues the piece to the first part. */
  lemma {:induction false} SplitPrefix(t: string, s: string)
    requires '/' !in t
    ensures Split(t + s) == [t + Split(s)[0]] + Split(s)[1..]
    decreases |t|
  {
    if t != [] {
      assert (t + s)[1..] == t[1..] + s;
      assert (t + s)[0] == t[0] && t[0] != '/';
      assert '/' !in t[1..];
      SplitPrefix(t[1..], s);
      assert [t[0]] + (t[1..] + Split(s)[0]) == t + Split(s)[0];
    } else {
      assert t + s == s;
      assert t + Split(s)[0] == Split(s)[0];
      assert Split(s) == [Split(s)[0]] + Split(s)[1..];
    }
  }

  lemma SplitPiece(t: string)
    requires '/' !in t
    ensures Split(t) == [t]
  {
    SplitPrefix(t, "");
    assert t + "" == t;
  }

  lemma {:induction false} SplitJoin(ts: seq<string>)
    requires |ts| >= 1
    requires forall i :: 0 <= i < |ts| ==> '/' !in ts[i]
    ensures Split(Join(ts)) == ts
    decreases |ts|
  {
    if |ts| == 1 {
      SplitPiece(ts[0]);
    } else {
      var rest := Join(ts[1..]);
      SplitJoin(ts[1..]);
      assert ("/" + rest)[1..] == rest;
      assert ("/" + rest)[0] == '/';
      assert Split("/" + rest) == [""] + ts[1..];
      SplitPrefix(ts[0], "/" + rest);
      assert ts[0] + "" == ts[0];
      assert Join(ts) == ts[0] + ("/" + rest);
      assert ts == [ts[0]] + ts[1..];
    }
  }

  /** `TryParse`: "" is the root; otherwise '/' then '/'-separated legitimate tokens. */
  function Parse(s: string): (r: Option<Pointer>)
    ensures r.Some? ==> r.value.Valid()
  {
    if s == [] then Some(Root)
    else if s[0] != '/' then None
    else
      var ts := Split(s[1..]);
      if forall i :: 0 <= i < |ts| ==> WellEscaped(ts[i]) then Some(Pointer(ts)) else None
  }

  lemma {:induction false} TextOfNonEmpty(p: Pointer)
    requires p.tokens != []
    ensures Text(p) == "/" + Join(p.tokens)
    decreases |p.tokens|
  {
    var rest := Pointer(p.tokens[1..]);
    if |p.tokens| > 1 {
      TextOfNonEmpty(rest);
      assert Text(p) == "/" + p.tokens[0] + ("/" + Join(rest.tokens));
    } else {
      assert rest.tokens == [];
    }
  }

  /** Printing then parsing a pointer gives it back. */
  lemma ParseText(p: Pointer)
    requires p.Valid()
    ensures Parse(Text(p)) == Some(p)
  {
    if p.tokens != [] {
      TextOfNonEmpty(p);
      forall i | 0 <= i < |p.tokens| ensures '/' !in p.tokens[i] {
        WellEscapedHasNoSlash(p.tokens[i]);
      }
      SplitJoin(p.tokens);
      assert ("/" + Join(p.tokens))[1..] == Join(p.tokens);
    }
  }

  /** Parsing then printing gives the parsed text back. */
  lemma TextParse(s: string)
    requires Parse(s).Some?
    ensures Text(Parse(s).value) == s
  {
    if s != [] {
      JoinSplit(s[1..]);
      TextOfNonEmpty(Parse(s).value);
      assert s == "/" + s[1..];
    }
  }

  /** `TryParse` as written: splits, then checks every token with `TryUnescape`. */
  method TryParse(value: string) returns (r: Option<Pointer>)
    ensures r == Parse(value)
  {
    if |value| == 0 {
      return Some(Root);
    }
    if value[0] != '/' {
      return None;
    }
    var tokens := Split(value[1..]);
    var i := 0;
    while i < |tokens|
      invariant 0 <= i <= |tokens|
      invariant forall j :: 0 <= j < i ==> WellEscaped(tokens[j])
    {
      var ok := IsReferenceToken(tokens[i]);
      if !ok {
        return None;
      }
      i := i + 1;
    }
    return Some(Pointer(tokens));
  }

  /** The documented examples of the escaping and parsing rules. */
  lemma EscapeExamples()
    ensures Escaped("a/b") == "a~1b" && Escaped("m~n") == "m~0n"
    ensures Unescaped("a~1b") == Some("a/b") && Unescaped("m~0n") == Some("m~n")
    ensures Unescaped("a/b") == None && Unescaped("m~n") == None
  {
    assert "a/b"[1..] == "/b" && "/b"[1..] == "b" && "b"[1..] == "";
    assert "m~n"[1..] == "~n" && "m~0n"[1..] == "~0n" && "~0n"[2..] == "n" && "n"[1..] == "";
    assert "a~1b"[1..] == "~1b" && "~1b"[2..] == "b";
    assert Escaped("a/b") == "a~1b";
    assert Escaped("m~n") == "m~0n";
    UnescapeEscape("a/b");
    UnescapeEscape("m~n");
    UnescapedDefinedIff("m~n");
  }

  lemma SplitExample()
    ensures Split("a/b") == ["a", "b"]
  {
    SplitPiece("b");
    assert "/b"[1..] == "b";
    assert Split("/b") == ["", "b"];
    assert "a" + "/b" == "a/b";
    SplitPrefix("a", "/b");
    assert "a" + "" == "a";
  }

  lemma ParseExamples()
    ensures Parse("a/b") == None && Parse("/m~n") == None
    ensures Parse("").value.Length() == 0
    ensures Parse("/a~1b").Some? && Parse("/a~1b").value.Length() == 1
    ensures Parse("/a/b").Some? && Parse("/a/b").value.Length() == 2
  {
    ParseRejects();
    ParseAccepts();
  }

  lemma ParseRejects()
    ensures Parse("a/b") == None && Parse("/m~n") == None
  {
    assert "/m~n"[1..] == "m~n";
    SplitPiece("m~n");
    EscapeExamples();
    UnescapedDefinedIff("m~n");
    assert !WellEscaped(Split("/m~n"[1..])[0]);
  }

  lemma ParseAccepts()
    ensures Parse("/a~1b").Some? && Parse("/a~1b").value.Length() == 1
    ensures Parse("/a/b").Some? && Parse("/a/b").value.Length() == 2
  {
    SplitExample();
    assert "/a/b"[1..] == "a/b";
    UnescapedDefinedIff("a");
    UnescapedDefinedIff("b");
    assert "/a~1b"[1..] == "a~1b";
    SplitPiece("a~1b");
    EscapeExamples();
    UnescapedDefinedIff("a~1b");
  }
}
