/**
 * TextExtenders: snake-casing, capitalisation, trimming every entry of a
 * list in place, and the line-ending helpers of a string builder.
 * Letter case is that of the ASCII letters.
 */
module TextExtenders {

  // -------------------------------------------------------- characters

  predicate IsLower(c: char) { 'a' <= c <= 'z' }
  predicate IsUpper(c: char) { 'A' <= c <= 'Z' }
  predicate IsLetter(c: char) { IsLower(c) || IsUpper(c) }

  function ToLower(c: char): (r: char)
    ensures IsUpper(c) ==> IsLower(r)
    ensures !IsUpper(c) ==> r == c
  {
    if IsUpper(c) then (c as int - 'A' as int + 'a' as int) as char else c
  }

  function ToUpper(c: char): (r: char)
    ensures IsLower(c) ==> IsUpper(r) && ToLower(r) == c
    ensures !IsLower(c) ==> r == c
  {
    if IsLower(c) then (c as int - 'a' as int + 'A' as int) as char else c
  }

  /** The characters `char.IsWhiteSpace` accepts: the Unicode space separators, the line and paragraph separators, and the controls U+0009-U+000D and U+0085. */
  const WhiteSpace: set<char> := {
    '\U{0020}', '\U{0009}', '\U{000A}', '\U{000B}', '\U{000C}', '\U{000D}',
    '\U{0085}', '\U{00A0}', '\U{1680}',
    '\U{2000}', '\U{2001}', '\U{2002}', '\U{2003}', '\U{2004}', '\U{2005}', '\U{2006}', '\U{2007}', '\U{2008}', '\U{2009}', '\U{200A}',
    '\U{2028}', '\U{2029}', '\U{202F}', '\U{205F}', '\U{3000}'
  }

  predicate IsWhiteSpace(c: char)
  {
    c in WhiteSpace
  }

  // ------------------------------------------------------------ snake case

  /** `StringSnakeOptions`, one flag per field; `Trim` is both trims. */
  datatype SnakeOptions = SnakeOptions(collapseUnderscores: bool, trimStart: bool, trimEnd: bool)

  const NoOptions := SnakeOptions(false, false, false)
  const CollapseUnderscores := SnakeOptions(true, false, false)
  const Trim := SnakeOptions(false, true, true)

  /** What one input character contributes, given the character before it. */
  function Piece(previous: string, c: char, collapse: bool): (r: string)
    requires |previous| <= 1
  {
    if IsLower(c) then [c]
    else if IsUpper(c) then (if previous != [] && IsLower(previous[0]) then "_" else "") + [ToLower(c)]
    else if previous != [] && !IsLetter(previous[0]) && collapse then ""
    else "_"
  }

  /** The text the first loop of `ToSnakeCase` builds from `s`, when `previous` came before it. */
  function SnakedAfter(previous: string, s: string, collapse: bool): (r: string)
    requires |previous| <= 1
    ensures |r| <= 2 * |s|
    ensures previous == [] ==> (r == [] <==> s == [])
    decreases |s|
  {
    if s == [] then [] else Piece(previous, s[0], collapse) + SnakedAfter([s[0]], s[1..], collapse)
  }

  function Snaked(s: string, collapse: bool): (r: string)
  {
    SnakedAfter([], s, collapse)
  }

  function DropLeading(s: string): (r: string)
    ensures |r| <= |s| && r == s[|s| - |r|..]
    ensures r == [] || r[0] != '_'
    ensures forall i :: 0 <= i < |s| - |r| ==> s[i] == '_'
  {
    if s != [] && s[0] == '_' then
      var t := s[1..];
      var r := DropLeading(t);
      assert forall i :: 0 < i < |s| ==> s[i] == t[i - 1];
      assert t[|t| - |r|..] == s[|s| - |r|..];
      r
    else s
  }

  function DropTrailing(s: string): (r: string)
    ensures |r| <= |s| && r == s[..|r|]
    ensures r == [] || r[|r| - 1] != '_'
    ensures forall i :: |r| <= i < |s| ==> s[i] == '_'
  {
    if s != [] && s[|s| - 1] == '_' then
      var t := s[..|s| - 1];
      var r := DropTrailing(t);
      assert forall i :: 0 <= i < |t| ==> s[i] == t[i];
      assert t[..|r|] == s[..|r|];
      r
    else s
  }

  /** What `ToSnakeCase` returns. */
  function SnakeCase(s: string, options: SnakeOptions): string
  {
    var raw := Snaked(s, options.collapseUnderscores);
    var front := if options.trimStart then DropLeading(raw) else raw;
    if options.trimEnd then DropTrailing(front) else front
  }

  /** The character before position i, if any. */
  function Before(s: string, i: nat): (r: string)
    requires i <= |s|
    ensures |r| <= 1
  {
    if i == 0 then [] else [s[i - 1]]
  }

  /** One turn of the first loop consumes one character. */
  lemma SnakedStep(s: string, i: nat, collapse: bool)
    requires i < |s|
    ensures SnakedAfter(Before(s, i), s[i..], collapse)
      == Piece(Before(s, i), s[i], collapse) + SnakedAfter(Before(s, i + 1), s[i + 1..], collapse)
  {
    assert s[i..][1..] == s[i + 1..];
  }

  method ToSnakeCase(that: string, options: SnakeOptions) returns (r: string)
    ensures r == SnakeCase(that, options)
  {
    var builder := "";
    var wasUnderscore := false;
    var wasLowercase := false;
    assert that[0..] == that;
    for i := 0 to |that|
      invariant builder + SnakedAfter(Before(that, i), that[i..], options.collapseUnderscores)
        == Snaked(that, options.collapseUnderscores)
      invariant wasUnderscore <==> i > 0 && !IsLetter(that[i - 1])
      invariant wasLowercase <==> i > 0 && IsLower(that[i - 1])
    {
      SnakedStep(that, i, options.collapseUnderscores);
      var c := that[i];
      var isLowercase := IsLower(c);
      var isUppercase := IsUpper(c);
      var isNeither := false;
      ghost var piece := Piece(Before(that, i), c, options.collapseUnderscores);
      ghost var start := builder;
      if isLowercase {
        builder := builder + [c];
      } else if isUppercase {
        if wasLowercase {
          builder := builder + "_";
        }
        builder := builder + [ToLower(c)];
      } else {
        isNeither := true;
        if !wasUnderscore {
          builder := builder + "_";
        } else if !options.collapseUnderscores {
          builder := builder + "_";
        }
      }
      assert builder == start + piece;
      ghost var rest := SnakedAfter(Before(that, i + 1), that[i + 1..], options.collapseUnderscores);
      Associative(start, piece, rest);
      wasUnderscore := isNeither;
      wasLowercase := isLowercase;
    }
    assert builder == Snaked(that, options.collapseUnderscores);
    if options.trimStart {
      builder := RemoveLeadingUnderscores(builder);
    }
    if options.trimEnd {
      builder := RemoveTrailingUnderscores(builder);
    }
    r := builder;
  }

  lemma Associative(a: string, b: string, c: string)
    ensures (a + b) + c == a + (b + c)
  {
  }

  /** The `TrimStart` loop of `ToSnakeCase`. */
  method RemoveLeadingUnderscores(s: string) returns (r: string)
    ensures r == DropLeading(s)
  {
    r := s;
    while |r| != 0
      invariant DropLeading(r) == DropLeading(s)
    {
      if r[0] == '_' {
        r := r[1..];
      } else {
        break;
      }
    }
  }

  /** The `TrimEnd` loop of `ToSnakeCase`. */
  method RemoveTrailingUnderscores(s: string) returns (r: string)
    ensures r == DropTrailing(s)
  {
    r := s;
    while |r| != 0
      invariant DropTrailing(r) == DropTrailing(s)
    {
      if r[|r| - 1] == '_' {
        r := r[..|r| - 1];
      } else {
        break;
      }
    }
  }

  /** The letters of a string, lowered, in order. */
  function LowerLetters(s: string): (r: string)
    ensures forall i :: 0 <= i < |r| ==> IsLower(r[i])
  {
    if s == [] then [] else (if IsLetter(s[0]) then [ToLower(s[0])] else []) + LowerLetters(s[1..])
  }

  /** A string with its underscores taken out. */
  function WithoutUnderscores(s: string): (r: string)
    ensures |r| <= |s|
  {
    if s == [] then [] else (if s[0] == '_' then [] else [s[0]]) + WithoutUnderscores(s[1..])
  }

  lemma {:induction false} WithoutUnderscoresConcat(a: string, b: string)
    ensures WithoutUnderscores(a + b) == WithoutUnderscores(a) + WithoutUnderscores(b)
    decreases |a|
  {
    if a != [] {
      assert (a + b)[1..] == a[1..] + b;
      WithoutUnderscoresConcat(a[1..], b);
    } else {
      assert a + b == b;
    }
  }

  lemma {:induction false} DropLeadingKeepsLetters(s: string)
    ensures WithoutUnderscores(DropLeading(s)) == WithoutUnderscores(s)
    decreases |s|
  {
    if s != [] && s[0] == '_' {
      DropLeadingKeepsLetters(s[1..]);
    }
  }

  lemma {:induction false} DropTrailingKeepsLetters(s: string)
    ensures WithoutUnderscores(DropTrailing(s)) == WithoutUnderscores(s)
    decreases |s|
  {
    if s != [] && s[|s| - 1] == '_' {
      var init := s[..|s| - 1];
      DropTrailingKeepsLetters(init);
      assert s == init + "_";
      WithoutUnderscoresConcat(init, "_");
      assert WithoutUnderscores("_") == [] by {
        assert "_"[1..] == [];
      }
    }
  }

  /** What one piece keeps of its character once the underscores are out. */
  lemma PieceKeepsLetter(previous: string, c: char, collapse: bool)
    requires |previous| <= 1
    ensures WithoutUnderscores(Piece(previous, c, collapse)) == (if IsLetter(c) then [ToLower(c)] else [])
  {
    var piece := Piece(previous, c, collapse);
    if IsUpper(c) && |piece| == 2 {
      assert piece[1..][1..] == [];
    } else if piece != [] {
      assert piece[1..] == [];
    }
  }

  lemma {:induction false} SnakedKeepsLetters(previous: string, s: string, collapse: bool)
    requires |previous| <= 1
    ensures WithoutUnderscores(SnakedAfter(previous, s, collapse)) == LowerLetters(s)
    decreases |s|
  {
    if s != [] {
      SnakedKeepsLetters([s[0]], s[1..], collapse);
      WithoutUnderscoresConcat(Piece(previous, s[0], collapse), SnakedAfter([s[0]], s[1..], collapse));
      PieceKeepsLetter(previous, s[0], collapse);
    }
  }

  /**
   * Taking the underscores out of the result leaves exactly the letters of
   * the input, lower-cased and in order.
   */
  lemma SnakeCaseKeepsLetters(s: string, options: SnakeOptions)
    ensures WithoutUnderscores(SnakeCase(s, options)) == LowerLetters(s)
  {
    var raw := Snaked(s, options.collapseUnderscores);
    SnakedKeepsLetters([], s, options.collapseUnderscores);
    DropLeadingKeepsLetters(raw);
    var front := if options.trimStart then DropLeading(raw) else raw;
    DropTrailingKeepsLetters(front);
  }

  /** Only lower-case letters and underscores. */
  predicate SnakeAlphabet(t: string)
  {
    forall i :: 0 <= i < |t| ==> IsLower(t[i]) || t[i] == '_'
  }

  /** Every character of the raw text is a lower-case letter or an underscore. */
  lemma {:induction false} SnakedAlphabet(previous: string, s: string, collapse: bool)
    requires |previous| <= 1
    ensures SnakeAlphabet(SnakedAfter(previous, s, collapse))
    decreases |s|
  {
    if s != [] {
      SnakedAlphabet([s[0]], s[1..], collapse);
      var piece := Piece(previous, s[0], collapse);
      var rest := SnakedAfter([s[0]], s[1..], collapse);
      assert SnakeAlphabet(piece);
      assert forall i :: |piece| <= i < |piece + rest| ==> (piece + rest)[i] == rest[i - |piece|];
    }
  }

  /** The result holds only lower-case letters and underscores, and the trims keep their promise. */
  lemma SnakeCaseAlphabet(s: string, options: SnakeOptions)
    ensures SnakeAlphabet(SnakeCase(s, options))
    ensures options.trimStart ==> SnakeCase(s, options) == [] || SnakeCase(s, options)[0] != '_'
    ensures options.trimEnd ==> SnakeCase(s, options) == [] || SnakeCase(s, options)[|SnakeCase(s, options)| - 1] != '_'
  {
    SnakedAlphabet([], s, options.collapseUnderscores);
    TrimmedAlphabet(Snaked(s, options.collapseUnderscores), options);
  }

  /** The trims keep the alphabet and leave no underscore at a trimmed end. */
  lemma TrimmedAlphabet(raw: string, options: SnakeOptions)
    requires SnakeAlphabet(raw)
    ensures var front := if options.trimStart then DropLeading(raw) else raw;
      var r := if options.trimEnd then DropTrailing(front) else front;
      SnakeAlphabet(r) &&
      (options.trimStart ==> r == [] || r[0] != '_') &&
      (options.trimEnd ==> r == [] || r[|r| - 1] != '_')
  {
    var front := if options.trimStart then DropLeading(raw) else raw;
    if options.trimStart {
      SuffixAlphabet(raw, front);
    }
    var r := if options.trimEnd then DropTrailing(front) else front;
    if options.trimEnd {
      PrefixAlphabet(front, r);
    }
  }

  lemma SuffixAlphabet(s: string, t: string)
    requires SnakeAlphabet(s) && |t| <= |s| && t == s[|s| - |t|..]
    ensures SnakeAlphabet(t)
  {
    assert forall i :: 0 <= i < |t| ==> t[i] == s[|s| - |t| + i];
  }

  lemma PrefixAlphabet(s: string, t: string)
    requires SnakeAlphabet(s) && |t| <= |s| && t == s[..|t|]
    ensures SnakeAlphabet(t) && (t != [] ==> t[0] == s[0])
  {
    assert forall i :: 0 <= i < |t| ==> t[i] == s[i];
  }

  /** No two underscores side by side. */
  predicate NoDoubleUnderscore(s: string)
  {
    forall i :: 0 <= i < |s| - 1 ==> !(s[i] == '_' && s[i + 1] == '_')
  }

  lemma NoDoubleUnderscoreConcat(a: string, b: string)
    requires NoDoubleUnderscore(a) && NoDoubleUnderscore(b)
    requires a != [] && b != [] ==> !(a[|a| - 1] == '_' && b[0] == '_')
    ensures NoDoubleUnderscore(a + b)
  {
    forall i | 0 <= i < |a + b| - 1
      ensures !((a + b)[i] == '_' && (a + b)[i + 1] == '_')
    {
      if i + 1 < |a| {
        assert (a + b)[i] == a[i] && (a + b)[i + 1] == a[i + 1];
      } else if i >= |a| {
        assert (a + b)[i] == b[i - |a|] && (a + b)[i + 1] == b[i - |a| + 1];
      }
    }
  }

  /** With collapsing, after a non-letter the text goes on with a letter or not at all. */
  lemma {:induction false} CollapsedAfterNonLetter(previous: string, s: string)
    requires |previous| == 1 && !IsLetter(previous[0])
    ensures SnakedAfter(previous, s, true) == [] || SnakedAfter(previous, s, true)[0] != '_'
    decreases |s|
  {
    if s != [] && !IsLetter(s[0]) {
      CollapsedAfterNonLetter([s[0]], s[1..]);
    }
  }

  /**
   * Collapsing leaves no two underscores side by side: a piece ends with
   * '_' only for a non-letter, after which nothing is written until the
   * next letter.
   */
  lemma {:induction false} CollapsedHasNoDoubleUnderscore(previous: string, s: string)
    requires |previous| <= 1
    ensures NoDoubleUnderscore(SnakedAfter(previous, s, true))
    decreases |s|
  {
    if s != [] {
      var piece := Piece(previous, s[0], true);
      var rest := SnakedAfter([s[0]], s[1..], true);
      CollapsedHasNoDoubleUnderscore([s[0]], s[1..]);
      if !IsLetter(s[0]) {
        CollapsedAfterNonLetter([s[0]], s[1..]);
      }
      assert NoDoubleUnderscore(piece);
      NoDoubleUnderscoreConcat(piece, rest);
    }
  }

  /** The number of underscores in a string. */
  function Underscores(s: string): nat
  {
    if s == [] then 0 else (if s[0] == '_' then 1 else 0) + Underscores(s[1..])
  }

  /** The non-letters of a string plus the places where a lower-case letter is followed by an upper-case one. */
  function Breaks(previous: string, s: string): nat
    requires |previous| <= 1
    decreases |s|
  {
    if s == [] then 0
    else
      var c := s[0];
      (if !IsLetter(c) || (IsUpper(c) && previous != [] && IsLower(previous[0])) then 1 else 0) + Breaks([c], s[1..])
  }

  lemma {:induction false} UnderscoresConcat(a: string, b: string)
    ensures Underscores(a + b) == Underscores(a) + Underscores(b)
    decreases |a|
  {
    if a != [] {
      assert (a + b)[1..] == a[1..] + b;
      UnderscoresConcat(a[1..], b);
    } else {
      assert a + b == b;
    }
  }

  /** Without collapsing, one underscore per non-letter and one per lower-to-upper step. */
  lemma {:induction false} UncollapsedUnderscores(previous: string, s: string)
    requires |previous| <= 1
    ensures Underscores(SnakedAfter(previous, s, false)) == Breaks(previous, s)
    decreases |s|
  {
    if s != [] {
      UncollapsedUnderscores([s[0]], s[1..]);
      var piece := Piece(previous, s[0], false);
      UnderscoresConcat(piece, SnakedAfter([s[0]], s[1..], false));
      if |piece| == 2 {
        assert piece[1..][1..] == [];
      } else {
        assert piece[1..] == [];
      }
    }
  }

  /** The raw text of a concatenation is the concatenation of the raw texts. */
  lemma {:induction false} SnakedConcat(previous: string, a: string, b: string, collapse: bool)
    requires |previous| <= 1
    ensures SnakedAfter(previous, a + b, collapse)
      == SnakedAfter(previous, a, collapse) + SnakedAfter(if a == [] then previous else [a[|a| - 1]], b, collapse)
    decreases |a|
  {
    if a == [] {
      assert a + b == b;
    } else {
      assert (a + b)[0] == a[0] && (a + b)[1..] == a[1..] + b;
      SnakedConcat([a[0]], a[1..], b, collapse);
      if a[1..] != [] {
        assert a[1..][|a[1..]| - 1] == a[|a| - 1];
      }
    }
  }

  /** Lower-case text passes through unchanged. */
  lemma {:induction false} SnakedLowerCase(previous: string, w: string, collapse: bool)
    requires |previous| <= 1 && forall i :: 0 <= i < |w| ==> IsLower(w[i])
    ensures SnakedAfter(previous, w, collapse) == w
    decreases |w|
  {
    if w != [] {
      SnakedLowerCase([w[0]], w[1..], collapse);
    }
  }

  lemma SnakeCaseExampleCapitalization()
    ensures SnakeCase(" " + "first" + "N" + "ame", NoOptions) == "_" + "first" + "_n" + "ame"
  {
    var s1 := " " + "first";
    var s2 := s1 + "N";
    assert SnakedAfter([], " ", false) == "_";
    SnakedLowerCase([' '], "first", false);
    SnakedConcat([], " ", "first", false);
    assert s1[|s1| - 1] == 't';
    assert SnakedAfter(['t'], "N", false) == "_n";
    SnakedConcat([], s1, "N", false);
    SnakedLowerCase(['N'], "ame", false);
    SnakedConcat([], s2, "ame", false);
  }

  lemma SnakeCaseExampleDouble()
    ensures SnakeCase("first" + " " + " " + "name" + " ", NoOptions) == "first" + "_" + "_" + "name" + "_"
  {
    var s1 := "first" + " ";
    var s2 := s1 + " ";
    var s3 := s2 + "name";
    SnakedLowerCase([], "first", false);
    assert SnakedAfter(['t'], " ", false) == "_";
    SnakedConcat([], "first", " ", false);
    assert s1[|s1| - 1] == ' ';
    assert SnakedAfter([' '], " ", false) == "_";
    SnakedConcat([], s1, " ", false);
    assert s2[|s2| - 1] == ' ';
    SnakedLowerCase([' '], "name", false);
    SnakedConcat([], s2, "name", false);
    assert s3[|s3| - 1] == 'e';
    assert SnakedAfter(['e'], " ", false) == "_";
    SnakedConcat([], s3, " ", false);
  }

  lemma SnakeCaseExampleCollapse()
    ensures SnakeCase("first" + " " + " " + "name" + " ", CollapseUnderscores) == "first" + "_" + "name" + "_"
  {
    var s1 := "first" + " ";
    var s2 := s1 + " ";
    var s3 := s2 + "name";
    SnakedLowerCase([], "first", true);
    assert SnakedAfter(['t'], " ", true) == "_";
    SnakedConcat([], "first", " ", true);
    assert s1[|s1| - 1] == ' ';
    assert SnakedAfter([' '], " ", true) == "";
    SnakedConcat([], s1, " ", true);
    assert s2[|s2| - 1] == ' ';
    SnakedLowerCase([' '], "name", true);
    SnakedConcat([], s2, "name", true);
    assert s3[|s3| - 1] == 'e';
    assert SnakedAfter(['e'], " ", true) == "_";
    SnakedConcat([], s3, " ", true);
  }

  /** k underscores. */
  function Bar(k: nat): (r: string)
    ensures |r| == k && forall i :: 0 <= i < k ==> r[i] == '_'
  {
    seq(k, _ => '_')
  }

  /** Without collapsing, every non-letter becomes one underscore. */
  lemma {:induction false} SnakedNonLetters(previous: string, w: string)
    requires |previous| <= 1 && forall i :: 0 <= i < |w| ==> !IsLetter(w[i])
    ensures SnakedAfter(previous, w, false) == Bar(|w|)
    decreases |w|
  {
    if w != [] {
      SnakedNonLetters([w[0]], w[1..]);
      assert Bar(|w|) == "_" + Bar(|w| - 1);
    }
  }

  /** Leading underscores before a text that does not start with one are all dropped. */
  lemma {:induction false} DropLeadingBar(k: nat, t: string)
    requires t == [] || t[0] != '_'
    ensures DropLeading(Bar(k) + t) == t
    decreases k
  {
    if k == 0 {
      assert Bar(k) + t == t;
    } else {
      assert (Bar(k) + t)[1..] == Bar(k - 1) + t;
      DropLeadingBar(k - 1, t);
    }
  }

  /** Trailing underscores after a text that does not end with one are all dropped. */
  lemma {:induction false} DropTrailingBar(t: string, k: nat)
    requires t == [] || t[|t| - 1] != '_'
    ensures DropTrailing(t + Bar(k)) == t
    decreases k
  {
    if k == 0 {
      assert t + Bar(k) == t;
    } else {
      var u := t + Bar(k - 1);
      assert Bar(k) == Bar(k - 1) + "_";
      assert t + Bar(k) == u + "_";
      assert (u + "_")[..|u|] == u;
      assert DropTrailing(u + "_") == DropTrailing(u);
      DropTrailingBar(t, k - 1);
    }
  }

  lemma SnakeCaseExampleTrim()
    ensures SnakeCase(" ?% " + "happiness" + " " + "for" + " " + "A" + "ll" + " !!! ", Trim)
      == "happiness" + "_" + "for" + "_" + "a" + "ll"
  {
    var front := " ?% " + "happiness" + " " + "for";
    var back := " " + "A" + "ll" + " !!! ";
    TrimExampleFront();
    TrimExampleBack();
    assert front[|front| - 1] == 'r';
    SnakedConcat([], front, back, false);
    assert front + back == " ?% " + "happiness" + " " + "for" + " " + "A" + "ll" + " !!! ";
    var body := "happiness" + "_" + "for" + "_" + "a" + "ll";
    assert Bar(4) + "happiness" + "_" + "for" + ("_" + "a" + "ll" + Bar(5)) == Bar(4) + (body + Bar(5));
    DropLeadingBar(4, body + Bar(5));
    DropTrailingBar(body, 5);
  }

  lemma TrimExampleFront()
    ensures Snaked(" ?% " + "happiness" + " " + "for", false) == Bar(4) + "happiness" + "_" + "for"
  {
    var s1 := " ?% " + "happiness";
    var s2 := s1 + " ";
    SnakedNonLetters([], " ?% ");
    SnakedLowerCase([' '], "happiness", false);
    SnakedConcat([], " ?% ", "happiness", false);
    assert s1[|s1| - 1] == 's';
    assert SnakedAfter(['s'], " ", false) == "_";
    SnakedConcat([], s1, " ", false);
    assert s2[|s2| - 1] == ' ';
    SnakedLowerCase([' '], "for", false);
    SnakedConcat([], s2, "for", false);
  }

  lemma TrimExampleBack()
    ensures SnakedAfter("r", " " + "A" + "ll" + " !!! ", false) == "_" + "a" + "ll" + Bar(5)
  {
    var s1 := " " + "A";
    var s2 := s1 + "ll";
    assert SnakedAfter("r", " ", false) == "_";
    assert SnakedAfter(" ", "A", false) == "a";
    SnakedConcat("r", " ", "A", false);
    assert s1[|s1| - 1] == 'A';
    SnakedLowerCase("A", "ll", false);
    SnakedConcat("r", s1, "ll", false);
    assert s2[|s2| - 1] == 'l';
    SnakedNonLetters("l", " !!! ");
    SnakedConcat("r", s2, " !!! ", false);
  }

  // ------------------------------------------------------- capitalisation

  /** `CapitalizeFirstLetter`. */
  function CapitalizeFirstLetter(s: string): (r: string)
    ensures |r| == |s| && (s == [] ==> r == s)
    ensures s != [] ==> r[0] == ToUpper(s[0]) && r[1..] == s[1..]
    ensures s != [] ==> !IsLower(r[0])
  {
    if s == [] then s else [ToUpper(s[0])] + s[1..]
  }

  lemma CapitalizeIdempotent(s: string)
    ensures CapitalizeFirstLetter(CapitalizeFirstLetter(s)) == CapitalizeFirstLetter(s)
  {
  }

  // ------------------------------------------------------------- trimming

  function TrimStart(s: string): string
  {
    if s != [] && IsWhiteSpace(s[0]) then TrimStart(s[1..]) else s
  }

  function TrimEnd(s: string): string
  {
    if s != [] && IsWhiteSpace(s[|s| - 1]) then TrimEnd(s[..|s| - 1]) else s
  }

  /** `TrimStart` removes a white-space prefix, the longest one. */
  lemma {:induction false} TrimStartSpec(s: string)
    ensures |TrimStart(s)| <= |s| && TrimStart(s) == s[|s| - |TrimStart(s)|..]
    ensures TrimStart(s) == [] || !IsWhiteSpace(TrimStart(s)[0])
    ensures forall i :: 0 <= i < |s| - |TrimStart(s)| ==> IsWhiteSpace(s[i])
    decreases |s|
  {
    if s != [] && IsWhiteSpace(s[0]) {
      TrimStartSpec(s[1..]);
    }
  }

  /** `TrimEnd` removes a white-space suffix, the longest one. */
  lemma {:induction false} TrimEndSpec(s: string)
    ensures |TrimEnd(s)| <= |s| && TrimEnd(s) == s[..|TrimEnd(s)|]
    ensures TrimEnd(s) == [] || !IsWhiteSpace(TrimEnd(s)[|TrimEnd(s)| - 1])
    ensures forall i :: |TrimEnd(s)| <= i < |s| ==> IsWhiteSpace(s[i])
    decreases |s|
  {
    if s != [] && IsWhiteSpace(s[|s| - 1]) {
      TrimEndSpec(s[..|s| - 1]);
    }
  }

  /** `string.Trim`: white space removed from both ends. */
  function Trimmed(s: string): (r: string)
  {
    TrimEnd(TrimStart(s))
  }

  lemma TrimmedEnds(s: string)
    ensures Trimmed(s) == [] || (!IsWhiteSpace(Trimmed(s)[0]) && !IsWhiteSpace(Trimmed(s)[|Trimmed(s)| - 1]))
  {
    var a := TrimStart(s);
    var r := TrimEnd(a);
    TrimStartSpec(s);
    TrimEndSpec(a);
    if r != [] {
      assert r[0] == a[0];
    }
  }

  /** What is cut off on either side is white space, and what is kept is one piece of the original. */
  lemma TrimmedSlice(s: string)
    ensures exists i, j :: (0 <= i <= j <= |s| && Trimmed(s) == s[i..j] &&
      (forall t :: 0 <= t < i ==> IsWhiteSpace(s[t])) && (forall t :: j <= t < |s| ==> IsWhiteSpace(s[t])))
  {
    var a := TrimStart(s);
    var r := TrimEnd(a);
    TrimStartSpec(s);
    TrimEndSpec(a);
    var i := |s| - |a|;
    var j := i + |r|;
    assert a == s[i..];
    assert r == s[i..j];
    forall t | j <= t < |s|
      ensures IsWhiteSpace(s[t])
    {
      assert s[t] == a[t - i];
    }
  }

  lemma TrimmedIdempotent(s: string)
    ensures Trimmed(Trimmed(s)) == Trimmed(s)
  {
    var r := Trimmed(s);
    TrimmedEnds(s);
    assert TrimStart(r) == r;
    assert TrimEnd(r) == r;
  }

  /** What `TrimAll` leaves in the list. */
  function TrimmedAll(items: seq<string>, removeEmptyEntries: bool): (r: seq<string>)
    ensures |r| <= |items|
    ensures !removeEmptyEntries ==> |r| == |items|
  {
    if items == [] then []
    else
      var t := Trimmed(items[|items| - 1]);
      TrimmedAll(items[..|items| - 1], removeEmptyEntries) + (if removeEmptyEntries && t == [] then [] else [t])
  }

  /** Every entry left is trimmed, and with `removeEmptyEntries` none is empty. */
  lemma {:induction false} TrimmedAllEntries(items: seq<string>, removeEmptyEntries: bool)
    ensures forall i :: 0 <= i < |TrimmedAll(items, removeEmptyEntries)| ==>
      Trimmed(TrimmedAll(items, removeEmptyEntries)[i]) == TrimmedAll(items, removeEmptyEntries)[i]
    ensures removeEmptyEntries ==> forall i :: 0 <= i < |TrimmedAll(items, removeEmptyEntries)| ==> TrimmedAll(items, removeEmptyEntries)[i] != []
    decreases |items|
  {
    if items != [] {
      var init := items[..|items| - 1];
      var t := Trimmed(items[|items| - 1]);
      var r, r' := TrimmedAll(items, removeEmptyEntries), TrimmedAll(init, removeEmptyEntries);
      TrimmedAllEntries(init, removeEmptyEntries);
      TrimmedIdempotent(items[|items| - 1]);
      assert r == r' + (if removeEmptyEntries && t == [] then [] else [t]);
      forall i | 0 <= i < |r|
        ensures Trimmed(r[i]) == r[i] && (removeEmptyEntries ==> r[i] != [])
      {
        if i < |r'| {
          assert r[i] == r'[i];
        } else {
          assert r[i] == t;
        }
      }
    }
  }

  /** Without `removeEmptyEntries` each entry is replaced by its trimmed self, in place. */
  lemma {:induction false} TrimmedAllInPlace(items: seq<string>)
    ensures forall i :: 0 <= i < |items| ==> TrimmedAll(items, false)[i] == Trimmed(items[i])
    decreases |items|
  {
    if items != [] {
      var init := items[..|items| - 1];
      var r, r' := TrimmedAll(items, false), TrimmedAll(init, false);
      TrimmedAllInPlace(init);
      assert r == r' + [Trimmed(items[|items| - 1])];
      forall i | 0 <= i < |items|
        ensures r[i] == Trimmed(items[i])
      {
        if i < |init| {
          assert r[i] == r'[i] && init[i] == items[i];
        }
      }
    }
  }

  lemma TrimmedAllStep(items: seq<string>, j: nat, removeEmptyEntries: bool)
    requires j < |items|
    ensures TrimmedAll(items[..j + 1], removeEmptyEntries) == TrimmedAll(items[..j], removeEmptyEntries)
      + (if removeEmptyEntries && Trimmed(items[j]) == [] then [] else [Trimmed(items[j])])
  {
    var u := items[..j + 1];
    assert u[..|u| - 1] == items[..j] && u[|u| - 1] == items[j];
  }

  /** The list as `TrimAll` sees it at entry j: what is done, entry j, and the rest. */
  lemma Split<T>(done: seq<T>, original: seq<T>, j: nat)
    requires j < |original|
    ensures done + original[j..] == done + [original[j]] + original[j + 1..]
    ensures (done + original[j..])[|done|] == original[j]
    ensures forall y :: (done + original[j..])[|done| := y] == done + [y] + original[j + 1..]
    ensures (done + original[j..])[..|done|] + (done + original[j..])[|done| + 1..] == done + original[j + 1..]
  {
    assert original[j..] == [original[j]] + original[j + 1..];
  }

  /** One turn of the `TrimAll` loop: entry j is replaced by its trimmed self or removed. */
  lemma TrimAllTurn(original: seq<string>, j: nat, removeEmptyEntries: bool)
    requires j < |original|
    ensures var done, t := TrimmedAll(original[..j], removeEmptyEntries), Trimmed(original[j]);
      var list := done + original[j..];
      list[|done|] == original[j] &&
      (!removeEmptyEntries || |t| != 0 ==>
        list[|done| := t] == TrimmedAll(original[..j + 1], removeEmptyEntries) + original[j + 1..]) &&
      (removeEmptyEntries && |t| == 0 ==>
        list[..|done|] + list[|done| + 1..] == TrimmedAll(original[..j + 1], removeEmptyEntries) + original[j + 1..] &&
        |TrimmedAll(original[..j + 1], removeEmptyEntries)| == |done|)
  {
    var done := TrimmedAll(original[..j], removeEmptyEntries);
    TrimmedAllStep(original, j, removeEmptyEntries);
    Split(done, original, j);
  }

  /** A list of strings updated in place. */
  class StringList {
    var items: seq<string>

    constructor (items: seq<string>)
      ensures this.items == items
    {
      this.items := items;
    }

    /** `TrimAll`: trims every entry; with `removeEmptyEntries` drops those that end up empty. */
    method TrimAll(removeEmptyEntries: bool)
      modifies this
      ensures items == TrimmedAll(old(items), removeEmptyEntries)
    {
      var list := items;
      ghost var original := list;
      ghost var j := 0;
      var n := |list|;
      var i := 0;
      assert original[0..] == original;
      while i < n
        invariant 0 <= j <= |original| && i == |TrimmedAll(original[..j], removeEmptyEntries)|
        invariant list == TrimmedAll(original[..j], removeEmptyEntries) + original[j..] && n == |list|
        decreases n - i
      {
        TrimAllTurn(original, j, removeEmptyEntries);
        var trimmed := Trimmed(list[i]);
        if !removeEmptyEntries || |trimmed| != 0 {
          list := list[i := trimmed];
        } else {
          list := list[..i] + list[i + 1..];
          i := i - 1;
          n := n - 1;
        }
        i := i + 1;
        j := j + 1;
      }
      assert original[..j] == original;
      items := list;
    }
  }

  // --------------------------------------------------------- line endings

  /** The part of `StringBuilder` the line-ending helpers use. */
  class StringBuilder {
    var content: string

    constructor ()
      ensures content == ""
    {
      content := "";
    }

    method Append(value: string) returns (self: StringBuilder)
      modifies this
      ensures content == old(content) + value && self == this
    {
      content := content + value;
      self := this;
    }

    /** `AppendCarriageReturn`. */
    method AppendCarriageReturn(value: string) returns (self: StringBuilder)
      modifies this
      ensures content == old(content) + value + "\r" && self == this
    {
      var b := Append(value);
      self := b.Append("\r");
    }

    /** `AppendLineFeed`. */
    method AppendLineFeed(value: string) returns (self: StringBuilder)
      modifies this
      ensures content == old(content) + value + "\n" && self == this
    {
      var b := Append(value);
      self := b.Append("\n");
    }

    /** `AppendCarriageReturnLineFeed`. */
    method AppendCarriageReturnLineFeed(value: string) returns (self: StringBuilder)
      modifies this
      ensures content == old(content) + value + "\r\n" && self == this
    {
      var b := Append(value);
      b := b.Append("\r");
      self := b.Append("\n");
    }
  }
}
