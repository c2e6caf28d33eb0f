/**
 * CodeGeneration: a list of code lines with an indentation level that
 * code blocks raise and lower, and its rendering to text.
 *
 * C# null strings are `None`; null object references are `null` of the
 * nullable class types.
 */
module CodeGeneration {
  import opened Wrappers

  datatype Failure = ArgumentNull | ArgumentOutOfRange | Argument | InvalidOperation | NullReference | Format

  // ------------------------------------------------------------- settings

  /** The value of a `CodeBuilderFormat` at the moment a builder is rendered. */
  datatype Layout = Layout(tabSize: nat, tabSymbol: char, newLine: string)

  const DefaultLayout := Layout(4, ' ', "\n")

  /** `CodeBuilderFormat`: three settings, two of them guarded. */
  class CodeBuilderFormat {
    var tabSize: nat
    var newLineSequence: string
    var tabSymbol: char

    constructor ()
      ensures Snapshot() == DefaultLayout
    {
      tabSize := 4;
      newLineSequence := "\n";
      tabSymbol := ' ';
    }

    function Snapshot(): Layout
      reads this
    {
      Layout(tabSize, tabSymbol, newLineSequence)
    }

    /** The `TabSize` setter: a negative size is refused and the size is kept. */
    method SetTabSize(value: int) returns (r: Result<(), Failure>)
      modifies this
      ensures r.Err? <==> value < 0
      ensures r.Err? ==> r.error == ArgumentOutOfRange && tabSize == old(tabSize)
      ensures r.Ok? ==> tabSize == value
      ensures newLineSequence == old(newLineSequence) && tabSymbol == old(tabSymbol)
    {
      if value < 0 {
        return Err(ArgumentOutOfRange);
      }
      tabSize := value;
      return Ok(());
    }

    /** The `NewLineSequence` setter: null is refused and the sequence is kept. */
    method SetNewLineSequence(value: Option<string>) returns (r: Result<(), Failure>)
      modifies this
      ensures r.Err? <==> value.None?
      ensures r.Err? ==> r.error == ArgumentNull && newLineSequence == old(newLineSequence)
      ensures r.Ok? ==> newLineSequence == value.value
      ensures tabSize == old(tabSize) && tabSymbol == old(tabSymbol)
    {
      if value.None? {
        return Err(ArgumentNull);
      }
      newLineSequence := value.value;
      return Ok(());
    }

    method SetTabSymbol(value: char)
      modifies this
      ensures tabSymbol == value
      ensures tabSize == old(tabSize) && newLineSequence == old(newLineSequence)
    {
      tabSymbol := value;
    }
  }

  // ----------------------------------------------------------------- lines

  /** `CodeLine`: a line of code and its extra indentation. */
  class CodeLine {
    var code: string
    var tabOffset: nat

    constructor Make(code: string, tabOffset: nat)
      ensures this.code == code && this.tabOffset == tabOffset
    {
      this.code := code;
      this.tabOffset := tabOffset;
    }

    /** The `Code` setter: null is refused and the code is kept. */
    method SetCode(value: Option<string>) returns (r: Result<(), Failure>)
      modifies this
      ensures r.Err? <==> value.None?
      ensures r.Err? ==> r.error == ArgumentNull && code == old(code)
      ensures r.Ok? ==> code == value.value
      ensures tabOffset == old(tabOffset)
    {
      if value.None? {
        return Err(ArgumentNull);
      }
      code := value.value;
      return Ok(());
    }

    /** The `TabOffset` setter: a negative offset is refused and the offset is kept. */
    method SetTabOffset(value: int) returns (r: Result<(), Failure>)
      modifies this
      ensures r.Err? <==> value < 0
      ensures r.Err? ==> r.error == ArgumentOutOfRange && tabOffset == old(tabOffset)
      ensures r.Ok? ==> tabOffset == value
      ensures code == old(code)
    {
      if value < 0 {
        return Err(ArgumentOutOfRange);
      }
      tabOffset := value;
      return Ok(());
    }

    /**
     * `Format`: a new line whose code is the composite-format result and
     * whose offset is this line's; `format` stands for `string.Format`,
     * `None` for its format exception.
     */
    method Format(args: seq<string>, format: (string, seq<string>) -> Option<string>) returns (r: Result<CodeLine, Failure>)
      ensures r.Err? <==> format(code, args).None?
      ensures r.Err? ==> r.error == Failure.Format
      ensures r.Ok? ==> fresh(r.value) && r.value.code == format(code, args).value && r.value.tabOffset == tabOffset
    {
      var text := format(code, args);
      if text.None? {
        return Err(Failure.Format);
      }
      var line := new CodeLine.Make(text.value, tabOffset);
      return Ok(line);
    }
  }

  /** The `CodeLine` constructor: the code is checked first, then the offset. */
  method NewCodeLine(code: Option<string>, tabOffset: int) returns (r: Result<CodeLine, Failure>)
    ensures r.Ok? <==> code.Some? && tabOffset >= 0
    ensures code.None? ==> r == Err(ArgumentNull)
    ensures code.Some? && tabOffset < 0 ==> r == Err(ArgumentOutOfRange)
    ensures r.Ok? ==> fresh(r.value) && r.value.code == code.value && r.value.tabOffset == tabOffset
  {
    if code.None? {
      return Err(ArgumentNull);
    }
    if tabOffset < 0 {
      return Err(ArgumentOutOfRange);
    }
    var line := new CodeLine.Make(code.value, tabOffset);
    return Ok(line);
  }

  /** The implicit conversion from a string: null stays null. */
  method FromString(code: Option<string>) returns (r: CodeLine?)
    ensures r == null <==> code.None?
    ensures r != null ==> fresh(r) && r.code == code.value && r.tabOffset == 0
  {
    if code.None? {
      return null;
    }
    r := new CodeLine.Make(code.value, 0);
  }

  // -------------------------------------------------------- the line model

  /** A line held by a builder, its offset already including the level it was appended at. */
  datatype Line = Line(code: string, tabOffset: nat)

  const Blank := Line("", 0)

  /** Every line indented `level` further. */
  function Shift(ls: seq<Line>, level: nat): (r: seq<Line>)
    ensures |r| == |ls|
    ensures forall i :: 0 <= i < |ls| ==> r[i] == Line(ls[i].code, level + ls[i].tabOffset)
  {
    seq(|ls|, i requires 0 <= i < |ls| => Line(ls[i].code, level + ls[i].tabOffset))
  }

  lemma ShiftConcat(a: seq<Line>, b: seq<Line>, level: nat)
    ensures Shift(a + b, level) == Shift(a, level) + Shift(b, level)
  {
  }

  /** Shifting twice is shifting by the sum: a builder appended inside blocks of two builders. */
  lemma ShiftShift(ls: seq<Line>, inner: nat, outer: nat)
    ensures Shift(Shift(ls, inner), outer) == Shift(ls, inner + outer)
  {
  }

  /** The non-empty pieces, in order. */
  function NonEmpty(blocks: seq<seq<Line>>): (r: seq<seq<Line>>)
    ensures |r| <= |blocks|
  {
    if blocks == [] then []
    else NonEmpty(blocks[..|blocks| - 1]) + (if blocks[|blocks| - 1] == [] then [] else [blocks[|blocks| - 1]])
  }

  /** The pieces with one blank line between each consecutive two. */
  function Interleave(blocks: seq<seq<Line>>): seq<Line>
  {
    if |blocks| == 0 then []
    else if |blocks| == 1 then blocks[0]
    else Interleave(blocks[..|blocks| - 1]) + [Blank] + blocks[|blocks| - 1]
  }

  /** What `AppendJoin` adds, before the builder's level is applied. */
  function Joined(blocks: seq<seq<Line>>): seq<Line>
  {
    Interleave(NonEmpty(blocks))
  }

  /**
   * What `AppendJoin` has added when the block it copies is the builder
   * itself: the blocks before it, the blank line that follows them, and the
   * builder's first line, the one copied before its enumerator refuses to go on.
   */
  function JoinedUntilSelf(before: seq<seq<Line>>, first: Line): seq<Line>
  {
    Interleave(before) + (if before == [] then [] else [Blank]) + [first]
  }

  lemma {:induction false} NonEmptyConcat(a: seq<seq<Line>>, b: seq<seq<Line>>)
    ensures NonEmpty(a + b) == NonEmpty(a) + NonEmpty(b)
    decreases |b|
  {
    if b == [] {
      assert a + b == a;
    } else {
      var c := b[..|b| - 1];
      assert (a + b)[..|a + b| - 1] == a + c;
      NonEmptyConcat(a, c);
    }
  }

  /** A piece is kept exactly when it is one of the pieces and is not empty. */
  lemma {:induction false} NonEmptyMembers(blocks: seq<seq<Line>>)
    ensures forall b :: b in NonEmpty(blocks) <==> b in blocks && b != []
    decreases |blocks|
  {
    if blocks != [] {
      var init := blocks[..|blocks| - 1];
      NonEmptyMembers(init);
      assert blocks == init + [blocks[|blocks| - 1]];
    }
  }

  /** At any split into two non-empty runs of pieces, exactly one blank line separates them. */
  lemma {:induction false} InterleaveConcat(a: seq<seq<Line>>, b: seq<seq<Line>>)
    requires a != [] && b != []
    ensures Interleave(a + b) == Interleave(a) + [Blank] + Interleave(b)
    decreases |b|
  {
    if |b| == 1 {
      assert (a + b)[..|a + b| - 1] == a;
    } else {
      var c := b[..|b| - 1];
      assert (a + b)[..|a + b| - 1] == a + c;
      InterleaveConcat(a, c);
    }
  }

  function TotalLength(blocks: seq<seq<Line>>): nat
  {
    if blocks == [] then 0 else TotalLength(blocks[..|blocks| - 1]) + |blocks[|blocks| - 1]|
  }

  /** The lines of the pieces and one line per gap between them. */
  lemma {:induction false} InterleaveLength(blocks: seq<seq<Line>>)
    requires blocks != []
    ensures |Interleave(blocks)| == TotalLength(blocks) + |blocks| - 1
    decreases |blocks|
  {
    if |blocks| == 1 {
      assert blocks[..0] == [];
    } else {
      InterleaveLength(blocks[..|blocks| - 1]);
    }
  }

  lemma {:induction false} InterleaveStarts(pieces: seq<seq<Line>>)
    requires pieces != []
    ensures pieces[0] <= Interleave(pieces)
    decreases |pieces|
  {
    if |pieces| > 1 {
      InterleaveStarts(pieces[..|pieces| - 1]);
    }
  }

  /** Joining adds nothing exactly when every piece is empty; otherwise it starts with the first non-empty piece and ends with the last. */
  lemma JoinedEnds(blocks: seq<seq<Line>>)
    ensures Joined(blocks) == [] <==> forall k :: 0 <= k < |blocks| ==> blocks[k] == []
    ensures NonEmpty(blocks) != [] ==> NonEmpty(blocks)[0] <= Joined(blocks)
    ensures NonEmpty(blocks) != [] ==>
      var last := NonEmpty(blocks)[|NonEmpty(blocks)| - 1];
      |last| <= |Joined(blocks)| && Joined(blocks)[|Joined(blocks)| - |last|..] == last
  {
    var pieces := NonEmpty(blocks);
    NonEmptyMembers(blocks);
    if pieces == [] {
      forall k | 0 <= k < |blocks|
        ensures blocks[k] == []
      {
        assert blocks[k] in blocks;
      }
    } else {
      assert pieces[0] in pieces;
      InterleaveStarts(pieces);
      assert pieces[0] in blocks;
    }
  }

  // ------------------------------------------------------------- rendering

  function Repeat(c: char, n: nat): (r: string)
    ensures |r| == n && forall i :: 0 <= i < n ==> r[i] == c
  {
    if n == 0 then [] else [c] + Repeat(c, n - 1)
  }

  /** One line as `ToString(format)` writes it: the tab symbol `TabSize * offset` times, the code, the line break. */
  function RenderLine(l: Line, layout: Layout): string
  {
    Repeat(layout.tabSymbol, layout.tabSize * l.tabOffset) + l.code + layout.newLine
  }

  function Render(ls: seq<Line>, layout: Layout): string
  {
    if ls == [] then "" else Render(ls[..|ls| - 1], layout) + RenderLine(ls[|ls| - 1], layout)
  }

  lemma {:induction false} RenderConcat(a: seq<Line>, b: seq<Line>, layout: Layout)
    ensures Render(a + b, layout) == Render(a, layout) + Render(b, layout)
    decreases |b|
  {
    if b == [] {
      assert a + b == a;
    } else {
      var c := b[..|b| - 1];
      assert (a + b)[..|a + b| - 1] == a + c;
      RenderConcat(a, c, layout);
    }
  }

  lemma {:induction false} RepeatAdd(c: char, m: nat, n: nat)
    ensures Repeat(c, m + n) == Repeat(c, m) + Repeat(c, n)
  {
  }

  lemma Distribute(size: nat, k: nat, offset: nat)
    ensures size * (k + offset) == size * k + size * offset
  {
  }

  /** A line appended `k` levels deeper is rendered with `TabSize * k` more tab symbols in front. */
  lemma ShiftedLine(l: Line, k: nat, layout: Layout)
    ensures RenderLine(Line(l.code, k + l.tabOffset), layout) == Repeat(layout.tabSymbol, layout.tabSize * k) + RenderLine(l, layout)
  {
    Distribute(layout.tabSize, k, l.tabOffset);
    RepeatAdd(layout.tabSymbol, layout.tabSize * k, layout.tabSize * l.tabOffset);
  }

  /** The pieces of `s` between line feeds, `current` being the piece read so far. */
  function SplitFrom(current: string, s: string): seq<string>
    decreases |s|
  {
    if s == [] then (if current == [] then [] else [current])
    else if s[0] == '\n' then [current] + SplitFrom([], s[1..])
    else SplitFrom(current + [s[0]], s[1..])
  }

  function SplitLines(s: string): seq<string>
  {
    SplitFrom([], s)
  }

  lemma {:induction false} SplitAfter(current: string, t: string, rest: string)
    requires '\n' !in t
    ensures SplitFrom(current, t + "\n" + rest) == [current + t] + SplitFrom([], rest)
    decreases |t|
  {
    if t == [] {
      assert t + "\n" + rest == "\n" + rest;
      assert ("\n" + rest)[1..] == rest;
      assert current + t == current;
    } else {
      assert (t + "\n" + rest)[1..] == t[1..] + "\n" + rest;
      SplitAfter(current + [t[0]], t[1..], rest);
      assert current + [t[0]] + t[1..] == current + t;
    }
  }

  /** The text of every line, indentation included, without its line break. */
  function Texts(ls: seq<Line>, layout: Layout): (r: seq<string>)
    ensures |r| == |ls|
  {
    if ls == [] then [] else [Repeat(layout.tabSymbol, layout.tabSize * ls[0].tabOffset) + ls[0].code] + Texts(ls[1..], layout)
  }

  /**
   * With line feeds as line breaks, a tab symbol that is not one and codes
   * without one, the rendered text splits back into the indented lines.
   */
  lemma {:induction false} RenderSplitsBack(ls: seq<Line>, layout: Layout)
    requires layout.newLine == "\n" && layout.tabSymbol != '\n'
    requires forall i :: 0 <= i < |ls| ==> '\n' !in ls[i].code
    ensures SplitLines(Render(ls, layout)) == Texts(ls, layout)
    decreases |ls|
  {
    if ls != [] {
      var head := Repeat(layout.tabSymbol, layout.tabSize * ls[0].tabOffset) + ls[0].code;
      assert '\n' !in head;
      assert ls == [ls[0]] + ls[1..];
      RenderConcat([ls[0]], ls[1..], layout);
      assert [ls[0]][..0] == [];
      assert Render([ls[0]], layout) == head + "\n";
      SplitAfter([], head, Render(ls[1..], layout));
      assert [] + head == head;
      RenderSplitsBack(ls[1..], layout);
    }
  }

  // ------------------------------------------------------------- the builder

  /** `CodeBuilder`: the lines appended so far and the current indentation level. */
  class CodeBuilder {
    var lines: seq<Line>
    var tabLevel: int
    /** The code blocks opened on this builder and not disposed yet. */
    ghost var open: set<BuilderBlock>

    /** The level is the number of open blocks, so it is never negative. */
    ghost predicate Valid()
      reads this, open
    {
      tabLevel == |open| && forall b :: b in open ==> b.builder == this && !b.disposed
    }

    constructor ()
      ensures Valid() && lines == [] && tabLevel == 0 && open == {}
    {
      lines := [];
      tabLevel := 0;
      open := {};
    }

    predicate IsEmpty()
      reads this
    {
      lines == []
    }

    /** `NewCodeBlock`: lines appended until the block is disposed are one level deeper. */
    method NewCodeBlock() returns (b: BuilderBlock)
      requires Valid()
      modifies this
      ensures fresh(b) && b.builder == this && !b.disposed && b.Valid()
      ensures tabLevel == old(tabLevel) + 1 && open == old(open) + {b} && lines == old(lines)
    {
      b := new BuilderBlock(this);
    }

    /** `Append()`: one empty line at the current level. */
    method AppendEmpty() returns (self: CodeBuilder)
      requires Valid()
      modifies this
      ensures Valid() && tabLevel == old(tabLevel) && open == old(open) && self == this
      ensures lines == old(lines) + [Line("", tabLevel)]
    {
      lines := lines + [Line("", tabLevel)];
      self := this;
    }

    /**
     * `Append(value, tabOffset)`: one line at the current level plus the
     * offset; null code, or a sum below zero, is refused and nothing is added.
     */
    method Append(value: Option<string>, tabOffset: int) returns (r: Result<CodeBuilder, Failure>)
      requires Valid()
      modifies this
      ensures Valid() && tabLevel == old(tabLevel) && open == old(open)
      ensures value.None? ==> r == Err(ArgumentNull) && lines == old(lines)
      ensures value.Some? && tabLevel + tabOffset < 0 ==> r == Err(ArgumentOutOfRange) && lines == old(lines)
      ensures value.Some? && tabLevel + tabOffset >= 0 ==> r == Ok(this) && lines == old(lines) + [Line(value.value, tabLevel + tabOffset)]
    {
      if value.None? {
        return Err(ArgumentNull);
      }
      if tabLevel + tabOffset < 0 {
        return Err(ArgumentOutOfRange);
      }
      lines := lines + [Line(value.value, tabLevel + tabOffset)];
      return Ok(this);
    }

    /** `Append(CodeLine)`: a copy of the line at the current level plus its offset. */
    method AppendLine(value: CodeLine?) returns (r: Result<CodeBuilder, Failure>)
      requires Valid()
      modifies this
      ensures Valid() && tabLevel == old(tabLevel) && open == old(open)
      ensures value == null ==> r == Err(ArgumentNull) && lines == old(lines)
      ensures value != null ==> r == Ok(this) && lines == old(lines) + [Line(value.code, tabLevel + value.tabOffset)]
    {
      if value == null {
        return Err(ArgumentNull);
      }
      lines := lines + [Line(value.code, tabLevel + value.tabOffset)];
      return Ok(this);
    }

    /**
     * `Append(IEnumerable<CodeLine>)`: the lines in order; at the first null
     * element the call fails, the lines before it staying appended.
     */
    method AppendLines(values: seq<CodeLine?>) returns (r: Result<CodeBuilder, Failure>)
      requires Valid()
      modifies this
      ensures Valid() && tabLevel == old(tabLevel) && open == old(open)
      ensures r.Err? <==> null in values
      ensures r.Err? ==> r.error == Argument
      ensures r.Ok? ==> r.value == this
      ensures lines == old(lines) + Shift(Copies(values[..FirstNull(values)]), tabLevel)
    {
      var level: nat := tabLevel;
      var i := 0;
      while i < |values|
        invariant i <= |values| && null !in values[..i]
        invariant tabLevel == level && open == old(open) && Valid()
        invariant lines == old(lines) + Shift(Copies(values[..i]), level)
      {
        var x := values[i];
        if x == null {
          FirstNullIs(values, i);
          return Err(Argument);
        }
        CopiesTurn(values, i, level);
        lines := lines + [Line(x.code, level + x.tabOffset)];
        i := i + 1;
        assert values[..i] == values[..i - 1] + [x];
      }
      FirstNullIs(values, i);
      assert values[..i] == values;
      return Ok(this);
    }

    /**
     * `Append(CodeBuilder)`: the other builder's lines in order, each one
     * the current level deeper. Appending a non-empty builder to itself
     * fails after its first line, since the list's enumerator refuses to go
     * on once the list it walks has grown.
     */
    method AppendBuilder(value: CodeBuilder?) returns (r: Result<CodeBuilder, Failure>)
      requires Valid()
      modifies this
      ensures Valid() && tabLevel == old(tabLevel) && open == old(open)
      ensures value == null ==> r == Err(ArgumentNull) && lines == old(lines)
      ensures value != null && value != this ==> r == Ok(this) && lines == old(lines) + Shift(value.lines, tabLevel)
      ensures value == this && old(lines) == [] ==> r == Ok(this) && lines == []
      ensures value == this && old(lines) != [] ==>
        r == Err(InvalidOperation) && lines == old(lines) + Shift([old(lines)[0]], tabLevel)
    {
      if value == null {
        return Err(ArgumentNull);
      }
      var level: nat := tabLevel;
      if value == this {
        if lines == [] {
          return Ok(this);
        }
        lines := lines + [Line(lines[0].code, level + lines[0].tabOffset)];
        return Err(InvalidOperation);
      }
      var source := value.lines;
      var i := 0;
      while i < |source|
        invariant i <= |source|
        invariant tabLevel == level && open == old(open) && Valid()
        invariant lines == old(lines) + Shift(source[..i], level)
      {
        assert source[..i + 1] == source[..i] + [source[i]];
        ShiftConcat(source[..i], [source[i]], level);
        lines := lines + [Line(source[i].code, level + source[i].tabOffset)];
        i := i + 1;
      }
      assert source[..i] == source;
      return Ok(this);
    }

    /**
     * `AppendJoin`: the non-empty builders in order, one blank line between
     * consecutive ones. A null element fails before anything is appended;
     * a join that includes this builder while it is non-empty fails.
     */
    method AppendJoin(values: seq<CodeBuilder?>) returns (r: Result<CodeBuilder, Failure>)
      requires Valid()
      modifies this
      ensures Valid() && tabLevel == old(tabLevel) && open == old(open)
      ensures null in values ==> r == Err(NullReference) && lines == old(lines)
      ensures null !in values && (this !in values || old(lines) == []) ==>
        r == Ok(this) && lines == old(lines) + Shift(Joined(old(Contents(values))), tabLevel)
      ensures null !in values && this in values && old(lines) != [] ==> r == Err(InvalidOperation)
      ensures null !in values && old(lines) != [] ==>
        forall i :: 0 <= i < |values| && values[i] == this && this !in values[..i] ==>
          lines == old(lines) + Shift(JoinedUntilSelf(NonEmpty(old(Contents(values))[..i]), old(lines)[0]), tabLevel)
    {
      var nonEmpty := NonEmptyBuilders(values);
      if nonEmpty.None? {
        return Err(NullReference);
      }
      ghost var contents := Contents(values);
      assert contents == old(Contents(values));
      ghost var blocks := NonEmpty(contents);
      FirstKeptPositions(values, nonEmpty.value, contents);
      r := AppendBlocks(nonEmpty.value, blocks);
      forall i | 0 <= i < |values| && values[i] == this && this !in values[..i] && old(lines) != []
        ensures lines == old(lines) + Shift(JoinedUntilSelf(NonEmpty(contents[..i]), old(lines)[0]), tabLevel)
      {
        assert contents[i] == old(lines);
        FirstIndexAt(nonEmpty.value, |NonEmpty(contents[..i])|);
      }
    }

    /** The second pass of `AppendJoin`: each block in turn, a blank line before all but the first. */
    method AppendBlocks(nonEmpty: seq<CodeBuilder>, ghost blocks: seq<seq<Line>>) returns (r: Result<CodeBuilder, Failure>)
      requires Valid() && |blocks| == |nonEmpty|
      requires forall k :: 0 <= k < |nonEmpty| ==> nonEmpty[k].lines == blocks[k] && blocks[k] != []
      modifies this
      ensures Valid() && tabLevel == old(tabLevel) && open == old(open)
      ensures this !in nonEmpty ==> r == Ok(this) && lines == old(lines) + Shift(Interleave(blocks), tabLevel)
      ensures this in nonEmpty ==> r == Err(InvalidOperation)
      ensures this in nonEmpty ==>
        lines == old(lines) + Shift(JoinedUntilSelf(blocks[..FirstIndex(nonEmpty, this)], old(lines)[0]), tabLevel)
    {
      var level: nat := tabLevel;
      ghost var start := lines;
      var j := 0;
      while j < |nonEmpty|
        invariant j <= |nonEmpty| && this !in nonEmpty[..j]
        invariant tabLevel == level && open == old(open) && Valid()
        invariant forall k :: j <= k < |nonEmpty| && nonEmpty[k] != this ==> nonEmpty[k].lines == blocks[k]
        invariant lines == start + Shift(Interleave(blocks[..j]), level)
        invariant this in nonEmpty ==> start != []
      {
        var x := nonEmpty[j];
        if j > 0 {
          var _ := AppendEmpty();
        }
        ghost var before := lines;
        var appended := AppendBuilder(x);
        if appended.Err? {
          SelfJoinTurn(start, blocks, j, level);
          assert before == start + Shift(Interleave(blocks[..j]), level) + (if j > 0 then [Line("", level)] else []);
          FirstIndexAt(nonEmpty, j);
          return appended;
        }
        JoinTurn(blocks, j, level, start);
        assert nonEmpty[..j + 1] == nonEmpty[..j] + [x];
        j := j + 1;
      }
      assert blocks[..j] == blocks && nonEmpty[..j] == nonEmpty;
      return Ok(this);
    }

    /** `ToString(format)`: every line rendered in order. */
    method ToText(format: CodeBuilderFormat?) returns (r: Result<string, Failure>)
      ensures format == null ==> r == Err(ArgumentNull)
      ensures format != null ==> r == Ok(Render(lines, format.Snapshot()))
    {
      if format == null {
        return Err(ArgumentNull);
      }
      var layout := format.Snapshot();
      var text := "";
      var i := 0;
      while i < |lines|
        invariant i <= |lines|
        invariant text == Render(lines[..i], layout)
      {
        var offset := format.tabSize * lines[i].tabOffset;
        text := text + Repeat(format.tabSymbol, offset) + lines[i].code + format.newLineSequence;
        assert lines[..i + 1][..i] == lines[..i];
        i := i + 1;
      }
      assert lines[..i] == lines;
      return Ok(text);
    }

    /** `ToString()`: rendering with a fresh default format. */
    method ToDefaultText() returns (text: string)
      ensures text == Render(lines, DefaultLayout)
    {
      var format := new CodeBuilderFormat();
      var r := ToText(format);
      text := r.value;
    }
  }

  /** The `CodeBuilder(capacity)` constructor: a negative capacity is refused. */
  method NewCodeBuilder(capacity: int) returns (r: Result<CodeBuilder, Failure>)
    ensures r.Err? <==> capacity < 0
    ensures r.Err? ==> r.error == ArgumentOutOfRange
    ensures r.Ok? ==> fresh(r.value) && r.value.Valid() && r.value.lines == [] && r.value.tabLevel == 0 && r.value.open == {}
  {
    if capacity < 0 {
      return Err(ArgumentOutOfRange);
    }
    var b := new CodeBuilder();
    return Ok(b);
  }

  /** `BuilderBlock`: raises its builder's level once and lowers it on its first disposal only. */
  class BuilderBlock {
    const builder: CodeBuilder
    var disposed: bool

    ghost predicate Valid()
      reads this, builder, builder.open
    {
      builder.Valid() && (disposed || this in builder.open)
    }

    constructor (builder: CodeBuilder)
      requires builder.Valid()
      modifies builder
      ensures this.builder == builder && !disposed && Valid()
      ensures builder.tabLevel == old(builder.tabLevel) + 1 && builder.open == old(builder.open) + {this}
      ensures builder.lines == old(builder.lines)
    {
      this.builder := builder;
      disposed := false;
      new;
      builder.tabLevel := builder.tabLevel + 1;
      builder.open := builder.open + {this};
    }

    method Dispose()
      requires Valid()
      modifies this, builder
      ensures disposed && Valid()
      ensures old(disposed) ==> builder.tabLevel == old(builder.tabLevel) && builder.open == old(builder.open)
      ensures !old(disposed) ==> builder.tabLevel == old(builder.tabLevel) - 1 && builder.open == old(builder.open) - {this}
      ensures builder.lines == old(builder.lines)
    {
      if !disposed {
        builder.tabLevel := builder.tabLevel - 1;
        builder.open := builder.open - {this};
      }
      disposed := true;
    }
  }

  // ---------------------------------------------------------- join helpers

  /** The index of the first null element, or the length when there is none. */
  function FirstNull(values: seq<CodeLine?>): (k: nat)
    ensures k <= |values| && null !in values[..k]
    ensures k < |values| ==> values[k] == null
  {
    if values == [] then 0
    else if values[0] == null then 0
    else 1 + FirstNull(values[1..])
  }

  lemma {:induction false} FirstNullIs(values: seq<CodeLine?>, i: nat)
    requires i <= |values| && null !in values[..i]
    requires i < |values| ==> values[i] == null
    ensures FirstNull(values) == i
    decreases i
  {
    if i > 0 {
      assert values[0] in values[..i];
      assert values[1..][..i - 1] == values[1..i];
      assert values[1..i] <= values[..i][1..];
      FirstNullIs(values[1..], i - 1);
    }
  }

  /** The lines as a builder copies them, before its level is applied. */
  function Copies(values: seq<CodeLine?>): (r: seq<Line>)
    requires null !in values
    reads values
    ensures |r| == |values|
  {
    if values == [] then [] else Copies(values[..|values| - 1]) + [Line(values[|values| - 1].code, values[|values| - 1].tabOffset)]
  }

  lemma CopiesTurn(values: seq<CodeLine?>, i: nat, level: nat)
    requires i < |values| && null !in values[..i + 1]
    ensures null !in values[..i]
    ensures Shift(Copies(values[..i + 1]), level) == Shift(Copies(values[..i]), level) + [Line(values[i].code, level + values[i].tabOffset)]
  {
    assert values[..i + 1][..i] == values[..i];
    assert values[i] in values[..i + 1];
  }

  /** The first pass of `AppendJoin`: the non-empty builders in order, or None at a null element. */
  method NonEmptyBuilders(values: seq<CodeBuilder?>) returns (r: Option<seq<CodeBuilder>>)
    ensures r.None? <==> null in values
    ensures r.Some? ==> null !in values && r.value == KeptBuilders(values)
    ensures r.Some? ==> |r.value| == |NonEmpty(Contents(values))|
    ensures r.Some? ==> forall k :: 0 <= k < |r.value| ==>
      r.value[k].lines == NonEmpty(Contents(values))[k] && r.value[k].lines != []
    ensures r.Some? ==> forall b :: b in r.value <==> b in values && b.lines != []
  {
    var nonEmpty: seq<CodeBuilder> := [];
    var i := 0;
    while i < |values|
      invariant i <= |values| && null !in values[..i]
      invariant nonEmpty == KeptBuilders(values[..i])
    {
      var x := values[i];
      if x == null {
        return None;
      }
      assert values[..i + 1][..i] == values[..i];
      if x.lines != [] {
        nonEmpty := nonEmpty + [x];
      }
      i := i + 1;
    }
    assert values[..i] == values;
    KeptBuildersMeaning(values);
    return Some(nonEmpty);
  }

  /** The builders whose lines are not empty, in order. */
  function KeptBuilders(values: seq<CodeBuilder?>): (r: seq<CodeBuilder>)
    requires null !in values
    reads values
    ensures |r| <= |values|
  {
    if values == [] then []
    else
      var last := values[|values| - 1];
      KeptBuilders(values[..|values| - 1]) + (if last.lines == [] then [] else [last])
  }

  /** The kept builders hold exactly the non-empty blocks, and are exactly the builders with lines. */
  lemma {:induction false} KeptBuildersMeaning(values: seq<CodeBuilder?>)
    requires null !in values
    ensures |KeptBuilders(values)| == |NonEmpty(Contents(values))|
    ensures forall k :: 0 <= k < |KeptBuilders(values)| ==>
      KeptBuilders(values)[k].lines == NonEmpty(Contents(values))[k] && KeptBuilders(values)[k].lines != []
    ensures forall b :: b in KeptBuilders(values) <==> b in values && b.lines != []
    decreases |values|
  {
    if values != [] {
      var n := |values| - 1;
      var init, last := values[..n], values[n];
      ContentsPrefix(values, n);
      KeptBuildersMeaning(init);
      var c := Contents(values);
      assert c[..n] == Contents(init) && c[n] == last.lines;
      assert NonEmpty(c) == NonEmpty(Contents(init)) + (if last.lines == [] then [] else [last.lines]);
      assert KeptBuilders(values) == KeptBuilders(init) + (if last.lines == [] then [] else [last]);
      assert forall b :: b in values <==> b in init || b == last;
    }
  }

  /** Kept builders of a concatenation. */
  lemma {:induction false} KeptBuildersConcat(a: seq<CodeBuilder?>, b: seq<CodeBuilder?>)
    requires null !in a && null !in b
    ensures null !in a + b
    ensures KeptBuilders(a + b) == KeptBuilders(a) + KeptBuilders(b)
    decreases |b|
  {
    if b != [] {
      var c := b[..|b| - 1];
      assert (a + b)[..|a + b| - 1] == a + c;
      assert forall x :: x in c ==> x in b;
      KeptBuildersConcat(a, c);
    } else {
      assert a + b == a;
    }
  }

  /** `KeptPosition` and `NonEmptyPrefix` at every first occurrence of a non-empty builder. */
  lemma FirstKeptPositions(values: seq<CodeBuilder?>, kept: seq<CodeBuilder>, contents: seq<seq<Line>>)
    requires null !in values && kept == KeptBuilders(values) && contents == Contents(values)
    ensures forall i :: 0 <= i < |values| && contents[i] != [] && values[i] !in values[..i] ==>
      var j := |NonEmpty(contents[..i])|;
      j < |kept| && kept[j] == values[i] && values[i] !in kept[..j] &&
      j <= |NonEmpty(contents)| && NonEmpty(contents)[..j] == NonEmpty(contents[..i])
  {
    forall i | 0 <= i < |values| && contents[i] != [] && values[i] !in values[..i]
      ensures var j := |NonEmpty(contents[..i])|;
        j < |kept| && kept[j] == values[i] && values[i] !in kept[..j] &&
        j <= |NonEmpty(contents)| && NonEmpty(contents)[..j] == NonEmpty(contents[..i])
    {
      KeptPosition(values, i);
      NonEmptyPrefix(contents, i);
    }
  }

  /**
   * A non-empty builder first met at position `i` is kept at the position
   * given by the non-empty builders before it, and not before.
   */
  lemma KeptPosition(values: seq<CodeBuilder?>, i: nat)
    requires null !in values && i < |values| && values[i].lines != [] && values[i] !in values[..i]
    ensures |NonEmpty(Contents(values)[..i])| < |KeptBuilders(values)|
    ensures KeptBuilders(values)[|NonEmpty(Contents(values)[..i])|] == values[i]
    ensures values[i] !in KeptBuilders(values)[..|NonEmpty(Contents(values)[..i])|]
  {
    var pre, x, post := values[..i], values[i], values[i + 1..];
    assert forall y :: y in pre ==> y in values;
    assert forall y :: y in post ==> y in values;
    assert values == pre + ([x] + post);
    KeptBuildersConcat(pre, [x] + post);
    KeptBuildersConcat([x], post);
    assert [x][..0] == [];
    assert KeptBuilders([x]) == [x];
    var before := KeptBuilders(pre);
    assert KeptBuilders(pre + ([x] + post)) == before + ([x] + KeptBuilders(post));
    KeptBuildersMeaning(pre);
    ContentsPrefix(values, i);
    assert KeptBuilders(values)[..|before|] == before;
  }

  /** The lines of a prefix of the builders are the prefix of their lines. */
  lemma ContentsPrefix(values: seq<CodeBuilder?>, i: nat)
    requires null !in values && i <= |values|
    ensures null !in values[..i] && Contents(values[..i]) == Contents(values)[..i]
  {
    var pre := values[..i];
    assert forall y :: y in pre ==> y in values;
    var a, b := Contents(pre), Contents(values)[..i];
    assert |a| == |b|;
    assert forall k :: 0 <= k < i ==> a[k] == pre[k].lines == b[k];
  }

  /** The lines of each builder. */
  function Contents(values: seq<CodeBuilder?>): (r: seq<seq<Line>>)
    requires null !in values
    reads values
    ensures |r| == |values|
    ensures forall k :: 0 <= k < |values| ==> r[k] == values[k].lines
  {
    if values == [] then [] else Contents(values[..|values| - 1]) + [values[|values| - 1].lines]
  }

  lemma JoinTurn(blocks: seq<seq<Line>>, j: nat, level: nat, start: seq<Line>)
    requires j < |blocks|
    ensures start + Shift(Interleave(blocks[..j]), level) + (if j > 0 then [Line("", level)] else []) + Shift(blocks[j], level)
      == start + Shift(Interleave(blocks[..j + 1]), level)
  {
    var prefix := blocks[..j + 1];
    assert prefix[..j] == blocks[..j];
    if j == 0 {
      assert blocks[..0] == [];
    } else {
      ShiftConcat(Interleave(blocks[..j]) + [Blank], blocks[j], level);
      ShiftConcat(Interleave(blocks[..j]), [Blank], level);
    }
  }

  /** The position of the first occurrence of `x` in `s`. */
  function FirstIndex<T(==)>(s: seq<T>, x: T): (r: nat)
    requires x in s
    ensures r < |s| && s[r] == x && x !in s[..r]
  {
    if s[0] == x then 0
    else
      var r := 1 + FirstIndex(s[1..], x);
      assert s[..r] == [s[0]] + s[1..][..r - 1];
      r
  }

  /** An element not met before position `j` first occurs at `j`. */
  lemma FirstIndexAt<T>(s: seq<T>, j: nat)
    requires j < |s| && s[j] !in s[..j]
    ensures FirstIndex(s, s[j]) == j
  {
    var r := FirstIndex(s, s[j]);
    assert forall k :: 0 <= k < j ==> s[k] in s[..j];
    assert forall k :: j < k < |s| ==> s[j] in s[..k];
  }

  /** The lines of a builder that stops while copying itself, as `AppendBuilder` leaves them. */
  lemma SelfJoinTurn(start: seq<Line>, blocks: seq<seq<Line>>, j: nat, level: nat)
    requires j <= |blocks| && start != []
    ensures var before := start + Shift(Interleave(blocks[..j]), level) + (if j > 0 then [Line("", level)] else []);
      before != [] && before[0] == start[0] &&
      before + Shift([before[0]], level) == start + Shift(JoinedUntilSelf(blocks[..j], start[0]), level)
  {
    var prefix := blocks[..j];
    assert prefix == [] <==> j == 0;
    if j == 0 {
      ShiftConcat(Interleave(prefix), [start[0]], level);
    } else {
      ShiftConcat(Interleave(prefix) + [Blank], [start[0]], level);
      ShiftConcat(Interleave(prefix), [Blank], level);
    }
  }

  /** The non-empty blocks of a prefix of the builders are a prefix of all the non-empty blocks. */
  lemma NonEmptyPrefix(contents: seq<seq<Line>>, i: nat)
    requires i <= |contents|
    ensures |NonEmpty(contents[..i])| <= |NonEmpty(contents)|
    ensures NonEmpty(contents)[..|NonEmpty(contents[..i])|] == NonEmpty(contents[..i])
  {
    assert contents == contents[..i] + contents[i..];
    NonEmptyConcat(contents[..i], contents[i..]);
  }

  /** A block around one line: the lines inside it are indented by one tab of four spaces. */
  method BlockExample() returns (text: string)
    ensures text == "class A\n" + "{\n" + "    int x;\n" + "}\n"
  {
    var b := new CodeBuilder();
    var _ := b.Append(Some("class A"), 0);
    var _ := b.Append(Some("{"), 0);
    var block := b.NewCodeBlock();
    var _ := b.Append(Some("int x;"), 0);
    block.Dispose();
    var _ := b.Append(Some("}"), 0);
    assert b.lines == [Line("class A", 0), Line("{", 0), Line("int x;", 1), Line("}", 0)];
    text := b.ToDefaultText();
    var ls := b.lines;
    assert Repeat(' ', 4) == "    ";
    assert RenderLine(ls[2], DefaultLayout) == "    int x;\n";
    assert ls[..3][..2][..1][..0] == [];
    assert Render(ls[..1], DefaultLayout) == "class A\n";
    assert ls[..2][..1] == ls[..1];
    assert Render(ls[..2], DefaultLayout) == "class A\n" + "{\n";
    assert ls[..3][..2] == ls[..2] && ls[..3][2] == ls[2];
    assert Render(ls[..3], DefaultLayout) == "class A\n" + "{\n" + "    int x;\n";
  }
}
