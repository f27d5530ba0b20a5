// The Nipper printer: writes a block's tree of lines out as CSS, expanding
// nested selectors into full ones and substituting the block's variables.

module NipperPrinter {
  import opened Wrappers
  import opened JavaText
  import opened NipperLines
  import opened NipperBlocks
  import opened NipperReader

  /** `NPrinter.OutputParams`; an absent `indent` is a null one, which prints no indentation. */
  datatype OutputParams = OutputParams(
    useReturns: bool,
    indent: Option<string>,
    parentStart: string,
    parentEnd: string,
    propOp: string,
    propEnd: string)

  /** `new OutputParams()`. */
  const Defaults := OutputParams(true, Some("    "), " {", "}", ": ", ";")

  /** What `println()` writes: the platform line separator, taken to be a line feed. */
  const LineSeparator := "\n"

  // ---------------------------------------------------------------- selectors

  predicate IsComma(c: char)
  {
    c == ','
  }

  /** Trims every string of a list. */
  function TrimAll(parts: seq<string>): (r: seq<string>)
    ensures |r| == |parts|
    ensures forall k :: 0 <= k < |parts| ==> r[k] == Trim(parts[k])
  {
    if parts == [] then [] else TrimAll(parts[..|parts| - 1]) + [Trim(parts[|parts| - 1])]
  }

  /** `splitSelector`: `split(",")`, then every piece trimmed. */
  function SplitSelector(s: string): seq<string>
  {
    TrimAll(Split(s, IsComma))
  }

  /** No piece of `split(",")` holds a comma. */
  lemma {:induction false} SplitHasNoComma(s: string)
    ensures forall k :: 0 <= k < |Split(s, IsComma)| ==> ',' !in Split(s, IsComma)[k]
  {
    var parts := Split(s, IsComma);
    if forall j :: 0 <= j < |s| ==> !IsComma(s[j]) {
      assert parts == [s];
      assert ',' !in s;
    } else {
      var all := Pieces(s, IsComma);
      PiecesJoin(s, IsComma, ',');
      assert parts == DropTrailingEmpty(all) && parts == all[..|parts|];
      forall k | 0 <= k < |parts|
        ensures ',' !in parts[k]
      {
        assert parts[k] == all[k];
        assert forall j :: 0 <= j < |all[k]| ==> !IsComma(all[k][j]);
      }
    }
  }

  /** Trimming a string without commas leaves none. */
  lemma {:induction false} TrimHasNoComma(x: string)
    requires ',' !in x
    ensures ',' !in Trim(x)
  {
    var a := TrimInside(x);
    var r := Trim(x);
    forall j | 0 <= j < |r|
      ensures r[j] != ','
    {
      assert r[j] == x[a + j];
    }
  }

  /** Neither starts nor ends with a character `trim` removes. */
  predicate Trimmed(x: string)
  {
    x == [] || (!IsTrimmed(x[0]) && !IsTrimmed(x[|x| - 1]))
  }

  /** No piece of a split selector holds a comma, or starts or ends with white space. */
  lemma {:induction false} SplitSelectorPieces(s: string)
    ensures forall k :: 0 <= k < |SplitSelector(s)| ==> ',' !in SplitSelector(s)[k] && Trimmed(SplitSelector(s)[k])
  {
    var parts := Split(s, IsComma);
    var r := SplitSelector(s);
    SplitHasNoComma(s);
    forall k | 0 <= k < |r|
      ensures ',' !in r[k] && Trimmed(r[k])
    {
      var t := Trim(parts[k]);
      assert r[k] == t;
      TrimHasNoComma(parts[k]);
      assert Trimmed(t);
    }
  }

  /** A selector without commas is one piece: itself, trimmed. */
  lemma {:induction false} SplitSelectorSingle(s: string)
    requires ',' !in s
    ensures SplitSelector(s) == [Trim(s)]
  {
    assert forall j :: 0 <= j < |s| ==> !IsComma(s[j]);
    assert Split(s, IsComma) == [s];
    assert [s][..0] == [];
  }

  /** The pieces before a comma are the text before it and the pieces after it. */
  lemma {:induction false} PiecesAtComma(x: string, y: string)
    requires ',' !in x
    ensures Pieces(x + [','] + y, IsComma) == [x] + Pieces(y, IsComma)
    decreases |x|
  {
    var s := x + [','] + y;
    if x == [] {
      assert s[1..] == y;
    } else {
      assert s[1..] == x[1..] + [','] + y;
      PiecesAtComma(x[1..], y);
      assert [x[0]] + x[1..] == x;
    }
  }

  /** Splitting comma-joined pieces gives the pieces back. */
  lemma {:induction false} PiecesOfJoined(parts: seq<string>)
    requires parts != []
    requires forall k :: 0 <= k < |parts| ==> ',' !in parts[k]
    ensures Pieces(JoinWith(parts, ","), IsComma) == parts
    decreases |parts|
  {
    if |parts| > 1 {
      PiecesOfJoined(parts[1..]);
      assert JoinWith(parts, ",") == parts[0] + [','] + JoinWith(parts[1..], ",");
      PiecesAtComma(parts[0], JoinWith(parts[1..], ","));
      assert [parts[0]] + parts[1..] == parts;
    } else {
      assert forall j :: 0 <= j < |parts[0]| ==> !IsComma(parts[0][j]);
    }
  }

  /**
   * A selector list written as non-empty, already trimmed selectors joined
   * by commas splits back into exactly those selectors.
   */
  lemma {:induction false} SplitSelectorJoin(parts: seq<string>)
    requires parts != []
    requires forall k :: 0 <= k < |parts| ==> parts[k] != [] && ',' !in parts[k] && Trimmed(parts[k])
    ensures SplitSelector(JoinWith(parts, ",")) == parts
  {
    var s := JoinWith(parts, ",");
    PiecesOfJoined(parts);
    assert Split(s, IsComma) == parts by {
      if !(forall j :: 0 <= j < |s| ==> !IsComma(s[j])) {
        assert DropTrailingEmpty(parts) == parts;
      }
    }
    forall k | 0 <= k < |parts|
      ensures Trim(parts[k]) == parts[k]
    {
      TrimKeeps(parts[k]);
    }
  }

  /** What `expandSelector` puts between a prefix and a piece of the selector `content`. */
  function Joint(prefix: string, content: string): string
  {
    if |prefix| > 0 && !StartsWith(content, ":") then " " else ""
  }

  /** One full selector: a prefix, what joins it to the piece, and the piece. */
  function Combine(prefix: string, content: string, piece: string): string
  {
    prefix + Joint(prefix, content) + piece
  }

  /** The expansions of one prefix, one per piece, in order. */
  function Row(prefix: string, content: string, pieces: seq<string>): seq<string>
  {
    if pieces == [] then []
    else Row(prefix, content, pieces[..|pieces| - 1]) + [Combine(prefix, content, pieces[|pieces| - 1])]
  }

  /** The expansions of every prefix, prefix by prefix. */
  function Product(prefixes: seq<string>, content: string, pieces: seq<string>): seq<string>
  {
    if prefixes == [] then []
    else Product(prefixes[..|prefixes| - 1], content, pieces) + Row(prefixes[|prefixes| - 1], content, pieces)
  }

  /** One entry per piece, each the prefix combined with that piece. */
  lemma {:induction false} RowEntries(prefix: string, content: string, pieces: seq<string>)
    ensures var r := Row(prefix, content, pieces);
      |r| == |pieces| && forall b :: 0 <= b < |pieces| ==> r[b] == Combine(prefix, content, pieces[b])
    decreases |pieces|
  {
    if pieces != [] {
      RowEntries(prefix, content, pieces[..|pieces| - 1]);
    }
  }

  /** One expansion per prefix and piece. */
  lemma {:induction false} ProductLength(prefixes: seq<string>, content: string, pieces: seq<string>)
    ensures |Product(prefixes, content, pieces)| == |prefixes| * |pieces|
    decreases |prefixes|
  {
    if prefixes != [] {
      var init := prefixes[..|prefixes| - 1];
      ProductLength(init, content, pieces);
      RowEntries(prefixes[|prefixes| - 1], content, pieces);
      var m, n := |init|, |pieces|;
      assert |prefixes| == m + 1;
      MulSucc(m, n);
    }
  }

  lemma {:induction false} MulSucc(m: int, n: int)
    ensures (m + 1) * n == m * n + n
  {
  }

  /** Every prefix is combined with every piece. */
  lemma {:induction false} ProductCovers(prefixes: seq<string>, content: string, pieces: seq<string>)
    ensures forall a, b :: 0 <= a < |prefixes| && 0 <= b < |pieces| ==>
      Combine(prefixes[a], content, pieces[b]) in Product(prefixes, content, pieces)
    decreases |prefixes|
  {
    if prefixes != [] {
      var init := prefixes[..|prefixes| - 1];
      var last := prefixes[|prefixes| - 1];
      ProductCovers(init, content, pieces);
      RowEntries(last, content, pieces);
      var r0 := Product(init, content, pieces);
      var row := Row(last, content, pieces);
      assert Product(prefixes, content, pieces) == r0 + row;
      forall a, b | 0 <= a < |prefixes| && 0 <= b < |pieces|
        ensures Combine(prefixes[a], content, pieces[b]) in r0 + row
      {
        if a < |init| {
          assert prefixes[a] == init[a];
          assert Combine(init[a], content, pieces[b]) in r0;
        } else {
          assert row[b] == Combine(last, content, pieces[b]);
        }
      }
    }
  }

  /** Nothing but combinations of a prefix and a piece is produced. */
  lemma {:induction false} ProductOnly(prefixes: seq<string>, content: string, pieces: seq<string>)
    ensures forall x :: x in Product(prefixes, content, pieces) ==>
      exists a, b :: 0 <= a < |prefixes| && 0 <= b < |pieces| && x == Combine(prefixes[a], content, pieces[b])
    decreases |prefixes|
  {
    if prefixes != [] {
      var init := prefixes[..|prefixes| - 1];
      var last := prefixes[|prefixes| - 1];
      ProductOnly(init, content, pieces);
      RowEntries(last, content, pieces);
      var r0 := Product(init, content, pieces);
      var row := Row(last, content, pieces);
      assert Product(prefixes, content, pieces) == r0 + row;
      forall x | x in r0 + row
        ensures exists a, b :: 0 <= a < |prefixes| && 0 <= b < |pieces| && x == Combine(prefixes[a], content, pieces[b])
      {
        if x in r0 {
          var a, b :| 0 <= a < |init| && 0 <= b < |pieces| && x == Combine(init[a], content, pieces[b]);
          assert prefixes[a] == init[a];
        } else {
          var b :| 0 <= b < |row| && row[b] == x;
          assert x == Combine(prefixes[|prefixes| - 1], content, pieces[b]);
        }
      }
    }
  }

  /** The lines a printer prints: every line is typed, and a selector has text to expand. */
  predicate Printable(lines: seq<NLine>)
  {
    Linked(lines) &&
    forall k :: 0 <= k < |lines| ==> lines[k].kind.Some? && (lines[k].kind == Some(Selector) ==> lines[k].content.Some?)
  }

  /** Whatever the reader produces, the printer can print. */
  lemma {:induction false} ReadPrintable(input: seq<string>)
    ensures Printable(Read(input).lines)
  {
    ReadLinked(input);
    ReadRules(input);
  }

  /**
   * `expandSelector`: a line that is not a selector expands to the empty
   * string; a selector combines every expansion of its parent (or the empty
   * prefix at the top) with every piece of its own text.
   */
  function ExpandSelector(lines: seq<NLine>, i: nat): seq<string>
    requires Printable(lines) && i < |lines|
    decreases i
  {
    if lines[i].kind != Some(Selector) then [""]
    else
      var prefixes := if lines[i].parent.Some? then ExpandSelector(lines, lines[i].parent.value) else [""];
      Product(prefixes, lines[i].content.value, SplitSelector(lines[i].content.value))
  }

  /** A row with the empty prefix is the pieces themselves. */
  lemma {:induction false} RowOfEmpty(content: string, pieces: seq<string>)
    ensures Row("", content, pieces) == pieces
    decreases |pieces|
  {
    if pieces != [] {
      var init := pieces[..|pieces| - 1];
      RowOfEmpty(content, init);
      assert Combine("", content, pieces[|pieces| - 1]) == pieces[|pieces| - 1];
      assert init + [pieces[|pieces| - 1]] == pieces;
    }
  }

  /**
   * A selector at the top, or under a line that is not a selector (such as
   * a wrapper), expands to its own comma-separated pieces.
   */
  lemma {:induction false} ExpandTop(lines: seq<NLine>, i: nat)
    requires Printable(lines) && i < |lines| && lines[i].kind == Some(Selector)
    requires lines[i].parent.None? || lines[lines[i].parent.value].kind != Some(Selector)
    ensures ExpandSelector(lines, i) == SplitSelector(lines[i].content.value)
  {
    var c := lines[i].content.value;
    RowOfEmpty(c, SplitSelector(c));
    assert [""][..0] == [];
    assert Product([""], c, SplitSelector(c)) == Product([], c, SplitSelector(c)) + Row("", c, SplitSelector(c));
  }

  /**
   * A selector under a selector expands to every expansion of its parent
   * combined with every piece of its own text, and to nothing else: joined
   * by a space, except that a selector starting with `:` (a pseudo-class)
   * is joined directly.
   */
  lemma {:induction false} ExpandNested(lines: seq<NLine>, i: nat)
    requires Printable(lines) && i < |lines| && lines[i].kind == Some(Selector)
    requires lines[i].parent.Some? && lines[lines[i].parent.value].kind == Some(Selector)
    ensures var outer := ExpandSelector(lines, lines[i].parent.value);
      var c := lines[i].content.value;
      var pieces := SplitSelector(c);
      var r := ExpandSelector(lines, i);
      |r| == |outer| * |pieces| &&
      (forall a, b :: 0 <= a < |outer| && 0 <= b < |pieces| ==> Combine(outer[a], c, pieces[b]) in r) &&
      (forall x :: x in r ==> exists a, b :: 0 <= a < |outer| && 0 <= b < |pieces| && x == Combine(outer[a], c, pieces[b]))
  {
    var c := lines[i].content.value;
    var outer := ExpandSelector(lines, lines[i].parent.value);
    ProductLength(outer, c, SplitSelector(c));
    ProductCovers(outer, c, SplitSelector(c));
    ProductOnly(outer, c, SplitSelector(c));
  }

  // ----------------------------------------------------------------- printing

  /** What a printer prints from: the block's lines and variables, and the output parameters. */
  datatype Printing = Printing(lines: seq<NLine>, vars: Vars, p: OutputParams)

  /** `printIndent`: the indent string `n` times, or nothing when there is none. */
  function IndentText(p: OutputParams, n: int): string
  {
    if p.indent.None? then [] else Repeat(p.indent.value, n)
  }

  /** `printCr`. */
  function CrText(p: OutputParams): string
  {
    if p.useReturns then LineSeparator else []
  }

  /** `printValue`: the text with the variables substituted, or nothing for null. */
  function ValueText(vars: Vars, s: Option<string>): string
  {
    if s.None? then [] else Substitution(vars, s.value)
  }

  /** How Java prints a possibly null string. */
  function JavaString(s: Option<string>): string
  {
    if s.None? then "null" else s.value
  }

  /** The closing of a block, and a blank line after a block at the top. */
  function EndText(p: OutputParams, indent: int): string
  {
    IndentText(p, indent) + p.parentEnd + CrText(p) + (if indent == 0 then CrText(p) else [])
  }

  /** A head, the opening, the body, then the closing. */
  function BlockText(p: OutputParams, indent: int, head: string, body: string): string
  {
    IndentText(p, indent) + head + (p.parentStart + CrText(p) + body) + EndText(p, indent)
  }

  /** The same body printed once under each of the heads. */
  function BlocksText(p: OutputParams, indent: int, heads: seq<string>, body: string): string
  {
    if heads == [] then []
    else BlocksText(p, indent, heads[..|heads| - 1], body) + BlockText(p, indent, heads[|heads| - 1], body)
  }

  /** The continuations of a property, each on its own line, printed as written. */
  function ContinuationsText(pr: Printing, indent: int, list: seq<nat>): string
    requires forall k :: 0 <= k < |list| ==> list[k] < |pr.lines|
  {
    if list == [] then []
    else ContinuationsText(pr, indent, list[..|list| - 1]) + ContinuationLine(pr, indent, list[|list| - 1], |list| == 1)
  }

  /** One continuation: a line break unless it is the first, the indent, and its text as written. */
  function ContinuationLine(pr: Printing, indent: int, c: nat, first: bool): string
    requires c < |pr.lines|
  {
    (if first then [] else CrText(pr.p)) + IndentText(pr.p, indent) + JavaString(pr.lines[c].content)
  }

  /** `printLines(indent, list)`: every line of the list, in order. */
  function LinesText(pr: Printing, indent: int, list: seq<nat>, ghost lo: nat): string
    requires Printable(pr.lines) && After(pr.lines, lo, list)
    decreases |pr.lines| - lo, 2, |list|
  {
    if list == [] then []
    else LinesText(pr, indent, list[..|list| - 1], lo) + LineText(pr, indent, list[|list| - 1])
  }

  /** `getChildren(t)` of line `i`: its children of type `t`, all after it. */
  function ChildrenOfLine(lines: seq<NLine>, i: nat, t: LineType): (r: seq<nat>)
    requires Linked(lines) && i < |lines|
    ensures After(lines, i + 1, r)
  {
    ChildrenAfter(lines, i, t);
    ChildrenOfType(lines, lines[i].children, t)
  }

  /** One turn of the loop of `printLines`: the switch on the type of line `i`. */
  function LineText(pr: Printing, indent: int, i: nat): string
    requires Printable(pr.lines) && i < |pr.lines|
    decreases |pr.lines| - i, 1
  {
    match pr.lines[i].kind.value
    case Wrapper => WrapperText(pr, indent, i)
    case Selector => SelectorText(pr, indent, i)
    case Property => PropertyText(pr, indent, i)
    case Continuation => ContinuationText(pr, indent, i)
    case _ => []
  }

  /** A wrapper (`@media` and the like): its text as a block around all its children, one level deeper. */
  function WrapperText(pr: Printing, indent: int, i: nat): string
    requires Printable(pr.lines) && i < |pr.lines|
    decreases |pr.lines| - i, 0
  {
    var line := pr.lines[i];
    BlockText(pr.p, indent, ValueText(pr.vars, line.content), LinesText(pr, indent + 1, line.children, i + 1))
  }

  /**
   * A selector: when it has properties, one block of them for each of its
   * expansions; then its sub-selectors, at the same indent.
   */
  function SelectorText(pr: Printing, indent: int, i: nat): string
    requires Printable(pr.lines) && i < |pr.lines|
    decreases |pr.lines| - i, 0
  {
    var props := ChildrenOfLine(pr.lines, i, Property);
    (if props == [] then []
     else BlocksText(pr.p, indent, ExpandSelector(pr.lines, i), LinesText(pr, indent + 1, props, i + 1))) +
    LinesText(pr, indent, ChildrenOfLine(pr.lines, i, Selector), i + 1)
  }

  /** A property: name, operator and value, its continuations on the lines after, then the terminator. */
  function PropertyText(pr: Printing, indent: int, i: nat): string
    requires Printable(pr.lines) && i < |pr.lines|
  {
    var line := pr.lines[i];
    var conts := ChildrenOfLine(pr.lines, i, Continuation);
    IndentText(pr.p, indent) + (JavaString(line.name) + pr.p.propOp) + ValueText(pr.vars, line.value) +
    (if conts == [] then [] else CrText(pr.p) + ContinuationsText(pr, indent + 1, conts)) +
    (pr.p.propEnd + CrText(pr.p))
  }

  /** A continuation printed on its own: its value on a line, then its continuations. */
  function ContinuationText(pr: Printing, indent: int, i: nat): string
    requires Printable(pr.lines) && i < |pr.lines|
    decreases |pr.lines| - i, 0
  {
    var line := pr.lines[i];
    IndentText(pr.p, indent) + ValueText(pr.vars, line.content) + CrText(pr.p) +
    LinesText(pr, indent, ChildrenOfLine(pr.lines, i, Continuation), i + 1)
  }

  /** `print(model)`: the roots of the block, at indent zero. */
  function PrintText(pr: Printing): string
    requires Printable(pr.lines)
  {
    LinesText(pr, 0, Roots(pr.lines), 0)
  }

  /** Comments, includes, variable declarations and at-rules print nothing. */
  predicate Silent(lines: seq<NLine>, i: nat)
    requires i < |lines|
  {
    lines[i].kind.Some? && lines[i].kind.value !in {Wrapper, Selector, Property, Continuation}
  }

  /** The lines of a list that print something. */
  function Audible(lines: seq<NLine>, list: seq<nat>): (r: seq<nat>)
    requires forall k :: 0 <= k < |list| ==> list[k] < |lines|
    ensures forall k :: 0 <= k < |r| ==> r[k] in list && !Silent(lines, r[k])
    ensures forall k :: 0 <= k < |list| && !Silent(lines, list[k]) ==> list[k] in r
  {
    if list == [] then []
    else
      var last := list[|list| - 1];
      Audible(lines, list[..|list| - 1]) + (if Silent(lines, last) then [] else [last])
  }

  /** Printing a list prints the same as printing it without its silent lines. */
  lemma {:induction false} SilentLinesPrintNothing(pr: Printing, indent: int, list: seq<nat>, lo: nat)
    requires Printable(pr.lines) && After(pr.lines, lo, list)
    ensures After(pr.lines, lo, Audible(pr.lines, list))
    ensures LinesText(pr, indent, list, lo) == LinesText(pr, indent, Audible(pr.lines, list), lo)
    decreases |list|
  {
    AudibleAfter(pr.lines, list, lo);
    if list != [] {
      var init := list[..|list| - 1];
      var last := list[|list| - 1];
      SilentLinesPrintNothing(pr, indent, init, lo);
      var a := Audible(pr.lines, init);
      var t := LinesText(pr, indent, init, lo);
      assert LinesText(pr, indent, list, lo) == t + LineText(pr, indent, last);
      if Silent(pr.lines, last) {
        SilentLineText(pr, indent, last);
        assert a + [] == a;
        assert Audible(pr.lines, list) == a;
        assert t + [] == t;
      } else {
        var r := a + [last];
        assert Audible(pr.lines, list) == r;
        assert r[..|r| - 1] == a;
        assert LinesText(pr, indent, r, lo) == LinesText(pr, indent, a, lo) + LineText(pr, indent, last);
      }
    }
  }

  /** The audible lines of a list lie where the list does. */
  lemma {:induction false} AudibleAfter(lines: seq<NLine>, list: seq<nat>, lo: nat)
    requires After(lines, lo, list)
    ensures After(lines, lo, Audible(lines, list))
  {
    var r := Audible(lines, list);
    forall k | 0 <= k < |r| ensures lo <= r[k] < |lines| {
      assert r[k] in list;
    }
  }

  /** A silent line prints nothing. */
  lemma SilentLineText(pr: Printing, indent: int, i: nat)
    requires Printable(pr.lines) && i < |pr.lines| && Silent(pr.lines, i)
    ensures LineText(pr, indent, i) == []
  {
  }

  /** Printing two lists one after the other prints their concatenation. */
  lemma {:induction false} LinesTextConcat(pr: Printing, indent: int, a: seq<nat>, b: seq<nat>, lo: nat)
    requires Printable(pr.lines) && After(pr.lines, lo, a) && After(pr.lines, lo, b)
    ensures After(pr.lines, lo, a + b)
    ensures LinesText(pr, indent, a + b, lo) == LinesText(pr, indent, a, lo) + LinesText(pr, indent, b, lo)
    decreases |b|
  {
    if b != [] {
      var init := b[..|b| - 1];
      LinesTextConcat(pr, indent, a, init, lo);
      assert (a + b)[..|a + b| - 1] == a + init;
    } else {
      assert a + b == a;
    }
  }

  // ------------------------------------------------------------------ printer

  /** An `NPrinter`; `out` is everything it has written to its `PrintWriter`. */
  class NPrinter {
    var out: string
    const p: OutputParams
    var model: NBlock?

    constructor(params: OutputParams)
      ensures out == [] && p == params && model == null
    {
      out := [];
      p := params;
      model := null;
    }

    /** `new NPrinter(out)`: the default output parameters. */
    constructor WithDefaults()
      ensures out == [] && p == Defaults && model == null
    {
      out := [];
      p := Defaults;
      model := null;
    }

    /** What the printer prints from. */
    function Source(): Printing
      requires model != null
      reads this, model
    {
      Printing(model.lines, model.vars, p)
    }

    /** `print(model)`: writes the block's roots, and everything under them, at indent zero. */
    method Print(model: NBlock)
      requires Printable(model.lines)
      modifies this
      ensures this.model == model
      ensures out == old(out) + PrintText(Printing(model.lines, model.vars, p))
    {
      this.model := model;
      var roots := model.GetRoots();
      PrintLines(0, roots, 0);
    }

    /** `printLines`. */
    method PrintLines(indent: int, list: seq<nat>, ghost lo: nat)
      requires model != null && Printable(model.lines) && After(model.lines, lo, list)
      modifies this
      ensures model == old(model)
      ensures out == old(out) + LinesText(Source(), indent, list, lo)
      decreases |model.lines| - lo, 5, |list|
    {
      ghost var start := out;
      ghost var pr := Source();
      for k := 0 to |list|
        invariant model == old(model) && Source() == pr
        invariant out == start + LinesText(pr, indent, list[..k], lo)
      {
        PrintLine(indent, list[k]);
        StringAssoc(start, LinesText(pr, indent, list[..k], lo), LineText(pr, indent, list[k]));
        assert list[..k + 1][..k] == list[..k];
      }
      assert list[..|list|] == list;
    }

    /** The body of the loop of `printLines`: the switch on the line's type. */
    method PrintLine(indent: int, i: nat)
      requires model != null && Printable(model.lines) && i < |model.lines|
      modifies this
      ensures model == old(model)
      ensures out == old(out) + LineText(Source(), indent, i)
      decreases |model.lines| - i, 4
    {
      match model.lines[i].kind.value {
        case Wrapper => PrintWrapper(indent, i);
        case Selector => PrintSelector(indent, i);
        case Property => PrintProperty(indent, i);
        case Continuation => PrintContinuation(indent, i);
        case _ =>
      }
    }

    method PrintWrapper(indent: int, i: nat)
      requires model != null && Printable(model.lines) && i < |model.lines|
      modifies this
      ensures model == old(model)
      ensures out == old(out) + WrapperText(Source(), indent, i)
      decreases |model.lines| - i, 3
    {
      ghost var pr := Source();
      var line := model.lines[i];
      ghost var start := out;
      PrintIndent(indent);
      ghost var text := IndentText(p, indent);
      PrintValue(line.content);
      StringAssoc(start, text, ValueText(model.vars, line.content));
      text := text + ValueText(model.vars, line.content);
      ghost var body := LinesText(pr, indent + 1, line.children, i + 1);
      PrintBody(p.parentStart, indent + 1, line.children, i + 1);
      StringAssoc(start, text, p.parentStart + CrText(p) + body);
      text := text + (p.parentStart + CrText(p) + body);
      PrintEnd(indent);
      StringAssoc(start, text, EndText(p, indent));
    }

    /** The end of a block: the closing at the block's indent, and a blank line after one at the top. */
    method PrintEnd(indent: int)
      modifies this
      ensures model == old(model)
      ensures out == old(out) + EndText(p, indent)
    {
      ghost var start := out;
      PrintIndent(indent);
      out := out + p.parentEnd;
      StringAssoc(start, IndentText(p, indent), p.parentEnd);
      ghost var text := IndentText(p, indent) + p.parentEnd;
      PrintCr();
      StringAssoc(start, text, CrText(p));
      text := text + CrText(p);
      if indent == 0 {
        PrintCr();
        StringAssoc(start, text, CrText(p));
      }
    }

    /** The opening of a block and the lines inside it. */
    method PrintBody(opening: string, indent: int, list: seq<nat>, ghost lo: nat)
      requires model != null && Printable(model.lines) && After(model.lines, lo, list)
      modifies this
      ensures model == old(model)
      ensures out == old(out) + (opening + CrText(p) + LinesText(Source(), indent, list, lo))
      decreases |model.lines| - lo, 6, 0
    {
      ghost var start := out;
      out := out + opening;
      PrintCr();
      ghost var pr := Source();
      PrintLines(indent, list, lo);
      StringAssoc(start, opening + CrText(p), LinesText(pr, indent, list, lo));
    }

    method PrintSelector(indent: int, i: nat)
      requires model != null && Printable(model.lines) && i < |model.lines|
      modifies this
      ensures model == old(model)
      ensures out == old(out) + SelectorText(Source(), indent, i)
      decreases |model.lines| - i, 3
    {
      ghost var pr := Source();
      ghost var start := out;
      ghost var blocks := PrintPropertyBlocks(indent, i);
      ghost var subs := PrintChildren(indent, i, Selector);
      StringAssoc(start, blocks, subs);
    }

    /** The properties of a selector, once under each of its expansions; nothing when it has none. */
    method PrintPropertyBlocks(indent: int, i: nat) returns (ghost text: string)
      requires model != null && Printable(model.lines) && i < |model.lines|
      modifies this
      ensures model == old(model)
      ensures var props := ChildrenOfLine(model.lines, i, Property);
        text == if props == [] then [] else BlocksText(p, indent, ExpandSelector(model.lines, i), LinesText(Source(), indent + 1, props, i + 1))
      ensures out == old(out) + text
      decreases |model.lines| - i, 2
    {
      text := [];
      var props := GetChildren(model.lines, i, Property);
      if props != [] {
        var heads := ExpandSelectorOf(i);
        text := PrintBlocks(indent, heads, props, i + 1);
      } else {
        assert out + text == out;
      }
    }

    /** `printLines(indent, line.getChildren(t))` for line `i`; nothing when it has no such children. */
    method PrintChildren(indent: int, i: nat, t: LineType) returns (ghost text: string)
      requires model != null && Printable(model.lines) && i < |model.lines|
      modifies this
      ensures model == old(model)
      ensures text == LinesText(Source(), indent, ChildrenOfLine(model.lines, i, t), i + 1)
      ensures out == old(out) + text
      decreases |model.lines| - i, 2
    {
      var list := GetChildren(model.lines, i, t);
      text := LinesText(Source(), indent, list, i + 1);
      if list != [] {
        PrintLines(indent, list, i + 1);
      } else {
        assert out + text == out;
      }
    }

    /** The loop over the expansions of a selector: one block of its properties under each. */
    method PrintBlocks(indent: int, heads: seq<string>, props: seq<nat>, ghost lo: nat) returns (ghost text: string)
      requires model != null && Printable(model.lines) && After(model.lines, lo, props) && lo <= |model.lines|
      modifies this
      ensures model == old(model)
      ensures text == BlocksText(p, indent, heads, LinesText(Source(), indent + 1, props, lo))
      ensures out == old(out) + text
      decreases |model.lines| - lo + 1, 1
    {
      ghost var start := out;
      ghost var body := LinesText(Source(), indent + 1, props, lo);
      for k := 0 to |heads|
        invariant model == old(model)
        invariant out == start + BlocksText(p, indent, heads[..k], body)
      {
        PrintBlock(indent, heads[k], props, lo);
        StringAssoc(start, BlocksText(p, indent, heads[..k], body), BlockText(p, indent, heads[k], body));
        assert heads[..k + 1][..k] == heads[..k];
      }
      assert heads[..|heads|] == heads;
      text := BlocksText(p, indent, heads, body);
    }

    /** One turn of the loop over the expansions of a selector: the block of its properties under one full selector. */
    method PrintBlock(indent: int, head: string, props: seq<nat>, ghost lo: nat)
      requires model != null && Printable(model.lines) && After(model.lines, lo, props) && lo <= |model.lines|
      modifies this
      ensures model == old(model)
      ensures out == old(out) + BlockText(p, indent, head, LinesText(Source(), indent + 1, props, lo))
      decreases |model.lines| - lo + 1, 0
    {
      ghost var pr := Source();
      ghost var start := out;
      PrintIndent(indent);
      out := out + head;
      StringAssoc(start, IndentText(p, indent), head);
      ghost var text := IndentText(p, indent) + head;
      ghost var body := LinesText(pr, indent + 1, props, lo);
      PrintBody(p.parentStart, indent + 1, props, lo);
      StringAssoc(start, text, p.parentStart + CrText(p) + body);
      text := text + (p.parentStart + CrText(p) + body);
      PrintEnd(indent);
      StringAssoc(start, text, EndText(p, indent));
    }

    method PrintProperty(indent: int, i: nat)
      requires model != null && Printable(model.lines) && i < |model.lines|
      modifies this
      ensures model == old(model)
      ensures out == old(out) + PropertyText(Source(), indent, i)
    {
      ghost var pr := Source();
      var line := model.lines[i];
      ghost var start := out;
      PrintIndent(indent);
      out := out + (JavaString(line.name) + p.propOp);
      StringAssoc(start, IndentText(p, indent), JavaString(line.name) + p.propOp);
      ghost var text := IndentText(p, indent) + (JavaString(line.name) + p.propOp);
      PrintValue(line.value);
      StringAssoc(start, text, ValueText(model.vars, line.value));
      text := text + ValueText(model.vars, line.value);
      var conts := GetChildren(model.lines, i, Continuation);
      ghost var more: string := [];
      if conts != [] {
        more := PrintContinuations(indent + 1, conts);
      } else {
        assert out + more == out;
      }
      StringAssoc(start, text, more);
      text := text + more;
      out := out + p.propEnd;
      PrintCr();
      StringAssoc(start + text, p.propEnd, CrText(p));
      StringAssoc(start, text, p.propEnd + CrText(p));
    }

    /** The continuations of a property, after a line break, each on a line of its own and printed as written. */
    method PrintContinuations(indent: int, conts: seq<nat>) returns (ghost text: string)
      requires model != null && conts != [] && forall k :: 0 <= k < |conts| ==> conts[k] < |model.lines|
      modifies this
      ensures model == old(model)
      ensures text == CrText(p) + ContinuationsText(Source(), indent, conts)
      ensures out == old(out) + text
    {
      ghost var pr := Source();
      ghost var start := out;
      PrintCr();
      var hasPrior := false;
      for k := 0 to |conts|
        invariant model == old(model)
        invariant hasPrior <==> k > 0
        invariant out == start + (CrText(p) + ContinuationsText(pr, indent, conts[..k]))
      {
        PrintContinuationLine(indent, conts[k], hasPrior);
        hasPrior := true;
        ghost var line := ContinuationLine(pr, indent, conts[k], k == 0);
        StringAssoc(start, CrText(p) + ContinuationsText(pr, indent, conts[..k]), line);
        StringAssoc(CrText(p), ContinuationsText(pr, indent, conts[..k]), line);
        assert conts[..k + 1][..k] == conts[..k];
      }
      assert conts[..|conts|] == conts;
      text := CrText(p) + ContinuationsText(pr, indent, conts);
    }

    /** One turn of the loop over a property's continuations. */
    method PrintContinuationLine(indent: int, c: nat, hasPrior: bool)
      requires model != null && c < |model.lines|
      modifies this
      ensures model == old(model)
      ensures out == old(out) + ContinuationLine(Source(), indent, c, !hasPrior)
    {
      ghost var start := out;
      ghost var sep: string := if hasPrior then CrText(p) else [];
      if hasPrior {
        PrintCr();
      }
      PrintIndent(indent);
      StringAssoc(start, sep, IndentText(p, indent));
      out := out + JavaString(model.lines[c].content);
      StringAssoc(start, sep + IndentText(p, indent), JavaString(model.lines[c].content));
    }

    method PrintContinuation(indent: int, i: nat)
      requires model != null && Printable(model.lines) && i < |model.lines|
      modifies this
      ensures model == old(model)
      ensures out == old(out) + ContinuationText(Source(), indent, i)
      decreases |model.lines| - i, 3
    {
      ghost var pr := Source();
      var line := model.lines[i];
      ghost var start := out;
      PrintIndent(indent);
      ghost var text := IndentText(p, indent);
      PrintValue(line.content);
      StringAssoc(start, text, ValueText(model.vars, line.content));
      text := text + ValueText(model.vars, line.content);
      PrintCr();
      StringAssoc(start, text, CrText(p));
      text := text + CrText(p);
      ghost var more := PrintChildren(indent, i, Continuation);
      StringAssoc(start, text, more);
    }

    /** `printIndent`. */
    method PrintIndent(indent: int)
      modifies this
      ensures model == old(model)
      ensures out == old(out) + IndentText(p, indent)
    {
      if p.indent.None? {
        return;
      }
      ghost var start := out;
      var k := 0;
      while k < indent
        invariant 0 <= k && (k <= indent || k == 0)
        invariant model == old(model)
        invariant out == start + Repeat(p.indent.value, k)
      {
        out := out + p.indent.value;
        RepeatSnoc(p.indent.value, k);
        k := k + 1;
      }
    }

    /** `printCr`. */
    method PrintCr()
      modifies this
      ensures model == old(model)
      ensures out == old(out) + CrText(p)
    {
      if p.useReturns {
        out := out + LineSeparator;
      }
    }

    /** `printValue`. */
    method PrintValue(s: Option<string>)
      requires model != null
      modifies this
      ensures model == old(model)
      ensures out == old(out) + ValueText(model.vars, s)
    {
      if s.None? {
        return;
      }
      var t := model.SubstituteVariables(s.value);
      out := out + t;
    }

    /** `expandSelector`. */
    method ExpandSelectorOf(i: nat) returns (r: seq<string>)
      requires model != null && Printable(model.lines) && i < |model.lines|
      ensures r == ExpandSelector(model.lines, i)
      decreases i
    {
      var line := model.lines[i];
      if line.kind != Some(Selector) {
        return [""];
      }
      var prefixes: seq<string>;
      if line.parent.Some? {
        prefixes := ExpandSelectorOf(line.parent.value);
      } else {
        prefixes := [""];
      }
      var content := line.content.value;
      var pieces := SplitSelectorOf(content);
      r := ProductOf(prefixes, content, pieces);
    }
  }

  /** The loops of `expandSelector`: every prefix, in order, combined with every piece. */
  method ProductOf(prefixes: seq<string>, content: string, pieces: seq<string>) returns (r: seq<string>)
    ensures r == Product(prefixes, content, pieces)
  {
    r := [];
    for a := 0 to |prefixes|
      invariant r == Product(prefixes[..a], content, pieces)
    {
      r := AppendRow(r, prefixes[a], content, pieces);
      assert prefixes[..a + 1][..a] == prefixes[..a];
    }
    assert prefixes[..|prefixes|] == prefixes;
  }

  /** The inner loop of `expandSelector`: one prefix combined with every piece, appended in order. */
  method AppendRow(done: seq<string>, prefix: string, content: string, pieces: seq<string>) returns (r: seq<string>)
    ensures r == done + Row(prefix, content, pieces)
  {
    r := done;
    for b := 0 to |pieces|
      invariant r == done + Row(prefix, content, pieces[..b])
    {
      var joint := if |prefix| > 0 && !StartsWith(content, ":") then " " else "";
      r := r + [prefix + joint + pieces[b]];
      assert pieces[..b + 1][..b] == pieces[..b];
    }
    assert pieces[..|pieces|] == pieces;
  }

  /** `splitSelector`. */
  method SplitSelectorOf(s: string) returns (r: seq<string>)
    ensures r == SplitSelector(s)
  {
    var parts := Split(s, IsComma);
    r := [];
    for k := 0 to |parts|
      invariant r == TrimAll(parts[..k])
    {
      r := r + [Trim(parts[k])];
      assert parts[..k + 1][..k] == parts[..k];
    }
    assert parts[..|parts|] == parts;
  }
}
