/**
 * The template parser (TuckerParser): a template is read line by line; each
 * line is a comment, a block header, an insertion point or a tag, and the
 * nodes of each block are finally arranged by indentation.
 *
 * The parser's fields are modelled as a class whose methods follow the
 * source's loops; each method is specified by a function over `Lexing`, a
 * value holding the same fields, and the properties of the format are lemmas
 * about those functions. The block registry is a `LinkedHashMap` in the
 * source: here the names in insertion order plus a map from name to block,
 * and the active block is the name it is registered under.
 */
module Parser {
  import opened Wrappers
  import opened JavaText
  import opened Tree
  import Specials
  import TagLexer
  import Hierarchy

  /** `TuckerParser.Problem`: a message about the line at `row`. */
  datatype Problem = Problem(row: int, message: string)

  const InsertionOutside := "Insertion Point cannot be outside of a block definition"
  const TagOutside := "Tag is outside of a block definition"

  // ------------------------------------------------------------- problems

  /** The decimal digits of `n`, as `%d` prints a number that is not negative. */
  function Decimal(n: nat): (r: string)
    ensures r != [] && forall k :: 0 <= k < |r| ==> '0' <= r[k] <= '9'
    ensures (r[0] == '0') <==> n == 0
  {
    if n < 10 then [(n + '0' as int) as char] else Decimal(n / 10) + [(n % 10 + '0' as int) as char]
  }

  /** The number a string of decimal digits denotes. */
  function DigitsValue(s: string): nat
    requires forall k :: 0 <= k < |s| ==> '0' <= s[k] <= '9'
  {
    if s == [] then 0 else DigitsValue(s[..|s| - 1]) * 10 + (s[|s| - 1] as int - '0' as int)
  }

  /** `Problem.toString()`: `row: message`. */
  function ProblemText(p: Problem): (r: string)
    ensures p.row >= 0 ==> r == Decimal(p.row) + ": " + p.message
    ensures p.row < 0 ==> r == "-" + Decimal(-p.row) + ": " + p.message
  {
    (if p.row < 0 then "-" + Decimal(-p.row) else Decimal(p.row)) + ": " + p.message
  }

  /** The problems for `messages`, all at `row`. */
  function WithRow(row: int, messages: seq<string>): (r: seq<Problem>)
    ensures |r| == |messages| && forall k :: 0 <= k < |r| ==> r[k] == Problem(row, messages[k])
  {
    seq(|messages|, k requires 0 <= k < |messages| => Problem(row, messages[k]))
  }

  // ---------------------------------------------------------------- state

  /**
   * The parser's fields between two lines: the row, the registered block
   * names in insertion order, the block of each name, the name of the active
   * block and the problems recorded so far.
   */
  datatype Lexing = Lexing(row: int, order: seq<string>, blocks: map<string, Node>, active: Option<string>, problems: seq<Problem>)

  /** The registry is a map with its insertion order, and the active block is registered. */
  predicate Registered(s: Lexing)
  {
    (forall k :: 0 <= k < |s.order| ==> s.order[k] in s.blocks) &&
    (forall name :: name in s.blocks ==> name in s.order) &&
    (forall k, l :: 0 <= k < l < |s.order| ==> s.order[k] != s.order[l]) &&
    (s.active.Some? ==> s.active.value in s.blocks)
  }

  /** The state `parse` starts `lexLines` from. */
  const Fresh := Lexing(1, [], map[], None, [])

  /** `blocks.put(name, new Block(name))` and the new block made active: a known name keeps its place in the order. */
  function Activate(s: Lexing, name: string): Lexing
  {
    s.(order := if name in s.blocks then s.order else s.order + [name],
       blocks := s.blocks[name := Named(BlockNode, name)],
       active := Some(name))
  }

  /** `activeBlock.addChild(node)` (the active block is always registered, see `StaysRegistered`). */
  function AddToActive(s: Lexing, node: Node): (r: Lexing)
    ensures r.row == s.row && r.problems == s.problems && r.order == s.order && r.active == s.active
  {
    if s.active.Some? && s.active.value in s.blocks then
      s.(blocks := s.blocks[s.active.value := AddChild(s.blocks[s.active.value], node)])
    else s
  }

  /** The problems `messages` recorded at the current row. */
  function Record(s: Lexing, messages: seq<string>): Lexing
  {
    s.(problems := s.problems + WithRow(s.row, messages))
  }

  // ---------------------------------------------------------------- lines

  /** The indent of a line: the number of spaces and tabs it starts with. */
  function Indent(line: string): (r: nat)
    ensures r <= |line|
  {
    LeadingBlanks(line, 0)
  }

  /** The loop of `lexLines` that counts the spaces and tabs a line starts with. */
  method IndentOf(line: string) returns (indent: nat)
    ensures indent == Indent(line)
  {
    indent := 0;
    while indent < |line| && (line[indent] == ' ' || line[indent] == '\t')
      invariant indent <= |line| && LeadingBlanks(line, indent) == Indent(line)
    {
      indent := indent + 1;
    }
  }

  predicate KeptInBlockName(c: char)
  {
    c != '=' && !IsBlankChar(c)
  }

  predicate KeptInInsertionName(c: char)
  {
    !IsBlankChar(c)
  }

  /** The name on a block line: the rest of the line without `=`, spaces and tabs, trimmed. */
  function BlockName(line: string, from: nat): string
    requires from <= |line|
  {
    Trim(Filter(line[from..], KeptInBlockName))
  }

  /** The name on an insertion line: the rest of the line without spaces and tabs, trimmed. */
  function InsertionName(line: string, from: nat): string
    requires from <= |line|
  {
    Trim(Filter(line[from..], KeptInInsertionName))
  }

  /** `lexInsertionPoint(line, from)`: an insertion node with that name, none when it is empty. */
  function InsertionOf(line: string, from: nat): (r: Option<Node>)
    requires from <= |line|
    ensures r.None? <==> InsertionName(line, from) == []
    ensures r.Some? ==> r.value == Named(InsertionNode, InsertionName(line, from))
  {
    var name := InsertionName(line, from);
    if name == [] then None else Some(Named(InsertionNode, name))
  }

  /**
   * A tag line inside a block: the specials are transformed, the tag is
   * lexed, indent and row set, the node appended to the active block and its
   * inline segments lexed; the problems of the three steps are recorded in
   * that order. An exception from the lexer ends the parse.
   */
  function TagLine(s: Lexing, line: string, indent: nat, defaultTag: string): Result<Lexing>
    requires indent <= |line|
  {
    var transformed := Specials.Transformed(line, indent);
    var lexed := TagLexer.TagOf(transformed.0, defaultTag);
    if lexed.Err? then Err(lexed.message)
    else
      var filled := TagLexer.InlineNodes(lexed.value.node.segments, defaultTag);
      if filled.Err? then Err(filled.message)
      else
        var node := lexed.value.node.(indent := indent, row := s.row, segments := filled.value.0);
        Ok(Record(AddToActive(s, node), transformed.1 + lexed.value.problems + filled.value.1))
  }

  /** An insertion line inside a block: the insertion node, with its indent and row, appended to the active block. */
  function InsertionLine(s: Lexing, line: string, indent: nat): (r: Lexing)
    requires indent < |line|
    ensures r.row == s.row && r.problems == s.problems
  {
    var node := InsertionOf(line, indent + 1);
    if node.None? then s else AddToActive(s, node.value.(indent := indent, row := s.row))
  }

  /** `lexLine(line, indent)`: what the first character after the indent makes of the line. */
  function LineAt(s: Lexing, line: string, indent: nat, defaultTag: string): (r: Result<Lexing>)
    requires indent < |line|
    ensures r.Ok? ==> r.value.row == s.row
  {
    var c := line[indent];
    if c == '/' || c == '#' then Ok(s)
    else if c == '=' then
      var name := BlockName(line, indent + 1);
      if name == [] then Ok(s) else Ok(Activate(s, name))
    else if c == '>' then
      if s.active.None? then Ok(Record(s, [InsertionOutside])) else Ok(InsertionLine(s, line, indent))
    else if s.active.None? then Ok(Record(s, [TagOutside]))
    else TagLine(s, line, indent, defaultTag)
  }

  /** One line of `lexLines`: a line of spaces and tabs only is skipped. */
  function LineStep(s: Lexing, line: string, defaultTag: string): (r: Result<Lexing>)
    ensures r.Ok? ==> r.value.row == s.row
  {
    var indent := Indent(line);
    if indent >= |line| then Ok(s) else LineAt(s, line, indent, defaultTag)
  }

  /** `lexLines` from state `s`: each line in turn, the row going up by one after each. */
  function Lexed(s: Lexing, lines: seq<string>, defaultTag: string): (r: Result<Lexing>)
    ensures r.Ok? ==> r.value.row == s.row + |lines|
    decreases |lines|
  {
    if lines == [] then Ok(s)
    else
      var t := LineStep(s, lines[0], defaultTag);
      if t.Err? then t else Lexed(t.value.(row := t.value.row + 1), lines[1..], defaultTag)
  }

  /** `lexLines` from line `i` on: that line's step, then the rest from the next row. */
  lemma {:induction false} LexedUnfold(s: Lexing, lines: seq<string>, i: nat, defaultTag: string)
    requires i < |lines|
    ensures var t := LineStep(s, lines[i], defaultTag);
      Lexed(s, lines[i..], defaultTag) == if t.Err? then t else Lexed(t.value.(row := t.value.row + 1), lines[i + 1..], defaultTag)
  {
    assert lines[i..][0] == lines[i] && lines[i..][1..] == lines[i + 1..];
  }

  /** `lexLines` over a first line and the rest: the first line's exception, or the rest from the next row. */
  lemma {:induction false} LexedCons(s: Lexing, lines: seq<string>, defaultTag: string)
    requires lines != []
    ensures var t := LineStep(s, lines[0], defaultTag);
      (t.Err? ==> Lexed(s, lines, defaultTag) == t) &&
      (t.Ok? ==> Lexed(s, lines, defaultTag) == Lexed(t.value.(row := t.value.row + 1), lines[1..], defaultTag))
  {
  }

  /** Every registered block with its nodes arranged into a tree. */
  function Arrange(s: Lexing): (r: Lexing)
    ensures r.blocks.Keys == s.blocks.Keys && r.order == s.order && r.problems == s.problems
    ensures forall name :: name in s.blocks ==> r.blocks[name] == Hierarchy.Arranged(s.blocks[name])
  {
    s.(blocks := map name | name in s.blocks :: Hierarchy.Arranged(s.blocks[name]))
  }

  /** `parse(in)`: every line lexed from a fresh registry, then every block arranged. */
  function Parsed(lines: seq<string>, defaultTag: string): Result<Lexing>
  {
    var l := Lexed(Fresh, lines, defaultTag);
    if l.Err? then l else Ok(Arrange(l.value))
  }

  // ---------------------------------------------------------------- parser

  // ------------------------------------------------------------ properties

  /** `%d` round-trips: the digits printed for a row denote that row. */
  lemma {:induction false} DecimalValue(n: nat)
    ensures DigitsValue(Decimal(n)) == n
  {
    if n >= 10 {
      var d := Decimal(n / 10);
      var r := Decimal(n);
      assert r == d + [(n % 10 + '0' as int) as char];
      assert r[..|r| - 1] == d;
      DecimalValue(n / 10);
    }
  }

  /** A line of spaces and tabs only (or an empty one) changes nothing. */
  lemma {:induction false} BlankLineSkipped(s: Lexing, line: string, defaultTag: string)
    requires forall k :: 0 <= k < |line| ==> IsBlankChar(line[k])
    ensures LineStep(s, line, defaultTag) == Ok(s)
  {
  }

  /** Otherwise the line is handled at its indent, the position of its first character that is not a space or tab. */
  lemma {:induction false} LineStepAt(s: Lexing, line: string, defaultTag: string)
    requires Indent(line) < |line|
    ensures LineStep(s, line, defaultTag) == LineAt(s, line, Indent(line), defaultTag)
    ensures forall k :: 0 <= k < Indent(line) ==> IsBlankChar(line[k])
    ensures !IsBlankChar(line[Indent(line)])
  {
  }

  /** A line whose first character after the indent is `/` or `#` is a comment and changes nothing. */
  lemma {:induction false} CommentSkipped(s: Lexing, line: string, i: nat, defaultTag: string)
    requires i < |line| && (line[i] == '/' || line[i] == '#')
    ensures LineAt(s, line, i, defaultTag) == Ok(s)
  {
  }

  /**
   * Outside any block, an insertion line or a tag line records one problem at
   * the current row and changes nothing else.
   */
  lemma {:induction false} OutsideBlock(s: Lexing, line: string, i: nat, defaultTag: string)
    requires s.active.None? && i < |line| && line[i] != '/' && line[i] != '#' && line[i] != '='
    ensures LineAt(s, line, i, defaultTag) ==
      Ok(s.(problems := s.problems + [Problem(s.row, if line[i] == '>' then InsertionOutside else TagOutside)]))
  {
    assert WithRow(s.row, [InsertionOutside]) == [Problem(s.row, InsertionOutside)];
    assert WithRow(s.row, [TagOutside]) == [Problem(s.row, TagOutside)];
  }

  /** A block line registers and activates the block its name gives; an empty name changes nothing. */
  lemma {:induction false} BlockLineStep(s: Lexing, line: string, i: nat, defaultTag: string)
    requires i < |line| && line[i] == '='
    ensures BlockName(line, i + 1) == [] ==> LineAt(s, line, i, defaultTag) == Ok(s)
    ensures BlockName(line, i + 1) != [] ==> LineAt(s, line, i, defaultTag) == Ok(Activate(s, BlockName(line, i + 1)))
  {
  }

  /** The name of a block line is empty when the rest of the line holds only `=`, spaces and tabs. */
  lemma {:induction false} EmptyBlockName(line: string, from: nat)
    requires from <= |line| && forall k :: from <= k < |line| ==> !KeptInBlockName(line[k])
    ensures BlockName(line, from) == []
  {
    var rest := line[from..];
    assert forall k :: 0 <= k < |rest| ==> !KeptInBlockName(rest[k]);
  }

  /**
   * Registering a block: the new, empty block of that name is active; a
   * name seen before keeps its place in the registry order and loses its old
   * block, a new name goes last; the other blocks, the row and the problems
   * are kept, and the registry stays well formed.
   */
  lemma {:induction false} ActivateRegisters(s: Lexing, name: string)
    ensures var r := Activate(s, name);
      r.active == Some(name) && r.blocks[name] == Named(BlockNode, name) && r.blocks[name].children == [] &&
      r.blocks.Keys == s.blocks.Keys + {name} &&
      (name in s.blocks ==> r.order == s.order) &&
      (name !in s.blocks ==> r.order == s.order + [name]) &&
      (forall other :: other in s.blocks && other != name ==> r.blocks[other] == s.blocks[other]) &&
      r.row == s.row && r.problems == s.problems
    ensures Registered(s) ==> Registered(Activate(s, name))
  {
    var r := Activate(s, name);
    if Registered(s) && name !in s.blocks {
      forall k, l | 0 <= k < l < |r.order|
        ensures r.order[k] != r.order[l]
      {
        if l == |s.order| {
          assert r.order[k] == s.order[k];
        }
      }
    }
  }

  lemma {:induction false} InsertionLineAt(s: Lexing, line: string, i: nat, defaultTag: string)
    requires s.active.Some? && i < |line| && line[i] == '>'
    ensures LineAt(s, line, i, defaultTag) == Ok(InsertionLine(s, line, i))
  {
  }

  /** An insertion line inside a block appends what `lexInsertionPoint` makes of it, with its indent and row; an empty name changes nothing. */
  lemma {:induction false} InsertionLineStep(s: Lexing, line: string, i: nat, defaultTag: string)
    requires s.active.Some? && i < |line| && line[i] == '>'
    ensures InsertionOf(line, i + 1).None? ==> LineAt(s, line, i, defaultTag) == Ok(s)
    ensures InsertionOf(line, i + 1).Some? ==>
      LineAt(s, line, i, defaultTag) == Ok(AddToActive(s, InsertionOf(line, i + 1).value.(indent := i, row := s.row)))
    ensures LineAt(s, line, i, defaultTag).Ok? && LineAt(s, line, i, defaultTag).value.problems == s.problems
  {
    InsertionLineAt(s, line, i, defaultTag);
  }

  /** Appending to the active block adds the node last among its children and changes nothing else. */
  lemma {:induction false} AppendsToActive(s: Lexing, node: Node)
    requires s.active.Some? && s.active.value in s.blocks
    ensures var r := AddToActive(s, node);
      var a := s.active.value;
      r.blocks.Keys == s.blocks.Keys && r.order == s.order && r.active == s.active && r.row == s.row && r.problems == s.problems &&
      r.blocks[a].children == s.blocks[a].children + [node] && r.blocks[a].tagName == s.blocks[a].tagName &&
      (forall other :: other in s.blocks && other != a ==> r.blocks[other] == s.blocks[other])
    ensures Registered(s) ==> Registered(AddToActive(s, node))
  {
  }

  /** A tag line inside a block is lexed by `TagLine`. */
  lemma {:induction false} TagLineStep(s: Lexing, line: string, i: nat, defaultTag: string)
    requires s.active.Some? && i < |line| && line[i] != '/' && line[i] != '#' && line[i] != '=' && line[i] != '>'
    ensures LineAt(s, line, i, defaultTag) == TagLine(s, line, i, defaultTag)
  {
  }

  /**
   * A tag line that lexes appends exactly one tag node, not inline, with the
   * line's indent and row and the name `lexTag` gives it, to the active
   * block; it keeps the registry and adds problems at its row only.
   */
  lemma {:induction false} TagLineAppends(s: Lexing, line: string, i: nat, defaultTag: string)
    requires s.active.Some? && s.active.value in s.blocks && i <= |line| && TagLine(s, line, i, defaultTag).Ok?
    ensures var r := TagLine(s, line, i, defaultTag).value;
      var a := s.active.value;
      var kids := s.blocks[a].children;
      r.order == s.order && r.active == s.active && r.blocks.Keys == s.blocks.Keys &&
      (forall other :: other in s.blocks && other != a ==> r.blocks[other] == s.blocks[other]) &&
      |r.blocks[a].children| == |kids| + 1 && r.blocks[a].children[..|kids|] == kids &&
      var node := r.blocks[a].children[|kids|];
      node.kind == TagNode && node.indent == i && node.row == s.row &&
      node.tagName == TagLexer.TagOf(Specials.Transformed(line, i).0, defaultTag).value.node.tagName
    ensures AddsProblemsAt(s.problems, TagLine(s, line, i, defaultTag).value.problems, s.row)
    ensures Registered(s) ==> Registered(TagLine(s, line, i, defaultTag).value)
  {
    var a := s.active.value;
    var kids := s.blocks[a].children;
    var transformed := Specials.Transformed(line, i);
    var lexed := TagLexer.TagOf(transformed.0, defaultTag);
    var filled := TagLexer.InlineNodes(lexed.value.node.segments, defaultTag);
    var node := lexed.value.node.(indent := i, row := s.row, segments := filled.value.0);
    var added := AddToActive(s, node);
    AppendsToActive(s, node);
    var r := TagLine(s, line, i, defaultTag).value;
    assert r == Record(added, transformed.1 + lexed.value.problems + filled.value.1);
    assert (kids + [node])[..|kids|] == kids;
    assert r.problems[..|s.problems|] == s.problems;
  }

  /** Every line keeps the registry a map with its insertion order, and the active block registered. */
  lemma {:induction false} StaysRegistered(s: Lexing, line: string, defaultTag: string)
    requires Registered(s)
    ensures LineStep(s, line, defaultTag).Ok? ==> Registered(LineStep(s, line, defaultTag).value)
  {
    var i := Indent(line);
    if i < |line| {
      LineStepAt(s, line, defaultTag);
      var c := line[i];
      if c == '=' {
        BlockLineStep(s, line, i, defaultTag);
        ActivateRegisters(s, BlockName(line, i + 1));
      } else if c == '>' && s.active.Some? {
        InsertionLineStep(s, line, i, defaultTag);
        if InsertionOf(line, i + 1).Some? {
          AppendsToActive(s, InsertionOf(line, i + 1).value.(indent := i, row := s.row));
        }
      } else if c != '/' && c != '#' && c != '>' && s.active.Some? {
        TagLineStep(s, line, i, defaultTag);
        if TagLine(s, line, i, defaultTag).Ok? {
          TagLineAppends(s, line, i, defaultTag);
        }
      }
    }
  }

  /** `after` keeps the problems of `before` and adds problems at `row` only. */
  predicate AddsProblemsAt(before: seq<Problem>, after: seq<Problem>, row: int)
  {
    |before| <= |after| && after[..|before|] == before &&
    forall k :: |before| <= k < |after| ==> after[k].row == row
  }

  /** Recording messages adds them at the current row. */
  lemma {:induction false} RecordAddsAt(s: Lexing, messages: seq<string>)
    ensures AddsProblemsAt(s.problems, Record(s, messages).problems, s.row)
  {
    assert Record(s, messages).problems[..|s.problems|] == s.problems;
  }

  /** A tag line keeps the problems recorded so far and adds problems at its own row only. */
  lemma {:induction false} TagLineProblems(s: Lexing, line: string, i: nat, defaultTag: string)
    requires i <= |line| && TagLine(s, line, i, defaultTag).Ok?
    ensures AddsProblemsAt(s.problems, TagLine(s, line, i, defaultTag).value.problems, s.row)
  {
    if s.active.Some? && s.active.value in s.blocks {
      TagLineAppends(s, line, i, defaultTag);
    } else {
      var transformed := Specials.Transformed(line, i);
      var lexed := TagLexer.TagOf(transformed.0, defaultTag);
      var filled := TagLexer.InlineNodes(lexed.value.node.segments, defaultTag);
      assert TagLine(s, line, i, defaultTag).value == Record(s, transformed.1 + lexed.value.problems + filled.value.1);
      RecordAddsAt(s, transformed.1 + lexed.value.problems + filled.value.1);
    }
  }

  /** A state with the same problems adds none. */
  lemma {:induction false} SameProblems(before: seq<Problem>, after: seq<Problem>, row: int)
    requires after == before
    ensures AddsProblemsAt(before, after, row)
  {
    assert after[..|before|] == before;
  }

  /** Comments and block lines add no problem. */
  lemma {:induction false} QuietLineProblems(s: Lexing, line: string, i: nat, defaultTag: string)
    requires i < |line| && (line[i] == '/' || line[i] == '#' || line[i] == '=') && LineAt(s, line, i, defaultTag).Ok?
    ensures AddsProblemsAt(s.problems, LineAt(s, line, i, defaultTag).value.problems, s.row)
  {
    var r := LineAt(s, line, i, defaultTag).value;
    if line[i] == '=' {
      BlockLineStep(s, line, i, defaultTag);
      assert r.problems == s.problems;
    } else {
      CommentSkipped(s, line, i, defaultTag);
    }
    SameProblems(s.problems, r.problems, s.row);
  }

  /** Insertion and tag lines outside any block add their one problem at their row. */
  lemma {:induction false} OutsideLineProblems(s: Lexing, line: string, i: nat, defaultTag: string)
    requires s.active.None? && i < |line| && line[i] != '/' && line[i] != '#' && line[i] != '='
    ensures AddsProblemsAt(s.problems, LineAt(s, line, i, defaultTag).value.problems, s.row)
  {
    OutsideBlock(s, line, i, defaultTag);
    RecordAddsAt(s, [if line[i] == '>' then InsertionOutside else TagOutside]);
  }

  /** Insertion lines inside a block add no problem. */
  lemma {:induction false} InsertionLineProblems(s: Lexing, line: string, i: nat, defaultTag: string)
    requires s.active.Some? && i < |line| && line[i] == '>'
    ensures AddsProblemsAt(s.problems, LineAt(s, line, i, defaultTag).value.problems, s.row)
  {
    InsertionLineStep(s, line, i, defaultTag);
    assert s.problems[..|s.problems|] == s.problems;
  }

  /** Tag lines inside a block add problems at their row only. */
  lemma {:induction false} TagLineAtProblems(s: Lexing, line: string, i: nat, defaultTag: string)
    requires s.active.Some? && i < |line| && line[i] != '/' && line[i] != '#' && line[i] != '=' && line[i] != '>' && LineAt(s, line, i, defaultTag).Ok?
    ensures AddsProblemsAt(s.problems, LineAt(s, line, i, defaultTag).value.problems, s.row)
  {
    TagLineStep(s, line, i, defaultTag);
    TagLineProblems(s, line, i, defaultTag);
  }

  /** A line handled at its indent keeps the problems recorded so far and adds problems at its own row only. */
  lemma {:induction false} LineAtProblems(s: Lexing, line: string, i: nat, defaultTag: string)
    requires i < |line| && LineAt(s, line, i, defaultTag).Ok?
    ensures AddsProblemsAt(s.problems, LineAt(s, line, i, defaultTag).value.problems, s.row)
  {
    if (line[i] == '/' || line[i] == '#' || line[i] == '=') {
      QuietLineProblems(s, line, i, defaultTag);
    } else if s.active.None? {
      OutsideLineProblems(s, line, i, defaultTag);
    } else if line[i] == '>' {
      InsertionLineProblems(s, line, i, defaultTag);
    } else {
      TagLineAtProblems(s, line, i, defaultTag);
    }
  }

  /** A line keeps the problems recorded so far and adds problems at its own row only. */
  lemma {:induction false} LineProblems(s: Lexing, line: string, defaultTag: string)
    requires LineStep(s, line, defaultTag).Ok?
    ensures AddsProblemsAt(s.problems, LineStep(s, line, defaultTag).value.problems, s.row)
  {
    if Indent(line) < |line| {
      LineStepAt(s, line, defaultTag);
      LineAtProblems(s, line, Indent(line), defaultTag);
    }
  }

  /** The problems are in row order. */
  predicate RowsSorted(problems: seq<Problem>)
  {
    forall k, l :: 0 <= k < l < |problems| ==> problems[k].row <= problems[l].row
  }

  /** `after` keeps the problems of `before` and adds problems at rows `lo` up to `hi` (excluded) only. */
  predicate AddsProblemsWithin(before: seq<Problem>, after: seq<Problem>, lo: int, hi: int)
  {
    |before| <= |after| && after[..|before|] == before &&
    forall k :: |before| <= k < |after| ==> lo <= after[k].row < hi
  }

  /** Problems in row order, none after `row`. */
  predicate SortedUpTo(problems: seq<Problem>, row: int)
  {
    RowsSorted(problems) && forall k :: 0 <= k < |problems| ==> problems[k].row <= row
  }

  /** Adding problems at the current row keeps them sorted. */
  lemma {:induction false} AddAtKeepsSorted(before: seq<Problem>, after: seq<Problem>, row: int)
    requires SortedUpTo(before, row) && AddsProblemsAt(before, after, row)
    ensures SortedUpTo(after, row + 1)
  {
    forall k | 0 <= k < |before|
      ensures after[k] == before[k]
    {
      assert after[..|before|][k] == before[k];
    }
  }

  /** A line's problems followed by the later lines' problems. */
  lemma {:induction false} ComposeAdds(before: seq<Problem>, middle: seq<Problem>, after: seq<Problem>, row: int, hi: int)
    requires row < hi && AddsProblemsAt(before, middle, row) && AddsProblemsWithin(middle, after, row + 1, hi)
    ensures AddsProblemsWithin(before, after, row, hi)
  {
    assert after[..|before|] == after[..|middle|][..|before|];
    forall k | |before| <= k < |middle|
      ensures after[k] == middle[k]
    {
      assert after[..|middle|][k] == middle[k];
    }
  }

  /**
   * Lexing lines from row `s.row` on keeps the earlier problems and adds only
   * problems at the rows of those lines, in row order.
   */
  lemma {:induction false} ProblemRows(s: Lexing, lines: seq<string>, defaultTag: string)
    requires SortedUpTo(s.problems, s.row)
    ensures var r := Lexed(s, lines, defaultTag);
      r.Ok? ==> RowsSorted(r.value.problems) && AddsProblemsWithin(s.problems, r.value.problems, s.row, s.row + |lines|)
    decreases |lines|
  {
    var r := Lexed(s, lines, defaultTag);
    if lines == [] {
      SameProblems(s.problems, s.problems, s.row);
    } else if r.Ok? {
      var t := LineStep(s, lines[0], defaultTag);
      LexedCons(s, lines, defaultTag);
      var u := t.value.(row := t.value.row + 1);
      LineProblems(s, lines[0], defaultTag);
      AddAtKeepsSorted(s.problems, u.problems, s.row);
      ProblemRows(u, lines[1..], defaultTag);
      ComposeAdds(s.problems, u.problems, r.value.problems, s.row, s.row + |lines|);
    }
  }

  /** Every problem of a parse is at the row of one of its lines (rows count from 1), in row order. */
  lemma {:induction false} ParseProblemRows(lines: seq<string>, defaultTag: string)
    ensures var r := Parsed(lines, defaultTag);
      r.Ok? ==> RowsSorted(r.value.problems) && forall p :: p in r.value.problems ==> 1 <= p.row <= |lines|
  {
    ProblemRows(Fresh, lines, defaultTag);
    var l := Lexed(Fresh, lines, defaultTag);
    if l.Ok? {
      var problems := l.value.problems;
      assert AddsProblemsWithin([], problems, 1, 1 + |lines|);
      forall p | p in problems
        ensures 1 <= p.row <= |lines|
      {
        var k :| 0 <= k < |problems| && problems[k] == p;
      }
    }
  }

  /** The blocks of the first `i` names arranged, the others as lexed. */
  predicate ArrangedUpTo(order: seq<string>, before: map<string, Node>, after: map<string, Node>, i: nat)
  {
    i <= |order| && after.Keys == before.Keys &&
    (forall k :: 0 <= k < |order| ==> order[k] in before) &&
    (forall name :: name in before ==> name in order) &&
    (forall k, l :: 0 <= k < l < |order| ==> order[k] != order[l]) &&
    (forall k :: 0 <= k < i ==> after[order[k]] == Hierarchy.Arranged(before[order[k]])) &&
    (forall k :: i <= k < |order| ==> after[order[k]] == before[order[k]])
  }

  /** Arranging the block of the next name. */
  lemma {:induction false} ArrangeStep(order: seq<string>, before: map<string, Node>, after: map<string, Node>, i: nat)
    requires ArrangedUpTo(order, before, after, i) && i < |order|
    ensures ArrangedUpTo(order, before, after[order[i] := Hierarchy.Arranged(after[order[i]])], i + 1)
  {
    OthersKept(order, after, i, Hierarchy.Arranged(after[order[i]]));
  }

  /** Putting the entry of one name leaves the entries of the other names of a list without repeats alone. */
  lemma {:induction false} OthersKept(order: seq<string>, m: map<string, Node>, i: nat, v: Node)
    requires i < |order| && forall k, l :: 0 <= k < l < |order| ==> order[k] != order[l]
    ensures forall k :: 0 <= k < |order| && k != i && order[k] in m ==> m[order[i] := v][order[k]] == m[order[k]]
  {
    forall k | 0 <= k < |order| && k != i && order[k] in m
      ensures m[order[i] := v][order[k]] == m[order[k]]
    {
      assert order[k] != order[i];
    }
  }

  lemma {:induction false} AllArranged(order: seq<string>, before: map<string, Node>, after: map<string, Node>)
    requires ArrangedUpTo(order, before, after, |order|)
    ensures after == map name | name in before :: Hierarchy.Arranged(before[name])
  {
    forall name | name in before
      ensures after[name] == Hierarchy.Arranged(before[name])
    {
      var k :| 0 <= k < |order| && order[k] == name;
    }
  }

  class TuckerParser {
    /** `Node.DEFAULT_TAG`, the name a tag with an empty name gets. */
    const defaultTag: string
    var row: int
    var order: seq<string>
    var blocks: map<string, Node>
    var active: Option<string>
    var problems: seq<Problem>

    function State(): Lexing
      reads this
    {
      Lexing(row, order, blocks, active, problems)
    }

    predicate Valid()
      reads this
    {
      Registered(State())
    }

    constructor(defaultTag: string)
      ensures this.defaultTag == defaultTag && Valid()
      ensures order == [] && blocks == map[] && active.None? && problems == []
    {
      this.defaultTag := defaultTag;
      row := 0;
      order, blocks, active, problems := [], map[], None, [];
    }

    /** `getBlocks()`: the registered blocks, in the order their names were first registered. */
    method GetBlocks() returns (r: seq<Node>)
      requires Valid()
      ensures |r| == |order| && forall k :: 0 <= k < |order| ==> r[k] == blocks[order[k]]
    {
      var o, b := order, blocks;
      r := seq(|o|, k requires 0 <= k < |o| && o[k] in b => b[o[k]]);
    }

    /** `getBlock(blockName)`: the block registered under that name, none when there is none. */
    method GetBlock(name: string) returns (r: Option<Node>)
      ensures r.Some? <==> name in blocks
      ensures r.Some? ==> r.value == blocks[name]
    {
      r := if name in blocks then Some(blocks[name]) else None;
    }

    /** `parse(in)`: the problems, or the message of the exception that ended the parse. */
    method Parse(lines: seq<string>) returns (r: Result<seq<Problem>>)
      modifies this
      ensures Parsed(lines, defaultTag).Err? ==> r == Err(Parsed(lines, defaultTag).message)
      ensures Parsed(lines, defaultTag).Ok? ==> r == Ok(problems) && State() == Parsed(lines, defaultTag).value
    {
      order, blocks, active, problems := [], map[], None, [];
      var err := LexLines(lines);
      if err.Some? {
        return Err(err.value);
      }
      ArrangeBlocks();
      return Ok(problems);
    }

    /** The loop of `parse` over `blocks.values()`: each block's nodes arranged by `buildHierarchy`. */
    method ArrangeBlocks()
      requires Valid()
      modifies this
      ensures State() == Arrange(old(State()))
    {
      ghost var lexed := State();
      for i := 0 to |order|
        invariant row == lexed.row && order == lexed.order && active == lexed.active && problems == lexed.problems
        invariant ArrangedUpTo(order, lexed.blocks, blocks, i)
      {
        var block := Hierarchy.BuildHierarchy(blocks[order[i]]);
        ArrangeStep(order, lexed.blocks, blocks, i);
        blocks := blocks[order[i] := block];
      }
      AllArranged(order, lexed.blocks, blocks);
    }

    /** `lexLines(in)`: rows from 1, each line's indent found and the line lexed unless it is blank. */
    method LexLines(lines: seq<string>) returns (err: Option<string>)
      requires Valid()
      modifies this
      ensures Lexed(old(State()).(row := 1), lines, defaultTag).Err? ==>
        err == Some(Lexed(old(State()).(row := 1), lines, defaultTag).message)
      ensures Lexed(old(State()).(row := 1), lines, defaultTag).Ok? ==>
        err.None? && State() == Lexed(old(State()).(row := 1), lines, defaultTag).value && Valid()
    {
      ghost var start := State().(row := 1);
      row := 1;
      var i := 0;
      while i < |lines|
        invariant i <= |lines| && Valid()
        invariant Lexed(State(), lines[i..], defaultTag) == Lexed(start, lines, defaultTag)
      {
        LexedUnfold(State(), lines, i, defaultTag);
        err := LexLineAtIndent(lines[i]);
        if err.Some? {
          return;
        }
        row := row + 1;
        i := i + 1;
      }
      return None;
    }

    /** The body of the loop of `lexLines`: the line's indent found, and the line lexed unless it is blank. */
    method LexLineAtIndent(line: string) returns (err: Option<string>)
      requires Valid()
      modifies this
      ensures LineStep(old(State()), line, defaultTag).Err? ==> err == Some(LineStep(old(State()), line, defaultTag).message)
      ensures LineStep(old(State()), line, defaultTag).Ok? ==>
        err.None? && State() == LineStep(old(State()), line, defaultTag).value && Valid()
    {
      StaysRegistered(State(), line, defaultTag);
      var indent := IndentOf(line);
      if indent < |line| {
        LineStepAt(State(), line, defaultTag);
        err := LexLine(line, indent);
      } else {
        err := None;
      }
    }

    /** `lexLine(line, indent)`: the state after the line, or the message of the exception it raised. */
    method LexLine(line: string, indent: nat) returns (err: Option<string>)
      requires Valid() && indent < |line|
      modifies this
      ensures LineAt(old(State()), line, indent, defaultTag).Err? ==>
        err == Some(LineAt(old(State()), line, indent, defaultTag).message)
      ensures LineAt(old(State()), line, indent, defaultTag).Ok? ==>
        err.None? && State() == LineAt(old(State()), line, indent, defaultTag).value
    {
      err := None;
      var c := line[indent];
      if c == '/' || c == '#' {
        CommentSkipped(State(), line, indent, defaultTag);
      } else if c == '=' {
        BlockLineStep(State(), line, indent, defaultTag);
        LexBlock(line, indent + 1);
      } else if c == '>' {
        if active.Some? {
          InsertionLineAt(State(), line, indent, defaultTag);
          var node := LexInsertionPoint(line, indent + 1);
          if node.Some? {
            AddToActiveBlock(node.value.(indent := indent, row := row));
          }
        } else {
          RecordProblems([InsertionOutside]);
        }
      } else if active.Some? {
        TagLineStep(State(), line, indent, defaultTag);
        err := LexTagLine(line, indent);
      } else {
        RecordProblems([TagOutside]);
      }
    }

    /** `activeBlock.addChild(node)`. */
    method AddToActiveBlock(node: Node)
      requires Valid() && active.Some?
      modifies this
      ensures State() == AddToActive(old(State()), node)
    {
      blocks := blocks[active.value := AddChild(blocks[active.value], node)];
    }

    /** The problems `messages` added at the current row. */
    method RecordProblems(messages: seq<string>)
      modifies this
      ensures State() == Record(old(State()), messages)
    {
      problems := problems + WithRow(row, messages);
    }

    /** The tag branch of `lexLine`: specials transformed, the tag lexed, its inline tags lexed, the node added. */
    method LexTagLine(line: string, indent: nat) returns (err: Option<string>)
      requires Valid() && indent <= |line| && active.Some?
      modifies this
      ensures TagLine(old(State()), line, indent, defaultTag).Err? ==>
        err == Some(TagLine(old(State()), line, indent, defaultTag).message)
      ensures TagLine(old(State()), line, indent, defaultTag).Ok? ==>
        err.None? && State() == TagLine(old(State()), line, indent, defaultTag).value
    {
      var transformed, messages := Specials.TransformSpecials(line, indent);
      var lexed := TagLexer.LexTag(transformed, defaultTag);
      if lexed.Err? {
        return Some(lexed.message);
      }
      var node := lexed.value.node.(indent := indent, row := row);
      var filled := TagLexer.LexInlines(node.segments, defaultTag);
      if filled.Err? {
        return Some(filled.message);
      }
      node := node.(segments := filled.value.0);
      AddToActiveBlock(node);
      RecordProblems(messages + lexed.value.problems + filled.value.1);
      err := None;
    }

    /** `lexBlock(line, from)`: a block named by the rest of the line becomes active, unless the name is empty. */
    method LexBlock(line: string, from: nat)
      requires from <= |line|
      modifies this
      ensures BlockName(line, from) == [] ==> State() == old(State())
      ensures BlockName(line, from) != [] ==> State() == Activate(old(State()), BlockName(line, from))
    {
      var name := NameOnLine(line, from, KeptInBlockName);
      if name != [] {
        Register(name);
      }
    }

    /** The end of `lexBlock`: `activeBlock = new Block(name)` put into the registry under its name. */
    method Register(name: string)
      modifies this
      ensures State() == Activate(old(State()), name)
    {
      if name !in blocks {
        order := order + [name];
      }
      blocks := blocks[name := Named(BlockNode, name)];
      active := Some(name);
    }

    /** `lexInsertionPoint(line, from)`. */
    method LexInsertionPoint(line: string, from: nat) returns (r: Option<Node>)
      requires from <= |line|
      ensures r == InsertionOf(line, from)
    {
      var name := NameOnLine(line, from, KeptInInsertionName);
      if name == [] {
        return None;
      }
      return Some(Named(InsertionNode, name));
    }
  }

  /** The name loop shared by `lexBlock` and `lexInsertionPoint`: the kept characters from `from` on, trimmed. */
  method NameOnLine(line: string, from: nat, keep: char -> bool) returns (name: string)
    requires from <= |line|
    ensures name == Trim(Filter(line[from..], keep))
  {
    var builder := [];
    for i := from to |line|
      invariant builder == Filter(line[from..i], keep)
    {
      FilterSnoc(line[from..i], line[i], keep);
      assert line[from..i + 1] == line[from..i] + [line[i]];
      if keep(line[i]) {
        builder := builder + [line[i]];
      }
    }
    assert line[from..|line|] == line[from..];
    name := Trim(builder);
  }
}
