// Reading a Nipper style sheet: each line of text is scanned into an untyped
// line, given an indent from its leading spaces, typed by its content and by
// the line it sits under, and finally copied into a new block.

module NipperReader {
  import opened Wrappers
  import opened JavaText
  import opened NipperLines
  import opened NipperBlocks

  // ------------------------------------------------------------- scanning

  /**
   * The line read at `row` from text `s`, or nothing for a line of spaces and
   * tabs. A line starting with `//` is all comment and has no content;
   * otherwise the text after the first `//` is the comment and the text
   * before it, trimmed, the content.
   */
  function ScanLine(row: int, s: string): (r: Option<NLine>)
    ensures r.None? <==> forall k :: 0 <= k < |s| ==> IsBlankChar(s[k])
    ensures r.Some? ==> r.value == NewLine(row, LeadingBlanks(s, 0), r.value.content, r.value.comment)
  {
    var i := LeadingBlanks(s, 0);
    if i >= |s| then None
    else
      var t := s[i..];
      if StartsWith(t, "//") then Some(NewLine(row, i, None, Some(t)))
      else
        var c := IndexOf(t, "//", 0);
        if c >= 0 then Some(NewLine(row, i, Some(Trim(t[..c])), Some(Trim(t[c + 2..]))))
        else Some(NewLine(row, i, Some(t), None))
  }

  /** The lines of text that are not blank, scanned, in order; a line's row is its position in `input`. */
  function Scanned(input: seq<string>): (r: seq<NLine>)
    ensures |r| <= |input|
    ensures forall k :: 0 <= k < |r| ==> 0 <= r[k].row < |input| && ScanLine(r[k].row, input[r[k].row]) == Some(r[k])
    ensures forall k :: 0 <= k < |r| ==> r[k].parent.None? && r[k].children == []
  {
    if input == [] then []
    else
      var init := Scanned(input[..|input| - 1]);
      var row := |input| - 1;
      assert forall k :: 0 <= k < |init| ==> input[..|input| - 1][init[k].row] == input[init[k].row];
      match ScanLine(row, input[row])
      case None => init
      case Some(line) => init + [line]
  }

  /** One more line of text adds its scanned line, if any. */
  lemma {:induction false} ScannedSnoc(input: seq<string>, row: nat)
    requires row < |input|
    ensures Scanned(input[..row + 1]) ==
      Scanned(input[..row]) + (if ScanLine(row, input[row]).Some? then [ScanLine(row, input[row]).value] else [])
  {
    assert input[..row + 1][..row] == input[..row];
  }

  /** The scanned lines keep the order of the text. */
  lemma {:induction false} ScannedInOrder(input: seq<string>)
    ensures forall a, b :: 0 <= a < b < |Scanned(input)| ==> Scanned(input)[a].row < Scanned(input)[b].row
  {
    if input != [] {
      var init := input[..|input| - 1];
      ScannedInOrder(init);
      var r := Scanned(input);
      var r0 := Scanned(init);
      assert r == r0 || r == r0 + [r[|r| - 1]];
      forall a, b | 0 <= a < b < |r|
        ensures r[a].row < r[b].row
      {
        if b < |r0| {
          assert r[a] == r0[a] && r[b] == r0[b];
        } else {
          assert r[a] == r0[a] && r0[a].row < |init|;
          assert r[b].row == |input| - 1;
        }
      }
    }
  }

  /** Every line of text that is not blank is among the scanned lines. */
  lemma {:induction false} ScannedComplete(input: seq<string>, row: nat)
    requires row < |input| && ScanLine(row, input[row]).Some?
    ensures exists k :: 0 <= k < |Scanned(input)| && Scanned(input)[k].row == row
  {
    var last := |input| - 1;
    var init := input[..last];
    var r := Scanned(input);
    if row == last {
      assert r[|r| - 1].row == row;
    } else {
      ScannedComplete(init, row);
      var k :| 0 <= k < |Scanned(init)| && Scanned(init)[k].row == row;
      assert r[k] == Scanned(init)[k];
    }
  }

  /** An occurrence inside a piece of text is an occurrence in the whole text. */
  lemma {:induction false} SliceHasAt(s: string, p: string, a: nat, b: nat, k: nat)
    requires a <= b <= |s|
    ensures HasAt(s[a..b], p, k) ==> HasAt(s, p, a + k)
  {
    if HasAt(s[a..b], p, k) {
      forall j | 0 <= j < |p|
        ensures s[a + k..a + k + |p|][j] == p[j]
      {
        assert s[a..b][k..k + |p|][j] == p[j];
      }
      assert s[a + k..a + k + |p|] == p;
    }
  }

  /** A piece of text holds no occurrence its surroundings lack. */
  lemma {:induction false} NoneInside(s: string, p: string, a: nat, b: nat)
    requires a <= b <= |s| && p != []
    requires forall k :: 0 <= k < |s| ==> !HasAt(s, p, k)
    ensures forall k :: 0 <= k <= b - a ==> !HasAt(s[a..b], p, k)
  {
    forall k | 0 <= k <= b - a
      ensures !HasAt(s[a..b], p, k)
    {
      SliceHasAt(s, p, a, b, k);
    }
  }

  /** Trimming text that holds no `//` leaves none. */
  lemma {:induction false} TrimmedUncommented(x: string)
    requires forall k :: 0 <= k < |x| ==> !HasAt(x, "//", k)
    ensures !Contains(Trim(x), "//")
  {
    var a := TrimInside(x);
    NoneInside(x, "//", a, a + |Trim(x)|);
  }

  /** Text before the first `//` holds none. */
  lemma {:induction false} BeforeFirst(t: string, c: nat)
    requires c <= |t| && forall k :: 0 <= k < c ==> !HasAt(t, "//", k)
    ensures forall k :: 0 <= k < c ==> !HasAt(t[..c], "//", k)
  {
    forall k | 0 <= k < c
      ensures !HasAt(t[..c], "//", k)
    {
      SliceHasAt(t, "//", 0, c, k);
      assert t[..c] == t[0..c];
    }
  }

  /** Scanned content never holds `//`: the comment is always split off. */
  lemma {:induction false} ContentUncommented(row: int, s: string)
    requires ScanLine(row, s).Some? && ScanLine(row, s).value.content.Some?
    ensures !Contains(ScanLine(row, s).value.content.value, "//")
  {
    var i := LeadingBlanks(s, 0);
    var t := s[i..];
    var c := IndexOf(t, "//", 0);
    if c >= 0 {
      BeforeFirst(t, c);
      TrimmedUncommented(t[..c]);
    } else {
      assert ScanLine(row, s).value.content.value == t;
    }
  }

  /** A whole-line comment keeps all of its text, `//` included, and has no content. */
  lemma {:induction false} WholeLineComment(row: int, s: string)
    requires ScanLine(row, s).Some? && ScanLine(row, s).value.content.None?
    ensures ScanLine(row, s).value.comment == Some(s[LeadingBlanks(s, 0)..])
    ensures StartsWith(s[LeadingBlanks(s, 0)..], "//")
  {
  }

  /** `parse()`, first loop: every line of text is scanned in turn. */
  method Scan(input: seq<string>) returns (lines: seq<NLine>)
    ensures lines == Scanned(input)
  {
    lines := [];
    var row := 0;
    while row < |input|
      invariant row <= |input|
      invariant lines == Scanned(input[..row])
    {
      var line := ScanOne(row, input[row]);
      ScannedSnoc(input, row);
      if line.Some? {
        lines := lines + [line.value];
      }
      row := row + 1;
    }
    assert input[..|input|] == input;
  }

  /** The body of the first loop of `parse()` for one line of text. */
  method ScanOne(row: int, s: string) returns (line: Option<NLine>)
    ensures line == ScanLine(row, s)
  {
    var i := 0;
    while i < |s| && (s[i] == ' ' || s[i] == '\t')
      invariant i <= |s| && LeadingBlanks(s, i) == LeadingBlanks(s, 0)
    {
      i := i + 1;
    }
    if i >= |s| {
      return None;
    }
    var t := s[i..];
    if StartsWith(t, "//") {
      return Some(NewLine(row, i, None, Some(t)));
    }
    var comment: Option<string> := None;
    var c := IndexOf(t, "//", 0);
    if c >= 0 {
      comment := Some(Trim(t[c + 2..]));
      t := Trim(t[..c]);
    }
    line := Some(NewLine(row, i, Some(t), comment));
  }

  // -------------------------------------------------------------- levels

  /** The indentation state: the spaces of the lines on the stack, and the current indent. */
  datatype Levels = Levels(stack: seq<int>, indent: int)

  /** The inner loop: pop every line with more spaces than `spaces`, one indent per pop. */
  function Popped(stack: seq<int>, indent: int, spaces: int): (r: Levels)
    ensures |r.stack| <= |stack| && r.stack == stack[..|r.stack|]
    ensures r.indent == indent - (|stack| - |r.stack|)
    ensures r.stack == [] || spaces >= r.stack[|r.stack| - 1]
    decreases |stack|
  {
    if stack != [] && spaces < stack[|stack| - 1] then Popped(stack[..|stack| - 1], indent - 1, spaces)
    else Levels(stack, indent)
  }

  /**
   * One line with `spaces` leading blanks: the first line is pushed; fewer
   * spaces than the top pop back, and the line is not pushed; more spaces go
   * one level deeper and push; as many spaces keep the level.
   */
  function LevelStep(st: Levels, spaces: int): (r: Levels)
  {
    if st.stack == [] then Levels([spaces], st.indent)
    else if spaces < st.stack[|st.stack| - 1] then Popped(st.stack, st.indent, spaces)
    else if spaces > st.stack[|st.stack| - 1] then Levels(st.stack + [spaces], st.indent + 1)
    else st
  }

  /** `parse()`, second loop: every line takes the indent the state has after it. */
  function Leveling(lines: seq<NLine>): (r: (seq<NLine>, Levels))
    ensures |r.0| == |lines|
    ensures forall k :: 0 <= k < |lines| ==> r.0[k] == lines[k].(indent := r.0[k].indent)
  {
    if lines == [] then ([], Levels([], 0))
    else
      var prev := Leveling(lines[..|lines| - 1]);
      var st := LevelStep(prev.1, lines[|lines| - 1].spaces);
      (prev.0 + [lines[|lines| - 1].(indent := st.indent)], st)
  }

  /** Spaces on the stack strictly increase from bottom to top. */
  predicate Increasing(stack: seq<int>)
  {
    forall a, b :: 0 <= a < b < |stack| ==> stack[a] < stack[b]
  }

  /** A step never goes more than one level deeper, and keeps the stack increasing. */
  lemma {:induction false} LevelStepBounds(st: Levels, spaces: int)
    requires Increasing(st.stack)
    ensures LevelStep(st, spaces).indent <= st.indent + 1
    ensures Increasing(LevelStep(st, spaces).stack)
    ensures LevelStep(st, spaces).stack != [] ==> LevelStep(st, spaces).stack[|LevelStep(st, spaces).stack| - 1] <= spaces
  {
  }

  /** The state after the lines: the last line carries its indent, and the stack increases. */
  lemma {:induction false} LevelingState(lines: seq<NLine>)
    ensures Increasing(Leveling(lines).1.stack)
    ensures lines != [] ==> Leveling(lines).0[|lines| - 1].indent == Leveling(lines).1.indent
    ensures lines == [] ==> Leveling(lines).1 == Levels([], 0)
  {
    if lines != [] {
      LevelingState(lines[..|lines| - 1]);
      LevelStepBounds(Leveling(lines[..|lines| - 1]).1, lines[|lines| - 1].spaces);
    }
  }

  /** The first line is at indent 0, and each line is at most one level deeper than the line before. */
  lemma {:induction false} LevelingSteps(lines: seq<NLine>)
    ensures lines != [] ==> Leveling(lines).0[0].indent == 0
    ensures forall k :: 0 < k < |lines| ==> Leveling(lines).0[k].indent <= Leveling(lines).0[k - 1].indent + 1
  {
    if lines != [] {
      var init := lines[..|lines| - 1];
      LevelingSteps(init);
      LevelingState(init);
      var prev := Leveling(init);
      LevelStepBounds(prev.1, lines[|lines| - 1].spaces);
      var r := Leveling(lines).0;
      assert r == prev.0 + [r[|lines| - 1]];
      forall k | 0 < k < |lines|
        ensures r[k].indent <= r[k - 1].indent + 1
      {
        if k < |lines| - 1 {
          assert r[k] == prev.0[k] && r[k - 1] == prev.0[k - 1];
        }
      }
    }
  }

  /** With the bottom of the stack at or below `spaces`, popping keeps it. */
  lemma {:induction false} PoppedKeepsBottom(stack: seq<int>, indent: int, spaces: int)
    requires stack != [] && stack[0] <= spaces
    ensures Popped(stack, indent, spaces).stack != []
    decreases |stack|
  {
    if spaces < stack[|stack| - 1] {
      PoppedKeepsBottom(stack[..|stack| - 1], indent - 1, spaces);
    }
  }

  /**
   * When no line has fewer spaces than the first, the first line stays at the
   * bottom of the stack and the indent is the height of the stack above it,
   * so no indent is negative.
   */
  lemma {:induction false} LevelingFromFirst(lines: seq<NLine>)
    requires lines != [] && forall k :: 0 <= k < |lines| ==> lines[0].spaces <= lines[k].spaces
    ensures Leveling(lines).1.stack != [] && Leveling(lines).1.stack[0] == lines[0].spaces
    ensures Leveling(lines).1.indent == |Leveling(lines).1.stack| - 1
    ensures forall k :: 0 <= k < |lines| ==> Leveling(lines).0[k].indent >= 0
  {
    var init := lines[..|lines| - 1];
    var r := Leveling(lines);
    var spaces := lines[|lines| - 1].spaces;
    LevelingState(lines);
    if init == [] {
      assert Leveling(init).1 == Levels([], 0);
    } else {
      LevelingFromFirst(init);
      var st := Leveling(init).1;
      if spaces < st.stack[|st.stack| - 1] {
        PoppedKeepsBottom(st.stack, st.indent, spaces);
      }
      forall k | 0 <= k < |lines|
        ensures r.0[k].indent >= 0
      {
        if k < |init| {
          assert r.0[k] == Leveling(init).0[k];
        }
      }
    }
  }

  /** Two spaces in, two lines, two spaces, four, two, none: indents 0, 1, 1, 2, 1, 0. */
  lemma {:induction false} LevelingNested(lines: seq<NLine>)
    requires |lines| == 6
    requires lines[0].spaces == 0 && lines[1].spaces == 2 && lines[2].spaces == 2
    requires lines[3].spaces == 4 && lines[4].spaces == 2 && lines[5].spaces == 0
    ensures Leveling(lines).0[1].indent == 1 && Leveling(lines).0[2].indent == 1 && Leveling(lines).0[3].indent == 2
    ensures Leveling(lines).0[4].indent == 1 && Leveling(lines).0[5].indent == 0
  {
    assert lines[..1][..0] == [];
    assert Leveling(lines[..1][..0]) == ([], Levels([], 0));
    var l1 := Leveling(lines[..1]);
    assert l1.1 == Levels([0], 0);
    var l2 := Leveling(lines[..2]);
    assert lines[..2][..1] == lines[..1];
    assert l2.1 == Levels([0, 2], 1);
    var l3 := Leveling(lines[..3]);
    assert lines[..3][..2] == lines[..2];
    assert l3.1 == Levels([0, 2], 1);
    var l4 := Leveling(lines[..4]);
    assert lines[..4][..3] == lines[..3];
    assert l4.1 == Levels([0, 2, 4], 2);
    var l5 := Leveling(lines[..5]);
    assert lines[..5][..4] == lines[..4];
    assert l5.1 == Levels([0, 2], 1);
    assert lines[..6] == lines;
    assert lines[..6][..5] == lines[..5];
    var r := Leveling(lines);
    assert r.1 == Levels([0], 0);
    assert r.0[5].indent == 0;
    assert r.0[4] == l5.0[4] && r.0[3] == l4.0[3] == l5.0[3] && r.0[2] == l3.0[2] == l4.0[2] == l5.0[2];
    assert r.0[1] == l2.0[1] == l3.0[1] == l4.0[1] == l5.0[1];
  }

  /** A line with fewer spaces than the first goes below indent 0: spaces 2, 0, 2 give indents 0, -1, -1. */
  lemma {:induction false} LevelingBelowFirst(lines: seq<NLine>)
    requires |lines| == 3
    requires lines[0].spaces == 2 && lines[1].spaces == 0 && lines[2].spaces == 2
    ensures Leveling(lines).0[1].indent == -1 && Leveling(lines).0[2].indent == -1
  {
    assert lines[..1][..0] == [];
    assert Leveling(lines[..1][..0]) == ([], Levels([], 0));
    var l1 := Leveling(lines[..1]);
    assert l1.1 == Levels([2], 0);
    var l2 := Leveling(lines[..2]);
    assert lines[..2][..1] == lines[..1];
    assert l2.1 == Levels([], -1);
    assert lines[..3] == lines;
    assert lines[..3][..2] == lines[..2];
    var r := Leveling(lines);
    assert r.1 == Levels([2], -1);
    assert r.0[1] == l2.0[1];
  }

  /**
   * A line that pops back is not pushed, so the next line with as many
   * spaces goes one level deeper: spaces 0, 4, 2, 2 give indents 0, 1, 0, 1.
   */
  lemma {:induction false} LevelingUnpushed(lines: seq<NLine>)
    requires |lines| == 4
    requires lines[0].spaces == 0 && lines[1].spaces == 4 && lines[2].spaces == 2 && lines[3].spaces == 2
    ensures Leveling(lines).0[1].indent == 1 && Leveling(lines).0[2].indent == 0 && Leveling(lines).0[3].indent == 1
  {
    assert lines[..1][..0] == [];
    assert Leveling(lines[..1][..0]) == ([], Levels([], 0));
    var l1 := Leveling(lines[..1]);
    assert l1.1 == Levels([0], 0);
    var l2 := Leveling(lines[..2]);
    assert lines[..2][..1] == lines[..1];
    assert l2.1 == Levels([0, 4], 1);
    var l3 := Leveling(lines[..3]);
    assert lines[..3][..2] == lines[..2];
    assert l3.1 == Levels([0], 0);
    assert lines[..4] == lines;
    assert lines[..4][..3] == lines[..3];
    var r := Leveling(lines);
    assert r.1 == Levels([0, 2], 1);
    assert r.0[2] == l3.0[2] && r.0[1] == l2.0[1] == l3.0[1];
  }

  /** The inner loop of the second loop of `parse()`, for a line with `spaces` leading blanks. */
  method LevelLine(stack: seq<int>, indent: int, spaces: int) returns (stack': seq<int>, indent': int)
    ensures Levels(stack', indent') == LevelStep(Levels(stack, indent), spaces)
  {
    stack', indent' := stack, indent;
    if stack' == [] {
      stack' := [spaces];
    } else if spaces < stack'[|stack'| - 1] {
      while stack' != [] && spaces < stack'[|stack'| - 1]
        invariant Popped(stack', indent', spaces) == Popped(stack, indent, spaces)
        decreases |stack'|
      {
        stack' := stack'[..|stack'| - 1];
        indent' := indent' - 1;
      }
    } else if spaces > stack'[|stack'| - 1] {
      indent' := indent' + 1;
      stack' := stack' + [spaces];
    }
  }

  /** `parse()`, second loop: the indents of the lines, in order. */
  method Level(lines: seq<NLine>) returns (out: seq<NLine>)
    ensures out == Leveling(lines).0
  {
    var stack: seq<int> := [];
    var indent := 0;
    out := [];
    for k := 0 to |lines|
      invariant (out, Levels(stack, indent)) == Leveling(lines[..k])
    {
      assert lines[..k + 1][..k] == lines[..k];
      stack, indent := LevelLine(stack, indent, lines[k].spaces);
      out := out + [lines[k].(indent := indent)];
    }
    assert lines[..|lines|] == lines;
  }

  // -------------------------------------------------------------- typing

  /** `parents.get(key)`: null for a key that is not in the map. */
  function Get(parents: map<int, nat>, key: int): Option<nat>
  {
    if key in parents then Some(parents[key]) else None
  }

  /**
   * The loop invariant of the third loop at line `i`, apart from the
   * variables: the lines before `i` are typed and are the only ones in
   * `parents`; the later lines have no parent yet; the arena is linked; a
   * continuation has a parent and a property has content.
   */
  predicate Arranged(lines: seq<NLine>, parents: map<int, nat>, i: nat)
  {
    i <= |lines| && Linked(lines) &&
    (forall d :: d in parents ==> parents[d] < i) &&
    (forall j :: 0 <= j < i ==> lines[j].kind.Some?) &&
    (forall j :: i <= j < |lines| ==> lines[j].parent.None?) &&
    (forall j :: 0 <= j < i && lines[j].kind == Some(Continuation) ==> lines[j].parent.Some?) &&
    (forall j :: 0 <= j < i && lines[j].kind == Some(Property) ==> lines[j].content.Some?)
  }

  /** The state of the third loop of `parse()`: the lines, the last line seen at each indent, and the block's variables. */
  datatype Typing = Typing(lines: seq<NLine>, parents: map<int, nat>, vars: Vars)

  /** The whole loop invariant: the lines are arranged and each variable is declared once. */
  predicate Ready(t: Typing, i: nat)
  {
    Arranged(t.lines, t.parents, i) && UniqueKeys(t.vars)
  }

  /** The fields scanning and leveling set. */
  predicate SameText(a: NLine, b: NLine)
  {
    b.row == a.row && b.spaces == a.spaces && b.indent == a.indent && b.content == a.content && b.comment == a.comment
  }

  /**
   * What typing one line does to any other line: at most it gains a child,
   * and a property may turn selector.
   */
  predicate Kept(a: NLine, b: NLine)
  {
    SameText(a, b) && b.name == a.name && b.value == a.value && b.parent == a.parent &&
    a.children <= b.children &&
    (b.kind == a.kind ||
     (a.kind == Some(Property) && b.kind == Some(Selector) && a.content.Some? && !EndsWith(a.content.value, ":")))
  }

  /** Changing a line but not its parent or children keeps the arena linked. */
  lemma {:induction false} RelabelLinked(lines: seq<NLine>, j: nat, line: NLine)
    requires Linked(lines) && j < |lines|
    requires line.parent == lines[j].parent && line.children == lines[j].children
    ensures Linked(lines[j := line])
  {
    var r := lines[j := line];
    forall i, k | 0 <= i < |r| && 0 <= k < |r[i].children|
      ensures i < r[i].children[k] < |r|
    {
      assert r[i].children == lines[i].children;
    }
  }

  /**
   * The line a line is attached to when it is put under line `p`: past
   * continuations to the line they continue. A continuation without a
   * parent leaves nothing, which the reader would dereference.
   */
  function Flatten(lines: seq<NLine>, p: nat): (r: Option<nat>)
    requires Linked(lines) && p < |lines|
    ensures r.Some? ==> r.value <= p && lines[r.value].kind != Some(Continuation)
    ensures (forall j :: 0 <= j <= p && lines[j].kind == Some(Continuation) ==> lines[j].parent.Some?) ==> r.Some?
    decreases p
  {
    if lines[p].kind != Some(Continuation) then Some(p)
    else if lines[p].parent.None? then None
    else Flatten(lines, lines[p].parent.value)
  }

  /** The loop of `parse()` that skips continuation parents. */
  method FlattenParent(lines: seq<NLine>, p: nat) returns (q: nat)
    requires Linked(lines) && p < |lines|
    requires forall j :: 0 <= j <= p && lines[j].kind == Some(Continuation) ==> lines[j].parent.Some?
    ensures Flatten(lines, p) == Some(q)
  {
    var parent: Option<nat> := Some(p);
    while parent.Some? && lines[parent.value].kind == Some(Continuation)
      invariant parent.Some? && parent.value <= p && Flatten(lines, parent.value) == Flatten(lines, p)
      decreases if parent.Some? then parent.value else 0
    {
      parent := lines[parent.value].parent;
    }
    q := parent.value;
  }

  /**
   * Where tree line `i` goes: under the line last seen one indent up, past
   * continuations. That line turns selector if it is a property whose
   * content does not end in `:`, and it gains `i` as its last child.
   */
  function Attached(lines: seq<NLine>, parents: map<int, nat>, i: nat): (r: (seq<NLine>, Option<nat>))
    requires Arranged(lines, parents, i) && i < |lines|
    ensures |r.0| == |lines| && Linked(r.0)
    ensures r.1.Some? ==> r.1.value < i && r.0[r.1.value].kind != Some(Continuation)
    ensures r.1.Some? && r.0[r.1.value].kind == Some(Property) ==>
      r.0[r.1.value].content.Some? && EndsWith(r.0[r.1.value].content.value, ":")
    ensures r.0[i] == lines[i].(parent := r.1)
    ensures forall j :: 0 <= j < |lines| && j != i ==> Kept(lines[j], r.0[j])
  {
    var above := if lines[i].indent == 0 then None else Get(parents, lines[i].indent - 1);
    if above.None? then (lines, None)
    else
      var q := Flatten(lines, above.value).value;
      var promoted :=
        if lines[q].kind == Some(Property) && !EndsWith(lines[q].content.value, ":")
        then lines[q := lines[q].(kind := Some(Selector))]
        else lines;
      RelabelLinked(lines, q, promoted[q]);
      AddChildLinked(promoted, q, i);
      (AddChild(promoted, q, i), Some(q))
  }

  /**
   * `parseProperty(line)`: with a colon, the name is the trimmed text before
   * the first colon and the value the trimmed text after it, less one
   * closing `;`; without one, the name is the trimmed content and the value
   * is left as it was.
   */
  function PropertyNamed(line: NLine): (r: NLine)
    requires line.content.Some?
    ensures r.(name := line.name, value := line.value) == line && r.name.Some?
  {
    var c := line.content.value;
    var colon := IndexOfChar(c, ':', 0);
    if colon >= 0 then
      var v := Trim(c[colon + 1..]);
      line.(name := Some(Trim(c[..colon])), value := Some(if EndsWith(v, ";") then v[..|v| - 1] else v))
    else line.(name := Some(Trim(c)))
  }

  /**
   * `parseVar(line)`, on the line: with a colon, the name is the trimmed text
   * between `$` and the first colon and the value the trimmed rest; without
   * one, the name is the trimmed text after `$` and the value is left as it was.
   */
  function VarNamed(line: NLine): (r: NLine)
    requires line.content.Some? && StartsWith(line.content.value, "$")
    ensures r.(name := line.name, value := line.value) == line && r.name.Some?
  {
    var c := line.content.value;
    var colon := IndexOfChar(c, ':', 0);
    assert c[0] == c[..1][0];
    if colon >= 0 then line.(name := Some(Trim(c[1..colon])), value := Some(Trim(c[colon + 1..])))
    else line.(name := Some(Trim(c[1..])))
  }

  /** What `parseVar` puts in the block: the value, or the empty string without a colon. */
  function VarValue(line: NLine): string
    requires line.content.Some? && StartsWith(line.content.value, "$")
  {
    var c := line.content.value;
    var colon := IndexOfChar(c, ':', 0);
    if colon >= 0 then VarNamed(line).value.value else ""
  }

  /**
   * A line of the style tree: a root or a line under a wrapper is a wrapper
   * when it starts with `@` and a selector otherwise; under a property it is
   * a continuation, and under any other line a property.
   */
  function Placed(lines: seq<NLine>, parents: map<int, nat>, i: nat): (r: seq<NLine>)
    requires Arranged(lines, parents, i) && i < |lines| && lines[i].content.Some?
    ensures |r| == |lines|
  {
    var (attached, parent) := Attached(lines, parents, i);
    var line := attached[i];
    if parent.None? || attached[parent.value].kind == Some(Wrapper) then
      attached[i := line.(kind := Some(if StartsWith(line.content.value, "@") then Wrapper else Selector))]
    else
      var kind := if attached[parent.value].kind == Some(Property) then Continuation else Property;
      attached[i := PropertyNamed(line.(kind := Some(kind)))]
  }

  /**
   * The third loop of `parse()` for line `i`: no content makes a comment,
   * `$` a variable declaration put in the block, anything else a line of the
   * style tree; the line is then the last seen at its indent.
   */
  function TypeStep(t: Typing, i: nat): (r: Typing)
    requires Ready(t, i) && i < |t.lines|
    ensures |r.lines| == |t.lines|
  {
    var line := t.lines[i];
    var next :=
      if line.content.None? || line.content.value == [] then
        t.(lines := t.lines[i := line.(kind := Some(Comment))])
      else if StartsWith(line.content.value, "$") then
        var d := line.(kind := Some(VariableDeclaration));
        var named := VarNamed(d);
        t.(lines := t.lines[i := named], vars := Put(t.vars, named.name.value, VarValue(d)))
      else
        t.(lines := Placed(t.lines, t.parents, i));
    next.(parents := next.parents[line.indent := i])
  }

  /** A line without content becomes a comment. */
  lemma {:induction false} StepComment(t: Typing, i: nat)
    requires Ready(t, i) && i < |t.lines|
    requires t.lines[i].content.None? || t.lines[i].content.value == []
    ensures TypeStep(t, i) == Typing(t.lines[i := t.lines[i].(kind := Some(Comment))], t.parents[t.lines[i].indent := i], t.vars)
  {
  }

  /** A line starting with `$` declares a variable, whatever its kind was. */
  lemma {:induction false} StepVariable(t: Typing, i: nat)
    requires Ready(t, i) && i < |t.lines|
    requires t.lines[i].content.Some? && t.lines[i].content.value != [] && StartsWith(t.lines[i].content.value, "$")
    ensures var d := t.lines[i].(kind := Some(VariableDeclaration));
      TypeStep(t, i) == Typing(t.lines[i := VarNamed(d)], t.parents[t.lines[i].indent := i], Put(t.vars, VarNamed(d).name.value, VarValue(d)))
  {
  }

  /** Any other line is placed in the style tree. */
  lemma {:induction false} StepPlaced(t: Typing, i: nat)
    requires Ready(t, i) && i < |t.lines|
    requires t.lines[i].content.Some? && t.lines[i].content.value != [] && !StartsWith(t.lines[i].content.value, "$")
    ensures TypeStep(t, i) == Typing(Placed(t.lines, t.parents, i), t.parents[t.lines[i].indent := i], t.vars)
  {
  }

  /**
   * What typing line `i` does to the arena: line `i` gets a type and keeps
   * its text and children; every other line is kept; the arena stays linked.
   */
  predicate Typed(a: seq<NLine>, b: seq<NLine>, i: nat)
  {
    i < |a| && |b| == |a| && Linked(b) &&
    (forall j :: 0 <= j < |a| && j != i ==> Kept(a[j], b[j])) &&
    SameText(a[i], b[i]) && b[i].children == a[i].children && b[i].kind.Some? &&
    (b[i].parent.Some? ==> b[i].parent.value < i) &&
    (b[i].kind == Some(Continuation) ==> b[i].parent.Some?) &&
    (b[i].kind == Some(Property) ==> b[i].content.Some?) &&
    (b[i].kind != Some(Comment) ==> b[i].content.Some?)
  }

  /** Placing a line of the style tree types it and keeps the rest. */
  lemma {:induction false} PlacedTyped(lines: seq<NLine>, parents: map<int, nat>, i: nat)
    requires Arranged(lines, parents, i) && i < |lines| && lines[i].content.Some?
    ensures Typed(lines, Placed(lines, parents, i), i)
  {
    var (attached, parent) := Attached(lines, parents, i);
    var r := Placed(lines, parents, i);
    RelabelLinked(attached, i, r[i]);
    assert forall j :: 0 <= j < |lines| && j != i ==> r[j] == attached[j];
  }

  /** Each step types its line, keeps the others, keeps variables unique and records the line at its indent. */
  lemma {:induction false} StepTyped(t: Typing, i: nat)
    requires Ready(t, i) && i < |t.lines|
    ensures Typed(t.lines, TypeStep(t, i).lines, i)
    ensures UniqueKeys(TypeStep(t, i).vars)
    ensures TypeStep(t, i).parents == t.parents[t.lines[i].indent := i]
  {
    var line := t.lines[i];
    var r := TypeStep(t, i);
    if line.content.None? || line.content.value == [] {
      RelabelLinked(t.lines, i, r.lines[i]);
    } else if StartsWith(line.content.value, "$") {
      RelabelLinked(t.lines, i, r.lines[i]);
      var name := r.lines[i].name.value;
      PutThenLookup(t.vars, name, VarValue(line.(kind := Some(VariableDeclaration))), name);
    } else {
      PlacedTyped(t.lines, t.parents, i);
    }
  }

  /** The invariant of the third loop holds after each line. */
  lemma {:induction false} ReadyStep(t: Typing, i: nat)
    requires Ready(t, i) && i < |t.lines|
    ensures Ready(TypeStep(t, i), i + 1)
  {
    StepTyped(t, i);
  }

  /** The third loop of `parse()` from line `i` on. */
  function TypedFrom(t: Typing, i: nat): (r: Typing)
    requires Ready(t, i)
    ensures |r.lines| == |t.lines| && Ready(r, |r.lines|)
    decreases |t.lines| - i
  {
    if i == |t.lines| then t
    else
      ReadyStep(t, i);
      TypedFrom(TypeStep(t, i), i + 1)
  }

  /** A step followed by the rest of the loop: text kept throughout, typed lines only kept. */
  lemma {:induction false} KeptThen(a: seq<NLine>, b: seq<NLine>, c: seq<NLine>, i: nat)
    requires Typed(a, b, i) && |c| == |b|
    requires forall j :: 0 <= j < |b| ==> SameText(b[j], c[j])
    requires forall j :: 0 <= j < i + 1 ==> Kept(b[j], c[j])
    ensures forall j :: 0 <= j < |a| ==> SameText(a[j], c[j])
    ensures forall j :: 0 <= j < i ==> Kept(a[j], c[j])
  {
    forall j | 0 <= j < |a|
      ensures SameText(a[j], c[j])
    {
      if j != i {
        assert Kept(a[j], b[j]);
      }
    }
  }

  /** Typing keeps the text of every line, and what typing later lines does to a typed line is all it ever undergoes. */
  lemma {:induction false} TypedFromKeeps(t: Typing, i: nat)
    requires Ready(t, i)
    ensures forall j :: 0 <= j < |t.lines| ==> SameText(t.lines[j], TypedFrom(t, i).lines[j])
    ensures forall j :: 0 <= j < i ==> Kept(t.lines[j], TypedFrom(t, i).lines[j])
    decreases |t.lines| - i
  {
    if i == |t.lines| {
      assert TypedFrom(t, i) == t;
    } else {
      var next := TypeStep(t, i);
      StepTyped(t, i);
      ReadyStep(t, i);
      assert TypedFrom(t, i) == TypedFrom(next, i + 1);
      TypedFromKeeps(next, i + 1);
      KeptThen(t.lines, next.lines, TypedFrom(next, i + 1).lines, i);
    }
  }

  /** Scanned and leveled lines are ready to be typed: none has a type, a parent or a child. */
  lemma {:induction false} ReadyInitially(input: seq<string>)
    ensures Ready(Typing(Leveling(Scanned(input)).0, map[], []), 0)
  {
    var scanned := Scanned(input);
    var lines := Leveling(scanned).0;
    assert forall k :: 0 <= k < |lines| ==> lines[k].parent == scanned[k].parent && lines[k].children == scanned[k].children;
    assert Linked(lines);
  }

  /** One turn of the third loop. */
  lemma {:induction false} TypedFromStep(t: Typing, i: nat)
    requires Ready(t, i) && i < |t.lines|
    ensures Ready(TypeStep(t, i), i + 1) && TypedFrom(t, i) == TypedFrom(TypeStep(t, i), i + 1)
  {
    ReadyStep(t, i);
  }

  /** `parse()`: the lines of text scanned, leveled and typed, with the variables they declare. */
  function Read(input: seq<string>): (r: Typing)
    ensures Ready(r, |r.lines|)
  {
    ReadyInitially(input);
    TypedFrom(Typing(Leveling(Scanned(input)).0, map[], []), 0)
  }

  /** What `parse()` returns is a valid block: a linked arena and variables declared once. */
  lemma {:induction false} ReadLinked(input: seq<string>)
    ensures Linked(Read(input).lines) && UniqueKeys(Read(input).vars)
  {
    var r := Read(input);
    assert Arranged(r.lines, r.parents, |r.lines|);
  }

  // ---------------------------------------------------------- typing rules

  /** A line of the style tree: content that is neither empty nor a variable declaration. */
  predicate TreeLine(line: NLine)
  {
    line.content.Some? && line.content.value != [] && !StartsWith(line.content.value, "$")
  }

  /** The type a line of the style tree gets at the top or under a wrapper. */
  function TopKind(line: NLine): LineType
    requires line.content.Some?
  {
    if StartsWith(line.content.value, "@") then Wrapper else Selector
  }

  /** The type placing gives line `i`, from the line it went under. */
  lemma {:induction false} PlacedKind(lines: seq<NLine>, parents: map<int, nat>, i: nat)
    requires Arranged(lines, parents, i) && i < |lines| && lines[i].content.Some?
    ensures var r := Placed(lines, parents, i);
      var q := r[i].parent;
      (q.Some? ==> q.value < i) &&
      r[i].kind == Some(
        if q.None? || r[q.value].kind == Some(Wrapper) then TopKind(lines[i])
        else if r[q.value].kind == Some(Property) then Continuation
        else Property) &&
      (q.Some? && r[q.value].kind == Some(Property) ==> r[q.value].content.Some? && EndsWith(r[q.value].content.value, ":"))
  {
    var (attached, parent) := Attached(lines, parents, i);
    var r := Placed(lines, parents, i);
    assert r[i].parent == parent;
    if parent.Some? {
      assert r[parent.value] == attached[parent.value];
    }
  }

  /** Line `j` has no parent, or a wrapper for parent. */
  predicate AtTop(lines: seq<NLine>, j: nat)
    requires j < |lines|
  {
    lines[j].parent.None? || (lines[j].parent.value < |lines| && lines[lines[j].parent.value].kind == Some(Wrapper))
  }

  /**
   * Lines typed so far at the top of the tree or under a wrapper are
   * wrappers when they start with `@` and selectors otherwise.
   */
  predicate Rooted(lines: seq<NLine>, i: nat)
  {
    forall j :: 0 <= j < i && j < |lines| && TreeLine(lines[j]) && AtTop(lines, j) ==> lines[j].kind == Some(TopKind(lines[j]))
  }

  /**
   * Lines typed so far under a property are exactly the continuations, and
   * a property with lines under it ends in `:`.
   */
  predicate Shaped(lines: seq<NLine>, i: nat)
  {
    forall j :: 0 <= j < i && j < |lines| && lines[j].parent.Some? && lines[j].parent.value < |lines| ==>
      (lines[j].kind == Some(Continuation) <==> lines[lines[j].parent.value].kind == Some(Property)) &&
      (lines[lines[j].parent.value].kind == Some(Property) ==>
         lines[lines[j].parent.value].content.Some? && EndsWith(lines[lines[j].parent.value].content.value, ":"))
  }

  /** Every variable declaration typed so far has a name, and the name is a variable of the block. */
  predicate Declares(t: Typing, i: nat)
  {
    forall j :: 0 <= j < i && j < |t.lines| && t.lines[j].kind == Some(VariableDeclaration) ==>
      t.lines[j].name.Some? && t.lines[j].name.value in Keys(t.vars)
  }

  /** `put` keeps every key and adds its own. */
  lemma {:induction false} KeysGrow(vars: Vars, key: string, value: string)
    ensures key in Keys(Put(vars, key, value))
    ensures forall k :: k in Keys(vars) ==> k in Keys(Put(vars, key, value))
  {
    var r := Put(vars, key, value);
    forall k | k in Keys(vars)
      ensures k in Keys(r)
    {
      var j :| 0 <= j < |vars| && Keys(vars)[j] == k;
      assert Keys(r)[j] == k;
    }
    if key in Keys(vars) {
      var j :| 0 <= j < |vars| && Keys(vars)[j] == key;
      assert Keys(r)[j] == key;
    } else {
      assert Keys(r)[|vars|] == key;
    }
  }

  /** Typing line `i` leaves the top-level rule as it was for the lines before it. */
  lemma {:induction false} RootedKept(a: seq<NLine>, b: seq<NLine>, i: nat)
    requires Typed(a, b, i) && Linked(a) && Rooted(a, i)
    ensures Rooted(b, i)
  {
    forall j | 0 <= j < i && TreeLine(b[j]) && AtTop(b, j)
      ensures b[j].kind == Some(TopKind(b[j]))
    {
      assert Kept(a[j], b[j]);
      if b[j].parent.Some? {
        assert Kept(a[b[j].parent.value], b[b[j].parent.value]);
      }
      assert AtTop(a, j);
    }
  }

  /** Each step keeps the top-level rule. */
  lemma {:induction false} RootedStep(t: Typing, i: nat)
    requires Ready(t, i) && i < |t.lines| && Rooted(t.lines, i)
    ensures Rooted(TypeStep(t, i).lines, i + 1)
  {
    var a := t.lines;
    var b := TypeStep(t, i).lines;
    StepTyped(t, i);
    RootedKept(a, b, i);
    if TreeLine(a[i]) {
      PlacedKind(a, t.parents, i);
      assert TreeLine(b[i]);
    }
  }

  /** Typing line `i` leaves the property rule as it was for the lines before it. */
  lemma {:induction false} ShapedKept(a: seq<NLine>, b: seq<NLine>, i: nat)
    requires Typed(a, b, i) && Linked(a) && Shaped(a, i)
    ensures Shaped(b, i)
  {
    forall j | 0 <= j < i && b[j].parent.Some? && b[j].parent.value < |b|
      ensures (b[j].kind == Some(Continuation) <==> b[b[j].parent.value].kind == Some(Property)) &&
        (b[b[j].parent.value].kind == Some(Property) ==>
           b[b[j].parent.value].content.Some? && EndsWith(b[b[j].parent.value].content.value, ":"))
    {
      var q := b[j].parent.value;
      assert Kept(a[j], b[j]) && Kept(a[q], b[q]);
    }
  }

  /** Each step keeps the property rule. */
  lemma {:induction false} ShapedStep(t: Typing, i: nat)
    requires Ready(t, i) && i < |t.lines| && Shaped(t.lines, i)
    ensures Shaped(TypeStep(t, i).lines, i + 1)
  {
    var a := t.lines;
    var b := TypeStep(t, i).lines;
    StepTyped(t, i);
    ShapedKept(a, b, i);
    if TreeLine(a[i]) {
      PlacedKind(a, t.parents, i);
    } else {
      assert b[i].parent.None?;
    }
  }

  /** Each step keeps every declared variable in the block. */
  lemma {:induction false} DeclaresStep(t: Typing, i: nat)
    requires Ready(t, i) && i < |t.lines| && Declares(t, i)
    ensures Declares(TypeStep(t, i), i + 1)
  {
    var r := TypeStep(t, i);
    StepTyped(t, i);
    var line := t.lines[i];
    if line.content.Some? && line.content.value != [] && StartsWith(line.content.value, "$") {
      KeysGrow(t.vars, r.lines[i].name.value, VarValue(line.(kind := Some(VariableDeclaration))));
    } else {
      assert r.vars == t.vars;
    }
    forall j | 0 <= j < i + 1 && r.lines[j].kind == Some(VariableDeclaration)
      ensures r.lines[j].name.Some? && r.lines[j].name.value in Keys(r.vars)
    {
      if j < i {
        assert Kept(t.lines[j], r.lines[j]);
      }
    }
  }

  /** The rules hold for every line once the loop is done. */
  lemma {:induction false} TypedFromRules(t: Typing, i: nat)
    requires Ready(t, i) && Rooted(t.lines, i) && Shaped(t.lines, i) && Declares(t, i)
    ensures var r := TypedFrom(t, i);
      Rooted(r.lines, |r.lines|) && Shaped(r.lines, |r.lines|) && Declares(r, |r.lines|)
    decreases |t.lines| - i
  {
    if i < |t.lines| {
      RootedStep(t, i);
      ShapedStep(t, i);
      DeclaresStep(t, i);
      ReadyStep(t, i);
      TypedFromRules(TypeStep(t, i), i + 1);
    }
  }

  /** A comment, or a line with content. */
  predicate WordedLine(line: NLine)
  {
    line.kind != Some(Comment) ==> line.content.Some?
  }

  /** Every line typed so far is a comment or has content. */
  predicate Worded(lines: seq<NLine>, i: nat)
  {
    forall j :: 0 <= j < i && j < |lines| ==> WordedLine(lines[j])
  }

  /** Each step keeps every line but the comments worded. */
  lemma {:induction false} WordedStep(t: Typing, i: nat)
    requires Ready(t, i) && i < |t.lines| && Worded(t.lines, i)
    ensures Worded(TypeStep(t, i).lines, i + 1)
  {
    var a := t.lines;
    var b := TypeStep(t, i).lines;
    StepTyped(t, i);
    forall j | 0 <= j < i + 1
      ensures WordedLine(b[j])
    {
      if j < i {
        assert Kept(a[j], b[j]);
      }
    }
  }

  /** Once the loop is done, every line but the comments has content. */
  lemma {:induction false} TypedFromWorded(t: Typing, i: nat)
    requires Ready(t, i) && Worded(t.lines, i)
    ensures Worded(TypedFrom(t, i).lines, |t.lines|)
    decreases |t.lines| - i
  {
    if i < |t.lines| {
      WordedStep(t, i);
      TypedFromStep(t, i);
      TypedFromWorded(TypeStep(t, i), i + 1);
    } else {
      assert TypedFrom(t, i) == t;
    }
  }

  // ------------------------------------------------------------- the tree

  /** The last line before `i` at indent `d`: what `parents` holds for `d` when line `i` is typed. */
  function LastAt(lines: seq<NLine>, d: int, i: nat): (r: Option<nat>)
    requires i <= |lines|
    ensures r.Some? ==> r.value < i && lines[r.value].indent == d && forall j :: r.value < j < i ==> lines[j].indent != d
    ensures r.None? ==> forall j :: 0 <= j < i ==> lines[j].indent != d
  {
    if i == 0 then None
    else if lines[i - 1].indent == d then Some(i - 1)
    else LastAt(lines, d, i - 1)
  }

  /** Only the indents decide the last line at an indent. */
  lemma {:induction false} LastAtSame(a: seq<NLine>, b: seq<NLine>, d: int, i: nat)
    requires i <= |a| && i <= |b|
    requires forall j :: 0 <= j < i ==> a[j].indent == b[j].indent
    ensures LastAt(a, d, i) == LastAt(b, d, i)
  {
    if i > 0 {
      LastAtSame(a, b, d, i - 1);
    }
  }

  /** Only parents and which lines are continuations decide where a line is attached. */
  lemma {:induction false} FlattenSame(a: seq<NLine>, b: seq<NLine>, p: nat)
    requires Linked(a) && Linked(b) && p < |a| && p < |b|
    requires forall j :: 0 <= j <= p ==> a[j].parent == b[j].parent && (a[j].kind == Some(Continuation) <==> b[j].kind == Some(Continuation))
    ensures Flatten(a, p) == Flatten(b, p)
    decreases p
  {
    if a[p].kind == Some(Continuation) && a[p].parent.Some? {
      FlattenSame(a, b, a[p].parent.value);
    }
  }

  /**
   * The line a line of the style tree hangs under: the last earlier line one
   * indent up, past continuations; none at indent 0 or when there is no such line.
   */
  function Under(lines: seq<NLine>, j: nat): Option<nat>
    requires Linked(lines) && j < |lines|
  {
    if lines[j].indent == 0 then None
    else match LastAt(lines, lines[j].indent - 1, j)
      case None => None
      case Some(p) => Flatten(lines, p)
  }

  /** `parents` holds, for each indent, the last line typed at that indent. */
  ghost predicate Recorded(lines: seq<NLine>, parents: map<int, nat>, i: nat)
    requires i <= |lines|
  {
    forall d :: Get(parents, d) == LastAt(lines, d, i)
  }

  /** The lines typed so far hang where they should: a line of the style tree under `Under`, any other line nowhere. */
  predicate Hung(lines: seq<NLine>, i: nat)
  {
    Linked(lines) && i <= |lines| &&
    forall j :: 0 <= j < i ==> lines[j].parent == (if TreeLine(lines[j]) then Under(lines, j) else None)
  }

  /** Each step records its line at its indent. */
  lemma {:induction false} RecordedStep(t: Typing, i: nat)
    requires Ready(t, i) && i < |t.lines| && Recorded(t.lines, t.parents, i)
    ensures Recorded(TypeStep(t, i).lines, TypeStep(t, i).parents, i + 1)
  {
    var r := TypeStep(t, i);
    StepTyped(t, i);
    forall d
      ensures Get(r.parents, d) == LastAt(r.lines, d, i + 1)
    {
      assert forall j :: 0 <= j < i ==> Kept(t.lines[j], r.lines[j]);
      LastAtSame(t.lines, r.lines, d, i);
    }
  }

  /** Where a line hangs is not changed by typing later lines. */
  lemma {:induction false} UnderKept(a: seq<NLine>, b: seq<NLine>, i: nat, j: nat)
    requires Typed(a, b, i) && Linked(a) && j <= i
    ensures Under(a, j) == Under(b, j)
  {
    assert forall k :: 0 <= k < i ==> Kept(a[k], b[k]);
    if a[j].indent != 0 {
      LastAtSame(a, b, a[j].indent - 1, j);
      var last := LastAt(a, a[j].indent - 1, j);
      if last.Some? {
        FlattenSame(a, b, last.value);
      }
    }
  }

  /** Typing line `i` leaves where the lines before it hang. */
  lemma {:induction false} HungKept(a: seq<NLine>, b: seq<NLine>, i: nat)
    requires Typed(a, b, i) && Hung(a, i)
    ensures Hung(b, i)
  {
    forall j | 0 <= j < i
      ensures b[j].parent == (if TreeLine(b[j]) then Under(b, j) else None)
    {
      UnderKept(a, b, i, j);
      assert Kept(a[j], b[j]);
    }
  }

  /** Each step hangs its line where it should. */
  lemma {:induction false} HungStep(t: Typing, i: nat)
    requires Ready(t, i) && i < |t.lines| && Recorded(t.lines, t.parents, i) && Hung(t.lines, i)
    ensures Hung(TypeStep(t, i).lines, i + 1)
  {
    var a := t.lines;
    var b := TypeStep(t, i).lines;
    StepTyped(t, i);
    HungKept(a, b, i);
    UnderKept(a, b, i, i);
    if TreeLine(a[i]) {
      var (attached, parent) := Attached(a, t.parents, i);
      assert b[i].parent == parent;
      if a[i].indent != 0 {
        assert Get(t.parents, a[i].indent - 1) == LastAt(a, a[i].indent - 1, i);
      }
    }
  }

  /** The tree rules hold for every line once the loop is done. */
  lemma {:induction false} TypedFromHung(t: Typing, i: nat)
    requires Ready(t, i) && Recorded(t.lines, t.parents, i) && Hung(t.lines, i)
    ensures Hung(TypedFrom(t, i).lines, |t.lines|)
    decreases |t.lines| - i
  {
    if i < |t.lines| {
      RecordedStep(t, i);
      HungStep(t, i);
      ReadyStep(t, i);
      TypedFromHung(TypeStep(t, i), i + 1);
    }
  }

  /**
   * What `parse()` produces: the lines scanned and leveled, in order and with
   * their text, each one typed; lines at the top or under a wrapper are
   * wrappers or selectors, lines under a property are its continuations,
   * every declared variable is in the block, and each line of the style tree
   * hangs under the last earlier line one indent up, past continuations;
   * every line but the comments has content.
   */
  lemma {:induction false} ReadRules(input: seq<string>)
    ensures var r := Read(input);
      var lines := Leveling(Scanned(input)).0;
      |r.lines| == |lines| &&
      (forall k :: 0 <= k < |lines| ==> SameText(lines[k], r.lines[k]) && r.lines[k].kind.Some?) &&
      Rooted(r.lines, |r.lines|) && Shaped(r.lines, |r.lines|) && Declares(r, |r.lines|) && Hung(r.lines, |r.lines|) &&
      Worded(r.lines, |r.lines|)
  {
    ReadyInitially(input);
    var t := Typing(Leveling(Scanned(input)).0, map[], []);
    var r := Read(input);
    TypedFromKeeps(t, 0);
    TypedFromRules(t, 0);
    TypedFromHung(t, 0);
    TypedFromWorded(t, 0);
    assert Arranged(r.lines, r.parents, |r.lines|);
  }

  // ------------------------------------------------------- names and values

  /** The first colon of `name:value` is the one after `name` when `name` has none. */
  lemma {:induction false} FirstColon(name: string, value: string)
    requires ':' !in name
    ensures IndexOfChar(name + ":" + value, ':', 0) == |name|
  {
    var s := name + ":" + value;
    var r := IndexOfChar(s, ':', 0);
    assert s[|name|] == ':';
    assert forall k :: 0 <= k < |name| ==> s[k] == name[k];
  }

  /** A property splits at its first colon: later colons stay in the value, and one closing `;` goes. */
  lemma {:induction false} PropertySplit(line: NLine, name: string, value: string)
    requires line.content == Some(name + ":" + value) && ':' !in name
    ensures PropertyNamed(line).name == Some(Trim(name))
    ensures PropertyNamed(line).value ==
      Some(if EndsWith(Trim(value), ";") then Trim(value)[..|Trim(value)| - 1] else Trim(value))
  {
    FirstColon(name, value);
    var c := name + ":" + value;
    assert c[..|name|] == name && c[|name| + 1..] == value;
  }

  /** A property without a colon is all name, and its value is left as it was. */
  lemma {:induction false} PropertyUnsplit(line: NLine)
    requires line.content.Some? && ':' !in line.content.value
    ensures PropertyNamed(line).name == Some(Trim(line.content.value)) && PropertyNamed(line).value == line.value
  {
  }

  /** A declaration splits at its first colon, after the `$`. */
  lemma {:induction false} VarSplit(line: NLine, name: string, value: string)
    requires line.content == Some("$" + name + ":" + value) && ':' !in name
    ensures VarNamed(line).name == Some(Trim(name)) && VarNamed(line).value == Some(Trim(value))
    ensures VarValue(line) == Trim(value)
  {
    var c := "$" + name + ":" + value;
    assert ':' !in "$" + name;
    assert c == ("$" + name) + ":" + value;
    FirstColon("$" + name, value);
    assert c[1..|name| + 1] == name && c[|name| + 2..] == value;
  }

  /** A declaration without a colon names a variable whose value is empty. */
  lemma {:induction false} VarUnsplit(line: NLine)
    requires line.content.Some? && StartsWith(line.content.value, "$") && ':' !in line.content.value
    ensures VarNamed(line).name == Some(Trim(line.content.value[1..])) && VarNamed(line).value == line.value
    ensures VarValue(line) == ""
  {
  }

  // ------------------------------------------------------------ the reader

  /** The typing of one line of the style tree, as the third loop of `parse()` does it. */
  method PlaceLine(lines: seq<NLine>, parents: map<int, nat>, i: nat) returns (placed: seq<NLine>)
    requires Arranged(lines, parents, i) && i < |lines| && lines[i].content.Some?
    ensures placed == Placed(lines, parents, i)
  {
    var parent := if lines[i].indent == 0 then None else Get(parents, lines[i].indent - 1);
    placed := lines;
    if parent.Some? {
      var q := FlattenParent(lines, parent.value);
      if lines[q].kind == Some(Property) && !EndsWith(lines[q].content.value, ":") {
        placed := placed[q := placed[q].(kind := Some(Selector))];
      }
      placed := AddChild(placed, q, i);
      parent := Some(q);
    }
    var line := placed[i];
    if parent.None? || placed[parent.value].kind == Some(Wrapper) {
      if StartsWith(line.content.value, "@") {
        line := line.(kind := Some(Wrapper));
      } else {
        line := line.(kind := Some(Selector));
      }
    } else {
      line := line.(kind := Some(if placed[parent.value].kind == Some(Property) then Continuation else Property));
      line := PropertyNamed(line);
    }
    placed := placed[i := line];
  }

  /** An `NReader`: reads a style sheet into a new block. */
  class NReader {
    /** The block being filled. */
    var model: NBlock?

    constructor()
      ensures model == null
    {
      model := null;
    }

    /**
     * `parse()`: a new block holding the lines of text scanned, leveled and
     * typed, in order, and the variables they declare.
     */
    method Parse(input: seq<string>) returns (block: NBlock)
      modifies this
      ensures fresh(block) && model == block && block.Valid()
      ensures block.lines == Read(input).lines && block.vars == Read(input).vars
    {
      var m := new NBlock();
      model := m;
      var lines := Scan(input);
      lines := Level(lines);
      lines := TypeAll(input, lines);
      CopyLines(lines);
      assert m.lines == lines;
      ReadLinked(input);
      block := m;
    }

    /** The third loop of `parse()`: every line typed in turn, the variables put in the block. */
    method TypeAll(ghost input: seq<string>, lines: seq<NLine>) returns (typed: seq<NLine>)
      requires model != null && model.vars == [] && lines == Leveling(Scanned(input)).0
      modifies model
      ensures model.lines == old(model.lines)
      ensures typed == Read(input).lines && model.vars == Read(input).vars
    {
      ReadyInitially(input);
      ghost var goal := TypedFrom(Typing(lines, map[], []), 0);
      typed := lines;
      var parents: map<int, nat> := map[];
      for i := 0 to |lines|
        invariant |typed| == |lines| && model.lines == old(model.lines)
        invariant Ready(Typing(typed, parents, model.vars), i)
        invariant TypedFrom(Typing(typed, parents, model.vars), i) == goal
      {
        TypedFromStep(Typing(typed, parents, model.vars), i);
        typed, parents := TypeLine(typed, parents, i);
      }
    }

    /** The last loop of `parse()`: every line added to the block, in order. */
    method CopyLines(lines: seq<NLine>)
      requires model != null
      modifies model
      ensures model.lines == old(model.lines) + lines && model.vars == old(model.vars)
    {
      for k := 0 to |lines|
        invariant model.lines == old(model.lines) + lines[..k] && model.vars == old(model.vars)
      {
        assert lines[..k + 1] == lines[..k] + [lines[k]];
        model.AddLine(lines[k]);
      }
      assert lines[..|lines|] == lines;
    }

    /** The third loop of `parse()` for line `i`. */
    method TypeLine(lines: seq<NLine>, parents: map<int, nat>, i: nat) returns (lines': seq<NLine>, parents': map<int, nat>)
      requires model != null && Ready(Typing(lines, parents, model.vars), i) && i < |lines|
      modifies model
      ensures model.lines == old(model.lines)
      ensures Typing(lines', parents', model.vars) == TypeStep(Typing(lines, parents, old(model.vars)), i)
    {
      ghost var t := Typing(lines, parents, model.vars);
      var line := lines[i];
      if line.content.None? || line.content.value == [] {
        lines' := lines[i := line.(kind := Some(Comment))];
        StepComment(t, i);
      } else if StartsWith(line.content.value, "$") {
        var named := ParseVar(line.(kind := Some(VariableDeclaration)));
        lines' := lines[i := named];
        StepVariable(t, i);
      } else {
        lines' := PlaceLine(lines, parents, i);
        StepPlaced(t, i);
      }
      parents' := parents[line.indent := i];
    }

    /** `parseVar(line)`: names the line and puts its variable in the block. */
    method ParseVar(line: NLine) returns (named: NLine)
      requires model != null && line.content.Some? && StartsWith(line.content.value, "$")
      modifies model
      ensures named == VarNamed(line)
      ensures model.vars == Put(old(model.vars), named.name.value, VarValue(line)) && model.lines == old(model.lines)
    {
      var c := line.content.value;
      var colon := IndexOfChar(c, ':', 0);
      assert colon != 0 by { assert c[0] == c[..1][0]; }
      var value := "";
      if colon >= 0 {
        named := line.(name := Some(Trim(c[1..colon])), value := Some(Trim(c[colon + 1..])));
        value := named.value.value;
        assert named == VarNamed(line) && value == VarValue(line);
      } else {
        named := line.(name := Some(Trim(c[1..])));
        assert named == VarNamed(line) && value == VarValue(line);
      }
      model.SetVariableValue(named.name.value, value);
    }
  }
}
