/**
 * The tag lexer of the template parser (TuckerParser.lexTag and the three
 * scans it runs one after the other): the tag name, the `#id` and `.class`
 * shortcuts, the attribute list, and the pipe content with its `{inline}`
 * segments.
 *
 * Each scan is specified by a function that reads the line from a position
 * in a given state and returns what the Java loop leaves behind: the node
 * and the position where the next scan starts, `-1` meaning "nothing left
 * on this line". The methods run the loops of the source and are proved
 * equal to those functions.
 */
module TagLexer {
  import opened Wrappers
  import opened JavaText
  import Attributes
  import opened Tree

  // ---------------------------------------------------------------- tag name

  /** The characters that end a tag name: `#`, `.`, `|`, a space or a tab. */
  predicate EndsName(c: char)
  {
    c == '#' || c == '.' || c == '|' || IsBlankChar(c)
  }

  /** Where the tag name that starts at `pos` ends. */
  function NameEnd(line: string, pos: nat): (e: nat)
    requires pos <= |line|
    ensures pos <= e <= |line|
    ensures forall k :: pos <= k < e ==> !EndsName(line[k])
    ensures e < |line| ==> EndsName(line[e])
    decreases |line| - pos
  {
    if pos == |line| || EndsName(line[pos]) then pos else NameEnd(line, pos + 1)
  }

  /** The problem recorded for a line whose tag name is empty. */
  function EmptyNameProblem(defaultTag: string): string
  {
    "Tag cannot have an empty name. Defaulting to '" + defaultTag + "'"
  }

  /** What every scan leaves alone: the kind, the name and the children of the node. */
  predicate Keeps(n: Node, r: Node)
  {
    r.kind == n.kind && r.tagName == n.tagName && r.children == n.children
  }

  /** One `node.addAttribute(key, value)` call of a scan. */
  datatype Add = Add(key: string, value: Option<string>)

  /** The node after the calls `adds`, made in order. */
  function AddAll(n: Node, adds: seq<Add>): (r: Node)
    ensures Keeps(n, r)
    decreases |adds|
  {
    if adds == [] then n else AddAll(AddAttribute(n, adds[0].key, adds[0].value), adds[1..])
  }

  /** The node after the calls `segs` of `addSegment`, made in order. */
  function AddSegments(n: Node, segs: seq<Segment>): (r: Node)
    ensures Keeps(n, r)
    decreases |segs|
  {
    if segs == [] then n else AddSegments(AddSegment(n, segs[0]), segs[1..])
  }

  // --------------------------------------------------------------- shortcuts

  /** The two states of `lexTagShortcuts`: reading an id, reading a class name. */
  datatype Shortcut = InId | InClass

  const DuplicateId := "Cannot specify more than one # id shortcut"

  /** A scan result with one more attribute call in front. */
  function Then(a: Add, r: Result<(seq<Add>, int)>): Result<(seq<Add>, int)>
  {
    if r.Err? then r else Ok(([a] + r.value.0, r.value.1))
  }

  /**
   * `lexTagShortcuts` from `pos` on, with the id and class name read so far:
   * the attribute calls it makes and the position after the space that ends
   * the shortcuts, or `-1` when the line ends first; an error for a second
   * `#` met inside an id.
   */
  function ShortcutScan(line: string, pos: nat, st: Shortcut, id: string, cls: string): (r: Result<(seq<Add>, int)>)
    ensures r.Ok? ==> r.value.1 == -1 || pos < r.value.1 <= |line|
    decreases |line| - pos
  {
    if pos >= |line| then
      Ok(((if id != [] then [Add(Attributes.IdKey, Some(id))] else []) +
          (if cls != [] then [Add(Attributes.ClassKey, Some(cls))] else []), -1))
    else
      var c := line[pos];
      match st
      case InId =>
        if c == '#' then Err(DuplicateId)
        else if c == '.' then Then(Add(Attributes.IdKey, Some(id)), ShortcutScan(line, pos + 1, InClass, [], cls))
        else if c == ' ' then Ok(([Add(Attributes.IdKey, Some(id))], pos + 1))
        else ShortcutScan(line, pos + 1, InId, id + [c], cls)
      case InClass =>
        if c == '#' then Then(Add(Attributes.ClassKey, Some(cls)), ShortcutScan(line, pos + 1, InId, id, []))
        else if c == '.' then Then(Add(Attributes.ClassKey, Some(cls)), ShortcutScan(line, pos + 1, InClass, id, []))
        else if c == ' ' then Ok(([Add(Attributes.ClassKey, Some(cls))], pos + 1))
        else ShortcutScan(line, pos + 1, InClass, id, cls + [c])
  }

  /** The node and the next position once the calls of a scan result are made on `n`. */
  function Applied(n: Node, r: Result<(seq<Add>, int)>): Result<(Node, int)>
  {
    if r.Err? then Err(r.message) else Ok((AddAll(n, r.value.0), r.value.1))
  }

  /** `lexTagShortcuts(node, line, indent, state)`. */
  method LexTagShortcuts(n: Node, line: string, indent: nat, start: Shortcut) returns (r: Result<(Node, int)>)
    ensures r == Applied(n, ShortcutScan(line, indent, start, [], []))
  {
    var node, st, id, cls := n, start, [], [];
    var pos := indent;
    while pos < |line|
      invariant Applied(node, ShortcutScan(line, pos, st, id, cls)) == Applied(n, ShortcutScan(line, indent, start, [], []))
      decreases |line| - pos
    {
      var c := line[pos];
      match st {
        case InId =>
          if c == '#' {
            return Err(DuplicateId);
          } else if c == '.' {
            node, id, st := AddAttribute(node, Attributes.IdKey, Some(id)), [], InClass;
          } else if c == ' ' {
            AddOne(node, Add(Attributes.IdKey, Some(id)));
            node := AddAttribute(node, Attributes.IdKey, Some(id));
            return Ok((node, pos + 1));
          } else {
            id := id + [c];
          }
        case InClass =>
          if c == '#' {
            node, cls, st := AddAttribute(node, Attributes.ClassKey, Some(cls)), [], InId;
          } else if c == '.' {
            node, cls, st := AddAttribute(node, Attributes.ClassKey, Some(cls)), [], InClass;
          } else if c == ' ' {
            AddOne(node, Add(Attributes.ClassKey, Some(cls)));
            node := AddAttribute(node, Attributes.ClassKey, Some(cls));
            return Ok((node, pos + 1));
          } else {
            cls := cls + [c];
          }
      }
      pos := pos + 1;
    }
    var idAdd := if id != [] then [Add(Attributes.IdKey, Some(id))] else [];
    var clsAdd := if cls != [] then [Add(Attributes.ClassKey, Some(cls))] else [];
    AddAllConcat(node, idAdd, clsAdd);
    if id != [] {
      AddOne(node, Add(Attributes.IdKey, Some(id)));
      node := AddAttribute(node, Attributes.IdKey, Some(id));
    }
    if cls != [] {
      AddOne(node, Add(Attributes.ClassKey, Some(cls)));
      node := AddAttribute(node, Attributes.ClassKey, Some(cls));
    }
    return Ok((node, -1));
  }

  // -------------------------------------------------------------- attributes

  /** The attribute states of `State`: attributeStart … attributeValueBang. */
  datatype AttState = AttStart | AttName | AttBetween | AttValueStart | AttValue | AttValueBang

  /** `node.addAttribute(activeAttName)`, made only when the active name is neither null nor empty. */
  function ActiveAdd(active: Option<string>): seq<Add>
  {
    if active.Some? && active.value != [] then [Add(active.value, None)] else []
  }

  /** A scan result with more attribute calls in front. */
  function Before(adds: seq<Add>, r: (seq<Add>, int)): (seq<Add>, int)
  {
    (adds + r.0, r.1)
  }

  /**
   * `lexAttributes` from `pos` on, with the name and value builders and the
   * active attribute name: the attribute calls it makes and the position
   * after the `|` that ends the list, or `-1` when the line ends first.
   */
  function AttributeScan(line: string, pos: nat, st: AttState, name: string, value: string, active: Option<string>): (r: (seq<Add>, int))
    ensures r.1 == -1 || pos < r.1 <= |line|
    decreases |line| - pos
  {
    if pos >= |line| then
      (if name != [] then [Add(name, None)] else [], -1)
    else
      var c := line[pos];
      match st
      case AttStart =>
        if IsBlankChar(c) then AttributeScan(line, pos + 1, AttStart, name, value, active)
        else if c == '|' then ([], pos + 1)
        else AttributeScan(line, pos + 1, AttName, name + [c], value, active)
      case AttName =>
        if IsBlankChar(c) then AttributeScan(line, pos + 1, AttBetween, [], value, Some(name))
        else if c == '=' then AttributeScan(line, pos + 1, AttValueStart, [], value, Some(name))
        else if c == '|' then (ActiveAdd(Some(name)), pos + 1)
        else AttributeScan(line, pos + 1, AttName, name + [c], value, active)
      case AttBetween =>
        if IsBlankChar(c) then AttributeScan(line, pos + 1, AttBetween, name, value, active)
        else if c == '=' then AttributeScan(line, pos + 1, AttValueStart, name, value, active)
        else if c == '|' then (ActiveAdd(active), pos + 1)
        else Before(ActiveAdd(active), AttributeScan(line, pos + 1, AttStart, name + [c], value, active))
      case AttValueStart =>
        if IsBlankChar(c) then AttributeScan(line, pos + 1, AttValueStart, name, value, active)
        else if c == '"' then AttributeScan(line, pos + 1, AttValue, name, value, active)
        else AttributeScan(line, pos + 1, AttStart, [], value, None)
      case AttValue =>
        if c == '"' then
          if active.Some? && active.value != [] then
            Before([Add(active.value, Some(value))], AttributeScan(line, pos + 1, AttStart, [], [], None))
          else
            AttributeScan(line, pos + 1, AttStart, [], [], active)
        else if c == '\\' then AttributeScan(line, pos + 1, AttValueBang, name, value, active)
        else AttributeScan(line, pos + 1, AttValue, name, value + [c], active)
      case AttValueBang =>
        AttributeScan(line, pos + 1, AttValue, name, value + [c], active)
  }

  /** The calls `lexAttributes(node, line, indent)` makes and where it stops: nothing at all when `indent` is `-1`. */
  function AttributesFrom(line: string, indent: int): (r: (seq<Add>, int))
    requires indent >= -1
    ensures indent == -1 ==> r == ([], -1)
    ensures indent >= 0 ==> r.1 == -1 || indent < r.1 <= |line|
  {
    if indent == -1 then ([], -1) else AttributeScan(line, indent, AttStart, [], [], None)
  }

  /** `lexAttributes(node, line, indent)`. */
  method LexAttributes(n: Node, line: string, indent: int) returns (r: Node, next: int)
    requires indent >= -1
    ensures r == AddAll(n, AttributesFrom(line, indent).0) && next == AttributesFrom(line, indent).1
  {
    if indent == -1 {
      return n, -1;
    }
    var node, st, name, value, active := n, AttStart, [], [], None;
    var pos: nat := indent;
    while pos < |line|
      invariant AddAll(node, AttributeScan(line, pos, st, name, value, active).0) == AddAll(n, AttributesFrom(line, indent).0)
      invariant AttributeScan(line, pos, st, name, value, active).1 == AttributesFrom(line, indent).1
      decreases |line| - pos
    {
      var c := line[pos];
      match st {
        case AttStart =>
          if IsBlankChar(c) {
          } else if c == '|' {
            return node, pos + 1;
          } else {
            name, st := name + [c], AttName;
          }
        case AttName =>
          if IsBlankChar(c) {
            active, name, st := Some(name), [], AttBetween;
          } else if c == '=' {
            active, name, st := Some(name), [], AttValueStart;
          } else if c == '|' {
            active := Some(name);
            node := AddAll(node, ActiveAdd(active));
            return node, pos + 1;
          } else {
            name := name + [c];
          }
        case AttBetween =>
          if IsBlankChar(c) {
          } else if c == '=' {
            st := AttValueStart;
          } else if c == '|' {
            node := AddAll(node, ActiveAdd(active));
            return node, pos + 1;
          } else {
            AddAllConcat(node, ActiveAdd(active), AttributeScan(line, pos + 1, AttStart, name + [c], value, active).0);
            node := AddAll(node, ActiveAdd(active));
            name, st := name + [c], AttStart;
          }
        case AttValueStart =>
          if IsBlankChar(c) {
          } else if c == '"' {
            st := AttValue;
          } else {
            name, active, st := [], None, AttStart;
          }
        case AttValue =>
          if c == '"' {
            if active.Some? && active.value != [] {
              AddAllConcat(node, [Add(active.value, Some(value))], AttributeScan(line, pos + 1, AttStart, [], [], None).0);
              node := AddAttribute(node, active.value, Some(value));
              active := None;
            }
            name, value, st := [], [], AttStart;
          } else if c == '\\' {
            st := AttValueBang;
          } else {
            value := value + [c];
          }
        case AttValueBang =>
          value, st := value + [c], AttValue;
      }
      pos := pos + 1;
    }
    if name != [] {
      node := AddAttribute(node, name, None);
    }
    return node, -1;
  }

  /** One call is one `addAttribute`. */
  lemma {:induction false} AddOne(n: Node, a: Add)
    ensures AddAll(n, [a]) == AddAttribute(n, a.key, a.value)
  {
    assert [a][1..] == [];
  }

  /** Making the calls `a + b` is making `a`, then `b`. */
  lemma {:induction false} AddAllConcat(n: Node, a: seq<Add>, b: seq<Add>)
    ensures AddAll(n, a + b) == AddAll(AddAll(n, a), b)
    decreases |a|
  {
    if a != [] {
      assert (a + b)[0] == a[0] && (a + b)[1..] == a[1..] + b;
      AddAllConcat(AddAttribute(n, a[0].key, a[0].value), a[1..], b);
    } else {
      assert a + b == b;
    }
  }

  // ------------------------------------------------------------ pipe content

  /** The pipe states of `State`: pipeStart, pipe, inlineStart, inline. */
  datatype PipeState = PipeStart | InText | InlineStart | InInline

  /** `lexPipeData` from `pos` on, with the text and inline builders: the segments it adds, in order. */
  function PipeScan(line: string, pos: nat, st: PipeState, text: string, inl: string): (r: seq<Segment>)
    decreases |line| - pos
  {
    if pos >= |line| then
      if text != [] then [NewSegment(Text, Some(text))] else []
    else
      var c := line[pos];
      match st
      case PipeStart =>
        if IsBlankChar(c) then PipeScan(line, pos + 1, PipeStart, text, inl)
        else if c == '{' then PipeScan(line, pos + 1, InlineStart, text, inl)
        else PipeScan(line, pos + 1, InText, text + [c], inl)
      case InText =>
        if c == '{' then [NewSegment(Text, Some(text))] + PipeScan(line, pos + 1, InlineStart, [], inl)
        else PipeScan(line, pos + 1, InText, text + [c], inl)
      case InlineStart =>
        if IsBlankChar(c) then PipeScan(line, pos + 1, InlineStart, text, inl)
        else PipeScan(line, pos + 1, InInline, text, inl + [c])
      case InInline =>
        if c == '}' then [NewSegment(Inline, Some(inl))] + PipeScan(line, pos + 1, InText, text, [])
        else PipeScan(line, pos + 1, InInline, text, inl + [c])
  }

  /** The segments `lexPipeData(node, line, indent)` adds: none when `indent` is `-1`. */
  function PipeFrom(line: string, indent: int): (r: seq<Segment>)
    requires indent >= -1
    ensures indent == -1 ==> r == []
  {
    if indent == -1 then [] else PipeScan(line, indent, PipeStart, [], [])
  }

  /** `lexPipeData(node, line, indent)`. */
  method LexPipeData(n: Node, line: string, indent: int) returns (r: Node)
    requires indent >= -1
    ensures r == AddSegments(n, PipeFrom(line, indent))
  {
    if indent == -1 {
      return n;
    }
    var node, st, text, inl := n, PipeStart, [], [];
    var pos: nat := indent;
    while pos < |line|
      invariant AddSegments(node, PipeScan(line, pos, st, text, inl)) == AddSegments(n, PipeFrom(line, indent))
      decreases |line| - pos
    {
      var c := line[pos];
      match st {
        case PipeStart =>
          if IsBlankChar(c) {
          } else if c == '{' {
            st := InlineStart;
          } else {
            text, st := text + [c], InText;
          }
        case InText =>
          if c == '{' {
            assert ([NewSegment(Text, Some(text))] + PipeScan(line, pos + 1, InlineStart, [], inl))[1..] == PipeScan(line, pos + 1, InlineStart, [], inl);
            node := AddSegment(node, NewSegment(Text, Some(text)));
            text, st := [], InlineStart;
          } else {
            text := text + [c];
          }
        case InlineStart =>
          if IsBlankChar(c) {
          } else {
            inl, st := inl + [c], InInline;
          }
        case InInline =>
          if c == '}' {
            assert ([NewSegment(Inline, Some(inl))] + PipeScan(line, pos + 1, InText, text, []))[1..] == PipeScan(line, pos + 1, InText, text, []);
            node := AddSegment(node, NewSegment(Inline, Some(inl)));
            inl, st := [], InText;
          } else {
            inl := inl + [c];
          }
      }
      pos := pos + 1;
    }
    if text != [] {
      node := AddSegment(node, NewSegment(Text, Some(text)));
    }
    return node;
  }

  // ---------------------------------------------------------------- the tag

  /** A lexed tag and the messages of the problems recorded while lexing it. */
  datatype Lexed = Lexed(node: Node, problems: seq<string>)

  /** The shortcut calls after the name that ends at `e`, and where the attribute scan starts. */
  function AfterName(line: string, e: nat): (r: Result<(seq<Add>, int)>)
    requires e <= |line|
    ensures r.Ok? ==> r.value.1 >= -1
  {
    if e < |line| && line[e] == '#' then ShortcutScan(line, e + 1, InId, [], [])
    else if e < |line| && line[e] == '.' then ShortcutScan(line, e + 1, InClass, [], [])
    else Ok(([], e))
  }

  /**
   * `lexTag(line)`: a tag node named by the text before the first `#`, `.`,
   * `|` or blank, trimmed (the default tag, with a problem, when that is
   * empty), then its shortcuts, attributes and pipe content.
   */
  function TagOf(line: string, defaultTag: string): (r: Result<Lexed>)
    ensures r.Ok? ==> r.value.node.kind == TagNode && r.value.node.tagName.Some? && r.value.node.children == []
    ensures r.Ok? ==> (r.value.problems == [] <==> Trim(line[..NameEnd(line, 0)]) != [])
    ensures r.Ok? && Trim(line[..NameEnd(line, 0)]) == [] ==> r.value.node.tagName == Some(defaultTag)
  {
    var e := NameEnd(line, 0);
    var name := Trim(line[..e]);
    var n := Named(TagNode, if name == [] then defaultTag else name);
    var problems := if name == [] then [EmptyNameProblem(defaultTag)] else [];
    var rest := Completed(n, line, e);
    if rest.Err? then Err(rest.message) else Ok(Lexed(rest.value, problems))
  }

  /** What `lexTag` does after the name: the shortcuts, the attributes, then the pipe content. */
  function Completed(n: Node, line: string, e: nat): (r: Result<Node>)
    requires e <= |line|
    ensures r.Ok? ==> Keeps(n, r.value)
  {
    var shortcuts := AfterName(line, e);
    if shortcuts.Err? then Err(shortcuts.message)
    else
      var attributes := AttributesFrom(line, shortcuts.value.1);
      Ok(AddSegments(AddAll(AddAll(n, shortcuts.value.0), attributes.0), PipeFrom(line, attributes.1)))
  }

  /** `lexTag(line)`: the name loop of the source, then the three scans. */
  method LexTag(line: string, defaultTag: string) returns (r: Result<Lexed>)
    ensures r == TagOf(line, defaultTag)
  {
    var tag, pos := ScanTagName(line);
    var name := Trim(tag);
    var problems := [];
    if name == [] {
      problems := [EmptyNameProblem(defaultTag)];
      name := defaultTag;
    }
    var rest := LexAfterName(Named(TagNode, name), line, pos);
    if rest.Err? {
      return Err(rest.message);
    }
    return Ok(Lexed(rest.value, problems));
  }

  /** The three scans of `lexTag` that follow the name. */
  method LexAfterName(n: Node, line: string, pos: nat) returns (r: Result<Node>)
    requires pos <= |line|
    ensures r == Completed(n, line, pos)
  {
    var node, next: int := n, pos;
    if pos < |line| && (line[pos] == '#' || line[pos] == '.') {
      var shortcuts := LexTagShortcuts(node, line, pos + 1, if line[pos] == '#' then InId else InClass);
      if shortcuts.Err? {
        return Err(shortcuts.message);
      }
      node, next := shortcuts.value.0, shortcuts.value.1;
    }
    node, next := LexAttributes(node, line, next);
    node := LexPipeData(node, line, next);
    return Ok(node);
  }

  /** The name loop of `lexTag`: characters are collected up to the first that ends a name. */
  method ScanTagName(line: string) returns (tag: string, pos: nat)
    ensures pos == NameEnd(line, 0) && tag == line[..pos]
  {
    tag, pos := [], 0;
    while pos < |line| && !EndsName(line[pos])
      invariant pos <= |line| && tag == line[..pos]
      invariant forall k :: 0 <= k < pos ==> !EndsName(line[k])
    {
      tag := tag + [line[pos]];
      pos := pos + 1;
    }
    NameEndIsFirst(line, 0, pos);
  }

  /** The first name-ending character at or after `pos` is where the name ends. */
  lemma {:induction false} NameEndIsFirst(line: string, pos: nat, e: nat)
    requires pos <= e <= |line|
    requires forall k :: pos <= k < e ==> !EndsName(line[k])
    requires e == |line| || EndsName(line[e])
    ensures NameEnd(line, pos) == e
    decreases e - pos
  {
    if pos < e {
      NameEndIsFirst(line, pos + 1, e);
    }
  }

  // --------------------------------------------------------- inline segments

  /**
   * The loop of `lexLine` that fills the inline segments: the text of each
   * inline segment is lexed as a tag, marked inline and attached to the
   * segment; text segments are kept as they are. The first error ends the
   * loop; otherwise the problems of the inline tags are collected in order.
   */
  function InlineNodes(segs: seq<Segment>, defaultTag: string): (r: Result<(seq<Segment>, seq<string>)>)
    ensures r.Ok? ==> |r.value.0| == |segs|
    ensures r.Ok? ==> forall i :: 0 <= i < |segs| ==> Filled(segs[i], r.value.0[i])
  {
    if segs == [] then Ok(([], []))
    else
      var init := InlineNodes(segs[..|segs| - 1], defaultTag);
      var last := FillInline(segs[|segs| - 1], defaultTag);
      if init.Err? then init
      else if last.Err? then Err(last.message)
      else
        FilledSnoc(segs, init.value.0, last.value.0);
        Ok((init.value.0 + [last.value.0], init.value.1 + last.value.1))
  }

  /** The segments filled so far and the one filled next are the filled segments of one more. */
  lemma {:induction false} FilledSnoc(segs: seq<Segment>, done: seq<Segment>, next: Segment)
    requires segs != [] && |done| == |segs| - 1
    requires forall i :: 0 <= i < |done| ==> Filled(segs[..|segs| - 1][i], done[i])
    requires Filled(segs[|segs| - 1], next)
    ensures forall i :: 0 <= i < |segs| ==> Filled(segs[i], (done + [next])[i])
  {
    forall i | 0 <= i < |segs|
      ensures Filled(segs[i], (done + [next])[i])
    {
      if i < |done| {
        assert segs[..|segs| - 1][i] == segs[i];
      }
    }
  }

  /**
   * What filling does to one segment: kind and text are kept, a text segment
   * is unchanged, and an inline segment gets a tag node marked inline.
   */
  predicate Filled(s: Segment, r: Segment)
  {
    r.kind == s.kind && r.value == s.value &&
    (s.kind == Text ==> r == s) &&
    (s.kind == Inline ==> r.node.Some? && r.node.value.inline && r.node.value.kind == TagNode)
  }

  /** One step of the loop: an inline segment is lexed, a text segment is kept. */
  function FillInline(s: Segment, defaultTag: string): (r: Result<(Segment, seq<string>)>)
    ensures r.Ok? ==> Filled(s, r.value.0)
    ensures s.kind == Text ==> r == Ok((s, []))
  {
    if s.kind == Text then Ok((s, []))
    else
      var lexed := TagOf(Attributes.Str(s.value), defaultTag);
      if lexed.Err? then Err(lexed.message)
      else Ok((s.(node := Some(lexed.value.node.(inline := true))), lexed.value.problems))
  }

  /** The inline-filling loop of `lexLine` over the segments of a lexed tag. */
  method LexInlines(segs: seq<Segment>, defaultTag: string) returns (r: Result<(seq<Segment>, seq<string>)>)
    ensures r == InlineNodes(segs, defaultTag)
  {
    var done, problems := [], [];
    for i := 0 to |segs|
      invariant InlineNodes(segs[..i], defaultTag) == Ok((done, problems))
    {
      assert segs[..i + 1][..i] == segs[..i];
      var segment := segs[i];
      ghost var fill := FillInline(segment, defaultTag);
      if segment.kind == Inline {
        var lexed := LexTag(Attributes.Str(segment.value), defaultTag);
        if lexed.Err? {
          assert InlineNodes(segs[..i + 1], defaultTag) == Err(lexed.message);
          ErrorPersists(segs, i + 1, defaultTag);
          return Err(lexed.message);
        }
        segment := segment.(node := Some(lexed.value.node.(inline := true)));
        assert fill == Ok((segment, lexed.value.problems));
        problems := problems + lexed.value.problems;
      } else {
        assert fill == Ok((segment, []));
        assert problems + [] == problems;
      }
      done := done + [segment];
    }
    assert segs[..|segs|] == segs;
    return Ok((done, problems));
  }

  /** An error met in a prefix of the segments is the error of the whole loop. */
  lemma {:induction false} ErrorPersists(segs: seq<Segment>, i: nat, defaultTag: string)
    requires i <= |segs| && InlineNodes(segs[..i], defaultTag).Err?
    ensures InlineNodes(segs, defaultTag) == InlineNodes(segs[..i], defaultTag)
    decreases |segs| - i
  {
    if i < |segs| {
      assert segs[..i + 1][..i] == segs[..i];
      ErrorPersists(segs, i + 1, defaultTag);
    } else {
      assert segs[..i] == segs;
    }
  }


  // ---------------------------------------------------------------- lemmas

  /** A tag name that trimming leaves alone and that no name-ending character cuts short. */
  predicate PlainName(t: string)
  {
    t != [] && forall k :: 0 <= k < |t| ==> !EndsName(t[k]) && !IsTrimmed(t[k])
  }

  /** A character that continues an id or a class name. */
  predicate ShortcutChar(c: char)
  {
    c != '#' && c != '.' && c != ' '
  }

  predicate ShortcutText(s: string)
  {
    forall k :: 0 <= k < |s| ==> ShortcutChar(s[k])
  }

  /** The tag name of a line that starts with a plain name is that name, untouched by trimming. */
  lemma {:induction false} NamePrefix(t: string, rest: string)
    requires PlainName(t) && (rest == [] || EndsName(rest[0]))
    ensures NameEnd(t + rest, 0) == |t| && (t + rest)[..|t|] == t && Trim(t) == t
  {
    NameEndIsFirst(t + rest, 0, |t|);
    assert (t + rest)[..|t|] == t;
  }

  /** Inside an id, a run of ordinary characters is added to the id. */
  lemma {:induction false} IdRun(line: string, pos: nat, id: string, cls: string, k: nat)
    requires pos + k <= |line| && forall j :: pos <= j < pos + k ==> ShortcutChar(line[j])
    ensures ShortcutScan(line, pos, InId, id, cls) == ShortcutScan(line, pos + k, InId, id + line[pos..pos + k], cls)
    decreases k
  {
    if k > 0 {
      assert ShortcutChar(line[pos]);
      IdRun(line, pos + 1, id + [line[pos]], cls, k - 1);
      assert id + [line[pos]] + line[pos + 1..pos + k] == id + line[pos..pos + k];
    } else {
      assert id + line[pos..pos + k] == id;
    }
  }

  /** Inside a class name, a run of ordinary characters is added to the class name. */
  lemma {:induction false} ClassRun(line: string, pos: nat, id: string, cls: string, k: nat)
    requires pos + k <= |line| && forall j :: pos <= j < pos + k ==> ShortcutChar(line[j])
    ensures ShortcutScan(line, pos, InClass, id, cls) == ShortcutScan(line, pos + k, InClass, id, cls + line[pos..pos + k])
    decreases k
  {
    if k > 0 {
      assert ShortcutChar(line[pos]);
      ClassRun(line, pos + 1, id, cls + [line[pos]], k - 1);
      assert cls + [line[pos]] + line[pos + 1..pos + k] == cls + line[pos..pos + k];
    } else {
      assert cls + line[pos..pos + k] == cls;
    }
  }

  /** Two class values added one after the other to a node without attributes are merged, separated by a space. */
  lemma {:induction false} MergedClasses(n: Node, a: string, b: string)
    requires n.kind == TagNode && n.attributes == [] && a != []
    ensures var r := AddAll(n, [Add(Attributes.ClassKey, Some(a)), Add(Attributes.ClassKey, Some(b))]);
      Attributes.Keys(r.attributes) == [Attributes.ClassKey] &&
      Attributes.Get(r.attributes, Attributes.ClassKey) == Some(Attributes.Attribute(Attributes.ClassKey, Some(a + " " + b)))
  {
    var adds := [Add(Attributes.ClassKey, Some(a)), Add(Attributes.ClassKey, Some(b))];
    assert adds[1..] == [adds[1]];
    AddOne(AddAttribute(n, Attributes.ClassKey, Some(a)), adds[1]);
    var n1 := AddAttribute(n, Attributes.ClassKey, Some(a));
    assert Attributes.Keys(n.attributes) == [];
    assert Attributes.Get(n1.attributes, Attributes.ClassKey) == Some(Attributes.Attribute(Attributes.ClassKey, Some(a)));
  }

  /** `.a.b` after the name: two class calls, and the line is used up. */
  lemma {:induction false} ClassPair(line: string, p: nat, a: string, b: string)
    requires a != [] && b != [] && ShortcutText(a) && ShortcutText(b)
    requires p <= |line| && line[p..] == a + "." + b
    ensures ShortcutScan(line, p, InClass, [], []) == Ok(([Add(Attributes.ClassKey, Some(a)), Add(Attributes.ClassKey, Some(b))], -1))
  {
    var q := p + |a| + 1;
    assert forall j :: p <= j < q - 1 ==> line[j] == a[j - p];
    assert line[q - 1] == '.' && line[q..] == b;
    ClassRun(line, p, [], [], |a|);
    assert line[p..p + |a|] == a && [] + a == a;
    ClassLast(line, q, b);
    assert ShortcutScan(line, q - 1, InClass, [], a) == Then(Add(Attributes.ClassKey, Some(a)), ShortcutScan(line, q, InClass, [], []));
    assert [Add(Attributes.ClassKey, Some(a))] + [Add(Attributes.ClassKey, Some(b))] ==
      [Add(Attributes.ClassKey, Some(a)), Add(Attributes.ClassKey, Some(b))];
  }

  /** A class shortcut that runs to the end of the line adds that one class. */
  lemma {:induction false} ClassLast(line: string, q: nat, b: string)
    requires b != [] && ShortcutText(b) && q <= |line| && line[q..] == b
    ensures ShortcutScan(line, q, InClass, [], []) == Ok(([Add(Attributes.ClassKey, Some(b))], -1))
  {
    assert forall j :: q <= j < |line| ==> line[j] == b[j - q];
    ClassRun(line, q, [], [], |b|);
    assert line[q..q + |b|] == b && [] + b == b;
    assert [] + [Add(Attributes.ClassKey, Some(b))] == [Add(Attributes.ClassKey, Some(b))];
    assert ShortcutScan(line, |line|, InClass, [], b) == Ok(([] + [Add(Attributes.ClassKey, Some(b))], -1));
  }

  /** `t.a.b`: the class shortcut given twice is merged into one class attribute "a b". */
  lemma {:induction false} ClassShortcuts(t: string, a: string, b: string, defaultTag: string)
    requires PlainName(t) && a != [] && b != [] && ShortcutText(a) && ShortcutText(b)
    ensures TagOf(t + "." + a + "." + b, defaultTag).Ok?
    ensures var r := TagOf(t + "." + a + "." + b, defaultTag).value;
      r.problems == [] && r.node.tagName == Some(t) &&
      Attributes.Keys(r.node.attributes) == [Attributes.ClassKey] &&
      Attributes.Get(r.node.attributes, Attributes.ClassKey) == Some(Attributes.Attribute(Attributes.ClassKey, Some(a + " " + b)))
  {
    var line := t + "." + a + "." + b;
    assert line == t + ("." + a + "." + b);
    NamePrefix(t, "." + a + "." + b);
    assert line[|t|] == '.' && line[|t| + 1..] == a + "." + b;
    ClassPair(line, |t| + 1, a, b);
    var n := Named(TagNode, t);
    var adds := [Add(Attributes.ClassKey, Some(a)), Add(Attributes.ClassKey, Some(b))];
    assert AfterName(line, |t|) == Ok((adds, -1));
    assert AttributesFrom(line, -1) == ([], -1) && PipeFrom(line, -1) == [];
    var m := AddAll(n, adds);
    assert AddSegments(AddAll(m, []), []) == m;
    assert TagOf(line, defaultTag) == Ok(Lexed(m, []));
    MergedClasses(n, a, b);
  }

  /** `t#a#…`: a second `#` while an id is being read aborts the lexing of the tag. */
  lemma {:induction false} DuplicateIdAborts(t: string, a: string, rest: string, defaultTag: string)
    requires PlainName(t) && ShortcutText(a)
    ensures TagOf(t + "#" + a + "#" + rest, defaultTag) == Err(DuplicateId)
  {
    var line := t + "#" + a + "#" + rest;
    assert line == t + ("#" + a + "#" + rest);
    NamePrefix(t, "#" + a + "#" + rest);
    var p := |t| + 1;
    assert line[|t|] == '#' && line[p + |a|] == '#';
    assert forall j :: p <= j < p + |a| ==> line[j] == a[j - p];
    IdRun(line, p, [], [], |a|);
  }

  /** A character that may be part of an attribute name: none of blank, `=` and `|`. */
  predicate NameChar(c: char)
  {
    !IsBlankChar(c) && c != '=' && c != '|'
  }

  predicate AttributeNameText(s: string)
  {
    s != [] && forall k :: 0 <= k < |s| ==> NameChar(s[k])
  }

  /** A character of a quoted value that needs no escape: neither `"` nor backslash. */
  predicate ValueChar(c: char)
  {
    c != '"' && c != '\\'
  }

  predicate ValueText(s: string)
  {
    forall k :: 0 <= k < |s| ==> ValueChar(s[k])
  }

  /** An attribute name is read to its end. */
  lemma {:induction false} NameRun(line: string, pos: nat, name: string, value: string, active: Option<string>, k: nat)
    requires pos + k <= |line| && forall j :: pos <= j < pos + k ==> NameChar(line[j])
    ensures AttributeScan(line, pos, AttName, name, value, active) ==
      AttributeScan(line, pos + k, AttName, name + line[pos..pos + k], value, active)
    decreases k
  {
    if k > 0 {
      assert NameChar(line[pos]);
      NameRun(line, pos + 1, name + [line[pos]], value, active, k - 1);
      assert name + [line[pos]] + line[pos + 1..pos + k] == name + line[pos..pos + k];
    } else {
      assert name + line[pos..pos + k] == name;
    }
  }

  /** A quoted value is read to its closing quote. */
  lemma {:induction false} ValueRun(line: string, pos: nat, name: string, value: string, active: Option<string>, k: nat)
    requires pos + k <= |line| && forall j :: pos <= j < pos + k ==> ValueChar(line[j])
    ensures AttributeScan(line, pos, AttValue, name, value, active) ==
      AttributeScan(line, pos + k, AttValue, name, value + line[pos..pos + k], active)
    decreases k
  {
    if k > 0 {
      assert ValueChar(line[pos]);
      ValueRun(line, pos + 1, name, value + [line[pos]], active, k - 1);
      assert value + [line[pos]] + line[pos + 1..pos + k] == value + line[pos..pos + k];
    } else {
      assert value + line[pos..pos + k] == value;
    }
  }

  /** From the start of the list, an attribute name `k` is read whole, up to the character after it. */
  lemma {:induction false} ReadName(line: string, k: string)
    requires AttributeNameText(k) && |k| <= |line| && line[..|k|] == k
    ensures AttributeScan(line, 0, AttStart, [], [], None) == AttributeScan(line, |k|, AttName, k, [], None)
  {
    assert forall j :: 0 <= j < |k| ==> line[j] == k[j];
    assert AttributeScan(line, 0, AttStart, [], [], None) == AttributeScan(line, 1, AttName, [k[0]], [], None) by {
      assert NameChar(k[0]) && [] + [line[0]] == [k[0]];
    }
    NameRun(line, 1, [k[0]], [], None, |k| - 1);
    assert [k[0]] + line[1..|k|] == k;
  }

  /** A bare attribute name gets a null value; a `|` after it ends the list. */
  lemma {:induction false} BareAttribute(k: string, rest: string)
    requires AttributeNameText(k) && (rest == [] || rest[0] == '|')
    ensures AttributeScan(k + rest, 0, AttStart, [], [], None) == ([Add(k, None)], if rest == [] then -1 else |k| + 1)
  {
    var line := k + rest;
    assert line[..|k|] == k;
    ReadName(line, k);
    if rest != [] {
      assert line[|k|] == '|';
    }
  }

  /** `k="v"`: the attribute gets the value between the quotes, and the scan goes on after them. */
  lemma {:induction false} QuotedAttribute(k: string, v: string, rest: string)
    requires AttributeNameText(k) && ValueText(v)
    ensures AttributeScan(k + "=\"" + v + "\"" + rest, 0, AttStart, [], [], None) ==
      Before([Add(k, Some(v))], AttributeScan(k + "=\"" + v + "\"" + rest, |k| + |v| + 3, AttStart, [], [], None))
  {
    var line := k + "=\"" + v + "\"" + rest;
    var p := |k| + 2;
    assert line[..|k|] == k && line[|k|] == '=' && line[|k| + 1] == '"' && line[p + |v|] == '"';
    ReadName(line, k);
    assert AttributeScan(line, |k|, AttName, k, [], None) == AttributeScan(line, p, AttValue, [], [], Some(k));
    assert forall j :: p <= j < p + |v| ==> line[j] == v[j - p];
    ValueRun(line, p, [], [], Some(k), |v|);
    assert line[p..p + |v|] == v && [] + v == v;
  }

  /** Inside quotes, a backslash makes the next character part of the value, even a quote. */
  lemma {:induction false} EscapedInValue(line: string, pos: nat, name: string, value: string, active: Option<string>)
    requires pos + 1 < |line| && line[pos] == '\\'
    ensures AttributeScan(line, pos, AttValue, name, value, active) ==
      AttributeScan(line, pos + 2, AttValue, name, value + [line[pos + 1]], active)
  {
  }

  /** `k=` followed by anything but a quote drops the attribute and that character. */
  lemma {:induction false} DiscardedAttribute(k: string, c: char, rest: string)
    requires AttributeNameText(k) && !IsBlankChar(c) && c != '"'
    ensures AttributeScan(k + "=" + [c] + rest, 0, AttStart, [], [], None) ==
      AttributeScan(k + "=" + [c] + rest, |k| + 2, AttStart, [], [], None)
  {
    var line := k + "=" + [c] + rest;
    assert line[..|k|] == k && line[|k|] == '=' && line[|k| + 1] == c;
    ReadName(line, k);
    assert AttributeScan(line, |k|, AttName, k, [], None) == AttributeScan(line, |k| + 1, AttValueStart, [], [], Some(k));
  }

  /**
   * After a bare name and a blank, a one-letter name is not ended by the
   * blank after it: `x y z` yields the attributes `x` and `yz`.
   */
  lemma {:induction false} OneLetterJoinsNext(x: char, y: char, z: char)
    requires NameChar(x) && NameChar(y) && NameChar(z)
    ensures AttributeScan([x, ' ', y, ' ', z], 0, AttStart, [], [], None) == ([Add([x], None), Add([y, z], None)], -1)
  {
    var line := [x, ' ', y, ' ', z];
    assert [] + [x] == [x] && [] + [y] == [y] && [y] + [z] == [y, z];
    assert AttributeScan(line, 0, AttStart, [], [], None) == AttributeScan(line, 1, AttName, [x], [], None);
    assert AttributeScan(line, 1, AttName, [x], [], None) == AttributeScan(line, 2, AttBetween, [], [], Some([x]));
    assert AttributeScan(line, 2, AttBetween, [], [], Some([x])) == Before([Add([x], None)], AttributeScan(line, 3, AttStart, [y], [], Some([x])));
    assert AttributeScan(line, 3, AttStart, [y], [], Some([x])) == AttributeScan(line, 4, AttStart, [y], [], Some([x]));
    assert AttributeScan(line, 4, AttStart, [y], [], Some([x])) == AttributeScan(line, 5, AttName, [y, z], [], Some([x]));
    assert AttributeScan(line, 5, AttName, [y, z], [], Some([x])) == ([Add([y, z], None)], -1);
    assert [Add([x], None)] + [Add([y, z], None)] == [Add([x], None), Add([y, z], None)];
  }

  /** In text after the pipe, everything but `{` is text. */
  lemma {:induction false} TextRun(line: string, pos: nat, text: string, inl: string, k: nat)
    requires pos + k <= |line|
    requires forall j :: pos <= j < pos + k ==> line[j] != '{'
    ensures PipeScan(line, pos, InText, text, inl) == PipeScan(line, pos + k, InText, text + line[pos..pos + k], inl)
    decreases k
  {
    if k > 0 {
      TextRun(line, pos + 1, text + [line[pos]], inl, k - 1);
      assert text + [line[pos]] + line[pos + 1..pos + k] == text + line[pos..pos + k];
    } else {
      assert text + line[pos..pos + k] == text;
    }
  }

  /** Inside braces, everything but `}` belongs to the inline tag. */
  lemma {:induction false} InlineRun(line: string, pos: nat, text: string, inl: string, k: nat)
    requires pos + k <= |line|
    requires forall j :: pos <= j < pos + k ==> line[j] != '}'
    ensures PipeScan(line, pos, InInline, text, inl) == PipeScan(line, pos + k, InInline, text, inl + line[pos..pos + k])
    decreases k
  {
    if k > 0 {
      InlineRun(line, pos + 1, text, inl + [line[pos]], k - 1);
      assert inl + [line[pos]] + line[pos + 1..pos + k] == inl + line[pos..pos + k];
    } else {
      assert inl + line[pos..pos + k] == inl;
    }
  }

  /** Text that neither starts with a blank nor holds an opening brace. */
  predicate PlainText(s: string)
  {
    s != [] && !IsBlankChar(s[0]) && forall k :: 0 <= k < |s| ==> s[k] != '{'
  }

  /** From the pipe on, plain text `s` is read whole into the text builder. */
  lemma {:induction false} ReadText(line: string, s: string)
    requires PlainText(s) && |s| <= |line| && line[..|s|] == s
    ensures PipeScan(line, 0, PipeStart, [], []) == PipeScan(line, |s|, InText, s, [])
  {
    assert forall j :: 0 <= j < |s| ==> line[j] == s[j];
    assert PipeScan(line, 0, PipeStart, [], []) == PipeScan(line, 1, InText, [s[0]], []) by {
      assert [] + [line[0]] == [s[0]];
    }
    TextRun(line, 1, [s[0]], [], |s| - 1);
    assert [s[0]] + line[1..|s|] == s;
  }

  /** Text without braces after the pipe is one text segment. */
  lemma {:induction false} PipeText(s: string)
    requires PlainText(s)
    ensures PipeScan(s, 0, PipeStart, [], []) == [NewSegment(Text, Some(s))]
  {
    assert s[..|s|] == s;
    ReadText(s, s);
  }

  /** After `{`, the inline text `i` is read whole into the inline builder. */
  lemma {:induction false} ReadInline(line: string, p: nat, text: string, i: string)
    requires i != [] && !IsBlankChar(i[0]) && '}' !in i
    requires p + |i| <= |line| && line[p..p + |i|] == i
    ensures PipeScan(line, p, InlineStart, text, []) == PipeScan(line, p + |i|, InInline, text, i)
  {
    assert forall j :: p <= j < p + |i| ==> line[j] == i[j - p];
    assert PipeScan(line, p, InlineStart, text, []) == PipeScan(line, p + 1, InInline, text, [i[0]]) by {
      assert [] + [line[p]] == [i[0]];
    }
    InlineRun(line, p + 1, text, [i[0]], |i| - 1);
    assert [i[0]] + line[p + 1..p + |i|] == i;
  }

  /** `s{i}…`: the text before the brace and the inline text become two segments, in that order. */
  lemma {:induction false} PipeInline(s: string, i: string, rest: string)
    requires PlainText(s) && i != [] && !IsBlankChar(i[0]) && '}' !in i
    ensures PipeScan(s + "{" + i + "}" + rest, 0, PipeStart, [], []) ==
      [NewSegment(Text, Some(s)), NewSegment(Inline, Some(i))] + PipeScan(s + "{" + i + "}" + rest, |s| + |i| + 2, InText, [], [])
  {
    var line := s + "{" + i + "}" + rest;
    var p := |s| + 1;
    assert line[..|s|] == s && line[|s|] == '{' && line[p..p + |i|] == i && line[p + |i|] == '}';
    ReadText(line, s);
    ReadInline(line, p, [], i);
  }

  /** `s{i` with no closing brace: the inline text is dropped. */
  lemma {:induction false} UnclosedInline(s: string, i: string)
    requires PlainText(s) && i != [] && !IsBlankChar(i[0]) && '}' !in i
    ensures PipeScan(s + "{" + i, 0, PipeStart, [], []) == [NewSegment(Text, Some(s))]
  {
    var line := s + "{" + i;
    var p := |s| + 1;
    assert line[..|s|] == s && line[|s|] == '{' && line[p..p + |i|] == i && |line| == p + |i|;
    ReadText(line, s);
    ReadInline(line, p, [], i);
  }
}
