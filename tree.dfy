/**
 * The template tree. Every node has one of four kinds, and carries the union
 * of what the parser and the renderer read from a node: a tag name (for an
 * insertion point, its name; for a block, the block name), the attributes
 * in insertion order, the inner-text segments, the children (a block's
 * `nodes`), raw text, the inline and auto flags, a block's variable values
 * and scope, the indent and the source row.
 *
 * Nodes are values: an operation returns the updated node, and a clone is a
 * separate value, so no later update of one can reach the other.
 */
module Tree {
  import opened Wrappers
  import opened Attributes
  import opened Scopes

  /** `Node.NodeType`: the closed set of node kinds. */
  datatype NodeType = BlockNode | TagNode | InsertionNode | RawTextNode

  /** `Segment.Type`. */
  datatype SegmentType = Text | Inline

  /** A piece of a tag's inner text: plain text, or an inline tag held in `node`. */
  datatype Segment = Segment(kind: SegmentType, value: Option<string>, node: Option<Node>)

  datatype Node = Node(
    kind: NodeType,
    tagName: Option<string>,
    attributes: seq<Attribute>,
    segments: seq<Segment>,
    children: seq<Node>,
    rawText: Option<string>,
    inline: bool,
    auto: bool,
    vars: map<string, Option<string>>,
    scope: Scope,
    indent: int,
    row: int)

  /** `new Node(kind)` (and the no-argument constructors of the subclasses): nothing set yet. */
  function NewNode(kind: NodeType): (r: Node)
    ensures r.kind == kind && r.tagName.None? && r.rawText.None?
    ensures r.attributes == [] && r.segments == [] && r.children == []
    ensures !r.inline && !r.auto && r.vars == map[] && r.indent == 0
  {
    Node(kind, None, [], [], [], None, false, false, map[], EmptyScope, 0, 0)
  }

  /** `new Block(name)`, `new TagNode(name)`, `new InsertionNode(name)`. */
  function Named(kind: NodeType, name: string): (r: Node)
    ensures r.kind == kind && r.tagName == Some(name) && r.children == [] && r.attributes == []
  {
    NewNode(kind).(tagName := Some(name))
  }

  /** `new RawTextNode(text)`. */
  function RawTextOf(text: Option<string>): (r: Node)
    ensures r.kind == RawTextNode && r.rawText == text && r.children == []
  {
    NewNode(RawTextNode).(rawText := text)
  }

  /** `new Segment()`, `new Segment(type)`, `new Segment(type, value)`, `new Segment(text)`. */
  function NewSegment(kind: SegmentType, value: Option<string>): (r: Segment)
    ensures r.kind == kind && r.value == value && r.node.None?
  {
    Segment(kind, value, None)
  }

  /** `Segment.append(t)`: the value becomes old value + t, as Java concatenation prints nulls. */
  function SegmentAppend(s: Segment, t: Option<string>): (r: Segment)
    ensures r.kind == s.kind && r.node == s.node
    ensures r.value.Some? && r.value.value == Str(s.value) + Str(t)
    ensures s.value.Some? && t.Some? ==> r.value.value[..|s.value.value|] == s.value.value
  {
    s.(value := Some(Str(s.value) + Str(t)))
  }

  function SegmentTypeName(k: SegmentType): string
  {
    match k
    case Text => "text"
    case Inline => "inline"
  }

  /** `Segment.toString`: `[type] value`. */
  function SegmentText(s: Segment): (r: string)
    ensures |r| == |SegmentTypeName(s.kind)| + 3 + |Str(s.value)|
    ensures r[0] == '[' && r[1..1 + |SegmentTypeName(s.kind)|] == SegmentTypeName(s.kind)
    ensures r[|SegmentTypeName(s.kind)| + 1..|SegmentTypeName(s.kind)| + 3] == "] "
    ensures r[|SegmentTypeName(s.kind)| + 3..] == Str(s.value)
    ensures (r[1] == 't') <==> s.kind == Text
  {
    var t := SegmentTypeName(s.kind);
    var r := "[" + t + "] " + Str(s.value);
    assert r[1..1 + |t|] == t;
    r
  }

  /**
   * `addAttribute(key, value)`: tag and insertion nodes merge it into their
   * attributes; the base `Node` (blocks, raw text) throws it away.
   */
  function AddAttribute(n: Node, key: string, value: Option<string>): (r: Node)
    ensures n.kind == BlockNode || n.kind == RawTextNode ==> r == n
    ensures n.kind == TagNode || n.kind == InsertionNode ==> r == n.(attributes := Attributes.AddAttribute(n.attributes, key, value))
  {
    if n.kind == TagNode || n.kind == InsertionNode then n.(attributes := Attributes.AddAttribute(n.attributes, key, value)) else n
  }

  /** `addSegment(segment)`: appended on a tag; the base `Node` throws it away. */
  function AddSegment(n: Node, s: Segment): (r: Node)
    ensures n.kind != TagNode ==> r == n
    ensures n.kind == TagNode ==> r.segments == n.segments + [s] && r.children == n.children && r.attributes == n.attributes
  {
    if n.kind == TagNode then n.(segments := n.segments + [s]) else n
  }

  /** `addChild(node)`: the child goes last. */
  function AddChild(n: Node, c: Node): (r: Node)
    ensures r.children == n.children + [c] && r.kind == n.kind && r.attributes == n.attributes && r.segments == n.segments
  {
    n.(children := n.children + [c])
  }

  /** `getId()`: the value of the `id` attribute, null when there is none. */
  function GetId(n: Node): (r: Option<string>)
    ensures r.Some? ==> Attribute(IdKey, r) in n.attributes
    ensures IdKey !in Keys(n.attributes) ==> r.None?
  {
    ValueOf(n.attributes, IdKey)
  }

  /**
   * `cloneNode()` and the four copy constructors: a fresh node of the same
   * kind. A block copies its name and variables and clones its nodes; a tag
   * copies name, attributes and segments (each segment's inline node is
   * shared, not cloned) and clones its children; an insertion point copies
   * name and attributes and clones its children, leaving `auto` false; raw
   * text copies the text. The indent is the base class's and is not copied.
   */
  function Clone(n: Node): (r: Node)
    decreases n
    ensures r.kind == n.kind && r.indent == 0 && !r.auto
    ensures n.kind != RawTextNode ==> r.tagName == n.tagName && |r.children| == |n.children|
    ensures n.kind != RawTextNode ==> forall i :: 0 <= i < |r.children| ==> r.children[i] == Clone(n.children[i])
    ensures n.kind == TagNode || n.kind == InsertionNode ==> r.attributes == n.attributes
    ensures n.kind == TagNode ==> r.segments == n.segments
    ensures n.kind == BlockNode ==> r.vars == n.vars
    ensures n.kind == RawTextNode ==> r.rawText == n.rawText && r.children == []
  {
    var kids := seq(|n.children|, i requires 0 <= i < |n.children| => Clone(n.children[i]));
    match n.kind
    case BlockNode => NewNode(BlockNode).(tagName := n.tagName, children := kids, vars := n.vars)
    case TagNode => NewNode(TagNode).(tagName := n.tagName, attributes := n.attributes, segments := n.segments, children := kids)
    case InsertionNode => NewNode(InsertionNode).(tagName := n.tagName, attributes := n.attributes, children := kids)
    case RawTextNode => RawTextOf(n.rawText)
  }

  /** Cloning a clone gives the same tree again: a clone loses nothing a copy can carry. */
  lemma {:induction false} CloneIdempotent(n: Node)
    decreases n
    ensures Clone(Clone(n)) == Clone(n)
  {
    var c := Clone(n);
    forall i | 0 <= i < |c.children|
      ensures Clone(c.children[i]) == c.children[i]
    {
      CloneIdempotent(n.children[i]);
    }
    assert Clone(c).children == c.children;
  }

  /** `Block.addNode(node)`: a null node throws; otherwise it is appended. */
  function AddNode(b: Node, c: Option<Node>): (r: Result<Node>)
    requires b.kind == BlockNode
    ensures r.Err? <==> c.None?
    ensures r.Ok? ==> r.value.children == b.children + [c.value] && r.value.vars == b.vars && r.value.tagName == b.tagName
  {
    if c.None? then Err("A block node cannot be null") else Ok(AddChild(b, c.value))
  }

  /** `Block.getVariable(name)`: null when unset. */
  function GetVariable(b: Node, name: string): (r: Option<string>)
    ensures name !in b.vars ==> r.None?
  {
    if name in b.vars then b.vars[name] else None
  }

  /** `Block.setVariable(name, value)`: this name now reads `value`; the others are kept. */
  function SetVariable(b: Node, name: string, value: Option<string>): (r: Node)
    ensures GetVariable(r, name) == value
    ensures forall other :: other != name ==> GetVariable(r, other) == GetVariable(b, other)
    ensures r.children == b.children && r.kind == b.kind
  {
    b.(vars := b.vars[name := value])
  }

  /** `Block.clear()`: no nodes left. */
  function ClearNodes(b: Node): (r: Node)
    ensures r.children == [] && r.vars == b.vars && r.tagName == b.tagName
  {
    b.(children := [])
  }

  /** `InsertionNode.insert(node)`: a null node throws; otherwise it becomes the last child. */
  function InsertionInsert(n: Node, c: Option<Node>): (r: Result<Node>)
    requires n.kind == InsertionNode
    ensures r.Err? <==> c.None?
    ensures r.Ok? ==> r.value.children == n.children + [c.value] && r.value.tagName == n.tagName && r.value.auto == n.auto
  {
    if c.None? then Err("Child node cannot be null") else Ok(AddChild(n, c.value))
  }

  /** `RawTextNode.append(extra)`: the text becomes old text + extra, nulls printed as Java prints them. */
  function RawTextAppend(n: Node, extra: Option<string>): (r: Node)
    requires n.kind == RawTextNode
    ensures r.kind == RawTextNode && r.rawText == Some(Str(n.rawText) + Str(extra))
    ensures n.rawText.Some? && extra.Some? ==> r.rawText.value[|n.rawText.value|..] == extra.value
  {
    n.(rawText := Some(Str(n.rawText) + Str(extra)))
  }

  /** `RawTextNode.write`: the text itself, no escaping and no newline; a null text throws. */
  function RawTextWrite(out: string, n: Node): (r: Result<string>)
    requires n.kind == RawTextNode
    ensures r.Err? <==> n.rawText.None?
    ensures r.Ok? ==> |r.value| == |out| + |n.rawText.value|
    ensures r.Ok? ==> r.value[..|out|] == out && r.value[|out|..] == n.rawText.value
  {
    if n.rawText.None? then Err("NullPointerException") else Ok(out + n.rawText.value)
  }
}
