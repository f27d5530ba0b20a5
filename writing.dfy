/**
 * What the write half of `NodeWriter` prints for a hardened tree: the text
 * `writeNode` sends to the output for a node, given the scope stack and the
 * indent in force. Every string printed goes through `cleanString` once more
 * on its way out (`writeString`); `println` is written as "\n".
 */
module Writing {
  import opened Wrappers
  import opened JavaText
  import opened Attributes
  import opened Tree
  import opened Scopes
  import opened ScopeContexts
  import opened Placeholders
  import opened Cleaning
  import opened Hardening

  /** `writeString(value)`: the cleaned text, nothing when it cleans to null. */
  function WriteString(value: Option<string>, stack: seq<Scope>, t: Option<Translator>): (r: string)
    requires SafeStack(stack) && SafeTranslator(t)
  {
    var c := Clean(value, stack, t);
    if c.None? then "" else c.value
  }

  /**
   * `writeAttribute(att)`: nothing when the key cleans to null or blanks, or
   * when a value cleans to null; a space and the key for a bare attribute;
   * otherwise a space, the key, `="`, the value and `"`. Key and value are
   * cleaned, then cleaned again as they are written.
   */
  function AttributeOut(a: Attribute, stack: seq<Scope>, t: Option<Translator>): (r: string)
    requires SafeStack(stack) && SafeTranslator(t)
    ensures r != [] ==> r[0] == ' '
  {
    var key := Clean(Some(a.key), stack, t);
    if key.None? || IsBlank(key.value) then ""
    else if a.value.None? then " " + WriteString(key, stack, t)
    else
      var value := Clean(a.value, stack, t);
      if value.None? then ""
      else " " + WriteString(key, stack, t) + "=\"" + WriteString(value, stack, t) + "\""
  }

  function AttributesOut(atts: seq<Attribute>, stack: seq<Scope>, t: Option<Translator>): (r: string)
    requires SafeStack(stack) && SafeTranslator(t)
  {
    if atts == [] then "" else AttributesOut(atts[..|atts| - 1], stack, t) + AttributeOut(atts[|atts| - 1], stack, t)
  }

  /** The attributes other than `id` and `class`, in declaration order. */
  function Others(atts: seq<Attribute>): seq<Attribute>
  {
    if atts == [] then []
    else
      var prev := Others(atts[..|atts| - 1]);
      var a := atts[|atts| - 1];
      if a.key == IdKey || a.key == ClassKey then prev else prev + [a]
  }

  /** `Others` keeps exactly the attributes stored under neither `id` nor `class`. */
  lemma {:induction false} OthersMembers(atts: seq<Attribute>)
    ensures forall i :: 0 <= i < |Others(atts)| ==> Others(atts)[i] in atts && Others(atts)[i].key != IdKey && Others(atts)[i].key != ClassKey
    ensures forall a :: a in atts && a.key != IdKey && a.key != ClassKey ==> a in Others(atts)
    decreases |atts|
  {
    if atts != [] {
      var init, last := atts[..|atts| - 1], atts[|atts| - 1];
      OthersMembers(init);
      assert atts == init + [last];
      OthersAppend(init, last);
      assert forall b :: b in atts ==> b in init || b == last;
    }
  }

  function Optional(a: Option<Attribute>): seq<Attribute>
  {
    if a.None? then [] else [a.value]
  }

  /** The order `writeTagStart` writes attributes in: `id`, then `class`, then the rest. */
  function OrderedAttributes(atts: seq<Attribute>): (r: seq<Attribute>)
    ensures r == Optional(Get(atts, IdKey)) + Optional(Get(atts, ClassKey)) + Others(atts)
    ensures Get(atts, IdKey).Some? ==> r[0] == Get(atts, IdKey).value
    ensures Get(atts, IdKey).None? && Get(atts, ClassKey).Some? ==> r[0] == Get(atts, ClassKey).value
  {
    Optional(Get(atts, IdKey)) + Optional(Get(atts, ClassKey)) + Others(atts)
  }

  /** `writeTagStart`: the indent unless inline, `<`, the name, the attributes in order, `>`. */
  function TagStart(n: Node, stack: seq<Scope>, indent: int, t: Option<Translator>): (r: string)
    requires SafeStack(stack) && SafeTranslator(t)
  {
    (if n.inline then "" else Repeat(IndentWhitespace, indent)) + "<" + WriteString(n.tagName, stack, t) +
      AttributesOut(OrderedAttributes(n.attributes), stack, t) + ">"
  }

  /** `writeTagEnd`: the indent for a non-inline tag with children, `</`, the name, `>`, and a line end unless inline. */
  function TagEnd(n: Node, hasChildren: bool, stack: seq<Scope>, indent: int, t: Option<Translator>): (r: string)
    requires SafeStack(stack) && SafeTranslator(t)
  {
    (if !n.inline && hasChildren then Repeat(IndentWhitespace, indent) else "") + "</" + WriteString(n.tagName, stack, t) + ">" +
      (if n.inline then "" else "\n")
  }

  /**
   * `writeNode(n)` at the given indent: a block writes its children under its
   * own scope at the same indent, a tag its start, segments, children one
   * level deeper and end, an insertion point its children, raw text the
   * indent, the text and a line end. Raw text that is null throws, as does
   * an inline segment without a tag.
   */
  function Written(n: Node, stack: seq<Scope>, indent: int, t: Option<Translator>): (r: Result<string>)
    requires SafeStack(stack) && SafeTranslator(t) && SafeTree(n)
    decreases n, 2
  {
    match n.kind
    case BlockNode => WrittenChildren(n.children, [n.scope] + stack, indent, t)
    case TagNode => WrittenTag(n, stack, indent, t)
    case InsertionNode => WrittenChildren(n.children, stack, indent, t)
    case RawTextNode =>
      if n.rawText.None? then Err("NullPointerException")
      else Ok(Repeat(IndentWhitespace, indent) + n.rawText.value + "\n")
  }

  /**
   * The tag case of `writeNode`: the opening tag, the segments, then the
   * rest of the tag.
   */
  function WrittenTag(n: Node, stack: seq<Scope>, indent: int, t: Option<Translator>): (r: Result<string>)
    requires SafeStack(stack) && SafeTranslator(t) && SafeTree(n)
    decreases n, 1
  {
    var segs := WrittenSegments(n.segments, stack, indent, t);
    var rest := WrittenTagRest(n, stack, indent, t);
    if segs.Err? then segs
    else if rest.Err? then rest
    else Ok(TagStart(n, stack, indent, t) + segs.value + rest.value)
  }

  /** What follows a tag's segments: a line end when there are children, the children one level deeper, the closing tag. */
  function WrittenTagRest(n: Node, stack: seq<Scope>, indent: int, t: Option<Translator>): (r: Result<string>)
    requires SafeStack(stack) && SafeTranslator(t) && SafeTree(n)
    decreases n, 0
  {
    var kids := WrittenChildren(n.children, stack, indent + 1, t);
    if kids.Err? then kids
    else Ok((if n.children != [] then "\n" else "") + kids.value + TagEnd(n, n.children != [], stack, indent, t))
  }

  /** `writeChildren(n, childIndent)`: each child in order, each at `childIndent`. */
  function WrittenChildren(cs: seq<Node>, stack: seq<Scope>, indent: int, t: Option<Translator>): (r: Result<string>)
    requires SafeStack(stack) && SafeTranslator(t)
    requires forall i :: 0 <= i < |cs| ==> SafeTree(cs[i])
    decreases cs, 0
  {
    if cs == [] then Ok("")
    else
      var prev := WrittenChildren(cs[..|cs| - 1], stack, indent, t);
      var last := Written(cs[|cs| - 1], stack, indent, t);
      if prev.Err? then prev
      else if last.Err? then last
      else Ok(prev.value + last.value)
  }

  /** `writeSegments(n)`: text segments through `writeString`, inline segments through `writeNode`. */
  function WrittenSegment(s: Segment, stack: seq<Scope>, indent: int, t: Option<Translator>): (r: Result<string>)
    requires SafeStack(stack) && SafeTranslator(t)
    requires s.node.Some? ==> SafeTree(s.node.value)
    decreases s, 0
  {
    match s.kind
    case Text => Ok(WriteString(s.value, stack, t))
    case Inline => if s.node.None? then Err("NullPointerException") else Written(s.node.value, stack, indent, t)
  }

  function WrittenSegments(ss: seq<Segment>, stack: seq<Scope>, indent: int, t: Option<Translator>): (r: Result<string>)
    requires SafeStack(stack) && SafeTranslator(t)
    requires forall i :: 0 <= i < |ss| ==> ss[i].node.Some? ==> SafeTree(ss[i].node.value)
    decreases ss, 1
  {
    if ss == [] then Ok("")
    else
      var prev := WrittenSegments(ss[..|ss| - 1], stack, indent, t);
      var last := WrittenSegment(ss[|ss| - 1], stack, indent, t);
      if prev.Err? then prev
      else if last.Err? then last
      else Ok(prev.value + last.value)
  }

  /** `render(node)`: the node hardened, then each hardened node written at the current indent. */
  ghost function Rendered(n: Node, stack: seq<Scope>, indent: int, t: Option<Translator>, hooks: Hooks, fuel: nat): (r: Result<string>)
    requires SafeStack(stack) && SafeTranslator(t) && SafeHooks(hooks) && SafeTree(n)
  {
    var hard := Hardened(n, stack, t, hooks, fuel);
    if hard.Err? then Err(hard.message) else WrittenChildren(hard.value, stack, indent, t)
  }

  // Properties.

  lemma {:induction false} AttributesOutConcat(a: seq<Attribute>, b: seq<Attribute>, stack: seq<Scope>, t: Option<Translator>)
    requires SafeStack(stack) && SafeTranslator(t)
    ensures AttributesOut(a + b, stack, t) == AttributesOut(a, stack, t) + AttributesOut(b, stack, t)
  {
    var f := x => AttributeOut(x, stack, t);
    FoldIs(a + b, stack, t);
    FoldIs(a, stack, t);
    FoldIs(b, stack, t);
    FoldConcat(f, a, b);
  }

  /** The in-order concatenation of `f` over a sequence. */
  function Fold(f: Attribute -> string, s: seq<Attribute>): string
  {
    if s == [] then "" else Fold(f, s[..|s| - 1]) + f(s[|s| - 1])
  }

  lemma {:induction false} FoldIs(s: seq<Attribute>, stack: seq<Scope>, t: Option<Translator>)
    requires SafeStack(stack) && SafeTranslator(t)
    ensures AttributesOut(s, stack, t) == Fold(x => AttributeOut(x, stack, t), s)
    decreases |s|
  {
    if s != [] {
      FoldIs(s[..|s| - 1], stack, t);
    }
  }

  lemma {:induction false} FoldConcat(f: Attribute -> string, a: seq<Attribute>, b: seq<Attribute>)
    ensures Fold(f, a + b) == Fold(f, a) + Fold(f, b)
    decreases |b|
  {
    if b == [] {
      assert a + b == a;
    } else {
      var b' := b[..|b| - 1];
      assert (a + b)[..|a + b| - 1] == a + b';
      assert (a + b)[|a + b| - 1] == b[|b| - 1];
      FoldConcat(f, a, b');
    }
  }

  /** The opening tag writes the `id` attribute, then `class`, then every other attribute in declaration order. */
  lemma {:induction false} AttributeOrder(atts: seq<Attribute>, stack: seq<Scope>, t: Option<Translator>)
    requires SafeStack(stack) && SafeTranslator(t)
    ensures AttributesOut(OrderedAttributes(atts), stack, t) ==
      (if Get(atts, IdKey).Some? then AttributeOut(Get(atts, IdKey).value, stack, t) else "") +
      (if Get(atts, ClassKey).Some? then AttributeOut(Get(atts, ClassKey).value, stack, t) else "") +
      AttributesOut(Others(atts), stack, t)
  {
    var i := Optional(Get(atts, IdKey));
    var c := Optional(Get(atts, ClassKey));
    AttributesOutConcat(i + c, Others(atts), stack, t);
    AttributesOutConcat(i, c, stack, t);
    OptionalOut(Get(atts, IdKey), stack, t);
    OptionalOut(Get(atts, ClassKey), stack, t);
  }

  lemma {:induction false} OptionalOut(a: Option<Attribute>, stack: seq<Scope>, t: Option<Translator>)
    requires SafeStack(stack) && SafeTranslator(t)
    ensures AttributesOut(Optional(a), stack, t) == if a.Some? then AttributeOut(a.value, stack, t) else ""
  {
    if a.Some? {
      assert [a.value][..0] == [];
      assert "" + AttributeOut(a.value, stack, t) == AttributeOut(a.value, stack, t);
    }
  }

  /** Over attributes stored under distinct keys, the write order is a rearrangement: each attribute is written exactly once. */
  lemma {:induction false} OrderedPermutation(atts: seq<Attribute>)
    requires UniqueKeys(atts)
    ensures multiset(OrderedAttributes(atts)) == multiset(atts)
    decreases |atts|
  {
    if atts != [] {
      var init := atts[..|atts| - 1];
      var a := atts[|atts| - 1];
      Hardening.LastFresh(atts);
      OrderedPermutation(init);
      Hardening.LastSplit(atts);
      OrderedStep(init, a);
    }
  }

  lemma {:induction false} OrderedStep(init: seq<Attribute>, a: Attribute)
    requires a.key !in Keys(init)
    ensures multiset(OrderedAttributes(init + [a])) == multiset(OrderedAttributes(init)) + multiset{a}
  {
    if a.key == IdKey {
      OrderedStepId(init, a);
    } else if a.key == ClassKey {
      OrderedStepClass(init, a);
    } else {
      OrderedStepOther(init, a);
    }
  }

  lemma {:induction false} OrderedStepId(init: seq<Attribute>, a: Attribute)
    requires a.key !in Keys(init) && a.key == IdKey
    ensures multiset(OrderedAttributes(init + [a])) == multiset(OrderedAttributes(init)) + multiset{a}
  {
    OptionalFresh(init, a, IdKey);
    OptionalFresh(init, a, ClassKey);
    OthersAppend(init, a);
    OrderedBag(init);
    OrderedBag(init + [a]);
  }

  lemma {:induction false} OrderedStepClass(init: seq<Attribute>, a: Attribute)
    requires a.key !in Keys(init) && a.key == ClassKey
    ensures multiset(OrderedAttributes(init + [a])) == multiset(OrderedAttributes(init)) + multiset{a}
  {
    OptionalFresh(init, a, IdKey);
    OptionalFresh(init, a, ClassKey);
    OthersAppend(init, a);
    OrderedBag(init);
    OrderedBag(init + [a]);
  }

  lemma {:induction false} OrderedStepOther(init: seq<Attribute>, a: Attribute)
    requires a.key !in Keys(init) && a.key != IdKey && a.key != ClassKey
    ensures multiset(OrderedAttributes(init + [a])) == multiset(OrderedAttributes(init)) + multiset{a}
  {
    OptionalFresh(init, a, IdKey);
    OptionalFresh(init, a, ClassKey);
    OthersAppend(init, a);
    OrderedBag(init);
    OrderedBag(init + [a]);
  }

  /** The attributes in writing order hold the id, the class and the others. */
  lemma {:induction false} OrderedBag(atts: seq<Attribute>)
    ensures multiset(OrderedAttributes(atts)) ==
      multiset(Optional(Get(atts, IdKey))) + multiset(Optional(Get(atts, ClassKey))) + multiset(Others(atts))
  {
  }

  lemma {:induction false} OptionalFresh(init: seq<Attribute>, a: Attribute, k: string)
    requires a.key !in Keys(init)
    ensures k == a.key ==> Optional(Get(init, k)) == [] && Optional(Get(init + [a], k)) == [a]
    ensures k != a.key ==> Optional(Get(init + [a], k)) == Optional(Get(init, k))
  {
    AppendFresh(init, a, k);
  }

  lemma {:induction false} OthersAppend(init: seq<Attribute>, a: Attribute)
    ensures Others(init + [a]) == Others(init) + (if a.key == IdKey || a.key == ClassKey then [] else [a])
  {
    assert (init + [a])[..|init|] == init;
  }

  /** An attribute with nothing to substitute is written as a space, the key, `="`, the value and `"`. */
  lemma {:induction false} AttributePlain(key: string, value: string, stack: seq<Scope>, t: Option<Translator>)
    requires SafeStack(stack) && SafeTranslator(t)
    requires Plain(key) && !IsBlank(key) && Plain(value)
    ensures AttributeOut(Attribute(key, Some(value)), stack, t) == " " + key + "=\"" + value + "\""
  {
    CleanPlain(key, stack, t);
    CleanPlain(value, stack, t);
  }

  // Steps of the writing loops.

  lemma {:induction false} OthersSnoc(atts: seq<Attribute>, i: int)
    requires 0 <= i < |atts|
    ensures Others(atts[..i + 1]) ==
      Others(atts[..i]) + (if atts[i].key == IdKey || atts[i].key == ClassKey then [] else [atts[i]])
  {
    assert atts[..i + 1][..i] == atts[..i];
  }

  /** One more attribute considered by the loop of `writeTagStart`: written unless it is `id` or `class`. */
  lemma {:induction false} OthersStep(atts: seq<Attribute>, i: int, stack: seq<Scope>, t: Option<Translator>)
    requires SafeStack(stack) && SafeTranslator(t) && 0 <= i < |atts|
    ensures AttributesOut(Others(atts[..i + 1]), stack, t) ==
      AttributesOut(Others(atts[..i]), stack, t) +
        (if atts[i].key == IdKey || atts[i].key == ClassKey then "" else AttributeOut(atts[i], stack, t))
  {
    var prev := Others(atts[..i]);
    var out := AttributesOut(prev, stack, t);
    OthersSnoc(atts, i);
    if atts[i].key != IdKey && atts[i].key != ClassKey {
      assert Others(atts[..i + 1]) == prev + [atts[i]];
      AttributesOutSnoc(prev, atts[i], stack, t);
    } else {
      assert Others(atts[..i + 1]) == prev;
      assert out + "" == out;
    }
  }

  lemma {:induction false} AttributesOutSnoc(atts: seq<Attribute>, a: Attribute, stack: seq<Scope>, t: Option<Translator>)
    requires SafeStack(stack) && SafeTranslator(t)
    ensures AttributesOut(atts + [a], stack, t) == AttributesOut(atts, stack, t) + AttributeOut(a, stack, t)
  {
    assert (atts + [a])[..|atts|] == atts;
  }

  lemma {:induction false} WrittenChildrenSnoc(cs: seq<Node>, i: int, stack: seq<Scope>, indent: int, t: Option<Translator>)
    requires SafeStack(stack) && SafeTranslator(t)
    requires forall j :: 0 <= j < |cs| ==> SafeTree(cs[j])
    requires 0 <= i < |cs| && WrittenChildren(cs[..i], stack, indent, t).Ok?
    ensures var last := Written(cs[i], stack, indent, t);
      WrittenChildren(cs[..i + 1], stack, indent, t) ==
        if last.Err? then last else Ok(WrittenChildren(cs[..i], stack, indent, t).value + last.value)
  {
    assert cs[..i + 1][..i] == cs[..i];
  }

  /** Writing stops at the first child that throws. */
  lemma {:induction false} WrittenChildrenErr(cs: seq<Node>, k: int, stack: seq<Scope>, indent: int, t: Option<Translator>)
    requires SafeStack(stack) && SafeTranslator(t)
    requires forall j :: 0 <= j < |cs| ==> SafeTree(cs[j])
    requires 0 <= k <= |cs| && WrittenChildren(cs[..k], stack, indent, t).Err?
    ensures WrittenChildren(cs, stack, indent, t) == WrittenChildren(cs[..k], stack, indent, t)
    decreases |cs|
  {
    if k < |cs| {
      assert cs[..|cs| - 1][..k] == cs[..k];
      WrittenChildrenErr(cs[..|cs| - 1], k, stack, indent, t);
    } else {
      assert cs[..k] == cs;
    }
  }

  lemma {:induction false} WrittenSegmentsSnoc(ss: seq<Segment>, i: int, stack: seq<Scope>, indent: int, t: Option<Translator>)
    requires SafeStack(stack) && SafeTranslator(t)
    requires forall j :: 0 <= j < |ss| ==> ss[j].node.Some? ==> SafeTree(ss[j].node.value)
    requires 0 <= i < |ss| && WrittenSegments(ss[..i], stack, indent, t).Ok?
    ensures var last := WrittenSegment(ss[i], stack, indent, t);
      WrittenSegments(ss[..i + 1], stack, indent, t) ==
        if last.Err? then last else Ok(WrittenSegments(ss[..i], stack, indent, t).value + last.value)
  {
    assert ss[..i + 1][..i] == ss[..i];
  }

  lemma {:induction false} WrittenSegmentsErr(ss: seq<Segment>, k: int, stack: seq<Scope>, indent: int, t: Option<Translator>)
    requires SafeStack(stack) && SafeTranslator(t)
    requires forall j :: 0 <= j < |ss| ==> ss[j].node.Some? ==> SafeTree(ss[j].node.value)
    requires 0 <= k <= |ss| && WrittenSegments(ss[..k], stack, indent, t).Err?
    ensures WrittenSegments(ss, stack, indent, t) == WrittenSegments(ss[..k], stack, indent, t)
    decreases |ss|
  {
    if k < |ss| {
      assert ss[..|ss| - 1][..k] == ss[..k];
      WrittenSegmentsErr(ss[..|ss| - 1], k, stack, indent, t);
    } else {
      assert ss[..k] == ss;
    }
  }
}
