/**
 * `NodeWriter`: renders a template tree. The tree is first hardened against
 * the scope stack of its `ScopeContext` (placeholders substituted, insertion
 * points flattened, hooks applied), then written. Each write method returns
 * the text it prints to the writer instead of printing it.
 *
 * Each method is proved against the function of the same name in the
 * `Cleaning`, `Hardening` and `Writing` modules, where the properties of the
 * rendering are stated.
 */
module NodeWriters {
  import opened Wrappers
  import opened JavaText
  import opened Attributes
  import opened Tree
  import opened Scopes
  import opened HookBindings
  import opened ScopeContexts
  import opened Placeholders
  import opened Cleaning
  import CleanSpec = Cleaning
  import opened Hardening
  import opened Writing

  class NodeWriter {
    const context: ScopeContext
    var translator: Option<Translator>
    /** What the bound hooks return; the page context they see is part of them. */
    const hooks: Hooks

    /** `new NodeWriter()`: a fresh, empty scope context and no translator. */
    constructor (hooks: Hooks)
      ensures fresh(context) && context.stack == [] && context.indent == 0
      ensures translator.None? && this.hooks == hooks
    {
      context := new ScopeContext();
      translator := None;
      this.hooks := hooks;
    }

    /** The copy constructor: a copy of the other's scope context, the same page context, no translator. */
    constructor Copy(other: NodeWriter)
      ensures fresh(context) && context.stack == other.context.stack && context.indent == other.context.indent
      ensures translator.None? && hooks == other.hooks
    {
      context := new ScopeContext.Copy(other.context);
      translator := None;
      hooks := other.hooks;
    }

    method SetTranslator(t: Option<Translator>)
      modifies this
      ensures translator == t
    {
      translator := t;
    }

    /** `translate(source)`: the translation, or the source when there is no translator or it knows no translation. */
    method Translate(source: string) returns (r: string)
      ensures r == CleanSpec.Translate(source, translator)
      ensures translator.None? ==> r == source
    {
      if translator.None? {
        return source;
      }
      if source in translator.value {
        r := translator.value[source];
      } else {
        r := source;
      }
    }

    /**
     * `cleanString(value)`: the escapes, then the variable, boolean and
     * phrase loops (each in a method of its own below), the stripping of
     * phrase markers, then the null rule.
     */
    method CleanString(value: Option<string>) returns (r: Option<string>)
      requires SafeStack(context.stack) && SafeTranslator(translator)
      ensures r == Clean(value, context.stack, translator)
    {
      if value.None? {
        return None;
      }
      var c := ReplaceVariables(Cleaning(Escape(value.value), 0, 0));
      c := ReplaceBooleans(c);
      var s := c.text;
      if translator.Some? {
        s := TranslatePhrases(s);
      }
      s := RemoveChar(RemoveChar(s, PhraseStart), PhraseEnd);
      if c.replaced == 0 && c.dropped == 1 && IsBlank(s) {
        return None;
      }
      return Some(s);
    }

    /** The variable loop of `cleanString`, rematching the whole string after every replacement. */
    method ReplaceVariables(c: Cleaning) returns (r: Cleaning)
      requires SafeStack(context.stack)
      ensures r == VarPass(c, context.stack)
    {
      r := c;
      var m := Find(r.text, VarStart, VarEnd);
      while m.Some?
        invariant m == Find(r.text, VarStart, VarEnd)
        invariant VarPass(r, context.stack) == VarPass(c, context.stack)
        decreases multiset(r.text)[VarEnd]
      {
        var g := m.value;
        var v := context.GetVariable(g.inner);
        VarPassStep(r, context.stack, g);
        r := VarStep(r, g, v);
        m := Find(r.text, VarStart, VarEnd);
      }
    }

    /** The boolean loop of `cleanString`. */
    method ReplaceBooleans(c: Cleaning) returns (r: Cleaning)
      ensures r == BoolPass(c, context.stack)
    {
      r := c;
      var m := Find(r.text, BoolStart, BoolEnd);
      while m.Some?
        invariant m == Find(r.text, BoolStart, BoolEnd)
        invariant BoolPass(r, context.stack) == BoolPass(c, context.stack)
        decreases multiset(r.text)[BoolEnd]
      {
        var g := m.value;
        var b := context.GetBoolean(g.inner);
        BoolPassStep(r, context.stack, g);
        r := BoolStep(r, g, b);
        m := Find(r.text, BoolStart, BoolEnd);
      }
    }

    /** The phrase loop of `cleanString`, run when there is a translator. */
    method TranslatePhrases(s0: string) returns (s: string)
      requires translator.Some? && SafeTranslator(translator)
      ensures s == PhrasePass(s0, translator.value)
    {
      s := s0;
      var m := Find(s, PhraseStart, PhraseEnd);
      while m.Some?
        invariant m == Find(s, PhraseStart, PhraseEnd)
        invariant PhrasePass(s, translator.value) == PhrasePass(s0, translator.value)
        decreases multiset(s)[PhraseEnd]
      {
        var g := m.value;
        var tr := Translate(g.inner);
        s := g.before + tr + g.after;
        m := Find(s, PhraseStart, PhraseEnd);
      }
    }

    /** `hardenAttributes(att)`: the attribute as the hardened tag keeps it, or none. */
    method HardenAttribute(a: Attribute) returns (r: Option<Attribute>)
      requires SafeStack(context.stack) && SafeTranslator(translator)
      ensures r == Hardening.HardenAttribute(a, context.stack, translator)
    {
      var key := CleanString(Some(a.key));
      if key.None? || IsBlank(key.value) {
        return None;
      }
      if a.value.None? {
        return Some(Attribute(key.value, None));
      }
      var value := CleanString(a.value);
      if value.None? {
        return None;
      }
      return Some(Attribute(key.value, value));
    }

    /**
     * `hardenNode(n)`: the nodes that take `n`'s place. A block's scope is
     * pushed for its children and popped after, so the stack and indent are
     * as they were when the method returns normally.
     */
    method Harden(n: Node, fuel: nat) returns (r: Result<seq<Node>>)
      requires SafeStack(context.stack) && SafeTranslator(translator) && SafeHooks(hooks) && SafeTree(n)
      modifies context
      decreases fuel, 1, n, 2
      ensures r == Hardened(n, old(context.stack), translator, hooks, fuel)
      ensures r.Ok? ==> context.stack == old(context.stack) && context.indent == old(context.indent)
    {
      match n.kind
      case BlockNode =>
        context.Push(n.scope);
        var kids := HardenChildren(n.children, fuel);
        if kids.Err? {
          return Err(kids.message);
        }
        var _ := context.Pop();
        r := Ok([NewNode(BlockNode).(tagName := n.tagName, scope := n.scope, children := kids.value)]);
      case TagNode =>
        r := HardenTagNode(n, fuel);
      case InsertionNode =>
        r := HardenChildren(n.children, fuel);
      case RawTextNode =>
        r := Ok([NewNode(RawTextNode).(rawText := n.rawText)]);
    }

    /**
     * The tag case of `hardenNode`: a new tag with hardened attributes,
     * segments and children, then the first hook whose binding accepts it
     * in the innermost scope, whose result is hardened again.
     */
    method HardenTagNode(n: Node, fuel: nat) returns (r: Result<seq<Node>>)
      requires SafeStack(context.stack) && SafeTranslator(translator) && SafeHooks(hooks) && SafeTree(n)
      modifies context
      decreases fuel, 1, n, 1
      ensures r == HardenedTag(n, old(context.stack), translator, hooks, fuel)
      ensures r.Ok? ==> context.stack == old(context.stack) && context.indent == old(context.indent)
    {
        var tag := HardenTag(n, fuel);
        if tag.Err? {
          return Err(tag.message);
        }
        var kids := HardenChildren(n.children, fuel);
        if kids.Err? {
          return Err(kids.message);
        }
        r := ApplyHook(tag.value.(children := kids.value), fuel);
    }

    /** `findHook` then `performHook` on a hardened tag, whose result is hardened again. */
    method ApplyHook(hard: Node, fuel: nat) returns (r: Result<seq<Node>>)
      requires SafeStack(context.stack) && SafeTranslator(translator) && SafeHooks(hooks) && IsHard(hard)
      modifies context
      decreases fuel, 0
      ensures r == Hooked(hard, old(context.stack), translator, hooks, fuel)
      ensures r.Ok? ==> context.stack == old(context.stack) && context.indent == old(context.indent)
    {
      var h := FindHook(hard);
      if h.Err? {
        r := Err(h.message);
      } else if h.value.None? {
        r := Ok([hard]);
      } else if fuel == 0 {
        r := Err("hook keeps re-hardening");
      } else {
        r := PerformHook(hard, h.value.value, fuel - 1);
      }
    }

    /** `performHook(hook, node)`: the hook's replacement, or the tag itself when it gives none, hardened again. */
    method PerformHook(hard: Node, hook: HookId, fuel: nat) returns (r: Result<seq<Node>>)
      requires SafeStack(context.stack) && SafeTranslator(translator) && SafeHooks(hooks) && SafeTree(hard)
      modifies context
      decreases fuel, 2
      ensures r == Performed(hard, hook, old(context.stack), translator, hooks, fuel)
      ensures r.Ok? ==> context.stack == old(context.stack) && context.indent == old(context.indent)
    {
      r := Harden(Replacement(hooks, hook, hard), fuel);
    }

    /** `scopeContext.findHook(hardNode)`, with the null checks the source's dereferences imply. */
    method FindHook(hard: Node) returns (r: Result<Option<HookId>>)
      ensures r == HookOf(hard, context.stack)
    {
      if context.stack == [] {
        return Err("NullPointerException");
      }
      if context.stack[0].bindings == [] {
        return Ok(None);
      }
      if hard.tagName.None? {
        return Err("NullPointerException");
      }
      r := context.FindHook(hard.tagName.value, GetId(hard), StyleClasses(hard));
    }

    /** `hardenChildren(parent)`: the hardened nodes of every child, in order. */
    method HardenChildren(cs: seq<Node>, fuel: nat) returns (r: Result<seq<Node>>)
      requires SafeStack(context.stack) && SafeTranslator(translator) && SafeHooks(hooks)
      requires forall i :: 0 <= i < |cs| ==> SafeTree(cs[i])
      modifies context
      decreases fuel, 1, cs, 1
      ensures r == HardenedChildren(cs, old(context.stack), translator, hooks, fuel)
      ensures r.Ok? ==> context.stack == old(context.stack) && context.indent == old(context.indent)
    {
      ghost var stack := context.stack;
      var list: seq<Node> := [];
      var i := 0;
      while i < |cs|
        invariant 0 <= i <= |cs|
        invariant context.stack == old(context.stack) && context.indent == old(context.indent)
        invariant HardenedChildren(cs[..i], context.stack, translator, hooks, fuel) == Ok(list)
      {
        var outcome := Harden(cs[i], fuel);
        ChildrenSnoc(cs, i, stack, translator, hooks, fuel);
        if outcome.Err? {
          ChildrenErr(cs, i + 1, stack, translator, hooks, fuel);
          return Err(outcome.message);
        }
        list := list + outcome.value;
        i := i + 1;
      }
      assert cs[..i] == cs;
      r := Ok(list);
    }

    /** `hardenTagNode(n)`: name, inline flag, hardened attributes and hardened segments; children come later. */
    method HardenTag(n: Node, fuel: nat) returns (r: Result<Node>)
      requires SafeStack(context.stack) && SafeTranslator(translator) && SafeHooks(hooks) && SafeTree(n)
      modifies context
      decreases fuel, 1, n, 0
      ensures var segs := HardenedSegments(n.segments, old(context.stack), translator, hooks, fuel);
        r == if segs.Err? then Err(segs.message) else Ok(HardTag(n, old(context.stack), translator).(segments := segs.value))
      ensures r.Ok? ==> context.stack == old(context.stack) && context.indent == old(context.indent)
    {
      var atts := HardenAttributes(n.attributes);
      var segs := HardenSegments(n.segments, fuel);
      if segs.Err? {
        return Err(segs.message);
      }
      r := Ok(NewNode(TagNode).(tagName := n.tagName, inline := n.inline, attributes := atts, segments := segs.value));
    }

    /** The attribute loop of `hardenTagNode`: each hardened attribute added in turn. */
    method HardenAttributes(atts: seq<Attribute>) returns (r: seq<Attribute>)
      requires SafeStack(context.stack) && SafeTranslator(translator)
      ensures r == Hardening.HardenAttributes(atts, context.stack, translator)
    {
      r := [];
      var i := 0;
      while i < |atts|
        invariant 0 <= i <= |atts|
        invariant r == Hardening.HardenAttributes(atts[..i], context.stack, translator)
      {
        var a := HardenAttribute(atts[i]);
        AttributesSnoc(atts, i, context.stack, translator);
        r := Merge(r, a);
        i := i + 1;
      }
      assert atts[..i] == atts;
    }

    /** The segment loop of `hardenTagNode`: each hardened segment that is not null, in order. */
    method HardenSegments(ss: seq<Segment>, fuel: nat) returns (r: Result<seq<Segment>>)
      requires SafeStack(context.stack) && SafeTranslator(translator) && SafeHooks(hooks)
      requires forall i :: 0 <= i < |ss| ==> ss[i].node.Some? ==> SafeTree(ss[i].node.value)
      modifies context
      decreases fuel, 1, ss, 1
      ensures r == HardenedSegments(ss, old(context.stack), translator, hooks, fuel)
      ensures r.Ok? ==> context.stack == old(context.stack) && context.indent == old(context.indent)
    {
      ghost var stack := context.stack;
      var segs: seq<Segment> := [];
      var j := 0;
      while j < |ss|
        invariant 0 <= j <= |ss|
        invariant context.stack == old(context.stack) && context.indent == old(context.indent)
        invariant HardenedSegments(ss[..j], context.stack, translator, hooks, fuel) == Ok(segs)
      {
        var s := HardenSegment(ss[j], fuel);
        SegmentsSnoc(ss, j, stack, translator, hooks, fuel);
        if s.Err? {
          SegmentsErr(ss, j + 1, stack, translator, hooks, fuel);
          return Err(s.message);
        }
        if s.value.Some? {
          segs := segs + [s.value.value];
        }
        j := j + 1;
      }
      assert ss[..j] == ss;
      r := Ok(segs);
    }

    /** `hardenSegment(seg)`: a new text segment with the cleaned value, or the first node an inline tag hardens to. */
    method HardenSegment(s: Segment, fuel: nat) returns (r: Result<Option<Segment>>)
      requires SafeStack(context.stack) && SafeTranslator(translator) && SafeHooks(hooks)
      requires s.node.Some? ==> SafeTree(s.node.value)
      modifies context
      decreases fuel, 1, s, 0
      ensures r == HardenedSegment(s, old(context.stack), translator, hooks, fuel)
      ensures r.Ok? ==> context.stack == old(context.stack) && context.indent == old(context.indent)
    {
      match s.kind
      case Text =>
        var v := CleanString(s.value);
        r := Ok(Some(NewSegment(Text, v)));
      case Inline =>
        if s.node.None? {
          return Err("NullPointerException");
        }
        var nodes := Harden(s.node.value, fuel);
        if nodes.Err? {
          return Err(nodes.message);
        }
        if nodes.value == [] {
          return Ok(None);
        }
        r := Ok(Some(NewSegment(Inline, None).(node := Some(nodes.value[0]))));
    }

    /**
     * `render(node)`: the hardened nodes, each written in turn with
     * `writeNode`; the text written is returned.
     */
    method Render(n: Node, fuel: nat) returns (r: Result<string>)
      requires SafeStack(context.stack) && SafeTranslator(translator) && SafeHooks(hooks) && SafeTree(n)
      modifies context
      ensures r == Rendered(n, old(context.stack), old(context.indent), translator, hooks, fuel)
      ensures r.Ok? ==> context.stack == old(context.stack) && context.indent == old(context.indent)
    {
      var hard := Harden(n, fuel);
      if hard.Err? {
        return Err(hard.message);
      }
      r := WriteAll(hard.value);
    }

    /** The loop of `render`: each hard node written at the current indent. */
    method WriteAll(nodes: seq<Node>) returns (r: Result<string>)
      requires SafeStack(context.stack) && SafeTranslator(translator)
      requires forall i :: 0 <= i < |nodes| ==> SafeTree(nodes[i])
      modifies context
      ensures r == WrittenChildren(nodes, old(context.stack), old(context.indent), translator)
      ensures r.Ok? ==> context.stack == old(context.stack) && context.indent == old(context.indent)
    {
      ghost var stack, indent := context.stack, context.indent;
      var text := "";
      var i := 0;
      while i < |nodes|
        invariant 0 <= i <= |nodes|
        invariant context.stack == stack && context.indent == indent
        invariant WrittenChildren(nodes[..i], stack, indent, translator) == Ok(text)
      {
        var w := WriteNode(nodes[i]);
        WrittenChildrenSnoc(nodes, i, stack, indent, translator);
        if w.Err? {
          WrittenChildrenErr(nodes, i + 1, stack, indent, translator);
          return w;
        }
        text := text + w.value;
        i := i + 1;
      }
      assert nodes[..i] == nodes;
      r := Ok(text);
    }

    method GetIndent() returns (r: int)
      ensures r == context.indent
    {
      r := context.indent;
    }

    method SetIndent(indent: int)
      modifies context
      ensures context.indent == indent && context.stack == old(context.stack)
    {
      context.SetIndent(indent);
    }

    /** `writeIndent()`: the whitespace of the current indent. */
    method WriteIndent() returns (w: string)
      ensures w == Repeat(IndentWhitespace, context.indent)
    {
      w := context.GetIndentWhitespace(0);
    }

    /** `writeIndent(d)`: `d` levels of indent whitespace. */
    method WriteIndentBy(d: int) returns (w: string)
      ensures w == Repeat(IndentWhitespace, d)
    {
      w := [];
      var i := 0;
      while i < d
        invariant 0 <= i && (i <= d || i == 0)
        invariant w == Repeat(IndentWhitespace, i)
      {
        RepeatSnoc(IndentWhitespace, i);
        w := w + IndentWhitespace;
        i := i + 1;
      }
    }

    /** `writeString(value)`: the cleaned value, nothing when it cleans to null. */
    method WriteString(value: Option<string>) returns (w: string)
      requires SafeStack(context.stack) && SafeTranslator(translator)
      ensures w == Writing.WriteString(value, context.stack, translator)
    {
      var c := CleanString(value);
      w := if c.Some? then c.value else [];
    }

    /** `writeAttribute(att)`. */
    method WriteAttribute(a: Attribute) returns (w: string)
      requires SafeStack(context.stack) && SafeTranslator(translator)
      ensures w == AttributeOut(a, context.stack, translator)
    {
      var key := CleanString(Some(a.key));
      if key.None? || IsBlank(key.value) {
        return [];
      }
      if a.value.None? {
        var k := WriteString(key);
        w := " " + k;
      } else {
        var value := CleanString(a.value);
        if value.None? {
          return [];
        }
        var k := WriteString(key);
        var v := WriteString(value);
        w := " " + k + "=\"" + v + "\"";
      }
    }

    /** `writeTagStart(node)`: the indent unless inline, `<`, the name, `id`, `class`, the other attributes, `>`. */
    method WriteTagStart(n: Node) returns (w: string)
      requires SafeStack(context.stack) && SafeTranslator(translator)
      ensures w == TagStart(n, context.stack, context.indent, translator)
    {
      w := [];
      if !n.inline {
        w := WriteIndent();
      }
      var name := WriteString(n.tagName);
      w := w + "<" + name;
      var id := Get(n.attributes, IdKey);
      var idText := "";
      if id.Some? {
        idText := WriteAttribute(id.value);
      }
      var cls := Get(n.attributes, ClassKey);
      var clsText := "";
      if cls.Some? {
        clsText := WriteAttribute(cls.value);
      }
      var others := WriteOthers(n.attributes);
      AttributeOrder(n.attributes, context.stack, translator);
      w := w + (idText + clsText + others) + ">";
    }

    /** The loop of `writeTagStart` over every attribute but `id` and `class`, in order. */
    method WriteOthers(atts: seq<Attribute>) returns (w: string)
      requires SafeStack(context.stack) && SafeTranslator(translator)
      ensures w == AttributesOut(Others(atts), context.stack, translator)
    {
      w := [];
      var i := 0;
      while i < |atts|
        invariant 0 <= i <= |atts|
        invariant w == AttributesOut(Others(atts[..i]), context.stack, translator)
      {
        OthersStep(atts, i, context.stack, translator);
        if atts[i].key != IdKey && atts[i].key != ClassKey {
          var a := WriteAttribute(atts[i]);
          w := w + a;
        }
        i := i + 1;
      }
      assert atts[..i] == atts;
    }

    /** `writeTagEnd(node, hasChildren)`. */
    method WriteTagEnd(n: Node, hasChildren: bool) returns (w: string)
      requires SafeStack(context.stack) && SafeTranslator(translator)
      ensures w == TagEnd(n, hasChildren, context.stack, context.indent, translator)
    {
      w := [];
      if !n.inline && hasChildren {
        w := WriteIndent();
      }
      var name := WriteString(n.tagName);
      w := w + "</" + name + ">";
      if !n.inline {
        w := w + "\n";
      }
    }

    /**
     * `writeNode(node)`: the text `Written` gives. A block's scope is pushed
     * for its children and popped after.
     */
    method WriteNode(n: Node) returns (r: Result<string>)
      requires SafeStack(context.stack) && SafeTranslator(translator) && SafeTree(n)
      modifies context
      decreases n, 2
      ensures r == Written(n, old(context.stack), old(context.indent), translator)
      ensures r.Ok? ==> context.stack == old(context.stack) && context.indent == old(context.indent)
    {
      match n.kind
      case BlockNode =>
        context.Push(n.scope);
        var kids, _ := WriteChildren(n.children, context.indent);
        if kids.Err? {
          return kids;
        }
        var _ := context.Pop();
        r := kids;
      case TagNode =>
        r := WriteTag(n);
      case InsertionNode =>
        var kids, _ := WriteChildren(n.children, context.indent);
        r := kids;
      case RawTextNode =>
        if n.rawText.None? {
          return Err("NullPointerException");
        }
        var indent := WriteIndent();
        r := Ok(indent + n.rawText.value + "\n");
    }

    /** The tag case of `writeNode`. */
    method WriteTag(n: Node) returns (r: Result<string>)
      requires SafeStack(context.stack) && SafeTranslator(translator) && SafeTree(n)
      modifies context
      decreases n, 1
      ensures r == WrittenTag(n, old(context.stack), old(context.indent), translator)
      ensures r.Ok? ==> context.stack == old(context.stack) && context.indent == old(context.indent)
    {
      var start := WriteTagStart(n);
      var segs := WriteSegments(n.segments);
      if segs.Err? {
        return segs;
      }
      var rest := WriteTagRest(n);
      if rest.Err? {
        return rest;
      }
      r := Ok(start + segs.value + rest.value);
    }

    /** The children one level deeper, after a line end when there are any, then `writeTagEnd(node, childCount > 0)`. */
    method WriteTagRest(n: Node) returns (r: Result<string>)
      requires SafeStack(context.stack) && SafeTranslator(translator) && SafeTree(n)
      modifies context
      decreases n, 0
      ensures r == WrittenTagRest(n, old(context.stack), old(context.indent), translator)
      ensures r.Ok? ==> context.stack == old(context.stack) && context.indent == old(context.indent)
    {
      var kids, count := WriteChildren(n.children, context.indent + 1);
      if kids.Err? {
        return kids;
      }
      var end := WriteTagEnd(n, count > 0);
      r := Ok((if n.children != [] then "\n" else "") + kids.value + end);
    }

    /** `writeChildren(node, childIndent)`: each child at `childIndent`, the indent restored after each; the count of children. */
    method WriteChildren(cs: seq<Node>, childIndent: int) returns (r: Result<string>, count: int)
      requires SafeStack(context.stack) && SafeTranslator(translator)
      requires forall i :: 0 <= i < |cs| ==> SafeTree(cs[i])
      modifies context
      decreases cs, 1
      ensures r == WrittenChildren(cs, old(context.stack), childIndent, translator)
      ensures r.Ok? ==> count == |cs| && context.stack == old(context.stack) && context.indent == old(context.indent)
    {
      ghost var stack := context.stack;
      var text := "";
      count := 0;
      while count < |cs|
        invariant 0 <= count <= |cs|
        invariant context.stack == stack && context.indent == old(context.indent)
        invariant WrittenChildren(cs[..count], stack, childIndent, translator) == Ok(text)
      {
        var w := WriteChild(cs[count], childIndent);
        WrittenChildrenSnoc(cs, count, stack, childIndent, translator);
        if w.Err? {
          WrittenChildrenErr(cs, count + 1, stack, childIndent, translator);
          return w, count;
        }
        text := text + w.value;
        count := count + 1;
      }
      assert cs[..count] == cs;
      r := Ok(text);
    }

    /** One child of `writeChildren`: written at `childIndent`, the indent set back after. */
    method WriteChild(c: Node, childIndent: int) returns (r: Result<string>)
      requires SafeStack(context.stack) && SafeTranslator(translator) && SafeTree(c)
      modifies context
      decreases c, 3
      ensures r == Written(c, old(context.stack), childIndent, translator)
      ensures r.Ok? ==> context.stack == old(context.stack) && context.indent == old(context.indent)
    {
      var oldIndent := context.indent;
      context.SetIndent(childIndent);
      r := WriteNode(c);
      if r.Ok? {
        context.SetIndent(oldIndent);
      }
    }

    /** `writeSegments(node)`: text through `writeString`, inline segments through `writeNode`. */
    method WriteSegments(ss: seq<Segment>) returns (r: Result<string>)
      requires SafeStack(context.stack) && SafeTranslator(translator)
      requires forall i :: 0 <= i < |ss| ==> ss[i].node.Some? ==> SafeTree(ss[i].node.value)
      modifies context
      decreases ss, 1
      ensures r == WrittenSegments(ss, old(context.stack), old(context.indent), translator)
      ensures r.Ok? ==> context.stack == old(context.stack) && context.indent == old(context.indent)
    {
      ghost var stack, indent := context.stack, context.indent;
      var text := "";
      var i := 0;
      while i < |ss|
        invariant 0 <= i <= |ss|
        invariant context.stack == stack && context.indent == indent
        invariant WrittenSegments(ss[..i], stack, indent, translator) == Ok(text)
      {
        var w := WriteSegment(ss[i]);
        WrittenSegmentsSnoc(ss, i, stack, indent, translator);
        if w.Err? {
          WrittenSegmentsErr(ss, i + 1, stack, indent, translator);
          return w;
        }
        text := text + w.value;
        i := i + 1;
      }
      assert ss[..i] == ss;
      r := Ok(text);
    }

    method WriteSegment(s: Segment) returns (r: Result<string>)
      requires SafeStack(context.stack) && SafeTranslator(translator)
      requires s.node.Some? ==> SafeTree(s.node.value)
      modifies context
      decreases s, 0
      ensures r == WrittenSegment(s, old(context.stack), old(context.indent), translator)
      ensures r.Ok? ==> context.stack == old(context.stack) && context.indent == old(context.indent)
    {
      match s.kind
      case Text =>
        var w := WriteString(s.value);
        r := Ok(w);
      case Inline =>
        if s.node.None? {
          return Err("NullPointerException");
        }
        r := WriteNode(s.node.value);
    }
  }
}
