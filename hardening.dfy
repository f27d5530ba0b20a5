/**
 * What `NodeWriter.hardenNode` computes: a fresh tree in which every text
 * has been through `cleanString` against the scope in force, insertion
 * points are replaced by their contents, and a tag bound to a hook is
 * replaced by what the hook returns, hardened in turn.
 *
 * Hooks are code outside this model: `hooks(h, n)` is what hook `h` returns
 * when handed the hardened node `n` (null as `None`). A hook that hands back nothing makes the writer
 * harden the same node again, which the source repeats without bound; the
 * model follows such re-hardening for `fuel` rounds and reports an error
 * beyond that.
 */
module Hardening {
  import opened Wrappers
  import opened JavaText
  import opened Attributes
  import opened Tree
  import opened Scopes
  import opened HookBindings
  import opened ScopeContexts
  import opened Cleaning
  import opened Placeholders

  type Hooks = (HookId, Node) -> Option<Node>

  /** Every block in the tree has a scope the substitution loop can finish with. */
  predicate SafeTree(n: Node)
    decreases n
  {
    (n.kind == BlockNode ==> SafeScope(n.scope)) &&
    (forall i :: 0 <= i < |n.children| ==> SafeTree(n.children[i])) &&
    (forall i :: 0 <= i < |n.segments| ==> n.segments[i].node.Some? ==> SafeTree(n.segments[i].node.value))
  }

  /** Every hook hands back a node the renderer can clean, when it hands back one. */
  ghost predicate SafeHooks(hooks: Hooks)
  {
    forall h, n :: SafeTree(n) ==> SafeTree(Replacement(hooks, h, n))
  }

  /** A hardened tree: no insertion point anywhere, down through children and inline segments. */
  predicate IsHard(n: Node)
    decreases n
  {
    n.kind != InsertionNode && SafeTree(n) &&
    (forall i :: 0 <= i < |n.children| ==> IsHard(n.children[i])) &&
    (forall i :: 0 <= i < |n.segments| ==> n.segments[i].node.Some? ==> IsHard(n.segments[i].node.value))
  }

  predicate AllHard(ns: seq<Node>)
  {
    forall i :: 0 <= i < |ns| ==> IsHard(ns[i])
  }

  /**
   * `hardenAttributes(att)`: the key is cleaned and the attribute dropped
   * when that leaves nothing; a bare key stays bare; a value that cleans
   * to null drops the attribute; otherwise the value is the cleaned one.
   */
  function HardenAttribute(a: Attribute, stack: seq<Scope>, t: Option<Translator>): (r: Option<Attribute>)
    requires SafeStack(stack) && SafeTranslator(t)
    ensures var key := Clean(Some(a.key), stack, t);
      r.None? <==> key.None? || IsBlank(key.value) || (a.value.Some? && Clean(a.value, stack, t).None?)
    ensures r.Some? ==> Some(r.value.key) == Clean(Some(a.key), stack, t)
    ensures r.Some? ==> r.value.value == Clean(a.value, stack, t)
  {
    var key := Clean(Some(a.key), stack, t);
    if key.None? || IsBlank(key.value) then None
    else if a.value.None? then Some(Attribute(key.value, None))
    else
      var value := Clean(a.value, stack, t);
      if value.None? then None else Some(Attribute(key.value, value))
  }

  /** The attributes of a hardened tag: each hardened attribute merged in, in order, null ones skipped. */
  function HardenAttributes(atts: seq<Attribute>, stack: seq<Scope>, t: Option<Translator>): (r: seq<Attribute>)
    requires SafeStack(stack) && SafeTranslator(t)
    ensures UniqueKeys(r)
  {
    if atts == [] then []
    else
      var prev := HardenAttributes(atts[..|atts| - 1], stack, t);
      Merge(prev, HardenAttribute(atts[|atts| - 1], stack, t))
  }

  /** `addAttribute(att)` on the hardened tag: a null attribute is skipped, any other merged in. */
  function Merge(atts: seq<Attribute>, a: Option<Attribute>): (r: seq<Attribute>)
    ensures UniqueKeys(atts) ==> UniqueKeys(r)
  {
    if a.None? then atts else Attributes.AddAttribute(atts, a.value.key, a.value.value)
  }

  /** `node.getStyleClasses()`: the names in the `class` attribute (none when it is absent or bare). */
  function StyleClasses(n: Node): (r: set<string>)
    ensures forall c :: c in r <==> HasStyleClass(n.attributes, c)
  {
    var v := ValueOf(n.attributes, ClassKey);
    if v.None? then {} else set c | c in StyleTokens(v.value)
  }

  /** The bare hardened copy of a tag: name, inline flag and hardened attributes; no segments or children yet. */
  function HardTag(n: Node, stack: seq<Scope>, t: Option<Translator>): (r: Node)
    requires SafeStack(stack) && SafeTranslator(t)
    ensures r.kind == TagNode && r.tagName == n.tagName && r.inline == n.inline && r.children == [] && r.segments == []
    ensures r.attributes == HardenAttributes(n.attributes, stack, t)
  {
    NewNode(TagNode).(tagName := n.tagName, inline := n.inline, attributes := HardenAttributes(n.attributes, stack, t))
  }

  /** `hardenNode(n)`: the nodes that take `n`'s place. */
  ghost function Hardened(n: Node, stack: seq<Scope>, t: Option<Translator>, hooks: Hooks, fuel: nat): (r: Result<seq<Node>>)
    requires SafeStack(stack) && SafeTranslator(t) && SafeHooks(hooks) && SafeTree(n)
    decreases fuel, 1, n, 2
    ensures r.Ok? ==> AllHard(r.value)
  {
    match n.kind
    case BlockNode =>
      var kids := HardenedChildren(n.children, [n.scope] + stack, t, hooks, fuel);
      if kids.Err? then Err(kids.message)
      else Ok([NewNode(BlockNode).(tagName := n.tagName, scope := n.scope, children := kids.value)])
    case TagNode =>
      HardenedTag(n, stack, t, hooks, fuel)
    case InsertionNode =>
      HardenedChildren(n.children, stack, t, hooks, fuel)
    case RawTextNode =>
      Ok([NewNode(RawTextNode).(rawText := n.rawText)])
  }

  /**
   * The tag case of `hardenNode`: `hardenTagNode` (name, inline flag,
   * hardened attributes and segments), then the hardened children, then
   * the hook the innermost scope binds to the result.
   */
  ghost function HardenedTag(n: Node, stack: seq<Scope>, t: Option<Translator>, hooks: Hooks, fuel: nat): (r: Result<seq<Node>>)
    requires SafeStack(stack) && SafeTranslator(t) && SafeHooks(hooks) && SafeTree(n)
    decreases fuel, 1, n, 1
    ensures r.Ok? ==> AllHard(r.value)
  {
    var segs := HardenedSegments(n.segments, stack, t, hooks, fuel);
    var kids := HardenedChildren(n.children, stack, t, hooks, fuel);
    if segs.Err? then Err(segs.message)
    else if kids.Err? then Err(kids.message)
    else
      Hooked(HardTag(n, stack, t).(segments := segs.value, children := kids.value), stack, t, hooks, fuel)
  }

  /**
   * `scopeContext.findHook(hardNode)`: the hook of the first binding of the
   * innermost scope that accepts the tag, none when no binding does. The
   * stack must not be empty (`peek` is dereferenced), a binding is only
   * asked about a tag that has a name, and the bindings are asked through
   * `matches` as written, which throws when one of the tag's name names an
   * id and the tag has none.
   */
  ghost function HookOf(hard: Node, stack: seq<Scope>): (r: Result<Option<HookId>>)
    ensures r.Err? <==> (
      stack == [] ||
      (stack[0].bindings != [] && (hard.tagName.None? ||
        exists i :: 0 <= i < |stack[0].bindings| && NeedsId(stack[0].bindings[i], hard.tagName.value, GetId(hard)) &&
          forall j :: 0 <= j < i ==> !Accepts(stack[0].bindings[j], hard.tagName.value, GetId(hard), StyleClasses(hard)))))
    ensures r.Ok? ==> (
      stack != [] &&
      (stack[0].bindings == [] ==> r.value.None?) &&
      (stack[0].bindings != [] ==> (
        hard.tagName.Some? &&
        r.value == FirstHook(stack[0].bindings, hard.tagName.value, GetId(hard), StyleClasses(hard)))))
  {
    if stack == [] then Err("NullPointerException")
    else if stack[0].bindings == [] then Ok(None)
    else if hard.tagName.None? then Err("NullPointerException")
    else
      FirstHookAsWrittenThrows(stack[0].bindings, hard.tagName.value, GetId(hard), StyleClasses(hard));
      FirstHookAsWritten(stack[0].bindings, hard.tagName.value, GetId(hard), StyleClasses(hard))
  }

  /** A `div#x` binding in the innermost scope and a plain `<div>` being hardened: the lookup throws. */
  lemma {:induction false} HookOfWithoutIdThrows()
    ensures var b := HookBinding("div", Some("x"), {}, 0);
      HookOf(Named(TagNode, "div"), [Scope(map[], map[], [b])]).Err?
  {
    var b := HookBinding("div", Some("x"), {}, 0);
    var div := Named(TagNode, "div");
    assert div.tagName == Some("div");
    assert NeedsId([b][0], "div", GetId(div)) by {
      assert GetId(div).None?;
    }
  }

  /**
   * `findHook` and `performHook` on a hardened tag: with no hook bound to
   * it the tag stands; otherwise the hook is performed. Each hook performed
   * spends one unit of fuel.
   */
  ghost function Hooked(hard: Node, stack: seq<Scope>, t: Option<Translator>, hooks: Hooks, fuel: nat): (r: Result<seq<Node>>)
    requires SafeStack(stack) && SafeTranslator(t) && SafeHooks(hooks) && IsHard(hard)
    decreases fuel, 0
    ensures r.Ok? ==> AllHard(r.value)
  {
    var h := HookOf(hard, stack);
    if h.Err? then Err(h.message)
    else if h.value.None? then Ok([hard])
    else if fuel == 0 then Err("hook keeps re-hardening")
    else Performed(hard, h.value.value, stack, t, hooks, fuel - 1)
  }

  /**
   * `performHook`: the hook's replacement of the tag (the tag itself when
   * the hook gives nothing), hardened again.
   */
  ghost function Performed(hard: Node, hook: HookId, stack: seq<Scope>, t: Option<Translator>, hooks: Hooks, fuel: nat): (r: Result<seq<Node>>)
    requires SafeStack(stack) && SafeTranslator(t) && SafeHooks(hooks) && SafeTree(hard)
    decreases fuel, 2
    ensures r.Ok? ==> AllHard(r.value)
  {
    Hardened(Replacement(hooks, hook, hard), stack, t, hooks, fuel)
  }

  /** What `performHook` hardens again: the node the hook returns, or the tag itself when the hook returns null. */
  function Replacement(hooks: Hooks, hook: HookId, hard: Node): (r: Node)
    ensures hooks(hook, hard).None? ==> r == hard
    ensures hooks(hook, hard).Some? ==> r == hooks(hook, hard).value
  {
    var next := hooks(hook, hard);
    if next.Some? then next.value else hard
  }

  /** `hardenChildren`: the children's hardened nodes, concatenated in order. */
  ghost function HardenedChildren(cs: seq<Node>, stack: seq<Scope>, t: Option<Translator>, hooks: Hooks, fuel: nat): (r: Result<seq<Node>>)
    requires SafeStack(stack) && SafeTranslator(t) && SafeHooks(hooks)
    requires forall i :: 0 <= i < |cs| ==> SafeTree(cs[i])
    decreases fuel, 1, cs, 0
    ensures r.Ok? ==> AllHard(r.value)
  {
    if cs == [] then Ok([])
    else
      var prev := HardenedChildren(cs[..|cs| - 1], stack, t, hooks, fuel);
      var last := Hardened(cs[|cs| - 1], stack, t, hooks, fuel);
      if prev.Err? then prev
      else if last.Err? then last
      else Ok(prev.value + last.value)
  }

  /**
   * `hardenSegment`: a text segment becomes a new text segment with the
   * cleaned value; an inline segment keeps the first node its tag hardens
   * to, and disappears when there is none.
   */
  ghost function HardenedSegment(s: Segment, stack: seq<Scope>, t: Option<Translator>, hooks: Hooks, fuel: nat): (r: Result<Option<Segment>>)
    requires SafeStack(stack) && SafeTranslator(t) && SafeHooks(hooks)
    requires s.node.Some? ==> SafeTree(s.node.value)
    decreases fuel, 1, s, 0
    ensures r.Ok? && r.value.Some? ==> r.value.value.node.Some? ==> IsHard(r.value.value.node.value)
  {
    match s.kind
    case Text => Ok(Some(NewSegment(Text, Clean(s.value, stack, t))))
    case Inline =>
      if s.node.None? then Err("NullPointerException")
      else
        var nodes := Hardened(s.node.value, stack, t, hooks, fuel);
        if nodes.Err? then Err(nodes.message)
        else if nodes.value == [] then Ok(None)
        else Ok(Some(NewSegment(Inline, None).(node := Some(nodes.value[0]))))
  }

  ghost function HardenedSegments(ss: seq<Segment>, stack: seq<Scope>, t: Option<Translator>, hooks: Hooks, fuel: nat): (r: Result<seq<Segment>>)
    requires SafeStack(stack) && SafeTranslator(t) && SafeHooks(hooks)
    requires forall i :: 0 <= i < |ss| ==> ss[i].node.Some? ==> SafeTree(ss[i].node.value)
    decreases fuel, 1, ss, 1
    ensures r.Ok? ==> forall i :: 0 <= i < |r.value| ==> r.value[i].node.Some? ==> IsHard(r.value[i].node.value)
  {
    if ss == [] then Ok([])
    else
      var prev := HardenedSegments(ss[..|ss| - 1], stack, t, hooks, fuel);
      var last := HardenedSegment(ss[|ss| - 1], stack, t, hooks, fuel);
      if prev.Err? then prev
      else if last.Err? then Err(last.message)
      else if last.value.None? then prev
      else Ok(prev.value + [last.value.value])
  }

  /** An attribute hardening leaves alone: a plain, non-blank key and a plain value or none. */
  predicate PlainAttribute(a: Attribute)
  {
    Plain(a.key) && !IsBlank(a.key) && (a.value.Some? ==> Plain(a.value.value))
  }

  /** Attributes with nothing to substitute, stored under distinct keys, harden to themselves. */
  lemma {:induction false} HardenAttributesPlain(atts: seq<Attribute>, stack: seq<Scope>, t: Option<Translator>)
    requires SafeStack(stack) && SafeTranslator(t)
    requires UniqueKeys(atts) && forall i :: 0 <= i < |atts| ==> PlainAttribute(atts[i])
    ensures HardenAttributes(atts, stack, t) == atts
    decreases |atts|
  {
    if atts != [] {
      var init := atts[..|atts| - 1];
      var a := atts[|atts| - 1];
      HardenAttributesPlain(init, stack, t);
      HardenPlain(a, stack, t);
      LastFresh(atts);
      AppendNew(init, a);
      LastSplit(atts);
    }
  }

  lemma {:induction false} LastSplit<T>(s: seq<T>)
    requires s != []
    ensures s[..|s| - 1] + [s[|s| - 1]] == s
  {
  }

  lemma {:induction false} HardenPlain(a: Attribute, stack: seq<Scope>, t: Option<Translator>)
    requires SafeStack(stack) && SafeTranslator(t) && PlainAttribute(a)
    ensures HardenAttribute(a, stack, t) == Some(a)
  {
    CleanPlain(a.key, stack, t);
    if a.value.Some? {
      CleanPlain(a.value.value, stack, t);
    }
  }

  lemma {:induction false} LastFresh(atts: seq<Attribute>)
    requires atts != [] && UniqueKeys(atts)
    ensures UniqueKeys(atts[..|atts| - 1]) && atts[|atts| - 1].key !in Keys(atts[..|atts| - 1])
  {
    var init := atts[..|atts| - 1];
    forall i | 0 <= i < |init| ensures Keys(init)[i] != atts[|atts| - 1].key {
      assert init[i] == atts[i];
    }
  }

  lemma {:induction false} AppendNew(atts: seq<Attribute>, a: Attribute)
    requires a.key !in Keys(atts)
    ensures Attributes.AddAttribute(atts, a.key, a.value) == atts + [a]
  {
    assert IndexOfKey(atts, a.key) == -1;
  }

  /**
   * A tree hardening only copies: no insertion point, attributes and texts
   * with nothing to substitute, every inline segment holding its tag, and
   * no hook binding in any block it opens.
   */
  predicate Static(n: Node)
    decreases n
  {
    n.kind != InsertionNode &&
    (n.kind == BlockNode ==> n.scope.bindings == []) &&
    (n.kind == TagNode ==> UniqueKeys(n.attributes) && forall i :: 0 <= i < |n.attributes| ==> PlainAttribute(n.attributes[i])) &&
    (forall i :: 0 <= i < |n.children| ==> Static(n.children[i])) &&
    (n.kind == TagNode ==> forall i :: 0 <= i < |n.segments| ==> StaticSegment(n.segments[i]))
  }

  predicate StaticSegment(s: Segment)
    decreases s
  {
    match s.kind
    case Text => s.value.Some? ==> Plain(s.value.value)
    case Inline => s.node.Some? && Static(s.node.value)
  }

  /**
   * The copy `hardenNode` makes of such a tree: a block keeps its name and
   * scope, a tag its name, inline flag, attributes and segments, raw text
   * its text; children are copied in order and nothing else is kept.
   */
  function Copy(n: Node): (r: Node)
    decreases n, 1
    ensures r.kind == n.kind
  {
    match n.kind
    case BlockNode => NewNode(BlockNode).(tagName := n.tagName, scope := n.scope, children := CopyAll(n.children))
    case TagNode =>
      NewNode(TagNode).(tagName := n.tagName, inline := n.inline, attributes := n.attributes,
        segments := CopySegments(n.segments), children := CopyAll(n.children))
    case InsertionNode => n
    case RawTextNode => NewNode(RawTextNode).(rawText := n.rawText)
  }

  function CopyAll(cs: seq<Node>): (r: seq<Node>)
    decreases cs, 0
    ensures |r| == |cs|
  {
    if cs == [] then [] else CopyAll(cs[..|cs| - 1]) + [Copy(cs[|cs| - 1])]
  }

  function CopySegments(ss: seq<Segment>): (r: seq<Segment>)
    decreases ss, 1
    ensures |r| == |ss|
  {
    if ss == [] then []
    else
      var s := ss[|ss| - 1];
      CopySegments(ss[..|ss| - 1]) +
        [CopySegment(s)]
  }

  function CopySegment(s: Segment): (r: Segment)
    decreases s, 0
    ensures r.kind == s.kind
  {
    if s.kind == Text || s.node.None? then NewSegment(s.kind, s.value) else NewSegment(Inline, None).(node := Some(Copy(s.node.value)))
  }

  /**
   * With no hook bound in the scope in force, a static tree hardens to
   * exactly one node, its copy: nothing is substituted, dropped or replaced.
   */
  lemma {:induction false} HardenedStatic(n: Node, stack: seq<Scope>, t: Option<Translator>, hooks: Hooks, fuel: nat)
    requires SafeStack(stack) && SafeTranslator(t) && SafeHooks(hooks) && SafeTree(n)
    requires Static(n) && stack != [] && stack[0].bindings == []
    ensures Hardened(n, stack, t, hooks, fuel) == Ok([Copy(n)])
    decreases n, 1
  {
    match n.kind
    case BlockNode =>
      ChildrenStatic(n.children, [n.scope] + stack, t, hooks, fuel);
    case TagNode =>
      TagStatic(n, stack, t, hooks, fuel);
    case RawTextNode =>
  }

  lemma {:induction false} TagStatic(n: Node, stack: seq<Scope>, t: Option<Translator>, hooks: Hooks, fuel: nat)
    requires SafeStack(stack) && SafeTranslator(t) && SafeHooks(hooks) && SafeTree(n)
    requires Static(n) && n.kind == TagNode && stack != [] && stack[0].bindings == []
    ensures HardenedTag(n, stack, t, hooks, fuel) == Ok([Copy(n)])
    decreases n, 0
  {
    SegmentsStatic(n.segments, stack, t, hooks, fuel);
    ChildrenStatic(n.children, stack, t, hooks, fuel);
    HardenAttributesPlain(n.attributes, stack, t);
    var hard := HardTag(n, stack, t).(segments := CopySegments(n.segments), children := CopyAll(n.children));
    assert hard == Copy(n);
    assert HookOf(hard, stack) == Ok(None);
  }

  lemma {:induction false} ChildrenStatic(cs: seq<Node>, stack: seq<Scope>, t: Option<Translator>, hooks: Hooks, fuel: nat)
    requires SafeStack(stack) && SafeTranslator(t) && SafeHooks(hooks)
    requires forall i :: 0 <= i < |cs| ==> SafeTree(cs[i]) && Static(cs[i])
    requires stack != [] && stack[0].bindings == []
    ensures HardenedChildren(cs, stack, t, hooks, fuel) == Ok(CopyAll(cs))
    decreases cs, 0
  {
    if cs != [] {
      ChildrenStatic(cs[..|cs| - 1], stack, t, hooks, fuel);
      HardenedStatic(cs[|cs| - 1], stack, t, hooks, fuel);
    }
  }

  lemma {:induction false} SegmentsStatic(ss: seq<Segment>, stack: seq<Scope>, t: Option<Translator>, hooks: Hooks, fuel: nat)
    requires SafeStack(stack) && SafeTranslator(t) && SafeHooks(hooks)
    requires forall i :: 0 <= i < |ss| ==> ss[i].node.Some? ==> SafeTree(ss[i].node.value)
    requires forall i :: 0 <= i < |ss| ==> StaticSegment(ss[i])
    requires stack != [] && stack[0].bindings == []
    ensures HardenedSegments(ss, stack, t, hooks, fuel) == Ok(CopySegments(ss))
    decreases ss, 1
  {
    if ss != [] {
      SegmentsStatic(ss[..|ss| - 1], stack, t, hooks, fuel);
      SegmentStatic(ss[|ss| - 1], stack, t, hooks, fuel);
    }
  }

  lemma {:induction false} SegmentStatic(s: Segment, stack: seq<Scope>, t: Option<Translator>, hooks: Hooks, fuel: nat)
    requires SafeStack(stack) && SafeTranslator(t) && SafeHooks(hooks)
    requires s.node.Some? ==> SafeTree(s.node.value)
    requires StaticSegment(s) && stack != [] && stack[0].bindings == []
    ensures HardenedSegment(s, stack, t, hooks, fuel) == Ok(Some(CopySegment(s)))
    decreases s, 0
  {
    match s.kind
    case Text =>
      if s.value.Some? {
        CleanPlain(s.value.value, stack, t);
      }
    case Inline =>
      HardenedStatic(s.node.value, stack, t, hooks, fuel);
  }

  /** Hardening stops at the first child that throws: the outcome of a prefix that threw is the outcome of the whole. */
  lemma {:induction false} ChildrenErr(cs: seq<Node>, k: int, stack: seq<Scope>, t: Option<Translator>, hooks: Hooks, fuel: nat)
    requires SafeStack(stack) && SafeTranslator(t) && SafeHooks(hooks)
    requires forall i :: 0 <= i < |cs| ==> SafeTree(cs[i])
    requires 0 <= k <= |cs| && HardenedChildren(cs[..k], stack, t, hooks, fuel).Err?
    ensures HardenedChildren(cs, stack, t, hooks, fuel) == HardenedChildren(cs[..k], stack, t, hooks, fuel)
    decreases |cs|
  {
    if k < |cs| {
      assert cs[..|cs| - 1][..k] == cs[..k];
      ChildrenErr(cs[..|cs| - 1], k, stack, t, hooks, fuel);
    } else {
      assert cs[..k] == cs;
    }
  }

  lemma {:induction false} SegmentsErr(ss: seq<Segment>, k: int, stack: seq<Scope>, t: Option<Translator>, hooks: Hooks, fuel: nat)
    requires SafeStack(stack) && SafeTranslator(t) && SafeHooks(hooks)
    requires forall i :: 0 <= i < |ss| ==> ss[i].node.Some? ==> SafeTree(ss[i].node.value)
    requires 0 <= k <= |ss| && HardenedSegments(ss[..k], stack, t, hooks, fuel).Err?
    ensures HardenedSegments(ss, stack, t, hooks, fuel) == HardenedSegments(ss[..k], stack, t, hooks, fuel)
    decreases |ss|
  {
    if k < |ss| {
      assert ss[..|ss| - 1][..k] == ss[..k];
      SegmentsErr(ss[..|ss| - 1], k, stack, t, hooks, fuel);
    } else {
      assert ss[..k] == ss;
    }
  }

  // One more element of a prefix, as the loops of the writer take them.

  lemma {:induction false} AttributesSnoc(atts: seq<Attribute>, i: int, stack: seq<Scope>, t: Option<Translator>)
    requires SafeStack(stack) && SafeTranslator(t) && 0 <= i < |atts|
    ensures HardenAttributes(atts[..i + 1], stack, t) == Merge(HardenAttributes(atts[..i], stack, t), HardenAttribute(atts[i], stack, t))
  {
    assert atts[..i + 1][..i] == atts[..i];
  }

  lemma {:induction false} ChildrenSnoc(cs: seq<Node>, i: int, stack: seq<Scope>, t: Option<Translator>, hooks: Hooks, fuel: nat)
    requires SafeStack(stack) && SafeTranslator(t) && SafeHooks(hooks)
    requires forall j :: 0 <= j < |cs| ==> SafeTree(cs[j])
    requires 0 <= i < |cs| && HardenedChildren(cs[..i], stack, t, hooks, fuel).Ok?
    ensures var last := Hardened(cs[i], stack, t, hooks, fuel);
      HardenedChildren(cs[..i + 1], stack, t, hooks, fuel) ==
        if last.Err? then last else Ok(HardenedChildren(cs[..i], stack, t, hooks, fuel).value + last.value)
  {
    assert cs[..i + 1][..i] == cs[..i];
  }

  lemma {:induction false} SegmentsSnoc(ss: seq<Segment>, i: int, stack: seq<Scope>, t: Option<Translator>, hooks: Hooks, fuel: nat)
    requires SafeStack(stack) && SafeTranslator(t) && SafeHooks(hooks)
    requires forall j :: 0 <= j < |ss| ==> ss[j].node.Some? ==> SafeTree(ss[j].node.value)
    requires 0 <= i < |ss| && HardenedSegments(ss[..i], stack, t, hooks, fuel).Ok?
    ensures var last := HardenedSegment(ss[i], stack, t, hooks, fuel);
      HardenedSegments(ss[..i + 1], stack, t, hooks, fuel) ==
        if last.Err? then Err(last.message)
        else if last.value.None? then HardenedSegments(ss[..i], stack, t, hooks, fuel)
        else Ok(HardenedSegments(ss[..i], stack, t, hooks, fuel).value + [last.value.value])
  {
    assert ss[..i + 1][..i] == ss[..i];
  }
}
