/**
 * Filling insertion points and searching the tree. TagNode and Block run the
 * same loops over their children (a block's `nodes`), so each operation is
 * written once over a list of children.
 */
module TreeSearch {
  import opened Wrappers
  import opened Attributes
  import opened Tree

  /** An insertion point named `name` (`name.equals(insertionNode.getName())`). */
  predicate IsPoint(c: Node, name: string)
  {
    c.kind == InsertionNode && c.tagName == Some(name)
  }

  /**
   * The children after `insert(name, x)`: a tag child is filled recursively,
   * a matching insertion point gets `x` as its last child, anything else is
   * left alone (insertion points are not searched inside).
   */
  function Inserted(cs: seq<Node>, name: string, x: Node): (r: seq<Node>)
    decreases cs
    ensures |r| == |cs|
    ensures forall i :: 0 <= i < |cs| ==> r[i] == InsertedOne(cs[i], name, x)
  {
    if cs == [] then []
    else Inserted(cs[..|cs| - 1], name, x) + [InsertedOne(cs[|cs| - 1], name, x)]
  }

  function InsertedOne(c: Node, name: string, x: Node): (r: Node)
    decreases c
  {
    if c.kind == TagNode then c.(children := Inserted(c.children, name, x))
    else if IsPoint(c, name) then Tree.AddChild(c, x)
    else c
  }

  /** The insertion points named `name` reachable through tag children. */
  function Points(cs: seq<Node>, name: string): nat
    decreases cs
  {
    if cs == [] then 0 else Points(cs[..|cs| - 1], name) + PointsOne(cs[|cs| - 1], name)
  }

  function PointsOne(c: Node, name: string): nat
    decreases c
  {
    if c.kind == TagNode then Points(c.children, name) else if IsPoint(c, name) then 1 else 0
  }

  /**
   * `TagNode.insert(name, x)` and `Block.insert(name, x)` over the children:
   * the filled children, and the number of insertion points that received `x`.
   */
  method Insert(cs: seq<Node>, name: string, x: Node) returns (r: seq<Node>, count: nat)
    decreases cs
    ensures r == Inserted(cs, name, x)
    ensures count == Points(cs, name)
  {
    r := [];
    count := 0;
    var i := 0;
    while i < |cs|
      invariant 0 <= i <= |cs|
      invariant r == Inserted(cs[..i], name, x)
      invariant count == Points(cs[..i], name)
    {
      assert cs[..i + 1][..i] == cs[..i];
      var c := cs[i];
      if c.kind == TagNode {
        var sub, k := Insert(c.children, name, x);
        c := c.(children := sub);
        count := count + k;
      } else if IsPoint(c, name) {
        c := Tree.AddChild(c, x);
        count := count + 1;
      }
      r := r + [c];
      i := i + 1;
    }
    assert cs[..i] == cs;
  }

  /** Undoes one insertion: each reachable matching point loses its last child. */
  function Uninserted(cs: seq<Node>, name: string): (r: seq<Node>)
    decreases cs
    ensures |r| == |cs|
  {
    if cs == [] then []
    else Uninserted(cs[..|cs| - 1], name) + [UninsertedOne(cs[|cs| - 1], name)]
  }

  function UninsertedOne(c: Node, name: string): Node
    decreases c
  {
    if c.kind == TagNode then c.(children := Uninserted(c.children, name))
    else if IsPoint(c, name) && c.children != [] then c.(children := c.children[..|c.children| - 1])
    else c
  }

  /** Removing what `insert` added gives back the children as they were. */
  lemma {:induction false} UninsertInsert(cs: seq<Node>, name: string, x: Node)
    decreases cs
    ensures Uninserted(Inserted(cs, name, x), name) == cs
  {
    if cs != [] {
      var init, last := cs[..|cs| - 1], cs[|cs| - 1];
      var ins := Inserted(cs, name, x);
      assert ins[..|ins| - 1] == Inserted(init, name, x);
      calc {
        Uninserted(ins, name);
        Uninserted(Inserted(init, name, x), name) + [UninsertedOne(InsertedOne(last, name, x), name)];
        { UninsertInsert(init, name, x); UninsertInsertOne(last, name, x); }
        init + [last];
        cs;
      }
    }
  }

  lemma {:induction false} UninsertInsertOne(c: Node, name: string, x: Node)
    decreases c
    ensures UninsertedOne(InsertedOne(c, name, x), name) == c
  {
    if c.kind == TagNode {
      UninsertInsert(c.children, name, x);
    } else if IsPoint(c, name) {
      assert (c.children + [x])[..|c.children|] == c.children;
    }
  }

  /** Filling never creates or removes insertion points. */
  lemma {:induction false} InsertKeepsPoints(cs: seq<Node>, name: string, x: Node)
    decreases cs
    ensures Points(Inserted(cs, name, x), name) == Points(cs, name)
  {
    if cs != [] {
      var init, last := cs[..|cs| - 1], cs[|cs| - 1];
      InsertKeepsPoints(init, name, x);
      var ins := Inserted(cs, name, x);
      assert ins[..|ins| - 1] == Inserted(init, name, x);
      if last.kind == TagNode {
        InsertKeepsPoints(last.children, name, x);
      }
    }
  }

  /** A matching insertion point at the top level ends with `x` after the fill. */
  lemma {:induction false} RootPointFilled(cs: seq<Node>, name: string, x: Node, i: int)
    requires 0 <= i < |cs| && IsPoint(cs[i], name)
    ensures Inserted(cs, name, x)[i].children == cs[i].children + [x]
    ensures IsPoint(Inserted(cs, name, x)[i], name)
  {
  }

  /**
   * Five inserts of five fresh clones into a block with one top-level
   * insertion point give that point five children, in insertion order.
   */
  lemma {:induction false} FiveInserts(item: Node)
    ensures var b := [Named(InsertionNode, "x")];
      var c := Clone(item);
      var five := Inserted(Inserted(Inserted(Inserted(Inserted(b, "x", c), "x", c), "x", c), "x", c), "x", c);
      |five| == 1 && five[0].children == [c, c, c, c, c] && Points(b, "x") == 1
  {
    var p := Named(InsertionNode, "x");
    var c := Clone(item);
    var p1 := Tree.AddChild(p, c);
    var p2 := Tree.AddChild(p1, c);
    var p3 := Tree.AddChild(p2, c);
    var p4 := Tree.AddChild(p3, c);
    var p5 := Tree.AddChild(p4, c);
    OnePoint(p, "x", c);
    OnePoint(p1, "x", c);
    OnePoint(p2, "x", c);
    OnePoint(p3, "x", c);
    OnePoint(p4, "x", c);
    assert p5.children == [c, c, c, c, c];
    assert [p][..0] == [];
  }

  /** A lone insertion point named `name` just gains `x`. */
  lemma {:induction false} OnePoint(p: Node, name: string, x: Node)
    requires IsPoint(p, name)
    ensures Inserted([p], name, x) == [Tree.AddChild(p, x)]
    ensures IsPoint(Tree.AddChild(p, x), name)
  {
    assert [p][..0] == [];
  }

  /**
   * `getFirstElement()` of a tag or a block: the first child that is a tag,
   * or null.
   */
  method FirstElement(cs: seq<Node>) returns (r: Option<Node>)
    ensures r.None? <==> forall i :: 0 <= i < |cs| ==> cs[i].kind != TagNode
    ensures r.Some? ==> exists i :: 0 <= i < |cs| && cs[i] == r.value && r.value.kind == TagNode && forall j :: 0 <= j < i ==> cs[j].kind != TagNode
  {
    var i := 0;
    while i < |cs|
      invariant 0 <= i <= |cs|
      invariant forall j :: 0 <= j < i ==> cs[j].kind != TagNode
    {
      if cs[i].kind == TagNode {
        return Some(cs[i]);
      }
      i := i + 1;
    }
    return None;
  }

  /** The first node of `ts` satisfying `p`. */
  function First(ts: seq<Node>, p: Node -> bool): Option<Node>
  {
    if ts == [] then None else if p(ts[0]) then Some(ts[0]) else First(ts[1..], p)
  }

  /** `First` picks the earliest node satisfying `p`, and is null only when none does. */
  lemma {:induction false} FirstSpec(ts: seq<Node>, p: Node -> bool)
    ensures First(ts, p).None? <==> forall i :: 0 <= i < |ts| ==> !p(ts[i])
    ensures First(ts, p).Some? ==> exists i :: 0 <= i < |ts| && ts[i] == First(ts, p).value && p(ts[i]) && forall j :: 0 <= j < i ==> !p(ts[j])
  {
    if ts != [] && !p(ts[0]) {
      FirstSpec(ts[1..], p);
      var r := First(ts[1..], p);
      assert forall i :: 1 <= i < |ts| ==> ts[i] == ts[1..][i - 1];
      if r.Some? {
        var i :| 0 <= i < |ts[1..]| && ts[1..][i] == r.value && p(ts[1..][i]) && forall j :: 0 <= j < i ==> !p(ts[1..][j]);
        assert ts[i + 1] == r.value;
        forall j | 0 <= j < i + 1 ensures !p(ts[j]) { if j > 0 { assert ts[j] == ts[1..][j - 1]; } }
      }
    }
  }

  lemma {:induction false} FirstConcat(a: seq<Node>, b: seq<Node>, p: Node -> bool)
    ensures First(a + b, p) == if First(a, p).Some? then First(a, p) else First(b, p)
  {
    if a != [] {
      FirstConcat(a[1..], b, p);
      assert (a + b)[1..] == a[1..] + b;
    } else {
      assert a + b == b;
    }
  }

  /** The tags in pre-order, descending through tag children only. */
  function Tags(cs: seq<Node>): seq<Node>
    decreases cs
  {
    if cs == [] then [] else Tags(cs[..|cs| - 1]) + TagsOne(cs[|cs| - 1])
  }

  function TagsOne(c: Node): seq<Node>
    decreases c
  {
    if c.kind == TagNode then [c] + Tags(c.children) else []
  }

  lemma {:induction false} TagsAppend(a: seq<Node>, b: seq<Node>)
    decreases b
    ensures Tags(a + b) == Tags(a) + Tags(b)
  {
    if b != [] {
      TagsAppend(a, b[..|b| - 1]);
      assert (a + b)[..|a + b| - 1] == a + b[..|b| - 1];
    } else {
      assert a + b == a;
    }
  }

  /** No match among the first i children nor in child i: none among the first i + 1. */
  lemma {:induction false} TagsNone(cs: seq<Node>, i: int, p: Node -> bool)
    requires 0 <= i < |cs| && First(Tags(cs[..i]), p).None? && First(TagsOne(cs[i]), p).None?
    ensures First(Tags(cs[..i + 1]), p).None?
  {
    assert cs[..i + 1][..i] == cs[..i];
    FirstConcat(Tags(cs[..i]), TagsOne(cs[i]), p);
  }

  /** No match among the first i children, one in child i: that is the first match of all. */
  lemma {:induction false} TagsFound(cs: seq<Node>, i: int, p: Node -> bool)
    requires 0 <= i < |cs| && First(Tags(cs[..i]), p).None? && First(TagsOne(cs[i]), p).Some?
    ensures First(Tags(cs), p) == First(TagsOne(cs[i]), p)
  {
    var a, b := cs[..i + 1], cs[i + 1..];
    assert a[..i] == cs[..i] && a[i] == cs[i];
    var pre, one := Tags(cs[..i]), TagsOne(cs[i]);
    assert Tags(a) == pre + one;
    FirstConcat(pre, one, p);
    assert a + b == cs;
    TagsAppend(a, b);
    FirstConcat(Tags(a), Tags(b), p);
  }


  /** Has `c` among its classes. */
  function WithClass(c: string): Node -> bool
  {
    (t: Node) => HasStyleClass(t.attributes, c)
  }

  /**
   * `findFirstElementByClass(c)` of a tag or a block: the first tag, in
   * pre-order over tag children, having class `c`; null when there is none.
   * The class test is the corrected `hasStyleClass` (a null class value has
   * no classes).
   */
  method FindFirstElementByClass(cs: seq<Node>, c: string) returns (r: Option<Node>)
    decreases cs
    ensures r == First(Tags(cs), WithClass(c))
  {
    var i := 0;
    while i < |cs|
      invariant 0 <= i <= |cs|
      invariant First(Tags(cs[..i]), WithClass(c)).None?
    {
      var e := cs[i];
      if e.kind == TagNode {
        assert First(TagsOne(e), WithClass(c)) == if HasStyleClass(e.attributes, c) then Some(e) else First(Tags(e.children), WithClass(c)) by {
          assert ([e] + Tags(e.children))[1..] == Tags(e.children);
        }
        if HasStyleClass(e.attributes, c) {
          TagsFound(cs, i, WithClass(c));
          return Some(e);
        }
        var sub := FindFirstElementByClass(e.children, c);
        if sub.Some? {
          TagsFound(cs, i, WithClass(c));
          return sub;
        }
      }
      TagsNone(cs, i, WithClass(c));
      i := i + 1;
    }
    assert cs[..i] == cs;
    return None;
  }

  /** A `class` attribute holding null: the tags at which `hasStyleClass` as written throws. */
  predicate BareClass(t: Node)
  {
    ClassKey in Keys(t.attributes) && ValueOf(t.attributes, ClassKey).None?
  }

  /** The tags at which the class scan as written stops: a match, or a bare `class`. */
  function EndsClassScan(c: string): Node -> bool
  {
    (t: Node) => HasStyleClass(t.attributes, c) || BareClass(t)
  }

  /**
   * `findFirstElementByClass(c)` as written, over the tags in pre-order: each
   * is asked `hasStyleClass(c)` as written, so the first tag visited with a
   * bare `class` throws a NullPointerException unless a match came before it.
   * Where it returns, it returns what the corrected search does.
   */
  function FindFirstElementByClassAsWritten(ts: seq<Node>, c: string): (r: Result<Option<Node>>)
    ensures r.Err? <==> First(ts, EndsClassScan(c)).Some? && BareClass(First(ts, EndsClassScan(c)).value)
    ensures r.Ok? ==> r.value == First(ts, WithClass(c))
  {
    if ts == [] then Ok(None)
    else
      match HasStyleClassAsWritten(ts[0].attributes, c)
      case Err(m) => Err(m)
      case Ok(b) => if b then Ok(Some(ts[0])) else FindFirstElementByClassAsWritten(ts[1..], c)
  }

  /** Children `div class` (no value) then `span class="x"`: the search for `x` as written throws, though the span has it. */
  lemma {:induction false} FindFirstElementByClassThrows()
    ensures var bare := Tree.AddAttribute(Named(TagNode, "div"), ClassKey, None);
      var span := Tree.AddAttribute(Named(TagNode, "span"), ClassKey, Some("x"));
      FindFirstElementByClassAsWritten(Tags([bare, span]), "x").Err? &&
      First(Tags([bare, span]), WithClass("x")) == Some(span)
  {
    var bare := Tree.AddAttribute(Named(TagNode, "div"), ClassKey, None);
    var span := Tree.AddAttribute(Named(TagNode, "span"), ClassKey, Some("x"));
    assert bare.attributes == [Attribute(ClassKey, None)];
    assert span.attributes == [Attribute(ClassKey, Some("x"))];
    assert BareClass(bare) && !HasStyleClass(bare.attributes, "x");
    assert "x" in StyleTokens("x");
    assert HasStyleClass(span.attributes, "x");
    assert [bare, span][..1] == [bare];
    assert Tags([bare]) == [bare] by {
      assert [bare][..0] == [];
    }
    assert Tags([bare, span]) == [bare, span];
  }

  /** The tags in pre-order, descending through tag and insertion children. */
  function Elements(cs: seq<Node>): seq<Node>
    decreases cs
  {
    if cs == [] then [] else Elements(cs[..|cs| - 1]) + ElementsOne(cs[|cs| - 1])
  }

  function ElementsOne(c: Node): seq<Node>
    decreases c
  {
    if c.kind == TagNode then [c] + Elements(c.children)
    else if c.kind == InsertionNode then Elements(c.children)
    else []
  }

  lemma {:induction false} ElementsAppend(a: seq<Node>, b: seq<Node>)
    decreases b
    ensures Elements(a + b) == Elements(a) + Elements(b)
  {
    if b != [] {
      ElementsAppend(a, b[..|b| - 1]);
      assert (a + b)[..|a + b| - 1] == a + b[..|b| - 1];
    } else {
      assert a + b == a;
    }
  }

  /** How the search meets one child. */
  lemma {:induction false} ElementsOneFirst(e: Node, id: string)
    ensures First(ElementsOne(e), WithId(id)) ==
      if e.kind == TagNode && GetId(e) == Some(id) then Some(e)
      else if e.kind == TagNode || e.kind == InsertionNode then First(Elements(e.children), WithId(id))
      else None
  {
    if e.kind == TagNode {
      assert ([e] + Elements(e.children))[1..] == Elements(e.children);
    }
  }

  lemma {:induction false} ElementsNone(cs: seq<Node>, i: int, p: Node -> bool)
    requires 0 <= i < |cs| && First(Elements(cs[..i]), p).None? && First(ElementsOne(cs[i]), p).None?
    ensures First(Elements(cs[..i + 1]), p).None?
  {
    assert cs[..i + 1][..i] == cs[..i];
    FirstConcat(Elements(cs[..i]), ElementsOne(cs[i]), p);
  }

  /** No match among the first i children, one in child i: that is the first match of all. */
  lemma {:induction false} ElementsFound(cs: seq<Node>, i: int, p: Node -> bool)
    requires 0 <= i < |cs| && First(Elements(cs[..i]), p).None? && First(ElementsOne(cs[i]), p).Some?
    ensures First(Elements(cs), p) == First(ElementsOne(cs[i]), p)
  {
    var a, b := cs[..i + 1], cs[i + 1..];
    assert a[..i] == cs[..i] && a[i] == cs[i];
    var pre, one := Elements(cs[..i]), ElementsOne(cs[i]);
    assert Elements(a) == pre + one;
    FirstConcat(pre, one, p);
    assert a + b == cs;
    ElementsAppend(a, b);
    FirstConcat(Elements(a), Elements(b), p);
  }


  /** Carries the id `id`. */
  function WithId(id: string): Node -> bool
  {
    (t: Node) => GetId(t) == Some(id)
  }

  /**
   * `Block.findByElementId(id)` as written: the tags are visited in
   * pre-order and each is compared with `id.equals(element.getId().toString())`,
   * which throws a NullPointerException on the first tag visited that has no
   * id, unless a match came before it.
   */
  function FindByElementIdAsWritten(ts: seq<Node>, id: string): (r: Result<Option<Node>>)
    ensures r.Err? <==> First(ts, EndsScan(id)).Some? && GetId(First(ts, EndsScan(id)).value).None?
    ensures r.Ok? ==> r.value == First(ts, WithId(id))
  {
    if ts == [] then Ok(None)
    else if GetId(ts[0]).None? then Err("NullPointerException")
    else if GetId(ts[0]) == Some(id) then Ok(Some(ts[0]))
    else FindByElementIdAsWritten(ts[1..], id)
  }

  /** The tags at which the scan as written stops: a match, or a tag without an id. */
  function EndsScan(id: string): Node -> bool
  {
    (t: Node) => GetId(t).None? || GetId(t) == Some(id)
  }

  /** A block whose first tag has no id makes the method as written throw, though a later tag matches. */
  lemma {:induction false} FindByElementIdThrows()
    ensures var plain := Named(TagNode, "div");
      var target := Tree.AddAttribute(Named(TagNode, "div"), IdKey, Some("x"));
      FindByElementIdAsWritten(Elements([plain, target]), "x").Err? &&
      First(Elements([plain, target]), WithId("x")) == Some(target)
  {
    var plain := Named(TagNode, "div");
    var target := Tree.AddAttribute(Named(TagNode, "div"), IdKey, Some("x"));
    assert target.attributes == [Attribute(IdKey, Some("x"))];
    assert GetId(target) == Some("x");
    assert GetId(plain).None?;
    assert [plain, target][..1] == [plain];
    assert Elements([plain]) == [plain] by {
      assert [plain][..0] == [];
    }
    assert Elements([plain, target]) == [plain, target];
  }

  /**
   * `Block.findByElementId(id)`, corrected to skip tags without an id: the
   * first tag in pre-order, through tag and insertion children, whose id is
   * `id`; null when there is none.
   */
  method FindByElementId(cs: seq<Node>, id: string) returns (r: Option<Node>)
    decreases cs
    ensures r == First(Elements(cs), WithId(id))
  {
    var i := 0;
    while i < |cs|
      invariant 0 <= i <= |cs|
      invariant First(Elements(cs[..i]), WithId(id)).None?
    {
      var e := cs[i];
      ElementsOneFirst(e, id);
      if e.kind == TagNode {
        if GetId(e) == Some(id) {
          ElementsFound(cs, i, WithId(id));
          return Some(e);
        }
      }
      if e.kind == TagNode || e.kind == InsertionNode {
        var sub := FindByElementId(e.children, id);
        if sub.Some? {
          ElementsFound(cs, i, WithId(id));
          return sub;
        }
      }
      ElementsNone(cs, i, WithId(id));
      i := i + 1;
    }
    assert cs[..i] == cs;
    return None;
  }

  /** Where the method as written returns normally, it agrees with the corrected search. */
  lemma {:induction false} FindByElementIdAgrees(cs: seq<Node>, id: string)
    ensures FindByElementIdAsWritten(Elements(cs), id).Ok? ==>
      FindByElementIdAsWritten(Elements(cs), id).value == First(Elements(cs), WithId(id))
  {
  }
}
