// One line of a Nipper style sheet, and the arena of lines a block keeps:
// a line's parent and children are positions in that arena.

module NipperLines {
  import opened Wrappers

  /** The kinds of line; a line has none until the reader types it. */
  datatype LineType = Comment | Include | VariableDeclaration | AtRule | Selector | Property | Continuation | Wrapper

  /**
   * An `NLine`. `parent` and `children` are positions in the arena of the
   * block that holds the line; absent strings are Java's null.
   */
  datatype NLine = NLine(
    kind: Option<LineType>,
    parent: Option<nat>,
    row: int,
    spaces: int,
    indent: int,
    content: Option<string>,
    name: Option<string>,
    value: Option<string>,
    comment: Option<string>,
    children: seq<nat>)

  /** `new NLine(row, spaces, content, comment)`: untyped, parentless, childless. */
  function NewLine(row: int, spaces: int, content: Option<string>, comment: Option<string>): (r: NLine)
    ensures r.row == row && r.spaces == spaces && r.content == content && r.comment == comment
    ensures r.children == [] && r.parent.None? && r.kind.None?
    ensures r.name.None? && r.value.None? && r.indent == 0
  {
    NLine(None, None, row, spaces, 0, content, None, None, comment, [])
  }

  /**
   * The arena is linked: a parent comes before its child, and the children
   * of a line come after it.
   */
  predicate Linked(lines: seq<NLine>)
  {
    (forall i :: 0 <= i < |lines| && lines[i].parent.Some? ==> lines[i].parent.value < i) &&
    forall i, k :: 0 <= i < |lines| && 0 <= k < |lines[i].children| ==> i < lines[i].children[k] < |lines|
  }

  /** Every position of `list` is after `lo` and inside the arena. */
  predicate After(lines: seq<NLine>, lo: int, list: seq<nat>)
  {
    forall k :: 0 <= k < |list| ==> lo <= list[k] < |lines|
  }

  /** `parent.addChild(child)`: the child goes last among the parent's children and points back to it. */
  function AddChild(lines: seq<NLine>, parent: nat, child: nat): (r: seq<NLine>)
    requires parent < child < |lines|
    ensures |r| == |lines|
    ensures r[parent] == lines[parent].(children := lines[parent].children + [child])
    ensures r[child] == lines[child].(parent := Some(parent))
    ensures forall k :: 0 <= k < |lines| && k != parent && k != child ==> r[k] == lines[k]
  {
    lines[parent := lines[parent].(children := lines[parent].children + [child])][child := lines[child].(parent := Some(parent))]
  }

  /** Adding a later line as child keeps the arena linked. */
  lemma {:induction false} AddChildLinked(lines: seq<NLine>, parent: nat, child: nat)
    requires Linked(lines) && parent < child < |lines|
    ensures Linked(AddChild(lines, parent, child))
  {
    var r := AddChild(lines, parent, child);
    forall i, k | 0 <= i < |r| && 0 <= k < |r[i].children|
      ensures i < r[i].children[k] < |r|
    {
      if i == parent && k == |lines[parent].children| {
        assert r[i].children[k] == child;
      } else {
        assert r[i].children[k] == lines[i].children[k];
      }
    }
  }

  /** `hasChildren()`. */
  predicate HasChildren(line: NLine)
  {
    line.children != []
  }

  /** `getChildren(type)`: the children of line `i` that have type `t`, in order. */
  function ChildrenOfType(lines: seq<NLine>, children: seq<nat>, t: LineType): (r: seq<nat>)
    requires forall k :: 0 <= k < |children| ==> children[k] < |lines|
    ensures |r| <= |children|
    ensures forall c :: c in r <==> c in children && lines[c].kind == Some(t)
    ensures forall k :: 0 <= k < |r| ==> r[k] < |lines| && lines[r[k]].kind == Some(t)
  {
    if children == [] then []
    else
      var init := ChildrenOfType(lines, children[..|children| - 1], t);
      var last := children[|children| - 1];
      assert forall c :: c in children <==> c in children[..|children| - 1] || c == last;
      if lines[last].kind == Some(t) then init + [last] else init
  }

  /** Positions in strictly increasing order. */
  predicate Ascending(s: seq<nat>)
  {
    forall a, b :: 0 <= a < b < |s| ==> s[a] < s[b]
  }

  /** The children of one type keep the order they have among all the children. */
  lemma {:induction false} ChildrenOfTypeOrdered(lines: seq<NLine>, children: seq<nat>, t: LineType)
    requires forall k :: 0 <= k < |children| ==> children[k] < |lines|
    requires Ascending(children)
    ensures Ascending(ChildrenOfType(lines, children, t))
  {
    if children != [] {
      var init := children[..|children| - 1];
      ChildrenOfTypeOrdered(lines, init, t);
      var r0 := ChildrenOfType(lines, init, t);
      var last := children[|children| - 1];
      var r := ChildrenOfType(lines, children, t);
      if lines[last].kind == Some(t) {
        assert r == r0 + [last];
        forall k | 0 <= k < |r0|
          ensures r0[k] < last
        {
          assert r0[k] in init;
          var a :| 0 <= a < |init| && init[a] == r0[k];
          assert children[a] == r0[k];
        }
      } else {
        assert r == r0;
      }
    }
  }

  /** The children of a line in a linked arena come after it. */
  lemma {:induction false} ChildrenAfter(lines: seq<NLine>, i: nat, t: LineType)
    requires Linked(lines) && i < |lines|
    ensures After(lines, i + 1, ChildrenOfType(lines, lines[i].children, t))
  {
    var children := lines[i].children;
    var r := ChildrenOfType(lines, children, t);
    forall k | 0 <= k < |r|
      ensures i + 1 <= r[k] < |lines|
    {
      assert r[k] in children;
      var j :| 0 <= j < |children| && children[j] == r[k];
    }
  }

  /** One more child: it is kept when it has the type. */
  lemma {:induction false} ChildrenOfTypeSnoc(lines: seq<NLine>, children: seq<nat>, k: nat, t: LineType)
    requires forall j :: 0 <= j < |children| ==> children[j] < |lines|
    requires k < |children|
    ensures ChildrenOfType(lines, children[..k + 1], t) ==
      ChildrenOfType(lines, children[..k], t) + (if lines[children[k]].kind == Some(t) then [children[k]] else [])
  {
    assert children[..k + 1][..k] == children[..k];
  }

  /** `getChildren(type)` as written: a loop that collects the matching children. */
  method GetChildren(lines: seq<NLine>, i: nat, t: LineType) returns (list: seq<nat>)
    requires Linked(lines) && i < |lines|
    ensures list == ChildrenOfType(lines, lines[i].children, t)
    ensures After(lines, i + 1, list)
  {
    var children := lines[i].children;
    assert forall j :: 0 <= j < |children| ==> children[j] < |lines|;
    list := [];
    for k := 0 to |children|
      invariant list == ChildrenOfType(lines, children[..k], t)
    {
      ChildrenOfTypeSnoc(lines, children, k, t);
      if lines[children[k]].kind == Some(t) {
        list := list + [children[k]];
      }
    }
    assert children[..|children|] == children;
    ChildrenAfter(lines, i, t);
  }

  /** Lines that share an arena keep their children in arena order when each was added after the last. */
  predicate ChildrenAscending(lines: seq<NLine>)
  {
    forall i, a, b :: 0 <= i < |lines| && 0 <= a < b < |lines[i].children| ==> lines[i].children[a] < lines[i].children[b]
  }

  /** Adding a child after all the others keeps every child list ascending. */
  lemma {:induction false} AddChildAscending(lines: seq<NLine>, parent: nat, child: nat)
    requires Linked(lines) && ChildrenAscending(lines) && parent < child < |lines|
    requires forall k :: 0 <= k < |lines[parent].children| ==> lines[parent].children[k] < child
    ensures ChildrenAscending(AddChild(lines, parent, child))
  {
    var r := AddChild(lines, parent, child);
    forall i, a, b | 0 <= i < |r| && 0 <= a < b < |r[i].children|
      ensures r[i].children[a] < r[i].children[b]
    {
      if i == parent && b == |lines[parent].children| {
        assert r[i].children[a] == lines[parent].children[a];
      } else {
        assert r[i].children == lines[i].children || (i == parent && b < |lines[parent].children|);
        assert r[i].children[a] == lines[i].children[a] && r[i].children[b] == lines[i].children[b];
      }
    }
  }
}
