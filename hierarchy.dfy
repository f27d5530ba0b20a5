/**
 * The hierarchy pass of the template parser (TuckerParser.buildHierarchy):
 * once every line of a block is lexed, the flat list of the block's nodes is
 * turned into a tree from the nodes' indents.
 *
 * The pass first gives every node a depth, keeping the indent last seen at
 * each depth; then it gives every node a parent, the latest tag node seen
 * one depth up, or makes it a root. The model records each node's parent as
 * an index into the flat list and assembles the tree from those indices, in
 * the order in which the source appends children.
 */
module Hierarchy {
  import opened Wrappers
  import opened Tree

  // ------------------------------------------------------------------ depths

  /** The depth pass's variables: the current depth and the `map` from depth to the indent last seen there. */
  datatype DepthState = DepthState(depth: nat, recorded: map<nat, int>)

  const Fresh := DepthState(0, map[])

  /** Every depth up to the current one has a recorded indent (once anything is recorded). */
  predicate Valid(s: DepthState)
  {
    (s.recorded == map[] ==> s.depth == 0) &&
    (s.recorded != map[] ==> forall d :: 0 <= d <= s.depth ==> d in s.recorded)
  }

  /** The inner loop of the pass: step up while the indent is less than the one recorded, never above depth 0. */
  function PopTo(recorded: map<nat, int>, depth: nat, indent: int): (d: nat)
    requires forall k :: 0 <= k <= depth ==> k in recorded
    ensures d <= depth
    ensures d == 0 || indent >= recorded[d]
    ensures forall k :: d < k <= depth ==> indent < recorded[k]
  {
    if depth > 0 && indent < recorded[depth] then PopTo(recorded, depth - 1, indent) else depth
  }

  /** One node of the depth pass: the first node is at depth 0, then the indent is compared with the one recorded at the current depth. */
  function DepthStep(s: DepthState, indent: int): (r: DepthState)
    requires Valid(s)
    ensures Valid(r) && r.recorded != map[] && r.depth in r.recorded && r.recorded[r.depth] == indent
  {
    if s.recorded == map[] then DepthState(s.depth, map[s.depth := indent])
    else if indent == s.recorded[s.depth] then s
    else if indent > s.recorded[s.depth] then DepthState(s.depth + 1, s.recorded[s.depth + 1 := indent])
    else
      var d := PopTo(s.recorded, s.depth, indent);
      DepthState(d, s.recorded[d := indent])
  }

  /** The depth pass's variables after the nodes with indents `indents`. */
  function After(indents: seq<int>): (s: DepthState)
    ensures Valid(s)
    ensures indents == [] ==> s == Fresh
    ensures indents != [] ==> s.recorded != map[] && s.depth in s.recorded && s.recorded[s.depth] == indents[|indents| - 1]
  {
    if indents == [] then Fresh else DepthStep(After(indents[..|indents| - 1]), indents[|indents| - 1])
  }

  /** The depth the pass gives each node. */
  function Depths(indents: seq<int>): (r: seq<nat>)
    ensures |r| == |indents|
  {
    seq(|indents|, i requires 0 <= i < |indents| => After(indents[..i + 1]).depth)
  }

  /** The indents of the block's nodes. */
  function Indents(nodes: seq<Node>): (r: seq<int>)
    ensures |r| == |nodes| && forall i :: 0 <= i < |nodes| ==> r[i] == nodes[i].indent
  {
    seq(|nodes|, i requires 0 <= i < |nodes| => nodes[i].indent)
  }

  // ----------------------------------------------------------------- parents

  /**
   * The parent of node `j`, looked for among the nodes before `i`: the
   * latest tag node one depth up, or none.
   */
  function ParentAmong(nodes: seq<Node>, depths: seq<nat>, j: nat, i: nat): (r: Option<nat>)
    requires |depths| == |nodes| && j < |nodes| && i <= j
    ensures r.Some? ==> r.value < i && nodes[r.value].kind == TagNode && depths[r.value] + 1 == depths[j]
    ensures r.Some? ==> forall k :: r.value < k < i ==> !(nodes[k].kind == TagNode && depths[k] + 1 == depths[j])
    ensures r.None? ==> forall k :: 0 <= k < i ==> !(nodes[k].kind == TagNode && depths[k] + 1 == depths[j])
    decreases i
  {
    if i == 0 then None
    else if nodes[i - 1].kind == TagNode && depths[i - 1] + 1 == depths[j] then Some(i - 1)
    else ParentAmong(nodes, depths, j, i - 1)
  }

  /** The parent of every node. */
  function Parents(nodes: seq<Node>, depths: seq<nat>): (r: seq<Option<nat>>)
    requires |depths| == |nodes|
    ensures |r| == |nodes| && forall j :: 0 <= j < |nodes| ==> r[j] == ParentAmong(nodes, depths, j, j)
  {
    seq(|nodes|, j requires 0 <= j < |nodes| => ParentAmong(nodes, depths, j, j))
  }

  /** Every parent comes before its child. */
  predicate ParentsBefore(parents: seq<Option<nat>>)
  {
    forall c :: 0 <= c < |parents| && parents[c].Some? ==> parents[c].value < c
  }

  /** The `parents` map of the source after the nodes before `i`: for each depth, the latest tag node there. */
  function LastTags(nodes: seq<Node>, depths: seq<nat>, i: nat): map<int, nat>
    requires |depths| == |nodes| && i <= |nodes|
  {
    if i == 0 then map[]
    else if nodes[i - 1].kind == TagNode then LastTags(nodes, depths, i - 1)[depths[i - 1] := i - 1]
    else LastTags(nodes, depths, i - 1)
  }

  /** `parents.get(key)`. */
  function Lookup(m: map<int, nat>, key: int): Option<nat>
  {
    if key in m then Some(m[key]) else None
  }

  /** The indices below `to` whose parent is `p`, in increasing order. */
  function Members(parents: seq<Option<nat>>, p: Option<nat>, to: nat): (r: seq<nat>)
    requires to <= |parents|
    ensures forall k :: 0 <= k < |r| ==> r[k] < to && parents[r[k]] == p
    ensures forall c :: 0 <= c < to && parents[c] == p ==> c in r
    ensures forall k, l :: 0 <= k < l < |r| ==> r[k] < r[l]
  {
    if to == 0 then []
    else Members(parents, p, to - 1) + (if parents[to - 1] == p then [to - 1] else [])
  }

  // ------------------------------------------------------------------- tree

  /** Node `j` with the trees of its children appended to its children, in order. */
  function Build(nodes: seq<Node>, parents: seq<Option<nat>>, j: nat): Node
    requires |parents| == |nodes| && j < |nodes| && ParentsBefore(parents)
    decreases |nodes| - j
  {
    var kids := Members(parents, Some(j), |nodes|);
    nodes[j].(children := nodes[j].children + seq(|kids|, k requires 0 <= k < |kids| => Build(nodes, parents, kids[k])))
  }

  /** The trees of the roots, in order. */
  function Forest(nodes: seq<Node>, parents: seq<Option<nat>>): (r: seq<Node>)
    requires |parents| == |nodes| && ParentsBefore(parents)
  {
    var roots := Members(parents, None, |nodes|);
    seq(|roots|, k requires 0 <= k < |roots| => Build(nodes, parents, roots[k]))
  }

  /** `buildHierarchy(block)`: the block's children become the trees of the roots. */
  function Arranged(block: Node): (r: Node)
    ensures r.kind == block.kind && r.tagName == block.tagName && r.vars == block.vars
  {
    var nodes := block.children;
    var parents := Parents(nodes, Depths(Indents(nodes)));
    block.(children := Forest(nodes, parents))
  }

  /** The first pass of `buildHierarchy`: the depth of every node. */
  method AssignDepths(nodes: seq<Node>) returns (depths: seq<nat>)
    ensures depths == Depths(Indents(nodes))
  {
    ghost var indents := Indents(nodes);
    depths := [];
    var recorded: map<nat, int> := map[];
    var depth: nat := 0;
    for i := 0 to |nodes|
      invariant DepthState(depth, recorded) == After(indents[..i])
      invariant depths == Depths(indents[..i])
    {
      PrefixStep(indents, i);
      depth, recorded := PlaceDepth(depth, recorded, nodes[i].indent);
      DepthsSnoc(indents, i);
      depths := depths + [depth];
    }
    assert indents[..|nodes|] == indents;
  }

  /** The body of the first pass for one node: where its indent puts it, and the indent recorded there. */
  method PlaceDepth(depth0: nat, recorded0: map<nat, int>, indent: int) returns (depth: nat, recorded: map<nat, int>)
    requires Valid(DepthState(depth0, recorded0))
    ensures DepthState(depth, recorded) == DepthStep(DepthState(depth0, recorded0), indent)
  {
    depth, recorded := depth0, recorded0;
    if recorded == map[] {
      recorded := recorded[depth := indent];
    } else if indent == recorded[depth] {
    } else if indent > recorded[depth] {
      depth := depth + 1;
      recorded := recorded[depth := indent];
    } else {
      while depth > 0 && indent < recorded[depth]
        invariant depth <= depth0
        invariant PopTo(recorded, depth, indent) == PopTo(recorded0, depth0, indent)
      {
        depth := depth - 1;
      }
      recorded := recorded[depth := indent];
    }
  }

  /** The second pass of `buildHierarchy`: the parent of every node, and the roots in order. */
  method AssignParents(nodes: seq<Node>, depths: seq<nat>) returns (links: seq<Option<nat>>, roots: seq<nat>)
    requires |depths| == |nodes|
    ensures links == Parents(nodes, depths) && roots == Members(links, None, |nodes|)
  {
    var parents: map<int, nat> := map[];
    links, roots := [], [];
    ghost var all := Parents(nodes, depths);
    for j := 0 to |nodes|
      invariant parents == LastTags(nodes, depths, j)
      invariant links == all[..j]
      invariant roots == Members(all, None, j)
    {
      var d := depths[j];
      var parent := Lookup(parents, d as int - 1);
      ParentsSnoc(nodes, depths, j);
      RootsSnoc(all, j);
      links := links + [parent];
      if parent.None? {
        roots := roots + [j];
      }
      if nodes[j].kind == TagNode {
        parents := parents[d := j];
      }
    }
    assert all[..|nodes|] == all;
  }

  /** The roots among one more node: the earlier roots, then the node if it has no parent. */
  lemma {:induction false} RootsSnoc(parents: seq<Option<nat>>, j: nat)
    requires j < |parents|
    ensures Members(parents, None, j + 1) == Members(parents, None, j) + (if parents[j].None? then [j] else [])
  {
  }

  /** The parents of one more node: the earlier ones, then the latest tag one depth up. */
  lemma {:induction false} ParentsSnoc(nodes: seq<Node>, depths: seq<nat>, j: nat)
    requires |depths| == |nodes| && j < |nodes|
    ensures var all := Parents(nodes, depths);
      all[j] == Lookup(LastTags(nodes, depths, j), depths[j] as int - 1) && all[..j + 1] == all[..j] + [all[j]]
  {
    var all := Parents(nodes, depths);
    ParentIsLastTag(nodes, depths, j, j);
    assert all[..j + 1] == all[..j] + [all[j]];
  }

  /** `buildHierarchy(block)`: the two passes, then the block's children replaced by the trees of the roots. */
  method BuildHierarchy(block: Node) returns (r: Node)
    ensures r == Arranged(block)
  {
    var nodes := block.children;
    var depths := AssignDepths(nodes);
    var links, roots := AssignParents(nodes, depths);
    r := block.(children := seq(|roots|, k requires 0 <= k < |roots| => Build(nodes, links, roots[k])));
  }

  /** The depths of one more node: the earlier depths, then the depth after it. */
  lemma {:induction false} DepthsSnoc(indents: seq<int>, i: nat)
    requires i < |indents|
    ensures Depths(indents[..i + 1]) == Depths(indents[..i]) + [After(indents[..i + 1]).depth]
  {
    var a := Depths(indents[..i + 1]);
    var b := Depths(indents[..i]) + [After(indents[..i + 1]).depth];
    forall k | 0 <= k < i + 1
      ensures a[k] == b[k]
    {
      assert a[k] == After(indents[..i + 1][..k + 1]).depth;
      if k < i {
        assert indents[..i + 1][..k + 1] == indents[..i][..k + 1];
        assert b[k] == Depths(indents[..i])[k] == After(indents[..i][..k + 1]).depth;
      } else {
        assert indents[..i + 1][..k + 1] == indents[..i + 1];
      }
    }
  }

  /** The source's lookup of `parents` at depth − 1 finds the node `ParentAmong` describes. */
  lemma {:induction false} ParentIsLastTag(nodes: seq<Node>, depths: seq<nat>, j: nat, i: nat)
    requires |depths| == |nodes| && j < |nodes| && i <= j
    ensures ParentAmong(nodes, depths, j, i) == Lookup(LastTags(nodes, depths, i), depths[j] as int - 1)
    decreases i
  {
    if i > 0 {
      ParentIsLastTag(nodes, depths, j, i - 1);
    }
  }

  // ------------------------------------------------------------ properties

  /** The first node is at depth 0, however far it is indented. */
  lemma {:induction false} FirstAtTop(indents: seq<int>)
    requires indents != []
    ensures Depths(indents)[0] == 0
  {
    assert indents[..1][..0] == [];
  }

  /**
   * From one node to the next: the same indent keeps the depth, a deeper
   * indent goes exactly one level down, a shallower one goes up at least
   * one level or stays at the top.
   */
  lemma {:induction false} NextDepth(indents: seq<int>, i: nat)
    requires 0 < i < |indents|
    ensures indents[i] == indents[i - 1] ==> Depths(indents)[i] == Depths(indents)[i - 1]
    ensures indents[i] > indents[i - 1] ==> Depths(indents)[i] == Depths(indents)[i - 1] + 1
    ensures indents[i] < indents[i - 1] ==> Depths(indents)[i] < Depths(indents)[i - 1] || Depths(indents)[i] == 0
  {
    var s := After(indents[..i]);
    assert indents[..i + 1][..i] == indents[..i];
    assert indents[..i][..|indents[..i]| - 1 + 1] == indents[..i];
    assert After(indents[..i + 1]) == DepthStep(s, indents[i]);
    assert s.recorded[s.depth] == indents[i - 1];
    if indents[i] < indents[i - 1] && s.depth > 0 {
      assert PopTo(s.recorded, s.depth, indents[i]) == PopTo(s.recorded, s.depth - 1, indents[i]);
    }
  }

  /** Depth never grows by more than one level from a node to the next. */
  lemma {:induction false} OneLevelAtATime(indents: seq<int>, i: nat)
    requires 0 < i < |indents|
    ensures Depths(indents)[i] <= Depths(indents)[i - 1] + 1
  {
    NextDepth(indents, i);
  }

  /** The pass over one more node is one more step. */
  lemma {:induction false} PrefixStep(indents: seq<int>, k: nat)
    requires k < |indents|
    ensures After(indents[..k + 1]) == DepthStep(After(indents[..k]), indents[k])
  {
    assert indents[..k + 1][..k] == indents[..k];
  }

  /** The pass over indents 0, 2, 2, 4, 2, 0, prefix by prefix. */
  lemma {:induction false} WorkedPass(s: seq<int>)
    requires |s| == 6 && s[0] == 0 && s[1] == 2 && s[2] == 2 && s[3] == 4 && s[4] == 2 && s[5] == 0
    ensures After(s[..1]).depth == 0 && After(s[..2]).depth == 1 && After(s[..3]).depth == 1
    ensures After(s[..4]).depth == 2 && After(s[..5]).depth == 1 && After(s[..6]).depth == 0
  {
    WorkedOpening(s);
    WorkedClosing(s);
  }

  /** The first three nodes: 0 goes to depth 0, 2 one deeper, 2 again stays. */
  lemma {:induction false} WorkedOpening(s: seq<int>)
    requires |s| == 6 && s[0] == 0 && s[1] == 2 && s[2] == 2
    ensures After(s[..1]).depth == 0 && After(s[..2]).depth == 1
    ensures After(s[..3]) == DepthState(1, map[0 := 0, 1 := 2])
  {
    assert After(s[..0]) == Fresh;
    PrefixStep(s, 0);
    assert After(s[..1]) == DepthState(0, map[0 := 0]);
    PrefixStep(s, 1);
    assert After(s[..2]) == DepthState(1, map[0 := 0, 1 := 2]);
    PrefixStep(s, 2);
  }

  /** The last three nodes: 4 one deeper, then 2 and 0 step back up. */
  lemma {:induction false} WorkedClosing(s: seq<int>)
    requires |s| == 6 && s[3] == 4 && s[4] == 2 && s[5] == 0
    requires After(s[..3]) == DepthState(1, map[0 := 0, 1 := 2])
    ensures After(s[..4]).depth == 2 && After(s[..5]).depth == 1 && After(s[..6]).depth == 0
  {
    PrefixStep(s, 3);
    WorkedSteps();
    PrefixStep(s, 4);
    PrefixStep(s, 5);
  }

  /** The depth steps of the last three nodes, on the recorded indents 0, 2, 4. */
  lemma {:induction false} WorkedSteps()
    ensures Valid(DepthState(1, map[0 := 0, 1 := 2])) && Valid(DepthState(2, map[0 := 0, 1 := 2, 2 := 4]))
    ensures DepthStep(DepthState(1, map[0 := 0, 1 := 2]), 4) == DepthState(2, map[0 := 0, 1 := 2, 2 := 4])
    ensures DepthStep(DepthState(2, map[0 := 0, 1 := 2, 2 := 4]), 2) == DepthState(1, map[0 := 0, 1 := 2, 2 := 4])
    ensures DepthStep(DepthState(1, map[0 := 0, 1 := 2, 2 := 4]), 0).depth == 0
  {
    var m3 := map[0 := 0, 1 := 2, 2 := 4];
    forall d | 0 <= d <= 2
      ensures d in m3 && (d <= 1 ==> d in map[0 := 0, 1 := 2])
    {
      assert d == 0 || d == 1 || d == 2;
    }
    assert PopTo(m3, 2, 2) == PopTo(m3, 1, 2) == 1;
    assert PopTo(m3, 1, 0) == PopTo(m3, 0, 0) == 0;
  }

  /** Indents 0, 2, 2, 4, 2, 0 give depths 0, 1, 1, 2, 1, 0. */
  lemma {:induction false} WorkedDepths(s: seq<int>)
    requires s == [0, 2, 2, 4, 2, 0]
    ensures Depths(s) == [0, 1, 1, 2, 1, 0]
  {
    WorkedPass(s);
    DepthOf(s, 0);
    DepthOf(s, 1);
    DepthOf(s, 2);
    DepthOf(s, 3);
    DepthOf(s, 4);
    DepthOf(s, 5);
    SixDepths(Depths(s));
  }

  /** The depth of node `k` is the depth after the nodes up to it. */
  lemma {:induction false} DepthOf(indents: seq<int>, k: nat)
    requires k < |indents|
    ensures Depths(indents)[k] == After(indents[..k + 1]).depth
  {
  }

  lemma {:induction false} SixDepths(d: seq<nat>)
    requires |d| == 6 && d[0] == 0 && d[1] == 1 && d[2] == 1 && d[3] == 2 && d[4] == 1 && d[5] == 0
    ensures d == [0, 1, 1, 2, 1, 0]
  {
  }

  /** Every node is placed exactly once: among the children of its parent (or the roots) and nowhere else. */
  lemma {:induction false} PlacedOnce(parents: seq<Option<nat>>, c: nat)
    requires c < |parents|
    ensures c in Members(parents, parents[c], |parents|)
    ensures forall p :: p != parents[c] ==> c !in Members(parents, p, |parents|)
  {
  }
}
