// A Nipper block: the arena of lines read from a style sheet and the
// variables it declares, kept in declaration order, with the substitution of
// `$name` and `$(name)` in printed values.

module NipperBlocks {
  import opened Wrappers
  import opened JavaText
  import opened NipperLines

  // ------------------------------------------------------------ variables

  /** A `LinkedHashMap<String, String>`: entries in insertion order, one per key. */
  type Vars = seq<(string, string)>

  function Keys(vars: Vars): (r: seq<string>)
    ensures |r| == |vars| && forall k :: 0 <= k < |vars| ==> r[k] == vars[k].0
  {
    seq(|vars|, k requires 0 <= k < |vars| => vars[k].0)
  }

  predicate UniqueKeys(vars: Vars)
  {
    forall a, b :: 0 <= a < b < |vars| ==> vars[a].0 != vars[b].0
  }

  /** `get(key)`. */
  function Lookup(vars: Vars, key: string): (r: Option<string>)
    ensures r.None? <==> key !in Keys(vars)
    ensures r.Some? ==> exists k :: 0 <= k < |vars| && vars[k] == (key, r.value)
  {
    if vars == [] then None
    else if vars[|vars| - 1].0 == key then Some(vars[|vars| - 1].1)
    else Lookup(vars[..|vars| - 1], key)
  }

  /** `put(key, value)`: a present key keeps its place and takes the new value; a new key goes last. */
  function Put(vars: Vars, key: string, value: string): (r: Vars)
    ensures key in Keys(vars) ==> |r| == |vars| && forall k :: 0 <= k < |vars| ==> r[k] == (if vars[k].0 == key then (key, value) else vars[k])
    ensures key !in Keys(vars) ==> r == vars + [(key, value)]
  {
    if key in Keys(vars) then seq(|vars|, k requires 0 <= k < |vars| => if vars[k].0 == key then (key, value) else vars[k])
    else vars + [(key, value)]
  }

  /** Entries rewritten in place for one key: every other key reads back as before. */
  lemma {:induction false} LookupRewritten(vars: Vars, r: Vars, key: string, other: string)
    requires |r| == |vars| && other != key
    requires forall k :: 0 <= k < |vars| ==> r[k].0 == vars[k].0 && (vars[k].0 != key ==> r[k] == vars[k])
    ensures Lookup(r, other) == Lookup(vars, other)
    decreases |vars|
  {
    if vars != [] {
      LookupRewritten(vars[..|vars| - 1], r[..|r| - 1], key, other);
    }
  }

  /** When every entry of the key holds the value, the key reads back the value. */
  lemma {:induction false} LookupAllValue(r: Vars, key: string, value: string)
    requires key in Keys(r)
    requires forall k :: 0 <= k < |r| && r[k].0 == key ==> r[k].1 == value
    ensures Lookup(r, key) == Some(value)
    decreases |r|
  {
    if r[|r| - 1].0 != key {
      var init := r[..|r| - 1];
      var j :| 0 <= j < |r| && Keys(r)[j] == key;
      assert Keys(init)[j] == key;
      LookupAllValue(init, key, value);
    }
  }

  /** After `put`, the key reads back the value, the other keys are as they were, and keys stay unique. */
  lemma {:induction false} PutThenLookup(vars: Vars, key: string, value: string, other: string)
    requires UniqueKeys(vars)
    ensures UniqueKeys(Put(vars, key, value))
    ensures Lookup(Put(vars, key, value), key) == Some(value)
    ensures other != key ==> Lookup(Put(vars, key, value), other) == Lookup(vars, other)
  {
    var r := Put(vars, key, value);
    if key in Keys(vars) {
      var j :| 0 <= j < |vars| && Keys(vars)[j] == key;
      assert Keys(r)[j] == key;
      LookupAllValue(r, key, value);
      if other != key {
        LookupRewritten(vars, r, key, other);
      }
    } else {
      assert r[..|vars|] == vars;
      forall a, b | 0 <= a < b < |r|
        ensures r[a].0 != r[b].0
      {
        if b == |vars| {
          assert Keys(vars)[a] == vars[a].0;
        }
      }
    }
  }

  /** Putting a sequence of entries keeps the keys unique. */
  lemma {:induction false} PutAllUnique(vars: Vars, other: Vars)
    requires UniqueKeys(vars)
    ensures UniqueKeys(PutAll(vars, other))
    decreases |other|
  {
    if other != [] {
      PutThenLookup(vars, other[0].0, other[0].1, other[0].0);
      PutAllUnique(Put(vars, other[0].0, other[0].1), other[1..]);
    }
  }

  /** `putAll` in the order of `other`, as `addBlock` copies the variables. */
  function PutAll(vars: Vars, other: Vars): (r: Vars)
    decreases |other|
  {
    if other == [] then vars else PutAll(Put(vars, other[0].0, other[0].1), other[1..])
  }

  /** Putting an entry the variables already hold changes nothing. */
  lemma {:induction false} PutPresent(vars: Vars, key: string, value: string)
    requires UniqueKeys(vars) && (key, value) in vars
    ensures Put(vars, key, value) == vars
  {
    var i :| 0 <= i < |vars| && vars[i] == (key, value);
    assert Keys(vars)[i] == key;
    var r := Put(vars, key, value);
    assert forall k :: 0 <= k < |vars| ==> r[k] == vars[k];
  }

  /** Putting entries the variables already hold, in any order, changes nothing: a map put into itself. */
  lemma {:induction false} PutAllPresent(vars: Vars, entries: Vars)
    requires UniqueKeys(vars) && forall k :: 0 <= k < |entries| ==> entries[k] in vars
    decreases |entries|
    ensures PutAll(vars, entries) == vars
  {
    if entries != [] {
      PutPresent(vars, entries[0].0, entries[0].1);
      assert forall k :: 0 <= k < |entries[1..]| ==> entries[1..][k] == entries[k + 1];
      PutAllPresent(vars, entries[1..]);
    }
  }

  // --------------------------------------------------------- substitution

  /** A piece of a value being substituted: literal text, or the text of a variable and its value. */
  datatype Fragment = Fragment(text: string, value: Option<string>)

  /** `Fragment.toString`. */
  function Shown(f: Fragment): string
  {
    if f.value.Some? then f.value.value else f.text
  }

  /** The source text the fragments cover. */
  function Texts(frags: seq<Fragment>): string
  {
    if frags == [] then [] else Texts(frags[..|frags| - 1]) + frags[|frags| - 1].text
  }

  /** The printed text: each fragment shown in turn. */
  function Joined(frags: seq<Fragment>): string
  {
    if frags == [] then [] else Joined(frags[..|frags| - 1]) + Shown(frags[|frags| - 1])
  }

  /**
   * `fragment(string, key, value)`: the first occurrence of `key` becomes a
   * substituted fragment when it ends the text or is followed by a space, and
   * the rest is fragmented the same way; when it is followed by anything
   * else, the whole text stays literal.
   */
  function FragmentsOf(s: string, key: string, value: string): (r: seq<Fragment>)
    requires key != []
    ensures r != []
    decreases |s|
  {
    var i := IndexOf(s, key, 0);
    if i < 0 then [Fragment(s, None)]
    else
      var after := i + |key|;
      var before := if i > 0 then [Fragment(s[..i], None)] else [];
      if after >= |s| then before + [Fragment(s[i..after], Some(value))]
      else if s[after] == ' ' then before + [Fragment(s[i..after], Some(value))] + FragmentsOf(s[after..], key, value)
      else [Fragment(s, None)]
  }

  /** What one pass makes of one fragment: a literal one is fragmented, a substituted one kept. */
  function Piece(f: Fragment, key: string, value: string): (r: seq<Fragment>)
    requires key != []
    ensures Texts(r) == f.text
  {
    if f.value.Some? then
      TextsSnoc([], f);
      [f]
    else
      FragmentsCover(f.text, key, value);
      FragmentsOf(f.text, key, value)
  }

  /** One pass of one name over the fragments. */
  function Pass(frags: seq<Fragment>, key: string, value: string): seq<Fragment>
    requires key != []
  {
    if frags == [] then []
    else Pass(frags[..|frags| - 1], key, value) + Piece(frags[|frags| - 1], key, value)
  }

  /** The two spellings of a variable, `$name` and `$(name)`. */
  function Spellings(name: string): (r: seq<string>)
    ensures |r| == 2 && r[0] == "$" + name && r[1] == "$(" + name + ")"
    ensures forall k :: 0 <= k < 2 ==> r[k] != [] && r[k][0] == '$'
  {
    ["$" + name, "$(" + name + ")"]
  }

  /** Every variable in declaration order, each in both spellings. */
  function Passes(frags: seq<Fragment>, vars: Vars): seq<Fragment>
    decreases |vars|
  {
    if vars == [] then frags
    else
      var names := Spellings(vars[0].0);
      Passes(Pass(Pass(frags, names[0], vars[0].1), names[1], vars[0].1), vars[1..])
  }

  /** `substituteVariables(string)`. */
  function Substitution(vars: Vars, s: string): string
  {
    Joined(Passes([Fragment(s, None)], vars))
  }

  // ------------------------------------------------------------ properties

  lemma {:induction false} TextsSnoc(frags: seq<Fragment>, f: Fragment)
    ensures Texts(frags + [f]) == Texts(frags) + f.text
  {
    assert (frags + [f])[..|frags|] == frags;
  }

  lemma {:induction false} TextsConcat(a: seq<Fragment>, b: seq<Fragment>)
    ensures Texts(a + b) == Texts(a) + Texts(b)
    decreases |b|
  {
    if b == [] {
      assert a + b == a;
    } else {
      var init := b[..|b| - 1];
      assert a + b == (a + init) + [b[|b| - 1]];
      TextsSnoc(a + init, b[|b| - 1]);
      TextsConcat(a, init);
      TextsSnoc(init, b[|b| - 1]);
    }
  }

  lemma {:induction false} JoinedConcat(a: seq<Fragment>, b: seq<Fragment>)
    ensures Joined(a + b) == Joined(a) + Joined(b)
    decreases |b|
  {
    if b == [] {
      assert a + b == a;
    } else {
      var init, x := b[..|b| - 1], Shown(b[|b| - 1]);
      JoinedUnfold(a, b);
      JoinedConcat(a, init);
      assert Joined(b) == Joined(init) + x;
      StringAssoc(Joined(a), Joined(init), x);
    }
  }

  lemma {:induction false} StringAssoc(p: string, q: string, r: string)
    ensures (p + q) + r == p + (q + r)
  {
  }

  /** The last fragment of `a + b` is the last of `b`. */
  lemma {:induction false} JoinedUnfold(a: seq<Fragment>, b: seq<Fragment>)
    requires b != []
    ensures Joined(a + b) == Joined(a + b[..|b| - 1]) + Shown(b[|b| - 1])
  {
    assert (a + b)[..|a + b| - 1] == a + b[..|b| - 1];
  }

  lemma {:induction false} SliceSplit(s: string, i: nat, j: nat)
    requires i <= j <= |s|
    ensures s == s[..i] + s[i..j] + s[j..]
  {
  }

  /** Fragmenting never changes the text: the fragments cover it exactly, in order. */
  lemma {:induction false} FragmentsCover(s: string, key: string, value: string)
    requires key != []
    ensures Texts(FragmentsOf(s, key, value)) == s
    decreases |s|
  {
    var i := IndexOf(s, key, 0);
    if i >= 0 {
      var after := i + |key|;
      var before := if i > 0 then [Fragment(s[..i], None)] else [];
      assert Texts(before) == s[..i] by {
        if i > 0 {
          TextsSnoc([], Fragment(s[..i], None));
        }
      }
      TextsSnoc(before, Fragment(s[i..after], Some(value)));
      if after >= |s| {
        SliceSplit(s, i, after);
      } else if s[after] == ' ' {
        FragmentsCover(s[after..], key, value);
        TextsConcat(before + [Fragment(s[i..after], Some(value))], FragmentsOf(s[after..], key, value));
        SliceSplit(s, i, after);
      } else {
        TextsSnoc([], Fragment(s, None));
      }
    } else {
      TextsSnoc([], Fragment(s, None));
    }
  }

  lemma {:induction false} PassSnoc(frags: seq<Fragment>, key: string, value: string)
    requires key != [] && frags != []
    ensures Pass(frags, key, value) == Pass(frags[..|frags| - 1], key, value) + Piece(frags[|frags| - 1], key, value)
  {
  }

  /** The first variable's two spellings pass, then the others. */
  lemma {:induction false} PassesStep(frags: seq<Fragment>, vars: Vars)
    requires vars != []
    ensures var names := Spellings(vars[0].0);
      Passes(frags, vars) == Passes(Pass(Pass(frags, names[0], vars[0].1), names[1], vars[0].1), vars[1..])
  {
  }

  lemma {:induction false} CoverSnoc(p: seq<Fragment>, t: seq<Fragment>, init: seq<Fragment>, last: Fragment)
    requires Texts(p) == Texts(init) && Texts(t) == last.text
    ensures Texts(p + t) == Texts(init) + last.text
  {
    TextsConcat(p, t);
  }

  /** A pass never changes the text the fragments cover. */
  lemma {:induction false} PassCovers(frags: seq<Fragment>, key: string, value: string)
    requires key != []
    ensures Texts(Pass(frags, key, value)) == Texts(frags)
    decreases |frags|
  {
    if frags != [] {
      var init := frags[..|frags| - 1];
      var last := frags[|frags| - 1];
      PassCovers(init, key, value);
      PassSnoc(frags, key, value);
      CoverSnoc(Pass(init, key, value), Piece(last, key, value), init, last);
    }
  }

  /** Every substitution keeps the text the fragments cover. */
  lemma {:induction false} PassesCover(frags: seq<Fragment>, vars: Vars)
    ensures Texts(Passes(frags, vars)) == Texts(frags)
    decreases |vars|
  {
    if vars != [] {
      var names := Spellings(vars[0].0);
      var once := Pass(frags, names[0], vars[0].1);
      PassCovers(frags, names[0], vars[0].1);
      PassCovers(once, names[1], vars[0].1);
      PassesCover(Pass(once, names[1], vars[0].1), vars[1..]);
    }
  }

  /**
   * A substituted fragment is exactly the name, carries the value, and ends
   * the text or is followed by a fragment that starts with a space.
   */
  predicate Bounded(frags: seq<Fragment>, key: string, value: string)
  {
    forall k :: 0 <= k < |frags| && frags[k].value.Some? ==>
      frags[k].text == key && frags[k].value == Some(value) &&
      (k + 1 == |frags| || (frags[k + 1].text != [] && frags[k + 1].text[0] == ' '))
  }

  /** The fragments of a text that starts with a space (and a name that does not) start with a space. */
  lemma {:induction false} FirstFragmentSpace(s: string, key: string, value: string)
    requires key != [] && key[0] != ' ' && s != [] && s[0] == ' '
    ensures var r := FragmentsOf(s, key, value); r[0].text != [] && r[0].text[0] == ' '
  {
    if |key| <= |s| {
      assert s[..|key|][0] == s[0];
    }
    assert !HasAt(s, key, 0);
  }

  /** Literal fragments, one substituted name, then fragments that start with a space: bounded when the rest is. */
  lemma {:induction false} BoundedPrepend(before: seq<Fragment>, hit: Fragment, rest: seq<Fragment>, key: string, value: string)
    requires forall k :: 0 <= k < |before| ==> before[k].value.None?
    requires hit.text == key && hit.value == Some(value)
    requires rest != [] && rest[0].text != [] && rest[0].text[0] == ' '
    requires Bounded(rest, key, value)
    ensures Bounded(before + [hit] + rest, key, value)
  {
    var r := before + [hit] + rest;
    forall k | 0 <= k < |r| && r[k].value.Some?
      ensures r[k].text == key && r[k].value == Some(value) &&
        (k + 1 == |r| || (r[k + 1].text != [] && r[k + 1].text[0] == ' '))
    {
      if k >= |before| + 1 {
        assert r[k] == rest[k - |before| - 1];
        if k + 1 < |r| {
          assert r[k + 1] == rest[k - |before|];
        }
      } else {
        assert k == |before|;
        assert r[k + 1] == rest[0];
      }
    }
  }

  /** The fragments of a text whose first name is followed by a space. */
  lemma {:induction false} FragmentsSpaced(s: string, key: string, value: string, i: int)
    requires key != [] && i == IndexOf(s, key, 0) && i >= 0 && i + |key| < |s| && s[i + |key|] == ' '
    ensures FragmentsOf(s, key, value) ==
      (if i > 0 then [Fragment(s[..i], None)] else []) + [Fragment(s[i..i + |key|], Some(value))] + FragmentsOf(s[i + |key|..], key, value)
  {
  }

  /** Without a name followed by a space, the fragments are bounded directly. */
  lemma {:induction false} FragmentsBoundedLast(s: string, key: string, value: string)
    requires key != []
    requires var i := IndexOf(s, key, 0); !(i >= 0 && i + |key| < |s| && s[i + |key|] == ' ')
    ensures Bounded(FragmentsOf(s, key, value), key, value)
  {
    var i := IndexOf(s, key, 0);
    if i >= 0 && i + |key| >= |s| {
      assert HasAt(s, key, i);
      assert s[i..i + |key|] == key;
    }
  }

  /** `$name` is replaced only where it ends the text or a space follows it. */
  lemma {:induction false} FragmentsBounded(s: string, key: string, value: string)
    requires key != [] && key[0] != ' '
    ensures Bounded(FragmentsOf(s, key, value), key, value)
    decreases |s|
  {
    var i := IndexOf(s, key, 0);
    var after := i + |key|;
    if i >= 0 && after < |s| && s[after] == ' ' {
      FragmentsSpaced(s, key, value, i);
      FragmentsBounded(s[after..], key, value);
      FirstFragmentSpace(s[after..], key, value);
      assert HasAt(s, key, i);
      BoundedPrepend(if i > 0 then [Fragment(s[..i], None)] else [], Fragment(s[i..after], Some(value)), FragmentsOf(s[after..], key, value), key, value);
    } else {
      FragmentsBoundedLast(s, key, value);
    }
  }

  /** A text with no occurrence of the name is one literal fragment. */
  lemma {:induction false} FragmentsAbsent(s: string, key: string, value: string)
    requires key != [] && key[0] !in s
    ensures FragmentsOf(s, key, value) == [Fragment(s, None)]
  {
    forall i | 0 <= i <= |s|
      ensures !HasAt(s, key, i)
    {
      if i + |key| <= |s| {
        assert s[i..i + |key|][0] == s[i];
      }
    }
  }

  /** Substituted fragments survive every later pass unchanged: text from a value is never substituted again. */
  lemma {:induction false} PassKeepsSubstituted(frags: seq<Fragment>, key: string, value: string, f: Fragment)
    requires key != [] && f in frags && f.value.Some?
    ensures f in Pass(frags, key, value)
    decreases |frags|
  {
    var init := frags[..|frags| - 1];
    var last := frags[|frags| - 1];
    if f == last {
      assert Pass(frags, key, value) == Pass(init, key, value) + Piece(last, key, value);
    } else {
      assert f in init;
      PassKeepsSubstituted(init, key, value, f);
    }
  }

  lemma {:induction false} PassesKeepSubstituted(frags: seq<Fragment>, vars: Vars, f: Fragment)
    requires f in frags && f.value.Some?
    ensures f in Passes(frags, vars)
    decreases |vars|
  {
    if vars != [] {
      var names := Spellings(vars[0].0);
      var once := Pass(frags, names[0], vars[0].1);
      PassKeepsSubstituted(frags, names[0], vars[0].1, f);
      PassKeepsSubstituted(once, names[1], vars[0].1, f);
      PassesKeepSubstituted(Pass(once, names[1], vars[0].1), vars[1..], f);
    }
  }

  /** A text without `$` comes out of `substituteVariables` unchanged. */
  lemma {:induction false} NoDollarUnchanged(s: string, vars: Vars)
    requires '$' !in s
    ensures Passes([Fragment(s, None)], vars) == [Fragment(s, None)]
    ensures Substitution(vars, s) == s
    decreases |vars|
  {
    if vars != [] {
      var names := Spellings(vars[0].0);
      FragmentsAbsent(s, names[0], vars[0].1);
      FragmentsAbsent(s, names[1], vars[0].1);
      assert Pass([Fragment(s, None)], names[0], vars[0].1) == [Fragment(s, None)];
      assert Pass([Fragment(s, None)], names[1], vars[0].1) == [Fragment(s, None)];
      NoDollarUnchanged(s, vars[1..]);
    }
    assert Joined([Fragment(s, None)]) == Joined([]) + s;
  }

  // ---------------------------------------------------------------- roots

  /** `getRoots()`: the positions of the lines without a parent, in order. */
  function Roots(lines: seq<NLine>): (r: seq<nat>)
    ensures forall k :: 0 <= k < |r| ==> r[k] < |lines| && lines[r[k]].parent.None?
    ensures forall i :: 0 <= i < |lines| && lines[i].parent.None? ==> i in r
    ensures Ascending(r)
  {
    if lines == [] then []
    else
      var init := Roots(lines[..|lines| - 1]);
      assert forall k :: 0 <= k < |init| ==> init[k] < |lines| - 1;
      if lines[|lines| - 1].parent.None? then init + [|lines| - 1] else init
  }

  /** The lines of another arena placed after `offset` lines: its positions move by `offset`. */
  function Shifted(lines: seq<NLine>, offset: nat): (r: seq<NLine>)
    ensures |r| == |lines|
    ensures forall k :: 0 <= k < |lines| ==> r[k] == Moved(lines[k], offset)
  {
    seq(|lines|, k requires 0 <= k < |lines| => Moved(lines[k], offset))
  }

  function Moved(line: NLine, offset: nat): (r: NLine)
    ensures r.parent == (if line.parent.Some? then Some(line.parent.value + offset) else None)
    ensures |r.children| == |line.children| && forall k :: 0 <= k < |line.children| ==> r.children[k] == line.children[k] + offset
    ensures r.(parent := line.parent, children := line.children) == line
  {
    line.(parent := if line.parent.Some? then Some(line.parent.value + offset) else None,
          children := seq(|line.children|, k requires 0 <= k < |line.children| => line.children[k] + offset))
  }

  /** Appending a linked arena, moved past the lines already there, keeps the whole linked. */
  lemma {:induction false} AppendLinked(a: seq<NLine>, b: seq<NLine>)
    requires Linked(a) && Linked(b)
    ensures Linked(a + Shifted(b, |a|))
  {
    var r := a + Shifted(b, |a|);
    forall i | 0 <= i < |r| && r[i].parent.Some?
      ensures r[i].parent.value < i
    {
      if i >= |a| {
        assert r[i] == Moved(b[i - |a|], |a|);
      }
    }
    forall i, k | 0 <= i < |r| && 0 <= k < |r[i].children|
      ensures i < r[i].children[k] < |r|
    {
      if i >= |a| {
        assert r[i] == Moved(b[i - |a|], |a|);
      }
    }
  }

  // ---------------------------------------------------------------- block

  class NBlock {
    var lines: seq<NLine>
    var vars: Vars

    /** The arena is linked and every variable is declared once. */
    predicate Valid()
      reads this
    {
      Linked(lines) && UniqueKeys(vars)
    }

    constructor()
      ensures lines == [] && vars == [] && Valid()
    {
      lines := [];
      vars := [];
    }

    /**
     * `addBlock(other)`: the other block's lines after these, its variables
     * put in its order. A block added to itself is iterated while it grows:
     * with lines, the first is appended and the next step of the iteration
     * throws; with none, putting its own variables back changes nothing.
     */
    method AddBlock(other: NBlock) returns (r: Result<NBlock>)
      modifies this
      ensures (other != this || old(lines) == []) ==>
        r == Ok(this) &&
        lines == old(lines) + Shifted(old(other.lines), |old(lines)|) &&
        vars == PutAll(old(vars), old(other.vars))
      ensures r.Ok? && old(Valid()) && old(other.Valid()) ==> Valid()
      ensures other == this && old(lines) == [] && old(Valid()) ==> lines == [] && vars == old(vars)
      ensures other == this && old(lines) != [] ==>
        r.Err? && lines == old(lines) + [Moved(old(lines)[0], |old(lines)|)] && vars == old(vars)
    {
      if other == this && lines != [] {
        lines := lines + [Moved(lines[0], |lines|)];
        return Err("ConcurrentModificationException");
      }
      var offset := |lines|;
      var src := other.lines;
      for k := 0 to |src|
        invariant lines == old(lines) + Shifted(src[..k], offset)
        invariant vars == old(vars)
      {
        assert Shifted(src[..k + 1], offset) == Shifted(src[..k], offset) + [Moved(src[k], offset)];
        lines := lines + [Moved(src[k], offset)];
      }
      assert src[..|src|] == src;
      var entries := other.vars;
      assert entries[0..] == entries;
      for k := 0 to |entries|
        invariant PutAll(vars, entries[k..]) == PutAll(old(vars), entries)
        invariant lines == old(lines) + Shifted(src, offset)
      {
        assert entries[k..][1..] == entries[k + 1..];
        vars := Put(vars, entries[k].0, entries[k].1);
      }
      if old(Valid()) && old(other.Valid()) {
        AppendLinked(old(lines), src);
        PutAllUnique(old(vars), entries);
      }
      if other == this && old(Valid()) {
        PutAllPresent(old(vars), entries);
      }
      return Ok(this);
    }

    method AddLine(line: NLine)
      modifies this
      ensures lines == old(lines) + [line] && vars == old(vars)
    {
      lines := lines + [line];
    }

    method SetVariableValue(name: string, value: string)
      modifies this
      ensures vars == Put(old(vars), name, value) && lines == old(lines)
      ensures old(Valid()) ==> Valid()
    {
      if Valid() {
        PutThenLookup(vars, name, value, name);
      }
      vars := Put(vars, name, value);
    }

    method GetRoots() returns (roots: seq<nat>)
      ensures roots == Roots(lines)
    {
      roots := [];
      for k := 0 to |lines|
        invariant roots == Roots(lines[..k])
      {
        assert lines[..k + 1][..k] == lines[..k];
        if lines[k].parent.None? {
          roots := roots + [k];
        }
      }
      assert lines[..|lines|] == lines;
    }

    /** `substituteVariables(string)`: every variable in order, then the fragments joined. */
    method SubstituteVariables(s: string) returns (r: string)
      ensures r == Substitution(vars, s)
    {
      var frags := [Fragment(s, None)];
      for k := 0 to |vars|
        invariant Passes(frags, vars[k..]) == Passes([Fragment(s, None)], vars)
      {
        var start := frags;
        frags := PassSpellings(frags, vars[k].0, vars[k].1);
        PassesStep(start, vars[k..]);
        assert vars[k..][1..] == vars[k + 1..];
      }
      r := JoinFragments(frags);
    }
  }

  /** The loop over the two spellings of one variable. */
  method PassSpellings(frags: seq<Fragment>, name: string, value: string) returns (next: seq<Fragment>)
    ensures var names := Spellings(name); next == Pass(Pass(frags, names[0], value), names[1], value)
  {
    var names := Spellings(name);
    next := frags;
    for spelling := 0 to 2
      invariant next == if spelling == 0 then frags
        else if spelling == 1 then Pass(frags, names[0], value)
        else Pass(Pass(frags, names[0], value), names[1], value)
    {
      next := PassOnce(next, names[spelling], value);
    }
  }

  /** The final loop of `substituteVariables`: each fragment appended as it prints. */
  method JoinFragments(frags: seq<Fragment>) returns (r: string)
    ensures r == Joined(frags)
  {
    r := [];
    for k := 0 to |frags|
      invariant r == Joined(frags[..k])
    {
      assert frags[..k + 1][..k] == frags[..k];
      r := r + Shown(frags[k]);
    }
    assert frags[..|frags|] == frags;
  }

  /** The inner loop of `substituteVariables`: one spelling over every fragment. */
  method PassOnce(frags: seq<Fragment>, key: string, value: string) returns (next: seq<Fragment>)
    requires key != []
    ensures next == Pass(frags, key, value)
  {
    next := [];
    for j := 0 to |frags|
      invariant next == Pass(frags[..j], key, value)
    {
      assert frags[..j + 1][..j] == frags[..j];
      if frags[j].value.Some? {
        next := next + [frags[j]];
      } else {
        next := next + FragmentsOf(frags[j].text, key, value);
      }
      assert next == Pass(frags[..j], key, value) + Piece(frags[j], key, value);
    }
    assert frags[..|frags|] == frags;
  }
}
