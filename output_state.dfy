// The older output path of a block: a map of variable values, a depth, and a
// writer shared between the states made from one another. Variables are
// marked in the text by the sentinels \u0003name\u0004, and `{` and `}` that
// must survive the lexer by \u0001 and \u0002.

module OutputStates {
  import opened Wrappers
  import opened JavaText

  const OpenBrace: char := '\U{1}'
  const CloseBrace: char := '\U{2}'
  const VarStart: char := '\U{3}'
  const VarEnd: char := '\U{4}'

  /** The sentinel form of a variable in the text. */
  function Placeholder(key: string): (r: string)
    ensures |r| == |key| + 2 && r[0] == VarStart && r[|r| - 1] == VarEnd && r[1..|r| - 1] == key
  {
    [VarStart] + key + [VarEnd]
  }

  /** `setVariableValue(name, value)` on the map: a value binds the name, null unbinds it. */
  function Bind(vars: map<string, string>, name: string, value: Option<string>): (r: map<string, string>)
    ensures name in r <==> value.Some?
    ensures value.Some? ==> r[name] == value.value
    ensures forall k :: k != name ==> (k in r <==> k in vars)
    ensures forall k :: k != name && k in vars ==> r[k] == vars[k]
  {
    if value.Some? then vars[name := value.value] else vars - {name}
  }

  /** `writeIndent(d)`: two spaces per level, nothing for a depth that is not positive. */
  function Indentation(d: int): (r: string)
    ensures |r| == if d <= 0 then 0 else 2 * d
    ensures forall k :: 0 <= k < |r| ==> r[k] == ' '
  {
    RepeatOnly("  ", d, ' ');
    Repeat("  ", d)
  }

  /** Whether `keys` lists every bound name once, in some order (the iteration order of the map). */
  predicate Enumerates(keys: seq<string>, vars: map<string, string>)
  {
    (forall k :: k in keys ==> k in vars) && (forall k :: k in vars ==> k in keys) &&
    forall i, j :: 0 <= i < j < |keys| ==> keys[i] != keys[j]
  }

  /** Each placeholder of the listed keys replaced by its value, in the order of the keys. */
  function Substituted(s: string, vars: map<string, string>, keys: seq<string>): string
    requires forall k :: k in keys ==> k in vars
    decreases |keys|
  {
    if keys == [] then s
    else Substituted(Replace(s, Placeholder(keys[0]), vars[keys[0]]), vars, keys[1..])
  }

  // ------------------------------------------------------- span deletion

  /** No `\u0004` comes before the first line terminator. */
  predicate ClosedOnLine(t: string)
  {
    forall j :: 0 <= j < |t| && t[j] == VarEnd ==> exists k :: 0 <= k < j && IsLineTerminator(t[k])
  }

  /**
   * The last `\u0004` of `t` before its first line terminator, -1 when there is
   * none: where the greedy `.*\u0004` that follows a `\u0003` stops.
   */
  function LastClose(t: string): (r: int)
    ensures -1 <= r < |t|
    ensures r >= 0 ==> t[r] == VarEnd && forall k :: 0 <= k <= r ==> !IsLineTerminator(t[k])
    ensures forall j :: r < j < |t| && t[j] == VarEnd ==> exists k :: 0 <= k < j && IsLineTerminator(t[k])
    ensures r == -1 <==> ClosedOnLine(t)
  {
    if t == [] || IsLineTerminator(t[0]) then -1
    else
      var rest := LastClose(t[1..]);
      if rest >= 0 then rest + 1
      else if t[0] == VarEnd then 0
      else -1
  }

  /**
   * `s.replaceAll("\u0003.*\u0004", "")`: from left to right, each `\u0003` with a
   * `\u0004` after it on the same line starts a deleted span that runs to the
   * last such `\u0004`.
   */
  function Stripped(s: string): (r: string)
    ensures |r| <= |s|
    ensures forall c :: c in r ==> c in s
    ensures VarStart !in s ==> r == s
    decreases |s|
  {
    if s == [] then []
    else
      var close := LastClose(s[1..]);
      if s[0] == VarStart && close >= 0 then Stripped(s[close + 2..])
      else [s[0]] + Stripped(s[1..])
  }

  /** No `\u0003` has a `\u0004` after it on its line: nothing left that the pattern matches. */
  predicate NoSpan(s: string)
  {
    forall i :: 0 <= i < |s| && s[i] == VarStart ==> ClosedOnLine(s[i + 1..])
  }

  /** `processString(value)`: null stays null; otherwise brace sentinels, variables, then left-over spans. */
  function Processed(value: Option<string>, vars: map<string, string>, keys: seq<string>): (r: Option<string>)
    requires forall k :: k in keys ==> k in vars
    ensures r.None? <==> value.None?
  {
    if value.None? then None
    else
      var braced := ReplaceChar(ReplaceChar(value.value, OpenBrace, '{'), CloseBrace, '}');
      Some(Stripped(Substituted(braced, vars, keys)))
  }

  // ------------------------------------------------------------ properties

  /** Deleting spans keeps a text whose first line has no `\u0004` that way. */
  lemma {:induction false} StrippedClosedOnLine(t: string)
    requires ClosedOnLine(t)
    ensures ClosedOnLine(Stripped(t))
    decreases |t|
  {
    if t != [] {
      StrippedUnfold(t);
      if !IsLineTerminator(t[0]) {
        ClosedTail(t);
        StrippedClosedOnLine(t[1..]);
      }
      ConsClosed(t[0], Stripped(t[1..]));
    }
  }

  /** Past a first character that ends no line, a text is still closed on its line. */
  lemma {:induction false} ClosedTail(t: string)
    requires t != [] && ClosedOnLine(t) && !IsLineTerminator(t[0])
    ensures ClosedOnLine(t[1..]) && t[0] != VarEnd
  {
    var tail := t[1..];
    forall j | 0 <= j < |tail| && tail[j] == VarEnd
      ensures exists k :: 0 <= k < j && IsLineTerminator(tail[k])
    {
      assert t[j + 1] == VarEnd;
      var k :| 0 <= k < j + 1 && IsLineTerminator(t[k]);
      assert IsLineTerminator(tail[k - 1]);
    }
  }

  /** A line terminator in front of any text, or anything but `\u0004` in front of a closed one, gives a closed text. */
  lemma {:induction false} ConsClosed(c: char, st: string)
    requires IsLineTerminator(c) || (c != VarEnd && ClosedOnLine(st))
    ensures ClosedOnLine([c] + st)
  {
    if IsLineTerminator(c) {
      TerminatorClosed(c, st);
    } else {
      KeptClosed(c, st);
    }
  }

  lemma {:induction false} TerminatorClosed(c: char, st: string)
    requires IsLineTerminator(c)
    ensures ClosedOnLine([c] + st)
  {
    var r := [c] + st;
    assert IsLineTerminator(r[0]);
    forall j | 0 <= j < |r| && r[j] == VarEnd
      ensures exists k :: 0 <= k < j && IsLineTerminator(r[k])
    {
      assert j != 0;
    }
  }

  lemma {:induction false} KeptClosed(c: char, st: string)
    requires c != VarEnd && ClosedOnLine(st)
    ensures ClosedOnLine([c] + st)
  {
    var r := [c] + st;
    forall j | 0 <= j < |r| && r[j] == VarEnd
      ensures exists k :: 0 <= k < j && IsLineTerminator(r[k])
    {
      assert j != 0;
      assert st[j - 1] == VarEnd;
      var k :| 0 <= k < j - 1 && IsLineTerminator(st[k]);
      assert r[k + 1] == st[k];
    }
  }

  /** After `replaceAll("\u0003.*\u0004", "")` the pattern matches nowhere. */
  lemma {:induction false} StrippedNoSpan(s: string)
    ensures NoSpan(Stripped(s))
    decreases |s|
  {
    if s != [] {
      var close := LastClose(s[1..]);
      StrippedUnfold(s);
      if s[0] == VarStart && close >= 0 {
        StrippedNoSpan(s[close + 2..]);
      } else {
        StrippedNoSpan(s[1..]);
        if s[0] == VarStart {
          StrippedClosedOnLine(s[1..]);
        }
        ConsNoSpan(s[0], Stripped(s[1..]));
      }
    }
  }

  /** One step of span deletion: a span from the first character is dropped, any other first character is kept. */
  lemma {:induction false} StrippedUnfold(s: string)
    requires s != []
    ensures var close := LastClose(s[1..]);
      Stripped(s) == if s[0] == VarStart && close >= 0 then Stripped(s[close + 2..]) else [s[0]] + Stripped(s[1..])
  {
  }

  /** A character in front of a text without spans adds none, unless it is a `\u0003` closed later on its line. */
  lemma {:induction false} ConsNoSpan(c: char, st: string)
    requires NoSpan(st) && (c == VarStart ==> ClosedOnLine(st))
    ensures NoSpan([c] + st)
  {
    var r := [c] + st;
    forall i | 0 <= i < |r| && r[i] == VarStart
      ensures ClosedOnLine(r[i + 1..])
    {
      if i == 0 {
        assert r[1..] == st;
      } else {
        assert st[i - 1] == VarStart;
        assert r[i + 1..] == st[i..];
      }
    }
  }

  /** A text without line terminators, `\u0003` and `\u0004` is what a name must be to give a placeholder of its own. */
  predicate PlainName(k: string)
  {
    forall i :: 0 <= i < |k| ==> k[i] !in [OpenBrace, CloseBrace, VarStart, VarEnd] && !IsLineTerminator(k[i])
  }

  /** The brace sentinels leave a placeholder of a plain name alone. */
  lemma {:induction false} BracedPlaceholder(k: string)
    requires PlainName(k)
    ensures ReplaceChar(ReplaceChar(Placeholder(k), OpenBrace, '{'), CloseBrace, '}') == Placeholder(k)
  {
    var p := Placeholder(k);
    var once := ReplaceChar(p, OpenBrace, '{');
    forall i | 0 <= i < |p|
      ensures p[i] != OpenBrace && p[i] != CloseBrace
    {
      if 0 < i < |p| - 1 {
        assert p[i] == k[i - 1];
      }
    }
    assert once == p;
  }

  /** Inside the placeholder of a plain name, `\u0003` is only at the start. */
  lemma {:induction false} PlaceholderStarts(k: string)
    requires PlainName(k)
    ensures forall i :: 0 < i < |Placeholder(k)| ==> Placeholder(k)[i] != VarStart
    ensures forall i :: 0 <= i < |Placeholder(k)| - 1 ==> Placeholder(k)[i] != VarEnd
  {
    var p := Placeholder(k);
    forall i | 0 < i < |p| - 1
      ensures p[i] != VarStart && p[i] != VarEnd
    {
      assert p[i] == k[i - 1];
    }
  }

  /** The placeholder of one plain name never contains that of another. */
  lemma {:induction false} OtherPlaceholderAbsent(k: string, other: string)
    requires PlainName(k) && PlainName(other) && other != k
    ensures forall i :: 0 <= i <= |Placeholder(k)| ==> !HasAt(Placeholder(k), Placeholder(other), i)
  {
    var p := Placeholder(k);
    var q := Placeholder(other);
    PlaceholderStarts(k);
    forall i | 0 <= i <= |p|
      ensures !HasAt(p, q, i)
    {
      if i + |q| <= |p| {
        if i > 0 {
          assert p[i..i + |q|][0] != q[0];
        } else if |q| < |p| {
          assert p[..|q|][|q| - 1] != q[|q| - 1];
        } else {
          assert p[..|q|] == p;
          assert p[1..|p| - 1] != q[1..|q| - 1];
        }
      }
    }
  }

  /** A placeholder replaced by a value gives the value. */
  lemma {:induction false} ReplacePlaceholder(k: string, v: string)
    ensures Replace(Placeholder(k), Placeholder(k), v) == v
  {
    var p := Placeholder(k);
    assert p[..|p|] == p;
    assert p[|p|..] == [];
  }

  /** A text without `\u0003` holds no placeholder. */
  lemma {:induction false} NoPlaceholderIn(v: string, k: string)
    requires VarStart !in v
    ensures forall i :: 0 <= i <= |v| ==> !HasAt(v, Placeholder(k), i)
  {
    var p := Placeholder(k);
    forall i | 0 <= i <= |v|
      ensures !HasAt(v, p, i)
    {
      if i + |p| <= |v| {
        assert v[i..i + |p|][0] != p[0];
      }
    }
  }

  /** Replacing placeholders in a text without `\u0003` changes nothing. */
  lemma {:induction false} SubstitutedPlain(v: string, vars: map<string, string>, keys: seq<string>)
    requires forall k :: k in keys ==> k in vars
    requires VarStart !in v && forall k :: k in vars ==> VarStart !in vars[k]
    ensures Substituted(v, vars, keys) == v
    decreases |keys|
  {
    if keys != [] {
      NoPlaceholderIn(v, keys[0]);
      SubstitutedPlain(v, vars, keys[1..]);
    }
  }

  /** The placeholder of a name bound once among `keys` becomes its value. */
  lemma {:induction false} SubstitutedBound(k: string, vars: map<string, string>, keys: seq<string>)
    requires forall n :: n in keys ==> n in vars && PlainName(n)
    requires forall n :: n in vars ==> VarStart !in vars[n]
    requires PlainName(k)
    ensures k in keys ==> Substituted(Placeholder(k), vars, keys) == vars[k]
    ensures k !in keys ==> Substituted(Placeholder(k), vars, keys) == Placeholder(k)
    decreases |keys|
  {
    if keys != [] {
      if keys[0] == k {
        ReplacePlaceholder(k, vars[k]);
        SubstitutedPlain(vars[k], vars, keys[1..]);
      } else {
        OtherPlaceholderAbsent(k, keys[0]);
        SubstitutedBound(k, vars, keys[1..]);
      }
    }
  }

  /** The placeholder of an unbound plain name is one whole span, deleted. */
  lemma {:induction false} StrippedPlaceholder(k: string)
    requires PlainName(k)
    ensures Stripped(Placeholder(k)) == []
  {
    var p := Placeholder(k);
    var t := p[1..];
    assert t[|t| - 1] == VarEnd;
    assert LastClose(t) == |t| - 1 by {
      forall i | 0 <= i < |t|
        ensures !IsLineTerminator(t[i])
      {
        if i < |t| - 1 {
          assert t[i] == k[i];
        }
      }
    }
  }

  /**
   * Writing a variable: the placeholder of a bound name prints as its value,
   * that of an unbound name prints as nothing.
   */
  lemma {:induction false} PlaceholderPrints(k: string, vars: map<string, string>, keys: seq<string>)
    requires Enumerates(keys, vars)
    requires forall n :: n in vars ==> PlainName(n) && VarStart !in vars[n]
    requires PlainName(k)
    ensures Processed(Some(Placeholder(k)), vars, keys) == Some(if k in vars then vars[k] else [])
  {
    BracedPlaceholder(k);
    SubstitutedBound(k, vars, keys);
    if k !in vars {
      StrippedPlaceholder(k);
    }
  }

  /** No brace sentinel, variable or span survives `processString`, when the values carry no sentinels. */
  lemma {:induction false} ProcessedClean(value: string, vars: map<string, string>, keys: seq<string>)
    requires Enumerates(keys, vars)
    requires forall n :: n in vars ==> OpenBrace !in vars[n] && CloseBrace !in vars[n]
    ensures var r := Processed(Some(value), vars, keys).value;
      OpenBrace !in r && CloseBrace !in r && NoSpan(r)
  {
    var once := ReplaceChar(value, OpenBrace, '{');
    var braced := ReplaceChar(once, CloseBrace, '}');
    assert OpenBrace !in once;
    assert OpenBrace !in braced && CloseBrace !in braced;
    SubstitutedAbsent(braced, vars, keys, OpenBrace);
    SubstitutedAbsent(braced, vars, keys, CloseBrace);
    StrippedNoSpan(Substituted(braced, vars, keys));
  }

  /** A character absent from the text and from every value is absent after substitution. */
  lemma {:induction false} SubstitutedAbsent(s: string, vars: map<string, string>, keys: seq<string>, d: char)
    requires forall k :: k in keys ==> k in vars
    requires d !in s && forall n :: n in vars ==> d !in vars[n]
    ensures d !in Substituted(s, vars, keys)
    decreases |keys|
  {
    if keys != [] {
      ReplaceKeepsAbsent(s, Placeholder(keys[0]), vars[keys[0]], d);
      SubstitutedAbsent(Replace(s, Placeholder(keys[0]), vars[keys[0]]), vars, keys[1..], d);
    }
  }

  /** A binding read back: the value just set, or none after null. */
  lemma {:induction false} BindThenGet(vars: map<string, string>, name: string, value: Option<string>)
    ensures var r := Bind(vars, name, value);
      (if name in r then Some(r[name]) else None) == value
  {
  }

  // ---------------------------------------------------------------- state

  /** The character stream an output state writes to. */
  class Writer {
    var text: string

    constructor()
      ensures text == []
    {
      text := [];
    }

    method Print(s: string)
      modifies this
      ensures text == old(text) + s
    {
      text := text + s;
    }
  }

  class OutputState {
    var writer: Writer
    var depth: int
    var vars: map<string, string>

    /** A fresh state on `writer`, at depth 0 with no variables. */
    constructor(writer: Writer)
      ensures this.writer == writer && depth == 0 && vars == map[]
    {
      this.writer := writer;
      depth := 0;
      vars := map[];
    }

    /** A state for a nested block: the same writer, a copy of the variables, the given depth. */
    constructor Copy(other: OutputState, depth: int)
      ensures writer == other.writer && this.depth == depth && vars == other.vars
    {
      var copied: map<string, string> := map[];
      var left := other.vars.Keys;
      while left != {}
        invariant left <= other.vars.Keys
        invariant copied == map k | k in other.vars.Keys - left :: other.vars[k]
        decreases left
      {
        var key :| key in left;
        copied := copied[key := other.vars[key]];
        left := left - {key};
      }
      writer := other.writer;
      this.depth := depth;
      vars := copied;
    }

    method SetWriter(w: Writer)
      modifies this
      ensures writer == w && depth == old(depth) && vars == old(vars)
    {
      writer := w;
    }

    method SetDepth(d: int)
      modifies this
      ensures depth == d && writer == old(writer) && vars == old(vars)
    {
      depth := d;
    }

    method ClearVariableValues()
      modifies this
      ensures vars == map[] && writer == old(writer) && depth == old(depth)
    {
      vars := map[];
    }

    function VariableValue(name: string): (r: Option<string>)
      reads this
      ensures r.Some? <==> name in vars
      ensures r.Some? ==> r.value == vars[name]
    {
      if name in vars then Some(vars[name]) else None
    }

    method SetVariableValue(name: string, value: Option<string>)
      modifies this
      ensures vars == Bind(old(vars), name, value)
      ensures writer == old(writer) && depth == old(depth)
    {
      if value.Some? {
        vars := vars[name := value.value];
      } else {
        vars := vars - {name};
      }
    }

    /** `writeIndent(d)`: appends the indentation of depth `d` to the shared writer. */
    method WriteIndentAt(d: int)
      modifies writer
      ensures writer.text == old(writer.text) + Indentation(d)
    {
      var i := 0;
      while i < d
        invariant (d <= 0 && i == 0) || 0 <= i <= d
        invariant writer.text == old(writer.text) + Repeat("  ", i)
      {
        writer.Print("  ");
        RepeatSnoc("  ", i);
        i := i + 1;
      }
    }

    method WriteIndent()
      modifies writer
      ensures writer.text == old(writer.text) + Indentation(depth)
    {
      WriteIndentAt(depth);
    }

    /** `processString`, the variables taken in the order `keys` enumerates them. */
    method ProcessString(value: Option<string>, keys: seq<string>) returns (r: Option<string>)
      requires Enumerates(keys, vars)
      ensures r == Processed(value, vars, keys)
    {
      if value.None? {
        return None;
      }
      var v := ReplaceChar(value.value, OpenBrace, '{');
      v := ReplaceChar(v, CloseBrace, '}');
      var start := v;
      for i := 0 to |keys|
        invariant Substituted(v, vars, keys[i..]) == Substituted(start, vars, keys)
      {
        assert keys[i..][1..] == keys[i + 1..];
        v := Replace(v, Placeholder(keys[i]), vars[keys[i]]);
      }
      r := Some(Stripped(v));
    }

    /** `writeString(value)`: the processed text is written; a null value throws before anything is written. */
    method WriteString(value: Option<string>, keys: seq<string>) returns (err: Option<string>)
      requires Enumerates(keys, vars)
      modifies writer
      ensures value.None? <==> err.Some?
      ensures value.None? ==> writer.text == old(writer.text)
      ensures value.Some? ==> writer.text == old(writer.text) + Processed(value, vars, keys).value
    {
      var processed := ProcessString(value, keys);
      if processed.None? {
        return Some("NullPointerException");
      }
      writer.Print(processed.value);
      return None;
    }
  }
}
