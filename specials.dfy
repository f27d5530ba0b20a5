/**
 * The first pass over a template tag line (TuckerParser.transformSpecials):
 * backslash escapes, `$name` variables, `&name` booleans and backtick
 * phrases become the control characters of `Placeholders`, embedded in the
 * text. The scan is a finite-state machine; a terminator of a name that
 * belongs to the text after it is scanned a second time, as the Java loop
 * does by stepping its index back.
 */
module Specials {
  import opened JavaText
  import opened Placeholders

  /** `VarState`: SCAN, bang, varStart, var, boolStart, bool. */
  datatype VarState = ScanText | AfterBang | AfterDollar | InVariable | AfterAmpersand | InBoolean

  /**
   * The scanner's variables: the state, the text built so far, the name
   * being read, whether a phrase is open, whether the name is inside
   * `$( … )`, and the messages of the problems recorded.
   */
  datatype Transform = Transform(state: VarState, out: string, name: string, inPhrase: bool, inParen: bool, problems: seq<string>)

  const Start := Transform(ScanText, [], [], false, false, [])

  /** `isVarChar`: a letter, `-` or `_` (letters are the ASCII ones here). */
  predicate IsVarChar(c: char)
  {
    'a' <= c <= 'z' || 'A' <= c <= 'Z' || c == '-' || c == '_'
  }

  /** The characters the scan treats specially outside a name. */
  predicate Special(c: char)
  {
    c == '\\' || c == '$' || c == '&' || c == '`'
  }

  /** The characters a backslash may escape without a problem. */
  predicate KnownEscape(c: char)
  {
    c == '\\' || c == '$' || c == '&' || c == '{' || c == '}' || c == '`'
  }

  /** What `\c` emits. */
  function Escaped(c: char): (r: string)
    ensures c == '\\' || c == '$' || c == '&' ==> r == [c]
    ensures c == '{' ==> r == [LeftBrace]
    ensures c == '}' ==> r == [RightBrace]
    ensures c == '`' ==> r == [BackTick]
    ensures !KnownEscape(c) ==> r == ['\\', c]
  {
    if c == '\\' || c == '$' || c == '&' then [c]
    else if c == '{' then [LeftBrace]
    else if c == '}' then [RightBrace]
    else if c == '`' then [BackTick]
    else ['\\', c]
  }

  function BangMessage(c: char): string
  {
    "Illegal character banged '" + [c] + "'"
  }

  /** The opening and closing sentinels of a variable (`$`) or boolean (`&`) placeholder. */
  function Opener(sigil: char): char
  {
    if sigil == '&' then BoolStart else VarStart
  }

  function Closer(sigil: char): char
  {
    if sigil == '&' then BoolEnd else VarEnd
  }

  /** The sigil that put the scan in a name state. */
  function SigilOf(s: VarState): char
  {
    if s == InBoolean || s == AfterAmpersand then '&' else '$'
  }

  /** The end of a name: its placeholder is emitted and the scan is back in the text. */
  function Close(t: Transform): Transform
  {
    var sigil := SigilOf(t.state);
    t.(state := ScanText, out := t.out + [Opener(sigil)] + t.name + [Closer(sigil)], name := [], inParen := false)
  }

  /** One character in the text state. */
  function ScanChar(t: Transform, c: char): Transform
  {
    if c == '\\' then t.(state := AfterBang)
    else if c == '$' then t.(state := AfterDollar, inParen := false)
    else if c == '&' then t.(state := AfterAmpersand)
    else if c == '`' then t.(out := t.out + [if t.inPhrase then PhraseEnd else PhraseStart], inPhrase := !t.inPhrase)
    else t.(out := t.out + [c])
  }

  /** One character right after `$` or `&`; false when the character must be scanned again as text. */
  function OpenChar(t: Transform, c: char, next: VarState): (Transform, bool)
  {
    if IsBlankChar(c) then (t, true)
    else if c == '(' then (t.(state := next, inParen := true), true)
    else if IsVarChar(c) then (t.(state := next, name := t.name + [c]), true)
    else (t.(state := ScanText), false)
  }

  /** One character inside a name; false when the character must be scanned again as text. */
  function NameChar(t: Transform, c: char): (Transform, bool)
  {
    if c == ')' then (Close(t), t.inParen)
    else if IsBlankChar(c) then (if t.inParen then (t, true) else (Close(t), true))
    else if IsVarChar(c) || t.inParen then (t.(name := t.name + [c]), true)
    else (Close(t), false)
  }

  /** One iteration of the Java loop: the new state, and whether the index moves on. */
  function Step(t: Transform, c: char): (Transform, bool)
  {
    match t.state
    case ScanText => (ScanChar(t, c), true)
    case AfterBang =>
      (t.(state := ScanText, out := t.out + Escaped(c),
          problems := if KnownEscape(c) then t.problems else t.problems + [BangMessage(c)]), true)
    case AfterDollar => OpenChar(t, c, InVariable)
    case AfterAmpersand => OpenChar(t, c, InBoolean)
    case InVariable => NameChar(t, c)
    case InBoolean => NameChar(t, c)
  }

  /** A character, scanned a second time when the first step hands it back. */
  function Feed(t: Transform, c: char): Transform
  {
    if Step(t, c).1 then Step(t, c).0 else Step(Step(t, c).0, c).0
  }

  function FeedAll(t: Transform, s: string): Transform
    decreases |s|
  {
    if s == [] then t else FeedAll(Feed(t, s[0]), s[1..])
  }

  /** In the text state a character is always consumed in one step. */
  lemma {:induction false} FeedText(t: Transform, c: char)
    requires t.state == ScanText
    ensures Feed(t, c) == ScanChar(t, c)
  {
  }

  /** Inside a name, a character other than `)` and the terminators is consumed in one step. */
  lemma {:induction false} FeedName(t: Transform, c: char)
    requires t.state == InVariable || t.state == InBoolean
    requires c != ')' && (t.inParen || IsVarChar(c))
    ensures Feed(t, c) == if IsBlankChar(c) then t else t.(name := t.name + [c])
  {
  }

  lemma {:induction false} FeedOne(t: Transform, c: char)
    ensures FeedAll(t, [c]) == Feed(t, c)
  {
    assert [c][1..] == [];
  }

  lemma {:induction false} FeedTwo(t: Transform, a: char, b: char)
    ensures FeedAll(t, [a, b]) == Feed(Feed(t, a), b)
  {
    assert [a, b][1..] == [b];
    FeedOne(Feed(t, a), b);
  }

  /** The text with its spaces and tabs taken out. */
  function DropBlanks(s: string): (r: string)
    ensures |r| <= |s|
    ensures forall k :: 0 <= k < |r| ==> !IsBlankChar(r[k])
    ensures (forall k :: 0 <= k < |s| ==> !IsBlankChar(s[k])) ==> r == s
  {
    if s == [] then [] else (if IsBlankChar(s[0]) then [] else [s[0]]) + DropBlanks(s[1..])
  }

  /** The end of the line: a name still open is closed; a dangling `\`, `$` or `&` is dropped. */
  function Finish(t: Transform): string
  {
    if t.state == InVariable || t.state == InBoolean then Close(t).out else t.out
  }

  /** The line from position `from` on (empty when `from` is past the end). */
  function From(line: string, from: int): (r: string)
    ensures 0 <= from <= |line| ==> r == line[from..]
  {
    if 0 <= from <= |line| then line[from..] else []
  }

  /** What `transformSpecials(line, indent)` returns, and the problems it records. */
  function Transformed(line: string, indent: int): (string, seq<string>)
  {
    var t := FeedAll(Start, From(line, indent));
    (Finish(t), t.problems)
  }

  /** `transformSpecials(line, indent)`: the loop of the source, with its step back for a rescanned terminator. */
  method TransformSpecials(line: string, indent: int) returns (r: string, problems: seq<string>)
    ensures (r, problems) == Transformed(line, indent)
  {
    var state := ScanText;
    var builder: string := [];
    var varName: string := [];
    var inPhrase := false;
    var inParen := false;
    problems := [];
    if indent < 0 || indent > |line| {
      return [], [];
    }
    var i := indent;
    while i < |line|
      invariant indent <= i <= |line|
      invariant FeedAll(Transform(state, builder, varName, inPhrase, inParen, problems), line[i..]) == FeedAll(Start, line[indent..])
      decreases |line| - i, if state == ScanText then 0 else 1
    {
      ghost var before := Transform(state, builder, varName, inPhrase, inParen, problems);
      var c := line[i];
      var advance := true;
      match state {
      case ScanText =>
        if c == '\\' {
          state := AfterBang;
        } else if c == '$' {
          state := AfterDollar;
          inParen := false;
        } else if c == '&' {
          state := AfterAmpersand;
        } else if c == '`' {
          builder := builder + [if inPhrase then PhraseEnd else PhraseStart];
          inPhrase := !inPhrase;
        } else {
          builder := builder + [c];
        }
      case AfterBang =>
        builder := builder + Escaped(c);
        if !KnownEscape(c) {
          problems := problems + [BangMessage(c)];
        }
        state := ScanText;
      case AfterDollar =>
        if c == '(' {
          state := InVariable;
          inParen := true;
        } else if IsVarChar(c) {
          varName := varName + [c];
          state := InVariable;
        } else if !IsBlankChar(c) {
          advance := false;
          state := ScanText;
        }
      case AfterAmpersand =>
        if c == '(' {
          state := InBoolean;
          inParen := true;
        } else if IsVarChar(c) {
          varName := varName + [c];
          state := InBoolean;
        } else if !IsBlankChar(c) {
          advance := false;
          state := ScanText;
        }
      case _ =>
        var done := false;
        if c == ')' {
          done := true;
          if !inParen {
            advance := false;
          }
        } else if IsBlankChar(c) {
          if !inParen {
            done := true;
          }
        } else if IsVarChar(c) || inParen {
          varName := varName + [c];
        } else {
          done := true;
          advance := false;
        }
        if done {
          builder := builder + [if state == InBoolean then BoolStart else VarStart] + varName + [if state == InBoolean then BoolEnd else VarEnd];
          varName := [];
          state := ScanText;
          inParen := false;
        }
      }
      var after := Transform(state, builder, varName, inPhrase, inParen, problems);
      assert after == Step(before, c).0 && advance == Step(before, c).1;
      assert line[i..][1..] == line[i + 1..];
      assert FeedAll(before, line[i..]) == FeedAll(Feed(before, c), line[i + 1..]);
      if advance {
        i := i + 1;
      } else {
        assert state == ScanText && before.state != ScanText;
        FeedText(after, c);
        assert Feed(after, c) == Feed(before, c);
      }
    }
    if state == InVariable {
      builder := builder + [VarStart] + varName + [VarEnd];
    } else if state == InBoolean {
      builder := builder + [BoolStart] + varName + [BoolEnd];
    }
    r := builder;
  }

  /** The text state outside `$( … )`: where the scan stands between constructs. */
  predicate AtText(t: Transform)
  {
    t.state == ScanText && !t.inParen
  }

  lemma {:induction false} FeedAllConcat(t: Transform, a: string, b: string)
    ensures FeedAll(t, a + b) == FeedAll(FeedAll(t, a), b)
    decreases |a|
  {
    if a != [] {
      assert (a + b)[0] == a[0] && (a + b)[1..] == a[1..] + b;
      assert FeedAll(t, a + b) == FeedAll(Feed(t, a[0]), a[1..] + b);
      assert FeedAll(t, a) == FeedAll(Feed(t, a[0]), a[1..]);
      FeedAllConcat(Feed(t, a[0]), a[1..], b);
    } else {
      assert a + b == b;
    }
  }

  /** Text with no backslash, sigil or backtick is copied as it is. */
  lemma {:induction false} PlainText(t: Transform, s: string)
    requires AtText(t)
    requires forall k :: 0 <= k < |s| ==> !Special(s[k])
    ensures FeedAll(t, s) == t.(out := t.out + s)
    decreases |s|
  {
    if s != [] {
      FeedText(t, s[0]);
      assert FeedAll(t, s) == FeedAll(t.(out := t.out + [s[0]]), s[1..]);
      PlainText(t.(out := t.out + [s[0]]), s[1..]);
      assert t.out + [s[0]] + s[1..] == t.out + s;
    } else {
      assert t.out + s == t.out;
    }
  }

  /** A line with no backslash, sigil or backtick comes back unchanged, with no problem recorded. */
  lemma {:induction false} PlainLine(s: string)
    requires forall k :: 0 <= k < |s| ==> !Special(s[k])
    ensures Transformed(s, 0) == (s, [])
  {
    assert From(s, 0) == s;
    PlainText(Start, s);
    assert [] + s == s;
  }

  /**
   * `\c` emits the literal `\`, `$` or `&`, the sentinel of `{`, `}` or a
   * backtick, and for any other `c` the backslash and `c` with a problem.
   */
  lemma {:induction false} Escape(t: Transform, c: char)
    requires AtText(t)
    ensures FeedAll(t, ['\\', c]) == t.(out := t.out + Escaped(c),
      problems := if KnownEscape(c) then t.problems else t.problems + [BangMessage(c)])
  {
    FeedTwo(t, '\\', c);
  }

  /** Backticks alternate: the first opens a phrase, the next one closes it. */
  lemma {:induction false} Phrase(t: Transform, p: string)
    requires AtText(t) && !t.inPhrase
    requires forall k :: 0 <= k < |p| ==> !Special(p[k])
    ensures FeedAll(t, "`" + p + "`") == t.(out := t.out + [PhraseStart] + p + [PhraseEnd])
  {
    var t1 := t.(out := t.out + [PhraseStart], inPhrase := true);
    FeedOne(t, '`');
    PlainText(t1, p);
    var t2 := t1.(out := t1.out + p);
    FeedOne(t2, '`');
    FeedAllConcat(t, "`", p);
    FeedAllConcat(t, "`" + p, "`");
  }

  /** A run of name characters inside a bare name is added to the name. */
  lemma {:induction false} NameRun(t: Transform, s: string)
    requires (t.state == InVariable || t.state == InBoolean) && !t.inParen
    requires forall k :: 0 <= k < |s| ==> IsVarChar(s[k])
    ensures FeedAll(t, s) == t.(name := t.name + s)
    decreases |s|
  {
    if s != [] {
      FeedName(t, s[0]);
      assert FeedAll(t, s) == FeedAll(t.(name := t.name + [s[0]]), s[1..]);
      NameRun(t.(name := t.name + [s[0]]), s[1..]);
      assert t.name + [s[0]] + s[1..] == t.name + s;
    } else {
      assert t.name + s == t.name;
    }
  }

  lemma {:induction false} FeedAllCons(t: Transform, s: string)
    requires s != []
    ensures FeedAll(t, s) == FeedAll(Feed(t, s[0]), s[1..])
  {
  }

  lemma {:induction false} NotInTail(s: string, c: char)
    requires s != [] && c !in s
    ensures c !in s[1..]
  {
    forall k | 0 <= k < |s[1..]|
      ensures s[1..][k] != c
    {
      assert s[1..][k] == s[k + 1];
    }
  }

  /** A space or tab inside `$( … )` is skipped. */
  lemma {:induction false} ParenBlank(t: Transform, s: string)
    requires (t.state == InVariable || t.state == InBoolean) && t.inParen
    requires s != [] && IsBlankChar(s[0])
    requires FeedAll(t, s[1..]) == t.(name := t.name + DropBlanks(s[1..]))
    ensures FeedAll(t, s) == t.(name := t.name + DropBlanks(s))
  {
    FeedName(t, s[0]);
    FeedAllCons(t, s);
  }

  /** Any other character but `)` inside `$( … )` is added to the name. */
  lemma {:induction false} ParenKept(t: Transform, s: string)
    requires (t.state == InVariable || t.state == InBoolean) && t.inParen
    requires s != [] && !IsBlankChar(s[0]) && s[0] != ')'
    requires FeedAll(t.(name := t.name + [s[0]]), s[1..]) == t.(name := t.name + [s[0]] + DropBlanks(s[1..]))
    ensures FeedAll(t, s) == t.(name := t.name + DropBlanks(s))
  {
    FeedName(t, s[0]);
    FeedAllCons(t, s);
    assert t.name + [s[0]] + DropBlanks(s[1..]) == t.name + DropBlanks(s);
  }

  /** Inside `$( … )` every character but `)` is kept, except spaces and tabs. */
  lemma {:induction false} ParenRun(t: Transform, s: string)
    requires (t.state == InVariable || t.state == InBoolean) && t.inParen
    requires ')' !in s
    ensures FeedAll(t, s) == t.(name := t.name + DropBlanks(s))
    decreases |s|
  {
    if s != [] {
      assert s[0] in s;
      NotInTail(s, ')');
      if IsBlankChar(s[0]) {
        ParenRun(t, s[1..]);
        ParenBlank(t, s);
      } else {
        ParenRun(t.(name := t.name + [s[0]]), s[1..]);
        ParenKept(t, s);
      }
    } else {
      assert t.name + DropBlanks(s) == t.name;
    }
  }

  /** A sigil (`$` or `&`) followed by a name. */
  predicate Sigil(c: char)
  {
    c == '$' || c == '&'
  }

  predicate BareName(name: string)
  {
    name != [] && forall k :: 0 <= k < |name| ==> IsVarChar(name[k])
  }

  /** The state after a sigil and a bare name. */
  lemma {:induction false} SigilName(t: Transform, sigil: char, name: string)
    requires AtText(t) && Sigil(sigil) && BareName(name)
    ensures FeedAll(t, [sigil] + name) ==
      t.(state := if sigil == '&' then InBoolean else InVariable, name := t.name + name, inParen := false)
  {
    var next := if sigil == '&' then InBoolean else InVariable;
    var t1 := t.(state := next, name := t.name + [name[0]], inParen := false);
    FeedTwo(t, sigil, name[0]);
    NameRun(t1, name[1..]);
    assert t.name + [name[0]] + name[1..] == t.name + name;
    assert [sigil] + name == [sigil, name[0]] + name[1..];
    FeedAllConcat(t, [sigil, name[0]], name[1..]);
  }

  /** `$name` or `&name` ended by a space or a tab: the placeholder, and the blank is swallowed. */
  lemma {:induction false} BareNameBlank(t: Transform, sigil: char, name: string, c: char)
    requires AtText(t) && t.name == [] && Sigil(sigil) && BareName(name) && IsBlankChar(c)
    ensures FeedAll(t, [sigil] + name + [c]) == t.(out := t.out + [Opener(sigil)] + name + [Closer(sigil)])
  {
    SigilName(t, sigil, name);
    FeedAllConcat(t, [sigil] + name, [c]);
    FeedOne(FeedAll(t, [sigil] + name), c);
  }

  /** A character that ends a bare name without belonging to it closes the name and is scanned again as text. */
  lemma {:induction false} RescanAfterName(u: Transform, c: char)
    requires (u.state == InVariable || u.state == InBoolean) && !u.inParen && !IsVarChar(c) && !IsBlankChar(c)
    ensures Feed(u, c) == Feed(Close(u), c)
  {
  }

  /** `$name` or `&name` ended by any other character that cannot be in a name: that character is scanned as text. */
  lemma {:induction false} BareNameRescan(t: Transform, sigil: char, name: string, c: char)
    requires AtText(t) && t.name == [] && Sigil(sigil) && BareName(name) && !IsVarChar(c) && !IsBlankChar(c)
    ensures FeedAll(t, [sigil] + name + [c]) == Feed(t.(out := t.out + [Opener(sigil)] + name + [Closer(sigil)]), c)
  {
    var u := t.(state := if sigil == '&' then InBoolean else InVariable, name := name, inParen := false);
    SigilName(t, sigil, name);
    assert FeedAll(t, [sigil] + name) == u;
    FeedAllConcat(t, [sigil] + name, [c]);
    FeedOne(u, c);
    RescanAfterName(u, c);
    assert Close(u) == t.(out := t.out + [Opener(sigil)] + name + [Closer(sigil)]);
  }

  /** `$(` or `&(` opens a name inside parentheses. */
  lemma {:induction false} OpenParen(t: Transform, sigil: char)
    requires AtText(t) && Sigil(sigil)
    ensures FeedAll(t, [sigil, '(']) == t.(state := if sigil == '&' then InBoolean else InVariable, inParen := true)
  {
    FeedTwo(t, sigil, '(');
  }

  /** `)` closes a name inside parentheses and is consumed. */
  lemma {:induction false} CloseParen(u: Transform)
    requires (u.state == InVariable || u.state == InBoolean) && u.inParen
    ensures FeedAll(u, [')']) == Close(u)
  {
    FeedOne(u, ')');
  }

  /** `$( … )`: everything up to `)` but the spaces and tabs is the name, and `)` is consumed. */
  lemma {:induction false} ParenName(t: Transform, sigil: char, inner: string)
    requires AtText(t) && t.name == [] && Sigil(sigil) && ')' !in inner
    ensures FeedAll(t, [sigil, '('] + inner + [')']) ==
      t.(out := t.out + [Opener(sigil)] + DropBlanks(inner) + [Closer(sigil)])
  {
    var t1 := t.(state := if sigil == '&' then InBoolean else InVariable, inParen := true);
    OpenParen(t, sigil);
    ParenRun(t1, inner);
    FeedAllConcat(t, [sigil, '('], inner);
    var t2 := t1.(name := DropBlanks(inner));
    assert FeedAll(t, [sigil, '('] + inner) == t2;
    FeedAllConcat(t, [sigil, '('] + inner, [')']);
    CloseParen(t2);
    assert Close(t2) == t.(out := t.out + [Opener(sigil)] + DropBlanks(inner) + [Closer(sigil)]);
  }

  /** A name still open at the end of the line is closed. */
  lemma {:induction false} OpenAtEnd(t: Transform, sigil: char, name: string)
    requires AtText(t) && t.name == [] && Sigil(sigil) && BareName(name)
    ensures Finish(FeedAll(t, [sigil] + name)) == t.out + [Opener(sigil)] + name + [Closer(sigil)]
  {
    SigilName(t, sigil, name);
  }

  /** A sigil followed by a character that cannot start a name is dropped; the character is scanned as text. */
  lemma {:induction false} DroppedSigil(t: Transform, sigil: char, c: char)
    requires AtText(t) && Sigil(sigil) && !IsVarChar(c) && !IsBlankChar(c) && c != '('
    ensures FeedAll(t, [sigil, c]) == FeedAll(t, [c])
  {
    FeedTwo(t, sigil, c);
    FeedOne(t, c);
  }

  /** A whole line with one `$( … )` or `&( … )` between plain text: the placeholder replaces it and nothing else changes. */
  lemma {:induction false} ParenInLine(pre: string, sigil: char, inner: string, post: string)
    requires forall k :: 0 <= k < |pre| ==> !Special(pre[k])
    requires forall k :: 0 <= k < |post| ==> !Special(post[k])
    requires Sigil(sigil) && ')' !in inner
    ensures Transformed(pre + [sigil, '('] + inner + [')'] + post, 0) ==
      (pre + [Opener(sigil)] + DropBlanks(inner) + [Closer(sigil)] + post, [])
  {
    var mid := [sigil, '('] + inner + [')'];
    var line := pre + [sigil, '('] + inner + [')'] + post;
    assert line == pre + mid + post;
    assert From(line, 0) == line;
    PlainText(Start, pre);
    var t := Start.(out := pre);
    assert [] + pre == pre;
    ParenName(t, sigil, inner);
    var u := t.(out := pre + [Opener(sigil)] + DropBlanks(inner) + [Closer(sigil)]);
    PlainText(u, post);
    FeedAllConcat(Start, pre, mid);
    FeedAllConcat(Start, pre + mid, post);
  }
}
