/**
 * `NodeWriter.cleanString`: the renderer's substitution of the placeholders
 * the parser left in template text, against the top scope of the render
 * stack and an optional translator.
 */
module Cleaning {
  import opened Wrappers
  import opened JavaText
  import opened Placeholders
  import opened Scopes
  import opened ScopeContexts

  /** The translator: a phrase it knows maps to its translation; absent means it returned null or threw. */
  type Translator = map<string, string>

  /** The text so far and the two counters `cleanString` keeps. */
  datatype Cleaning = Cleaning(text: string, replaced: nat, dropped: nat)

  /**
   * No variable value of the scope holds VarEnd. Each round of the variable
   * loop then removes one VarEnd, which bounds the loop. This is enough for
   * the loop to end, not needed for it: only a value that rebuilds a whole
   * placeholder can keep the loop going forever.
   */
  predicate SafeScope(s: Scope)
  {
    forall name :: name in s.vars && s.vars[name].Some? ==> VarEnd !in s.vars[name].value
  }

  predicate SafeStack(stack: seq<Scope>)
  {
    stack == [] || SafeScope(stack[0])
  }

  /**
   * No translation holds PhraseEnd, so each round of the phrase loop removes
   * one; as above, enough for the loop to end but not needed for it.
   */
  predicate SafeTranslator(t: Option<Translator>)
  {
    t.None? || forall k :: k in t.value ==> PhraseEnd !in t.value[k]
  }

  lemma {:induction false} SafeTop(stack: seq<Scope>, name: string)
    requires SafeStack(stack)
    ensures TopVariable(stack, name).Some? ==> VarEnd !in TopVariable(stack, name).value
  {
  }

  /** The five plain replacements that come first: sentinels back to braces and backtick, `<` and `>` escaped. */
  function Escape(s: string): (r: string)
  {
    var a := ReplaceChar(ReplaceChar(ReplaceChar(s, LeftBrace, '{'), RightBrace, '}'), BackTick, '`');
    Replace(Replace(a, "<", Lt), ">", Gt)
  }

  /**
   * The variable loop: while the string matches, the first placeholder is
   * replaced by the top scope's value (counted as replaced) or deleted
   * (counted as dropped). It stops at the first string that does not match.
   */
  function VarPass(c: Cleaning, stack: seq<Scope>): (r: Cleaning)
    requires SafeStack(stack)
    decreases multiset(c.text)[VarEnd]
    ensures Find(r.text, VarStart, VarEnd).None?
    ensures r.replaced >= c.replaced && r.dropped >= c.dropped
    ensures Find(c.text, VarStart, VarEnd).None? ==> r == c
  {
    var m := Find(c.text, VarStart, VarEnd);
    if m.None? then c
    else
      var g := m.value;
      var v := TopVariable(stack, g.inner);
      SafeTop(stack, g.inner);
      if v.Some? then VarPass(Cleaning(g.before + v.value + g.after, c.replaced + 1, c.dropped), stack)
      else VarPass(Cleaning(g.before + g.after, c.replaced, c.dropped + 1), stack)
  }

  /** One round of the variable loop. */
  function VarStep(c: Cleaning, g: Groups, v: Option<string>): Cleaning
  {
    if v.Some? then Cleaning(g.before + v.value + g.after, c.replaced + 1, c.dropped)
    else Cleaning(g.before + g.after, c.replaced, c.dropped + 1)
  }

  /** Replacing a match by text without the closing sentinel leaves one closing sentinel fewer. */
  lemma {:induction false} Shrinks(text: string, g: Groups, open: char, close: char, middle: string)
    requires text == g.before + [open] + g.inner + [close] + g.after
    requires close !in middle
    ensures multiset(g.before + middle + g.after)[close] < multiset(text)[close]
  {
    assert multiset(text) == multiset(g.before) + multiset([open]) + multiset(g.inner) + multiset([close]) + multiset(g.after);
    assert multiset(g.before + middle + g.after) == multiset(g.before) + multiset(middle) + multiset(g.after);
    assert multiset(middle)[close] == 0;
  }

  lemma {:induction false} VarPassStep(c: Cleaning, stack: seq<Scope>, g: Groups)
    requires SafeStack(stack) && Find(c.text, VarStart, VarEnd) == Some(g)
    ensures multiset(VarStep(c, g, TopVariable(stack, g.inner)).text)[VarEnd] < multiset(c.text)[VarEnd]
    ensures VarPass(c, stack) == VarPass(VarStep(c, g, TopVariable(stack, g.inner)), stack)
  {
    var v := TopVariable(stack, g.inner);
    SafeTop(stack, g.inner);
    var middle := if v.Some? then v.value else [];
    assert VarStep(c, g, v).text == g.before + middle + g.after;
    Shrinks(c.text, g, VarStart, VarEnd, middle);
  }

  /**
   * The boolean loop: a placeholder whose boolean is true in the top scope is
   * replaced by its own name (counted as replaced), otherwise deleted
   * (counted as dropped).
   */
  function BoolPass(c: Cleaning, stack: seq<Scope>): (r: Cleaning)
    decreases multiset(c.text)[BoolEnd]
    ensures Find(r.text, BoolStart, BoolEnd).None?
    ensures r.replaced >= c.replaced && r.dropped >= c.dropped
    ensures Find(c.text, BoolStart, BoolEnd).None? ==> r == c
  {
    var m := Find(c.text, BoolStart, BoolEnd);
    if m.None? then c
    else
      var g := m.value;
      var b := TopBoolean(stack, g.inner);
      BoolStepShrinks(c, g, b);
      BoolPass(BoolStep(c, g, b), stack)
  }

  /** One round of the boolean loop. */
  function BoolStep(c: Cleaning, g: Groups, b: bool): Cleaning
  {
    if b then Cleaning(g.before + g.inner + g.after, c.replaced + 1, c.dropped)
    else Cleaning(g.before + g.after, c.replaced, c.dropped + 1)
  }

  /** Each round of the boolean loop removes one placeholder end marker. */
  lemma {:induction false} BoolStepShrinks(c: Cleaning, g: Groups, b: bool)
    requires Find(c.text, BoolStart, BoolEnd) == Some(g)
    ensures multiset(BoolStep(c, g, b).text)[BoolEnd] < multiset(c.text)[BoolEnd]
  {
    var middle := if b then g.inner else [];
    assert BoolStep(c, g, b).text == g.before + middle + g.after;
    Shrinks(c.text, g, BoolStart, BoolEnd, middle);
  }

  lemma {:induction false} BoolPassStep(c: Cleaning, stack: seq<Scope>, g: Groups)
    requires Find(c.text, BoolStart, BoolEnd) == Some(g)
    ensures multiset(BoolStep(c, g, TopBoolean(stack, g.inner)).text)[BoolEnd] < multiset(c.text)[BoolEnd]
    ensures BoolPass(c, stack) == BoolPass(BoolStep(c, g, TopBoolean(stack, g.inner)), stack)
  {
    BoolStepShrinks(c, g, TopBoolean(stack, g.inner));
  }

  /** `translate(source)`: the translation, or the source itself when there is none. */
  function Translate(source: string, t: Option<Translator>): (r: string)
    ensures t.None? || source !in t.value ==> r == source
  {
    if t.Some? && source in t.value then t.value[source] else source
  }

  /** The phrase loop: each phrase's inner text is replaced by its translation. */
  function PhrasePass(s: string, t: Translator): (r: string)
    requires SafeTranslator(Some(t))
    decreases multiset(s)[PhraseEnd]
    ensures Find(r, PhraseStart, PhraseEnd).None?
    ensures Find(s, PhraseStart, PhraseEnd).None? ==> r == s
  {
    var m := Find(s, PhraseStart, PhraseEnd);
    if m.None? then s
    else
      var g := m.value;
      PhrasePass(g.before + Translate(g.inner, Some(t)) + g.after, t)
  }

  /** What follows the variable loop: the boolean loop, the phrase loop (with a translator) and the stripping of phrase markers. */
  function Finish(c: Cleaning, stack: seq<Scope>, t: Option<Translator>): (r: Cleaning)
    requires SafeTranslator(t)
    ensures PhraseStart !in r.text && PhraseEnd !in r.text
  {
    var b := BoolPass(c, stack);
    var p := if t.Some? then PhrasePass(b.text, t.value) else b.text;
    Cleaning(RemoveChar(RemoveChar(p, PhraseStart), PhraseEnd), b.replaced, b.dropped)
  }

  /** Every placeholder substituted, every phrase translated (when there is a translator) and the markers stripped. */
  function Substituted(s: string, stack: seq<Scope>, t: Option<Translator>): (r: Cleaning)
    requires SafeStack(stack) && SafeTranslator(t)
    ensures PhraseStart !in r.text && PhraseEnd !in r.text
  {
    Finish(VarPass(Cleaning(Escape(s), 0, 0), stack), stack, t)
  }

  /**
   * `cleanString(value)`: null stays null; otherwise the substituted text,
   * except that a text built from a single dropped placeholder and nothing
   * but blanks is null (an unset variable means "no value", not "").
   */
  function Clean(value: Option<string>, stack: seq<Scope>, t: Option<Translator>): (r: Option<string>)
    requires SafeStack(stack) && SafeTranslator(t)
    ensures value.None? ==> r.None?
    ensures r.Some? ==> PhraseStart !in r.value && PhraseEnd !in r.value
    ensures value.Some? ==> (r.None? <==> var c := Substituted(value.value, stack, t); c.replaced == 0 && c.dropped == 1 && IsBlank(c.text))
    ensures r.Some? ==> r.value == Substituted(value.value, stack, t).text
  {
    if value.None? then None
    else
      var c := Substituted(value.value, stack, t);
      if c.replaced == 0 && c.dropped == 1 && IsBlank(c.text) then None else Some(c.text)
  }

  // Properties.

  lemma {:induction false} ReplaceCharAbsent(s: string, c: char, d: char)
    requires c !in s
    ensures ReplaceChar(s, c, d) == s
  {
  }

  lemma {:induction false} ReplaceAbsent(s: string, c: char, replacement: string)
    requires c !in s
    ensures Replace(s, [c], replacement) == s
  {
    forall k | 0 <= k < |s| ensures !HasAt(s, [c], k) {
      assert s[k] in s;
      assert s[k..k + 1][0] == s[k];
    }
  }

  /** The escapes change nothing in a text holding none of the characters they rewrite. */
  lemma {:induction false} EscapeNothing(s: string)
    requires EscapeFree(s)
    ensures Escape(s) == s
  {
    ReplaceCharAbsent(s, LeftBrace, '{');
    ReplaceCharAbsent(s, RightBrace, '}');
    ReplaceCharAbsent(s, BackTick, '`');
    ReplaceAbsent(s, '<', Lt);
    ReplaceAbsent(s, '>', Gt);
  }

  /** After the escapes no brace or backtick sentinel and no raw `<` or `>` is left. */
  lemma {:induction false} EscapeRemoves(s: string)
    ensures var r := Escape(s); LeftBrace !in r && RightBrace !in r && BackTick !in r && '<' !in r && '>' !in r
  {
    var a := ReplaceChar(ReplaceChar(ReplaceChar(s, LeftBrace, '{'), RightBrace, '}'), BackTick, '`');
    assert LeftBrace !in a && RightBrace !in a && BackTick !in a;
    var b := Replace(a, "<", Lt);
    ReplaceRemovesChar(a, '<', Lt);
    ReplaceKeepsAbsent(a, "<", Lt, LeftBrace);
    ReplaceKeepsAbsent(a, "<", Lt, RightBrace);
    ReplaceKeepsAbsent(a, "<", Lt, BackTick);
    ReplaceRemovesChar(b, '>', Gt);
    ReplaceKeepsAbsent(b, ">", Gt, LeftBrace);
    ReplaceKeepsAbsent(b, ">", Gt, RightBrace);
    ReplaceKeepsAbsent(b, ">", Gt, BackTick);
    ReplaceKeepsAbsent(b, ">", Gt, '<');
  }

  /** Once no placeholder start is left, the rest of `cleanString` changes nothing. */
  lemma {:induction false} FinishPlain(c: Cleaning, stack: seq<Scope>, t: Option<Translator>)
    requires SafeTranslator(t)
    requires BoolStart !in c.text && PhraseStart !in c.text && PhraseEnd !in c.text
    ensures Finish(c, stack, t) == c
  {
  }

  /** Plain text comes out of `cleanString` unchanged, whatever the scope and translator. */
  lemma {:induction false} CleanPlain(s: string, stack: seq<Scope>, t: Option<Translator>)
    requires SafeStack(stack) && SafeTranslator(t)
    requires Plain(s)
    ensures Clean(Some(s), stack, t) == Some(s)
  {
    PlainFree(s);
    EscapeNothing(s);
    FinishPlain(Cleaning(s, 0, 0), stack, t);
  }

  /** None of the characters the escapes rewrite. */
  predicate EscapeFree(s: string)
  {
    LeftBrace !in s && RightBrace !in s && BackTick !in s && '<' !in s && '>' !in s
  }

  lemma {:induction false} PlainFree(s: string)
    requires Plain(s)
    ensures EscapeFree(s) && VarStart !in s && VarEnd !in s && BoolStart !in s && BoolEnd !in s && PhraseStart !in s && PhraseEnd !in s
  {
  }

  lemma {:induction false} FreeConcat(a: string, b: string)
    requires EscapeFree(a) && EscapeFree(b)
    ensures EscapeFree(a + b)
  {
  }

  /** The text `before` S `inner` E with plain parts and S, E placeholder characters. */
  lemma {:induction false} FreeWrapped(before: string, open: char, inner: string, close: char)
    requires Plain(before) && Plain(inner) && !PlainChar(open) && !PlainChar(close)
    requires open != '<' && open != '>' && close != '<' && close != '>'
    requires open != LeftBrace && open != RightBrace && open != BackTick && close != LeftBrace && close != RightBrace && close != BackTick
    ensures EscapeFree(before + [open] + inner + [close])
  {
    PlainFree(before);
    PlainFree(inner);
    FreeConcat(before, [open]);
    FreeConcat(before + [open], inner);
    FreeConcat(before + [open] + inner, [close]);
  }

  lemma {:induction false} FreeBare(open: char, inner: string, close: char)
    requires Plain(inner) && !PlainChar(open) && !PlainChar(close)
    requires open != '<' && open != '>' && close != '<' && close != '>'
    requires open != LeftBrace && open != RightBrace && open != BackTick && close != LeftBrace && close != RightBrace && close != BackTick
    ensures EscapeFree([open] + inner + [close])
  {
    FreeWrapped([], open, inner, close);
    assert [] + [open] + inner + [close] == [open] + inner + [close];
  }

  /** A character in none of the parts is not in their concatenation. */
  lemma {:induction false} LacksWrapped(before: string, open: char, inner: string, close: char, d: char)
    requires d !in before && d !in inner && d != open && d != close
    ensures d !in before + [open] + inner + [close]
  {
  }

  lemma {:induction false} LacksConcat(a: string, b: string, d: char)
    requires d !in a && d !in b
    ensures d !in a + b
  {
  }

  lemma {:induction false} Bare(open: char, inner: string, close: char)
    ensures [] + [open] + inner + [close] + [] == [open] + inner + [close]
  {
  }

  lemma {:induction false} NoTail(before: string, open: char, inner: string, close: char)
    ensures before + [open] + inner + [close] + [] == before + [open] + inner + [close]
  {
  }

  lemma {:induction false} Around(before: string, v: string)
    ensures [] + v + [] == v && before + [] == before && before + v + [] == before + v
  {
  }

  /** `cleanString` of a text the escapes leave alone and whose variable loop ends in plain text. */
  lemma {:induction false} CleanOf(s: string, stack: seq<Scope>, t: Option<Translator>, c: Cleaning)
    requires SafeStack(stack) && SafeTranslator(t)
    requires EscapeFree(s)
    requires VarPass(Cleaning(s, 0, 0), stack) == c
    requires BoolStart !in c.text && PhraseStart !in c.text && PhraseEnd !in c.text
    ensures Clean(Some(s), stack, t) == if c.replaced == 0 && c.dropped == 1 && IsBlank(c.text) then None else Some(c.text)
  {
    EscapeNothing(s);
    FinishPlain(c, stack, t);
  }

  /** The variable loop on a text with one placeholder. */
  lemma {:induction false} OneVariable(before: string, name: string, after: string, stack: seq<Scope>)
    requires SafeStack(stack)
    requires Plain(before) && Plain(name) && Plain(after) && NoTerminator(after)
    requires TopVariable(stack, name).Some? ==> Plain(TopVariable(stack, name).value)
    ensures var v := TopVariable(stack, name);
      VarPass(Cleaning(before + [VarStart] + name + [VarEnd] + after, 0, 0), stack) ==
        if v.Some? then Cleaning(before + v.value + after, 1, 0) else Cleaning(before + after, 0, 1)
  {
    var s := before + [VarStart] + name + [VarEnd] + after;
    FindUnique(s, VarStart, VarEnd, Groups(before, name, after));
  }

  /** The boolean loop on a text with one placeholder. */
  lemma {:induction false} OneBoolean(before: string, name: string, after: string, stack: seq<Scope>)
    requires Plain(before) && Plain(name) && Plain(after) && NoTerminator(after)
    ensures BoolPass(Cleaning(before + [BoolStart] + name + [BoolEnd] + after, 0, 0), stack) ==
        if TopBoolean(stack, name) then Cleaning(before + name + after, 1, 0) else Cleaning(before + after, 0, 1)
  {
    var s := before + [BoolStart] + name + [BoolEnd] + after;
    FindUnique(s, BoolStart, BoolEnd, Groups(before, name, after));
  }

  /** The phrase loop on a text with one phrase. */
  lemma {:induction false} OnePhrase(before: string, phrase: string, after: string, t: Translator)
    requires SafeTranslator(Some(t))
    requires Plain(before) && Plain(phrase) && Plain(after) && NoTerminator(after) && Plain(Translate(phrase, Some(t)))
    ensures PhrasePass(before + [PhraseStart] + phrase + [PhraseEnd] + after, t) == before + Translate(phrase, Some(t)) + after
  {
    var s := before + [PhraseStart] + phrase + [PhraseEnd] + after;
    FindUnique(s, PhraseStart, PhraseEnd, Groups(before, phrase, after));
  }

  /** A placeholder on its own, for a variable the top scope holds, becomes that value. */
  lemma {:induction false} CleanBoundVariable(name: string, stack: seq<Scope>, t: Option<Translator>)
    requires SafeStack(stack) && SafeTranslator(t)
    requires Plain(name) && TopVariable(stack, name).Some? && Plain(TopVariable(stack, name).value)
    ensures Clean(Some([VarStart] + name + [VarEnd]), stack, t) == TopVariable(stack, name)
  {
    var v := TopVariable(stack, name).value;
    OneVariable([], name, [], stack);
    Bare(VarStart, name, VarEnd);
    Around([], v);
    PlainFree(v);
    FreeWrapped([], VarStart, name, VarEnd);
    assert [] + [VarStart] + name + [VarEnd] == [VarStart] + name + [VarEnd];
    CleanOf([VarStart] + name + [VarEnd], stack, t, Cleaning(v, 1, 0));
  }

  /**
   * A placeholder on its own, for a variable the top scope does not hold,
   * makes the whole text null: one dropped placeholder, nothing left.
   */
  lemma {:induction false} CleanUnsetVariable(name: string, stack: seq<Scope>, t: Option<Translator>)
    requires SafeStack(stack) && SafeTranslator(t)
    requires Plain(name) && TopVariable(stack, name).None?
    ensures Clean(Some([VarStart] + name + [VarEnd]), stack, t).None?
  {
    var s := [VarStart] + name + [VarEnd];
    FreeWrapped([], VarStart, name, VarEnd);
    assert [] + [VarStart] + name + [VarEnd] == s;
    OneVariable([], name, [], stack);
    Bare(VarStart, name, VarEnd);
    assert VarPass(Cleaning(s, 0, 0), stack) == Cleaning([], 0, 1);
    CleanOf(s, stack, t, Cleaning([], 0, 1));
  }

  /** Text around an unset variable keeps the result from being null: the placeholder is only deleted. */
  lemma {:induction false} CleanUnsetInText(before: string, name: string, stack: seq<Scope>, t: Option<Translator>)
    requires SafeStack(stack) && SafeTranslator(t)
    requires Plain(before) && Plain(name) && TopVariable(stack, name).None? && !IsBlank(before)
    ensures Clean(Some(before + [VarStart] + name + [VarEnd]), stack, t) == Some(before)
  {
    OneVariable(before, name, [], stack);
    NoTail(before, VarStart, name, VarEnd);
    Around(before, []);
    FreeWrapped(before, VarStart, name, VarEnd);
    PlainFree(before);
    CleanOf(before + [VarStart] + name + [VarEnd], stack, t, Cleaning(before, 0, 1));
  }

  /** A boolean placeholder shows its own name when the boolean is true and nothing when it is not. */
  lemma {:induction false} CleanBoolean(before: string, name: string, stack: seq<Scope>, t: Option<Translator>)
    requires SafeStack(stack) && SafeTranslator(t)
    requires Plain(before) && Plain(name) && !IsBlank(before)
    ensures Clean(Some(before + [BoolStart] + name + [BoolEnd]), stack, t) == Some(if TopBoolean(stack, name) then before + name else before)
  {
    var s := before + [BoolStart] + name + [BoolEnd];
    NoTail(before, BoolStart, name, BoolEnd);
    OneBoolean(before, name, [], stack);
    var on := TopBoolean(stack, name);
    var c := if on then Cleaning(before + name, 1, 0) else Cleaning(before, 0, 1);
    Around(before, name);
    assert BoolPass(Cleaning(s, 0, 0), stack) == c;
    PlainFree(before);
    PlainFree(name);
    LacksWrapped(before, BoolStart, name, BoolEnd, VarStart);
    assert VarPass(Cleaning(s, 0, 0), stack) == Cleaning(s, 0, 0);
    FreeWrapped(before, BoolStart, name, BoolEnd);
    EscapeNothing(s);
    LacksConcat(before, name, PhraseStart);
    LacksConcat(before, name, PhraseEnd);
    LacksConcat(before, name, BoolStart);
    FinishPlain(c, stack, t);
    assert Substituted(s, stack, t) == c;
  }

  /** The escapes and both placeholder loops leave a lone phrase alone. */
  lemma {:induction false} PhraseUntouched(phrase: string, stack: seq<Scope>)
    requires SafeStack(stack) && Plain(phrase)
    ensures var s := [PhraseStart] + phrase + [PhraseEnd];
      Escape(s) == s && BoolPass(VarPass(Cleaning(s, 0, 0), stack), stack) == Cleaning(s, 0, 0)
  {
    var s := [PhraseStart] + phrase + [PhraseEnd];
    FreeBare(PhraseStart, phrase, PhraseEnd);
    EscapeNothing(s);
    PlainFree(phrase);
    LacksWrapped([], PhraseStart, phrase, PhraseEnd, VarStart);
    LacksWrapped([], PhraseStart, phrase, PhraseEnd, BoolStart);
    assert [] + [PhraseStart] + phrase + [PhraseEnd] == s;
  }

  /** The phrase loop on a lone phrase gives its translation. */
  lemma {:induction false} PhraseAlone(phrase: string, t: Translator)
    requires SafeTranslator(Some(t)) && Plain(phrase) && phrase in t && Plain(t[phrase])
    ensures PhrasePass([PhraseStart] + phrase + [PhraseEnd], t) == t[phrase]
  {
    Bare(PhraseStart, phrase, PhraseEnd);
    OnePhrase([], phrase, [], t);
    Around([], t[phrase]);
  }

  /** A phrase is replaced by its translation; the markers never survive. */
  lemma {:induction false} CleanPhrase(phrase: string, stack: seq<Scope>, t: Translator)
    requires SafeStack(stack) && SafeTranslator(Some(t))
    requires Plain(phrase) && phrase in t && Plain(t[phrase]) && !IsBlank(t[phrase])
    ensures Clean(Some([PhraseStart] + phrase + [PhraseEnd]), stack, Some(t)) == Some(t[phrase])
  {
    var s := [PhraseStart] + phrase + [PhraseEnd];
    PhraseUntouched(phrase, stack);
    PhraseAlone(phrase, t);
    PlainFree(t[phrase]);
    assert Substituted(s, stack, Some(t)) == Cleaning(t[phrase], 0, 0);
  }
}
