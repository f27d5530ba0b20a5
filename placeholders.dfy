/**
 * The control characters the parser puts into template text in place of
 * escapes and placeholders, and the one regular-expression shape the
 * renderer uses to find them: `([^S]*)S([^E]*)E(.*)` matched against the
 * whole string, for a start character S and an end character E.
 */
module Placeholders {
  import opened Wrappers
  import opened JavaText

  /** Escaped `{`, `}` and backtick, kept out of the way of the lexer (Tucker.java). */
  const LeftBrace: char := '\U{0001}'
  const RightBrace: char := '\U{0002}'
  const BackTick: char := '\U{0003}'
  /** `$name` becomes VarStart name VarEnd. */
  const VarStart: char := '\U{0004}'
  const VarEnd: char := '\U{0005}'
  /** A backtick phrase becomes PhraseStart text PhraseEnd. */
  const PhraseStart: char := '\U{0006}'
  const PhraseEnd: char := '\U{0007}'
  /** `&name` becomes BoolStart name BoolEnd. */
  const BoolStart: char := '\U{001C}'
  const BoolEnd: char := '\U{001D}'

  const Lt := "&lt;"
  const Gt := "&gt;"

  /** No character that Java's `.` refuses to match. */
  predicate NoTerminator(s: string)
  {
    forall k :: 0 <= k < |s| ==> !IsLineTerminator(s[k])
  }

  /** The three groups of a match. */
  datatype Groups = Groups(before: string, inner: string, after: string)

  /**
   * `Pattern.compile("([^S]*)S([^E]*)E(.*)").matcher(s).matches()` and its
   * groups: the text before the first S, the text up to the first E after
   * it, and the rest, which must hold no line terminator.
   */
  function Find(s: string, open: char, close: char): (r: Option<Groups>)
    ensures r.Some? ==> s == r.value.before + [open] + r.value.inner + [close] + r.value.after
    ensures r.Some? ==> open !in r.value.before && close !in r.value.inner && NoTerminator(r.value.after)
    ensures open !in s ==> r.None?
  {
    var i := IndexOfChar(s, open, 0);
    if i < 0 then None
    else
      var j := IndexOfChar(s, close, i + 1);
      if j < 0 || !NoTerminator(s[j + 1..]) then None
      else
        assert s == s[..i] + [open] + s[i + 1..j] + [close] + s[j + 1..];
        Some(Groups(s[..i], s[i + 1..j], s[j + 1..]))
  }

  /** The match is the only way to cut the string that way: any such cut is the one `Find` returns. */
  lemma {:induction false} FindUnique(s: string, open: char, close: char, g: Groups)
    requires open != close
    requires s == g.before + [open] + g.inner + [close] + g.after
    requires open !in g.before && close !in g.inner && NoTerminator(g.after)
    ensures Find(s, open, close) == Some(g)
  {
    var i := |g.before|;
    var j := i + 1 + |g.inner|;
    assert s[i] == open && s[j] == close;
    assert forall k :: 0 <= k < i ==> s[k] == g.before[k];
    assert forall k :: i < k < j ==> s[k] == g.inner[k - i - 1];
    assert IndexOfChar(s, open, 0) == i;
    assert IndexOfChar(s, close, i + 1) == j;
    assert s[..i] == g.before && s[i + 1..j] == g.inner && s[j + 1..] == g.after;
  }

  /** The characters the parser reserves, and the two the renderer escapes. */
  predicate PlainChar(c: char)
  {
    c != LeftBrace && c != RightBrace && c != BackTick && c != VarStart && c != VarEnd &&
    c != PhraseStart && c != PhraseEnd && c != BoolStart && c != BoolEnd && c != '<' && c != '>'
  }

  predicate Plain(s: string)
  {
    forall c :: c in s ==> PlainChar(c)
  }
}
