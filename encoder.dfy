/**
 * HTML escaping of variable values (Encoder.encodeForHtml). The entity table
 * (Html4EntityMap.ESCAPE) is not part of this model: it is a parameter, a map
 * from one-character strings to entity text.
 */
module Encoder {
  import opened Wrappers

  const HexChars: string := "0123456789ABCDEF"

  /** The range `'\200' <= c < '\377'` that gets a hexadecimal character reference. */
  predicate InHexRange(c: char)
  {
    0x80 <= c as int < 0xFF
  }

  /** The value of an upper-case hexadecimal digit. */
  function HexValue(d: char): int
  {
    if '0' <= d <= '9' then d as int - '0' as int
    else if 'A' <= d <= 'F' then d as int - 'A' as int + 10
    else -1
  }

  /** What one character of the input becomes. */
  function EncodeChar(c: char, escape: map<string, string>): string
  {
    if [c] in escape then escape[[c]]
    else if InHexRange(c) then "&#x" + [HexChars[c as int / 16], HexChars[c as int % 16]] + ";"
    else [c]
  }

  /** The escaped text of `s`: each character's encoding, in order. */
  function Encoded(s: string, escape: map<string, string>): string
  {
    if s == [] then [] else Encoded(s[..|s| - 1], escape) + EncodeChar(s[|s| - 1], escape)
  }

  /** `encodeForHtml`: null and the empty string come back unchanged; everything else is escaped character by character. */
  method EncodeForHtml(input: Option<string>, escape: map<string, string>) returns (r: Option<string>)
    ensures input.None? ==> r.None?
    ensures input == Some([]) ==> r == input
    ensures input.Some? ==> r == Some(Encoded(input.value, escape))
  {
    if input.None? || input.value == [] {
      return input;
    }
    var s := input.value;
    var out := [];
    var i := 0;
    while i < |s|
      invariant 0 <= i <= |s|
      invariant out == Encoded(s[..i], escape)
    {
      assert s[..i + 1][..i] == s[..i];
      out := out + EncodeChar(s[i], escape);
      i := i + 1;
    }
    assert s[..i] == s;
    return Some(out);
  }

  /** Escaping works piece by piece: the escape of a concatenation is the concatenation of the escapes. */
  lemma {:induction false} EncodedConcat(a: string, b: string, escape: map<string, string>)
    ensures Encoded(a + b, escape) == Encoded(a, escape) + Encoded(b, escape)
  {
    if b != [] {
      assert (a + b)[..|a + b| - 1] == a + b[..|b| - 1];
      EncodedConcat(a, b[..|b| - 1], escape);
    } else {
      assert a + b == a;
    }
  }

  /** With an entity table whose entries are all non-empty, the output is never shorter than the input. */
  lemma {:induction false} EncodedNotShorter(s: string, escape: map<string, string>)
    requires forall k :: k in escape ==> escape[k] != []
    ensures |Encoded(s, escape)| >= |s|
  {
    if s != [] {
      EncodedNotShorter(s[..|s| - 1], escape);
    }
  }

  /** Text with no table character and nothing in the hexadecimal range is left exactly as it is. */
  lemma {:induction false} EncodedPlain(s: string, escape: map<string, string>)
    requires forall k :: 0 <= k < |s| ==> [s[k]] !in escape && !InHexRange(s[k])
    ensures Encoded(s, escape) == s
  {
    if s != [] {
      EncodedPlain(s[..|s| - 1], escape);
      assert s == s[..|s| - 1] + [s[|s| - 1]];
    }
  }

  /**
   * A character in the hexadecimal range with no table entry becomes `&#xHL;`
   * with upper-case digits H and L whose value is the character's code.
   */
  lemma {:induction false} HexReference(c: char, escape: map<string, string>)
    requires [c] !in escape && InHexRange(c)
    ensures var e := EncodeChar(c, escape);
      |e| == 6 && e[..3] == "&#x" && e[5] == ';' &&
      HexValue(e[3]) * 16 + HexValue(e[4]) == c as int
  {
    var e := EncodeChar(c, escape);
    var hi, lo := c as int / 16, c as int % 16;
    assert hi * 16 + lo == c as int;
    assert 8 <= hi < 16;
    assert HexValue(HexChars[hi]) == hi by {
      if hi == 8 {} else if hi == 9 {} else if hi == 10 {} else if hi == 11 {}
      else if hi == 12 {} else if hi == 13 {} else if hi == 14 {} else {}
    }
    assert HexValue(HexChars[lo]) == lo by { HexDigitValue(lo); }
  }

  lemma {:induction false} HexDigitValue(v: int)
    requires 0 <= v < 16
    ensures HexValue(HexChars[v]) == v
  {
    if v == 0 {} else if v == 1 {} else if v == 2 {} else if v == 3 {}
    else if v == 4 {} else if v == 5 {} else if v == 6 {} else if v == 7 {}
    else if v == 8 {} else if v == 9 {} else if v == 10 {} else if v == 11 {}
    else if v == 12 {} else if v == 13 {} else if v == 14 {} else {}
  }
}
