/**
 * The few java.lang.String operations the core relies on, with their Java
 * meanings written out: trim, split on single whitespace characters, indexOf,
 * replace, startsWith and endsWith. Strings are sequences of UTF-16 units,
 * modelled as `seq<char>`.
 */
module JavaText {

  /** `String.trim` removes every character whose code is at most U+0020. */
  predicate IsTrimmed(c: char)
  {
    c <= ' '
  }

  function TrimLeft(s: string): (r: string)
    ensures |r| <= |s| && r == s[|s| - |r|..]
    ensures r == [] || !IsTrimmed(r[0])
    ensures forall k :: 0 <= k < |s| - |r| ==> IsTrimmed(s[k])
  {
    if s == [] || !IsTrimmed(s[0]) then s else TrimLeft(s[1..])
  }

  function TrimRight(s: string): (r: string)
    ensures |r| <= |s| && r == s[..|r|]
    ensures r == [] || !IsTrimmed(r[|r| - 1])
    ensures forall k :: |r| <= k < |s| ==> IsTrimmed(s[k])
  {
    if s == [] || !IsTrimmed(s[|s| - 1]) then s else TrimRight(s[..|s| - 1])
  }

  /** `String.trim` keeps one contiguous run of its argument. */
  lemma {:induction false} TrimInside(s: string) returns (a: nat)
    ensures a + |Trim(s)| <= |s| && Trim(s) == s[a..a + |Trim(s)|]
  {
    var l := TrimLeft(s);
    a := |s| - |l|;
    assert Trim(s) == l[..|Trim(s)|];
  }

  /** A string that neither starts nor ends with a trimmed character is its own trim. */
  lemma {:induction false} TrimKeeps(s: string)
    requires s == [] || (!IsTrimmed(s[0]) && !IsTrimmed(s[|s| - 1]))
    ensures Trim(s) == s
  {
    assert TrimLeft(s) == s;
  }

  /** `String.trim`. */
  function Trim(s: string): (r: string)
    ensures |r| <= |s|
    ensures r == [] || (!IsTrimmed(r[0]) && !IsTrimmed(r[|r| - 1]))
    ensures r == [] <==> forall k :: 0 <= k < |s| ==> IsTrimmed(s[k])
    ensures (forall k :: 0 <= k < |s| ==> !IsTrimmed(s[k])) ==> r == s
  {
    TrimRight(TrimLeft(s))
  }

  /** `s.trim().isEmpty()`. */
  predicate IsBlank(s: string)
  {
    Trim(s) == []
  }

  /** The characters matched by Java's regular-expression class `\s`. */
  predicate IsRegexSpace(c: char)
  {
    c == ' ' || c == '\t' || c == '\n' || c == '\U{000B}' || c == '\U{000C}' || c == '\r'
  }

  /** A space or a tab: the indentation and separator characters of both line formats. */
  predicate IsBlankChar(c: char)
  {
    c == ' ' || c == '\t'
  }

  /** The end of the run of spaces and tabs starting at `i`. */
  function LeadingBlanks(line: string, i: nat): (r: nat)
    requires i <= |line|
    ensures i <= r <= |line| && (r == |line| || !IsBlankChar(line[r]))
    ensures forall k :: i <= k < r ==> IsBlankChar(line[k])
    decreases |line| - i
  {
    if i < |line| && IsBlankChar(line[i]) then LeadingBlanks(line, i + 1) else i
  }

  /** The line terminators that Java's `.` does not match. */
  predicate IsLineTerminator(c: char)
  {
    c == '\n' || c == '\r' || c == '\U{0085}' || c == '\U{2028}' || c == '\U{2029}'
  }

  /** The pieces of `s` between every single separator character, empty pieces kept. */
  function Pieces(s: string, sep: char -> bool): (r: seq<string>)
    ensures |r| >= 1
    ensures (forall k :: 0 <= k < |s| ==> !sep(s[k])) ==> r == [s]
  {
    if s == [] then [[]]
    else
      var rest := Pieces(s[1..], sep);
      assert (forall k :: 0 <= k < |s| ==> !sep(s[k])) ==> forall k :: 0 <= k < |s[1..]| ==> !sep(s[1..][k]);
      if sep(s[0]) then [[]] + rest
      else
        assert s == [s[0]] + s[1..];
        [[s[0]] + rest[0]] + rest[1..]
  }

  /** Drops the empty strings at the end of a list (what `String.split` does). */
  function DropTrailingEmpty(p: seq<string>): (r: seq<string>)
    ensures |r| <= |p| && r == p[..|r|]
    ensures r == [] || r[|r| - 1] != []
    ensures forall k :: |r| <= k < |p| ==> p[k] == []
  {
    if p == [] || p[|p| - 1] != [] then p else DropTrailingEmpty(p[..|p| - 1])
  }

  /**
   * `String.split(regex)` for a regex matching exactly one character: with no
   * separator the result is `[s]`; otherwise the pieces with trailing empty
   * strings removed.
   */
  function Split(s: string, sep: char -> bool): (r: seq<string>)
    ensures (forall k :: 0 <= k < |s| ==> !sep(s[k])) ==> r == [s]
  {
    if forall k :: 0 <= k < |s| ==> !sep(s[k]) then [s] else DropTrailingEmpty(Pieces(s, sep))
  }

  /** The pieces never contain a separator, and joined back with one separator each they give `s`. */
  lemma {:induction false} PiecesJoin(s: string, sep: char -> bool, glue: char)
    requires sep(glue)
    ensures forall i, k :: 0 <= i < |Pieces(s, sep)| && 0 <= k < |Pieces(s, sep)[i]| ==> !sep(Pieces(s, sep)[i][k])
    ensures JoinWith(Pieces(s, sep), [glue]) == s || exists k :: 0 <= k < |s| && sep(s[k]) && s[k] != glue
  {
    if s != [] {
      PiecesJoin(s[1..], sep, glue);
      var rest := Pieces(s[1..], sep);
      if sep(s[0]) {
        assert Pieces(s, sep) == [[]] + rest;
        if JoinWith(rest, [glue]) == s[1..] {
          if s[0] == glue {
            assert JoinWith(Pieces(s, sep), [glue]) == [] + [glue] + JoinWith(rest, [glue]);
            assert s == [s[0]] + s[1..];
          }
        } else {
          var k :| 0 <= k < |s[1..]| && sep(s[1..][k]) && s[1..][k] != glue;
          assert sep(s[k + 1]) && s[k + 1] != glue;
        }
      } else {
        var ps := Pieces(s, sep);
        assert ps == [[s[0]] + rest[0]] + rest[1..];
        forall i, k | 0 <= i < |ps| && 0 <= k < |ps[i]| ensures !sep(ps[i][k]) {
          if i == 0 && k > 0 { assert ps[0][k] == rest[0][k - 1]; }
          if i > 0 { assert ps[i] == rest[i]; }
        }
        if JoinWith(rest, [glue]) == s[1..] {
          JoinWithCons(rest, [glue], s[0]);
          assert s == [s[0]] + s[1..];
        } else {
          var k :| 0 <= k < |s[1..]| && sep(s[1..][k]) && s[1..][k] != glue;
          assert sep(s[k + 1]) && s[k + 1] != glue;
        }
      }
    }
  }

  /** Concatenates the strings with `glue` between neighbours. */
  function JoinWith(parts: seq<string>, glue: string): (r: string)
    ensures |parts| == 1 ==> r == parts[0]
    ensures parts == [] ==> r == []
  {
    if parts == [] then []
    else if |parts| == 1 then parts[0]
    else parts[0] + glue + JoinWith(parts[1..], glue)
  }

  lemma {:induction false} JoinWithCons(parts: seq<string>, glue: string, c: char)
    requires |parts| >= 1
    ensures JoinWith([[c] + parts[0]] + parts[1..], glue) == [c] + JoinWith(parts, glue)
  {
    var ps := [[c] + parts[0]] + parts[1..];
    assert ps[1..] == parts[1..];
  }

  /** `s.indexOf(c, from)`: the first position at or after `from` holding `c`, or -1. */
  function IndexOfChar(s: string, c: char, from: nat): (r: int)
    decreases |s| - from
    ensures r == -1 || (from <= r < |s| && s[r] == c)
    ensures forall k :: from <= k < |s| && (r == -1 || k < r) ==> s[k] != c
  {
    if from >= |s| then -1 else if s[from] == c then from else IndexOfChar(s, c, from + 1)
  }

  /** `s.startsWith(p)` at position `at`. */
  predicate HasAt(s: string, p: string, at: nat)
  {
    at + |p| <= |s| && s[at..at + |p|] == p
  }

  /** `s.indexOf(p, from)`: the first position at or after `from` where `p` occurs, or -1. */
  function IndexOf(s: string, p: string, from: nat): (r: int)
    decreases |s| - from
    ensures r == -1 || (from <= r && HasAt(s, p, r))
    ensures forall k :: from <= k && (r == -1 || k < r) ==> !HasAt(s, p, k)
  {
    if from + |p| > |s| then -1 else if HasAt(s, p, from) then from else IndexOf(s, p, from + 1)
  }

  predicate Contains(s: string, p: string)
  {
    exists k :: 0 <= k <= |s| && HasAt(s, p, k)
  }

  predicate StartsWith(s: string, p: string)
  {
    HasAt(s, p, 0)
  }

  predicate EndsWith(s: string, p: string)
  {
    |p| <= |s| && s[|s| - |p|..] == p
  }

  /** `s.replace(target, replacement)`: every occurrence, scanning left to right without overlap. */
  function Replace(s: string, target: string, replacement: string): (r: string)
    requires target != []
    ensures (forall k :: 0 <= k <= |s| ==> !HasAt(s, target, k)) ==> r == s
  {
    if |s| < |target| then s
    else if s[..|target|] == target then
      assert HasAt(s, target, 0);
      replacement + Replace(s[|target|..], target, replacement)
    else
      HasAtTail(s, target);
      [s[0]] + Replace(s[1..], target, replacement)
  }

  lemma {:induction false} HasAtTail(s: string, p: string)
    requires s != []
    ensures forall k :: 0 <= k <= |s[1..]| && HasAt(s[1..], p, k) ==> HasAt(s, p, k + 1)
  {
    forall k | 0 <= k <= |s[1..]| && HasAt(s[1..], p, k) ensures HasAt(s, p, k + 1) {
      assert s[1..][k..k + |p|] == s[k + 1..k + 1 + |p|];
    }
  }

  /** `s.replace(c, d)` on single characters. */
  function ReplaceChar(s: string, c: char, d: char): (r: string)
    ensures |r| == |s|
    ensures forall k :: 0 <= k < |s| ==> r[k] == (if s[k] == c then d else s[k])
  {
    if s == [] then [] else [if s[0] == c then d else s[0]] + ReplaceChar(s[1..], c, d)
  }

  /** A single-character target not present in the replacement is gone afterwards. */
  lemma {:induction false} ReplaceRemovesChar(s: string, c: char, replacement: string)
    requires c !in replacement
    ensures c !in Replace(s, [c], replacement)
  {
    if |s| >= 1 {
      ReplaceRemovesChar(s[1..], c, replacement);
    }
  }

  /** A character absent from the text and from the replacement is absent from the result. */
  lemma {:induction false} ReplaceKeepsAbsent(s: string, target: string, replacement: string, d: char)
    requires target != [] && d !in s && d !in replacement
    ensures d !in Replace(s, target, replacement)
    decreases |s|
  {
    if |s| >= |target| {
      if s[..|target|] == target {
        ReplaceKeepsAbsent(s[|target|..], target, replacement, d);
      } else {
        ReplaceKeepsAbsent(s[1..], target, replacement, d);
      }
    }
  }

  /** Every character `c` removed: `s.replaceAll("c", "")` for a character that is not a regex metacharacter. */
  function RemoveChar(s: string, c: char): (r: string)
    ensures c !in r
    ensures |r| <= |s|
    ensures c !in s ==> r == s
    ensures forall d :: d in r ==> d in s
  {
    if s == [] then [] else (if s[0] == c then [] else [s[0]]) + RemoveChar(s[1..], c)
  }

  /** `s` concatenated `n` times (no copies when `n` is not positive). */
  function Repeat(s: string, n: int): (r: string)
    decreases if n < 0 then 0 else n
    ensures |r| == if n <= 0 then 0 else n * |s|
  {
    if n <= 0 then [] else s + Repeat(s, n - 1)
  }

  /** One more copy goes at the end. */
  lemma {:induction false} RepeatSnoc(s: string, n: nat)
    ensures Repeat(s, n) + s == Repeat(s, n + 1)
  {
    if n > 0 {
      RepeatSnoc(s, n - 1);
    }
  }

  /** A repetition of a string made of one character is made of that character only. */
  lemma {:induction false} RepeatOnly(s: string, n: int, c: char)
    requires forall k :: 0 <= k < |s| ==> s[k] == c
    ensures forall k :: 0 <= k < |Repeat(s, n)| ==> Repeat(s, n)[k] == c
  {
    if n > 0 {
      RepeatOnly(s, n - 1, c);
      assert Repeat(s, n) == s + Repeat(s, n - 1);
    }
  }

  /** The characters of `s` that `keep` accepts, in order. */
  function Filter(s: string, keep: char -> bool): (r: string)
    ensures |r| <= |s|
    ensures forall k :: 0 <= k < |r| ==> keep(r[k])
    ensures forall c :: c in s && keep(c) ==> c in r
    ensures forall c :: c in r ==> c in s
  {
    if s == [] then [] else (if keep(s[0]) then [s[0]] else []) + Filter(s[1..], keep)
  }

  /** Filtering one more character keeps or drops just that character. */
  lemma {:induction false} FilterSnoc(s: string, c: char, keep: char -> bool)
    ensures Filter(s + [c], keep) == Filter(s, keep) + (if keep(c) then [c] else [])
  {
    if s == [] {
      assert [] + [c] == [c];
      assert [c][1..] == [];
    } else {
      assert (s + [c])[1..] == s[1..] + [c];
      FilterSnoc(s[1..], c, keep);
    }
  }
}
