/**
 * Attributes of a tag or insertion node. Java keeps them in a LinkedHashMap
 * from key to Attribute; here that map is the sequence of its entries in
 * insertion order, with distinct keys. A value of `None` is Java's null (a
 * bare attribute such as `checked`), kept distinct from the empty string.
 */
module Attributes {
  import opened Wrappers
  import opened JavaText

  datatype Attribute = Attribute(key: string, value: Option<string>)

  const IdKey := "id"
  const ClassKey := "class"

  /** A possibly null string as Java's string concatenation prints it. */
  function Str(s: Option<string>): (r: string)
    ensures s.Some? ==> r == s.value
    ensures s.None? ==> r == "null"
  {
    if s.None? then "null" else s.value
  }

  /** `Attribute.toString`: the key, `=`, then the value. */
  function AttributeText(a: Attribute): (r: string)
    ensures |r| == |a.key| + 1 + |Str(a.value)|
    ensures '=' !in a.key ==> IndexOfChar(r, '=', 0) == |a.key| && r[..|a.key|] == a.key && r[|a.key| + 1..] == Str(a.value)
  {
    var r := a.key + "=" + Str(a.value);
    assert r[|a.key|] == '=' && r[..|a.key|] == a.key;
    r
  }

  /** The keys in insertion order (`keySet()` of the LinkedHashMap). */
  function Keys(atts: seq<Attribute>): (r: seq<string>)
    ensures |r| == |atts| && forall i :: 0 <= i < |atts| ==> r[i] == atts[i].key
  {
    seq(|atts|, i requires 0 <= i < |atts| => atts[i].key)
  }

  /** No key is stored twice. */
  predicate UniqueKeys(atts: seq<Attribute>)
  {
    forall i, j :: 0 <= i < j < |atts| ==> atts[i].key != atts[j].key
  }

  /** Position of the entry stored under `key`, or -1. */
  function IndexOfKey(atts: seq<Attribute>, key: string): (i: int)
    ensures -1 <= i < |atts|
    ensures i >= 0 ==> atts[i].key == key && forall j :: 0 <= j < i ==> atts[j].key != key
    ensures i == -1 <==> key !in Keys(atts)
  {
    if atts == [] then -1
    else if atts[0].key == key then 0
    else
      var t := IndexOfKey(atts[1..], key);
      assert Keys(atts) == [atts[0].key] + Keys(atts[1..]);
      if t == -1 then -1 else t + 1
  }

  /** `attributes.get(key)`. */
  function Get(atts: seq<Attribute>, key: string): (r: Option<Attribute>)
    ensures r.None? <==> key !in Keys(atts)
    ensures r.Some? ==> r.value.key == key && r.value in atts
  {
    var i := IndexOfKey(atts, key);
    if i < 0 then None else Some(atts[i])
  }

  /** The first entry with key `k` is the one `IndexOfKey` finds. */
  lemma {:induction false} FirstIndex(atts: seq<Attribute>, k: string, j: int)
    requires 0 <= j < |atts| && atts[j].key == k
    requires forall i :: 0 <= i < j ==> atts[i].key != k
    ensures IndexOfKey(atts, k) == j
  {
    assert Keys(atts)[j] == k;
  }

  /** Replacing the entry at `i` by one with the same key changes nothing else a lookup can see. */
  lemma {:induction false} UpdateAt(atts: seq<Attribute>, i: int, a: Attribute, k: string)
    requires 0 <= i < |atts| && IndexOfKey(atts, a.key) == i
    ensures Keys(atts[i := a]) == Keys(atts)
    ensures k != a.key ==> Get(atts[i := a], k) == Get(atts, k)
    ensures Get(atts[i := a], a.key) == Some(a)
  {
    var b := atts[i := a];
    KeysUpdate(atts, i, a);
    assert Get(b, a.key) == Some(a) by {
      FirstIndex(b, a.key, i);
    }
    if k != a.key {
      var j := IndexOfKey(atts, k);
      if j >= 0 {
        FirstIndex(b, k, j);
      }
    }
  }

  lemma {:induction false} KeysUpdate(atts: seq<Attribute>, i: int, a: Attribute)
    requires 0 <= i < |atts| && atts[i].key == a.key
    ensures Keys(atts[i := a]) == Keys(atts)
  {
  }

  /** Appending an entry under a fresh key leaves every other lookup alone. */
  lemma {:induction false} AppendFresh(atts: seq<Attribute>, a: Attribute, k: string)
    requires a.key !in Keys(atts)
    ensures Keys(atts + [a]) == Keys(atts) + [a.key]
    ensures k != a.key ==> Get(atts + [a], k) == Get(atts, k)
    ensures Get(atts + [a], a.key) == Some(a)
  {
    var b := atts + [a];
    assert Keys(b) == Keys(atts) + [a.key];
    var j := IndexOfKey(atts, k);
    if k != a.key && j >= 0 {
      FirstIndex(b, k, j);
    }
    FirstIndex(b, a.key, |atts|);
  }

  /**
   * `addAttribute(key, value)` of TagNode and InsertionNode: a new key is
   * appended; under an existing key whose value is null or empty nothing
   * changes; otherwise the stored value becomes old + " " + value, in place.
   */
  function AddAttribute(atts: seq<Attribute>, key: string, value: Option<string>): (r: seq<Attribute>)
    ensures Keys(r) == if key in Keys(atts) then Keys(atts) else Keys(atts) + [key]
    ensures forall k :: k != key ==> Get(r, k) == Get(atts, k)
    ensures Get(atts, key).None? ==> Get(r, key) == Some(Attribute(key, value))
    ensures Get(atts, key).Some? && (Get(atts, key).value.value.None? || Get(atts, key).value.value == Some([])) ==> r == atts
    ensures Get(atts, key).Some? && Get(atts, key).value.value.Some? && Get(atts, key).value.value.value != [] ==>
      Get(r, key) == Some(Attribute(key, Some(Get(atts, key).value.value.value + " " + Str(value))))
    ensures UniqueKeys(atts) ==> UniqueKeys(r)
  {
    var i := IndexOfKey(atts, key);
    if i < 0 then
      var a := Attribute(key, value);
      assert forall k :: k != key ==> Get(atts + [a], k) == Get(atts, k) by {
        forall k | k != key { AppendFresh(atts, a, k); }
      }
      AppendFresh(atts, a, key);
      atts + [a]
    else if atts[i].value.None? || atts[i].value.value == [] then atts
    else
      var a := Attribute(key, Some(atts[i].value.value + " " + Str(value)));
      assert forall k :: k != key ==> Get(atts[i := a], k) == Get(atts, k) by {
        forall k | k != key { UpdateAt(atts, i, a, k); }
      }
      UpdateAt(atts, i, a, key);
      atts[i := a]
  }

  /** `removeAttribute(key)`: the entry is taken out and returned (null when absent). */
  function RemoveAttribute(atts: seq<Attribute>, key: string): (r: (seq<Attribute>, Option<Attribute>))
    ensures r.1 == Get(atts, key)
    ensures r.1.None? ==> r.0 == atts
    ensures UniqueKeys(atts) ==> UniqueKeys(r.0) && key !in Keys(r.0)
    ensures forall k :: k != key ==> Get(r.0, k) == Get(atts, k)
  {
    var i := IndexOfKey(atts, key);
    if i < 0 then (atts, None)
    else
      RemoveFacts(atts, key, i);
      (Without(atts, i), Some(atts[i]))
  }

  /** What taking out the entry of `key` at `i` leaves. */
  lemma {:induction false} RemoveFacts(atts: seq<Attribute>, key: string, i: int)
    requires 0 <= i < |atts| && atts[i].key == key
    ensures forall k :: k != key ==> Get(Without(atts, i), k) == Get(atts, k)
    ensures UniqueKeys(atts) ==> UniqueKeys(Without(atts, i)) && key !in Keys(Without(atts, i))
  {
    forall k | k != key
      ensures Get(Without(atts, i), k) == Get(atts, k)
    {
      RemoveAt(atts, i, k);
    }
    if UniqueKeys(atts) {
      RemoveUnique(atts, i);
    }
  }

  /** The entries with the one at `i` taken out. */
  function Without(atts: seq<Attribute>, i: int): (r: seq<Attribute>)
    requires 0 <= i < |atts|
    ensures |r| == |atts| - 1
    ensures forall j :: 0 <= j < |r| ==> r[j] == atts[if j < i then j else j + 1]
  {
    atts[..i] + atts[i + 1..]
  }

  lemma {:induction false} RemoveUnique(atts: seq<Attribute>, i: int)
    requires UniqueKeys(atts) && 0 <= i < |atts|
    ensures UniqueKeys(Without(atts, i))
    ensures atts[i].key !in Keys(Without(atts, i))
  {
    var rest := Without(atts, i);
    forall p, q | 0 <= p < q < |rest| ensures rest[p].key != rest[q].key {
      assert rest[p] == atts[if p < i then p else p + 1];
    }
    forall j | 0 <= j < |rest| ensures Keys(rest)[j] != atts[i].key {
      assert rest[j] == atts[if j < i then j else j + 1];
    }
  }

  /** Taking out the entry at `i` leaves every other lookup alone. */
  lemma {:induction false} RemoveAt(atts: seq<Attribute>, i: int, k: string)
    requires 0 <= i < |atts| && k != atts[i].key
    ensures Get(Without(atts, i), k) == Get(atts, k)
  {
    var j := IndexOfKey(atts, k);
    if j >= 0 {
      RemoveBefore(atts, i, k, j);
    } else {
      RemoveMissing(atts, i, k);
    }
  }

  lemma {:induction false} RemoveBefore(atts: seq<Attribute>, i: int, k: string, j: int)
    requires 0 <= i < |atts| && k != atts[i].key && 0 <= j && IndexOfKey(atts, k) == j
    ensures IndexOfKey(Without(atts, i), k) == if j < i then j else j - 1
  {
    var rest := Without(atts, i);
    var j' := if j < i then j else j - 1;
    forall m | 0 <= m < j' ensures rest[m].key != k {
      assert rest[m] == atts[if m < i then m else m + 1];
    }
    assert rest[j'] == atts[j];
    FirstIndex(rest, k, j');
  }

  lemma {:induction false} RemoveMissing(atts: seq<Attribute>, i: int, k: string)
    requires 0 <= i < |atts| && k !in Keys(atts)
    ensures k !in Keys(Without(atts, i))
  {
    var rest := Without(atts, i);
    forall m | 0 <= m < |rest| ensures Keys(rest)[m] != k {
      assert rest[m] == atts[if m < i then m else m + 1];
      assert Keys(atts)[if m < i then m else m + 1] != k;
    }
  }

  /**
   * `setAttribute(key, value)`: remove, then add; the key ends up holding
   * exactly `value`, and it moves to the end of the order the attributes
   * are kept (and written) in.
   */
  function SetAttribute(atts: seq<Attribute>, key: string, value: Option<string>): (r: seq<Attribute>)
    requires UniqueKeys(atts)
    ensures UniqueKeys(r)
    ensures Keys(r) == Keys(RemoveAttribute(atts, key).0) + [key]
    ensures Get(r, key) == Some(Attribute(key, value))
    ensures forall k :: k != key ==> Get(r, k) == Get(atts, k)
  {
    AddAttribute(RemoveAttribute(atts, key).0, key, value)
  }

  /** The value stored under `key`, null when the key is absent or holds null. */
  function ValueOf(atts: seq<Attribute>, key: string): (r: Option<string>)
    ensures key !in Keys(atts) ==> r.None?
    ensures r.Some? ==> Attribute(key, r) in atts
  {
    var a := Get(atts, key);
    if a.None? then None else a.value.value
  }

  /** The class names of a `class` value: Java's `value.split("\\s")`. */
  function StyleTokens(value: string): seq<string>
  {
    Split(value, IsRegexSpace)
  }

  /** A class name as `addStyleClass` is meant to be called with: non-empty, no whitespace. */
  predicate ClassName(c: string)
  {
    c != [] && forall k :: 0 <= k < |c| ==> !IsRegexSpace(c[k])
  }

  /**
   * `hasStyleClass(c)` as written: with no `class` attribute it is false; a
   * `class` attribute holding null (a bare `class`) makes `getValue().split`
   * throw a NullPointerException.
   */
  function HasStyleClassAsWritten(atts: seq<Attribute>, c: string): (r: Result<bool>)
    ensures r.Err? <==> ClassKey in Keys(atts) && ValueOf(atts, ClassKey).None?
  {
    var a := Get(atts, ClassKey);
    if a.None? then Ok(false)
    else if a.value.value.None? then Err("NullPointerException")
    else Ok(c in StyleTokens(a.value.value.value))
  }

  /** `hasStyleClass(c)` with a null class value read as no classes. */
  predicate HasStyleClass(atts: seq<Attribute>, c: string)
  {
    var v := ValueOf(atts, ClassKey);
    v.Some? && c in StyleTokens(v.value)
  }

  /** Wherever the method as written returns, it agrees with the corrected test. */
  lemma {:induction false} HasStyleClassAgrees(atts: seq<Attribute>, c: string)
    ensures HasStyleClassAsWritten(atts, c).Ok? ==> HasStyleClassAsWritten(atts, c).value == HasStyleClass(atts, c)
  {
  }

  /** The bare attribute `div(class)` produces throws in the method as written. */
  lemma {:induction false} BareClassThrows()
    ensures HasStyleClassAsWritten(AddAttribute([], ClassKey, None), "x").Err?
    ensures !HasStyleClass(AddAttribute([], ClassKey, None), "x")
  {
    assert AddAttribute([], ClassKey, None) == [Attribute(ClassKey, None)];
  }

  /**
   * `addStyleClass(c)`: with no `class` attribute one is created; a null or
   * empty value is set to `c`; when `c` is already a token nothing changes and
   * the result is false; otherwise " " + c is appended. Returns whether the
   * class was added.
   */
  function AddStyleClass(atts: seq<Attribute>, c: string): (r: (seq<Attribute>, bool))
    ensures !r.1 <==> exists v :: ValueOf(atts, ClassKey) == Some(v) && v != [] && c in StyleTokens(v)
    ensures !r.1 ==> r.0 == atts
    ensures Keys(r.0) == if ClassKey in Keys(atts) then Keys(atts) else Keys(atts) + [ClassKey]
    ensures forall k :: k != ClassKey ==> Get(r.0, k) == Get(atts, k)
    ensures UniqueKeys(atts) ==> UniqueKeys(r.0)
    ensures r.1 && (ValueOf(atts, ClassKey).None? || ValueOf(atts, ClassKey) == Some([])) ==> ValueOf(r.0, ClassKey) == Some(c)
    ensures r.1 && ValueOf(atts, ClassKey).Some? && ValueOf(atts, ClassKey) != Some([]) ==>
      ValueOf(r.0, ClassKey) == Some(ValueOf(atts, ClassKey).value + " " + c)
  {
    var i := IndexOfKey(atts, ClassKey);
    if i < 0 then
      (AddAttribute(atts, ClassKey, Some(c)), true)
    else
      var v := atts[i].value;
      if v.None? || v.value == [] then
        var a := Attribute(ClassKey, Some(c));
        assert forall k :: k != ClassKey ==> Get(atts[i := a], k) == Get(atts, k) by {
          forall k | k != ClassKey { UpdateAt(atts, i, a, k); }
        }
        UpdateAt(atts, i, a, ClassKey);
        (atts[i := a], true)
      else if c in StyleTokens(v.value) then (atts, false)
      else
        (AddAttribute(atts, ClassKey, Some(c)), true)
  }

  /** Appending a separator and a piece with no separator adds exactly that last piece. */
  lemma {:induction false} PiecesSnoc(a: string, g: char, c: string, sep: char -> bool)
    requires sep(g) && forall k :: 0 <= k < |c| ==> !sep(c[k])
    ensures Pieces(a + [g] + c, sep) == Pieces(a, sep) + [c]
  {
    if a == [] {
      assert [] + [g] + c == [g] + c && ([g] + c)[1..] == c;
    } else {
      PiecesSnoc(a[1..], g, c, sep);
      assert (a + [g] + c)[1..] == a[1..] + [g] + c;
      assert (a + [g] + c)[0] == a[0];
    }
  }

  /** `split` keeps the pieces it does not drop: each token is a piece. */
  lemma {:induction false} SplitTokensArePieces(s: string, sep: char -> bool, t: string)
    requires t in Split(s, sep)
    ensures t in Pieces(s, sep)
  {
  }

  /** The class tokens after " " + c is appended: the old pieces, then `c`. */
  lemma {:induction false} TokensAfterAppend(v: string, c: string)
    requires ClassName(c)
    ensures StyleTokens(v + " " + c) == Pieces(v, IsRegexSpace) + [c]
  {
    PiecesSnoc(v, ' ', c, IsRegexSpace);
    var s := v + " " + c;
    assert s == v + [' '] + c;
    assert IsRegexSpace(s[|v|]);
  }

  /** After `addStyleClass(c)` with a proper class name, the element has class `c`. */
  lemma {:induction false} AddStyleClassHas(atts: seq<Attribute>, c: string)
    requires ClassName(c)
    ensures HasStyleClass(AddStyleClass(atts, c).0, c)
  {
    var v := ValueOf(atts, ClassKey);
    if AddStyleClass(atts, c).1 {
      if v.None? || v == Some([]) {
        assert StyleTokens(c) == [c];
      } else {
        TokensAfterAppend(v.value, c);
      }
    }
  }

  /** `addStyleClass` never takes a class name away. */
  lemma {:induction false} AddStyleClassKeeps(atts: seq<Attribute>, c: string, other: string)
    requires ClassName(c) && ClassName(other) && HasStyleClass(atts, other)
    ensures HasStyleClass(AddStyleClass(atts, c).0, other)
  {
    var v := ValueOf(atts, ClassKey);
    if AddStyleClass(atts, c).1 && v.Some? && v.value != [] {
      TokensAfterAppend(v.value, c);
      SplitTokensArePieces(v.value, IsRegexSpace, other);
    }
  }
}
