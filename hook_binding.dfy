/**
 * HookBinding: a CSS-like selector `tag#id.class1.class2` bound to a hook.
 * Hooks are code outside this model; a binding holds an opaque handle.
 */
module HookBindings {
  import opened Wrappers
  import JavaText

  /** An identifier of a registered hook. */
  type HookId = nat

  /** A parsed selector: tag name, optional id, required style classes. */
  datatype Selector = Selector(tagName: string, id: Option<string>, styleClasses: set<string>)

  datatype HookBinding = HookBinding(tagName: string, id: Option<string>, styleClasses: set<string>, hook: HookId)

  /** The scanner of `parseSelector`: state 0 is the tag name, 1 the id, 2 a class name. */
  datatype Scan = Scan(state: nat, tagName: string, id: string, className: string, classes: set<string>)

  const Start := Scan(0, [], [], [], {})

  /** One character of the selector. */
  function Step(sc: Scan, c: char): Scan
  {
    if c == '#' then sc.(state := 1)
    else if c == '.' then
      if sc.className != [] then sc.(state := 2, className := [], classes := sc.classes + {sc.className})
      else sc.(state := 2)
    else if sc.state == 0 then sc.(tagName := sc.tagName + [c])
    else if sc.state == 1 then sc.(id := sc.id + [c])
    else if sc.state == 2 then sc.(className := sc.className + [c])
    else sc
  }

  function ScanAll(sc: Scan, s: string): Scan
    decreases |s|
  {
    if s == [] then sc else ScanAll(Step(sc, s[0]), s[1..])
  }

  /** The end of the scan: a non-empty id is set and a pending class name is added. */
  function Finish(sc: Scan): Selector
  {
    Selector(sc.tagName,
             if sc.id != [] then Some(sc.id) else None,
             if sc.className != [] then sc.classes + {sc.className} else sc.classes)
  }

  /** What `parseSelector` makes of a selector string. */
  function SelectorOf(s: string): Selector
  {
    ScanSelector(JavaText.Trim(s))
  }

  /** The selector scanned from an already trimmed string. */
  function ScanSelector(t: string): Selector
  {
    Finish(ScanAll(Start, t))
  }

  /** `parseSelector`: one pass over the trimmed selector. */
  method ParseSelector(selector: string) returns (sel: Selector)
    ensures sel == SelectorOf(selector)
    ensures sel.id != Some([]) && [] !in sel.styleClasses
    ensures '#' !in sel.tagName && '.' !in sel.tagName
  {
    var s := JavaText.Trim(selector);
    var state := 0;
    var tagName, id, className := [], [], [];
    var classes: set<string> := {};
    var pos := 0;
    while pos < |s|
      invariant 0 <= pos <= |s|
      invariant ScanAll(Scan(state, tagName, id, className, classes), s[pos..]) == ScanAll(Start, s)
      invariant [] !in classes && '#' !in tagName && '.' !in tagName && state <= 2
    {
      var c := s[pos];
      assert s[pos..][1..] == s[pos + 1..];
      if c == '#' {
        state := 1;
      } else if c == '.' {
        state := 2;
        if |className| > 0 {
          classes := classes + {className};
          className := [];
        }
      } else if state == 0 {
        tagName := tagName + [c];
      } else if state == 1 {
        id := id + [c];
      } else {
        className := className + [c];
      }
      pos := pos + 1;
    }
    var idValue: Option<string> := None;
    if |id| > 0 {
      idValue := Some(id);
    }
    if |className| > 0 {
      classes := classes + {className};
    }
    sel := Selector(tagName, idValue, classes);
  }

  /** `new HookBinding(selector, hook)`. */
  function NewBinding(selector: string, hook: HookId): (b: HookBinding)
    ensures b.hook == hook
    ensures Selector(b.tagName, b.id, b.styleClasses) == SelectorOf(selector)
  {
    var sel := SelectorOf(selector);
    HookBinding(sel.tagName, sel.id, sel.styleClasses, hook)
  }

  /** The canonical spelling of a selector: `tag`, then `#id`, then `.class` for each class. */
  function Format(tagName: string, id: Option<string>, classes: seq<string>): string
  {
    tagName + (if id.Some? then "#" + id.value else []) + Classes(classes)
  }

  function Classes(classes: seq<string>): string
  {
    if classes == [] then [] else "." + classes[0] + Classes(classes[1..])
  }

  /** A character that may appear inside a selector part. */
  predicate NameChar(c: char)
  {
    c != '#' && c != '.' && !JavaText.IsTrimmed(c)
  }

  predicate Name(s: string)
  {
    forall k :: 0 <= k < |s| ==> NameChar(s[k])
  }

  lemma {:induction false} ScanConcat(sc: Scan, a: string, b: string)
    ensures ScanAll(sc, a + b) == ScanAll(ScanAll(sc, a), b)
    decreases |a|
  {
    if a == [] {
      assert a + b == b;
    } else {
      assert (a + b)[0] == a[0] && (a + b)[1..] == a[1..] + b;
      ScanConcat(Step(sc, a[0]), a[1..], b);
    }
  }

  lemma {:induction false} StepName(sc: Scan, c: char)
    requires NameChar(c) && sc.state <= 2
    ensures Step(sc, c) ==
      if sc.state == 0 then sc.(tagName := sc.tagName + [c])
      else if sc.state == 1 then sc.(id := sc.id + [c])
      else sc.(className := sc.className + [c])
  {
  }

  /** Name characters go to the part the scanner is in. */
  lemma {:induction false} ScanName(sc: Scan, s: string)
    requires Name(s) && sc.state <= 2
    ensures ScanAll(sc, s) ==
      if sc.state == 0 then sc.(tagName := sc.tagName + s)
      else if sc.state == 1 then sc.(id := sc.id + s)
      else sc.(className := sc.className + s)
    decreases |s|
  {
    if s != [] {
      StepName(sc, s[0]);
      ScanName(Step(sc, s[0]), s[1..]);
      assert sc.tagName + [s[0]] + s[1..] == sc.tagName + s;
      assert sc.id + [s[0]] + s[1..] == sc.id + s;
      assert sc.className + [s[0]] + s[1..] == sc.className + s;
    }
  }

  /** The elements of a list of class names. */
  function Elements(xs: seq<string>): set<string>
  {
    if xs == [] then {} else {xs[0]} + Elements(xs[1..])
  }

  lemma {:induction false} ScanClasses(sc: Scan, classes: seq<string>)
    requires sc.state <= 2 && (sc.state == 2 || sc.className == [])
    requires forall i :: 0 <= i < |classes| ==> classes[i] != [] && Name(classes[i])
    ensures Finish(ScanAll(sc, Classes(classes))) ==
      Finish(sc).(styleClasses := Finish(sc).styleClasses + Elements(classes))
    decreases |classes|
  {
    if classes != [] {
      var c, tail := classes[0], classes[1..];
      var dot := Step(sc, '.');
      var after := dot.(className := c);
      assert dot.state == 2 && dot.className == [] && dot.classes == Finish(sc).styleClasses;
      assert ScanAll(sc, Classes(classes)) == ScanAll(after, Classes(tail)) by {
        assert Classes(classes) == "." + (c + Classes(tail));
        ScanConcat(sc, ".", c + Classes(tail));
        ScanConcat(dot, c, Classes(tail));
        ScanName(dot, c);
        assert [] + c == c;
      }
      ScanClasses(after, tail);
      assert Finish(after).styleClasses == dot.classes + {c};
    }
  }

  /**
   * Round trip: parsing the canonical spelling of a selector gives back its tag
   * name, its id and the set of its classes.
   */
  lemma {:induction false} ParseFormat(tagName: string, id: Option<string>, classes: seq<string>)
    requires Name(tagName)
    requires id.Some? ==> id.value != [] && Name(id.value)
    requires forall i :: 0 <= i < |classes| ==> classes[i] != [] && Name(classes[i])
    ensures SelectorOf(Format(tagName, id, classes)) == Selector(tagName, id, Elements(classes))
  {
    var s := Format(tagName, id, classes);
    ScanFormat(tagName, id, classes);
    assert JavaText.Trim(s) == s by {
      FormatVisible(tagName, id, classes);
    }
    assert SelectorOf(s) == ScanSelector(s);
  }

  lemma {:induction false} ScanFormat(tagName: string, id: Option<string>, classes: seq<string>)
    requires Name(tagName)
    requires id.Some? ==> id.value != [] && Name(id.value)
    requires forall i :: 0 <= i < |classes| ==> classes[i] != [] && Name(classes[i])
    ensures ScanSelector(Format(tagName, id, classes)) == Selector(tagName, id, Elements(classes))
  {
    var afterId := Start.(tagName := tagName, state := if id.Some? then 1 else 0, id := if id.Some? then id.value else []);
    ScanPrefix(tagName, id, classes);
    ScanFinish(Format(tagName, id, classes), afterId, classes);
  }

  /** Scanning the tag name and the id part of the canonical spelling. */
  lemma {:induction false} ScanPrefix(tagName: string, id: Option<string>, classes: seq<string>)
    requires Name(tagName)
    requires id.Some? ==> Name(id.value)
    ensures ScanAll(Start, Format(tagName, id, classes)) ==
      ScanAll(Start.(tagName := tagName, state := if id.Some? then 1 else 0, id := if id.Some? then id.value else []), Classes(classes))
  {
    var idPart := if id.Some? then "#" + id.value else [];
    var rest := Classes(classes);
    var afterTag := Start.(tagName := tagName);
    var afterId := if id.Some? then afterTag.(state := 1, id := id.value) else afterTag;
    assert ScanAll(Start, tagName) == afterTag by {
      ScanName(Start, tagName);
      assert [] + tagName == tagName;
    }
    assert ScanAll(afterTag, idPart) == afterId by {
      if id.Some? {
        ScanConcat(afterTag, "#", id.value);
        ScanName(afterTag.(state := 1), id.value);
        assert [] + id.value == id.value;
      }
    }
    calc {
      ScanAll(Start, Format(tagName, id, classes));
      { assert Format(tagName, id, classes) == tagName + (idPart + rest); }
      ScanAll(Start, tagName + (idPart + rest));
      { ScanConcat(Start, tagName, idPart + rest); }
      ScanAll(afterTag, idPart + rest);
      { ScanConcat(afterTag, idPart, rest); }
      ScanAll(afterId, rest);
    }
  }

  lemma {:induction false} ScanFinish(f: string, afterId: Scan, classes: seq<string>)
    requires afterId.state <= 1 && afterId.className == [] && afterId.classes == {}
    requires afterId.state == 0 ==> afterId.id == []
    requires forall i :: 0 <= i < |classes| ==> classes[i] != [] && Name(classes[i])
    requires ScanAll(Start, f) == ScanAll(afterId, Classes(classes))
    ensures ScanSelector(f) == Finish(afterId).(styleClasses := Elements(classes))
  {
    ScanClasses(afterId, classes);
    assert {} + Elements(classes) == Elements(classes);
  }

  lemma {:induction false} FormatVisible(tagName: string, id: Option<string>, classes: seq<string>)
    requires Name(tagName)
    requires id.Some? ==> Name(id.value)
    requires forall i :: 0 <= i < |classes| ==> Name(classes[i])
    ensures forall k :: 0 <= k < |Format(tagName, id, classes)| ==> !JavaText.IsTrimmed(Format(tagName, id, classes)[k])
  {
    var s := Format(tagName, id, classes);
    var idPart := if id.Some? then "#" + id.value else [];
    assert s == tagName + idPart + Classes(classes);
    ClassesVisible(classes);
    forall k | 0 <= k < |s| ensures !JavaText.IsTrimmed(s[k]) {
      if k < |tagName| {
      } else if k < |tagName| + |idPart| {
        assert s[k] == idPart[k - |tagName|];
      } else {
        assert s[k] == Classes(classes)[k - |tagName| - |idPart|];
      }
    }
  }

  lemma {:induction false} ClassesVisible(classes: seq<string>)
    requires forall i :: 0 <= i < |classes| ==> Name(classes[i])
    ensures forall k :: 0 <= k < |Classes(classes)| ==> !JavaText.IsTrimmed(Classes(classes)[k])
  {
    if classes != [] {
      ClassesVisible(classes[1..]);
      var c := Classes(classes);
      assert c == "." + classes[0] + Classes(classes[1..]);
      forall k | 0 <= k < |c| ensures !JavaText.IsTrimmed(c[k]) {
        if 1 <= k < 1 + |classes[0]| {
          assert c[k] == classes[0][k - 1];
        } else if k >= 1 + |classes[0]| {
          assert c[k] == Classes(classes[1..])[k - 1 - |classes[0]|];
        }
      }
    }
  }

  /**
   * What a binding accepts: the same tag name, the same id when the binding
   * names one, and every class of the binding among the candidate's classes.
   */
  ghost predicate Accepts(b: HookBinding, tagName: string, id: Option<string>, classes: set<string>)
  {
    tagName == b.tagName && (b.id.Some? ==> id == b.id) && b.styleClasses <= classes
  }

  /**
   * `matches(tagName, id, classes)` as the binding is meant to behave: a
   * candidate without an id does not match a binding that names one.
   */
  method Matches(b: HookBinding, tagName: string, id: Option<string>, classes: set<string>) returns (r: bool)
    ensures r <==> Accepts(b, tagName, id, classes)
  {
    if tagName != b.tagName {
      return false;
    }
    if b.id.Some? && id != b.id {
      return false;
    }
    var todo := b.styleClasses;
    while todo != {}
      invariant todo <= b.styleClasses
      invariant b.styleClasses - todo <= classes
      decreases |todo|
    {
      var c :| c in todo;
      if c !in classes {
        return false;
      }
      todo := todo - {c};
    }
    return true;
  }

  /**
   * `matches(tagName, id, classes)` as written: `testId.equals(id)` is called
   * on the candidate's id, so a candidate with no id facing a binding that
   * names one throws a NullPointerException instead of answering.
   */
  function MatchesAsWritten(b: HookBinding, tagName: string, id: Option<string>, classes: set<string>): (r: Result<bool>)
    ensures r.Err? <==> tagName == b.tagName && b.id.Some? && id.None?
    ensures r.Ok? ==> (r.value <==> Accepts(b, tagName, id, classes))
  {
    if tagName != b.tagName then Ok(false)
    else if b.id.Some? && id.None? then Err("NullPointerException")
    else if b.id.Some? && id != b.id then Ok(false)
    else Ok(b.styleClasses <= classes)
  }

  /** `div#x` bound to a hook, matched against a plain `<div>` with no id: the as-written test throws. */
  lemma {:induction false} MatchesWithoutIdThrows()
    ensures MatchesAsWritten(HookBinding("div", Some("x"), {}, 0), "div", None, {}).Err?
    ensures !Accepts(HookBinding("div", Some("x"), {}, 0), "div", None, {})
  {
  }

  /**
   * `matches(String)`: a selector is parsed and its parts handed to
   * `matches` as written, so a selector without `#` throws against a
   * binding of the same tag name that names an id.
   */
  method MatchesSelector(b: HookBinding, selector: string) returns (r: Result<bool>)
    ensures var sel := SelectorOf(selector);
      (r.Err? <==> sel.tagName == b.tagName && b.id.Some? && sel.id.None?) &&
      (r.Ok? ==> (r.value <==> Accepts(b, sel.tagName, sel.id, sel.styleClasses)))
  {
    var sel := ParseSelector(selector);
    r := MatchesAsWritten(b, sel.tagName, sel.id, sel.styleClasses);
  }

  /** The binding `div#x` asked about the selector `"div"`: `matches(String)` throws. */
  lemma {:induction false} MatchesSelectorWithoutIdThrows()
    ensures var sel := SelectorOf("div");
      sel == Selector("div", None, {}) &&
      MatchesAsWritten(HookBinding("div", Some("x"), {}, 0), sel.tagName, sel.id, sel.styleClasses).Err?
  {
    assert Format("div", None, []) == "div";
    ParseFormat("div", None, []);
  }

  /** A candidate that carries extra classes still matches. */
  lemma {:induction false} AcceptsMoreClasses(b: HookBinding, tagName: string, id: Option<string>, classes: set<string>, more: set<string>)
    requires Accepts(b, tagName, id, classes) && classes <= more
    ensures Accepts(b, tagName, id, more)
  {
  }

  /** `div#x.y` is read as tag `div`, id `x` and the one class `y`. */
  lemma {:induction false} SelectorExample()
    ensures SelectorOf("div#x.y") == Selector("div", Some("x"), {"y"})
  {
    var f := Format("div", Some("x"), ["y"]);
    assert f == "div#x.y" by {
      assert Classes(["y"]) == ".y";
    }
    ParseFormat("div", Some("x"), ["y"]);
    assert Elements(["y"]) == {"y"};
  }

  /** A binding for `div#x.y` accepts a `div#x` carrying classes `y` and `z`, and rejects one with no class. */
  lemma {:induction false} AcceptsExample()
    ensures var b := HookBinding("div", Some("x"), {"y"}, 7);
      Accepts(b, "div", Some("x"), {"y", "z"}) && !Accepts(b, "div", Some("x"), {})
  {
  }
}
