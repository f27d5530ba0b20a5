/**
 * ScopeContext: the stack of scopes a render walks through, and the current
 * indent. The stack is a sequence whose first element is the top (the order
 * in which an `ArrayDeque` used as a stack iterates).
 */
module ScopeContexts {
  import opened Wrappers
  import opened Scopes
  import opened HookBindings
  import JavaText

  /** `INDENT_WHITESPACE`: one level of indent. */
  const IndentWhitespace := "  "

  /** The variable a stack shows: the top scope's, null for an empty stack. */
  function TopVariable(stack: seq<Scope>, name: string): (r: Option<string>)
  {
    if stack == [] then None else Scopes.GetVariable(stack[0], name)
  }

  /** The boolean a stack shows: the top scope's, false for an empty stack. */
  function TopBoolean(stack: seq<Scope>, name: string): (r: bool)
  {
    stack != [] && Scopes.GetBoolean(stack[0], name)
  }

  /**
   * The hook `findHook` picks: that of the first binding, in list order, that
   * accepts the candidate; none when no binding does.
   */
  ghost function FirstHook(bindings: seq<HookBinding>, tagName: string, id: Option<string>, classes: set<string>): (r: Option<HookId>)
    decreases |bindings|
  {
    if bindings == [] then None
    else if Accepts(bindings[0], tagName, id, classes) then Some(bindings[0].hook)
    else FirstHook(bindings[1..], tagName, id, classes)
  }

  /** `FirstHook` finds the first accepting binding, and finds nothing only when none accepts. */
  lemma {:induction false} FirstHookSpec(bindings: seq<HookBinding>, tagName: string, id: Option<string>, classes: set<string>)
    decreases |bindings|
    ensures FirstHook(bindings, tagName, id, classes).None? <==>
      forall i :: 0 <= i < |bindings| ==> !Accepts(bindings[i], tagName, id, classes)
    ensures FirstHook(bindings, tagName, id, classes).Some? ==>
      exists i :: 0 <= i < |bindings| && Accepts(bindings[i], tagName, id, classes) && bindings[i].hook == FirstHook(bindings, tagName, id, classes).value &&
        forall j :: 0 <= j < i ==> !Accepts(bindings[j], tagName, id, classes)
  {
    if bindings != [] && !Accepts(bindings[0], tagName, id, classes) {
      FirstHookSpec(bindings[1..], tagName, id, classes);
      var r := FirstHook(bindings, tagName, id, classes);
      if r.Some? {
        var i :| 0 <= i < |bindings[1..]| && Accepts(bindings[1..][i], tagName, id, classes) && bindings[1..][i].hook == r.value &&
          forall j :: 0 <= j < i ==> !Accepts(bindings[1..][j], tagName, id, classes);
        assert Accepts(bindings[i + 1], tagName, id, classes) && bindings[i + 1].hook == r.value;
        forall j | 0 <= j < i + 1 ensures !Accepts(bindings[j], tagName, id, classes) {
          if j > 0 { assert bindings[j] == bindings[1..][j - 1]; }
        }
      }
      forall i | 0 <= i < |bindings| && r.None? ensures !Accepts(bindings[i], tagName, id, classes) {
        if i > 0 { assert bindings[i] == bindings[1..][i - 1]; }
      }
    }
  }

  /** A binding that names an id, faced with a candidate of its tag name that has none. */
  predicate NeedsId(b: HookBinding, tagName: string, id: Option<string>)
  {
    tagName == b.tagName && b.id.Some? && id.None?
  }

  /**
   * The scan `findHook` performs as written: each binding is asked through
   * `matches`, whose id test dereferences the candidate's id, so the scan
   * throws at the first binding of the candidate's tag name that names an id
   * when the candidate has none. When it answers, it answers as `FirstHook`.
   */
  function FirstHookAsWritten(bindings: seq<HookBinding>, tagName: string, id: Option<string>, classes: set<string>): (r: Result<Option<HookId>>)
    decreases |bindings|
    ensures r.Ok? ==> r.value == FirstHook(bindings, tagName, id, classes)
    ensures id.Some? ==> r.Ok?
  {
    if bindings == [] then Ok(None)
    else match MatchesAsWritten(bindings[0], tagName, id, classes)
      case Err(m) => Err(m)
      case Ok(b) => if b then Ok(Some(bindings[0].hook)) else FirstHookAsWritten(bindings[1..], tagName, id, classes)
  }

  /**
   * The scan as written throws exactly when a binding needing an id comes
   * before, or instead of, any binding that accepts the candidate.
   */
  lemma {:induction false} FirstHookAsWrittenThrows(bindings: seq<HookBinding>, tagName: string, id: Option<string>, classes: set<string>)
    decreases |bindings|
    ensures FirstHookAsWritten(bindings, tagName, id, classes).Err? <==>
      exists i :: 0 <= i < |bindings| && NeedsId(bindings[i], tagName, id) &&
        forall j :: 0 <= j < i ==> !Accepts(bindings[j], tagName, id, classes)
  {
    if bindings != [] {
      var b := bindings[0];
      if NeedsId(b, tagName, id) {
        assert NeedsId(bindings[0], tagName, id);
      } else if Accepts(b, tagName, id, classes) {
        assert Accepts(bindings[0], tagName, id, classes);
      } else {
        var rest := bindings[1..];
        FirstHookAsWrittenThrows(rest, tagName, id, classes);
        if FirstHookAsWritten(rest, tagName, id, classes).Err? {
          var i :| 0 <= i < |rest| && NeedsId(rest[i], tagName, id) &&
            forall j :: 0 <= j < i ==> !Accepts(rest[j], tagName, id, classes);
          assert NeedsId(bindings[i + 1], tagName, id);
          forall j | 0 <= j < i + 1 ensures !Accepts(bindings[j], tagName, id, classes) {
            if j > 0 { assert bindings[j] == rest[j - 1]; }
          }
        }
        if exists i :: 0 <= i < |bindings| && NeedsId(bindings[i], tagName, id) &&
            forall j :: 0 <= j < i ==> !Accepts(bindings[j], tagName, id, classes) {
          var i :| 0 <= i < |bindings| && NeedsId(bindings[i], tagName, id) &&
            forall j :: 0 <= j < i ==> !Accepts(bindings[j], tagName, id, classes);
          assert i > 0 && NeedsId(rest[i - 1], tagName, id);
          forall j | 0 <= j < i - 1 ensures !Accepts(rest[j], tagName, id, classes) {
            assert rest[j] == bindings[j + 1];
          }
        }
      }
    }
  }

  /** A binding `div#x` before a plain `<div>`: the corrected scan finds no hook, the scan as written throws. */
  lemma {:induction false} FirstHookWithoutIdThrows()
    ensures var b := HookBinding("div", Some("x"), {}, 0);
      FirstHookAsWritten([b], "div", None, {}).Err? && FirstHook([b], "div", None, {}).None?
  {
    var b := HookBinding("div", Some("x"), {}, 0);
    assert !Accepts(b, "div", None, {});
    assert [b][1..] == [];
  }

  class ScopeContext {
    var stack: seq<Scope>
    var indent: int

    /** `new ScopeContext()`: an empty stack at indent 0. */
    constructor ()
      ensures stack == [] && indent == 0
    {
      stack := [];
      indent := 0;
    }

    /**
     * The copy constructor: the same scopes in the same order, each one a
     * copy (scopes are values here), and the same indent.
     */
    constructor Copy(other: ScopeContext)
      ensures stack == other.stack && indent == other.indent
    {
      var copied: seq<Scope> := [];
      var i := 0;
      while i < |other.stack|
        invariant 0 <= i <= |other.stack|
        invariant copied == other.stack[..i]
      {
        copied := copied + [other.stack[i]];
        i := i + 1;
      }
      stack := copied;
      indent := other.indent;
    }

    /** `push(scope)`: the scope becomes the top. */
    method Push(s: Scope)
      modifies this
      ensures stack == [s] + old(stack) && indent == old(indent)
    {
      stack := [s] + stack;
    }

    /** `pop()`: the top is removed and returned; an empty stack throws. */
    method Pop() returns (r: Result<Scope>)
      modifies this
      ensures old(stack) == [] ==> r.Err? && stack == old(stack)
      ensures old(stack) != [] ==> r == Ok(old(stack)[0]) && stack == old(stack)[1..]
      ensures indent == old(indent)
    {
      if stack == [] {
        r := Err("NoSuchElementException");
      } else {
        r := Ok(stack[0]);
        stack := stack[1..];
      }
    }

    /** `getVariable(name)`: looked up in the top scope only. */
    method GetVariable(name: string) returns (r: Option<string>)
      ensures r == TopVariable(stack, name)
    {
      if stack == [] {
        r := None;
      } else {
        r := Scopes.GetVariable(stack[0], name);
      }
    }

    /** `getBoolean(name)`: looked up in the top scope only. */
    method GetBoolean(name: string) returns (r: bool)
      ensures r == TopBoolean(stack, name)
    {
      r := stack != [] && Scopes.GetBoolean(stack[0], name);
    }

    method SetIndent(i: int)
      modifies this
      ensures indent == i && stack == old(stack)
    {
      indent := i;
    }

    /** `getIndentWhitespace(extra)`: two spaces for each of `indent + extra` levels. */
    method GetIndentWhitespace(extra: int) returns (r: string)
      ensures r == JavaText.Repeat(IndentWhitespace, indent + extra)
    {
      r := [];
      var i := 0;
      while i < indent + extra
        invariant 0 <= i && (i <= indent + extra || i == 0)
        invariant r == JavaText.Repeat(IndentWhitespace, i)
      {
        JavaText.RepeatSnoc(IndentWhitespace, i);
        r := r + IndentWhitespace;
        i := i + 1;
      }
    }

    /**
     * `findHook`: the hook of the first binding of the top scope that matches
     * the candidate's tag name, id and classes; none when no binding does.
     * Each binding is asked through `matches` as written, so the scan throws
     * where that test dereferences a missing id. The top scope must exist
     * (`stack.peek()` is dereferenced).
     */
    method FindHook(tagName: string, id: Option<string>, classes: set<string>) returns (r: Result<Option<HookId>>)
      requires stack != []
      ensures r == FirstHookAsWritten(stack[0].bindings, tagName, id, classes)
    {
      var bindings := stack[0].bindings;
      var i := 0;
      while i < |bindings|
        invariant 0 <= i <= |bindings|
        invariant FirstHookAsWritten(bindings, tagName, id, classes) == FirstHookAsWritten(bindings[i..], tagName, id, classes)
      {
        var m := MatchesAsWritten(bindings[i], tagName, id, classes);
        if m.Err? {
          return Err(m.message);
        }
        if m.value {
          return Ok(Some(bindings[i].hook));
        }
        assert bindings[i..][1..] == bindings[i + 1..];
        i := i + 1;
      }
      return Ok(None);
    }
  }

  /** Push then pop hands back the pushed scope and leaves the stack as it was. */
  method PushPopRestores(c: ScopeContext, s: Scope) returns (r: Result<Scope>)
    modifies c
    ensures r == Ok(s) && c.stack == old(c.stack) && c.indent == old(c.indent)
  {
    c.Push(s);
    r := c.Pop();
  }

  /** Lookups see the pushed scope and nothing beneath it. */
  lemma {:induction false} TopOnly(s: Scope, below: seq<Scope>, name: string)
    ensures TopVariable([s] + below, name) == Scopes.GetVariable(s, name)
    ensures TopBoolean([s] + below, name) == Scopes.GetBoolean(s, name)
    ensures forall other: seq<Scope> :: TopVariable([s] + below, name) == TopVariable([s] + other, name)
  {
  }

  /** An empty stack shows no variable and every boolean as false. */
  lemma {:induction false} EmptyStack(name: string)
    ensures TopVariable([], name).None? && !TopBoolean([], name)
  {
  }

  /** The indent text is made of spaces only, two per level. */
  lemma {:induction false} IndentIsSpaces(levels: int)
    ensures |JavaText.Repeat(IndentWhitespace, levels)| == if levels <= 0 then 0 else 2 * levels
    ensures forall k :: 0 <= k < |JavaText.Repeat(IndentWhitespace, levels)| ==> JavaText.Repeat(IndentWhitespace, levels)[k] == ' '
  {
    JavaText.RepeatOnly(IndentWhitespace, levels, ' ');
  }
}
