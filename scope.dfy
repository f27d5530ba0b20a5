/**
 * Scope: the variables, booleans and hook bindings one block makes visible
 * while it renders. A Scope is a value here; each setter returns the updated
 * scope (Java's setters update the object and return it for chaining).
 */
module Scopes {
  import opened Wrappers
  import Encoder
  import opened HookBindings

  /** Variable values may be null (`Option`); booleans are stored as given. */
  datatype Scope = Scope(vars: map<string, Option<string>>, bools: map<string, bool>, bindings: seq<HookBinding>)

  const EmptyScope := Scope(map[], map[], [])

  /** `getVariable`: the stored value, or null when the name is unset or holds null. */
  function GetVariable(s: Scope, name: string): (r: Option<string>)
    ensures name !in s.vars ==> r == None
  {
    if name in s.vars then s.vars[name] else None
  }

  predicate HasVariable(s: Scope, name: string)
  {
    name in s.vars
  }

  /** `encodeForHtml` on a possibly null value. */
  function EncodeValue(value: Option<string>, escape: map<string, string>): (r: Option<string>)
    ensures r.None? <==> value.None?
    ensures value == Some([]) ==> r == value
  {
    if value.None? then None else Some(Encoder.Encoded(value.value, escape))
  }

  /** `setVariable(name, value, encode)`: stores the value, HTML-escaped when `encode`. */
  function SetVariable(s: Scope, name: string, value: Option<string>, encode: bool, escape: map<string, string>): (r: Scope)
    ensures HasVariable(r, name)
    ensures GetVariable(r, name) == if encode then EncodeValue(value, escape) else value
    ensures forall other :: other != name ==> HasVariable(r, other) == HasVariable(s, other) && GetVariable(r, other) == GetVariable(s, other)
    ensures r.bools == s.bools && r.bindings == s.bindings
  {
    s.(vars := s.vars[name := if encode then EncodeValue(value, escape) else value])
  }

  /**
   * The text the variadic `setVariable` builds: null values are skipped and a
   * space is put before a value only when the text built so far is not empty.
   * The result is null when every value is null.
   */
  function Joined(values: seq<Option<string>>): Option<string>
  {
    if values == [] then None else Glue(Joined(values[..|values| - 1]), values[|values| - 1])
  }

  /** One value added to the text built so far. */
  function Glue(built: Option<string>, v: Option<string>): Option<string>
  {
    if v.None? then built
    else if built.None? || built.value == [] then v
    else Some(built.value + " " + v.value)
  }

  /** The non-null values, in order. */
  function Present(values: seq<Option<string>>): (r: seq<string>)
    ensures |r| <= |values|
    ensures (forall i :: 0 <= i < |values| && values[i].Some? ==> values[i].value != []) ==>
      forall j :: 0 <= j < |r| ==> r[j] != []
  {
    if values == [] then []
    else Present(values[..|values| - 1]) + (if values[|values| - 1].Some? then [values[|values| - 1].value] else [])
  }

  /** The builder loop of the variadic `setVariable`. */
  method JoinValues(values: seq<Option<string>>) returns (r: Option<string>)
    ensures r == Joined(values)
  {
    var builder: string := [];
    var count := 0;
    var i := 0;
    while i < |values|
      invariant 0 <= i <= |values|
      invariant count == 0 ==> builder == [] && Joined(values[..i]).None?
      invariant count > 0 ==> Joined(values[..i]) == Some(builder)
    {
      assert values[..i + 1][..i] == values[..i] && values[..i + 1][i] == values[i];
      assert Joined(values[..i + 1]) == Glue(Joined(values[..i]), values[i]);
      var v := values[i];
      if v.Some? {
        if |builder| > 0 {
          builder := builder + " ";
        } else {
          assert [] + v.value == v.value;
        }
        builder := builder + v.value;
        count := count + 1;
      }
      i := i + 1;
    }
    assert values[..i] == values;
    r := if count > 0 then Some(builder) else None;
  }

  /** The joined value is null exactly when no value is present. */
  lemma {:induction false} JoinedNone(values: seq<Option<string>>)
    ensures Joined(values).None? <==> Present(values) == []
  {
    if values != [] {
      JoinedNone(values[..|values| - 1]);
    }
  }

  /** When no present value is empty, the result is the present values joined with single spaces. */
  lemma {:induction false} JoinedSpaces(values: seq<Option<string>>)
    requires forall i :: 0 <= i < |values| && values[i].Some? ==> values[i].value != []
    ensures Present(values) != [] ==> Joined(values) == Some(JavaTextJoin(Present(values)))
  {
    if values != [] {
      var init, last := values[..|values| - 1], values[|values| - 1];
      JoinedSpaces(init);
      JoinedNone(init);
      NonEmptyJoin(Present(init));
      assert Joined(values) == Glue(Joined(init), last);
      assert Present(values) == Present(init) + (if last.Some? then [last.value] else []);
      if last.Some? && Present(init) != [] {
        JoinSnoc(Present(init), last.value);
      } else if last.Some? {
        assert Present(values) == [last.value];
      } else {
        assert Present(values) == Present(init);
      }
    }
  }

  /** Strings joined with one space between neighbours. */
  function JavaTextJoin(parts: seq<string>): string
  {
    if parts == [] then [] else if |parts| == 1 then parts[0] else JavaTextJoin(parts[..|parts| - 1]) + " " + parts[|parts| - 1]
  }

  lemma {:induction false} JoinSnoc(parts: seq<string>, v: string)
    requires parts != []
    ensures JavaTextJoin(parts + [v]) == JavaTextJoin(parts) + " " + v
  {
    assert (parts + [v])[..|parts + [v]| - 1] == parts;
  }

  lemma {:induction false} NonEmptyJoin(parts: seq<string>)
    requires forall i :: 0 <= i < |parts| ==> parts[i] != []
    ensures parts != [] ==> JavaTextJoin(parts) != []
  {
    if |parts| > 1 {
      NonEmptyJoin(parts[..|parts| - 1]);
    }
  }

  /** `setVariable(name, values...)`: the joined text, HTML-escaped. */
  function SetVariables(s: Scope, name: string, values: seq<Option<string>>, escape: map<string, string>): (r: Scope)
    ensures GetVariable(r, name) == EncodeValue(Joined(values), escape)
  {
    SetVariable(s, name, Joined(values), true, escape)
  }

  /** `setVariable(name, collection)`: a null collection stores null. */
  function SetVariableCollection(s: Scope, name: string, values: Option<seq<Option<string>>>, escape: map<string, string>): (r: Scope)
    ensures values.None? ==> GetVariable(r, name).None?
    ensures values.Some? ==> r == SetVariables(s, name, values.value, escape)
  {
    if values.None? then SetVariable(s, name, None, true, escape) else SetVariables(s, name, values.value, escape)
  }

  /** `clear`: every variable and boolean forgotten; the bindings stay. */
  function Clear(s: Scope): (r: Scope)
    ensures forall name :: !HasVariable(r, name) && !HasBoolean(r, name) && !GetBoolean(r, name)
    ensures r.bindings == s.bindings
  {
    s.(vars := map[], bools := map[])
  }

  predicate HasBoolean(s: Scope, name: string)
  {
    name in s.bools
  }

  /** `getBoolean`: an unset boolean reads as false. */
  function GetBoolean(s: Scope, name: string): (r: bool)
    ensures !HasBoolean(s, name) ==> !r
  {
    name in s.bools && s.bools[name]
  }

  /** `setBoolean(name, value)`; `setBoolean(name)` is `value == true`. */
  function SetBoolean(s: Scope, name: string, value: bool): (r: Scope)
    ensures HasBoolean(r, name) && GetBoolean(r, name) == value
    ensures forall other :: other != name ==> HasBoolean(r, other) == HasBoolean(s, other) && GetBoolean(r, other) == GetBoolean(s, other)
    ensures r.vars == s.vars && r.bindings == s.bindings
  {
    s.(bools := s.bools[name := value])
  }

  /** `clearBoolean`: the name is no longer set and reads as false. */
  function ClearBoolean(s: Scope, name: string): (r: Scope)
    ensures !HasBoolean(r, name) && !GetBoolean(r, name)
    ensures forall other :: other != name ==> HasBoolean(r, other) == HasBoolean(s, other) && GetBoolean(r, other) == GetBoolean(s, other)
    ensures r.vars == s.vars && r.bindings == s.bindings
  {
    s.(bools := s.bools - {name})
  }

  /** `bind(selector, hook)`: a new binding at the end, the earlier ones kept in order. */
  function Bind(s: Scope, selector: string, hook: HookId): (r: Scope)
    ensures |r.bindings| == |s.bindings| + 1 && r.bindings[..|s.bindings|] == s.bindings
    ensures var b := r.bindings[|s.bindings|];
      b.hook == hook && Selector(b.tagName, b.id, b.styleClasses) == SelectorOf(selector)
    ensures r.vars == s.vars && r.bools == s.bools
  {
    s.(bindings := s.bindings + [NewBinding(selector, hook)])
  }
}
