/**
 * `resolve_css_variables` of the HuaEditor server: custom properties
 * defined in a stylesheet (`--name: value;`) are substituted for the
 * `var(--name)` and `var(--name, fallback)` references to them, and the
 * definitions are then removed.
 *
 * The stylesheet is seen as the sequence of pieces its regular
 * expressions pick out: a definition (with the whitespace that follows
 * it, which the removal takes along), a reference, or any other text.
 * Cutting the text into these pieces is the regular-expression engine's
 * work and is not modelled.
 */
module CssVars {
  import opened Wrappers
  import opened Text
  import Dict

  datatype Token =
    | Definition(name: string, value: string)
    | Reference(name: string, fallback: Option<string>)
    | Plain(text: string)

  /** The custom properties, in the order they were first defined. */
  type Variables = seq<(string, string)>

  /** `s.rstrip(', ')`: the trailing commas and spaces are removed. */
  function TrimTrailing(s: string): (r: string)
    ensures |r| <= |s| && r == s[..|r|]
    ensures forall i :: |r| <= i < |s| ==> s[i] == ',' || s[i] == ' '
    ensures r == [] || (r[|r| - 1] != ',' && r[|r| - 1] != ' ')
    decreases |s|
  {
    if s != [] && (s[|s| - 1] == ',' || s[|s| - 1] == ' ') then TrimTrailing(s[..|s| - 1]) else s
  }

  /** The value a definition records: stripped, then its trailing commas
      and spaces removed. */
  function DefinedValue(value: string): string {
    TrimTrailing(Strip(value))
  }

  /** A recorded value starts with no whitespace and ends with neither a
      comma nor a space. */
  lemma DefinedValueTrimmed(value: string)
    ensures var r := DefinedValue(value);
      r == [] || (!IsSpace(r[0]) && r[|r| - 1] != ',' && r[|r| - 1] != ' ')
  {
    var s := Strip(value);
    var r := TrimTrailing(s);
    if r != [] {
      assert r[0] == s[0];
    }
  }

  /** The dictionary the first loop fills: every definition, in order,
      assigns its name. */
  function VariablesOf(ts: seq<Token>): Variables
    decreases |ts|
  {
    if ts == [] then []
    else
      var vars := VariablesOf(ts[..|ts| - 1]);
      match ts[|ts| - 1]
      case Definition(name, value) => Dict.Set(vars, name, DefinedValue(value))
      case _ => vars
  }

  /** Each name is recorded once. */
  lemma {:induction false} VariablesDistinct(ts: seq<Token>)
    ensures Dict.DistinctKeys(VariablesOf(ts))
    decreases |ts|
  {
    if ts != [] {
      VariablesDistinct(ts[..|ts| - 1]);
      var last := ts[|ts| - 1];
      if last.Definition? {
        Dict.SetDistinct(VariablesOf(ts[..|ts| - 1]), last.name, DefinedValue(last.value));
      }
    }
  }

  /** `ts[i]` defines `name`. */
  predicate DefinesAt(ts: seq<Token>, i: nat, name: string) {
    i < |ts| && ts[i].Definition? && ts[i].name == name
  }

  lemma {:induction false} DefinitionRecorded(ts: seq<Token>, i: nat, name: string)
    requires DefinesAt(ts, i, name)
    ensures Dict.Get(VariablesOf(ts), name).Some?
    decreases |ts|
  {
    var init := ts[..|ts| - 1];
    var last := ts[|ts| - 1];
    if last.Definition? && last.name == name {
      Dict.SetGet(VariablesOf(init), name, DefinedValue(last.value));
    } else {
      assert init[i] == ts[i];
      DefinitionRecorded(init, i, name);
      if last.Definition? {
        Dict.SetGetOther(VariablesOf(init), last.name, DefinedValue(last.value), name);
      }
    }
  }

  lemma {:induction false} RecordedDefinition(ts: seq<Token>, name: string) returns (i: nat)
    requires Dict.Get(VariablesOf(ts), name).Some?
    ensures DefinesAt(ts, i, name)
    decreases |ts|
  {
    var init := ts[..|ts| - 1];
    var last := ts[|ts| - 1];
    if last.Definition? && last.name == name {
      i := |ts| - 1;
    } else {
      if last.Definition? {
        Dict.SetGetOther(VariablesOf(init), last.name, DefinedValue(last.value), name);
      }
      i := RecordedDefinition(init, name);
      assert init[i] == ts[i];
    }
  }

  /** A name is recorded exactly when the stylesheet defines it. */
  lemma DefinedIff(ts: seq<Token>, name: string)
    ensures Dict.Get(VariablesOf(ts), name).None? <==> forall j :: !DefinesAt(ts, j, name)
  {
    if Dict.Get(VariablesOf(ts), name).Some? {
      var i := RecordedDefinition(ts, name);
    }
    forall j | DefinesAt(ts, j, name) ensures Dict.Get(VariablesOf(ts), name).Some? {
      DefinitionRecorded(ts, j, name);
    }
  }

  /** A later definition of a name overrides an earlier one: the value is
      the one of the last definition. */
  lemma {:induction false} LastDefinitionWins(ts: seq<Token>, i: nat)
    requires i < |ts| && ts[i].Definition?
    requires forall j :: i < j < |ts| ==> !DefinesAt(ts, j, ts[i].name)
    ensures Dict.Get(VariablesOf(ts), ts[i].name) == Some(DefinedValue(ts[i].value))
    decreases |ts|
  {
    var init := ts[..|ts| - 1];
    var last := ts[|ts| - 1];
    if i == |ts| - 1 {
      Dict.SetGet(VariablesOf(init), last.name, DefinedValue(last.value));
    } else {
      assert !DefinesAt(ts, |ts| - 1, ts[i].name);
      forall j | i < j < |init| ensures !DefinesAt(init, j, init[i].name) {
        assert !DefinesAt(ts, j, ts[i].name);
      }
      LastDefinitionWins(init, i);
      if last.Definition? {
        Dict.SetGetOther(VariablesOf(init), last.name, DefinedValue(last.value), ts[i].name);
      }
    }
  }

  /** One `re.sub` of the second loop: every reference to `name` becomes
      the value. */
  function Substitute(ts: seq<Token>, name: string, value: string): (r: seq<Token>)
    ensures |r| == |ts|
    ensures forall i :: 0 <= i < |ts| ==>
      r[i] == (if ts[i].Reference? && ts[i].name == name then Plain(value) else ts[i])
    decreases |ts|
  {
    if ts == [] then []
    else
      var t := if ts[0].Reference? && ts[0].name == name then Plain(value) else ts[0];
      [t] + Substitute(ts[1..], name, value)
  }

  /** The second loop: one substitution per recorded name, in order. */
  function SubstituteAll(ts: seq<Token>, vars: Variables): seq<Token>
    decreases |vars|
  {
    if vars == [] then ts
    else SubstituteAll(Substitute(ts, vars[0].0, vars[0].1), vars[1..])
  }

  /** The final `re.sub`: the definitions are removed. */
  function RemoveDefinitions(ts: seq<Token>): (r: seq<Token>)
    ensures |r| <= |ts|
    decreases |ts|
  {
    if ts == [] then []
    else (if ts[0].Definition? then [] else [ts[0]]) + RemoveDefinitions(ts[1..])
  }

  /** `resolve_css_variables` as a function of the stylesheet. */
  function Resolved(css: seq<Token>): seq<Token> {
    RemoveDefinitions(SubstituteAll(css, VariablesOf(css)))
  }

  /** `resolve_css_variables`: the first loop records the definitions, the
      second substitutes each name in turn, and the definitions are
      removed. */
  method ResolveCssVariables(css: seq<Token>) returns (resolved: seq<Token>)
    ensures resolved == Resolved(css)
  {
    var variables: Variables := [];
    var i := 0;
    while i < |css|
      invariant 0 <= i <= |css|
      invariant variables == VariablesOf(css[..i])
    {
      assert css[..i + 1][..i] == css[..i];
      if css[i].Definition? {
        variables := Dict.Set(variables, css[i].name, DefinedValue(css[i].value));
      }
      i := i + 1;
    }
    assert css[..i] == css;
    resolved := css;
    var k := 0;
    while k < |variables|
      invariant 0 <= k <= |variables|
      invariant SubstituteAll(resolved, variables[k..]) == SubstituteAll(css, variables)
    {
      assert variables[k..][0] == variables[k] && variables[k..][1..] == variables[k + 1..];
      resolved := Substitute(resolved, variables[k].0, variables[k].1);
      k := k + 1;
    }
    resolved := RemoveDefinitions(resolved);
  }

  // ---------------------------------------------------------------------
  // A one-pass reference definition

  /** What one piece becomes once every recorded name has been
      substituted. */
  function ResolveToken(t: Token, vars: Variables): Token {
    if t.Reference? && Dict.Get(vars, t.name).Some? then Plain(Dict.Get(vars, t.name).value) else t
  }

  /** One pass over the stylesheet: definitions dropped, references to a
      recorded name replaced by its value, everything else kept. */
  function OnePass(ts: seq<Token>, vars: Variables): seq<Token>
    decreases |ts|
  {
    if ts == [] then []
    else (if ts[0].Definition? then [] else [ResolveToken(ts[0], vars)]) + OnePass(ts[1..], vars)
  }

  /** The substitutions, name by name, replace each reference by the value
      of the first entry for its name: a value once put in is never
      substituted again. */
  lemma {:induction false} SubstituteAllPointwise(ts: seq<Token>, vars: Variables)
    ensures |SubstituteAll(ts, vars)| == |ts|
    ensures forall i :: 0 <= i < |ts| ==> SubstituteAll(ts, vars)[i] == ResolveToken(ts[i], vars)
    decreases |vars|
  {
    if vars != [] {
      var (n, v) := vars[0];
      var ts' := Substitute(ts, n, v);
      SubstituteAllPointwise(ts', vars[1..]);
      forall i | 0 <= i < |ts| ensures SubstituteAll(ts, vars)[i] == ResolveToken(ts[i], vars) {
        var t := ts[i];
        if t.Reference? && t.name != n {
          assert Dict.Get(vars, t.name) == Dict.Get(vars[1..], t.name);
        }
      }
    }
  }

  lemma {:induction false} RemoveResolved(xs: seq<Token>, ts: seq<Token>, vars: Variables)
    requires |xs| == |ts|
    requires forall i :: 0 <= i < |ts| ==> xs[i] == ResolveToken(ts[i], vars)
    ensures RemoveDefinitions(xs) == OnePass(ts, vars)
    decreases |ts|
  {
    if ts != [] {
      RemoveResolved(xs[1..], ts[1..], vars);
    }
  }

  /** The name-by-name substitution agrees with the one-pass definition. */
  lemma ResolvedIsOnePass(css: seq<Token>)
    ensures Resolved(css) == OnePass(css, VariablesOf(css))
  {
    var vars := VariablesOf(css);
    SubstituteAllPointwise(css, vars);
    RemoveResolved(SubstituteAll(css, vars), css, vars);
  }

  /** Every piece of a one-pass result: no definition, and no reference to
      a recorded name. */
  lemma {:induction false} OnePassPieces(ts: seq<Token>, vars: Variables)
    ensures forall i :: 0 <= i < |OnePass(ts, vars)| ==>
      !OnePass(ts, vars)[i].Definition? &&
      (OnePass(ts, vars)[i].Reference? ==> Dict.Get(vars, OnePass(ts, vars)[i].name).None?)
    decreases |ts|
  {
    if ts != [] {
      OnePassPieces(ts[1..], vars);
      var head := if ts[0].Definition? then [] else [ResolveToken(ts[0], vars)];
      var rest := OnePass(ts[1..], vars);
      assert forall i :: |head| <= i < |head + rest| ==> (head + rest)[i] == rest[i - |head|];
    }
  }

  /** After resolution no definition is left, and every reference left
      names a property the stylesheet never defines. */
  lemma ResolvedPieces(css: seq<Token>)
    ensures forall i :: 0 <= i < |Resolved(css)| ==>
      !Resolved(css)[i].Definition? &&
      (Resolved(css)[i].Reference? ==> forall j :: !DefinesAt(css, j, Resolved(css)[i].name))
  {
    ResolvedIsOnePass(css);
    OnePassPieces(css, VariablesOf(css));
    forall i | 0 <= i < |Resolved(css)| && Resolved(css)[i].Reference?
      ensures forall j :: !DefinesAt(css, j, Resolved(css)[i].name)
    {
      DefinedIff(css, Resolved(css)[i].name);
    }
  }

  lemma {:induction false} OnePassNoDefinitions(ts: seq<Token>)
    requires forall i :: 0 <= i < |ts| ==> !ts[i].Definition?
    ensures OnePass(ts, []) == ts
    decreases |ts|
  {
    if ts != [] {
      OnePassNoDefinitions(ts[1..]);
      assert [ts[0]] + ts[1..] == ts;
    }
  }

  lemma {:induction false} NoDefinitionsNoVariables(ts: seq<Token>)
    requires forall i :: 0 <= i < |ts| ==> !ts[i].Definition?
    ensures VariablesOf(ts) == []
    decreases |ts|
  {
    if ts != [] {
      NoDefinitionsNoVariables(ts[..|ts| - 1]);
    }
  }

  /** A stylesheet without definitions comes back unchanged: its
      references, to undefined names, all remain. */
  lemma NoDefinitionsUnchanged(css: seq<Token>)
    requires forall i :: 0 <= i < |css| ==> !css[i].Definition?
    ensures Resolved(css) == css
  {
    NoDefinitionsNoVariables(css);
    ResolvedIsOnePass(css);
    OnePassNoDefinitions(css);
  }
}
