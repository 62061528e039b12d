/** The value of a symbol, rule by rule: prompts, defaults, implies and selects, each said by itself. */
module KconfigRules {
  import opened KconfigExpr
  import opened KconfigSymbols
  import opened KconfigValue

  // ----- visibility -----

  /** The visibility is that of the most visible prompt, and n without one. */
  lemma {:induction false} PromptRule(ps: seq<Property>, env: Env)
    ensures forall n :: 0 <= n < |ps| && HasText(ps[n]) ==> EvalOpt(ps[n].visible, env) <= PromptVisibility(ps, env)
    ensures PromptVisibility(ps, env) == 0 ||
      exists n :: 0 <= n < |ps| && HasText(ps[n]) && EvalOpt(ps[n].visible, env) == PromptVisibility(ps, env)
  {
    if ps != [] {
      var before, last := ps[..|ps| - 1], |ps| - 1;
      PromptRule(before, env);
      forall n | 0 <= n < |ps| && HasText(ps[n]) ensures EvalOpt(ps[n].visible, env) <= PromptVisibility(ps, env) {
        if n < last { assert before[n] == ps[n]; }
      }
      if PromptVisibility(before, env) != 0 {
        var n :| 0 <= n < |before| && HasText(before[n]) &&
          EvalOpt(before[n].visible, env) == PromptVisibility(before, env);
        assert ps[n] == before[n];
      }
      assert ps[last] == ps[|ps| - 1];
    }
  }

  /** The properties that carry text are prompts, comments and menu titles. */
  lemma TextRule(p: Property)
    ensures HasText(p) <==> p.kind in {Prompt, PropKind.Comment, MenuTitle}
  {
  }

  /** With modules a tristate is as visible as its prompts; any other symbol, or without modules, is visible or
      not. */
  lemma VisibleRule(d: SymbolDef, modules: Tri, env: Env)
    ensures d.ty.Tristate? && modules != 0 ==> Visible(d, modules, env) == PromptVisibility(d.props, env)
    ensures !d.ty.Tristate? || modules == 0 ==>
      Visible(d, modules, env) == if PromptVisibility(d.props, env) == 0 then 0 else 2
  {
  }

  // ----- dependencies -----

  /** Bools, and tristates without modules, are never m. */
  predicate IsBool(ty: SymType, modules: Tri) { ty.Boolean? || (ty.Tristate? && modules == 0) }

  function Rounded(t: Tri, ty: SymType, modules: Tri): Tri { if IsBool(ty, modules) && t != 0 then 2 else t }

  /** Without "depends on" a symbol may be y; without a select nothing holds it up, and without an imply nothing
      suggests it. */
  lemma DependencyRule(d: SymbolDef, modules: Tri, env: Env)
    ensures d.dirDep.None? ==> DirDep(d, modules, env) == 2
    ensures d.dirDep.Some? ==> DirDep(d, modules, env) == Rounded(Eval(d.dirDep.value, env), d.ty, modules)
    ensures d.revDep.None? ==> RevDep(d, modules, env) == 0
    ensures d.revDep.Some? ==> RevDep(d, modules, env) == Rounded(Eval(d.revDep.value, env), d.ty, modules)
    ensures d.implied.None? ==> Implied(d, modules, env) == 0
    ensures d.implied.Some? ==> Implied(d, modules, env) == Rounded(Eval(d.implied.value, env), d.ty, modules)
  {
  }

  // ----- defaults -----

  /** Default `n` applies: its condition is not n. */
  predicate Applies(ps: seq<Property>, n: nat, env: Env)
    requires n < |ps|
  {
    ps[n].kind.Default? && EvalOpt(ps[n].visible, env) != 0
  }

  predicate FirstApplies(ps: seq<Property>, n: nat, env: Env) {
    n < |ps| && Applies(ps, n, env) && forall m :: 0 <= m < n ==> !Applies(ps, m, env)
  }

  predicate NoneApplies(ps: seq<Property>, env: Env) { forall m :: 0 <= m < |ps| ==> !Applies(ps, m, env) }

  /** The default is the expression of the first one that applies, capped by its condition. */
  lemma {:induction false} DefaultRule(ps: seq<Property>, n: nat, env: Env)
    requires FirstApplies(ps, n, env)
    ensures DefaultProp(ps, env) == Some(ps[n])
    ensures DefaultValue(ps, env) == TriAnd(EvalOpt(ps[n].expr, env), EvalOpt(ps[n].visible, env))
  {
    if n > 0 {
      assert !Applies(ps, 0, env);
      forall m | 0 <= m < n - 1 ensures !Applies(ps[1..], m, env) { assert !Applies(ps, m + 1, env); }
      assert ps[1..][n - 1] == ps[n];
      DefaultRule(ps[1..], n - 1, env);
    }
  }

  lemma {:induction false} NoDefaultRule(ps: seq<Property>, env: Env)
    requires NoneApplies(ps, env)
    ensures DefaultProp(ps, env) == None && DefaultValue(ps, env) == 0
  {
    if ps != [] {
      assert !Applies(ps, 0, env);
      forall m | 0 <= m < |ps[1..]| ensures !Applies(ps[1..], m, env) { assert !Applies(ps, m + 1, env); }
      NoDefaultRule(ps[1..], env);
    }
  }

  // ----- the value -----

  /** What the user set counts while the symbol is visible: cut to the visibility, held up by selects. */
  lemma UserRule(d: SymbolDef, user: Tri, modules: Tri, env: Env)
    requires TriType(d.ty) && Visible(d, modules, env) != 0
    ensures var v := NewValue(d, Some(user), modules, env);
      v == Rounded(TriOr(TriAnd(user, Visible(d, modules, env)), RevDep(d, modules, env)), d.ty, modules)
  {
  }

  /** A hidden symbol forgets what the user set. */
  lemma HiddenRule(d: SymbolDef, user: Option<Tri>, modules: Tri, env: Env)
    requires Visible(d, modules, env) == 0
    ensures NewValue(d, user, modules, env) == NewValue(d, None, modules, env)
  {
  }

  /** Without a say of the user and without an imply: the first default that applies, capped by its condition;
      and not below what selects it. */
  lemma UnsetRule(d: SymbolDef, n: nat, modules: Tri, env: Env)
    requires TriType(d.ty) && Implied(d, modules, env) == 0 && FirstApplies(d.props, n, env)
    ensures NewValue(d, None, modules, env)
      == Rounded(TriOr(TriAnd(EvalOpt(d.props[n].expr, env), EvalOpt(d.props[n].visible, env)),
                       RevDep(d, modules, env)),
                 d.ty, modules)
  {
    DefaultRule(d.props, n, env);
  }

  /** Without any default that applies, it is what selects it. */
  lemma BareRule(d: SymbolDef, modules: Tri, env: Env)
    requires TriType(d.ty) && Implied(d, modules, env) == 0 && NoneApplies(d.props, env)
    ensures NewValue(d, None, modules, env) == RevDep(d, modules, env)
  {
    NoDefaultRule(d.props, env);
  }

  /** An imply raises the default, but not above the direct dependency; selects do. */
  lemma ImplyRule(d: SymbolDef, modules: Tri, env: Env)
    requires TriType(d.ty) && Implied(d, modules, env) != 0
    ensures var def := DefaultValue(d.props, env); var imp := Implied(d, modules, env);
      var raised := if def < imp then imp else def;
      var capped := if raised < DirDep(d, modules, env) then raised else DirDep(d, modules, env);
      NewValue(d, None, modules, env)
        == Rounded(if capped < RevDep(d, modules, env) then RevDep(d, modules, env) else capped, d.ty, modules)
  {
  }

  /** Symbols with texts count as n. */
  lemma TextSymbolRule(d: SymbolDef, user: Option<Tri>, modules: Tri, env: Env)
    requires d.ty.Int? || d.ty.Hex? || d.ty.String? || d.ty.Unknown?
    ensures NewValue(d, user, modules, env) == 0
  {
  }

  /** A symbol that is not defined never goes to the file. */
  lemma UnknownRule(d: SymbolDef, user: Option<Tri>, modules: Tri, env: Env)
    requires d.ty.Unknown?
    ensures !Written(d, user, modules, env)
  {
  }

  /** Which symbols go to the file. */
  lemma WrittenRule(d: SymbolDef, user: Option<Tri>, modules: Tri, env: Env)
    requires TriType(d.ty)
    ensures Written(d, user, modules, env) <==>
      || (exists n :: 0 <= n < |d.props| && HasText(d.props[n]) && EvalOpt(d.props[n].visible, env) != 0)
      || (d.revDep.Some? && Eval(d.revDep.value, env) != 0)
      || (d.implied.Some? && Eval(d.implied.value, env) != 0)
      || (exists n: nat :: FirstApplies(d.props, n, env) && EvalOpt(d.props[n].expr, env) != 0)
  {
    PromptRule(d.props, env);
    FirstOrNone(d.props, env);
  }

  /** If any default applies, one is the first. */
  lemma FirstOrNone(ps: seq<Property>, env: Env)
    ensures if NoneApplies(ps, env) then DefaultProp(ps, env) == None && DefaultValue(ps, env) == 0
            else exists n: nat :: FirstApplies(ps, n, env)
    ensures forall n: nat :: FirstApplies(ps, n, env) ==>
      && DefaultProp(ps, env) == Some(ps[n])
      && DefaultValue(ps, env) == TriAnd(EvalOpt(ps[n].expr, env), EvalOpt(ps[n].visible, env))
  {
    if NoneApplies(ps, env) {
      NoDefaultRule(ps, env);
    } else {
      var n := 0;
      while !Applies(ps, n, env)
        invariant n < |ps| && forall m :: 0 <= m < n ==> !Applies(ps, m, env)
        decreases |ps| - n
      {
        n := n + 1;
      }
      assert FirstApplies(ps, n, env);
    }
    forall n: nat | FirstApplies(ps, n, env)
      ensures DefaultProp(ps, env) == Some(ps[n])
      ensures DefaultValue(ps, env) == TriAnd(EvalOpt(ps[n].expr, env), EvalOpt(ps[n].visible, env))
    {
      DefaultRule(ps, n, env);
    }
  }

  /** Of the symbols with texts, those that are visible or whose first default names a symbol. */
  lemma TextWrittenRule(d: SymbolDef, user: Option<Tri>, modules: Tri, env: Env)
    requires d.ty.Int? || d.ty.Hex? || d.ty.String?
    ensures Written(d, user, modules, env) <==>
      || (exists n :: 0 <= n < |d.props| && HasText(d.props[n]) && EvalOpt(d.props[n].visible, env) != 0)
      || (exists n: nat :: FirstApplies(d.props, n, env) && d.props[n].expr.Some? && d.props[n].expr.value.ESym?)
  {
    PromptRule(d.props, env);
    FirstOrNone(d.props, env);
  }
}
