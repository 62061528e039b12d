/** Bool choices: sym_calc_choice and the values of the symbols in the choice. */
module KconfigChoice {
  import opened KconfigExpr
  import opened KconfigJoin
  import opened KconfigSymbols
  import opened KconfigValue
  import opened KconfigDirDep

  /** A default of the choice: a condition and the position of the value it names. */
  datatype ChoiceDefault = ChoiceDefault(visible: Option<Expr>, target: nat)

  /** A bool choice.  `own` is the definition of its own symbol, and `mode` what the user set that to, if
      anything; `values` are the definitions of its bool symbols, none of which has defaults; `pick` is the
      value the user chose, if any. */
  datatype Choice = Choice(
    sym: Symbol, own: SymbolDef, mode: Option<Tri>,
    values: seq<SymbolDef>, defaults: seq<ChoiceDefault>, pick: Option<nat>)
  {
    predicate Valid() {
      && IsTri(sym) && sym.ty.Boolean? && own.ty.Boolean?
      && (forall k :: 0 <= k < |values| ==> values[k].ty.Boolean?)
      && (forall k, n :: 0 <= k < |values| && 0 <= n < |values[k].props| ==> !values[k].props[n].kind.Default?)
      && (forall k :: 0 <= k < |defaults| ==> defaults[k].target < |values|)
      && (pick.Some? ==> pick.value < |values|)
    }
  }

  /** Visibility of value `k` while the choice itself has value `t`. */
  function ValueVisible(ch: Choice, k: nat, t: Tri, modules: Tri, env: Env): bool
    requires k < |ch.values|
  {
    Visible(ch.values[k], modules, With(env, ch.sym, t)) != 0
  }

  /** Every value of the choice is hidden while the choice is off: finalisation makes the choice symbol the
      parent dependency of its values. */
  lemma FinalizedHidden(ch: Choice, k: nat, dep: Option<Expr>, ps: seq<Property>, modulesSym: Symbol, modules: Tri,
                        env: Env)
    requires IsTri(ch.sym) && k < |ch.values|
    requires ch.values[k] == Finalized(Boolean, Some(ESym(ch.sym)), dep, ps, None, None, modulesSym)
    requires EnvOk(With(env, ch.sym, 0)) && PlainOpt(dep, With(env, ch.sym, 0))
    requires forall n :: 0 <= n < |ps| ==> PlainOpt(ps[n].visible, With(env, ch.sym, 0))
    ensures !ValueVisible(ch, k, 0, modules, env)
  {
    var env0 := With(env, ch.sym, 0);
    FinalizedWithin(Boolean, Some(ESym(ch.sym)), dep, ps, None, None, modulesSym, env0);
    PropagateExact(Some(ESym(ch.sym)), dep, modulesSym, env0);
    VisibilityWithin(ch.values[k].props, EvalOpt(ch.values[k].dirDep, env0), Boolean, env0);
  }

  /** What is evaluated of a default of a choice that is on. */
  predicate DefaultApplies(ch: Choice, n: nat, modules: Tri, env: Env)
    requires ch.Valid() && n < |ch.defaults|
  {
    EvalOpt(ch.defaults[n].visible, With(env, ch.sym, 2)) != 0
      && ValueVisible(ch, ch.defaults[n].target, 2, modules, env)
  }

  /** Default `n` is the first that applies. */
  ghost predicate FirstDefault(ch: Choice, n: nat, modules: Tri, env: Env)
    requires ch.Valid() && n < |ch.defaults|
  {
    DefaultApplies(ch, n, modules, env) && forall m :: 0 <= m < n ==> !DefaultApplies(ch, m, modules, env)
  }

  /** Value `k` is the first visible one. */
  ghost predicate FirstVisible(ch: Choice, k: nat, modules: Tri, env: Env)
    requires k < |ch.values|
  {
    ValueVisible(ch, k, 2, modules, env) && forall m :: 0 <= m < k ==> !ValueVisible(ch, m, 2, modules, env)
  }

  ghost predicate SomeVisible(ch: Choice, modules: Tri, env: Env) {
    exists k :: 0 <= k < |ch.values| && ValueVisible(ch, k, 2, modules, env)
  }

  /** Without a say of the user: the value of the first default that applies, else the first visible one. */
  ghost predicate DefaultRule(ch: Choice, chosen: Option<nat>, modules: Tri, env: Env)
    requires ch.Valid()
  {
    && (forall n :: 0 <= n < |ch.defaults| && FirstDefault(ch, n, modules, env) ==>
        chosen == Some(ch.defaults[n].target))
    && ((forall n :: 0 <= n < |ch.defaults| ==> !DefaultApplies(ch, n, modules, env)) ==>
          (forall k :: 0 <= k < |ch.values| && FirstVisible(ch, k, modules, env) ==> chosen == Some(k)))
  }

  /** The value that a choice which is on must select. */
  ghost predicate ChoiceRule(ch: Choice, chosen: Option<nat>, modules: Tri, env: Env)
    requires ch.Valid()
  {
    && (chosen.Some? <==> SomeVisible(ch, modules, env))
    && (chosen.Some? ==> chosen.value < |ch.values| && ValueVisible(ch, chosen.value, 2, modules, env))
    && if ch.pick.Some? && ValueVisible(ch, ch.pick.value, 2, modules, env) then chosen == ch.pick
       else DefaultRule(ch, chosen, modules, env)
  }

  /** sym_choice_default. */
  method ChoiceDefaultValue(ch: Choice, modules: Tri, env: Env) returns (r: Option<nat>)
    requires ch.Valid()
    ensures r.Some? <==> SomeVisible(ch, modules, env)
    ensures r.Some? ==> r.value < |ch.values| && ValueVisible(ch, r.value, 2, modules, env)
    ensures DefaultRule(ch, r, modules, env)
  {
    var n := 0;
    while n < |ch.defaults|
      invariant 0 <= n <= |ch.defaults|
      invariant forall m :: 0 <= m < n ==> !DefaultApplies(ch, m, modules, env)
    {
      if EvalOpt(ch.defaults[n].visible, With(env, ch.sym, 2)) != 0 {
        var target := ch.defaults[n].target;
        if ValueVisible(ch, target, 2, modules, env) {
          assert DefaultApplies(ch, n, modules, env);
          return Some(target);
        }
      }
      n := n + 1;
    }
    var k := 0;
    while k < |ch.values|
      invariant 0 <= k <= |ch.values|
      invariant forall m :: 0 <= m < k ==> !ValueVisible(ch, m, 2, modules, env)
    {
      if ValueVisible(ch, k, 2, modules, env) { return Some(k); }
      k := k + 1;
    }
    return None;
  }

  /** sym_calc_choice for a choice whose own value came out as y: the chosen value, or none, in which case
      the choice falls back to n. */
  method CalcChoice(ch: Choice, modules: Tri, env: Env) returns (tri: Tri, chosen: Option<nat>)
    requires ch.Valid()
    ensures tri == if chosen.Some? then 2 else 0
    ensures ChoiceRule(ch, chosen, modules, env)
  {
    if ch.pick.Some? && ValueVisible(ch, ch.pick.value, 2, modules, env) {
      return 2, ch.pick;
    }
    chosen := ChoiceDefaultValue(ch, modules, env);
    tri := if chosen.None? then 0 else 2;
  }

  /** sym_calc_value for a symbol of the choice, once the choice is settled: a visible symbol is y exactly
      if it was chosen; a hidden one has nothing but defaults to take a value from. */
  function ValueInChoice(ch: Choice, k: nat, tri: Tri, chosen: Option<nat>, modules: Tri, env: Env): Tri
    requires ch.Valid() && k < |ch.values|
  {
    if ValueVisible(ch, k, tri, modules, env) then (if chosen == Some(k) then 2 else 0)
    else Promote(DefaultValue(ch.values[k].props, With(env, ch.sym, tri)), ch.values[k].ty, modules)
  }

  /** The value of the choice itself, before its symbols are looked at: what the user set is cut to the
      prompt, selects come on top, and neither defaults nor implies count. */
  method CalcMode(ch: Choice, modules: Tri, env: Env) returns (t: Tri)
    requires ch.Valid()
    ensures t == if IsOn(ch, modules, env) then 2 else 0
  {
    t := 0;
    var visible := Visible(ch.own, modules, env);
    if visible != 0 && ch.mode.Some? { t := TriAnd(ch.mode.value, visible); }
    t := TriOr(t, RevDep(ch.own, modules, env));
    if t == 1 && EffectiveType(ch.own.ty, modules).Boolean? { t := 2; }
  }

  /** The choice is on if it is selected, or if the user wants it and may. */
  predicate IsOn(ch: Choice, modules: Tri, env: Env) {
    RevDep(ch.own, modules, env) != 0 || (Visible(ch.own, modules, env) != 0 && ch.mode.Some? && ch.mode.value != 0)
  }

  /** That is the value of a bool symbol with the prompts and selects of the choice, and nothing else. */
  lemma ModeIsValue(ch: Choice, modules: Tri, env: Env)
    requires ch.Valid() && ch.own.implied.None?
      && (forall n :: 0 <= n < |ch.own.props| ==> !ch.own.props[n].kind.Default?)
    ensures NewValue(ch.own, ch.mode, modules, env) == if IsOn(ch, modules, env) then 2 else 0
  {
    NoDefaults(ch.own.props, env);
  }

  /** A choice that is not optional is on when its prompt is visible, whatever the user set: finalisation
      adds a select on the condition of the prompt. */
  lemma MandatoryOn(ch: Choice, before: Option<Expr>, prompt: Option<Expr>, modules: Tri, env: Env)
    requires ch.Valid() && ch.own.revDep == AllocOr(before, AllocAnd(prompt, Some(ESym(SymMod))))
    requires EvalOpt(prompt, env) != 0
    ensures IsOn(ch, modules, env)
  {
    AllocAndExact(prompt, Some(ESym(SymMod)), env);
  }

  lemma {:induction false} NoDefaults(ps: seq<Property>, env: Env)
    requires forall n :: 0 <= n < |ps| ==> !ps[n].kind.Default?
    ensures DefaultValue(ps, env) == 0
  {
    if ps != [] { NoDefaults(ps[1..], env); }
  }

  /** A choice calculated with all its symbols: exactly one of them is y if the choice is on and any is
      visible, and it is the rightful one; otherwise all are n. */
  method CalcAll(ch: Choice, modules: Tri, env: Env) returns (tri: Tri, chosen: Option<nat>, values: seq<Tri>)
    requires ch.Valid()
    ensures |values| == |ch.values|
    ensures tri == if IsOn(ch, modules, env) && SomeVisible(ch, modules, env) then 2 else 0
    ensures tri == 2 ==> ChoiceRule(ch, chosen, modules, env) && chosen.Some?
    ensures forall k :: 0 <= k < |values| ==> values[k] == if tri == 2 && chosen == Some(k) then 2 else 0
  {
    tri := CalcMode(ch, modules, env);
    chosen := None;
    if tri == 2 { tri, chosen := CalcChoice(ch, modules, env); }
    values := [];
    while |values| < |ch.values|
      invariant |values| <= |ch.values|
      invariant forall k :: 0 <= k < |values| ==> values[k] == if tri == 2 && chosen == Some(k) then 2 else 0
    {
      var k := |values|;
      NoDefaults(ch.values[k].props, With(env, ch.sym, tri));
      values := values + [ValueInChoice(ch, k, tri, chosen, modules, env)];
    }
  }
}
