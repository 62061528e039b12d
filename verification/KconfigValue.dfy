/** The value of a symbol as a plain recursive definition, without caching: every attribute is a function
    of the values of the symbols it depends on. */
module KconfigValue {
  import opened KconfigExpr
  import opened KconfigSymbols

  /** sym_get_type, for symbols outside choices: without modules a tristate is a bool. */
  function EffectiveType(ty: SymType, modules: Tri): SymType {
    if ty.Tristate? && modules == 0 then Boolean else ty
  }

  /** m becomes y for a bool. */
  function Promote(t: Tri, ty: SymType, modules: Tri): Tri {
    if t == 1 && EffectiveType(ty, modules).Boolean? then 2 else t
  }

  function PromptVisibility(ps: seq<Property>, env: Env): Tri {
    if ps == [] then 0
    else
      var last := ps[|ps| - 1];
      var before := PromptVisibility(ps[..|ps| - 1], env);
      if HasText(last) then TriOr(before, EvalOpt(last.visible, env)) else before
  }

  function Visible(d: SymbolDef, modules: Tri, env: Env): Tri {
    var t := PromptVisibility(d.props, env);
    if t == 1 && (!d.ty.Tristate? || modules == 0) then 2 else t
  }

  /** No "depends on" means y. */
  function DirDep(d: SymbolDef, modules: Tri, env: Env): Tri { Promote(EvalOpt(d.dirDep, env), d.ty, modules) }

  /** Nobody selecting means n. */
  function RevDep(d: SymbolDef, modules: Tri, env: Env): Tri {
    Promote(if d.revDep.None? then 0 else Eval(d.revDep.value, env), d.ty, modules)
  }

  function Implied(d: SymbolDef, modules: Tri, env: Env): Tri {
    Promote(if d.implied.None? then 0 else Eval(d.implied.value, env), d.ty, modules)
  }

  /** The first default whose condition is not n. */
  function DefaultProp(ps: seq<Property>, env: Env): Option<Property> {
    if ps == [] then None
    else if ps[0].kind.Default? && EvalOpt(ps[0].visible, env) != 0 then Some(ps[0])
    else DefaultProp(ps[1..], env)
  }

  function DefaultValue(ps: seq<Property>, env: Env): Tri {
    var p := DefaultProp(ps, env);
    if p.None? then 0 else TriAnd(EvalOpt(p.value.expr, env), EvalOpt(p.value.visible, env))
  }

  /** The value before selects: the user's, if there is a visible prompt, else default and implies. */
  function BaseValue(d: SymbolDef, user: Option<Tri>, modules: Tri, env: Env): Tri {
    var v := Visible(d, modules, env);
    if v != 0 && user.Some? then TriAnd(user.value, v)
    else
      var def := DefaultValue(d.props, env);
      var imp := Implied(d, modules, env);
      if imp != 0 then TriAnd(TriOr(def, imp), DirDep(d, modules, env)) else def
  }

  /** Symbols of the other types have texts, and count as n. */
  function NewValue(d: SymbolDef, user: Option<Tri>, modules: Tri, env: Env): Tri {
    if TriType(d.ty) then Promote(TriOr(BaseValue(d, user, modules, env), RevDep(d, modules, env)), d.ty, modules)
    else 0
  }

  predicate TriType(ty: SymType) { ty.Boolean? || ty.Tristate? }

  /** The symbol whose text is the default of an int, hex or string symbol. */
  function TextDefault(ps: seq<Property>, env: Env): Option<Symbol> {
    var p := DefaultProp(ps, env);
    if p.Some? && p.value.expr.Some? && p.value.expr.value.ESym? then Some(p.value.expr.value.s) else None
  }

  /** The condition under which the program warns about unmet dependencies. */
  predicate UnmetDependency(d: SymbolDef, modules: Tri, env: Env) {
    DirDep(d, modules, env) < RevDep(d, modules, env)
  }

  /** Whether the symbol goes to the configuration file. */
  function Written(d: SymbolDef, user: Option<Tri>, modules: Tri, env: Env): bool {
    !d.ty.Unknown? && (
      || Visible(d, modules, env) != 0
      || (if TriType(d.ty)
          then RevDep(d, modules, env) != 0 || DefaultValue(d.props, env) != 0 || Implied(d, modules, env) != 0
          else TextDefault(d.props, env).Some?))
  }

  /** An example: a tristate visible as m that is y by default. */
  const CAPPED := SymbolDef(
    Tristate, [Property(Prompt, Some(ESym(SymMod)), None), Property(Default, None, Some(ESym(SymYes)))],
    None, None, None)

  /** It is y until the user sets it to y, and then m; it is written in any case. */
  lemma CappedValues(env: Env)
    ensures Visible(CAPPED, 2, env) == 1 && RevDep(CAPPED, 2, env) == 0
    ensures NewValue(CAPPED, None, 2, env) == 2 && NewValue(CAPPED, Some(2), 2, env) == 1
  {
    var p, q := CAPPED.props[0], CAPPED.props[1];
    assert [p, q][..1] == [p] && [p][..0] == [];
    assert [p, q][1..] == [q];
    assert PromptVisibility([p], env) == 1 && PromptVisibility([p, q], env) == 1;
    assert DefaultProp([p, q], env) == DefaultProp([q], env) == Some(q);
  }

  // ----- a value depends on the dependencies only -----

  ghost predicate Agree(a: Env, b: Env, ss: seq<Symbol>) {
    a.text == b.text && a.parse == b.parse && forall s :: s in ss && s.SymConfig? ==> a.tri(s) == b.tri(s)
  }

  lemma {:induction false} EvalAgree(e: Expr, a: Env, b: Env)
    requires Agree(a, b, Symbols(e))
    ensures Eval(e, a) == Eval(e, b)
  {
    match e
    case ESym(s) => assert s in Symbols(e);
    case ENot(x) => EvalAgree(x, a, b);
    case EAnd(l, r) => EvalAgree(l, a, b); EvalAgree(r, a, b);
    case EOr(l, r) => EvalAgree(l, a, b); EvalAgree(r, a, b);
    case ECmp(_, l, r) =>
      assert l in Symbols(e) && r in Symbols(e);
      assert Text(l, a) == Text(l, b) && Text(r, a) == Text(r, b);
  }

  lemma EvalOptAgree(e: Option<Expr>, a: Env, b: Env)
    requires Agree(a, b, SymbolsOpt(e))
    ensures EvalOpt(e, a) == EvalOpt(e, b)
  {
    if e.Some? { EvalAgree(e.value, a, b); }
  }

  ghost predicate PropsAgree(ps: seq<Property>, a: Env, b: Env) {
    forall k :: 0 <= k < |ps| ==> Agree(a, b, PropSymbols(ps[k]))
  }

  lemma {:induction false} PromptsAgree(ps: seq<Property>, a: Env, b: Env)
    requires PropsAgree(ps, a, b)
    ensures PromptVisibility(ps, a) == PromptVisibility(ps, b)
  {
    if ps != [] {
      PromptsAgree(ps[..|ps| - 1], a, b);
      if HasText(ps[|ps| - 1]) { EvalOptAgree(ps[|ps| - 1].visible, a, b); }
    }
  }

  lemma {:induction false} DefaultsAgree(ps: seq<Property>, a: Env, b: Env)
    requires PropsAgree(ps, a, b)
    ensures DefaultProp(ps, a) == DefaultProp(ps, b) && DefaultValue(ps, a) == DefaultValue(ps, b)
  {
    if ps != [] {
      if ps[0].kind.Default? {
        EvalOptAgree(ps[0].visible, a, b);
        EvalOptAgree(ps[0].expr, a, b);
      }
      forall k | 0 <= k < |ps[1..]| ensures Agree(a, b, PropSymbols(ps[1..][k])) {
        assert ps[1..][k] == ps[k + 1];
      }
      DefaultsAgree(ps[1..], a, b);
    }
  }

  lemma AttributesAgree(d: SymbolDef, modules: Tri, a: Env, b: Env)
    requires Agree(a, b, Dependencies(d))
    ensures Visible(d, modules, a) == Visible(d, modules, b)
    ensures DirDep(d, modules, a) == DirDep(d, modules, b)
    ensures RevDep(d, modules, a) == RevDep(d, modules, b)
    ensures Implied(d, modules, a) == Implied(d, modules, b)
    ensures DefaultValue(d.props, a) == DefaultValue(d.props, b)
    ensures DefaultProp(d.props, a) == DefaultProp(d.props, b)
  {
    EvalOptAgree(d.dirDep, a, b);
    EvalOptAgree(d.revDep, a, b);
    EvalOptAgree(d.implied, a, b);
    forall k | 0 <= k < |d.props| ensures Agree(a, b, PropSymbols(d.props[k])) {
      PropInDependencies(d, k);
    }
    PromptsAgree(d.props, a, b);
    DefaultsAgree(d.props, a, b);
  }

  lemma NewValueAgree(d: SymbolDef, user: Option<Tri>, modules: Tri, a: Env, b: Env)
    requires Agree(a, b, Dependencies(d))
    ensures NewValue(d, user, modules, a) == NewValue(d, user, modules, b)
  {
    AttributesAgree(d, modules, a, b);
  }

  // ----- the definition has exactly one solution on an acyclic graph -----

  /** Everything given: definitions, the user's values, the value of MODULES, and what does not change. */
  datatype Config = Config(defs: Defs, user: seq<Option<Tri>>, modules: Tri, base: Env)
  {
    ghost predicate Valid() {
      |user| == |defs| && WellFormed(defs)
    }
  }

  /** Every symbol has the value its own definition gives it. */
  ghost predicate Solves(c: Config, env: Env)
    requires c.Valid()
  {
    && env.text == c.base.text && env.parse == c.base.parse
    && forall i: nat :: i < |c.defs| ==> env.tri(Refer(c.defs, i)) == NewValue(c.defs[i], c.user[i], c.modules, env)
  }

  /** All values computed anew from those in `env`. */
  ghost function Round(c: Config, env: Env): Env
    requires c.Valid()
  {
    c.base.(tri := (s: Symbol) =>
      var t: Tri := if s.SymConfig? && s.id < |c.defs| && s == Refer(c.defs, s.id)
                    then NewValue(c.defs[s.id], c.user[s.id], c.modules, env) else 0; t)
  }

  ghost function Rounds(c: Config, k: nat): Env
    requires c.Valid()
  {
    if k == 0 then c.base else Round(c, Rounds(c, k - 1))
  }

  lemma RoundsShared(c: Config, k: nat)
    requires c.Valid()
    ensures Rounds(c, k).text == c.base.text && Rounds(c, k).parse == c.base.parse
  {
  }

  lemma RoundValue(c: Config, env: Env, i: nat)
    requires c.Valid() && i < |c.defs|
    ensures Round(c, env).tri(Refer(c.defs, i)) == NewValue(c.defs[i], c.user[i], c.modules, env)
  {
  }

  lemma RoundAgree(c: Config, a: Env, b: Env, i: nat)
    requires c.Valid() && i < |c.defs| && Agree(a, b, Dependencies(c.defs[i]))
    ensures Round(c, a).tri(Refer(c.defs, i)) == Round(c, b).tri(Refer(c.defs, i))
  {
    NewValueAgree(c.defs[i], c.user[i], c.modules, a, b);
    RoundValue(c, a, i);
    RoundValue(c, b, i);
  }

  /** After `k` rounds the symbols of rank below `k` have settled. */
  lemma {:induction false} RoundsSettle(c: Config, rank: map<nat, nat>, k: nat, i: nat)
    requires c.Valid() && Ranks(c.defs, rank) && i < |c.defs| && rank[i] < k
    ensures Settled(c, k, i)
    decreases k, 1
  {
    DependenciesSettle(c, rank, k - 1, i);
    RoundsAgree(c, k, i);
  }

  lemma {:induction false} DependenciesSettle(c: Config, rank: map<nat, nat>, k: nat, i: nat)
    requires c.Valid() && Ranks(c.defs, rank) && i < |c.defs| && rank[i] <= k
    ensures forall s :: s in Dependencies(c.defs[i]) && s.SymConfig? ==> SettledSymbol(c, k, s)
    decreases k + 1, 0
  {
    forall s | s in Dependencies(c.defs[i]) && s.SymConfig? ensures SettledSymbol(c, k, s) {
      DependencyRank(c.defs, rank, i, s);
      RoundsSettle(c, rank, k, s.id);
    }
  }

  ghost predicate SettledSymbol(c: Config, k: nat, s: Symbol)
    requires c.Valid()
  {
    s.SymConfig? && s.id < |c.defs| && s == Refer(c.defs, s.id) && Settled(c, k, s.id)
  }

  /** One more round would not change the symbol. */
  ghost predicate Settled(c: Config, k: nat, i: nat)
    requires c.Valid() && i < |c.defs|
  {
    Rounds(c, k).tri(Refer(c.defs, i)) == Round(c, Rounds(c, k)).tri(Refer(c.defs, i))
  }

  lemma RoundsAgree(c: Config, k: nat, i: nat)
    requires c.Valid() && i < |c.defs| && k > 0
    requires forall s :: s in Dependencies(c.defs[i]) && s.SymConfig? ==> SettledSymbol(c, k - 1, s)
    ensures Settled(c, k, i)
  {
    RoundsShared(c, k - 1);
    RoundsShared(c, k);
    RoundAgree(c, Rounds(c, k - 1), Rounds(c, k), i);
  }

  lemma DependencyRank(defs: Defs, rank: map<nat, nat>, i: nat, s: Symbol)
    requires WellFormed(defs) && Ranks(defs, rank) && i < |defs| && s in Dependencies(defs[i]) && s.SymConfig?
    ensures s.id < |defs| && s == Refer(defs, s.id) && rank[s.id] < rank[i]
  {
    assert RefersWell(defs, Dependencies(defs[i]));
    assert Edge(defs, i, s.id);
  }

  function MaxRank(rank: map<nat, nat>, n: nat): (m: nat)
    requires forall i :: 0 <= i < n ==> i in rank
    ensures forall i :: 0 <= i < n ==> rank[i] <= m
  {
    if n == 0 then 0 else
    var m := MaxRank(rank, n - 1);
    if rank[n - 1] > m then rank[n - 1] else m
  }

  /** On a graph with ranks, enough rounds give a solution. */
  lemma SolutionExists(c: Config, rank: map<nat, nat>) returns (env: Env)
    requires c.Valid() && Ranks(c.defs, rank)
    ensures Solves(c, env)
  {
    var k := MaxRank(rank, |c.defs|) + 1;
    env := Rounds(c, k);
    RoundsShared(c, k);
    forall i: nat | i < |c.defs|
      ensures env.tri(Refer(c.defs, i)) == NewValue(c.defs[i], c.user[i], c.modules, env)
    {
      RoundsSettle(c, rank, k, i);
      RoundValue(c, env, i);
    }
  }

  /** Two solutions agree on every symbol. */
  lemma {:induction false} SolutionUnique(c: Config, rank: map<nat, nat>, a: Env, b: Env, i: nat)
    requires c.Valid() && Ranks(c.defs, rank) && Solves(c, a) && Solves(c, b) && i < |c.defs|
    ensures a.tri(Refer(c.defs, i)) == b.tri(Refer(c.defs, i))
    decreases rank[i]
  {
    forall s | s in Dependencies(c.defs[i]) && s.SymConfig? ensures a.tri(s) == b.tri(s) {
      DependencyRank(c.defs, rank, i, s);
      SolutionUnique(c, rank, a, b, s.id);
    }
    NewValueAgree(c.defs[i], c.user[i], c.modules, a, b);
  }

  /** A solution never gives a bool symbol the value m. */
  lemma SolutionOk(c: Config, env: Env, i: nat)
    requires c.Valid() && Solves(c, env) && i < |c.defs| && c.defs[i].ty.Boolean?
    ensures env.tri(Refer(c.defs, i)) != 1
  {
  }
}
