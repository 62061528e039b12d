/** Dependencies pushed from a menu to its entries, and the bound they put on the value of a symbol. */
module KconfigDirDep {
  import opened KconfigExpr
  import opened KconfigTransform
  import opened KconfigJoin
  import opened KconfigDups
  import opened KconfigSubmenu
  import opened KconfigSymbols
  import opened KconfigValue

  /** rewrite_m: m becomes m && MODULES. */
  function RewriteM(e: Expr, modulesSym: Symbol): Expr {
    match e
    case ENot(x) => ENot(RewriteM(x, modulesSym))
    case EAnd(l, r) => EAnd(RewriteM(l, modulesSym), RewriteM(r, modulesSym))
    case EOr(l, r) => EOr(RewriteM(l, modulesSym), RewriteM(r, modulesSym))
    case ESym(s) => if s.SymMod? then EAnd(e, ESym(modulesSym)) else e
    case ECmp(_, _, _) => e
  }

  /** The expression with every operand m replaced by n.  Comparisons with m stay. */
  function WithoutM(e: Expr): Expr {
    match e
    case ENot(x) => ENot(WithoutM(x))
    case EAnd(l, r) => EAnd(WithoutM(l), WithoutM(r))
    case EOr(l, r) => EOr(WithoutM(l), WithoutM(r))
    case ESym(s) => if s.SymMod? then ESym(SymNo) else e
    case ECmp(_, _, _) => e
  }

  /** Running without modules, m is n; running with modules, nothing changes. */
  lemma {:induction false} RewriteMMeaning(e: Expr, modulesSym: Symbol, env: Env)
    ensures Eval(RewriteM(e, modulesSym), env) == Eval(if Value(modulesSym, env) == 0 then WithoutM(e) else e, env)
  {
    match e
    case ENot(x) => RewriteMMeaning(x, modulesSym, env);
    case EAnd(l, r) => RewriteMMeaning(l, modulesSym, env); RewriteMMeaning(r, modulesSym, env);
    case EOr(l, r) => RewriteMMeaning(l, modulesSym, env); RewriteMMeaning(r, modulesSym, env);
    case ESym(_) =>
    case ECmp(_, _, _) =>
  }

  lemma {:induction false} RewriteMPlain(e: Expr, modulesSym: Symbol, env: Env)
    requires PlainConsts(e, env)
    ensures PlainConsts(RewriteM(e, modulesSym), env)
  {
    match e
    case ENot(x) => RewriteMPlain(x, modulesSym, env);
    case EAnd(l, r) => RewriteMPlain(l, modulesSym, env); RewriteMPlain(r, modulesSym, env);
    case EOr(l, r) => RewriteMPlain(l, modulesSym, env); RewriteMPlain(r, modulesSym, env);
    case ESym(_) =>
    case ECmp(_, _, _) =>
  }

  /** One condition combined with the dependency `above` it: rewritten, transformed, conjoined, reduced. */
  function Propagate(above: Option<Expr>, dep: Option<Expr>, modulesSym: Symbol): Option<Expr> {
    var own := if dep.None? then None else Some(Transform(RewriteM(dep.value, modulesSym)));
    var both := AllocAnd(above, own);
    if both.None? then None else Some(ElimDups(both.value))
  }

  predicate PlainOpt(e: Option<Expr>, env: Env) { e.Some? ==> PlainConsts(e.value, env) }

  predicate NotOnSymbolsOpt(e: Option<Expr>) { e.Some? ==> NotOnSymbols(e.value) }

  /** The combined condition is exactly the conjunction. */
  lemma PropagateExact(above: Option<Expr>, dep: Option<Expr>, modulesSym: Symbol, env: Env)
    requires EnvOk(env) && PlainOpt(above, env) && PlainOpt(dep, env)
    ensures EvalOpt(Propagate(above, dep, modulesSym), env)
         == TriAnd(EvalOpt(above, env), if dep.None? then 2 else Eval(RewriteM(dep.value, modulesSym), env))
    ensures PlainOpt(Propagate(above, dep, modulesSym), env)
  {
    var own := if dep.None? then None else Some(Transform(RewriteM(dep.value, modulesSym)));
    if dep.Some? {
      RewriteMPlain(dep.value, modulesSym, env);
      TransformKeepsValue(RewriteM(dep.value, modulesSym), env);
      TransformPlain(RewriteM(dep.value, modulesSym), env);
    }
    AllocAndExact(above, own, env);
    var both := AllocAnd(above, own);
    if both.Some? { ElimDupsPlain(both.value, env); }
  }

  /** Finalised conditions have negations on symbols only, level after level. */
  lemma PropagateNotOnSymbols(above: Option<Expr>, dep: Option<Expr>, modulesSym: Symbol)
    requires NotOnSymbolsOpt(above)
    ensures NotOnSymbolsOpt(Propagate(above, dep, modulesSym))
  {
    if dep.Some? {
      TransformNormal(RewriteM(dep.value, modulesSym));
      NormalNotOnSymbols(Transform(RewriteM(dep.value, modulesSym)));
    }
    var own := if dep.None? then None else Some(Transform(RewriteM(dep.value, modulesSym)));
    if AllocAnd(above, own).Some? { ElimDupsNotOnSymbols(AllocAnd(above, own).value); }
  }

  /** Where expr_trans_bool is called it keeps "is not n" in every environment: what it gets has negations on
      symbols only. */
  lemma TransBoolWhereCalled(base: Option<Expr>, cond: Option<Expr>, modulesSym: Symbol, env: Env)
    requires NotOnSymbolsOpt(base)
    ensures var dep := Propagate(base, cond, modulesSym);
      dep.Some? ==> (Eval(TransBool(dep.value), env) != 0 <==> Eval(dep.value, env) != 0)
  {
    PropagateNotOnSymbols(base, cond, modulesSym);
    var dep := Propagate(base, cond, modulesSym);
    if dep.Some? {
      NotOnSymbolsUndisturbed(dep.value);
      TransBoolKeepsNonNo(dep.value, env);
    }
  }

  /** The condition of a property below the dependency `base` of its entry. */
  function PropagateProp(base: Option<Expr>, p: Property, ty: SymType, modulesSym: Symbol): Property {
    var dep := Propagate(base, p.visible, modulesSym);
    p.(visible := if !ty.Tristate? && dep.Some? then Some(TransBool(dep.value)) else dep)
  }

  /** The condition of a bool symbol's property has no such test left; that of a tristate is the conjunction as
      it stands. */
  lemma PropTests(base: Option<Expr>, p: Property, ty: SymType, modulesSym: Symbol)
    ensures var v := PropagateProp(base, p, ty, modulesSym).visible;
      && (v.None? <==> Propagate(base, p.visible, modulesSym).None?)
      && (v.Some? && !ty.Tristate? ==> NoTests(v.value))
      && (ty.Tristate? ==> v == Propagate(base, p.visible, modulesSym))
  {
    var dep := Propagate(base, p.visible, modulesSym);
    if dep.Some? { TransBoolExactly(dep.value); }
  }

  function PropagateProps(base: Option<Expr>, ps: seq<Property>, ty: SymType, modulesSym: Symbol): (r: seq<Property>)
    ensures |r| == |ps|
  {
    seq(|ps|, i requires 0 <= i < |ps| => PropagateProp(base, ps[i], ty, modulesSym))
  }

  /** A condition within the bound: for a tristate as a value, for a bool as "not n". */
  predicate Within(cond: Tri, bound: Tri, ty: SymType) {
    if ty.Tristate? then cond <= bound else cond != 0 ==> bound != 0
  }

  lemma PropWithin(base: Option<Expr>, p: Property, ty: SymType, modulesSym: Symbol, env: Env)
    requires EnvOk(env) && PlainOpt(base, env) && PlainOpt(p.visible, env) && NotOnSymbolsOpt(base)
    ensures Within(EvalOpt(PropagateProp(base, p, ty, modulesSym).visible, env), EvalOpt(base, env), ty)
  {
    PropagateExact(base, p.visible, modulesSym, env);
    TransBoolWhereCalled(base, p.visible, modulesSym, env);
  }

  ghost predicate PropsWithin(ps: seq<Property>, bound: Tri, ty: SymType, env: Env) {
    forall k :: 0 <= k < |ps| ==> Within(EvalOpt(ps[k].visible, env), bound, ty)
  }

  lemma {:induction false} VisibilityWithin(ps: seq<Property>, bound: Tri, ty: SymType, env: Env)
    requires PropsWithin(ps, bound, ty, env)
    ensures Within(PromptVisibility(ps, env), bound, ty)
  {
    if ps != [] { VisibilityWithin(ps[..|ps| - 1], bound, ty, env); }
  }

  lemma {:induction false} DefaultWithin(ps: seq<Property>, bound: Tri, ty: SymType, env: Env)
    requires PropsWithin(ps, bound, ty, env)
    ensures Within(DefaultValue(ps, env), bound, ty)
  {
    if ps != [] {
      forall k | 0 <= k < |ps[1..]| ensures Within(EvalOpt(ps[1..][k].visible, env), bound, ty) {
        assert ps[1..][k] == ps[k + 1];
      }
      DefaultWithin(ps[1..], bound, ty, env);
    }
  }

  /** The value is at most the direct dependency, or the warning about unmet dependencies is due. */
  predicate Bounded(d: SymbolDef, user: Option<Tri>, modules: Tri, env: Env) {
    UnmetDependency(d, modules, env) || NewValue(d, user, modules, env) <= DirDep(d, modules, env)
  }

  /** If every condition of a symbol is within its direct dependency, so is its value, unless the unmet
      dependency warning is due: whatever the user asked for, and whatever the defaults and implies. */
  lemma ValueBounded(d: SymbolDef, user: Option<Tri>, modules: Tri, env: Env)
    requires IsTri(SymConfig(0, d.ty))
    requires PropsWithin(d.props, EvalOpt(d.dirDep, env), d.ty, env)
    ensures Bounded(d, user, modules, env)
  {
    VisibilityWithin(d.props, EvalOpt(d.dirDep, env), d.ty, env);
    DefaultWithin(d.props, EvalOpt(d.dirDep, env), d.ty, env);
  }

  /** A bool or tristate symbol with one definition, after finalisation: `parentDep` is the finalised
      dependency of the enclosing menu, `dep` and the properties are as written. */
  function Finalized(ty: SymType, parentDep: Option<Expr>, dep: Option<Expr>, ps: seq<Property>,
                     revDep: Option<Expr>, implied: Option<Expr>, modulesSym: Symbol): SymbolDef
  {
    var base := Propagate(parentDep, dep, modulesSym);
    SymbolDef(ty, PropagateProps(base, ps, ty, modulesSym), base, revDep, implied)
  }

  lemma FinalizedWithin(ty: SymType, parentDep: Option<Expr>, dep: Option<Expr>, ps: seq<Property>,
                        revDep: Option<Expr>, implied: Option<Expr>, modulesSym: Symbol, env: Env)
    requires EnvOk(env) && PlainOpt(parentDep, env) && PlainOpt(dep, env)
    requires forall k :: 0 <= k < |ps| ==> PlainOpt(ps[k].visible, env)
    requires NotOnSymbolsOpt(parentDep)
    ensures var d := Finalized(ty, parentDep, dep, ps, revDep, implied, modulesSym);
      PropsWithin(d.props, EvalOpt(d.dirDep, env), ty, env)
  {
    var base := Propagate(parentDep, dep, modulesSym);
    PropagateExact(parentDep, dep, modulesSym, env);
    PropagateNotOnSymbols(parentDep, dep, modulesSym);
    var d := Finalized(ty, parentDep, dep, ps, revDep, implied, modulesSym);
    forall k | 0 <= k < |d.props| ensures Within(EvalOpt(d.props[k].visible, env), EvalOpt(d.dirDep, env), ty) {
      PropWithin(base, ps[k], ty, modulesSym, env);
    }
  }

  /** The value of a finalised symbol exceeds its direct dependency only where the program warns. */
  lemma DirectDependencyBound(ty: SymType, parentDep: Option<Expr>, dep: Option<Expr>, ps: seq<Property>,
                              revDep: Option<Expr>, implied: Option<Expr>, modulesSym: Symbol,
                              user: Option<Tri>, modules: Tri, env: Env)
    requires ty.Boolean? || ty.Tristate?
    requires EnvOk(env) && PlainOpt(parentDep, env) && PlainOpt(dep, env)
    requires forall k :: 0 <= k < |ps| ==> PlainOpt(ps[k].visible, env)
    requires NotOnSymbolsOpt(parentDep)
    ensures Bounded(Finalized(ty, parentDep, dep, ps, revDep, implied, modulesSym), user, modules, env)
  {
    FinalizedWithin(ty, parentDep, dep, ps, revDep, implied, modulesSym, env);
    ValueBounded(Finalized(ty, parentDep, dep, ps, revDep, implied, modulesSym), user, modules, env);
  }

  /** With a second definition the bound can fail: expr_alloc_or drops the missing dependency of the
      first place, though it means y.  For a symbol visible at a place without dependencies and depending on
      `e` at another, the bound holds for every user value exactly when `e` leaves nothing to bound. */
  lemma TwoPlaces(ty: SymType, e: Expr, modules: Tri, env: Env)
    requires ty.Boolean? || ty.Tristate?
    ensures var d := SymbolDef(ty, [Property(Prompt, None, None)], AllocOr(None, Some(e)), None, None);
      (forall user: Option<Tri> :: Bounded(d, user, modules, env)) <==> DirDep(d, modules, env) == 2
  {
    var p := Property(Prompt, None, None);
    var d := SymbolDef(ty, [p], AllocOr(None, Some(e)), None, None);
    var before: seq<Property> := [];
    assert [p][..0] == before;
    assert PromptVisibility([p], env) == 2;
    assert NewValue(d, Some(2), modules, env) == 2;
    if forall user: Option<Tri> :: Bounded(d, user, modules, env) { assert Bounded(d, Some(2), modules, env); }
  }
}
