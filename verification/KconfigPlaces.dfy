/** Symbols defined at several places: the direct dependency is collected from all of them. */
module KconfigPlaces {
  import opened KconfigExpr
  import opened KconfigSymbols
  import opened KconfigValue
  import opened KconfigDirDep

  /** One definition of a symbol: the finalised dependency of the menu around it, its own dependency and its
      properties as written. */
  datatype Place = Place(parentDep: Option<Expr>, dep: Option<Expr>, props: seq<Property>)

  /** The finalised dependency of a place. */
  function BaseOf(p: Place, modulesSym: Symbol): Option<Expr> { Propagate(p.parentDep, p.dep, modulesSym) }

  /** The dependency of the symbol: expr_alloc_or, place after place. */
  function PlacesDep(places: seq<Place>, modulesSym: Symbol): Option<Expr> {
    if places == [] then None
    else AllocOr(PlacesDep(places[..|places| - 1], modulesSym), BaseOf(places[|places| - 1], modulesSym))
  }

  /** The finalised properties of the places with a dependency, or of those without. */
  function PropsWhere(places: seq<Place>, some: bool, ty: SymType, modulesSym: Symbol): seq<Property> {
    if places == [] then []
    else
      var p, before := places[|places| - 1], PropsWhere(places[..|places| - 1], some, ty, modulesSym);
      if BaseOf(p, modulesSym).Some? == some
        then before + PropagateProps(BaseOf(p, modulesSym), p.props, ty, modulesSym)
      else before
  }

  /** The finalised properties of all places. */
  function PlacesProps(places: seq<Place>, ty: SymType, modulesSym: Symbol): seq<Property> {
    if places == [] then []
    else
      var p := places[|places| - 1];
      PlacesProps(places[..|places| - 1], ty, modulesSym)
        + PropagateProps(BaseOf(p, modulesSym), p.props, ty, modulesSym)
  }

  function FinalizedAt(ty: SymType, places: seq<Place>, revDep: Option<Expr>, implied: Option<Expr>,
                       modulesSym: Symbol): SymbolDef {
    SymbolDef(ty, PlacesProps(places, ty, modulesSym), PlacesDep(places, modulesSym), revDep, implied)
  }

  /** What the rewriting of conditions needs. */
  predicate PlainPlace(p: Place, env: Env) {
    && PlainOpt(p.parentDep, env) && PlainOpt(p.dep, env) && NotOnSymbolsOpt(p.parentDep)
    && forall k :: 0 <= k < |p.props| ==> PlainOpt(p.props[k].visible, env)
  }

  predicate PlainPlaces(places: seq<Place>, env: Env) {
    forall k :: 0 <= k < |places| ==> PlainPlace(places[k], env)
  }

  // ----- what the collected dependency is -----

  /** No place has a dependency, or every place has one. */
  predicate Uniform(places: seq<Place>, modulesSym: Symbol) {
    || (forall k :: 0 <= k < |places| ==> BaseOf(places[k], modulesSym).Some?)
    || (forall k :: 0 <= k < |places| ==> BaseOf(places[k], modulesSym).None?)
  }

  /** The disjunction that is meant: a missing dependency is y. */
  function MeantDep(places: seq<Place>, modulesSym: Symbol, env: Env): Tri {
    if places == [] then 0
    else TriOr(MeantDep(places[..|places| - 1], modulesSym, env),
               EvalOpt(BaseOf(places[|places| - 1], modulesSym), env))
  }

  lemma {:induction false} PlacesDepNone(places: seq<Place>, modulesSym: Symbol)
    ensures PlacesDep(places, modulesSym).None?
      <==> forall k :: 0 <= k < |places| ==> BaseOf(places[k], modulesSym).None?
  {
    if places != [] {
      var before := places[..|places| - 1];
      PlacesDepNone(before, modulesSym);
      assert forall k :: 0 <= k < |before| ==> places[k] == before[k];
    }
  }

  /** No dependency of a place is above what is collected. */
  lemma {:induction false} BelowDep(places: seq<Place>, modulesSym: Symbol, env: Env)
    ensures forall k :: 0 <= k < |places| && BaseOf(places[k], modulesSym).Some? ==>
      EvalOpt(BaseOf(places[k], modulesSym), env) <= EvalOpt(PlacesDep(places, modulesSym), env)
  {
    if places != [] {
      var before := places[..|places| - 1];
      BelowDep(before, modulesSym, env);
      PlacesDepNone(before, modulesSym);
      assert forall k :: 0 <= k < |before| ==> places[k] == before[k];
    }
  }

  lemma {:induction false} AllMeant(places: seq<Place>, modulesSym: Symbol, env: Env)
    requires places != [] && forall k :: 0 <= k < |places| ==> BaseOf(places[k], modulesSym).Some?
    ensures EvalOpt(PlacesDep(places, modulesSym), env) == MeantDep(places, modulesSym, env)
  {
    if |places| > 1 { AllMeant(places[..|places| - 1], modulesSym, env); }
  }

  lemma {:induction false} MissingMeant(places: seq<Place>, modulesSym: Symbol, env: Env, k: nat)
    requires k < |places| && BaseOf(places[k], modulesSym).None?
    ensures MeantDep(places, modulesSym, env) == 2
  {
    if k < |places| - 1 { MissingMeant(places[..|places| - 1], modulesSym, env, k); }
  }

  /** Some place has a dependency, and it is y. */
  predicate SomeYes(places: seq<Place>, modulesSym: Symbol, env: Env) {
    exists k :: 0 <= k < |places| && IsYes(places[k], modulesSym, env)
  }

  predicate IsYes(p: Place, modulesSym: Symbol, env: Env) {
    BaseOf(p, modulesSym).Some? && EvalOpt(BaseOf(p, modulesSym), env) == 2
  }

  /** With a dependency at some place, what is collected is y only if one of them is. */
  lemma {:induction false} CollectedYes(places: seq<Place>, modulesSym: Symbol, env: Env)
    requires PlacesDep(places, modulesSym).Some?
    ensures EvalOpt(PlacesDep(places, modulesSym), env) == 2 <==> SomeYes(places, modulesSym, env)
  {
    var before, last := places[..|places| - 1], |places| - 1;
    var p, q := PlacesDep(before, modulesSym), BaseOf(places[last], modulesSym);
    if p.Some? {
      CollectedYes(before, modulesSym, env);
      if SomeYes(before, modulesSym, env) {
        var k :| 0 <= k < |before| && IsYes(before[k], modulesSym, env);
        assert places[k] == before[k];
      }
    }
    if k :| 0 <= k < |places| && IsYes(places[k], modulesSym, env) {
      if k < last { assert before[k] == places[k]; PlacesDepNone(before, modulesSym); }
    }
  }

  /** The collected dependency is the disjunction that is meant exactly if the places agree on having one, or
      the dependency of one is y. */
  lemma PlacesDepExact(places: seq<Place>, modulesSym: Symbol, env: Env)
    requires places != []
    ensures EvalOpt(PlacesDep(places, modulesSym), env) == MeantDep(places, modulesSym, env)
      <==> Uniform(places, modulesSym) || SomeYes(places, modulesSym, env)
  {
    if PlacesDep(places, modulesSym).Some? { CollectedYes(places, modulesSym, env); }
    PlacesDepNone(places, modulesSym);
    if forall k :: 0 <= k < |places| ==> BaseOf(places[k], modulesSym).Some? {
      AllMeant(places, modulesSym, env);
    } else {
      var k :| 0 <= k < |places| && BaseOf(places[k], modulesSym).None?;
      MissingMeant(places, modulesSym, env, k);
    }
  }

  // ----- conditions at the places -----

  lemma PlaceWithin(p: Place, ty: SymType, modulesSym: Symbol, env: Env)
    requires EnvOk(env) && PlainPlace(p, env)
    ensures PropsWithin(PropagateProps(BaseOf(p, modulesSym), p.props, ty, modulesSym),
                        EvalOpt(BaseOf(p, modulesSym), env), ty, env)
  {
    FinalizedWithin(ty, p.parentDep, p.dep, p.props, None, None, modulesSym, env);
  }

  lemma WithinMore(a: seq<Property>, b: seq<Property>, low: Tri, bound: Tri, ty: SymType, env: Env)
    requires PropsWithin(a, bound, ty, env) && PropsWithin(b, low, ty, env) && low <= bound
    ensures PropsWithin(a + b, bound, ty, env)
  {
  }

  /** Conditions at a place with a dependency are within every bound that is not below the dependencies. */
  lemma {:induction false} KeptWithin(places: seq<Place>, bound: Tri, ty: SymType, modulesSym: Symbol, env: Env)
    requires EnvOk(env) && PlainPlaces(places, env)
    requires forall k :: 0 <= k < |places| && BaseOf(places[k], modulesSym).Some? ==>
      EvalOpt(BaseOf(places[k], modulesSym), env) <= bound
    ensures PropsWithin(PropsWhere(places, true, ty, modulesSym), bound, ty, env)
  {
    if places != [] {
      var p, before := places[|places| - 1], places[..|places| - 1];
      assert forall k :: 0 <= k < |before| ==> places[k] == before[k];
      KeptWithin(before, bound, ty, modulesSym, env);
      if BaseOf(p, modulesSym).Some? {
        PlaceWithin(p, ty, modulesSym, env);
        WithinMore(PropsWhere(before, true, ty, modulesSym),
                   PropagateProps(BaseOf(p, modulesSym), p.props, ty, modulesSym),
                   EvalOpt(BaseOf(p, modulesSym), env), bound, ty, env);
      }
    }
  }

  lemma {:induction false} PromptsAppend(a: seq<Property>, b: seq<Property>, env: Env)
    ensures PromptVisibility(a + b, env) == TriOr(PromptVisibility(a, env), PromptVisibility(b, env))
  {
    if b == [] {
      assert a + b == a;
    } else {
      assert (a + b)[..|a + b| - 1] == a + b[..|b| - 1];
      PromptsAppend(a, b[..|b| - 1], env);
    }
  }

  /** A prompt stands at a place with a dependency or at one without. */
  lemma {:induction false} PromptsSplit(places: seq<Place>, ty: SymType, modulesSym: Symbol, env: Env)
    ensures PromptVisibility(PlacesProps(places, ty, modulesSym), env)
      == TriOr(PromptVisibility(PropsWhere(places, true, ty, modulesSym), env),
               PromptVisibility(PropsWhere(places, false, ty, modulesSym), env))
  {
    if places != [] {
      var p, before := places[|places| - 1], places[..|places| - 1];
      var own := PropagateProps(BaseOf(p, modulesSym), p.props, ty, modulesSym);
      PromptsSplit(before, ty, modulesSym, env);
      PromptsAppend(PlacesProps(before, ty, modulesSym), own, env);
      PromptsAppend(PropsWhere(before, BaseOf(p, modulesSym).Some?, ty, modulesSym), own, env);
    }
  }

  // ----- the bound -----

  /** Without a setting of the user and without implies, the default decides. */
  predicate DefaultBounded(d: SymbolDef, modules: Tri, env: Env) {
    Implied(d, modules, env) != 0 || Promote(DefaultValue(d.props, env), d.ty, modules) <= DirDep(d, modules, env)
  }

  /** The bound holds for every setting of the user exactly if the warning is due, or visibility and default
      keep it. */
  lemma BoundedExact(d: SymbolDef, modules: Tri, env: Env)
    requires d.ty.Boolean? || d.ty.Tristate?
    ensures (forall user: Option<Tri> :: Bounded(d, user, modules, env))
      <==> (UnmetDependency(d, modules, env) ||
            (Visible(d, modules, env) <= DirDep(d, modules, env) && DefaultBounded(d, modules, env)))
  {
    if !UnmetDependency(d, modules, env) {
      UnsetBounded(d, modules, env);
      if forall user: Option<Tri> :: Bounded(d, user, modules, env) {
        assert Bounded(d, None, modules, env) && Bounded(d, Some(2), modules, env);
      }
    }
  }

  lemma UnsetBounded(d: SymbolDef, modules: Tri, env: Env)
    requires d.ty.Boolean? || d.ty.Tristate?
    requires !UnmetDependency(d, modules, env)
    ensures Bounded(d, None, modules, env) <==> DefaultBounded(d, modules, env)
  {
  }

  /** The condition of a prompt against the direct dependency, as the calculation sees it. */
  lemma VisibleBounded(d: SymbolDef, modules: Tri, env: Env)
    requires d.ty.Boolean? || d.ty.Tristate?
    ensures Visible(d, modules, env) <= DirDep(d, modules, env)
      <==> Within(PromptVisibility(d.props, env), EvalOpt(d.dirDep, env), EffectiveType(d.ty, modules))
  {
  }

  /** The bound for a symbol with any number of definitions.  It holds for every setting of the user exactly if
      the warning is due, or the prompts at the places without a dependency are within what was collected from
      the others, and so is the default. */
  lemma PlacesBoundExact(ty: SymType, places: seq<Place>, revDep: Option<Expr>, implied: Option<Expr>,
                         modulesSym: Symbol, modules: Tri, env: Env)
    requires ty.Boolean? || ty.Tristate?
    requires EnvOk(env) && PlainPlaces(places, env)
    ensures var d := FinalizedAt(ty, places, revDep, implied, modulesSym);
      (forall user: Option<Tri> :: Bounded(d, user, modules, env))
      <==>
        || UnmetDependency(d, modules, env)
        || (&& Within(PromptVisibility(PropsWhere(places, false, ty, modulesSym), env), EvalOpt(d.dirDep, env),
                      EffectiveType(ty, modules))
            && DefaultBounded(d, modules, env))
  {
    var d := FinalizedAt(ty, places, revDep, implied, modulesSym);
    BoundedExact(d, modules, env);
    VisibleBounded(d, modules, env);
    PromptsSplit(places, ty, modulesSym, env);
    BelowDep(places, modulesSym, env);
    KeptWithin(places, EvalOpt(d.dirDep, env), ty, modulesSym, env);
    VisibilityWithin(PropsWhere(places, true, ty, modulesSym), EvalOpt(d.dirDep, env), ty, env);
  }

  lemma {:induction false} AllKept(places: seq<Place>, ty: SymType, modulesSym: Symbol)
    requires forall k :: 0 <= k < |places| ==> BaseOf(places[k], modulesSym).Some?
    ensures PlacesProps(places, ty, modulesSym) == PropsWhere(places, true, ty, modulesSym)
  {
    if places != [] { AllKept(places[..|places| - 1], ty, modulesSym); }
  }

  /** If every place has a dependency, or none has, the bound of a single definition holds for all of them
      together: whatever the user asked for, and whatever the selects, defaults and implies. */
  lemma PlacesBound(ty: SymType, places: seq<Place>, revDep: Option<Expr>, implied: Option<Expr>,
                    modulesSym: Symbol, user: Option<Tri>, modules: Tri, env: Env)
    requires ty.Boolean? || ty.Tristate?
    requires EnvOk(env) && PlainPlaces(places, env) && Uniform(places, modulesSym)
    ensures Bounded(FinalizedAt(ty, places, revDep, implied, modulesSym), user, modules, env)
  {
    var d := FinalizedAt(ty, places, revDep, implied, modulesSym);
    PlacesDepNone(places, modulesSym);
    if PlacesDep(places, modulesSym).Some? {
      AllKept(places, ty, modulesSym);
      BelowDep(places, modulesSym, env);
      KeptWithin(places, EvalOpt(d.dirDep, env), ty, modulesSym, env);
      ValueBounded(d, user, modules, env);
    }
  }
}
