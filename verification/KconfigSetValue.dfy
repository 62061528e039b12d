/** sym_set_tristate_value: a change accepted takes effect, a change refused leaves no trace. */
module KconfigSetValue {
  import opened KconfigExpr
  import opened KconfigSymbols
  import opened KconfigValue
  import opened KconfigEvaluator

  /** sym_tristate_within_range for a symbol outside choices. */
  predicate WithinRange(visible: Tri, rev: Tri, ty: SymType, modules: Tri, val: Tri) {
    && visible != 0
    && (ty.Boolean? || ty.Tristate?)
    && !(EffectiveType(ty, modules).Boolean? && val == 1)
    && visible > rev
    && rev <= val <= visible
  }

  /** The configuration after the user has set symbol `i`. */
  function Changed(c: Config, i: nat, val: Tri): Config
    requires i < |c.user|
  {
    c.(user := c.user[i := Some(val)])
  }

  /** Symbol `j` depends on symbol `i`, possibly through others, or is `i`. */
  ghost predicate Reaches(defs: Defs, j: nat, i: nat) {
    exists p :: Walk(defs, p) && p[0] == j && p[|p| - 1] == i
  }

  lemma ReachesStep(defs: Defs, j: nat, k: nat, i: nat)
    requires Edge(defs, j, k) && Reaches(defs, k, i)
    ensures Reaches(defs, j, i)
  {
    var p :| Walk(defs, p) && p[0] == k && p[|p| - 1] == i;
    var q := [j] + p;
    forall m | 0 <= m < |q| - 1 ensures Edge(defs, q[m], q[m + 1]) {
      if m > 0 { assert Edge(defs, p[m - 1], p[(m - 1) + 1]); }
    }
    assert Walk(defs, q) && q[0] == j && q[|q| - 1] == i;
  }

  lemma ReachesSelf(defs: Defs, i: nat)
    ensures Reaches(defs, i, i)
  {
    assert Walk(defs, [i]) && [i][0] == i;
  }

  /** Symbols that do not depend on the changed one keep their values. */
  lemma {:induction false} Unaffected(c: Config, rank: map<nat, nat>, i: nat, val: Tri, sol: Env, sol': Env, j: nat)
    requires c.Valid() && Ranks(c.defs, rank) && i < |c.defs| && j < |c.defs|
    requires Solves(c, sol) && Solves(Changed(c, i, val), sol')
    requires !Reaches(c.defs, j, i)
    ensures sol.tri(Refer(c.defs, j)) == sol'.tri(Refer(c.defs, j))
    decreases rank[j]
  {
    DependenciesUnaffected(c, rank, i, val, sol, sol', j);
    NewValueAgree(c.defs[j], c.user[j], c.modules, sol, sol');
    ReachesSelf(c.defs, i);
  }

  lemma {:induction false} DependenciesUnaffected(c: Config, rank: map<nat, nat>, i: nat, val: Tri, sol: Env,
                                                  sol': Env, j: nat)
    requires c.Valid() && Ranks(c.defs, rank) && i < |c.defs| && j < |c.defs|
    requires Solves(c, sol) && Solves(Changed(c, i, val), sol')
    requires j == i || !Reaches(c.defs, j, i)
    ensures Agree(sol, sol', Dependencies(c.defs[j]))
    decreases rank[j], 0
  {
    forall s | s in Dependencies(c.defs[j]) && s.SymConfig? ensures sol.tri(s) == sol'.tri(s) {
      DependencyRank(c.defs, rank, j, s);
      if Reaches(c.defs, s.id, i) {
        ReachesStep(c.defs, j, s.id, i);
        RankReaches(c.defs, rank, s.id, i);
      }
      Unaffected(c, rank, i, val, sol, sol', s.id);
    }
  }

  lemma RankReaches(defs: Defs, rank: map<nat, nat>, j: nat, i: nat)
    requires Ranks(defs, rank) && Reaches(defs, j, i) && i < |defs| && j < |defs|
    ensures rank[i] <= rank[j]
  {
    var p :| Walk(defs, p) && p[0] == j && p[|p| - 1] == i;
    if |p| >= 2 { WalkDescends(defs, rank, p); }
  }

  /** The change is kept: either it was within range, or it asked for the value the symbol had anyway and
      the prompt does not cap it. */
  predicate Sticks(visible: Tri, rev: Tri, ty: SymType, modules: Tri, was: Tri, val: Tri) {
    if was != val then WithinRange(visible, rev, ty, modules, val)
    else visible == 0 || val <= visible || val == rev
  }

  /** After a change the symbol has the requested value in the new solution exactly when the change
      sticks. For a change within range this is always so; asking for the current value is accepted without
      a range check. */
  lemma TakesEffect(c: Config, rank: map<nat, nat>, i: nat, val: Tri, sol: Env, sol': Env)
    requires c.Valid() && Ranks(c.defs, rank) && i < |c.defs| && IsTri(Refer(c.defs, i))
    requires Solves(c, sol) && Solves(Changed(c, i, val), sol')
    requires
      var was := sol.tri(Refer(c.defs, i));
      was == val ||
      WithinRange(Visible(c.defs[i], c.modules, sol), RevDep(c.defs[i], c.modules, sol), c.defs[i].ty, c.modules, val)
    ensures sol'.tri(Refer(c.defs, i)) == val
       <==> Sticks(Visible(c.defs[i], c.modules, sol), RevDep(c.defs[i], c.modules, sol), c.defs[i].ty, c.modules,
                   sol.tri(Refer(c.defs, i)), val)
  {
    DependenciesUnaffected(c, rank, i, val, sol, sol', i);
    AttributesAgree(c.defs[i], c.modules, sol, sol');
  }

  /** A new value is within range exactly if setting it would bring it about, and the symbol leaves any choice:
      its prompt allows more than its selects demand.  So nothing is refused that could be had. */
  lemma RangeExactly(c: Config, rank: map<nat, nat>, i: nat, val: Tri, sol: Env, sol': Env)
    requires c.Valid() && Ranks(c.defs, rank) && i < |c.defs| && IsTri(Refer(c.defs, i))
    requires Solves(c, sol) && Solves(Changed(c, i, val), sol') && sol.tri(Refer(c.defs, i)) != val
    ensures var vis, rev := Visible(c.defs[i], c.modules, sol), RevDep(c.defs[i], c.modules, sol);
      WithinRange(vis, rev, c.defs[i].ty, c.modules, val) <==> sol'.tri(Refer(c.defs, i)) == val && vis > rev
  {
    DependenciesUnaffected(c, rank, i, val, sol, sol', i);
    AttributesAgree(c.defs[i], c.modules, sol, sol');
  }

  /** Asking for the current value need not keep it: visible as m, y by default, then set to y by the user,
      the symbol falls to m at the next computation. */
  lemma CurrentValueLost(sol: Env)
    ensures NewValue(CAPPED, None, 2, sol) == 2 && NewValue(CAPPED, Some(2), 2, sol) == 1
  {
    CappedValues(sol);
  }

  /** A change that sticks to the current value changes no value. */
  lemma SameSolution(c: Config, rank: map<nat, nat>, i: nat, sol: Env, sol': Env, j: nat)
    requires c.Valid() && Ranks(c.defs, rank) && i < |c.defs| && j < |c.defs| && Solves(c, sol)
    requires var c' := Changed(c, i, sol.tri(Refer(c.defs, i)));
      Solves(c', sol') && sol'.tri(Refer(c.defs, i)) == sol.tri(Refer(c.defs, i))
    ensures sol'.tri(Refer(c.defs, j)) == sol.tri(Refer(c.defs, j))
  {
    var val := sol.tri(Refer(c.defs, i));
    var c' := Changed(c, i, val);
    DependenciesUnaffected(c, rank, i, val, sol, sol', i);
    NewValueAgree(c.defs[i], Some(val), c.modules, sol, sol');
    forall k: nat | k < |c.defs|
      ensures sol.tri(Refer(c.defs, k)) == NewValue(c.defs[k], c'.user[k], c.modules, sol)
    {
    }
    SolutionUnique(c', rank, sol, sol', j);
  }

  /** What was computed before the user asked for the current value. */
  ghost predicate AllCorrect(c: Config, st: seq<SymbolState>, sol: Env)
    requires c.Valid()
  {
    |st| == |c.defs| && forall j :: 0 <= j < |st| && st[j].valid ==>
      Correct(st[j], c.defs[j], c.user[j], c.modules, sol)
  }

  lemma CorrectKept(st: SymbolState, d: SymbolDef, user: Option<Tri>, user': Option<Tri>, modules: Tri, sol: Env,
                    sol': Env)
    requires Correct(st, d, user, modules, sol) && Agree(sol, sol', Dependencies(d))
    requires NewValue(d, user, modules, sol) == NewValue(d, user', modules, sol')
    ensures Correct(st, d, user', modules, sol')
  {
    AttributesAgree(d, modules, sol, sol');
  }

  /** The cache that is kept when the user asks for the current value is right for the new settings exactly if
      the value stays. */
  lemma CacheStale(c: Config, rank: map<nat, nat>, i: nat, st: seq<SymbolState>, sol: Env, sol': Env)
    requires c.Valid() && Ranks(c.defs, rank) && i < |c.defs| && Solves(c, sol)
    requires AllCorrect(c, st, sol) && st[i].valid
    requires Solves(Changed(c, i, sol.tri(Refer(c.defs, i))), sol')
    ensures AllCorrect(Changed(c, i, sol.tri(Refer(c.defs, i))), st, sol')
      <==> sol'.tri(Refer(c.defs, i)) == sol.tri(Refer(c.defs, i))
  {
    var c' := Changed(c, i, sol.tri(Refer(c.defs, i)));
    if sol'.tri(Refer(c.defs, i)) == sol.tri(Refer(c.defs, i)) {
      forall j | 0 <= j < |st| && st[j].valid ensures Correct(st[j], c.defs[j], c'.user[j], c.modules, sol') {
        forall s | s in Dependencies(c.defs[j]) && s.SymConfig? ensures sol.tri(s) == sol'.tri(s) {
          DependencyRank(c.defs, rank, j, s);
          SameSolution(c, rank, i, sol, sol', s.id);
        }
        SameSolution(c, rank, i, sol, sol', j);
        CorrectKept(st[j], c.defs[j], c.user[j], c'.user[j], c.modules, sol, sol');
      }
    }
  }

  /** The interactive session: the user's settings and the cache built for them. */
  class Session {
    var conf: Config
    var cache: Evaluator

    constructor (c: Config)
      requires c.Valid()
      ensures conf == c && fresh(cache) && cache.c == c
    {
      conf := c;
      cache := new Evaluator(c);
    }

    ghost predicate Valid(rank: map<nat, nat>, sol: Env)
      reads this, cache
    {
      && conf.Valid() && Ranks(conf.defs, rank) && Solves(conf, sol)
      && cache.c == conf && AllCorrect(conf, cache.st, sol)
    }

    /** sym_set_tristate_value.  A new value clears the whole cache. */
    method SetTristateValue(i: nat, val: Tri, ghost rank: map<nat, nat>, ghost sol: Env) returns (ok: bool)
      requires Valid(rank, sol) && i < |conf.defs| && IsTri(Refer(conf.defs, i)) && cache.st[i].valid
      modifies this
      ensures !ok ==> conf == old(conf) && cache == old(cache)
      ensures ok ==> conf == Changed(old(conf), i, val)
      ensures ok && sol.tri(Refer(old(conf).defs, i)) != val ==>
        && fresh(cache) && cache.c == conf && (forall j :: 0 <= j < |cache.st| ==> !cache.st[j].valid)
      ensures ok ==> forall sol' | Solves(conf, sol') ::
        (sol'.tri(Refer(conf.defs, i)) == val
         <==> Sticks(Visible(conf.defs[i], conf.modules, sol), RevDep(conf.defs[i], conf.modules, sol),
                     conf.defs[i].ty, conf.modules, sol.tri(Refer(conf.defs, i)), val))
      ensures ok && sol.tri(Refer(old(conf).defs, i)) != val ==>
        forall sol' | Solves(conf, sol') :: sol'.tri(Refer(conf.defs, i)) == val
      ensures !ok ==> Valid(rank, sol)
      ensures ok && sol.tri(Refer(old(conf).defs, i)) != val ==>
        forall sol' | Solves(conf, sol') :: Valid(rank, sol')
      ensures ok && sol.tri(Refer(old(conf).defs, i)) == val ==>
        && cache == old(cache) && cache.st == old(cache.st)
        && forall sol' | Solves(conf, sol') ::
             AllCorrect(conf, cache.st, sol') <==> sol'.tri(Refer(conf.defs, i)) == val
      ensures !ok <==>
        && sol.tri(Refer(old(conf).defs, i)) != val
        && !WithinRange(Visible(old(conf).defs[i], old(conf).modules, sol),
                        RevDep(old(conf).defs[i], old(conf).modules, sol),
                        old(conf).defs[i].ty, old(conf).modules, val)
    {
      var s := cache.st[i];
      var oldval := s.curr;
      if oldval != val && !WithinRange(s.visible, s.rev, conf.defs[i].ty, conf.modules, val) { return false; }
      ghost var before := conf;
      conf := Changed(conf, i, val);
      if oldval != val { cache := new Evaluator(conf); }
      forall sol' | Solves(conf, sol')
        ensures sol'.tri(Refer(conf.defs, i)) == val
          <==> Sticks(Visible(conf.defs[i], conf.modules, sol), RevDep(conf.defs[i], conf.modules, sol),
                      conf.defs[i].ty, conf.modules, sol.tri(Refer(conf.defs, i)), val)
      {
        TakesEffect(before, rank, i, val, sol, sol');
      }
      if oldval == val { StaleFor(before, rank, i, cache.st, sol); }
      return true;
    }

    lemma StaleFor(c: Config, rank: map<nat, nat>, i: nat, st: seq<SymbolState>, sol: Env)
      requires c.Valid() && Ranks(c.defs, rank) && i < |c.defs| && Solves(c, sol)
      requires AllCorrect(c, st, sol) && st[i].valid
      ensures var val := sol.tri(Refer(c.defs, i));
        forall sol' | Solves(Changed(c, i, val), sol') ::
          AllCorrect(Changed(c, i, val), st, sol') <==> sol'.tri(Refer(c.defs, i)) == val
    {
      var val := sol.tri(Refer(c.defs, i));
      forall sol' | Solves(Changed(c, i, val), sol')
        ensures AllCorrect(Changed(c, i, val), st, sol') <==> sol'.tri(Refer(c.defs, i)) == val
      {
        CacheStale(c, rank, i, st, sol, sol');
      }
    }
  }
}
