/** sym_calc_value and expr_calc_value: values computed on demand and cached, with the VALID flag set
    before the computation starts. */
module KconfigEvaluator {
  import opened KconfigExpr
  import opened KconfigSymbols
  import opened KconfigValue
  import KconfigCheckDeps

  /** The mutable part of a symbol. */
  datatype SymbolState = SymbolState(
    valid: bool, curr: Tri, visible: Tri, dir: Tri, rev: Tri, imp: Tri, write: bool, warned: bool)

  /** The cached state is what the plain definition says under the values in `sol`. */
  ghost predicate Correct(st: SymbolState, d: SymbolDef, user: Option<Tri>, modules: Tri, sol: Env) {
    && st.curr == NewValue(d, user, modules, sol)
    && (!d.ty.Unknown? ==>
        && st.visible == Visible(d, modules, sol)
        && st.dir == DirDep(d, modules, sol)
        && st.rev == RevDep(d, modules, sol)
        && st.imp == Implied(d, modules, sol))
    && (st.warned <==> TriType(d.ty) && UnmetDependency(d, modules, sol))
    && (st.write <==> Written(d, user, modules, sol))
  }

  /** Every valid symbol is correct, or is still being computed and has rank `b` at least. */
  ghost predicate Sound(c: Config, rank: map<nat, nat>, sol: Env, st: seq<SymbolState>, b: nat)
    requires c.Valid() && Ranks(c.defs, rank)
  {
    && |st| == |c.defs|
    && forall j :: 0 <= j < |st| && st[j].valid && rank[j] < b ==>
         Correct(st[j], c.defs[j], c.user[j], c.modules, sol)
  }

  /** Apart from symbol `i`, what was valid stays, and so does everything of rank `b` at least. */
  ghost predicate Kept(rank: map<nat, nat>, b: nat, before: seq<SymbolState>, after: seq<SymbolState>, i: int) {
    && |before| == |after|
    && forall j :: 0 <= j < |before| && j != i && (before[j].valid || (j in rank && rank[j] >= b)) ==>
      after[j] == before[j]
  }

  /** Only symbols below `b` are referred to. */
  ghost predicate Under(defs: Defs, rank: map<nat, nat>, ss: seq<Symbol>, b: nat) {
    forall s :: s in ss && s.SymConfig? ==>
      s.id < |defs| && s == Refer(defs, s.id) && s.id in rank && rank[s.id] < b
  }

  lemma DependenciesUnder(defs: Defs, rank: map<nat, nat>, i: nat)
    requires WellFormed(defs) && Ranks(defs, rank) && i < |defs|
    ensures Under(defs, rank, Dependencies(defs[i]), rank[i])
  {
    forall s | s in Dependencies(defs[i]) && s.SymConfig?
      ensures s.id < |defs| && s == Refer(defs, s.id) && s.id in rank && rank[s.id] < rank[i]
    {
      DependencyRank(defs, rank, i, s);
    }
  }

  lemma UnderProp(defs: Defs, rank: map<nat, nat>, d: SymbolDef, n: nat, b: nat)
    requires Under(defs, rank, Dependencies(d), b) && n < |d.props|
    ensures Under(defs, rank, PropSymbols(d.props[n]), b)
  {
    PropInDependencies(d, n);
  }

  lemma PromptsSnoc(ps: seq<Property>, n: nat, env: Env)
    requires n < |ps|
    ensures PromptVisibility(ps[..n + 1], env) ==
      var before := PromptVisibility(ps[..n], env);
      if HasText(ps[n]) then TriOr(before, EvalOpt(ps[n].visible, env)) else before
  {
    assert ps[..n + 1][..n] == ps[..n];
  }

  predicate IsDefault(p: Property, env: Env) { p.kind.Default? && EvalOpt(p.visible, env) != 0 }

  lemma DefaultsNext(ps: seq<Property>, env: Env)
    requires ps != []
    ensures DefaultProp(ps, env) == if IsDefault(ps[0], env) then Some(ps[0]) else DefaultProp(ps[1..], env)
  {
  }

  /** Requests for the values of symbols. */
  ghost predicate AskedFor(defs: Defs, order: seq<nat>) {
    forall k :: 0 <= k < |order| ==> order[k] < |defs|
  }

  ghost predicate AllValid(order: seq<nat>, n: nat, st: seq<SymbolState>) {
    forall k :: 0 <= k < n <= |order| ==> order[k] < |st| && st[order[k]].valid
  }

  lemma AllValidMore(rank: map<nat, nat>, b: nat, order: seq<nat>, n: nat, before: seq<SymbolState>,
                     after: seq<SymbolState>)
    requires AllValid(order, n, before) && Kept(rank, b, before, after, -1)
    requires n < |order| && order[n] < |after| && after[order[n]].valid
    ensures AllValid(order, n + 1, after)
  {
  }

  class Evaluator {
    const c: Config
    var st: seq<SymbolState>

    constructor (conf: Config)
      requires conf.Valid()
      ensures c == conf && |st| == |c.defs| && forall i :: 0 <= i < |st| ==> !st[i].valid
    {
      c := conf;
      st := seq(|conf.defs|, _ => SymbolState(false, 0, 0, 0, 0, 0, false, false));
    }

    ghost predicate Given(rank: map<nat, nat>, sol: Env) {
      c.Valid() && Ranks(c.defs, rank) && Solves(c, sol)
    }

    /** sym_calc_value for a symbol outside choices. */
    method CalcValue(i: nat, ghost rank: map<nat, nat>, ghost sol: Env, ghost b: nat)
      requires Given(rank, sol) && i < |c.defs| && rank[i] < b
      requires Sound(c, rank, sol, st, b)
      modifies this
      ensures Sound(c, rank, sol, st, b) && Kept(rank, b, old(st), st, -1)
      ensures st[i].valid && Correct(st[i], c.defs[i], c.user[i], c.modules, sol)
      decreases rank[i], 10
    {
      if st[i].valid { return; }
      st := st[i := st[i].(valid := true, write := false, warned := false)];
      CalcNew(i, rank, sol);
    }

    method CalcNew(i: nat, ghost rank: map<nat, nat>, ghost sol: Env)
      requires Given(rank, sol) && i < |c.defs|
      requires Sound(c, rank, sol, st, rank[i]) && st[i].valid && !st[i].write && !st[i].warned
      modifies this
      ensures Sound(c, rank, sol, st, rank[i]) && Kept(rank, rank[i], old(st), st, i)
      ensures st[i].valid && Correct(st[i], c.defs[i], c.user[i], c.modules, sol)
      decreases rank[i], 9
    {
      if c.defs[i].ty.Unknown? {
        Update(i, st[i].(curr := 0), rank, sol);
        return;
      }
      DependenciesUnder(c.defs, rank, i);
      CalcVisibility(i, rank, sol);
      // a value read recursively would be n
      Update(i, st[i].(write := st[i].visible != 0, curr := 0), rank, sol);
      if TriType(c.defs[i].ty) { CalcTri(i, rank, sol); } else { CalcText(i, rank, sol); }
    }

    /** The attributes of a symbol have been computed, and nothing else. */
    ghost predicate Prepared(i: nat, sol: Env)
      reads this
    {
      && i < |c.defs| == |st|
      && st[i] == SymbolState(true, 0, Visible(c.defs[i], c.modules, sol), DirDep(c.defs[i], c.modules, sol),
                              RevDep(c.defs[i], c.modules, sol), Implied(c.defs[i], c.modules, sol),
                              Visible(c.defs[i], c.modules, sol) != 0, false)
    }

    /** The rest for an int, hex or string symbol.  Its text is not followed, only whether there is one. */
    method CalcText(i: nat, ghost rank: map<nat, nat>, ghost sol: Env)
      requires Given(rank, sol) && Prepared(i, sol) && !TriType(c.defs[i].ty) && !c.defs[i].ty.Unknown?
      requires Sound(c, rank, sol, st, rank[i]) && Under(c.defs, rank, Dependencies(c.defs[i]), rank[i])
      modifies this
      ensures Sound(c, rank, sol, st, rank[i]) && Kept(rank, rank[i], old(st), st, i)
      ensures st[i].valid && Correct(st[i], c.defs[i], c.user[i], c.modules, sol)
      decreases rank[i], 7
    {
      if st[i].visible != 0 && c.user[i].Some? { return; }
      var p, cond := FindDefault(i, rank, sol);
      if p.Some? && p.value.expr.Some? && p.value.expr.value.ESym? {
        Update(i, st[i].(write := true), rank, sol);
        var t := CalcExprOpt(p.value.expr, rank, sol, rank[i]);
      }
    }

    /** The rest for a bool or tristate symbol. */
    method CalcTri(i: nat, ghost rank: map<nat, nat>, ghost sol: Env)
      requires Given(rank, sol) && Prepared(i, sol) && TriType(c.defs[i].ty)
      requires Sound(c, rank, sol, st, rank[i]) && Under(c.defs, rank, Dependencies(c.defs[i]), rank[i])
      modifies this
      ensures Sound(c, rank, sol, st, rank[i]) && Kept(rank, rank[i], old(st), st, i)
      ensures st[i].valid && Correct(st[i], c.defs[i], c.user[i], c.modules, sol)
      decreases rank[i], 8
    {
      var newval: Tri := 0;
      if st[i].visible != 0 && c.user[i].Some? {
        newval := TriAnd(c.user[i].value, st[i].visible);
      } else {
        newval := CalcUnset(i, rank, sol);
      }
      newval := TriOr(newval, st[i].rev);
      if newval == 1 && EffectiveType(c.defs[i].ty, c.modules).Boolean? { newval := 2; }
      Update(i, st[i].(warned := st[i].dir < st[i].rev, curr := newval), rank, sol);
    }

    /** The value of a symbol that the user did not or could not set. */
    method CalcUnset(i: nat, ghost rank: map<nat, nat>, ghost sol: Env) returns (newval: Tri)
      requires Given(rank, sol) && i < |c.defs| && Under(c.defs, rank, Dependencies(c.defs[i]), rank[i])
      requires Sound(c, rank, sol, st, rank[i])
      modifies this
      ensures Sound(c, rank, sol, st, rank[i]) && Kept(rank, rank[i], old(st), st, i)
      ensures var def := DefaultValue(c.defs[i].props, sol); var s := old(st)[i];
        && newval == (if s.imp != 0 then TriAnd(TriOr(def, s.imp), s.dir) else def)
        && st[i] == s.(write := s.write || s.rev != 0 || def != 0 || s.imp != 0)
      decreases rank[i], 7
    {
      newval := CalcDefault(i, rank, sol);
      var write := st[i].write || st[i].rev != 0 || newval != 0;
      if st[i].imp != 0 {
        write := true;
        newval := TriAnd(TriOr(newval, st[i].imp), st[i].dir);
      }
      Update(i, st[i].(write := write), rank, sol);
    }

    /** Writing the symbol under computation. */
    method Update(i: nat, x: SymbolState, ghost rank: map<nat, nat>, ghost sol: Env)
      requires Given(rank, sol) && i < |c.defs| && Sound(c, rank, sol, st, rank[i])
      modifies this
      ensures st == old(st)[i := x]
      ensures Sound(c, rank, sol, st, rank[i]) && Kept(rank, rank[i], old(st), st, i)
    {
      st := st[i := x];
    }

    /** sym_calc_visibility. */
    method CalcVisibility(i: nat, ghost rank: map<nat, nat>, ghost sol: Env)
      requires Given(rank, sol) && i < |c.defs| && Under(c.defs, rank, Dependencies(c.defs[i]), rank[i])
      requires Sound(c, rank, sol, st, rank[i])
      modifies this
      ensures Sound(c, rank, sol, st, rank[i]) && Kept(rank, rank[i], old(st), st, i)
      ensures st[i] == old(st)[i].(visible := Visible(c.defs[i], c.modules, sol),
                                   dir := DirDep(c.defs[i], c.modules, sol),
                                   rev := RevDep(c.defs[i], c.modules, sol), imp := Implied(c.defs[i], c.modules, sol))
      decreases rank[i], 7
    {
      var tri := CalcPrompts(i, rank, sol);
      if tri == 1 && (!c.defs[i].ty.Tristate? || c.modules == 0) { tri := 2; }
      Update(i, st[i].(visible := tri), rank, sol);
      CalcDeps(i, rank, sol);
    }

    method CalcDeps(i: nat, ghost rank: map<nat, nat>, ghost sol: Env)
      requires Given(rank, sol) && i < |c.defs| && Under(c.defs, rank, Dependencies(c.defs[i]), rank[i])
      requires Sound(c, rank, sol, st, rank[i])
      modifies this
      ensures Sound(c, rank, sol, st, rank[i]) && Kept(rank, rank[i], old(st), st, i)
      ensures st[i] == old(st)[i].(dir := DirDep(c.defs[i], c.modules, sol),
                                   rev := RevDep(c.defs[i], c.modules, sol), imp := Implied(c.defs[i], c.modules, sol))
      decreases rank[i], 6
    {
      var tri := CalcDep(c.defs[i].dirDep, 2, i, rank, sol);
      Update(i, st[i].(dir := tri), rank, sol);
      tri := CalcDep(c.defs[i].revDep, 0, i, rank, sol);
      Update(i, st[i].(rev := tri), rank, sol);
      tri := CalcDep(c.defs[i].implied, 0, i, rank, sol);
      Update(i, st[i].(imp := tri), rank, sol);
    }

    /** One dependency expression of symbol `i`, with the value taken when there is none. */
    method CalcDep(e: Option<Expr>, none: Tri, i: nat, ghost rank: map<nat, nat>, ghost sol: Env) returns (tri: Tri)
      requires Given(rank, sol) && i < |c.defs| && Under(c.defs, rank, SymbolsOpt(e), rank[i])
      requires Sound(c, rank, sol, st, rank[i])
      modifies this
      ensures Sound(c, rank, sol, st, rank[i]) && Kept(rank, rank[i], old(st), st, -1)
      ensures tri == Promote(if e.None? then none else Eval(e.value, sol), c.defs[i].ty, c.modules)
      decreases rank[i], 5
    {
      tri := none;
      if e.Some? { tri := CalcExpr(e.value, rank, sol, rank[i]); }
      if tri == 1 && EffectiveType(c.defs[i].ty, c.modules).Boolean? { tri := 2; }
    }

    method CalcPrompts(i: nat, ghost rank: map<nat, nat>, ghost sol: Env) returns (tri: Tri)
      requires Given(rank, sol) && i < |c.defs| && Under(c.defs, rank, Dependencies(c.defs[i]), rank[i])
      requires Sound(c, rank, sol, st, rank[i])
      modifies this
      ensures Sound(c, rank, sol, st, rank[i]) && Kept(rank, rank[i], old(st), st, -1)
      ensures tri == PromptVisibility(c.defs[i].props, sol)
      decreases rank[i], 6, 1
    {
      var ps := c.defs[i].props;
      tri := 0;
      var n := 0;
      while n < |ps|
        invariant 0 <= n <= |ps|
        invariant Sound(c, rank, sol, st, rank[i]) && Kept(rank, rank[i], old(st), st, -1)
        invariant tri == PromptVisibility(ps[..n], sol)
      {
        tri := CalcPrompt(i, n, tri, rank, sol);
        n := n + 1;
      }
      assert ps[..n] == ps;
    }

    method CalcPrompt(i: nat, n: nat, before: Tri, ghost rank: map<nat, nat>, ghost sol: Env) returns (tri: Tri)
      requires Given(rank, sol) && i < |c.defs| && Under(c.defs, rank, Dependencies(c.defs[i]), rank[i])
      requires Sound(c, rank, sol, st, rank[i])
      requires n < |c.defs[i].props| && before == PromptVisibility(c.defs[i].props[..n], sol)
      modifies this
      ensures Sound(c, rank, sol, st, rank[i]) && Kept(rank, rank[i], old(st), st, -1)
      ensures tri == PromptVisibility(c.defs[i].props[..n + 1], sol)
      decreases rank[i], 6, 0
    {
      PromptsSnoc(c.defs[i].props, n, sol);
      if !HasText(c.defs[i].props[n]) { return before; }
      UnderProp(c.defs, rank, c.defs[i], n, rank[i]);
      tri := CalcExprOpt(c.defs[i].props[n].visible, rank, sol, rank[i]);
      tri := TriOr(before, tri);
    }

    /** The value of the first default whose condition is not n. */
    method CalcDefault(i: nat, ghost rank: map<nat, nat>, ghost sol: Env) returns (t: Tri)
      requires Given(rank, sol) && i < |c.defs| && Under(c.defs, rank, Dependencies(c.defs[i]), rank[i])
      requires Sound(c, rank, sol, st, rank[i])
      modifies this
      ensures Sound(c, rank, sol, st, rank[i]) && Kept(rank, rank[i], old(st), st, -1)
      ensures t == DefaultValue(c.defs[i].props, sol)
      decreases rank[i], 6, 2
    {
      var p, cond := FindDefault(i, rank, sol);
      if p.None? { return 0; }
      t := CalcExprOpt(p.value.expr, rank, sol, rank[i]);
      t := TriAnd(t, cond);
    }

    /** sym_get_default_prop: the first default whose condition is not n, with the value of that. */
    method FindDefault(i: nat, ghost rank: map<nat, nat>, ghost sol: Env) returns (p: Option<Property>, cond: Tri)
      requires Given(rank, sol) && i < |c.defs| && Under(c.defs, rank, Dependencies(c.defs[i]), rank[i])
      requires Sound(c, rank, sol, st, rank[i])
      modifies this
      ensures Sound(c, rank, sol, st, rank[i]) && Kept(rank, rank[i], old(st), st, -1)
      ensures p == DefaultProp(c.defs[i].props, sol)
      ensures p.Some? ==>
        cond == EvalOpt(p.value.visible, sol) && Under(c.defs, rank, SymbolsOpt(p.value.expr), rank[i])
      decreases rank[i], 6, 1
    {
      var ps := c.defs[i].props;
      var n := 0;
      assert ps[0..] == ps;
      while n < |ps|
        invariant 0 <= n <= |ps|
        invariant Sound(c, rank, sol, st, rank[i]) && Kept(rank, rank[i], old(st), st, -1)
        invariant DefaultProp(ps, sol) == DefaultProp(ps[n..], sol)
      {
        DefaultsNext(ps[n..], sol);
        assert ps[n..][1..] == ps[n + 1..];
        var found: bool;
        found, cond := TryDefault(i, n, rank, sol);
        if found {
          UnderProp(c.defs, rank, c.defs[i], n, rank[i]);
          return Some(ps[n]), cond;
        }
        n := n + 1;
      }
      return None, 0;
    }

    method TryDefault(i: nat, n: nat, ghost rank: map<nat, nat>, ghost sol: Env) returns (found: bool, cond: Tri)
      requires Given(rank, sol) && i < |c.defs| && Under(c.defs, rank, Dependencies(c.defs[i]), rank[i])
      requires Sound(c, rank, sol, st, rank[i]) && n < |c.defs[i].props|
      modifies this
      ensures Sound(c, rank, sol, st, rank[i]) && Kept(rank, rank[i], old(st), st, -1)
      ensures found <==> IsDefault(c.defs[i].props[n], sol)
      ensures found ==> cond == EvalOpt(c.defs[i].props[n].visible, sol)
      decreases rank[i], 6, 0
    {
      var p := c.defs[i].props[n];
      if !p.kind.Default? { return false, 0; }
      UnderProp(c.defs, rank, c.defs[i], n, rank[i]);
      cond := CalcExprOpt(p.visible, rank, sol, rank[i]);
      found := cond != 0;
    }

    method CalcExprOpt(e: Option<Expr>, ghost rank: map<nat, nat>, ghost sol: Env, ghost b: nat) returns (t: Tri)
      requires Given(rank, sol) && Under(c.defs, rank, SymbolsOpt(e), b)
      requires Sound(c, rank, sol, st, b)
      modifies this
      ensures Sound(c, rank, sol, st, b) && Kept(rank, b, old(st), st, -1)
      ensures t == EvalOpt(e, sol)
      decreases b, 5
    {
      if e.None? { return 2; }
      t := CalcExpr(e.value, rank, sol, b);
    }

    /** expr_calc_value. */
    method CalcExpr(e: Expr, ghost rank: map<nat, nat>, ghost sol: Env, ghost b: nat) returns (t: Tri)
      requires Given(rank, sol) && Under(c.defs, rank, Symbols(e), b)
      requires Sound(c, rank, sol, st, b)
      modifies this
      ensures Sound(c, rank, sol, st, b) && Kept(rank, b, old(st), st, -1)
      ensures t == Eval(e, sol)
      decreases b, 4, e
    {
      match e {
        case ESym(s) =>
          assert s in Symbols(e);
          t := ReadSymbol(s, rank, sol, b);
        case ENot(x) =>
          t := CalcExpr(x, rank, sol, b);
          t := TriNot(t);
        case EAnd(l, r) =>
          t := CalcExpr(l, rank, sol, b);
          var u := CalcExpr(r, rank, sol, b);
          t := TriAnd(t, u);
        case EOr(l, r) =>
          t := CalcExpr(l, rank, sol, b);
          var u := CalcExpr(r, rank, sol, b);
          t := TriOr(t, u);
        case ECmp(op, l, r) =>
          assert l in Symbols(e) && r in Symbols(e);
          var u := ReadSymbol(l, rank, sol, b);
          var v := ReadSymbol(r, rank, sol, b);
          var env := c.base.(tri := (s: Symbol) => var w: Tri := if s == l then u else if s == r then v else 0; w);
          CompareTexts(l, r, u, v, env, sol);
          t := if Holds(op, Compare(l, r, env)) then 2 else 0;
      }
    }

    lemma CompareTexts(l: Symbol, r: Symbol, u: Tri, v: Tri, env: Env, sol: Env)
      requires env.text == sol.text && env.parse == sol.parse
      requires env.tri(l) == u && (l != r ==> env.tri(r) == v)
      requires u == Value(l, sol) && v == Value(r, sol)
      ensures Compare(l, r, env) == Compare(l, r, sol)
    {
      assert Text(l, env) == Text(l, sol) && Text(r, env) == Text(r, sol);
    }

    /** The value of one operand.  A configuration symbol is computed first and read afterwards, when it
        is certainly not under computation itself. */
    method ReadSymbol(s: Symbol, ghost rank: map<nat, nat>, ghost sol: Env, ghost b: nat) returns (t: Tri)
      requires Given(rank, sol) && Under(c.defs, rank, [s], b)
      requires Sound(c, rank, sol, st, b)
      modifies this
      ensures Sound(c, rank, sol, st, b) && Kept(rank, b, old(st), st, -1)
      ensures t == Value(s, sol)
      decreases b, 3
    {
      match s {
        case SymYes => t := 2;
        case SymMod => t := 1;
        case SymNo => t := 0;
        case SymConst(_) => t := 0;
        case SymConfig(i, ty) =>
          assert s in [s];
          CalcValue(i, rank, sol, b);
          t := st[i].curr;
      }
    }

    /** Asked for any symbols in any order, the evaluator ends with each of them valid and equal to the
        plain definition, of which there is exactly one solution. */
    method CalcMany(order: seq<nat>, ghost rank: map<nat, nat>, ghost sol: Env)
      requires Given(rank, sol) && AskedFor(c.defs, order)
      requires |st| == |c.defs| && forall i :: 0 <= i < |st| ==> !st[i].valid
      modifies this
      ensures |st| == |c.defs| && AllValid(order, |order|, st)
      ensures forall i :: 0 <= i < |st| && st[i].valid ==>
        Correct(st[i], c.defs[i], c.user[i], c.modules, sol) && st[i].curr == sol.tri(Refer(c.defs, i))
    {
      ghost var b := MaxRank(rank, |c.defs|) + 1;
      var n := 0;
      while n < |order|
        invariant 0 <= n <= |order|
        invariant Sound(c, rank, sol, st, b) && AllValid(order, n, st)
      {
        ghost var before := st;
        CalcValue(order[n], rank, sol, b);
        AllValidMore(rank, b, order, n, before, st);
        n := n + 1;
      }
      AllCorrect(rank, sol, b);
    }

    lemma AllCorrect(rank: map<nat, nat>, sol: Env, b: nat)
      requires Given(rank, sol) && Sound(c, rank, sol, st, b)
      requires forall i :: 0 <= i < |c.defs| ==> rank[i] < b
      ensures forall i :: 0 <= i < |st| && st[i].valid ==>
        Correct(st[i], c.defs[i], c.user[i], c.modules, sol) && st[i].curr == sol.tri(Refer(c.defs, i))
    {
    }
  }

  /** The cycle check and, if it finds nothing, the evaluation of the symbols asked for.  It accepts
      exactly the acyclic graphs, and then every value read is that of every solution of the plain
      definition; there is one. */
  method CheckAndEvaluate(c: Config, all: seq<nat>, order: seq<nat>) returns (errors: nat, values: seq<Tri>)
    requires c.Valid() && KconfigCheckDeps.Lists(c.defs, all) && AskedFor(c.defs, order)
    ensures errors == 0 <==> Acyclic(c.defs)
    ensures errors == 0 ==> |values| == |order| && exists sol :: Solves(c, sol)
    ensures errors == 0 ==> forall sol, k | Solves(c, sol) && 0 <= k < |order| ::
      values[k] == sol.tri(Refer(c.defs, order[k]))
  {
    var checker := new KconfigCheckDeps.Checker(c.defs);
    var reported;
    errors, reported := checker.CheckAll(all);
    values := [];
    if errors == 0 {
      ghost var rank := KconfigCheckDeps.RankOf(checker.done);
      ghost var one := SolutionExists(c, rank);
      var eval := new Evaluator(c);
      eval.CalcMany(order, rank, one);
      values := seq(|order|, k requires 0 <= k < |order| && order[k] < |eval.st| reads eval => eval.st[order[k]].curr);
      forall sol, k | Solves(c, sol) && 0 <= k < |order|
        ensures values[k] == sol.tri(Refer(c.defs, order[k]))
      {
        SolutionUnique(c, rank, one, sol, order[k]);
      }
    }
  }
}
