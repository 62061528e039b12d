/** expr_transform: negations pushed to the symbols and comparisons of bool symbols removed. */
module KconfigTransform {
  import opened KconfigExpr

  /** The termination measure: re-transforming after a De Morgan step makes the tree larger, but not
      heavier. */
  function Weight(e: Expr): nat {
    match e
    case ESym(_) => 1
    case ENot(x) => 2 * Weight(x)
    case EAnd(l, r) => 1 + Weight(l) + Weight(r)
    case EOr(l, r) => 1 + Weight(l) + Weight(r)
    case ECmp(_, _, _) => 2
  }

  lemma WeightPositive(e: Expr)
    ensures Weight(e) >= 1
  {
  }

  /** A De Morgan step makes the negation lighter. */
  lemma WeightDeMorgan(x: Expr, a: Expr, b: Expr)
    requires x == EOr(a, b) || x == EAnd(a, b)
    ensures Weight(EAnd(ENot(a), ENot(b))) < 2 * Weight(x)
    ensures Weight(EOr(ENot(a), ENot(b))) < 2 * Weight(x)
  {
    assert Weight(ENot(a)) == 2 * Weight(a) && Weight(ENot(b)) == 2 * Weight(b);
  }

  /** Comparing a bool symbol for (in)equality with y, m or n. */
  function TransformCmp(op: CmpOp, l: Symbol, r: Symbol): Expr {
    if TypeOf(l) != Boolean then ECmp(op, l, r)
    else if op.Equal? then
      if r.SymNo? then ENot(ESym(l)) else if r.SymMod? then ESym(SymNo)
      else if r.SymYes? then ESym(l) else ECmp(op, l, r)
    else if op.Unequal? then
      if r.SymNo? then ESym(l) else if r.SymMod? then ESym(SymYes)
      else if r.SymYes? then ENot(ESym(l)) else ECmp(op, l, r)
    else ECmp(op, l, r)
  }

  function Opposite(op: CmpOp): CmpOp {
    match op
    case Equal => Unequal
    case Unequal => Equal
    case Leq => Gth
    case Gth => Leq
    case Geq => Lth
    case Lth => Geq
  }

  function Transform(e: Expr): (r: Expr)
    ensures Weight(r) <= Weight(e)
    decreases Weight(e)
  {
    match e
    case ESym(_) => e
    case ECmp(op, l, r) => TransformCmp(op, l, r)
    case EAnd(l, r) => EAnd(Transform(l), Transform(r))
    case EOr(l, r) => EOr(Transform(l), Transform(r))
    case ENot(x) =>
      WeightPositive(x);
      var x' := Transform(x);
      match x' {
        case ENot(y) => WeightPositive(y); Transform(y)
        case ECmp(op, l, r) => ECmp(Opposite(op), l, r)
        case EOr(a, b) => WeightDeMorgan(x', a, b); Transform(EAnd(ENot(a), ENot(b)))
        case EAnd(a, b) => WeightDeMorgan(x', a, b); Transform(EOr(ENot(a), ENot(b)))
        case ESym(s) =>
          if s.SymYes? then ESym(SymNo) else if s.SymMod? then ESym(SymMod)
          else if s.SymNo? then ESym(SymYes) else ENot(x')
      }
  }

  lemma TransformCmpKeepsValue(op: CmpOp, l: Symbol, r: Symbol, env: Env)
    requires EnvOk(env)
    ensures Eval(TransformCmp(op, l, r), env) == Eval(ECmp(op, l, r), env)
  {
    if TypeOf(l) == Boolean && (r.SymYes? || r.SymMod? || r.SymNo?) { CompareTri(l, r, env); }
  }

  /** The rewritten expression has the same value, whatever the symbols are. */
  lemma {:induction false} TransformKeepsValue(e: Expr, env: Env)
    requires EnvOk(env)
    ensures Eval(Transform(e), env) == Eval(e, env)
    decreases Weight(e)
  {
    match e
    case ESym(_) =>
    case ECmp(op, l, r) => TransformCmpKeepsValue(op, l, r, env);
    case EAnd(l, r) => TransformKeepsValue(l, env); TransformKeepsValue(r, env);
    case EOr(l, r) => TransformKeepsValue(l, env); TransformKeepsValue(r, env);
    case ENot(x) =>
      WeightPositive(x);
      TransformKeepsValue(x, env);
      match Transform(x) {
        case ENot(y) => WeightPositive(y); TransformKeepsValue(y, env);
        case ECmp(_, _, _) =>
        case EOr(a, b) => WeightDeMorgan(Transform(x), a, b); TransformKeepsValue(EAnd(ENot(a), ENot(b)), env);
        case EAnd(a, b) => WeightDeMorgan(Transform(x), a, b); TransformKeepsValue(EOr(ENot(a), ENot(b)), env);
        case ESym(_) =>
      }
  }

  /** The form reached: negation only on symbols other than y, m and n, and no bool symbol tested for
      equality with y, m or n. */
  predicate Normal(e: Expr) {
    match e
    case ESym(_) => true
    case ENot(x) => x.ESym? && !x.s.SymYes? && !x.s.SymMod? && !x.s.SymNo?
    case EAnd(l, r) => Normal(l) && Normal(r)
    case EOr(l, r) => Normal(l) && Normal(r)
    case ECmp(op, l, r) =>
      (op.Equal? || op.Unequal?) && TypeOf(l) == Boolean ==> !r.SymYes? && !r.SymMod? && !r.SymNo?
  }

  lemma {:induction false} TransformNormal(e: Expr)
    ensures Normal(Transform(e))
    decreases Weight(e)
  {
    match e
    case ESym(_) =>
    case ECmp(op, l, r) =>
    case EAnd(l, r) => TransformNormal(l); TransformNormal(r);
    case EOr(l, r) => TransformNormal(l); TransformNormal(r);
    case ENot(x) =>
      WeightPositive(x);
      TransformNormal(x);
      match Transform(x) {
        case ENot(y) => WeightPositive(y); TransformNormal(y);
        case ECmp(_, _, _) =>
        case EOr(a, b) => WeightDeMorgan(Transform(x), a, b); TransformNormal(EAnd(ENot(a), ENot(b)));
        case EAnd(a, b) => WeightDeMorgan(Transform(x), a, b); TransformNormal(EOr(ENot(a), ENot(b)));
        case ESym(_) =>
      }
  }

  /** Exactly the normal expressions are left alone. */
  lemma {:induction false} TransformFixes(e: Expr)
    ensures Transform(e) == e <==> Normal(e)
  {
    match e
    case ESym(_) =>
    case ECmp(_, _, _) =>
    case EAnd(l, r) => TransformFixes(l); TransformFixes(r);
    case EOr(l, r) => TransformFixes(l); TransformFixes(r);
    case ENot(x) =>
      TransformFixes(x);
      TransformNormal(e);
  }

  lemma TransformIdempotent(e: Expr)
    ensures Transform(Transform(e)) == Transform(e)
  {
    TransformNormal(e);
    TransformFixes(Transform(e));
  }

  // ----- expr_trans_bool -----

  /** For conditions of a bool symbol: FOO!=n becomes FOO. */
  function TransBool(e: Expr): Expr {
    match e
    case EAnd(l, r) => EAnd(TransBool(l), TransBool(r))
    case EOr(l, r) => EOr(TransBool(l), TransBool(r))
    case ENot(x) => ENot(TransBool(x))
    case ECmp(op, l, r) => if op.Unequal? && TypeOf(l) == Tristate && r.SymNo? then ESym(l) else e
    case ESym(_) => e
  }

  /** No tristate is tested for not being n. */
  predicate NoTests(e: Expr) {
    match e
    case ESym(_) => true
    case ENot(x) => NoTests(x)
    case EAnd(l, r) => NoTests(l) && NoTests(r)
    case EOr(l, r) => NoTests(l) && NoTests(r)
    case ECmp(op, l, r) => !(op == Unequal && l.SymConfig? && l.ty == Tristate && r == SymNo)
  }

  /** expr_trans_bool takes all such tests away, and changes nothing where there is none. */
  lemma {:induction false} TransBoolExactly(e: Expr)
    ensures NoTests(TransBool(e))
    ensures TransBool(e) == e <==> NoTests(e)
  {
    match e
    case ESym(_) =>
    case ENot(x) => TransBoolExactly(x);
    case EAnd(l, r) => TransBoolExactly(l); TransBoolExactly(r);
    case EOr(l, r) => TransBoolExactly(l); TransBoolExactly(r);
    case ECmp(_, _, _) =>
  }

  predicate NotOnSymbols(e: Expr) {
    match e
    case ESym(_) => true
    case ENot(x) => x.ESym?
    case EAnd(l, r) => NotOnSymbols(l) && NotOnSymbols(r)
    case EOr(l, r) => NotOnSymbols(l) && NotOnSymbols(r)
    case ECmp(_, _, _) => true
  }

  /** No comparison that is rewritten stands below a negation. */
  predicate Undisturbed(e: Expr) {
    match e
    case ESym(_) => true
    case ENot(x) => TransBool(x) == x
    case EAnd(l, r) => Undisturbed(l) && Undisturbed(r)
    case EOr(l, r) => Undisturbed(l) && Undisturbed(r)
    case ECmp(_, _, _) => true
  }

  lemma {:induction false} NotOnSymbolsUndisturbed(e: Expr)
    requires NotOnSymbols(e)
    ensures Undisturbed(e)
  {
    match e
    case ESym(_) =>
    case ENot(_) =>
    case EAnd(l, r) => NotOnSymbolsUndisturbed(l); NotOnSymbolsUndisturbed(r);
    case EOr(l, r) => NotOnSymbolsUndisturbed(l); NotOnSymbolsUndisturbed(r);
    case ECmp(_, _, _) =>
  }

  /** It keeps "is not n", provided no rewritten comparison stands below a negation. */
  lemma {:induction false} TransBoolKeepsNonNo(e: Expr, env: Env)
    requires Undisturbed(e)
    ensures Eval(TransBool(e), env) != 0 <==> Eval(e, env) != 0
  {
    match e
    case ESym(_) =>
    case ENot(_) =>
    case EAnd(l, r) => TransBoolKeepsNonNo(l, env); TransBoolKeepsNonNo(r, env);
    case EOr(l, r) => TransBoolKeepsNonNo(l, env); TransBoolKeepsNonNo(r, env);
    case ECmp(_, l, r) => if IsTri(l) && r.SymNo? { CompareTri(l, r, env); }
  }

  lemma {:induction false} NormalNotOnSymbols(e: Expr)
    requires Normal(e)
    ensures NotOnSymbols(e)
  {
    match e
    case ESym(_) =>
    case ENot(_) =>
    case EAnd(l, r) => NormalNotOnSymbols(l); NormalNotOnSymbols(r);
    case EOr(l, r) => NormalNotOnSymbols(l); NormalNotOnSymbols(r);
    case ECmp(_, _, _) =>
  }

  /** Below a negation it does so exactly if the operand is y before and after, or neither. */
  lemma TransBoolNegated(x: Expr, env: Env)
    ensures (Eval(TransBool(ENot(x)), env) != 0 <==> Eval(ENot(x), env) != 0)
      <==> (Eval(TransBool(x), env) == 2 <==> Eval(x, env) == 2)
  {
    assert TransBool(ENot(x)) == ENot(TransBool(x));
  }

  /** For a single comparison that is so exactly if the symbol is not m: !(A!=n) is n when A is m, but !A is m. */
  lemma TransBoolNegatedComparison(a: Symbol, env: Env)
    requires a.SymConfig? && a.ty == Tristate
    ensures var e := ENot(ECmp(Unequal, a, SymNo));
      (Eval(TransBool(e), env) != 0 <==> Eval(e, env) != 0) <==> env.tri(a) != 1
  {
    CompareTri(a, SymNo, env);
    TransBoolNegated(ECmp(Unequal, a, SymNo), env);
  }
}
