/** The tests by which menu_finalize turns the entries after a symbol into its submenu. */
module KconfigSubmenu {
  import opened KconfigExpr
  import opened KconfigTransform
  import opened KconfigEq
  import opened KconfigJoin
  import opened KconfigDups

  function ContainsSymbol(e: Option<Expr>, s: Symbol): bool {
    if e.None? then false else Contains(e.value, s)
  }

  function Contains(e: Expr, s: Symbol): bool {
    match e
    case ESym(x) => x == s
    case ENot(x) => Contains(x, s)
    case EAnd(l, r) => Contains(l, s) || Contains(r, s)
    case EOr(l, r) => Contains(l, s) || Contains(r, s)
    case ECmp(_, l, r) => l == s || r == s
  }

  /** expr_depends_symbol. */
  function DependsSymbol(e: Expr, s: Symbol): bool {
    match e
    case ESym(x) => x == s
    case EAnd(l, r) => DependsSymbol(l, s) || DependsSymbol(r, s)
    case ECmp(op, l, r) => l == s && ((op.Equal? && (r.SymYes? || r.SymMod?)) || (op.Unequal? && r.SymNo?))
    case ENot(_) => false
    case EOr(_, _) => false
  }

  /** An entry taken by expr_depends_symbol is off whenever the symbol is off. */
  lemma {:induction false} DependsSound(e: Expr, s: Symbol, env: Env)
    requires IsTri(s) && DependsSymbol(e, s)
    ensures Eval(e, env) != 0 ==> env.tri(s) != 0
    ensures Contains(e, s)
  {
    match e
    case ESym(_) =>
    case EAnd(l, r) => if DependsSymbol(l, s) { DependsSound(l, s, env); } else { DependsSound(r, s, env); }
    case ECmp(_, l, r) => CompareTri(s, r, env);
  }

  /** expr_trans_compare with the symbol n: "e != n" or "e == n" pushed to the operands. */
  function TransCompareNo(e: Expr, op: CmpOp): Expr
    requires op.Equal? || op.Unequal?
  {
    match e
    case EAnd(l, r) =>
      var x := EOr(TransCompareNo(l, Equal), TransCompareNo(r, Equal));
      if op.Unequal? then ENot(x) else x
    case EOr(l, r) =>
      var x := EAnd(TransCompareNo(l, Equal), TransCompareNo(r, Equal));
      if op.Unequal? then ENot(x) else x
    case ENot(x) => TransCompareNo(x, if op.Equal? then Unequal else Equal)
    case ECmp(_, _, _) => if op.Equal? then ENot(e) else e
    case ESym(s) => ECmp(op, s, SymNo)
  }

  function TransCompareNoOpt(e: Option<Expr>, op: CmpOp): Expr
    requires op.Equal? || op.Unequal?
  {
    if e.None? then (if op.Unequal? then ENot(ESym(SymNo)) else ESym(SymNo)) else TransCompareNo(e.value, op)
  }

  /** Every symbol used as an operand has a tristate value. */
  predicate TriOperands(e: Expr) {
    match e
    case ESym(s) => IsTri(s) || s.SymYes? || s.SymMod? || s.SymNo?
    case ENot(x) => TriOperands(x)
    case EAnd(l, r) => TriOperands(l) && TriOperands(r)
    case EOr(l, r) => TriOperands(l) && TriOperands(r)
    case ECmp(_, _, _) => true
  }

  /** No negated operand is m. */
  predicate NoNegatedMod(e: Expr, env: Env) {
    match e
    case ESym(_) => true
    case ENot(x) => Eval(x, env) != 1 && NoNegatedMod(x, env)
    case EAnd(l, r) => NoNegatedMod(l, env) && NoNegatedMod(r, env)
    case EOr(l, r) => NoNegatedMod(l, env) && NoNegatedMod(r, env)
    case ECmp(_, _, _) => true
  }

  /** The comparison with n computes "is not n" (or "is n") exactly. */
  lemma {:induction false} TransCompareExact(e: Expr, op: CmpOp, env: Env)
    requires op.Equal? || op.Unequal?
    requires TriOperands(e) && NoNegatedMod(e, env)
    ensures Eval(TransCompareNo(e, op), env) == if (Eval(e, env) != 0) == op.Unequal? then 2 else 0
  {
    match e
    case EAnd(l, r) => TransCompareExact(l, Equal, env); TransCompareExact(r, Equal, env);
    case EOr(l, r) => TransCompareExact(l, Equal, env); TransCompareExact(r, Equal, env);
    case ENot(x) => TransCompareExact(x, if op.Equal? then Unequal else Equal, env);
    case ECmp(_, _, _) =>
    case ESym(s) =>
      if IsTri(s) { CompareTri(s, SymNo, env); }
      else { StrcmpZero(Text(s, env), Text(SymNo, env)); assert "n"[0] == 'n' && "m"[0] == 'm' && "y"[0] == 'y'; }
  }

  /** For a negation the condition is needed exactly: !x is off only when x is y, but "x != n" tells m and y
      alike. */
  lemma NegationExact(x: Expr, env: Env)
    requires TriOperands(x) && NoNegatedMod(x, env)
    ensures Eval(TransCompareNo(ENot(x), Unequal), env) == (if Eval(ENot(x), env) != 0 then 2 else 0)
       <==> Eval(x, env) != 1
  {
    TransCompareExact(x, Equal, env);
  }

  /** An undefined symbol is off, but the comparison looks at its name: it is right exactly for a symbol
      named n. */
  lemma UndefinedExact(a: Symbol, env: Env)
    requires a.SymConfig? && a.ty == Unknown
    ensures Eval(TransCompareNo(ESym(a), Unequal), env) == (if Eval(ESym(a), env) != 0 then 2 else 0)
       <==> env.text(a) == "n"
  {
    StrcmpZero(env.text(a), "n");
  }

  /** A condition in the form in which the superset test compares it. */
  function NonNo(e: Option<Expr>): Expr { ElimDups(Transform(TransCompareNoOpt(e, Unequal))) }

  /** The superset test of menu_finalize: `dep` is the condition of the entry, `base` that of the prompt
      of the symbol before it. */
  predicate SupersetTest(dep: Expr, base: Option<Expr>) { ElimEq(NonNo(Some(dep)), NonNo(base)).1 == ESym(SymYes) }

  lemma {:induction false} TransformPlain(e: Expr, env: Env)
    requires PlainConsts(e, env)
    ensures PlainConsts(Transform(e), env)
    decreases Weight(e)
  {
    match e
    case ESym(_) =>
    case ECmp(_, _, _) =>
    case EAnd(l, r) => TransformPlain(l, env); TransformPlain(r, env);
    case EOr(l, r) => TransformPlain(l, env); TransformPlain(r, env);
    case ENot(x) =>
      WeightPositive(x);
      TransformPlain(x, env);
      match Transform(x) {
        case ENot(y) => WeightPositive(y); TransformPlain(y, env);
        case ECmp(_, _, _) =>
        case EOr(a, b) => WeightDeMorgan(Transform(x), a, b); TransformPlain(EAnd(ENot(a), ENot(b)), env);
        case EAnd(a, b) => WeightDeMorgan(Transform(x), a, b); TransformPlain(EOr(ENot(a), ENot(b)), env);
        case ESym(_) =>
      }
  }

  lemma {:induction false} TransComparePlain(e: Expr, op: CmpOp, env: Env)
    requires op.Equal? || op.Unequal?
    requires PlainConsts(e, env)
    ensures PlainConsts(TransCompareNo(e, op), env)
  {
    match e
    case ESym(_) =>
    case ECmp(_, _, _) =>
    case ENot(x) => TransComparePlain(x, if op.Equal? then Unequal else Equal, env);
    case EAnd(l, r) => TransComparePlain(l, Equal, env); TransComparePlain(r, Equal, env);
    case EOr(l, r) => TransComparePlain(l, Equal, env); TransComparePlain(r, Equal, env);
  }

  /** What the test needs of a condition. */
  predicate Comparable(e: Expr, env: Env) { TriOperands(e) && NoNegatedMod(e, env) && PlainConsts(e, env) }

  lemma NonNoExact(e: Option<Expr>, env: Env)
    requires EnvOk(env) && (e.Some? ==> Comparable(e.value, env))
    ensures Eval(NonNo(e), env) == if EvalOpt(e, env) != 0 then 2 else 0
  {
    var c := TransCompareNoOpt(e, Unequal);
    if e.Some? {
      TransCompareExact(e.value, Unequal, env);
      TransComparePlain(e.value, Unequal, env);
    }
    TransformKeepsValue(c, env);
    TransformPlain(c, env);
    ElimDupsPlain(Transform(c), env);
  }

  /** An entry taken by the superset test is off whenever the prompt of the symbol is. */
  lemma SupersetSound(dep: Expr, base: Option<Expr>, env: Env)
    requires EnvOk(env) && Comparable(dep, env) && (base.Some? ==> Comparable(base.value, env))
    requires SupersetTest(dep, base)
    ensures Eval(dep, env) != 0 ==> EvalOpt(base, env) != 0
  {
    NonNoExact(Some(dep), env);
    NonNoExact(base, env);
    ElimEqSuperset(NonNo(Some(dep)), NonNo(base), env);
  }

  /** One turn of the loop over the entries after a symbol: take the entry, or stop. */
  function Takes(dep: Option<Expr>, s: Symbol, base: Option<Expr>): bool {
    ContainsSymbol(dep, s) && (DependsSymbol(dep.value, s) || SupersetTest(dep.value, base))
  }

  /** Whatever is moved into the submenu was visible only with the symbol: with the symbol itself on, or
      with its prompt visible. */
  lemma TakesSound(dep: Option<Expr>, s: Symbol, base: Option<Expr>, env: Env)
    requires EnvOk(env) && IsTri(s) && (dep.Some? ==> Comparable(dep.value, env))
    requires base.Some? ==> Comparable(base.value, env)
    requires Takes(dep, s, base)
    ensures EvalOpt(dep, env) != 0 ==> env.tri(s) != 0 || EvalOpt(base, env) != 0
  {
    if DependsSymbol(dep.value, s) { DependsSound(dep.value, s, env); } else { SupersetSound(dep.value, base, env); }
  }
}
