/** Which entries the tests for automatic submenus take: what they look for, said of the operands. */
module KconfigTaken {
  import opened KconfigExpr
  import opened KconfigEq
  import opened KconfigSlots
  import opened KconfigSubmenu

  /** The operands of the `&&` level of a condition. */
  function Conjuncts(e: Expr): set<Expr> {
    match e
    case EAnd(l, r) => Conjuncts(l) + Conjuncts(r)
    case _ => {e}
  }

  /** The symbol, alone or tested for not being n. */
  predicate IsTestOf(x: Expr, s: Symbol) {
    x in {ESym(s), ECmp(Equal, s, SymYes), ECmp(Equal, s, SymMod), ECmp(Unequal, s, SymNo)}
  }

  /** expr_depends_symbol looks for one of these on the `&&` level, and nowhere else. */
  lemma {:induction false} DependsExactly(e: Expr, s: Symbol)
    ensures DependsSymbol(e, s) <==> exists x :: x in Conjuncts(e) && IsTestOf(x, s)
  {
    match e
    case EAnd(l, r) =>
      DependsExactly(l, s);
      DependsExactly(r, s);
      EitherSide(l, r, s);
    case ESym(_) => Single(e, s);
    case ENot(_) => Single(e, s);
    case EOr(_, _) => Single(e, s);
    case ECmp(_, _, _) => Single(e, s);
  }

  lemma Single(e: Expr, s: Symbol)
    requires !e.EAnd?
    ensures DependsSymbol(e, s) <==> IsTestOf(e, s)
    ensures (exists x :: x in Conjuncts(e) && IsTestOf(x, s)) <==> IsTestOf(e, s)
  {
    assert Conjuncts(e) == {e};
    assert e in Conjuncts(e);
  }

  lemma EitherSide(l: Expr, r: Expr, s: Symbol)
    ensures (exists x :: x in Conjuncts(EAnd(l, r)) && IsTestOf(x, s)) <==>
      || (exists x :: x in Conjuncts(l) && IsTestOf(x, s))
      || (exists x :: x in Conjuncts(r) && IsTestOf(x, s))
  {
    if x :| x in Conjuncts(l) && IsTestOf(x, s) { assert x in Conjuncts(EAnd(l, r)); }
    if x :| x in Conjuncts(r) && IsTestOf(x, s) { assert x in Conjuncts(EAnd(l, r)); }
  }

  /** The symbols of a condition. */
  function SymbolsOf(e: Expr): set<Symbol> {
    match e
    case ESym(s) => {s}
    case ENot(x) => SymbolsOf(x)
    case EAnd(l, r) => SymbolsOf(l) + SymbolsOf(r)
    case EOr(l, r) => SymbolsOf(l) + SymbolsOf(r)
    case ECmp(_, l, r) => {l, r}
  }

  lemma {:induction false} ContainsExactly(e: Expr, s: Symbol)
    ensures Contains(e, s) <==> s in SymbolsOf(e)
  {
    match e
    case ESym(_) =>
    case ENot(x) => ContainsExactly(x, s);
    case EAnd(l, r) => ContainsExactly(l, s); ContainsExactly(r, s);
    case EOr(l, r) => ContainsExactly(l, s); ContainsExactly(r, s);
    case ECmp(_, _, _) =>
  }

  lemma {:induction false} ConjunctSymbols(e: Expr, x: Expr, s: Symbol)
    requires x in Conjuncts(e) && s in SymbolsOf(x)
    ensures s in SymbolsOf(e)
  {
    match e
    case EAnd(l, r) => if x in Conjuncts(l) { ConjunctSymbols(l, x, s); } else { ConjunctSymbols(r, x, s); }
    case ESym(_) =>
    case ENot(_) =>
    case EOr(_, _) =>
    case ECmp(_, _, _) =>
  }

  /** An entry that plainly depends on the symbol is taken, whatever the prompt of the symbol. */
  lemma PlainlyTaken(dep: Expr, x: Expr, s: Symbol, base: Option<Expr>)
    requires x in Conjuncts(dep) && IsTestOf(x, s)
    ensures Takes(Some(dep), s, base)
  {
    DependsExactly(dep, s);
    ConjunctSymbols(dep, x, s);
    ContainsExactly(dep, s);
  }

  /** An entry without a condition, or whose condition does not mention the symbol, is not. */
  lemma NeverTaken(dep: Option<Expr>, s: Symbol, base: Option<Expr>)
    requires dep.None? || s !in SymbolsOf(dep.value)
    ensures !Takes(dep, s, base)
  {
    if dep.Some? { ContainsExactly(dep.value, s); }
  }

  // ----- the superset test -----

  /** Some operand of the level equals `b`. */
  ghost predicate HasOperand(op: Op, a: Expr, b: Expr) {
    exists p :: Operand(op, a, p) && ExprEq(At(op, a, p), b)
  }

  lemma HasOperandSplit(op: Op, a: Expr, b: Expr)
    requires IsOp(a, op)
    ensures HasOperand(op, a, b) <==> HasOperand(op, Left(a), b) || HasOperand(op, Right(a), b)
  {
    if p :| Operand(op, a, p) && ExprEq(At(op, a, p), b) {
      assert p != [];
      assert Operand(op, Child(a, p[0]), p[1..]) && At(op, Child(a, p[0]), p[1..]) == At(op, a, p);
    }
    if p :| Operand(op, Left(a), p) && ExprEq(At(op, Left(a), p), b) {
      var q := [false] + p;
      assert q[1..] == p && Operand(op, a, q) && At(op, a, q) == At(op, Left(a), p);
    }
    if p :| Operand(op, Right(a), p) && ExprEq(At(op, Right(a), p), b) {
      var q := [true] + p;
      assert q[1..] == p && Operand(op, a, q) && At(op, a, q) == At(op, Right(a), p);
    }
  }

  /** A constant is cancelled against nothing. */
  lemma {:induction false} ConstantStays(op: Op, a: Expr)
    ensures ElimEq1(op, a, Neutral(op)).1 == Neutral(op)
  {
    if IsOp(a, op) {
      ConstantStays(op, Left(a));
      ConstantStays(op, Right(a));
    }
  }

  /** One operand is cancelled exactly if it is among the others. */
  lemma {:induction false} OneCancelled(op: Op, a: Expr, b: Expr)
    requires !IsOp(b, op) && !IsYN(b)
    ensures ElimEq1(op, a, b).1 == if HasOperand(op, a, b) then Neutral(op) else b
  {
    if IsOp(a, op) {
      HasOperandSplit(op, a, b);
      OneCancelled(op, Left(a), b);
      if HasOperand(op, Left(a), b) { ConstantStays(op, Right(a)); } else { OneCancelled(op, Right(a), b); }
    } else {
      assert Operand(op, a, []) && At(op, a, []) == a;
      if p :| Operand(op, a, p) && ExprEq(At(op, a, p), b) { assert p == []; }
    }
  }

  /** Against a prompt with a single condition, the test looks for that among the operands of the `&&`. */
  lemma SupersetOfOne(a: Expr, b: Expr)
    requires IsOp(a, Op.And) && !IsAnyOp(b) && !IsYN(b)
    ensures ElimEq(a, b).1 == ESym(SymYes) <==> HasOperand(Op.And, a, b)
  {
    OneCancelled(Op.And, a, b);
    assert IsOp(ElimEq1(Op.And, a, b).0, Op.And);
  }

  /** Against several, where all operands are symbols, negated symbols and comparisons: each of the prompt's must
      stand among the entry's, as often as there. */
  lemma SupersetOfMany(a: Expr, b: Expr)
    requires IsOp(a, Op.And) && AtomTree(Op.And, a) && AtomTree(Op.And, b)
    ensures ElimEq(a, b).1 == ESym(SymYes) <==> Leaves(Op.And, b) <= Leaves(Op.And, a)
  {
    var p := ElimEq1(Op.And, a, b);
    ElimEq1Difference(Op.And, a, b);
    ElimYNLeaves(Op.And, p.1);
    assert ElimEq(a, b).1 == ElimYN(p.1);
    NoneLeft(Leaves(Op.And, b), Leaves(Op.And, a));
  }

  lemma NoneLeft(x: multiset<Expr>, y: multiset<Expr>)
    ensures x - y == multiset{} <==> x <= y
  {
    if x - y == multiset{} {
      forall z ensures x[z] <= y[z] { assert (x - y)[z] == 0; }
    }
  }
}
