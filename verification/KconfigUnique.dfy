/** What expr_eliminate_dups eliminates: equal operands, and pairs of tests of one symbol. */
module KconfigUnique {
  import opened KconfigExpr
  import opened KconfigEq
  import opened KconfigJoin
  import opened KconfigSlots
  import opened KconfigDups

  predicate TriConst(c: Symbol) { c.SymYes? || c.SymMod? || c.SymNo? }

  predicate These(a: Expr, b: Expr, x: Expr, y: Expr) { (a == x && b == y) || (a == y && b == x) }

  /** Two operands of an `||` about symbol `s` that make one: a tristate equal to one or to another of y, m and n;
      a bool or its negation. */
  predicate OrPair(s: Symbol, a: Expr, b: Expr)
    requires s.SymConfig?
  {
    || (s.ty.Tristate? && a.ECmp? && b.ECmp? && a.rs != b.rs && TriConst(a.rs) && TriConst(b.rs)
        && a == ECmp(Equal, s, a.rs) && b == ECmp(Equal, s, b.rs))
    || (s.ty.Boolean? && These(a, b, ESym(s), ENot(ESym(s))))
  }

  /** Two operands of an `&&` that make one: a symbol that is on, and y, or not n, or not m; a tristate equal to a
      constant and not equal to one; or unequal to two of y, m and n. */
  predicate AndPair(s: Symbol, a: Expr, b: Expr)
    requires s.SymConfig?
  {
    || These(a, b, ESym(s), ECmp(Equal, s, SymYes))
    || These(a, b, ESym(s), ECmp(Unequal, s, SymNo))
    || These(a, b, ESym(s), ECmp(Unequal, s, SymMod))
    || (s.ty.Tristate? && a.ECmp? && b.ECmp? && IsConst(a.rs) && IsConst(b.rs) && (
          || These(a, b, ECmp(Equal, s, a.rs), ECmp(Unequal, s, b.rs))
          || These(a, b, ECmp(Unequal, s, a.rs), ECmp(Equal, s, b.rs))
          || (a == ECmp(Unequal, s, a.rs) && b == ECmp(Unequal, s, b.rs) && a.rs != b.rs
              && TriConst(a.rs) && TriConst(b.rs))))
  }

  predicate SamePair(op: Op, s: Symbol, a: Expr, b: Expr) {
    s.SymConfig? && (s.ty.Boolean? || s.ty.Tristate?) && if op.And? then AndPair(s, a, b) else OrPair(s, a, b)
  }

  /** The pairs that are joined are exactly the equal ones and those. */
  lemma JoinExactly(op: Op, a: Expr, b: Expr)
    ensures Join(op, a, b).Some? <==> ExprEq(a, b) || exists s :: SamePair(op, s, a, b)
  {
    if Join(op, a, b).Some? && !ExprEq(a, b) {
      var s := CommonSymbol(a, b).value;
      assert SamePair(op, s, a, b);
    }
    if s :| SamePair(op, s, a, b) {
      if !ExprEq(a, b) { assert CommonSymbol(a, b) == Some(s); }
    }
  }

  /** Symbols, comparisons, their negations, and single levels of them. */
  predicate Plain(e: Expr) {
    match e
    case ESym(_) => true
    case ECmp(_, _, _) => true
    case ENot(x) => Plain(x)
    case EAnd(_, _) => AtomTree(Op.And, e)
    case EOr(_, _) => AtomTree(Op.Or, e)
  }

  /** Those are equal to themselves. */
  lemma {:induction false} EqualsItself(e: Expr)
    requires Plain(e)
    ensures ExprEq(e, e)
  {
    match e
    case ESym(_) =>
    case ECmp(_, _, _) =>
    case ENot(x) => EqualsItself(x);
    case EAnd(_, _) => ExprEqComplete(Op.And, e, e);
    case EOr(_, _) => ExprEqComplete(Op.Or, e, e);
  }

  /** No two operands of one level are equal, or make one, and no plain one stands there twice; and so on all
      levels below. */
  ghost predicate Unique(e: Expr)
    decreases Size(e), 1
  {
    IsAnyOp(e) ==>
      forall p, q | Operand(OpOf(e), e, p) && Operand(OpOf(e), e, q) && p != q :: UniquePair(OpOf(e), e, p, q)
  }

  ghost predicate UniquePair(op: Op, t: Expr, p: Path, q: Path)
    requires IsOp(t, op) && Operand(op, t, p) && Operand(op, t, q) && p != q
    decreases Size(t), 0
  {
    && !ExprEq(At(op, t, p), At(op, t, q))
    && (Plain(At(op, t, p)) ==> At(op, t, p) != At(op, t, q))
    && (forall s :: !SamePair(op, s, At(op, t, p), At(op, t, q)))
    && (PutOperand(op, t, p, At(op, t, p)); Unique(At(op, t, p)))
  }

  lemma {:induction false} IrreducibleUnique(e: Expr)
    requires Irreducible(e)
    ensures Unique(e)
    decreases Size(e)
  {
    if IsAnyOp(e) {
      var op := OpOf(e);
      forall p, q | Operand(op, e, p) && Operand(op, e, q) && p != q ensures UniquePair(op, e, p, q) {
        assert [] <= p && [] <= q;
        assert SettledPair(op, e, p, q);
        JoinExactly(op, At(op, e, p), At(op, e, q));
        if Plain(At(op, e, p)) { EqualsItself(At(op, e, p)); }
        PutOperand(op, e, p, At(op, e, p));
        IrreducibleUnique(At(op, e, p));
      }
    }
  }

  /** After expr_eliminate_dups. */
  lemma ElimDupsUnique(e: Expr)
    ensures Unique(ElimDups(e))
  {
    ElimDupsIrreducible(e);
    IrreducibleUnique(ElimDups(e));
  }
}
