/** Slots anywhere in an expression, as the program reaches them by pointers to pointers. */
module KconfigTree {
  import opened KconfigExpr
  import opened KconfigEq
  import opened KconfigSlots

  /** A slot anywhere in the tree, across levels. */
  predicate Within(t: Expr, p: Path) {
    p == [] || (IsAnyOp(t) && Within(Child(t, p[0]), p[1..]))
  }

  function Get(t: Expr, p: Path): Expr
    requires Within(t, p)
  {
    if p == [] then t else Get(Child(t, p[0]), p[1..])
  }

  function Set(t: Expr, p: Path, x: Expr): Expr
    requires Within(t, p)
  {
    if p == [] then x
    else if p[0] then Mk(OpOf(t), Left(t), Set(Right(t), p[1..], x))
    else Mk(OpOf(t), Set(Left(t), p[1..], x), Right(t))
  }

  lemma {:induction false} SetGet(t: Expr, p: Path, x: Expr, y: Expr)
    requires Within(t, p)
    ensures Within(Set(t, p, x), p) && Get(Set(t, p, x), p) == x
    ensures Set(Set(t, p, x), p, y) == Set(t, p, y)
    ensures Set(t, p, Get(t, p)) == t
  {
    if p != [] { SetGet(Child(t, p[0]), p[1..], x, y); }
  }

  /** The slots of the two operands, read and written one after the other. */
  lemma {:induction false} SetOperands(t: Expr, p: Path, op: Op, x: Expr, y: Expr)
    requires Within(t, p) && IsOp(Get(t, p), op)
    ensures Within(t, p + [false]) && Get(t, p + [false]) == Left(Get(t, p))
    ensures var u := Set(t, p + [false], x); Within(u, p + [true]) && Get(u, p + [true]) == Right(Get(t, p))
    ensures Set(Set(t, p + [false], x), p + [true], y) == Set(t, p, Mk(op, x, y))
  {
    if p == [] {
      assert [false][1..] == [] && [true][1..] == [];
      assert p + [false] == [false] && p + [true] == [true];
    } else {
      assert (p + [false])[1..] == p[1..] + [false] && (p + [true])[1..] == p[1..] + [true];
      SetOperands(Child(t, p[0]), p[1..], op, x, y);
    }
  }
}
