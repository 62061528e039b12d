/** expr_eliminate_eq and expr_eq as the program runs them: the slots of two trees are overwritten while a
    recursion walks both, and expr_eq does so on copies. */
module KconfigEqInPlace {
  import opened KconfigExpr
  import opened KconfigEq
  import opened KconfigSlots
  import opened KconfigTree

  class Canceller {
    /** The trees that the two pointers of expr_eliminate_eq point to. */
    var first: Expr
    var second: Expr
    var transCount: nat

    constructor (a: Expr, b: Expr, count: nat)
      ensures first == a && second == b && transCount == count
    {
      first, second, transCount := a, b, count;
    }

    /** __expr_eliminate_eq on a slot of each tree. */
    method EliminateEq1(op: Op, p: Path, q: Path)
      requires Within(first, p) && Within(second, q)
      modifies this
      ensures Within(old(first), p) && Within(old(second), q)
      ensures var r := ElimEq1(op, Get(old(first), p), Get(old(second), q));
        first == Set(old(first), p, r.0) && second == Set(old(second), q, r.1)
      ensures transCount >= old(transCount)
      ensures transCount == old(transCount) ==> first == old(first) && second == old(second)
      decreases Size(Get(first, p)) + Size(Get(second, q)),
        if IsOp(Get(first, p), op) || IsOp(Get(second, q), op) then 0 else 3
    {
      ghost var a, b, t, u := Get(first, p), Get(second, q), first, second;
      SetGet(t, p, a, a);
      SetGet(u, q, b, b);
      if IsOp(Get(first, p), op) {
        ghost var r := ElimEq1(op, Left(a), b);
        ghost var s := ElimEq1(op, Right(a), r.1);
        SetOperands(t, p, op, r.0, s.0);
        SetGet(u, q, r.1, s.1);
        EliminateEq1(op, p + [false], q);
        EliminateEq1(op, p + [true], q);
      } else if IsOp(Get(second, q), op) {
        ghost var r := ElimEq1(op, a, Left(b));
        ghost var s := ElimEq1(op, r.0, Right(b));
        SetOperands(u, q, op, r.1, s.1);
        SetGet(t, p, r.0, s.0);
        EliminateEq1(op, p, q + [false]);
        EliminateEq1(op, p, q + [true]);
      } else {
        CancelLeaves(op, p, q);
      }
    }

    /** Two leaves: if they are equal, and not the same y or n, both become the neutral constant. */
    method CancelLeaves(op: Op, p: Path, q: Path)
      requires Within(first, p) && Within(second, q)
      requires !IsOp(Get(first, p), op) && !IsOp(Get(second, q), op)
      modifies this
      ensures Within(old(first), p) && Within(old(second), q)
      ensures var r := ElimEq1(op, Get(old(first), p), Get(old(second), q));
        first == Set(old(first), p, r.0) && second == Set(old(second), q, r.1)
      ensures transCount >= old(transCount)
      ensures transCount == old(transCount) ==> first == old(first) && second == old(second)
      decreases Size(Get(first, p)) + Size(Get(second, q)), 2, 1
    {
      var a, b := Get(first, p), Get(second, q);
      SetGet(first, p, a, a);
      SetGet(second, q, b, b);
      if a == b && IsYN(a) { return; }
      var same := Equal(a, b, transCount);
      if !same { return; }
      transCount := transCount + 1;
      first, second := Set(first, p, Neutral(op)), Set(second, q, Neutral(op));
    }

    /** expr_eliminate_eq. */
    method EliminateEq()
      modifies this
      ensures (first, second) == ElimEq(old(first), old(second))
      decreases Size(first) + Size(second), 1
    {
      if IsAnyOp(first) { EliminateEq1(OpOf(first), [], []); }
      if IsAnyOp(second) && !IsOp(first, OpOf(second)) { EliminateEq1(OpOf(second), [], []); }
      first, second := ElimYN(first), ElimYN(second);
    }

    /** expr_eq: two && or || expressions are copied, and the copies cancelled. */
    static method Equal(a: Expr, b: Expr, count: nat) returns (res: bool)
      ensures res == ExprEq(a, b)
      decreases Size(a) + Size(b), 2, 0
    {
      if a.ENot? && b.ENot? {
        res := Equal(a.e, b.e, count);
      } else if (a.EAnd? && b.EAnd?) || (a.EOr? && b.EOr?) {
        var c := new Canceller(a, b, count);
        c.EliminateEq();
        res := c.first.ESym? && c.second.ESym? && c.first.s == c.second.s;
      } else {
        res := (a.ESym? || a.ECmp?) && a == b;
      }
    }
  }
}
