/** expr_eliminate_yn, expr_eliminate_eq and expr_eq: cancelling equal operands and comparing up to it. */
module KconfigEq {
  import opened KconfigExpr

  // ----- expr_eliminate_yn -----

  /** Removes y and n operands. */
  function ElimYN(e: Expr): (r: Expr)
    ensures Size(r) <= Size(e)
  {
    match e
    case EAnd(l, r) =>
      var l', r' := ElimYN(l), ElimYN(r);
      if l' == ESym(SymNo) then ESym(SymNo) else if l' == ESym(SymYes) then r'
      else if r' == ESym(SymNo) then ESym(SymNo) else if r' == ESym(SymYes) then l'
      else EAnd(l', r')
    case EOr(l, r) =>
      var l', r' := ElimYN(l), ElimYN(r);
      if l' == ESym(SymNo) then r' else if l' == ESym(SymYes) then ESym(SymYes)
      else if r' == ESym(SymNo) then l' else if r' == ESym(SymYes) then ESym(SymYes)
      else EOr(l', r')
    case _ => e
  }

  lemma {:induction false} ElimYNKeepsValue(e: Expr, env: Env)
    ensures Eval(ElimYN(e), env) == Eval(e, env)
  {
    match e
    case ESym(_) =>
    case ENot(_) =>
    case ECmp(_, _, _) =>
    case EAnd(l, r) => ElimYNKeepsValue(l, env); ElimYNKeepsValue(r, env);
    case EOr(l, r) => ElimYNKeepsValue(l, env); ElimYNKeepsValue(r, env);
  }

  /** Some operand, above any negation, is y or n. */
  predicate HasYN(e: Expr) {
    match e
    case EAnd(l, r) => IsYN(l) || IsYN(r) || HasYN(l) || HasYN(r)
    case EOr(l, r) => IsYN(l) || IsYN(r) || HasYN(l) || HasYN(r)
    case _ => false
  }

  /** It shrinks exactly the expressions that have such an operand, and removes them all. */
  lemma {:induction false} ElimYNShrinks(e: Expr)
    ensures Size(ElimYN(e)) < Size(e) <==> HasYN(e)
    ensures !HasYN(e) ==> ElimYN(e) == e
    ensures !HasYN(ElimYN(e))
  {
    match e
    case ESym(_) =>
    case ENot(_) =>
    case ECmp(_, _, _) =>
    case EAnd(l, r) => ElimYNShrinks(l); ElimYNShrinks(r);
    case EOr(l, r) => ElimYNShrinks(l); ElimYNShrinks(r);
  }

  // ----- expr_eliminate_eq and expr_eq -----

  function Left(e: Expr): Expr
    requires IsAnyOp(e)
  {
    e.l
  }

  function Right(e: Expr): Expr
    requires IsAnyOp(e)
  {
    e.r
  }

  /** Two equal operands of the levels of `a` and `b` are both replaced by the neutral constant. */
  function ElimEq1(op: Op, a: Expr, b: Expr): (r: (Expr, Expr))
    ensures Size(r.0) <= Size(a) && Size(r.1) <= Size(b)
    ensures (IsOp(a, op) ==> IsOp(r.0, op)) && (IsOp(b, op) ==> IsOp(r.1, op))
    decreases Size(a) + Size(b), if IsOp(a, op) || IsOp(b, op) then 0 else 3
  {
    if IsOp(a, op) then
      var p := ElimEq1(op, Left(a), b);
      var q := ElimEq1(op, Right(a), p.1);
      (Mk(op, p.0, q.0), q.1)
    else if IsOp(b, op) then
      var p := ElimEq1(op, a, Left(b));
      var q := ElimEq1(op, p.0, Right(b));
      (q.0, Mk(op, p.1, q.1))
    else if a == b && IsYN(a) then (a, b)
    else if !ExprEq(a, b) then (a, b)
    else (Neutral(op), Neutral(op))
  }

  function ElimEq(a: Expr, b: Expr): (r: (Expr, Expr))
    decreases Size(a) + Size(b), 1
  {
    var p := if IsAnyOp(a) then ElimEq1(OpOf(a), a, b) else (a, b);
    var q := if IsAnyOp(p.1) && !IsOp(p.0, OpOf(p.1)) then ElimEq1(OpOf(p.1), p.0, p.1) else p;
    (ElimYN(q.0), ElimYN(q.1))
  }

  function ExprEq(a: Expr, b: Expr): bool
    decreases Size(a) + Size(b), 2
  {
    if a.ENot? && b.ENot? then ExprEq(a.e, b.e)
    else if (a.EAnd? && b.EAnd?) || (a.EOr? && b.EOr?) then
      var r := ElimEq(a, b);
      r.0.ESym? && r.1.ESym? && r.0.s == r.1.s
    else if a.ESym? || a.ECmp? then a == b
    else false
  }

  /** expr_eq on possibly null expressions: null equals y. */
  function ExprEqOpt(a: Option<Expr>, b: Option<Expr>): bool {
    if a.None? || b.None? then
      (a.None? || a.value == ESym(SymYes)) && (b.None? || b.value == ESym(SymYes))
    else ExprEq(a.value, b.value)
  }

  lemma EvalOp(op: Op, e: Expr, env: Env)
    requires IsOp(e, op)
    ensures Eval(e, env) == Apply(op, Eval(Left(e), env), Eval(Right(e), env))
  {
  }

  lemma EvalMk(op: Op, l: Expr, r: Expr, env: Env)
    ensures Eval(Mk(op, l, r), env) == Apply(op, Eval(l, env), Eval(r, env))
  {
  }

  /** Cancelling `c1` against the first operand and then `c2` against the second. */
  lemma CancelTwice(op: Op, l: Tri, r: Tri, l': Tri, r': Tri, b: Tri, b': Tri, b'': Tri, c1: Tri, c2: Tri)
    requires l == Apply(op, l', c1) && b == Apply(op, b', c1)
    requires r == Apply(op, r', c2) && b' == Apply(op, b'', c2)
    ensures Apply(op, l, r) == Apply(op, Apply(op, l', r'), Apply(op, c1, c2))
    ensures b == Apply(op, b'', Apply(op, c1, c2))
  {
  }

  /** What was cancelled had one common value `c` on both sides. */
  lemma {:induction false} ElimEq1Cancels(op: Op, a: Expr, b: Expr, env: Env) returns (c: Tri)
    ensures Eval(a, env) == Apply(op, Eval(ElimEq1(op, a, b).0, env), c)
    ensures Eval(b, env) == Apply(op, Eval(ElimEq1(op, a, b).1, env), c)
    decreases Size(a) + Size(b), if IsOp(a, op) || IsOp(b, op) then 0 else 3
  {
    if IsOp(a, op) {
      var p := ElimEq1(op, Left(a), b);
      var q := ElimEq1(op, Right(a), p.1);
      var c1 := ElimEq1Cancels(op, Left(a), b, env);
      var c2 := ElimEq1Cancels(op, Right(a), p.1, env);
      c := Apply(op, c1, c2);
      EvalOp(op, a, env);
      EvalMk(op, p.0, q.0, env);
      CancelTwice(op, Eval(Left(a), env), Eval(Right(a), env), Eval(p.0, env), Eval(q.0, env),
                  Eval(b, env), Eval(p.1, env), Eval(q.1, env), c1, c2);
    } else if IsOp(b, op) {
      var p := ElimEq1(op, a, Left(b));
      var q := ElimEq1(op, p.0, Right(b));
      var c1 := ElimEq1Cancels(op, a, Left(b), env);
      var c2 := ElimEq1Cancels(op, p.0, Right(b), env);
      c := Apply(op, c1, c2);
      EvalOp(op, b, env);
      EvalMk(op, p.1, q.1, env);
      CancelTwice(op, Eval(Left(b), env), Eval(Right(b), env), Eval(p.1, env), Eval(q.1, env),
                  Eval(a, env), Eval(p.0, env), Eval(q.0, env), c1, c2);
    } else if (a == b && IsYN(a)) || !ExprEq(a, b) {
      c := Value(Neutral(op).s, env);
    } else {
      ExprEqSound(a, b, env);
      c := Eval(a, env);
    }
  }

  /** expr_eq never equates expressions that differ in value. */
  lemma {:induction false} ExprEqSound(a: Expr, b: Expr, env: Env)
    requires ExprEq(a, b)
    ensures Eval(a, env) == Eval(b, env)
    decreases Size(a) + Size(b), 2
  {
    if a.ENot? && b.ENot? {
      ExprEqSound(a.e, b.e, env);
    } else if IsAnyOp(a) {
      var op := OpOf(a);
      var p := ElimEq1(op, a, b);
      var c := ElimEq1Cancels(op, a, b, env);
      ElimYNKeepsValue(p.0, env);
      ElimYNKeepsValue(p.1, env);
    }
  }

  lemma ExprEqOptSound(a: Option<Expr>, b: Option<Expr>, env: Env)
    requires ExprEqOpt(a, b)
    ensures EvalOpt(a, env) == EvalOpt(b, env)
  {
    if a.Some? && b.Some? { ExprEqSound(a.value, b.value, env); }
  }

  /** If `b` turns out y where `a` and `b` share the operand `c`, `a` was never above `b`. */
  lemma CancelBelow(op: Op, a: Tri, b: Tri, a': Tri, b': Tri, c: Tri)
    requires a == Apply(op, a', c) && b == Apply(op, b', c) && a' <= b'
    ensures a <= b
  {
  }

  /** One round of expr_eliminate_eq. */
  function ElimEqRound(ops: Expr, a: Expr, b: Expr): (Expr, Expr) {
    if IsAnyOp(ops) then ElimEq1(OpOf(ops), a, b) else (a, b)
  }

  lemma RoundBelow(ops: Expr, a: Expr, b: Expr, env: Env)
    requires var r := ElimEqRound(ops, a, b); Eval(r.0, env) <= Eval(r.1, env)
    ensures Eval(a, env) <= Eval(b, env)
  {
    if IsAnyOp(ops) {
      var r := ElimEq1(OpOf(ops), a, b);
      var c := ElimEq1Cancels(OpOf(ops), a, b, env);
      CancelBelow(OpOf(ops), Eval(a, env), Eval(b, env), Eval(r.0, env), Eval(r.1, env), c);
    }
  }

  /** When the second side cancels down to y, the first side was never above it: the "superset" test. */
  lemma ElimEqSuperset(a: Expr, b: Expr, env: Env)
    requires ElimEq(a, b).1 == ESym(SymYes)
    ensures Eval(a, env) <= Eval(b, env)
  {
    var p := ElimEqRound(a, a, b);
    var q := if IsAnyOp(p.1) && !IsOp(p.0, OpOf(p.1)) then ElimEqRound(p.1, p.0, p.1) else p;
    ElimYNKeepsValue(q.1, env);
    assert Eval(q.1, env) == 2;
    if IsAnyOp(p.1) && !IsOp(p.0, OpOf(p.1)) { RoundBelow(p.1, p.0, p.1, env); }
    RoundBelow(a, a, b, env);
  }

  // ----- completeness of expr_eq on one level -----

  /** Operands on which expr_eq is plain equality. */
  predicate Atom(e: Expr) {
    (e.ESym? && !IsYN(e)) || (e.ENot? && e.e.ESym?) || e.ECmp?
  }

  /** A level of `op` over atoms; operands already cancelled are allowed. */
  predicate AtomTree(op: Op, e: Expr) {
    if IsOp(e, op) then AtomTree(op, Left(e)) && AtomTree(op, Right(e)) else Atom(e) || e == Neutral(op)
  }

  /** The operands of a level, cancelled ones not counted. */
  function Leaves(op: Op, e: Expr): multiset<Expr> {
    if IsOp(e, op) then Leaves(op, Left(e)) + Leaves(op, Right(e))
    else if e == Neutral(op) then multiset{} else multiset{e}
  }

  lemma AtomEq(a: Expr, b: Expr)
    requires (Atom(a) || IsYN(a)) && (Atom(b) || IsYN(b))
    ensures ExprEq(a, b) <==> a == b
  {
  }

  lemma MinusMinus(l: multiset<Expr>, r: multiset<Expr>, b: multiset<Expr>)
    ensures (b - l) - r == b - (l + r)
    ensures (l - b) + (r - (b - l)) == (l + r) - b
  {
  }

  lemma LeavesOp(op: Op, e: Expr)
    requires IsOp(e, op)
    ensures Leaves(op, e) == Leaves(op, Left(e)) + Leaves(op, Right(e))
    ensures AtomTree(op, e) <==> AtomTree(op, Left(e)) && AtomTree(op, Right(e))
    ensures e == Mk(op, Left(e), Right(e))
  {
  }

  lemma LeavesMk(op: Op, l: Expr, r: Expr)
    ensures Leaves(op, Mk(op, l, r)) == Leaves(op, l) + Leaves(op, r)
    ensures AtomTree(op, Mk(op, l, r)) <==> AtomTree(op, l) && AtomTree(op, r)
  {
  }

  /** `r` holds what is left of `a` and `b` after cancelling. */
  predicate Difference(op: Op, a: Expr, b: Expr, r: (Expr, Expr)) {
    && AtomTree(op, r.0) && AtomTree(op, r.1)
    && Leaves(op, r.0) == Leaves(op, a) - Leaves(op, b)
    && Leaves(op, r.1) == Leaves(op, b) - Leaves(op, a)
  }

  lemma DifferenceTwice(op: Op, l: Expr, r: Expr, b: Expr, p: (Expr, Expr), q: (Expr, Expr))
    requires Difference(op, l, b, p) && Difference(op, r, p.1, q)
    ensures Difference(op, Mk(op, l, r), b, (Mk(op, p.0, q.0), q.1))
    ensures Difference(op, b, Mk(op, l, r), (q.1, Mk(op, p.0, q.0)))
  {
    LeavesMk(op, l, r);
    LeavesMk(op, p.0, q.0);
    MinusMinus(Leaves(op, l), Leaves(op, r), Leaves(op, b));
  }

  lemma DifferenceSwap(op: Op, a: Expr, b: Expr, r: (Expr, Expr))
    requires Difference(op, a, b, r)
    ensures Difference(op, b, a, (r.1, r.0))
  {
  }

  lemma ElimEq1OnLeaves(op: Op, a: Expr, b: Expr)
    requires (Atom(a) || IsYN(a)) && (Atom(b) || IsYN(b))
    ensures ElimEq1(op, a, b) == if a == b && !IsYN(a) then (Neutral(op), Neutral(op)) else (a, b)
  {
    AtomEq(a, b);
  }

  lemma LeavesLeaf(op: Op, e: Expr)
    requires AtomTree(op, e) && !IsOp(e, op)
    ensures Leaves(op, e) == if IsYN(e) then multiset{} else multiset{e}
    ensures (Atom(e) || e == Neutral(op)) && Leaves(op, Neutral(op)) == multiset{} && AtomTree(op, Neutral(op))
  {
  }

  lemma ElimEq1Leaf(op: Op, a: Expr, b: Expr)
    requires AtomTree(op, a) && AtomTree(op, b) && !IsOp(a, op) && !IsOp(b, op)
    ensures Difference(op, a, b, ElimEq1(op, a, b))
  {
    LeavesLeaf(op, a);
    LeavesLeaf(op, b);
    ElimEq1OnLeaves(op, a, b);
  }

  /** Cancelling computes multiset difference on both sides. */
  lemma {:induction false} ElimEq1Difference(op: Op, a: Expr, b: Expr)
    requires AtomTree(op, a) && AtomTree(op, b)
    ensures Difference(op, a, b, ElimEq1(op, a, b))
    decreases Size(a) + Size(b)
  {
    if IsOp(a, op) {
      LeavesOp(op, a);
      var p := ElimEq1(op, Left(a), b);
      ElimEq1Difference(op, Left(a), b);
      ElimEq1Difference(op, Right(a), p.1);
      DifferenceTwice(op, Left(a), Right(a), b, p, ElimEq1(op, Right(a), p.1));
    } else if IsOp(b, op) {
      LeavesOp(op, b);
      var p := ElimEq1(op, a, Left(b));
      var q := ElimEq1(op, p.0, Right(b));
      ElimEq1Difference(op, a, Left(b));
      ElimEq1Difference(op, p.0, Right(b));
      DifferenceSwap(op, a, Left(b), p);
      DifferenceSwap(op, p.0, Right(b), q);
      DifferenceTwice(op, Left(b), Right(b), a, (p.1, p.0), (q.1, q.0));
    } else {
      ElimEq1Leaf(op, a, b);
    }
  }

  lemma ElimYNOp(op: Op, e: Expr)
    requires IsOp(e, op)
    requires (IsYN(ElimYN(Left(e))) ==> ElimYN(Left(e)) == Neutral(op))
    requires (IsYN(ElimYN(Right(e))) ==> ElimYN(Right(e)) == Neutral(op))
    ensures ElimYN(e) ==
      if ElimYN(Left(e)) == Neutral(op) then ElimYN(Right(e))
      else if ElimYN(Right(e)) == Neutral(op) then ElimYN(Left(e))
      else Mk(op, ElimYN(Left(e)), ElimYN(Right(e)))
  {
  }

  /** Dropping cancelled operands leaves the neutral constant exactly when nothing else was there. */
  lemma {:induction false} ElimYNLeaves(op: Op, e: Expr)
    requires AtomTree(op, e)
    ensures AtomTree(op, ElimYN(e)) && Leaves(op, ElimYN(e)) == Leaves(op, e)
    ensures ElimYN(e) == Neutral(op) <==> Leaves(op, e) == multiset{}
  {
    if IsOp(e, op) {
      var l, r := ElimYN(Left(e)), ElimYN(Right(e));
      LeavesOp(op, e);
      ElimYNLeaves(op, Left(e));
      ElimYNLeaves(op, Right(e));
      LeavesSome(op, l);
      LeavesSome(op, r);
      ElimYNOp(op, e);
      LeavesMk(op, l, r);
    } else {
      assert ElimYN(e) == e;
    }
  }

  lemma LeavesSome(op: Op, e: Expr)
    requires AtomTree(op, e)
    ensures IsYN(e) ==> e == Neutral(op)
    ensures e == Neutral(op) ==> Leaves(op, e) == multiset{}
  {
  }

  lemma ExprEqOp(op: Op, a: Expr, b: Expr)
    requires IsOp(a, op) && IsOp(b, op)
    ensures var p := ElimEq1(op, a, b);
      ExprEq(a, b) <==> ElimYN(p.0).ESym? && ElimYN(p.0) == ElimYN(p.1)
  {
  }

  lemma DifferenceEmpty(x: multiset<Expr>, y: multiset<Expr>)
    ensures x == y <==> x - y == multiset{} && y - x == multiset{}
    ensures x == y <==> x - y == y - x
  {
    if x - y == y - x {
      forall z ensures x[z] == y[z] { assert (x - y)[z] == (y - x)[z]; }
    }
  }

  /** On two expressions of one operator over atoms, expr_eq decides equality of the operand multisets. */
  lemma ExprEqComplete(op: Op, a: Expr, b: Expr)
    requires IsOp(a, op) && IsOp(b, op) && AtomTree(op, a) && AtomTree(op, b)
    ensures ExprEq(a, b) <==> Leaves(op, a) == Leaves(op, b)
  {
    var p := ElimEq1(op, a, b);
    ExprEqOp(op, a, b);
    ElimEq1Difference(op, a, b);
    ElimYNLeaves(op, p.0);
    ElimYNLeaves(op, p.1);
    DifferenceEmpty(Leaves(op, a), Leaves(op, b));
  }
}
