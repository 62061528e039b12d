/** Slots inside one level of an expression: where expr_eliminate_dups1 reads and writes.  Both of its
    slot pointers lie in the same tree, so a slot is a path from the root of that tree. */
module KconfigSlots {
  import opened KconfigExpr
  import opened KconfigEq
  import opened KconfigTransform
  import opened KconfigJoin

  /** false is the left operand, true the right one. */
  type Path = seq<bool>

  function Child(e: Expr, d: bool): Expr
    requires IsAnyOp(e)
  {
    if d then Right(e) else Left(e)
  }

  /** The path stays within the level of `op` that starts at `t`. */
  predicate InLevel(op: Op, t: Expr, p: Path) {
    p == [] || (IsOp(t, op) && InLevel(op, Child(t, p[0]), p[1..]))
  }

  function At(op: Op, t: Expr, p: Path): Expr
    requires InLevel(op, t, p)
  {
    if p == [] then t else At(op, Child(t, p[0]), p[1..])
  }

  /** `t` with the slot at `p` overwritten by `x`. */
  function Put(op: Op, t: Expr, p: Path, x: Expr): Expr
    requires InLevel(op, t, p)
  {
    if p == [] then x
    else if p[0] then Mk(op, Left(t), Put(op, Right(t), p[1..], x))
    else Mk(op, Put(op, Left(t), p[1..], x), Right(t))
  }

  /** A slot that holds an operand of the level. */
  predicate Operand(op: Op, t: Expr, p: Path) {
    InLevel(op, t, p) && !IsOp(At(op, t, p), op)
  }

  /** Number of operators in the level. */
  function LevelSize(op: Op, e: Expr): nat {
    if IsOp(e, op) then 1 + LevelSize(op, Left(e)) + LevelSize(op, Right(e)) else 0
  }

  /** The two trees have their operands in the same slots. */
  predicate SameLevel(op: Op, t: Expr, u: Expr) {
    if IsOp(t, op) then IsOp(u, op) && SameLevel(op, Left(t), Left(u)) && SameLevel(op, Right(t), Right(u))
    else !IsOp(u, op)
  }

  lemma {:induction false} InLevelSnoc(op: Op, t: Expr, p: Path, d: bool)
    requires InLevel(op, t, p) && IsOp(At(op, t, p), op)
    ensures InLevel(op, t, p + [d]) && At(op, t, p + [d]) == Child(At(op, t, p), d)
  {
    if p == [] {
      assert ([d])[1..] == [];
    } else {
      InLevelSnoc(op, Child(t, p[0]), p[1..], d);
      assert (p + [d])[1..] == p[1..] + [d];
    }
  }

  lemma {:induction false} SameLevelAt(op: Op, t: Expr, u: Expr, p: Path)
    requires SameLevel(op, t, u) && InLevel(op, t, p)
    ensures InLevel(op, u, p) && SameLevel(op, At(op, t, p), At(op, u, p))
    ensures LevelSize(op, At(op, t, p)) == LevelSize(op, At(op, u, p))
  {
    if p == [] { SameLevelSize(op, t, u); } else { SameLevelAt(op, Child(t, p[0]), Child(u, p[0]), p[1..]); }
  }

  lemma {:induction false} SameLevelSize(op: Op, t: Expr, u: Expr)
    requires SameLevel(op, t, u)
    ensures LevelSize(op, t) == LevelSize(op, u)
  {
    if IsOp(t, op) { SameLevelSize(op, Left(t), Left(u)); SameLevelSize(op, Right(t), Right(u)); }
  }

  lemma {:induction false} SameLevelRefl(op: Op, t: Expr)
    ensures SameLevel(op, t, t)
  {
    if IsOp(t, op) { SameLevelRefl(op, Left(t)); SameLevelRefl(op, Right(t)); }
  }

  lemma {:induction false} SameLevelTrans(op: Op, t: Expr, u: Expr, v: Expr)
    requires SameLevel(op, t, u) && SameLevel(op, u, v)
    ensures SameLevel(op, t, v)
  {
    if IsOp(t, op) {
      SameLevelTrans(op, Left(t), Left(u), Left(v));
      SameLevelTrans(op, Right(t), Right(u), Right(v));
    }
  }

  /** Writing an operand: the level keeps its slots, and the size changes by the difference. */
  lemma {:induction false} PutOperand(op: Op, t: Expr, p: Path, x: Expr)
    requires Operand(op, t, p) && !IsOp(x, op)
    ensures SameLevel(op, t, Put(op, t, p, x))
    ensures Operand(op, Put(op, t, p, x), p) && At(op, Put(op, t, p, x), p) == x
    ensures Size(Put(op, t, p, x)) == Size(t) - Size(At(op, t, p)) + Size(x)
    ensures p != [] ==> Size(At(op, t, p)) < Size(t)
    ensures Put(op, t, p, At(op, t, p)) == t
  {
    if p != [] {
      PutOperand(op, Child(t, p[0]), p[1..], x);
      SameLevelRefl(op, Child(t, !p[0]));
    }
  }

  /** Other operands are not touched. */
  lemma {:induction false} PutElsewhere(op: Op, t: Expr, p: Path, q: Path, x: Expr)
    requires Operand(op, t, p) && Operand(op, t, q) && p != q && !IsOp(x, op)
    ensures Operand(op, Put(op, t, p, x), q) && At(op, Put(op, t, p, x), q) == At(op, t, q)
  {
    assert p != [] && q != [];
    if p[0] == q[0] {
      assert p == [p[0]] + p[1..] && q == [q[0]] + q[1..];
      PutElsewhere(op, Child(t, p[0]), p[1..], q[1..], x);
    }
  }

  /** The value of a level is the operand at `p` combined with the rest. */
  function Rest(op: Op, t: Expr, p: Path, env: Env): Tri
    requires InLevel(op, t, p)
  {
    if p == [] then Value(Neutral(op).s, env)
    else Apply(op, Rest(op, Child(t, p[0]), p[1..], env), Eval(Child(t, !p[0]), env))
  }

  lemma OneSide(op: Op, c: Tri, a: Tri, r: Tri)
    ensures Apply(op, Apply(op, c, a), r) == Apply(op, Apply(op, c, r), a)
    ensures Apply(op, r, Apply(op, c, a)) == Apply(op, Apply(op, c, r), a)
  {
  }

  lemma {:induction false} PutValue(op: Op, t: Expr, p: Path, x: Expr, env: Env)
    requires InLevel(op, t, p)
    ensures Eval(t, env) == Apply(op, Rest(op, t, p, env), Eval(At(op, t, p), env))
    ensures Eval(Put(op, t, p, x), env) == Apply(op, Rest(op, t, p, env), Eval(x, env))
  {
    if p != [] {
      var l, r := Child(t, p[0]), Child(t, !p[0]);
      PutValue(op, l, p[1..], x, env);
      EvalOp(op, t, env);
      EvalMk(op, Put(op, l, p[1..], x), r, env);
      EvalMk(op, r, Put(op, l, p[1..], x), env);
      OneSide(op, Rest(op, l, p[1..], env), Eval(At(op, t, p), env), Eval(r, env));
      OneSide(op, Rest(op, l, p[1..], env), Eval(x, env), Eval(r, env));
    }
  }

  /** Overwriting two operands by two others of the same combined value keeps the value of the level. */
  lemma {:induction false} PutTwoValue(op: Op, t: Expr, p: Path, q: Path, x: Expr, y: Expr, env: Env)
    requires Operand(op, t, p) && Operand(op, t, q) && p != q && !IsOp(x, op) && !IsOp(y, op)
    requires Operand(op, Put(op, t, p, x), q)
    requires Apply(op, Eval(At(op, t, p), env), Eval(At(op, t, q), env)) == Apply(op, Eval(x, env), Eval(y, env))
    ensures Eval(Put(op, Put(op, t, p, x), q, y), env) == Eval(t, env)
  {
    assert p != [] && q != [];
    var l, r := Child(t, p[0]), Child(t, !p[0]);
    if p[0] == q[0] {
      assert p == [p[0]] + p[1..] && q == [q[0]] + q[1..];
      PutElsewhere(op, l, p[1..], q[1..], x);
      PutTwoValue(op, l, p[1..], q[1..], x, y, env);
    } else {
      PutValue(op, l, p[1..], x, env);
      PutValue(op, r, q[1..], y, env);
      TwoSides(op, Rest(op, l, p[1..], env), Rest(op, r, q[1..], env),
               Eval(At(op, t, p), env), Eval(At(op, t, q), env), Eval(x, env), Eval(y, env));
    }
  }

  lemma TwoSides(op: Op, c: Tri, d: Tri, a: Tri, b: Tri, x: Tri, y: Tri)
    requires Apply(op, a, b) == Apply(op, x, y)
    ensures Apply(op, Apply(op, c, a), Apply(op, d, b)) == Apply(op, Apply(op, c, x), Apply(op, d, y))
    ensures Apply(op, Apply(op, d, b), Apply(op, c, a)) == Apply(op, Apply(op, d, y), Apply(op, c, x))
  {
    ApplyAC(op, c, a, d, b);
    ApplyAC(op, c, x, d, y);
    Commutes(op, Apply(op, c, a), Apply(op, d, b));
    Commutes(op, Apply(op, c, x), Apply(op, d, y));
  }

  lemma Commutes(op: Op, a: Tri, b: Tri)
    ensures Apply(op, a, b) == Apply(op, b, a)
  {
  }

  lemma HasYNOp(op: Op, e: Expr)
    requires IsOp(e, op)
    ensures HasYN(e) <==> IsYN(Left(e)) || IsYN(Right(e)) || HasYN(Left(e)) || HasYN(Right(e))
  {
  }

  lemma HasYNMk(op: Op, l: Expr, r: Expr)
    ensures HasYN(Mk(op, l, r)) <==> IsYN(l) || IsYN(r) || HasYN(l) || HasYN(r)
  {
  }

  /** A y or n operand, or one with y or n inside, shows in the level. */
  lemma {:induction false} PutShowsYN(op: Op, t: Expr, p: Path, x: Expr)
    requires Operand(op, t, p) && p != [] && !IsOp(x, op)
    ensures IsYN(x) || HasYN(x) ==> HasYN(Put(op, t, p, x))
    ensures HasYN(t) && (IsYN(At(op, t, p)) ==> IsYN(x)) && (HasYN(At(op, t, p)) ==> HasYN(x)) ==>
      HasYN(Put(op, t, p, x))
  {
    var l, r := Child(t, p[0]), Child(t, !p[0]);
    HasYNOp(op, t);
    HasYNMk(op, Put(op, l, p[1..], x), r);
    HasYNMk(op, r, Put(op, l, p[1..], x));
    assert At(op, t, p) == At(op, l, p[1..]);
    if |p| > 1 {
      PutShowsYN(op, l, p[1..], x);
      assert IsOp(l, op) && !IsYN(l);
    } else {
      assert At(op, t, p) == l && Put(op, l, p[1..], x) == x;
    }
  }

  lemma {:induction false} PutConfined(op: Op, t: Expr, p: Path, x: Expr, ps: Pairs)
    requires InLevel(op, t, p) && Confined(t, ps)
    ensures Confined(At(op, t, p), ps)
    ensures Confined(x, ps) ==> Confined(Put(op, t, p, x), ps)
  {
    if p != [] { PutConfined(op, Child(t, p[0]), p[1..], x, ps); }
  }

  lemma {:induction false} PutNotOnSymbols(op: Op, t: Expr, p: Path, x: Expr)
    requires InLevel(op, t, p) && NotOnSymbols(t)
    ensures NotOnSymbols(At(op, t, p))
    ensures NotOnSymbols(x) ==> NotOnSymbols(Put(op, t, p, x))
  {
    if p != [] { PutNotOnSymbols(op, Child(t, p[0]), p[1..], x); }
  }
}
