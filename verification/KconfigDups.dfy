/** expr_eliminate_dups: every two operands of a level are joined where possible, until nothing joins. */
module KconfigDups {
  import opened KconfigExpr
  import opened KconfigEq
  import opened KconfigTransform
  import opened KconfigJoin
  import opened KconfigSlots

  /** expr_eliminate_dups1 for the slots `p` and `q` of the level at the root of `t`: the new tree and
      the number of joins. */
  function Dups1(op: Op, t: Expr, p: Path, q: Path): (r: (Expr, nat))
    requires IsOp(t, op) && InLevel(op, t, p) && InLevel(op, t, q)
    ensures SameLevel(op, t, r.0) && Size(r.0) <= Size(t)
    decreases Size(t), LevelSize(op, At(op, t, p)) + LevelSize(op, At(op, t, q)), 1
  {
    if IsOp(At(op, t, p), op) then
      Descend(op, t, p);
      var r1 := Dups1(op, t, p + [false], q);
      SameLevelAt(op, t, r1.0, p + [true]);
      SameLevelAt(op, t, r1.0, q);
      var r2 := Dups1(op, r1.0, p + [true], q);
      SameLevelTrans(op, t, r1.0, r2.0);
      (r2.0, r1.1 + r2.1)
    else if IsOp(At(op, t, q), op) then
      Descend(op, t, q);
      var r1 := Dups1(op, t, p, q + [false]);
      SameLevelAt(op, t, r1.0, p);
      SameLevelAt(op, t, r1.0, q + [true]);
      var r2 := Dups1(op, r1.0, p, q + [true]);
      SameLevelTrans(op, t, r1.0, r2.0);
      (r2.0, r1.1 + r2.1)
    else if p == q then
      SameLevelRefl(op, t);
      (t, 0)
    else
      JoinSlots(op, t, p, q)
  }

  /** Two different operands meet: `p` is first cleaned up itself, then they are joined. */
  function JoinSlots(op: Op, t: Expr, p: Path, q: Path): (r: (Expr, nat))
    requires IsOp(t, op) && Operand(op, t, p) && Operand(op, t, q) && p != q
    ensures SameLevel(op, t, r.0) && Size(r.0) <= Size(t)
    decreases Size(t), 0, 0
  {
    var a, b := At(op, t, p), At(op, t, q);
    PutOperand(op, t, p, a);
    var inner := if IsAnyOp(a) then Dups1(OpOf(a), a, [], []) else (a, 0);
    var j := Join(op, inner.0, b);
    PutOperand(op, t, p, inner.0);
    if j.None? then (Put(op, t, p, inner.0), inner.1)
    else
      JoinShape(op, inner.0, b);
      PutJoined(op, t, p, q, inner.0, j.value);
      (Put(op, Put(op, t, p, Neutral(op)), q, j.value), inner.1 + 1)
  }

  lemma Descend(op: Op, t: Expr, p: Path)
    requires InLevel(op, t, p) && IsOp(At(op, t, p), op)
    ensures InLevel(op, t, p + [false]) && At(op, t, p + [false]) == Left(At(op, t, p))
    ensures InLevel(op, t, p + [true]) && At(op, t, p + [true]) == Right(At(op, t, p))
  {
    InLevelSnoc(op, t, p, false);
    InLevelSnoc(op, t, p, true);
  }

  lemma PutNeutral(op: Op, t: Expr, p: Path, q: Path)
    requires Operand(op, t, p) && Operand(op, t, q) && p != q
    ensures var u := Put(op, t, p, Neutral(op));
      && Operand(op, u, q) && At(op, u, q) == At(op, t, q)
      && SameLevel(op, t, u)
      && Size(u) == Size(t) - Size(At(op, t, p)) + 1
  {
    PutOperand(op, t, p, Neutral(op));
    PutElsewhere(op, t, p, q, Neutral(op));
  }

  lemma PutJoined(op: Op, t: Expr, p: Path, q: Path, a: Expr, j: Expr)
    requires Operand(op, t, p) && Operand(op, t, q) && p != q
    requires Size(a) <= Size(At(op, t, p)) && Size(j) <= Size(a) && !IsOp(j, op)
    ensures var u := Put(op, t, p, Neutral(op));
      && Operand(op, u, q) && At(op, u, q) == At(op, t, q)
      && SameLevel(op, t, u) && SameLevel(op, t, Put(op, u, q, j))
      && Size(Put(op, u, q, j)) <= Size(t)
  {
    PutNeutral(op, t, p, q);
    var u := Put(op, t, p, Neutral(op));
    SizePositive(At(op, t, q));
    PutOperand(op, u, q, j);
    SameLevelTrans(op, t, u, Put(op, u, q, j));
  }

  lemma SizePositive(e: Expr)
    ensures Size(e) >= 1
  {
  }

  // ----- one pass -----

  function Pass(e: Expr): (Expr, nat) {
    if IsAnyOp(e) then Dups1(OpOf(e), e, [], []) else (e, 0)
  }

  /** Every join leaves a y or n behind, and once there is one there always is one. */
  lemma {:induction false} Dups1LeavesYN(op: Op, t: Expr, p: Path, q: Path)
    requires IsOp(t, op) && InLevel(op, t, p) && InLevel(op, t, q)
    ensures Dups1(op, t, p, q).1 > 0 || HasYN(t) ==> HasYN(Dups1(op, t, p, q).0)
    decreases Size(t), LevelSize(op, At(op, t, p)) + LevelSize(op, At(op, t, q)), 1
  {
    if IsOp(At(op, t, p), op) {
      Descend(op, t, p);
      var r1 := Dups1(op, t, p + [false], q);
      Dups1LeavesYN(op, t, p + [false], q);
      SameLevelAt(op, t, r1.0, p + [true]);
      SameLevelAt(op, t, r1.0, q);
      Dups1LeavesYN(op, r1.0, p + [true], q);
    } else if IsOp(At(op, t, q), op) {
      Descend(op, t, q);
      var r1 := Dups1(op, t, p, q + [false]);
      Dups1LeavesYN(op, t, p, q + [false]);
      SameLevelAt(op, t, r1.0, p);
      SameLevelAt(op, t, r1.0, q + [true]);
      Dups1LeavesYN(op, r1.0, p, q + [true]);
    } else if p != q {
      JoinSlotsLeavesYN(op, t, p, q);
    }
  }

  lemma {:induction false} JoinSlotsLeavesYN(op: Op, t: Expr, p: Path, q: Path)
    requires IsOp(t, op) && Operand(op, t, p) && Operand(op, t, q) && p != q
    ensures JoinSlots(op, t, p, q).1 > 0 || HasYN(t) ==> HasYN(JoinSlots(op, t, p, q).0)
    decreases Size(t), 0, 0
  {
    var a, b := At(op, t, p), At(op, t, q);
    PutOperand(op, t, p, a);
    var inner := if IsAnyOp(a) then Dups1(OpOf(a), a, [], []) else (a, 0);
    if IsAnyOp(a) { Dups1LeavesYN(OpOf(a), a, [], []); }
    var j := Join(op, inner.0, b);
    PutOperand(op, t, p, inner.0);
    assert p != [] && q != [];
    if j.None? {
      PutShowsYN(op, t, p, inner.0);
    } else {
      JoinShape(op, inner.0, b);
      PutJoined(op, t, p, q, inner.0, j.value);
      var u := Put(op, t, p, Neutral(op));
      PutOperand(op, t, p, Neutral(op));
      PutElsewhere(op, u, q, p, j.value);
      var v := Put(op, u, q, j.value);
      PutOperand(op, v, p, Neutral(op));
      PutShowsYN(op, v, p, Neutral(op));
    }
  }

  /** A pass that joins something shrinks the tree once the constants are removed. */
  lemma PassShrinks(e: Expr)
    ensures Pass(e).1 > 0 ==> Size(ElimYN(Pass(e).0)) < Size(e)
    ensures Size(ElimYN(Pass(e).0)) <= Size(e)
  {
    if IsAnyOp(e) {
      Dups1LeavesYN(OpOf(e), e, [], []);
      ElimYNShrinks(Pass(e).0);
    }
  }

  /** expr_eliminate_dups. */
  function ElimDups(e: Expr): Expr
    decreases Size(e)
  {
    var r := Pass(e);
    if r.1 == 0 then r.0 else PassShrinks(e); ElimDups(ElimYN(r.0))
  }

  // ----- meaning -----

  /** A pass keeps the value. */
  lemma {:induction false} Dups1KeepsValue(op: Op, t: Expr, p: Path, q: Path, ps: Pairs, env: Env)
    requires IsOp(t, op) && InLevel(op, t, p) && InLevel(op, t, q)
    requires EnvOk(env) && ClashFree(ps, env) && Confined(t, ps)
    ensures Eval(Dups1(op, t, p, q).0, env) == Eval(t, env) && Confined(Dups1(op, t, p, q).0, ps)
    decreases Size(t), LevelSize(op, At(op, t, p)) + LevelSize(op, At(op, t, q)), 1
  {
    if IsOp(At(op, t, p), op) {
      Descend(op, t, p);
      var r1 := Dups1(op, t, p + [false], q);
      Dups1KeepsValue(op, t, p + [false], q, ps, env);
      SameLevelAt(op, t, r1.0, p + [true]);
      SameLevelAt(op, t, r1.0, q);
      Dups1KeepsValue(op, r1.0, p + [true], q, ps, env);
    } else if IsOp(At(op, t, q), op) {
      Descend(op, t, q);
      var r1 := Dups1(op, t, p, q + [false]);
      Dups1KeepsValue(op, t, p, q + [false], ps, env);
      SameLevelAt(op, t, r1.0, p);
      SameLevelAt(op, t, r1.0, q + [true]);
      Dups1KeepsValue(op, r1.0, p, q + [true], ps, env);
    } else if p != q {
      JoinSlotsKeepsValue(op, t, p, q, ps, env);
    }
  }

  lemma {:induction false} JoinSlotsKeepsValue(op: Op, t: Expr, p: Path, q: Path, ps: Pairs, env: Env)
    requires IsOp(t, op) && Operand(op, t, p) && Operand(op, t, q) && p != q
    requires EnvOk(env) && ClashFree(ps, env) && Confined(t, ps)
    ensures Eval(JoinSlots(op, t, p, q).0, env) == Eval(t, env) && Confined(JoinSlots(op, t, p, q).0, ps)
    decreases Size(t), 0, 0
  {
    var a, b := At(op, t, p), At(op, t, q);
    PutOperand(op, t, p, a);
    PutConfined(op, t, p, a, ps);
    PutConfined(op, t, q, b, ps);
    var inner := if IsAnyOp(a) then Dups1(OpOf(a), a, [], []) else (a, 0);
    if IsAnyOp(a) { Dups1KeepsValue(OpOf(a), a, [], [], ps, env); }
    var j := Join(op, inner.0, b);
    PutOperand(op, t, p, inner.0);
    if j.None? {
      PutValue(op, t, p, inner.0, env);
      PutConfined(op, t, p, inner.0, ps);
    } else {
      JoinShape(op, inner.0, b);
      JoinSound(op, inner.0, b, ps, env);
      JoinConfined(op, inner.0, b, ps, env);
      PutJoined(op, t, p, q, inner.0, j.value);
      PutTwoValue(op, t, p, q, Neutral(op), j.value, env);
      PutConfined(op, t, p, Neutral(op), ps);
      PutConfined(op, Put(op, t, p, Neutral(op)), q, j.value, ps);
    }
  }

  lemma {:induction false} ElimYNConfined(e: Expr, ps: Pairs)
    requires Confined(e, ps)
    ensures Confined(ElimYN(e), ps)
  {
    match e
    case ESym(_) =>
    case ENot(_) =>
    case ECmp(_, _, _) =>
    case EAnd(l, r) => ElimYNConfined(l, ps); ElimYNConfined(r, ps);
    case EOr(l, r) => ElimYNConfined(l, ps); ElimYNConfined(r, ps);
  }

  lemma {:induction false} ElimDupsConfined(e: Expr, ps: Pairs, env: Env)
    requires EnvOk(env) && ClashFree(ps, env) && Confined(e, ps)
    ensures Eval(ElimDups(e), env) == Eval(e, env) && Confined(ElimDups(e), ps)
    decreases Size(e)
  {
    var r := Pass(e);
    if IsAnyOp(e) { Dups1KeepsValue(OpOf(e), e, [], [], ps, env); }
    if r.1 > 0 {
      PassShrinks(e);
      ElimYNKeepsValue(r.0, env);
      ElimYNConfined(r.0, ps);
      ElimDupsConfined(ElimYN(r.0), ps, env);
    }
  }

  /** expr_eliminate_dups keeps the tristate value in every environment in which no two constants clash. */
  lemma ElimDupsKeepsValue(e: Expr, env: Env)
    requires EnvOk(env) && NoClash(e, env)
    ensures Eval(ElimDups(e), env) == Eval(e, env)
  {
    OwnClashFree(e, env);
    ElimDupsConfined(e, OwnPairs(e), env);
  }

  /** Where no constant but y, m and n denotes a value, none does afterwards. */
  lemma ElimDupsPlain(e: Expr, env: Env)
    requires EnvOk(env) && PlainConsts(e, env)
    ensures Eval(ElimDups(e), env) == Eval(e, env) && PlainConsts(ElimDups(e), env)
  {
    PlainClashFree(env);
    PlainConfined(e, env);
    ElimDupsConfined(e, PlainPairs(env), env);
    PlainConfined(ElimDups(e), env);
  }

  // ----- negations stay on symbols -----

  lemma {:induction false} Dups1NotOnSymbols(op: Op, t: Expr, p: Path, q: Path)
    requires IsOp(t, op) && InLevel(op, t, p) && InLevel(op, t, q) && NotOnSymbols(t)
    ensures NotOnSymbols(Dups1(op, t, p, q).0)
    decreases Size(t), LevelSize(op, At(op, t, p)) + LevelSize(op, At(op, t, q)), 1
  {
    if IsOp(At(op, t, p), op) {
      Descend(op, t, p);
      var r1 := Dups1(op, t, p + [false], q);
      Dups1NotOnSymbols(op, t, p + [false], q);
      SameLevelAt(op, t, r1.0, p + [true]);
      SameLevelAt(op, t, r1.0, q);
      Dups1NotOnSymbols(op, r1.0, p + [true], q);
    } else if IsOp(At(op, t, q), op) {
      Descend(op, t, q);
      var r1 := Dups1(op, t, p, q + [false]);
      Dups1NotOnSymbols(op, t, p, q + [false]);
      SameLevelAt(op, t, r1.0, p);
      SameLevelAt(op, t, r1.0, q + [true]);
      Dups1NotOnSymbols(op, r1.0, p, q + [true]);
    } else if p != q {
      JoinSlotsNotOnSymbols(op, t, p, q);
    }
  }

  lemma {:induction false} JoinSlotsNotOnSymbols(op: Op, t: Expr, p: Path, q: Path)
    requires IsOp(t, op) && Operand(op, t, p) && Operand(op, t, q) && p != q && NotOnSymbols(t)
    ensures NotOnSymbols(JoinSlots(op, t, p, q).0)
    decreases Size(t), 0, 0
  {
    var a, b := At(op, t, p), At(op, t, q);
    PutOperand(op, t, p, a);
    PutNotOnSymbols(op, t, p, a);
    var inner := if IsAnyOp(a) then Dups1(OpOf(a), a, [], []) else (a, 0);
    if IsAnyOp(a) { Dups1NotOnSymbols(OpOf(a), a, [], []); }
    var j := Join(op, inner.0, b);
    PutOperand(op, t, p, inner.0);
    PutNotOnSymbols(op, t, p, inner.0);
    if j.Some? {
      JoinShape(op, inner.0, b);
      PutJoined(op, t, p, q, inner.0, j.value);
      PutNotOnSymbols(op, t, p, Neutral(op));
      PutNotOnSymbols(op, Put(op, t, p, Neutral(op)), q, j.value);
    }
  }

  lemma {:induction false} ElimYNNotOnSymbols(e: Expr)
    requires NotOnSymbols(e)
    ensures NotOnSymbols(ElimYN(e))
  {
    match e
    case ESym(_) =>
    case ENot(_) =>
    case ECmp(_, _, _) =>
    case EAnd(l, r) => ElimYNNotOnSymbols(l); ElimYNNotOnSymbols(r);
    case EOr(l, r) => ElimYNNotOnSymbols(l); ElimYNNotOnSymbols(r);
  }

  lemma {:induction false} ElimDupsNotOnSymbols(e: Expr)
    requires NotOnSymbols(e)
    ensures NotOnSymbols(ElimDups(e))
    decreases Size(e)
  {
    if IsAnyOp(e) { Dups1NotOnSymbols(OpOf(e), e, [], []); }
    if Pass(e).1 > 0 {
      PassShrinks(e);
      ElimYNNotOnSymbols(Pass(e).0);
      ElimDupsNotOnSymbols(ElimYN(Pass(e).0));
    }
  }

  // ----- nothing is left to join -----

  /** No two different operands of one level can be joined, at this level and at those below. */
  ghost predicate Irreducible(e: Expr)
    decreases Size(e), 1
  {
    IsAnyOp(e) ==> Settled(OpOf(e), e, [], [])
  }

  /** The same for the operands in or below the slots `p` and `q`. */
  ghost predicate Settled(op: Op, t: Expr, p: Path, q: Path)
    requires IsOp(t, op) && InLevel(op, t, p) && InLevel(op, t, q)
    decreases Size(t), 0
  {
    forall p', q' | p <= p' && q <= q' && Operand(op, t, p') && Operand(op, t, q') && p' != q' ::
      SettledPair(op, t, p', q')
  }

  ghost predicate SettledPair(op: Op, t: Expr, p: Path, q: Path)
    requires IsOp(t, op) && Operand(op, t, p) && Operand(op, t, q) && p != q
    decreases Size(t), 0, 0
  {
    && Join(op, At(op, t, p), At(op, t, q)).None?
    && (PutOperand(op, t, p, At(op, t, p)); Irreducible(At(op, t, p)))
  }

  /** Slots below `p` lie below its left or its right operand. */
  lemma SettledSplitLeft(op: Op, t: Expr, p: Path, q: Path)
    requires IsOp(t, op) && InLevel(op, t, p) && InLevel(op, t, q) && IsOp(At(op, t, p), op)
    requires InLevel(op, t, p + [false]) && InLevel(op, t, p + [true])
    requires Settled(op, t, p + [false], q) && Settled(op, t, p + [true], q)
    ensures Settled(op, t, p, q)
  {
    forall p', q' | p <= p' && q <= q' && Operand(op, t, p') && Operand(op, t, q') && p' != q'
      ensures SettledPair(op, t, p', q')
    {
      assert p' != p;
      if p'[|p|] { assert p + [true] <= p'; } else { assert p + [false] <= p'; }
    }
  }

  lemma SettledSplitRight(op: Op, t: Expr, p: Path, q: Path)
    requires IsOp(t, op) && InLevel(op, t, p) && InLevel(op, t, q) && IsOp(At(op, t, q), op)
    requires InLevel(op, t, q + [false]) && InLevel(op, t, q + [true])
    requires Settled(op, t, p, q + [false]) && Settled(op, t, p, q + [true])
    ensures Settled(op, t, p, q)
  {
    forall p', q' | p <= p' && q <= q' && Operand(op, t, p') && Operand(op, t, q') && p' != q'
      ensures SettledPair(op, t, p', q')
    {
      assert q' != q;
      if q'[|q|] { assert q + [true] <= q'; } else { assert q + [false] <= q'; }
    }
  }

  /** The level ends at an operand. */
  lemma {:induction false} OperandEnds(op: Op, t: Expr, p: Path, p': Path)
    requires Operand(op, t, p) && InLevel(op, t, p') && p <= p'
    ensures p' == p
  {
    if p != [] {
      OperandEnds(op, Child(t, p[0]), p[1..], p'[1..]);
      assert p' == [p[0]] + p'[1..] && p == [p[0]] + p[1..];
    }
  }

  /** A pass without a join changed nothing and found nothing. */
  lemma {:induction false} Dups1Settles(op: Op, t: Expr, p: Path, q: Path)
    requires IsOp(t, op) && InLevel(op, t, p) && InLevel(op, t, q)
    requires Dups1(op, t, p, q).1 == 0
    ensures Dups1(op, t, p, q).0 == t && Settled(op, t, p, q)
    decreases Size(t), LevelSize(op, At(op, t, p)) + LevelSize(op, At(op, t, q)), 1
  {
    if IsOp(At(op, t, p), op) {
      Descend(op, t, p);
      Dups1Settles(op, t, p + [false], q);
      Dups1Settles(op, t, p + [true], q);
      SettledSplitLeft(op, t, p, q);
    } else if IsOp(At(op, t, q), op) {
      Descend(op, t, q);
      Dups1Settles(op, t, p, q + [false]);
      Dups1Settles(op, t, p, q + [true]);
      SettledSplitRight(op, t, p, q);
    } else {
      if p != q { JoinSlotsSettles(op, t, p, q); }
      forall p', q' | p <= p' && q <= q' && Operand(op, t, p') && Operand(op, t, q') && p' != q'
        ensures SettledPair(op, t, p', q')
      {
        OperandEnds(op, t, p, p');
        OperandEnds(op, t, q, q');
      }
    }
  }

  lemma {:induction false} JoinSlotsSettles(op: Op, t: Expr, p: Path, q: Path)
    requires IsOp(t, op) && Operand(op, t, p) && Operand(op, t, q) && p != q
    requires JoinSlots(op, t, p, q).1 == 0
    ensures JoinSlots(op, t, p, q).0 == t && SettledPair(op, t, p, q)
    decreases Size(t), 0, 0
  {
    var a := At(op, t, p);
    PutOperand(op, t, p, a);
    if IsAnyOp(a) { Dups1Settles(OpOf(a), a, [], []); }
  }

  /** expr_eliminate_dups stops only when no two operands of any level can be joined. */
  lemma {:induction false} ElimDupsIrreducible(e: Expr)
    ensures Irreducible(ElimDups(e))
    decreases Size(e)
  {
    if Pass(e).1 == 0 {
      if IsAnyOp(e) { Dups1Settles(OpOf(e), e, [], []); }
    } else {
      PassShrinks(e);
      ElimDupsIrreducible(ElimYN(Pass(e).0));
    }
  }
}
