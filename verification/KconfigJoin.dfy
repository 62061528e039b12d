/** expr_join_or and expr_join_and: two operands of one level replaced by one. */
module KconfigJoin {
  import opened KconfigExpr
  import opened KconfigEq
  import opened KconfigTransform

  predicate JoinCandidate(e: Expr) {
    e.ESym? || e.ENot? || (e.ECmp? && (e.op.Equal? || e.op.Unequal?))
  }

  predicate IsCmp(e: Expr, op: CmpOp) { e.ECmp? && e.op == op }

  /** The symbol an operand is about; the second operand may negate a symbol only. */
  function JoinSymbol(e: Expr, negatedCmp: bool): Option<Symbol> {
    match e
    case ESym(s) => Some(s)
    case ECmp(_, l, _) => Some(l)
    case ENot(x) =>
      if x.ESym? then Some(x.s)
      else if negatedCmp && x.ECmp? && (x.op.Equal? || x.op.Unequal?) then Some(x.ls)
      else None
    case EAnd(_, _) => None
    case EOr(_, _) => None
  }

  /** The common bool or tristate symbol of two candidates, if there is one. */
  function CommonSymbol(a: Expr, b: Expr): Option<Symbol> {
    if !JoinCandidate(a) || !JoinCandidate(b) then None else
    var s, t := JoinSymbol(a, true), JoinSymbol(b, false);
    if s.None? || s != t || !IsTri(s.value) then None else s
  }

  predicate Pair(a: Expr, b: Expr, op: CmpOp, c: Symbol, d: Symbol) {
    IsCmp(a, op) && IsCmp(b, op) && ((a.rs == c && b.rs == d) || (a.rs == d && b.rs == c))
  }

  predicate SymbolAnd(a: Expr, b: Expr, op: CmpOp, c: Symbol) {
    (a.ESym? && IsCmp(b, op) && b.rs == c) || (b.ESym? && IsCmp(a, op) && a.rs == c)
  }

  function JoinOr(a: Expr, b: Expr): Option<Expr> {
    if ExprEq(a, b) then Some(a) else
    var s := CommonSymbol(a, b);
    if s.None? then None
    else if s.value.ty == Tristate then
      if Pair(a, b, Equal, SymYes, SymMod) then Some(ECmp(Unequal, s.value, SymNo))
      else if Pair(a, b, Equal, SymYes, SymNo) then Some(ECmp(Unequal, s.value, SymMod))
      else if Pair(a, b, Equal, SymMod, SymNo) then Some(ECmp(Unequal, s.value, SymYes))
      else None
    else if (a.ENot? && a.e.ESym? && b.ESym?) || (b.ENot? && b.e.ESym? && a.ESym?) then Some(ESym(SymYes))
    else None
  }

  /** (a='b') && (a!='c') for constants b and c. */
  function JoinConst(s: Symbol, b: Symbol, c: Symbol): Expr {
    if b != c then ECmp(Equal, s, b) else ESym(SymNo)
  }

  function JoinAnd(a: Expr, b: Expr): Option<Expr> {
    if ExprEq(a, b) then Some(a) else
    var s := CommonSymbol(a, b);
    if s.None? then None
    else if SymbolAnd(a, b, Equal, SymYes) then Some(ECmp(Equal, s.value, SymYes))
    else if SymbolAnd(a, b, Unequal, SymNo) then Some(ESym(s.value))
    else if SymbolAnd(a, b, Unequal, SymMod) then Some(ECmp(Equal, s.value, SymYes))
    else if s.value.ty == Tristate then
      if IsCmp(a, Equal) && IsCmp(b, Unequal) && IsConst(a.rs) && IsConst(b.rs)
        then Some(JoinConst(s.value, a.rs, b.rs))
      else if IsCmp(a, Unequal) && IsCmp(b, Equal) && IsConst(a.rs) && IsConst(b.rs)
        then Some(JoinConst(s.value, b.rs, a.rs))
      else if Pair(a, b, Unequal, SymYes, SymNo) then Some(ECmp(Equal, s.value, SymMod))
      else if Pair(a, b, Unequal, SymYes, SymMod) then Some(ECmp(Equal, s.value, SymNo))
      else if Pair(a, b, Unequal, SymMod, SymNo) then Some(ECmp(Equal, s.value, SymYes))
      else None
    else None
  }

  function Join(op: Op, a: Expr, b: Expr): Option<Expr> { if op.And? then JoinAnd(a, b) else JoinOr(a, b) }

  // ----- what a constant means to a tristate symbol -----

  /** Constant `c` compares equal to a tristate of value `t`. */
  function Denotes(c: Symbol, t: Tri, env: Env): bool
    requires IsConst(c)
  {
    match c
    case SymYes => t == 2
    case SymMod => t == 1
    case SymNo => t == 0
    case SymConst(x) =>
      var p := ParseText(x, Unknown, env);
      if p.PString? then TriText(t) == x else if p.PUnsigned? then t == p.u else t == p.s
  }

  lemma CompareConst(a: Symbol, c: Symbol, env: Env)
    requires IsTri(a) && IsConst(c)
    ensures Compare(a, c, env) == 0 <==> Denotes(c, env.tri(a), env)
  {
    StrcmpZero(Text(a, env), Text(c, env));
    assert "n"[0] == 'n' && "m"[0] == 'm' && "y"[0] == 'y';
  }

  predicate Apart(b: Symbol, c: Symbol, env: Env)
    requires IsConst(b) && IsConst(c)
  {
    forall t | 0 <= t <= 2 :: !(Denotes(b, t, env) && Denotes(c, t, env))
  }

  // ----- which constants a tristate symbol is compared with -----

  /** Pairs of a tristate symbol and a constant that it is compared with for equality. */
  type Pairs = iset<(Symbol, Symbol)>

  /** All such comparisons in the expression are among these. */
  predicate Confined(e: Expr, ps: Pairs) {
    match e
    case ESym(_) => true
    case ENot(x) => Confined(x, ps)
    case EAnd(l, r) => Confined(l, ps) && Confined(r, ps)
    case EOr(l, r) => Confined(l, ps) && Confined(r, ps)
    case ECmp(op, l, r) => (op.Equal? || op.Unequal?) && TypeOf(l) == Tristate && IsConst(r) ==> (l, r) in ps
  }

  /** Different constants compared with one symbol never denote the same value; and with one of y, m and n the
      other two are there as well, since joining may bring them in. */
  ghost predicate ClashFree(ps: Pairs, env: Env) {
    && (forall s, b :: (s, b) in ps ==> IsConst(b))
    && (forall s, b, c :: (s, b) in ps && (s, c) in ps ==> b == c || Apart(b, c, env))
    && (forall s, b :: (s, b) in ps && !b.SymConst? ==> (s, SymYes) in ps && (s, SymMod) in ps && (s, SymNo) in ps)
  }

  /** The expression compares the tristate symbol with the constant for equality. */
  predicate Compares(e: Expr, s: Symbol, c: Symbol) {
    match e
    case ESym(_) => false
    case ENot(x) => Compares(x, s, c)
    case EAnd(l, r) => Compares(l, s, c) || Compares(r, s, c)
    case EOr(l, r) => Compares(l, s, c) || Compares(r, s, c)
    case ECmp(op, l, r) =>
      (op.Equal? || op.Unequal?) && TypeOf(l) == Tristate && IsConst(r) && l == s && r == c
  }

  predicate DenotesNone(c: Symbol, env: Env)
    requires IsConst(c)
  {
    !Denotes(c, 0, env) && !Denotes(c, 1, env) && !Denotes(c, 2, env)
  }

  lemma {:induction false} ComparesConst(e: Expr, s: Symbol, c: Symbol)
    requires Compares(e, s, c)
    ensures IsConst(c)
  {
    match e
    case ENot(x) => ComparesConst(x, s, c);
    case EAnd(l, r) => if Compares(l, s, c) { ComparesConst(l, s, c); } else { ComparesConst(r, s, c); }
    case EOr(l, r) => if Compares(l, s, c) { ComparesConst(l, s, c); } else { ComparesConst(r, s, c); }
    case ECmp(_, _, _) =>
    case ESym(_) =>
  }

  /** No two constants of the expression clash: different ones that are compared with one symbol never denote
      the same value, and one that denotes a value is not compared along with y, m or n. */
  ghost predicate NoClash(e: Expr, env: Env) {
    forall s, b, c :: Compares(e, s, b) && Compares(e, s, c) && IsConst(b) && IsConst(c) ==>
      (b == c || Apart(b, c, env)) && (b.SymConst? && !c.SymConst? ==> DenotesNone(b, env))
  }

  ghost predicate ComparesTri(e: Expr, s: Symbol) { exists c :: Compares(e, s, c) && !c.SymConst? }

  /** What the expression compares, and y, m and n with any of them. */
  ghost function OwnPairs(e: Expr): Pairs {
    iset s: Symbol, c: Symbol | Compares(e, s, c) || (IsConst(c) && !c.SymConst? && ComparesTri(e, s)) :: (s, c)
  }

  lemma OwnClashFree(e: Expr, env: Env)
    requires NoClash(e, env)
    ensures ClashFree(OwnPairs(e), env) && Confined(e, OwnPairs(e))
  {
    forall s, b | (s, b) in OwnPairs(e) ensures IsConst(b) {
      if Compares(e, s, b) { ComparesConst(e, s, b); }
    }
    forall s, b, c | (s, b) in OwnPairs(e) && (s, c) in OwnPairs(e) ensures b == c || Apart(b, c, env) {
      OwnApart(e, s, b, c, env);
    }
    forall s, b | (s, b) in OwnPairs(e) && !b.SymConst?
      ensures (s, SymYes) in OwnPairs(e) && (s, SymMod) in OwnPairs(e) && (s, SymNo) in OwnPairs(e)
    {
    }
    OwnConfined(e, OwnPairs(e));
  }

  lemma OwnApart(e: Expr, s: Symbol, b: Symbol, c: Symbol, env: Env)
    requires NoClash(e, env) && (s, b) in OwnPairs(e) && (s, c) in OwnPairs(e) && IsConst(b) && IsConst(c)
    ensures b == c || Apart(b, c, env)
  {
    if b.SymConst? && !c.SymConst? {
      var d :| Compares(e, s, d) && !d.SymConst?;
      ComparesConst(e, s, d);
      assert DenotesNone(b, env);
    } else if !b.SymConst? && c.SymConst? {
      var d :| Compares(e, s, d) && !d.SymConst?;
      ComparesConst(e, s, d);
      assert DenotesNone(c, env);
    }
  }

  lemma {:induction false} OwnConfined(e: Expr, ps: Pairs)
    requires forall s, c :: Compares(e, s, c) ==> (s, c) in ps
    ensures Confined(e, ps)
  {
    match e
    case ESym(_) =>
    case ENot(x) => OwnConfined(x, ps);
    case EAnd(l, r) => OwnConfined(l, ps); OwnConfined(r, ps);
    case EOr(l, r) => OwnConfined(l, ps); OwnConfined(r, ps);
    case ECmp(_, l, r) => if TypeOf(l) == Tristate && IsConst(r) { assert Compares(e, l, r) ==> (l, r) in ps; }
  }

  /** No constant but y, m and n that a tristate symbol is compared with for equality denotes a value. */
  predicate PlainConsts(e: Expr, env: Env) {
    match e
    case ESym(_) => true
    case ENot(x) => PlainConsts(x, env)
    case EAnd(l, r) => PlainConsts(l, env) && PlainConsts(r, env)
    case EOr(l, r) => PlainConsts(l, env) && PlainConsts(r, env)
    case ECmp(op, l, r) =>
      (op.Equal? || op.Unequal?) && TypeOf(l) == Tristate && r.SymConst? ==> DenotesNone(r, env)
  }

  ghost function PlainPairs(env: Env): Pairs {
    iset s: Symbol, c: Symbol | IsConst(c) && (c.SymConst? ==> DenotesNone(c, env)) :: (s, c)
  }

  lemma PlainClashFree(env: Env)
    ensures ClashFree(PlainPairs(env), env)
  {
  }

  lemma {:induction false} PlainConfined(e: Expr, env: Env)
    ensures PlainConsts(e, env) <==> Confined(e, PlainPairs(env))
  {
    match e
    case ESym(_) =>
    case ENot(x) => PlainConfined(x, env);
    case EAnd(l, r) => PlainConfined(l, env); PlainConfined(r, env);
    case EOr(l, r) => PlainConfined(l, env); PlainConfined(r, env);
    case ECmp(_, _, _) =>
  }

  /** The environment with one symbol changed. */
  function With(env: Env, a: Symbol, t: Tri): Env {
    env.(tri := (s: Symbol) => var v: Tri := if s == a then t else env.tri(s); v)
  }

  /** The constant rule assumes that different constant symbols are different values.  It is right for
      every value of the tristate exactly when the constants are the same symbol or never denote the same
      tristate. */
  lemma JoinConstExact(a: Symbol, b: Symbol, c: Symbol, env: Env)
    requires a.SymConfig? && a.ty == Tristate && IsConst(b) && IsConst(c)
    ensures
      (forall t: Tri :: Eval(JoinConst(a, b, c), With(env, a, t))
                     == Eval(EAnd(ECmp(Equal, a, b), ECmp(Unequal, a, c)), With(env, a, t)))
      <==> b == c || Apart(b, c, env)
  {
    forall t: Tri
      ensures Eval(JoinConst(a, b, c), With(env, a, t))
        == Eval(EAnd(ECmp(Equal, a, b), ECmp(Unequal, a, c)), With(env, a, t))
        <==> b == c || !(Denotes(b, t, env) && Denotes(c, t, env))
    {
      var env' := With(env, a, t);
      CompareConst(a, b, env');
      CompareConst(a, c, env');
      assert Denotes(b, t, env') == Denotes(b, t, env) && Denotes(c, t, env') == Denotes(c, t, env);
    }
    if b != c && !Apart(b, c, env) {
      var t: int :| 0 <= t <= 2 && Denotes(b, t, env) && Denotes(c, t, env);
      var t': Tri := t;
      assert Eval(JoinConst(a, b, c), With(env, a, t'))
        != Eval(EAnd(ECmp(Equal, a, b), ECmp(Unequal, a, c)), With(env, a, t'));
    }
  }

  /** For instance A=y && A!="2" is rewritten to A=y, though it is never y. */
  lemma JoinConstFails(a: Symbol, env: Env)
    requires a.SymConfig? && a.ty == Tristate && env.tri(a) == 2
    requires env.parse("2", Unknown) == PSigned(2)
    ensures JoinAnd(ECmp(Equal, a, SymYes), ECmp(Unequal, a, SymConst("2"))) == Some(ECmp(Equal, a, SymYes))
    ensures Eval(ECmp(Equal, a, SymYes), env) == 2
    ensures Eval(EAnd(ECmp(Equal, a, SymYes), ECmp(Unequal, a, SymConst("2"))), env) == 0
  {
    assert "2"[0] == '2' && "n"[0] == 'n' && "m"[0] == 'm' && "y"[0] == 'y';
    CompareConst(a, SymYes, env);
    CompareConst(a, SymConst("2"), env);
  }

  // ----- soundness -----

  lemma CmpValue(s: Symbol, c: Symbol, env: Env)
    requires IsTri(s) && IsConst(c)
    ensures Eval(ECmp(Equal, s, c), env) == if Denotes(c, env.tri(s), env) then 2 else 0
    ensures Eval(ECmp(Unequal, s, c), env) == if Denotes(c, env.tri(s), env) then 0 else 2
  {
    CompareConst(s, c, env);
  }

  lemma JoinOrSound(a: Expr, b: Expr, env: Env)
    requires EnvOk(env) && JoinOr(a, b).Some?
    ensures Eval(JoinOr(a, b).value, env) == TriOr(Eval(a, env), Eval(b, env))
  {
    if ExprEq(a, b) {
      ExprEqSound(a, b, env);
    } else {
      var s := CommonSymbol(a, b).value;
      if s.ty == Tristate { PairOrSound(a, b, s, env); }
    }
  }

  lemma PairOrSound(a: Expr, b: Expr, s: Symbol, env: Env)
    requires EnvOk(env) && CommonSymbol(a, b) == Some(s)
    ensures Pair(a, b, Equal, SymYes, SymMod) ==>
      Eval(ECmp(Unequal, s, SymNo), env) == TriOr(Eval(a, env), Eval(b, env))
    ensures Pair(a, b, Equal, SymYes, SymNo) ==>
      Eval(ECmp(Unequal, s, SymMod), env) == TriOr(Eval(a, env), Eval(b, env))
    ensures Pair(a, b, Equal, SymMod, SymNo) ==>
      Eval(ECmp(Unequal, s, SymYes), env) == TriOr(Eval(a, env), Eval(b, env))
  {
    CmpValue(s, SymYes, env);
    CmpValue(s, SymMod, env);
    CmpValue(s, SymNo, env);
  }

  lemma SymbolAndSound(a: Expr, b: Expr, s: Symbol, env: Env)
    requires EnvOk(env) && CommonSymbol(a, b) == Some(s)
    ensures SymbolAnd(a, b, Equal, SymYes) ==> Eval(ECmp(Equal, s, SymYes), env) == TriAnd(Eval(a, env), Eval(b, env))
    ensures SymbolAnd(a, b, Unequal, SymNo) ==> Eval(ESym(s), env) == TriAnd(Eval(a, env), Eval(b, env))
    ensures SymbolAnd(a, b, Unequal, SymMod) ==> Eval(ECmp(Equal, s, SymYes), env) == TriAnd(Eval(a, env), Eval(b, env))
  {
    CmpValue(s, SymYes, env);
    CmpValue(s, SymMod, env);
    CmpValue(s, SymNo, env);
  }

  lemma PairAndSound(a: Expr, b: Expr, s: Symbol, env: Env)
    requires EnvOk(env) && CommonSymbol(a, b) == Some(s)
    ensures Pair(a, b, Unequal, SymYes, SymNo) ==>
      Eval(ECmp(Equal, s, SymMod), env) == TriAnd(Eval(a, env), Eval(b, env))
    ensures Pair(a, b, Unequal, SymYes, SymMod) ==>
      Eval(ECmp(Equal, s, SymNo), env) == TriAnd(Eval(a, env), Eval(b, env))
    ensures Pair(a, b, Unequal, SymMod, SymNo) ==>
      Eval(ECmp(Equal, s, SymYes), env) == TriAnd(Eval(a, env), Eval(b, env))
  {
    CmpValue(s, SymYes, env);
    CmpValue(s, SymMod, env);
    CmpValue(s, SymNo, env);
  }

  lemma ConstAndSound(s: Symbol, b: Symbol, c: Symbol, ps: Pairs, env: Env)
    requires s.SymConfig? && s.ty == Tristate && IsConst(b) && IsConst(c)
    requires ClashFree(ps, env) && Confined(ECmp(Equal, s, b), ps) && Confined(ECmp(Unequal, s, c), ps)
    ensures Eval(JoinConst(s, b, c), env) == TriAnd(Eval(ECmp(Equal, s, b), env), Eval(ECmp(Unequal, s, c), env))
  {
    assert (s, b) in ps && (s, c) in ps;
    CmpValue(s, b, env);
    CmpValue(s, c, env);
  }

  lemma JoinAndSound(a: Expr, b: Expr, ps: Pairs, env: Env)
    requires EnvOk(env) && ClashFree(ps, env) && Confined(a, ps) && Confined(b, ps) && JoinAnd(a, b).Some?
    ensures Eval(JoinAnd(a, b).value, env) == TriAnd(Eval(a, env), Eval(b, env))
  {
    if ExprEq(a, b) {
      ExprEqSound(a, b, env);
    } else {
      var s := CommonSymbol(a, b).value;
      SymbolAndSound(a, b, s, env);
      PairAndSound(a, b, s, env);
      if s.ty == Tristate && IsCmp(a, Equal) && IsCmp(b, Unequal) && IsConst(a.rs) && IsConst(b.rs) {
        ConstAndSound(s, a.rs, b.rs, ps, env);
      }
      if s.ty == Tristate && IsCmp(a, Unequal) && IsCmp(b, Equal) && IsConst(a.rs) && IsConst(b.rs) {
        ConstAndSound(s, b.rs, a.rs, ps, env);
      }
    }
  }

  /** The joined operand has the value of the two it replaces. */
  lemma JoinSound(op: Op, a: Expr, b: Expr, ps: Pairs, env: Env)
    requires EnvOk(env) && ClashFree(ps, env) && Confined(a, ps) && Confined(b, ps) && Join(op, a, b).Some?
    ensures Eval(Join(op, a, b).value, env) == Apply(op, Eval(a, env), Eval(b, env))
  {
    if op.And? { JoinAndSound(a, b, ps, env); } else { JoinOrSound(a, b, env); }
  }

  /** Its shape: no larger than the two together, still an operand of the level, and within whatever
      normal form the operands have. */
  lemma JoinShape(op: Op, a: Expr, b: Expr)
    requires Join(op, a, b).Some? && !IsOp(a, op)
    ensures var j := Join(op, a, b).value;
      && Size(j) <= Size(a) && !IsOp(j, op)
      && (NotOnSymbols(a) ==> NotOnSymbols(j))
  {
  }

  lemma JoinConfined(op: Op, a: Expr, b: Expr, ps: Pairs, env: Env)
    requires Join(op, a, b).Some? && ClashFree(ps, env) && Confined(a, ps) && Confined(b, ps)
    ensures Confined(Join(op, a, b).value, ps)
  {
  }
}
