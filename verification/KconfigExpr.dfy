/** Kconfig symbols, expressions and their three-valued meaning. */
module KconfigExpr {

  /** n = 0, m = 1, y = 2. */
  type Tri = t: int | 0 <= t <= 2

  const NO: Tri := 0
  const MOD: Tri := 1
  const YES: Tri := 2

  function TriAnd(a: Tri, b: Tri): Tri { if a < b then a else b }

  function TriOr(a: Tri, b: Tri): Tri { if a > b then a else b }

  function TriNot(a: Tri): Tri { 2 - a }

  datatype Option<+T> = None | Some(value: T)

  datatype SymType = Unknown | Boolean | Tristate | Int | Hex | String

  /** A symbol by identity.  Other constants are interned by their text, so SymConst never holds "y",
      "m" or "n". */
  datatype Symbol =
    | SymYes | SymMod | SymNo
    | SymConst(text: string)
    | SymConfig(id: nat, ty: SymType)

  function TypeOf(s: Symbol): SymType { if s.SymConfig? then s.ty else Unknown }

  predicate IsConst(s: Symbol) { !s.SymConfig? }

  /** A bool or tristate configuration symbol. */
  predicate IsTri(s: Symbol) { s.SymConfig? && (s.ty.Boolean? || s.ty.Tristate?) }

  datatype CmpOp = Equal | Unequal | Lth | Leq | Gth | Geq

  /** A null expression pointer is Option.None; it counts as y. */
  datatype Expr =
    | ESym(s: Symbol)
    | ENot(e: Expr)
    | EAnd(l: Expr, r: Expr)
    | EOr(l: Expr, r: Expr)
    | ECmp(op: CmpOp, ls: Symbol, rs: Symbol)

  /** What strtoll or strtoull makes of a whole text. */
  datatype Parsed = PString | PSigned(s: int) | PUnsigned(u: nat)

  /** The values of all symbols.  `parse` stands for the number parsers of the C library. */
  datatype Env = Env(tri: Symbol -> Tri, text: Symbol -> string, parse: (string, SymType) -> Parsed)

  function TriText(t: Tri): string { if t == 0 then "n" else if t == 1 then "m" else "y" }

  function Value(s: Symbol, env: Env): Tri {
    match s
    case SymYes => 2
    case SymMod => 1
    case SymNo => 0
    case SymConst(_) => 0
    case SymConfig(_, ty) => if ty.Boolean? || ty.Tristate? then env.tri(s) else 0
  }

  function Text(s: Symbol, env: Env): string {
    match s
    case SymYes => "y"
    case SymMod => "m"
    case SymNo => "n"
    case SymConst(t) => t
    case SymConfig(_, ty) => if ty.Boolean? || ty.Tristate? then TriText(env.tri(s)) else env.text(s)
  }

  /** Bool symbols are never m.  The evaluator guarantees this. */
  ghost predicate EnvOk(env: Env) {
    forall s: Symbol :: s.SymConfig? && s.ty.Boolean? ==> env.tri(s) != 1
  }

  /** strcmp, as -1, 0 or 1. */
  function Strcmp(a: string, b: string): int {
    if a == [] then (if b == [] then 0 else -1)
    else if b == [] then 1
    else if a[0] < b[0] then -1
    else if a[0] > b[0] then 1
    else Strcmp(a[1..], b[1..])
  }

  lemma {:induction false} StrcmpZero(a: string, b: string)
    ensures Strcmp(a, b) == 0 <==> a == b
  {
    if a != [] && b != [] && a[0] == b[0] {
      StrcmpZero(a[1..], b[1..]);
      assert a == [a[0]] + a[1..] && b == [b[0]] + b[1..];
    }
  }

  /** expr_parse_string.  The words y, m and n hold no digits, so no number parser accepts them. */
  function ParseText(str: string, ty: SymType, env: Env): Parsed {
    if ty.Boolean? || ty.Tristate? then
      PSigned(if str == "n" then 0 else if str == "m" then 1 else if str == "y" then 2 else -1)
    else if str == "n" || str == "m" || str == "y" then PString
    else env.parse(str, ty)
  }

  function AsUnsigned(p: Parsed): int
    requires !p.PString?
  {
    if p.PUnsigned? then p.u else if p.s >= 0 then p.s else p.s + 0x1_0000_0000_0000_0000
  }

  function Sign(a: int, b: int): int { if a < b then -1 else if a > b then 1 else 0 }

  /** The three-way comparison behind every relational operator. */
  function Compare(l: Symbol, r: Symbol, env: Env): int {
    var a, b := Text(l, env), Text(r, env);
    var strings := TypeOf(l) == String && TypeOf(r) == String;
    var k := if strings then PString else ParseText(a, TypeOf(l), env);
    var m := if strings then PString else ParseText(b, TypeOf(r), env);
    if k.PString? || m.PString? then Strcmp(a, b)
    else if k.PUnsigned? || m.PUnsigned? then Sign(AsUnsigned(k), AsUnsigned(m))
    else Sign(k.s, m.s)
  }

  function Holds(op: CmpOp, res: int): bool {
    match op
    case Equal => res == 0
    case Unequal => res != 0
    case Lth => res < 0
    case Leq => res <= 0
    case Gth => res > 0
    case Geq => res >= 0
  }

  /** expr_calc_value, given the values of the symbols. */
  function Eval(e: Expr, env: Env): Tri {
    match e
    case ESym(s) => Value(s, env)
    case ENot(x) => TriNot(Eval(x, env))
    case EAnd(l, r) => TriAnd(Eval(l, env), Eval(r, env))
    case EOr(l, r) => TriOr(Eval(l, env), Eval(r, env))
    case ECmp(op, l, r) => if Holds(op, Compare(l, r, env)) then 2 else 0
  }

  function EvalOpt(e: Option<Expr>, env: Env): Tri {
    if e.None? then 2 else Eval(e.value, env)
  }

  /** Number of nodes. */
  function Size(e: Expr): nat {
    match e
    case ESym(_) => 1
    case ENot(x) => 1 + Size(x)
    case EAnd(l, r) => 1 + Size(l) + Size(r)
    case EOr(l, r) => 1 + Size(l) + Size(r)
    case ECmp(_, _, _) => 1
  }

  /** The two operators that form levels. */
  datatype Op = And | Or

  predicate IsOp(e: Expr, op: Op) { if op.And? then e.EAnd? else e.EOr? }

  predicate IsAnyOp(e: Expr) { e.EAnd? || e.EOr? }

  function OpOf(e: Expr): Op
    requires IsAnyOp(e)
  {
    if e.EAnd? then And else Or
  }

  function Mk(op: Op, l: Expr, r: Expr): Expr { if op.And? then EAnd(l, r) else EOr(l, r) }

  function Apply(op: Op, a: Tri, b: Tri): Tri { if op.And? then TriAnd(a, b) else TriOr(a, b) }

  /** The operand that does not matter: y for &&, n for ||. */
  function Neutral(op: Op): Expr { ESym(if op.And? then SymYes else SymNo) }

  predicate IsYN(e: Expr) { e.ESym? && (e.s.SymYes? || e.s.SymNo?) }

  lemma ApplyAC(op: Op, a: Tri, b: Tri, c: Tri, d: Tri)
    ensures Apply(op, Apply(op, a, b), Apply(op, c, d)) == Apply(op, Apply(op, a, c), Apply(op, b, d))
  {
  }

  /** Comparing a bool or tristate symbol with y, m or n is comparing values. */
  lemma CompareTri(a: Symbol, c: Symbol, env: Env)
    requires IsTri(a) && (c.SymYes? || c.SymMod? || c.SymNo?)
    ensures Compare(a, c, env) == 0 <==> env.tri(a) == Value(c, env)
  {
    StrcmpZero(Text(a, env), Text(c, env));
    assert "n"[0] == 'n' && "m"[0] == 'm' && "y"[0] == 'y';
  }

  // ----- expr_alloc_and and expr_alloc_or on possibly null operands -----

  function AllocAnd(a: Option<Expr>, b: Option<Expr>): Option<Expr> {
    if a.None? then b else if b.None? then a else Some(EAnd(a.value, b.value))
  }

  function AllocOr(a: Option<Expr>, b: Option<Expr>): Option<Expr> {
    if a.None? then b else if b.None? then a else Some(EOr(a.value, b.value))
  }

  /** Null is y, and y is neutral for &&: expr_alloc_and is exact. */
  lemma AllocAndExact(a: Option<Expr>, b: Option<Expr>, env: Env)
    ensures EvalOpt(AllocAnd(a, b), env) == TriAnd(EvalOpt(a, env), EvalOpt(b, env))
  {
  }

  /** Null is y, but expr_alloc_or drops it: it is exact just when no operand is lost, or the one that
      is kept is y anyway. */
  lemma AllocOrExact(a: Option<Expr>, b: Option<Expr>, env: Env)
    ensures EvalOpt(AllocOr(a, b), env) == TriOr(EvalOpt(a, env), EvalOpt(b, env))
       <==> (a.Some? && b.Some?) || (a.None? && b.None?) || EvalOpt(AllocOr(a, b), env) == 2
  {
  }
}
