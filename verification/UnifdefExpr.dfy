/** Conditions of #if lines: their tokens, their grammar, and what they mean in C. */
module UnifdefExpr {

  /** A word is a run of letters, digits and underscores.  `Other` is anything else but the operators. */
  datatype Token =
    | Word(text: string)
    | Bang | LParen | RParen
    | OrOr | AndAnd | EqEq | NotEq | Le | Ge | Lt | Gt
    | Other(c: char)

  type Tokens = seq<Token>

  datatype BinOp = OpOr | OpAnd | OpEq | OpNe | OpLe | OpGe | OpLt | OpGt

  /** The precedence table: the operators of each level, loosest first. */
  function OpAt(level: nat, t: Token): BinOpt {
    match t
    case OrOr => if level == 0 then Op(OpOr) else NoOp
    case AndAnd => if level == 1 then Op(OpAnd) else NoOp
    case EqEq => if level == 2 then Op(OpEq) else NoOp
    case NotEq => if level == 2 then Op(OpNe) else NoOp
    case Le => if level == 3 then Op(OpLe) else NoOp
    case Ge => if level == 3 then Op(OpGe) else NoOp
    case Lt => if level == 3 then Op(OpLt) else NoOp
    case Gt => if level == 3 then Op(OpGt) else NoOp
    case _ => NoOp
  }

  datatype BinOpt = NoOp | Op(op: BinOp)

  function OpToken(op: BinOp): Token {
    match op
    case OpOr => OrOr
    case OpAnd => AndAnd
    case OpEq => EqEq
    case OpNe => NotEq
    case OpLe => Le
    case OpGe => Ge
    case OpLt => Lt
    case OpGt => Gt
  }

  function LevelOf(op: BinOp): nat {
    match op
    case OpOr => 0
    case OpAnd => 1
    case OpEq => 2
    case OpNe => 2
    case _ => 3
  }

  /** Below the table stand the operands. */
  const UNARY: nat := 4

  /** `Defined` without a name stands for a `defined` that no word follows. */
  datatype Cond =
    | Number(text: string)
    | Defined(name: string, paren: bool)
    | Sym(name: string, args: Tokens)
    | Not(e: Cond)
    | Paren(e: Cond)
    | Bin(op: BinOp, l: Cond, r: Cond)

  predicate Numeral(text: string) { text != "" && '0' <= text[0] <= '9' }

  // ----- macro arguments -----

  /** How many tokens it takes to get from `level` open parentheses to none; 0 if that does not happen. */
  function Matching(ts: Tokens, level: nat): (n: nat)
    requires level > 0 || (ts != [] && ts[0].LParen?)
    ensures n <= |ts|
  {
    if ts == [] then 0
    else
      var l := if ts[0].LParen? then level + 1 else if ts[0].RParen? then level - 1 else level;
      if l == 0 then 1
      else
        var n := Matching(ts[1..], l);
        if n == 0 then 0 else n + 1
  }

  /** The arguments that skipargs skips: a balanced parenthesis, or nothing. */
  function Args(ts: Tokens): Tokens {
    if ts == [] || !ts[0].LParen? then [] else ts[..Matching(ts, 0)]
  }

  // ----- grammar -----

  /** The symbols that -U declares undefined: they take no arguments. */
  type Undefs = set<string>

  function Show(e: Cond): Tokens {
    match e
    case Number(t) => [Word(t)]
    case Defined(name, paren) =>
      var w := if name == "" then [] else [Word(name)];
      if paren then [Word("defined"), LParen] + w + [RParen] else [Word("defined")] + w
    case Sym(name, args) => [Word(name)] + args
    case Not(x) => [Bang] + Show(x)
    case Paren(x) => [LParen] + Show(x) + [RParen]
    case Bin(op, l, r) => Show(l) + [OpToken(op)] + Show(r)
  }

  /** The conditions of a level of precedence; each level groups to the left. */
  predicate Fits(level: nat, e: Cond, u: Undefs)
    decreases e
  {
    match e
    case Number(t) => Numeral(t)
    case Defined(name, _) => true
    case Sym(name, args) =>
      name != "" && !Numeral(name) && name != "defined" && Args(args) == args && (name in u ==> args == [])
    case Not(x) => Fits(UNARY, x, u)
    case Paren(x) => Fits(0, x, u)
    case Bin(op, l, r) => level <= LevelOf(op) && Fits(LevelOf(op), l, u) && Fits(LevelOf(op) + 1, r, u)
  }

  // ----- meaning -----

  /** What the conditions may depend on.  A macro used with arguments may mean anything. */
  datatype World = World(defined_: string -> bool, sym: (string, Tokens) -> int, num: string -> int)

  function Bool(b: bool): int { if b then 1 else 0 }

  function Apply(op: BinOp, a: int, b: int): int {
    match op
    case OpOr => Bool(a != 0 || b != 0)
    case OpAnd => Bool(a != 0 && b != 0)
    case OpEq => Bool(a == b)
    case OpNe => Bool(a != b)
    case OpLe => Bool(a <= b)
    case OpGe => Bool(a >= b)
    case OpLt => Bool(a < b)
    case OpGt => Bool(a > b)
  }

  /** The value of a condition, section 6.10.1 of ISO/IEC 9899:1999. */
  function Meaning(e: Cond, w: World): int {
    match e
    case Number(t) => w.num(t)
    case Defined(name, _) => Bool(w.defined_(name))
    case Sym(name, args) => w.sym(name, args)
    case Not(x) => Bool(Meaning(x, w) == 0)
    case Paren(x) => Meaning(x, w)
    case Bin(op, l, r) => Apply(op, Meaning(l, w), Meaning(r, w))
  }

  // ----- parsing -----

  datatype Parsed = Fail | Read(e: Cond, rest: Tokens)

  /** The condition of this level that the tokens start with, as long as possible. */
  function Parse(level: nat, ts: Tokens, u: Undefs): (r: Parsed)
    requires level <= UNARY
    ensures r.Read? ==> |r.rest| < |ts|
    decreases |ts|, UNARY - level, 1
  {
    if level == UNARY then ParseUnary(ts, u)
    else
      var first := Parse(level + 1, ts, u);
      if first.Fail? then Fail else ParseMore(level, first.e, first.rest, u)
  }

  /** The operators of a level, and their right operands, behind a left operand. */
  function ParseMore(level: nat, l: Cond, ts: Tokens, u: Undefs): (r: Parsed)
    requires level < UNARY
    ensures r.Read? ==> |r.rest| <= |ts|
    decreases |ts|, UNARY - level, 0
  {
    if ts == [] || OpAt(level, ts[0]).NoOp? then Read(l, ts)
    else
      var next := Parse(level + 1, ts[1..], u);
      if next.Fail? then Fail else ParseMore(level, Bin(OpAt(level, ts[0]).op, l, next.e), next.rest, u)
  }

  function ParseUnary(ts: Tokens, u: Undefs): (r: Parsed)
    ensures r.Read? ==> |r.rest| < |ts|
    decreases |ts|, 0, 0
  {
    if ts == [] then Fail
    else
      match ts[0]
      case Bang =>
        var x := ParseUnary(ts[1..], u);
        if x.Fail? then Fail else Read(Not(x.e), x.rest)
      case LParen =>
        var x := Parse(0, ts[1..], u);
        if x.Fail? || x.rest == [] || !x.rest[0].RParen? then Fail else Read(Paren(x.e), x.rest[1..])
      case Word(text) =>
        if text == "" then Fail
        else if Numeral(text) then Read(Number(text), ts[1..])
        else if text == "defined" then ParseDefined(ts[1..])
        else
          var args := if text in u then [] else Args(ts[1..]);
          Read(Sym(text, args), ts[1 + |args|..])
      case _ => Fail
  }

  /** Behind the word `defined`. */
  function ParseDefined(ts: Tokens): (r: Parsed)
    ensures r.Read? ==> |r.rest| <= |ts|
  {
    var paren := ts != [] && ts[0].LParen?;
    var ts1 := if paren then ts[1..] else ts;
    var named := ts1 != [] && ts1[0].Word? && ts1[0].text != "";
    var name := if named then ts1[0].text else "";
    var ts2 := if named then ts1[1..] else ts1;
    if !paren then Read(Defined(name, false), ts2)
    else if ts2 == [] || !ts2[0].RParen? then Fail
    else Read(Defined(name, true), ts2[1..])
  }
}
