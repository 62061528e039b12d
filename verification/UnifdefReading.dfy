/** How lines are read: tokens and precedence as in C, arguments of macros, and the types of lines. */
module UnifdefReading {
  import opened UnifdefTable
  import opened UnifdefExpr
  import opened UnifdefGrammar
  import opened UnifdefIfEval
  import opened UnifdefFile

  // ----- operators -----

  /** What the operator tokens mean, on values. */
  predicate TokenHolds(t: Token, a: int, b: int) {
    match t
    case OrOr => a != 0 || b != 0
    case AndAnd => a != 0 && b != 0
    case EqEq => a == b
    case NotEq => !(a == b)
    case Le => !(a > b)
    case Ge => !(a < b)
    case Lt => b > a
    case Gt => b < a
    case _ => false
  }

  predicate OperatorToken(t: Token) { t in {OrOr, AndAnd, EqEq, NotEq, Le, Ge, Lt, Gt} }

  /** A condition with one operator between numerals means what the token says, as 0 or 1. */
  lemma TokenMeans(t: Token, a: string, b: string, w: World, u: Undefs)
    requires OperatorToken(t) && Numeral(a) && Numeral(b)
    ensures var r := Parse(0, [Word(a), t, Word(b)], u);
      && r.Read? && r.rest == []
      && Meaning(r.e, w) == if TokenHolds(t, w.num(a), w.num(b)) then 1 else 0
  {
    var op := match t
      case OrOr => OpOr
      case AndAnd => OpAnd
      case EqEq => OpEq
      case NotEq => OpNe
      case Le => OpLe
      case Ge => OpGe
      case Lt => OpLt
      case _ => OpGt;
    var e := Bin(op, Number(a), Number(b));
    assert OpToken(op) == t;
    assert Show(e) + [] == [Word(a), t, Word(b)];
    ShowParses(0, e, [], u);
  }

  /** A negation is 1 for zero and 0 for anything else; parentheses change nothing. */
  lemma NotMeans(a: string, w: World, u: Undefs)
    requires Numeral(a)
    ensures var r := Parse(0, [Bang, Word(a)], u);
      r.Read? && r.rest == [] && Meaning(r.e, w) == if w.num(a) == 0 then 1 else 0
    ensures var r := Parse(0, [LParen, Word(a), RParen], u);
      r.Read? && r.rest == [] && Meaning(r.e, w) == w.num(a)
  {
    assert Show(Not(Number(a))) + [] == [Bang, Word(a)];
    ShowParses(0, Not(Number(a)), [], u);
    assert Show(Paren(Number(a))) + [] == [LParen, Word(a), RParen];
    ShowParses(0, Paren(Number(a)), [], u);
  }

  /** The precedence of C: relations, then equality, then &&, then ||. */
  predicate Tighter(s: Token, t: Token) {
    || (s in {Le, Ge, Lt, Gt} && t in {EqEq, NotEq, AndAnd, OrOr})
    || (s in {EqEq, NotEq} && t in {AndAnd, OrOr})
    || (s == AndAnd && t == OrOr)
  }

  lemma TighterLevel(p: BinOp, q: BinOp)
    ensures Tighter(OpToken(q), OpToken(p)) <==> LevelOf(q) > LevelOf(p)
  {
  }

  /** Of two operators the tighter one takes the operand between them, and the first of equals. */
  lemma PrecedenceOfC(p: BinOp, q: BinOp, a: string, b: string, c: string, u: Undefs)
    requires Numeral(a) && Numeral(b) && Numeral(c)
    ensures Parse(0, [Word(a), OpToken(p), Word(b), OpToken(q), Word(c)], u)
      == Read(if Tighter(OpToken(q), OpToken(p)) then Bin(p, Number(a), Bin(q, Number(b), Number(c)))
              else Bin(q, Bin(p, Number(a), Number(b)), Number(c)), [])
  {
    TighterLevel(p, q);
    var ts := [Word(a), OpToken(p), Word(b), OpToken(q), Word(c)];
    var left, right := Bin(q, Bin(p, Number(a), Number(b)), Number(c)), Bin(p, Number(a), Bin(q, Number(b), Number(c)));
    assert Show(Bin(p, Number(a), Number(b))) == [Word(a), OpToken(p), Word(b)];
    assert Show(Bin(q, Number(b), Number(c))) == [Word(b), OpToken(q), Word(c)];
    assert Show(left) + [] == ts && Show(right) + [] == ts;
    if Tighter(OpToken(q), OpToken(p)) { ShowParses(0, right, [], u); } else { ShowParses(0, left, [], u); }
  }

  // ----- arguments of macros -----

  /** Open parentheses less closed ones. */
  function Balance(ts: Tokens): int {
    if ts == [] then 0
    else Balance(ts[..|ts| - 1]) + if ts[|ts| - 1].LParen? then 1 else if ts[|ts| - 1].RParen? then -1 else 0
  }

  lemma {:induction false} BalanceSplit(a: Tokens, b: Tokens)
    ensures Balance(a + b) == Balance(a) + Balance(b)
  {
    if b == [] {
      assert a + b == a;
    } else {
      assert (a + b)[..|a + b| - 1] == a + b[..|b| - 1];
      BalanceSplit(a, b[..|b| - 1]);
    }
  }

  /** The first place where `level` open parentheses are closed. */
  predicate ClosedFirst(ts: Tokens, level: int, n: nat) {
    0 < n <= |ts| && level + Balance(ts[..n]) == 0 && forall k :: 0 < k < n ==> level + Balance(ts[..k]) > 0
  }

  lemma BalanceHead(ts: Tokens, k: nat)
    requires 0 < k <= |ts|
    ensures Balance(ts[..k])
      == (if ts[0].LParen? then 1 else if ts[0].RParen? then -1 else 0) + Balance(ts[1..][..k - 1])
  {
    assert ts[..k] == [ts[0]] + ts[1..][..k - 1];
    BalanceSplit([ts[0]], ts[1..][..k - 1]);
    assert [ts[0]][..0] == [];
  }

  lemma {:induction false} MatchingFirst(ts: Tokens, level: nat)
    requires level > 0 || (ts != [] && ts[0].LParen?)
    ensures var n := Matching(ts, level);
      if n > 0 then ClosedFirst(ts, level, n) else forall k :: 0 < k <= |ts| ==> level + Balance(ts[..k]) > 0
  {
    if ts != [] {
      var l := if ts[0].LParen? then level + 1 else if ts[0].RParen? then level - 1 else level;
      forall k | 0 < k <= |ts| ensures level + Balance(ts[..k]) == l + Balance(ts[1..][..k - 1]) {
        BalanceHead(ts, k);
      }
      assert ts[1..][..0] == [];
      if l > 0 {
        MatchingFirst(ts[1..], l);
        var n := Matching(ts[1..], l);
        forall k | 0 < k <= |ts| && (n == 0 || k < n + 1) ensures level + Balance(ts[..k]) > 0 {
          if k > 1 { assert l + Balance(ts[1..][..k - 1]) > 0; }
        }
      } else {
        BalanceHead(ts, 1);
      }
    }
  }

  /** The arguments that are skipped: from a parenthesis right behind the name to the one that closes it, or
      nothing. */
  lemma ArgsExactly(ts: Tokens)
    ensures var a := Args(ts);
      if ts != [] && ts[0].LParen? && exists n :: ClosedFirst(ts, 0, n) then a <= ts && ClosedFirst(ts, 0, |a|)
      else a == []
  {
    if ts != [] && ts[0].LParen? {
      MatchingFirst(ts, 0);
      if n: nat :| ClosedFirst(ts, 0, n) {
        assert 0 + Balance(ts[..n]) == 0;
      }
    }
  }

  /** A name takes the arguments behind it, unless -U declares it undefined. */
  lemma ArgumentsRule(name: string, args: Tokens, c: Config)
    requires SymbolName(name) && Args(args) == args
    ensures ParseUnary([Word(name)] + args, c.Undefs())
      == if name in c.syms && c.syms[name].Undef? then Read(Sym(name, []), args) else Read(Sym(name, args), [])
  {
    var ts := [Word(name)] + args;
    assert ts[1..] == args && ts[1 + |args|..] == [];
  }

  lemma NumeralChars(text: string)
    ensures Numeral(text) <==> text != [] && 48 <= text[0] as int <= 57
  {
  }

  // ----- types of lines -----

  predicate IsKnown(name: string, c: Config) { name != "" && name in c.syms }

  /** #if and #elif lines are decided exactly if their condition is, and keep their dodginess. */
  lemma IfLineRule(ts: Tokens, dodgy: bool, c: Config)
    ensures Classify(Input(IfLine(ts), dodgy), c)
      == Directive(if LineVerdict(ts, c).VTrue? then True else if LineVerdict(ts, c).VFalse? then False else If, dodgy)
    ensures Classify(Input(ElifLine(ts), dodgy), c)
      == Directive(if LineVerdict(ts, c).VTrue? then ElTrue else if LineVerdict(ts, c).VFalse? then ElFalse else Elif,
                   dodgy)
  {
    assert !LineVerdict(ts, c).VError?;
  }

  /** #ifdef and #ifndef lines are decided exactly if their symbol is known and nothing is behind it: an #ifdef is
      true for a symbol of -D, an #ifndef for one of -U; a symbol of -i is left to its own kinds. */
  lemma IfdefRule(name: string, negated: bool, more: bool, dodgy: bool, c: Config)
    ensures var ty := Classify(Input(IfdefLine(name, negated, more), dodgy), c);
      && ty.Directive? && ty.dodgy == dodgy && Opens(ty.kind)
      && (ty.kind == If <==> !IsKnown(name, c) || more)
      && (ty.kind != If ==>
            && (ty.kind in {True, TrueI} <==> (c.syms[name].Undef? <==> negated))
            && (ty.kind in {TrueI, FalseI} <==> name in c.ignored))
  {
  }

  lemma OtherLineRule(blank: bool, dodgy: bool, c: Config)
    ensures Classify(Input(ElseLine, dodgy), c) == Directive(Else, dodgy)
    ensures Classify(Input(EndifLine, dodgy), c) == Directive(Endif, dodgy)
    ensures Classify(Input(OtherLine(blank), dodgy), c) == Plain(blank)
  {
  }
}
