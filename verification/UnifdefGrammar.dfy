/** The parser of unifdef's conditions reads each condition of the grammar, and nothing else. */
module UnifdefGrammar {
  import opened UnifdefExpr

  // ----- what is parsed is what stands there -----

  lemma {:induction false} FitsLooser(level: nat, e: Cond, u: Undefs)
    requires Fits(level + 1, e, u)
    ensures Fits(level, e, u)
  {
  }

  lemma ArgsAgain(ts: Tokens)
    ensures Args(Args(ts)) == Args(ts) && Args(ts) <= ts
  {
    if ts != [] && ts[0].LParen? {
      MatchingPrefix(ts, 0);
      assert ts[..Matching(ts, 0)][..Matching(ts, 0)] == ts[..Matching(ts, 0)];
    }
  }

  /** Whether a parenthesis closes depends only on what is inside it. */
  lemma {:induction false} MatchingPrefix(ts: Tokens, level: nat)
    requires level > 0 || (ts != [] && ts[0].LParen?)
    ensures var n := Matching(ts, level);
      n > 0 ==> (level > 0 || ts[..n][0].LParen?) && Matching(ts[..n], level) == n
  {
    var n := Matching(ts, level);
    if n > 0 {
      var l := if ts[0].LParen? then level + 1 else if ts[0].RParen? then level - 1 else level;
      if l > 0 {
        MatchingPrefix(ts[1..], l);
        assert ts[1..][..n - 1] == ts[..n][1..];
      }
    }
  }

  lemma {:induction false} MatchingExtend(ts: Tokens, level: nat, rest: Tokens)
    requires level > 0 || (ts != [] && ts[0].LParen?)
    requires Matching(ts, level) > 0
    ensures (level > 0 || (ts + rest)[0].LParen?) && Matching(ts + rest, level) == Matching(ts, level)
  {
    var l := if ts[0].LParen? then level + 1 else if ts[0].RParen? then level - 1 else level;
    if l > 0 {
      MatchingExtend(ts[1..], l, rest);
      assert (ts + rest)[1..] == ts[1..] + rest;
    }
  }

  lemma {:induction false} ParseShows(level: nat, ts: Tokens, u: Undefs)
    requires level <= UNARY
    ensures var r := Parse(level, ts, u); r.Read? ==> ts == Show(r.e) + r.rest && Fits(level, r.e, u)
    decreases |ts|, UNARY - level, 2
  {
    if level == UNARY {
      ParseUnaryShows(ts, u);
    } else {
      var first := Parse(level + 1, ts, u);
      ParseShows(level + 1, ts, u);
      if first.Read? {
        FitsLooser(level, first.e, u);
        ParseMoreShows(level, first.e, first.rest, u);
      }
    }
  }

  lemma {:induction false} ParseMoreShows(level: nat, l: Cond, ts: Tokens, u: Undefs)
    requires level < UNARY && Fits(level, l, u)
    ensures var r := ParseMore(level, l, ts, u); r.Read? ==> Show(l) + ts == Show(r.e) + r.rest && Fits(level, r.e, u)
    decreases |ts|, UNARY - level, 0
  {
    if ts != [] && OpAt(level, ts[0]).Op? {
      var op, next := OpAt(level, ts[0]).op, Parse(level + 1, ts[1..], u);
      ParseShows(level + 1, ts[1..], u);
      if next.Read? {
        OpRow(level, ts[0]);
        ParseMoreShows(level, Bin(op, l, next.e), next.rest, u);
        ShowBin(op, l, next.e, next.rest);
        assert [OpToken(op)] + ts[1..] == ts;
      }
    }
  }

  lemma OpRow(level: nat, t: Token)
    ensures OpAt(level, t).Op? ==>
      LevelOf(OpAt(level, t).op) == level && OpToken(OpAt(level, t).op) == t && level < UNARY
  {
  }

  lemma ShowBin(op: BinOp, l: Cond, r: Cond, rest: Tokens)
    ensures Show(Bin(op, l, r)) + rest == Show(l) + ([OpToken(op)] + (Show(r) + rest))
  {
  }

  lemma {:induction false} ParseUnaryShows(ts: Tokens, u: Undefs)
    ensures var r := ParseUnary(ts, u); r.Read? ==> ts == Show(r.e) + r.rest && Fits(UNARY, r.e, u)
    decreases |ts|, 0, 1
  {
    if ts != [] {
      assert ts == [ts[0]] + ts[1..];
      match ts[0]
      case Bang => NotShows(ts, u);
      case LParen => ParenShows(ts, u);
      case Word(text) =>
        if text == "" || Numeral(text) {
        } else if text == "defined" {
          DefinedShows(ts[1..]);
        } else {
          SymShows(ts, text, u);
        }
      case _ =>
    }
  }

  lemma {:induction false} NotShows(ts: Tokens, u: Undefs)
    requires ts != [] && ts[0].Bang?
    ensures var r := ParseUnary(ts, u); r.Read? ==> ts == Show(r.e) + r.rest && Fits(UNARY, r.e, u)
    decreases |ts|, 0, 0
  {
    var x := ParseUnary(ts[1..], u);
    ParseUnaryShows(ts[1..], u);
    if x.Read? { assert ts == [Bang] + (Show(x.e) + x.rest) == ([Bang] + Show(x.e)) + x.rest; }
  }

  lemma {:induction false} ParenShows(ts: Tokens, u: Undefs)
    requires ts != [] && ts[0].LParen?
    ensures var r := ParseUnary(ts, u); r.Read? ==> ts == Show(r.e) + r.rest && Fits(UNARY, r.e, u)
    decreases |ts|, 0, 0
  {
    var x := Parse(0, ts[1..], u);
    ParseShows(0, ts[1..], u);
    if x.Read? && x.rest != [] && x.rest[0].RParen? {
      assert x.rest == [RParen] + x.rest[1..];
      assert ts == [LParen] + (Show(x.e) + ([RParen] + x.rest[1..]));
      assert ts == ([LParen] + Show(x.e) + [RParen]) + x.rest[1..];
    }
  }

  lemma DefinedShows(ts: Tokens)
    ensures var r := ParseDefined(ts); r.Read? ==> r.e.Defined? && [Word("defined")] + ts == Show(r.e) + r.rest
  {
  }

  lemma SymShows(ts: Tokens, text: string, u: Undefs)
    requires ts != [] && ts[0] == Word(text) && text != "" && !Numeral(text) && text != "defined"
    ensures var r := ParseUnary(ts, u); r.Read? && ts == Show(r.e) + r.rest && Fits(UNARY, r.e, u)
  {
    var args := if text in u then [] else Args(ts[1..]);
    ArgsAgain(ts[1..]);
    assert ts[1..] == args + ts[1..][|args|..];
    assert ts[1..][|args|..] == ts[1 + |args|..];
    assert ts == [ts[0]] + ts[1..];
  }

  // ----- what stands there is what is parsed -----

  /** Nothing that could belong to a condition of this level: the end, a closing parenthesis, or an operator
      that binds less tightly. */
  predicate Stops(level: nat, rest: Tokens) {
    rest == [] || rest[0].RParen? || (Operator(rest[0]) && LevelOf(OpIs(rest[0])) < level)
  }

  predicate Operator(t: Token) {
    t.OrOr? || t.AndAnd? || t.EqEq? || t.NotEq? || t.Le? || t.Ge? || t.Lt? || t.Gt?
  }

  function OpIs(t: Token): BinOp
    requires Operator(t)
  {
    match t
    case OrOr => OpOr
    case AndAnd => OpAnd
    case EqEq => OpEq
    case NotEq => OpNe
    case Le => OpLe
    case Ge => OpGe
    case Lt => OpLt
    case Gt => OpGt
  }

  lemma StopsNoOp(level: nat, rest: Tokens)
    requires Stops(level, rest) && rest != []
    ensures OpAt(level, rest[0]).NoOp?
  {
  }

  /** Every condition of the grammar is read back as itself: the parser is a left inverse of writing
      conditions down, so the grammar is unambiguous. */
  lemma {:induction false} ShowParses(level: nat, e: Cond, rest: Tokens, u: Undefs)
    requires level <= UNARY && Fits(level, e, u) && Stops(level, rest)
    ensures Parse(level, Show(e) + rest, u) == Read(e, rest)
    decreases e, UNARY - level, 1
  {
    if level == UNARY {
      ShowParsesUnary(e, rest, u);
    } else {
      ShowContinues(level, e, rest, u);
      if rest != [] { StopsNoOp(level, rest); }
    }
  }

  /** Reading on behind a condition of a level. */
  lemma {:induction false} ShowContinues(level: nat, e: Cond, ts: Tokens, u: Undefs)
    requires level < UNARY && Fits(level, e, u) && Stops(level + 1, ts)
    ensures Parse(level, Show(e) + ts, u) == ParseMore(level, e, ts, u)
    decreases e, UNARY - level, 0
  {
    if e.Bin? && LevelOf(e.op) == level {
      var more := [OpToken(e.op)] + (Show(e.r) + ts);
      ShowBin(e.op, e.l, e.r, ts);
      ShowContinues(level, e.l, more, u);
      ShowParses(level + 1, e.r, ts, u);
      MoreStep(level, e.op, e.l, e.r, ts, u);
    } else {
      ShowParses(level + 1, e, ts, u);
    }
  }

  /** An operator of the level and its right operand are taken in. */
  lemma MoreStep(level: nat, op: BinOp, l: Cond, r: Cond, ts: Tokens, u: Undefs)
    requires level == LevelOf(op) && Parse(level + 1, Show(r) + ts, u) == Read(r, ts)
    ensures ParseMore(level, l, [OpToken(op)] + (Show(r) + ts), u) == ParseMore(level, Bin(op, l, r), ts, u)
  {
    var more := [OpToken(op)] + (Show(r) + ts);
    assert more[1..] == Show(r) + ts;
    assert OpAt(level, more[0]) == Op(op);
  }

  lemma {:induction false} ShowParsesUnary(e: Cond, rest: Tokens, u: Undefs)
    requires Fits(UNARY, e, u) && Stops(UNARY, rest)
    ensures ParseUnary(Show(e) + rest, u) == Read(e, rest)
    decreases e, 0, 0
  {
    match e
    case Number(t) =>
      assert (Show(e) + rest)[1..] == rest;
    case Defined(name, paren) =>
      ShowDefined(name, paren, rest, u);
    case Sym(name, args) =>
      ShowSym(name, args, rest, u);
    case Not(x) =>
      ShowParsesUnary(x, rest, u);
      UnaryNot(x, rest, u);
    case Paren(x) =>
      assert Stops(0, [RParen] + rest);
      ShowParses(0, x, [RParen] + rest, u);
      UnaryParen(x, rest, u);
  }

  lemma UnaryNot(x: Cond, rest: Tokens, u: Undefs)
    requires ParseUnary(Show(x) + rest, u) == Read(x, rest)
    ensures ParseUnary(Show(Not(x)) + rest, u) == Read(Not(x), rest)
  {
    Pushed(Bang, Show(x), rest);
  }

  lemma Pushed(t: Token, ts: Tokens, rest: Tokens)
    ensures ([t] + ts) + rest == [t] + (ts + rest) && ([t] + (ts + rest))[1..] == ts + rest
  {
  }

  lemma UnaryParen(x: Cond, rest: Tokens, u: Undefs)
    requires Parse(0, Show(x) + ([RParen] + rest), u) == Read(x, [RParen] + rest)
    ensures ParseUnary(Show(Paren(x)) + rest, u) == Read(Paren(x), rest)
  {
    Enclosed(Show(x), rest);
  }

  lemma Enclosed(ts: Tokens, rest: Tokens)
    ensures ([LParen] + ts + [RParen]) + rest == [LParen] + (ts + ([RParen] + rest))
    ensures ([LParen] + (ts + ([RParen] + rest)))[1..] == ts + ([RParen] + rest)
    ensures ([RParen] + rest)[1..] == rest
  {
  }

  function NameTokens(name: string): Tokens { if name == "" then [] else [Word(name)] }

  lemma ShowDefined(name: string, paren: bool, rest: Tokens, u: Undefs)
    requires Stops(UNARY, rest)
    ensures ParseUnary(Show(Defined(name, paren)) + rest, u) == Read(Defined(name, paren), rest)
  {
    var tail := if paren then [LParen] + (NameTokens(name) + ([RParen] + rest)) else NameTokens(name) + rest;
    assert Show(Defined(name, paren)) + rest == [Word("defined")] + tail;
    assert ([Word("defined")] + tail)[1..] == tail;
    if paren { DefinedInParens(name, rest); } else { DefinedPlain(name, rest); }
  }

  lemma DefinedInParens(name: string, rest: Tokens)
    ensures ParseDefined([LParen] + (NameTokens(name) + ([RParen] + rest))) == Read(Defined(name, true), rest)
  {
    var close := [RParen] + rest;
    var inner := NameTokens(name) + close;
    assert close[1..] == rest;
    assert ([LParen] + inner)[1..] == inner;
    if name == "" { assert inner == close; } else { assert inner[1..] == close; }
  }

  lemma DefinedPlain(name: string, rest: Tokens)
    requires Stops(UNARY, rest)
    ensures ParseDefined(NameTokens(name) + rest) == Read(Defined(name, false), rest)
  {
    var ts := NameTokens(name) + rest;
    if name == "" { assert ts == rest; } else { assert ts[1..] == rest; }
  }

  lemma ShowSym(name: string, args: Tokens, rest: Tokens, u: Undefs)
    requires Fits(UNARY, Sym(name, args), u) && Stops(UNARY, rest)
    ensures ParseUnary(Show(Sym(name, args)) + rest, u) == Read(Sym(name, args), rest)
  {
    var ts := Show(Sym(name, args)) + rest;
    assert ts == [Word(name)] + (args + rest) && ts[1..] == args + rest;
    if args == [] {
      assert args + rest == rest;
    } else {
      assert args[..Matching(args, 0)] == args;
      MatchingExtend(args, 0, rest);
      assert (args + rest)[..|args|] == args;
    }
    assert ts[1 + |args|..] == rest;
  }

  /** Every text has at most one reading. */
  lemma Unambiguous(a: Cond, b: Cond, u: Undefs)
    requires Fits(0, a, u) && Fits(0, b, u) && Show(a) == Show(b)
    ensures a == b
  {
    ShowParses(0, a, [], u);
    ShowParses(0, b, [], u);
    assert Show(a) + [] == Show(b) + [];
  }
}
