/** ifeval: evaluation of a #if condition with some symbols known, by cursor loops over its tokens. */
module UnifdefIfEval {
  import opened UnifdefExpr
  import opened UnifdefGrammar

  /** What -D and -U say of a symbol; the value of -D is a numeral, of value `v`, or is not. */
  datatype Known = Undef | Numeric(v: int) | NotNumeric

  /** `literal` is the value of a numeral. */
  datatype Config = Config(
    syms: map<string, Known>, ignored: set<string>, literal: string -> int, strict: bool, killConsts: bool)
  {
    function Undefs(): Undefs { set n | n in syms && syms[n].Undef? }
  }

  datatype Verdict = VTrue | VFalse | VIf | VError

  const LONGMAX: int := 0x7fff_ffff_ffff_ffff

  /** strtol: a 64-bit long, saturating. */
  function Strtol(v: int): int { if v > LONGMAX then LONGMAX else if v < -LONGMAX - 1 then -LONGMAX - 1 else v }

  /** The result of strtol stored in a 32-bit int. */
  function Int32(v: int): int { (Strtol(v) + 0x8000_0000) % 0x1_0000_0000 - 0x8000_0000 }

  /** What a 64-bit long can hold is kept, and anything else becomes the nearest value that it can. */
  lemma StrtolRule(v: int)
    ensures -0x8000_0000_0000_0000 <= v <= 0x7fff_ffff_ffff_ffff ==> Strtol(v) == v
    ensures v > 0x7fff_ffff_ffff_ffff ==> Strtol(v) == 0x7fff_ffff_ffff_ffff && Int32(v) == -1
    ensures v < -0x8000_0000_0000_0000 ==> Strtol(v) == -0x8000_0000_0000_0000 && Int32(v) == 0
  {
  }

  /** An int holds the value. */
  predicate Held(v: int) { -0x8000_0000 <= v < 0x8000_0000 }

  lemma HeldExact(v: int)
    ensures Int32(v) == v <==> Held(v)
  {
  }

  /** The value of a condition as far as it is known. */
  datatype Partial = Unknown | Value(v: int) | Wrong

  function Combine(op: BinOp, l: Partial, r: Partial, strict: bool): Partial {
    if l.Wrong? || r.Wrong? then Wrong
    else if op.OpOr? && !strict && ((l.Value? && l.v != 0) || (r.Value? && r.v != 0)) then Value(1)
    else if op.OpAnd? && !strict && ((l.Value? && l.v == 0) || (r.Value? && r.v == 0)) then Value(0)
    else if l.Unknown? || r.Unknown? then Unknown
    else Value(Apply(op, l.v, r.v))
  }

  function Evaluate(e: Cond, c: Config): Partial {
    match e
    case Number(t) => Value(Int32(c.literal(t)))
    case Defined(name, _) =>
      if name in c.syms && name != "" then Value(Bool(!c.syms[name].Undef?)) else Unknown
    case Sym(name, _) =>
      if name !in c.syms then Unknown
      else (match c.syms[name]
            case Undef => Value(0)
            case Numeric(v) => Value(Int32(v))
            case NotNumeric => Wrong)
    case Not(x) =>
      var v := Evaluate(x, c);
      if v.Value? then Value(Bool(v.v == 0)) else v
    case Paren(x) => Evaluate(x, c)
    case Bin(op, l, r) => Combine(op, Evaluate(l, c), Evaluate(r, c), c.strict)
  }

  /** The condition looks at a symbol; otherwise it is a constant expression. */
  predicate UsesSymbol(e: Cond) {
    match e
    case Number(_) => false
    case Defined(_, _) => true
    case Sym(_, _) => true
    case Not(x) => UsesSymbol(x)
    case Paren(x) => UsesSymbol(x)
    case Bin(_, l, r) => UsesSymbol(l) || UsesSymbol(r)
  }

  /** Verdict and value of an evaluation agree with what is known of the condition. */
  predicate Tells(lt: Verdict, v: int, p: Partial) {
    match p
    case Unknown => lt.VIf?
    case Value(x) => v == x && lt == (if x != 0 then VTrue else VFalse)
    case Wrong => lt.VError?
  }

  /** The verdict on the tokens behind #if. */
  function IfVerdict(ts: Tokens, c: Config): Verdict {
    var r := Parse(0, ts, c.Undefs());
    if r.Fail? then VIf
    else if !c.killConsts && !UsesSymbol(r.e) then VIf
    else
      match Evaluate(r.e, c)
      case Value(x) => if x != 0 then VTrue else VFalse
      case _ => VIf
  }

  // ----- the evaluator -----

  lemma ReadSym(ts: Tokens, name: string, u: Undefs)
    requires ts != [] && ts[0] == Word(name) && name != "" && !Numeral(name) && name != "defined"
    ensures var args := if name in u then [] else Args(ts[1..]);
      ParseUnary(ts, u) == Read(Sym(name, args), ts[1 + |args|..])
  {
  }

  lemma {:induction false} WrongStays(level: nat, l: Cond, ts: Tokens, c: Config)
    requires level < UNARY && Evaluate(l, c).Wrong?
    ensures var r := ParseMore(level, l, ts, c.Undefs()); r.Read? ==> Evaluate(r.e, c).Wrong?
    decreases |ts|
  {
    if ts != [] && OpAt(level, ts[0]).Op? {
      var next := Parse(level + 1, ts[1..], c.Undefs());
      if next.Read? { WrongStays(level, Bin(OpAt(level, ts[0]).op, l, next.e), next.rest, c); }
    }
  }

  /** One more operator and operand. */
  lemma OperandRead(level: nat, l: Cond, toks: Tokens, cp: nat, u: Undefs)
    requires level < UNARY && cp < |toks| && OpAt(level, toks[cp]).Op?
    ensures var next := Parse(level + 1, toks[cp + 1..], u);
      ParseMore(level, l, toks[cp..], u)
        == if next.Fail? then Fail else ParseMore(level, Bin(OpAt(level, toks[cp]).op, l, next.e), next.rest, u)
  {
    assert toks[cp..][1..] == toks[cp + 1..];
  }

  class Evaluator {
    const c: Config
    const toks: Tokens
    /** Whether only constants have been met. */
    var constExpr: bool

    constructor (ts: Tokens, config: Config)
      ensures toks == ts && c == config
    {
      toks, c, constExpr := ts, config, false;
    }

    /** What an evaluation function promises: it reads what the parser reads, gives the value as far as it is
        known, and notes the symbols it meets. */
    ghost predicate Done(r: Parsed, lt: Verdict, v: int, to: nat) {
      && to <= |toks|
      && (lt.VError? <==> r.Fail? || Evaluate(r.e, c).Wrong?)
      && (!lt.VError? ==> toks[to..] == r.rest && Tells(lt, v, Evaluate(r.e, c)))
    }

    /** The operators of one row, and the row below for the operands. */
    method EvalTable(level: nat, from: nat) returns (lt: Verdict, v: int, cp: nat)
      requires level <= UNARY && from <= |toks|
      modifies this`constExpr
      ensures Done(Parse(level, toks[from..], c.Undefs()), lt, v, cp)
      ensures !lt.VError? ==> from < cp
      ensures !lt.VError? ==> constExpr == (old(constExpr) && !UsesSymbol(Parse(level, toks[from..], c.Undefs()).e))
      decreases |toks| - from, UNARY - level, 1
    {
      if level == UNARY {
        lt, v, cp := EvalUnary(from);
        return;
      }
      lt, v, cp := EvalTable(level + 1, from);
      ghost var whole, first := Parse(level, toks[from..], c.Undefs()), Parse(level + 1, toks[from..], c.Undefs());
      if first.Read? && Evaluate(first.e, c).Wrong? { WrongStays(level, first.e, first.rest, c); }
      if lt.VError? { return; }
      ghost var l := first.e;
      while cp < |toks| && OpAt(level, toks[cp]).Op?
        invariant from < cp <= |toks| && whole == ParseMore(level, l, toks[cp..], c.Undefs())
        invariant Tells(lt, v, Evaluate(l, c)) && !lt.VError?
        invariant constExpr == (old(constExpr) && !UsesSymbol(l))
      {
        lt, v, cp, l := EvalNext(level, lt, v, cp, l, old(constExpr));
        if lt.VError? { return; }
      }
    }

    /** One more operator and its operand. */
    method EvalNext(level: nat, at: Verdict, a: int, from: nat, ghost l: Cond, ghost before: bool)
      returns (lt: Verdict, v: int, cp: nat, ghost l': Cond)
      requires level < UNARY && from < |toks| && OpAt(level, toks[from]).Op?
      requires Tells(at, a, Evaluate(l, c)) && !at.VError? && constExpr == (before && !UsesSymbol(l))
      modifies this`constExpr
      ensures var r := ParseMore(level, l, toks[from..], c.Undefs());
        if lt.VError? then cp <= |toks| && (r.Fail? || Evaluate(r.e, c).Wrong?)
        else
          && from < cp <= |toks| && r == ParseMore(level, l', toks[cp..], c.Undefs()) && Tells(lt, v, Evaluate(l', c))
          && constExpr == (before && !UsesSymbol(l'))
      decreases |toks| - from, UNARY - level, 0
    {
      OperandRead(level, l, toks, from, c.Undefs());
      var op := OpAt(level, toks[from]).op;
      ghost var next := Parse(level + 1, toks[from + 1..], c.Undefs());
      var rt, w, to := EvalTable(level + 1, from + 1);
      l' := if next.Read? then Bin(op, l, next.e) else l;
      if next.Read? && Evaluate(next.e, c).Wrong? { WrongStays(level, l', next.rest, c); }
      if rt.VError? { return VError, a, from, l'; }
      lt, v := ApplyOp(op, at, a, rt, w, Evaluate(l, c), Evaluate(next.e, c));
      cp := to;
    }

    /** The functions of the operators: known values are combined; a known operand may decide an `||` or `&&`. */
    method ApplyOp(op: BinOp, at: Verdict, a: int, bt: Verdict, b: int, ghost l: Partial, ghost r: Partial)
      returns (lt: Verdict, v: int)
      requires Tells(at, a, l) && Tells(bt, b, r) && !at.VError? && !bt.VError?
      ensures Tells(lt, v, Combine(op, l, r, c.strict)) && !lt.VError?
    {
      v := a;
      if op.OpOr? && !c.strict && (at.VTrue? || bt.VTrue?) { return VTrue, 1; }
      if op.OpAnd? && !c.strict && (at.VFalse? || bt.VFalse?) { return VFalse, 0; }
      if at.VIf? || bt.VIf? { return VIf, v; }
      v := Apply(op, a, b);
      lt := if v != 0 then VTrue else VFalse;
    }

    /** The innermost parts: !, parentheses, numerals, `defined` and symbols. */
    method EvalUnary(from: nat) returns (lt: Verdict, v: int, cp: nat)
      requires from <= |toks|
      modifies this`constExpr
      ensures Done(ParseUnary(toks[from..], c.Undefs()), lt, v, cp)
      ensures !lt.VError? ==> from < cp
      ensures !lt.VError? ==> constExpr == (old(constExpr) && !UsesSymbol(ParseUnary(toks[from..], c.Undefs()).e))
      decreases |toks| - from, 0, 0
    {
      v := 0;
      if from == |toks| { return VError, v, from; }
      assert toks[from..][1..] == toks[from + 1..];
      cp := from + 1;
      match toks[from]
      case Bang =>
        lt, v, cp := EvalUnary(cp);
        if lt.VTrue? || lt.VFalse? {
          v := if v == 0 then 1 else 0;
          lt := if v != 0 then VTrue else VFalse;
        }
      case LParen =>
        lt, v, cp := EvalTable(0, cp);
        if lt.VError? { return; }
        if cp == |toks| || !toks[cp].RParen? { return VError, v, cp; }
        cp := cp + 1;
      case Word(text) =>
        if text == "" { return VError, v, cp; }
        if Numeral(text) {
          v := Int32(c.literal(text));
          lt := if v != 0 then VTrue else VFalse;
        } else if text == "defined" {
          lt, v, cp := EvalDefined(cp);
          constExpr := false;
        } else {
          lt, v, cp := EvalSym(text, cp);
          constExpr := false;
        }
      case _ =>
        lt := VError;
    }

    method EvalDefined(from: nat) returns (lt: Verdict, v: int, cp: nat)
      requires from <= |toks|
      ensures Done(ParseDefined(toks[from..]), lt, v, cp) && (!lt.VError? ==> from <= cp)
    {
      cp, v, lt := from, 0, VIf;
      var paren := cp < |toks| && toks[cp].LParen?;
      if paren {
        assert toks[cp..][1..] == toks[cp + 1..];
        cp := cp + 1;
      }
      if cp < |toks| && toks[cp].Word? && toks[cp].text != "" {
        var name := toks[cp].text;
        if name in c.syms {
          v := if c.syms[name].Undef? then 0 else 1;
          lt := if v != 0 then VTrue else VFalse;
        }
        assert toks[cp..][1..] == toks[cp + 1..];
        cp := cp + 1;
      }
      if paren {
        if cp == |toks| || !toks[cp].RParen? { return VError, v, cp; }
        assert toks[cp..][1..] == toks[cp + 1..];
        cp := cp + 1;
      }
    }

    method EvalSym(name: string, from: nat) returns (lt: Verdict, v: int, cp: nat)
      requires 0 < from <= |toks| && toks[from - 1] == Word(name) && name != "" && !Numeral(name) && name != "defined"
      ensures Done(ParseUnary(toks[from - 1..], c.Undefs()), lt, v, cp) && (!lt.VError? ==> from <= cp)
    {
      ReadSym(toks[from - 1..], name, c.Undefs());
      assert toks[from - 1..][1..] == toks[from..];
      lt, v, cp := SymValue(name, from);
      ghost var args := if name in c.Undefs() then [] else Args(toks[from..]);
      assert toks[from - 1..][1 + |args|..] == toks[from + |args|..];
    }

    method SymValue(name: string, from: nat) returns (lt: Verdict, v: int, cp: nat)
      requires from <= |toks|
      ensures Tells(lt, v, Evaluate(Sym(name, []), c)) && cp <= |toks|
      ensures !lt.VError? ==> cp == from + if name in c.Undefs() then 0 else |Args(toks[from..])|
    {
      cp, v := from, 0;
      if name !in c.syms {
        lt := VIf;
        cp := SkipArgs(cp);
      } else {
        match c.syms[name]
        case Undef =>
          lt := VFalse;
        case Numeric(x) =>
          v := Int32(x);
          lt := if v != 0 then VTrue else VFalse;
          cp := SkipArgs(cp);
        case NotNumeric =>
          return VError, v, cp;
      }
    }

    /** Balanced parentheses are skipped; unbalanced ones are left for the error to be found later. */
    method SkipArgs(from: nat) returns (cp: nat)
      requires from <= |toks|
      ensures cp == from + |Args(toks[from..])| && cp <= |toks|
    {
      cp := from;
      if cp == |toks| || !toks[cp].LParen? { return; }
      ghost var whole := Matching(toks[from..], 0);
      var level := 0;
      while cp < |toks|
        invariant from <= cp <= |toks| && (cp == from ==> level == 0) && (cp > from ==> level > 0)
        invariant whole == if Matching(toks[cp..], level) == 0 then 0 else cp - from + Matching(toks[cp..], level)
      {
        assert toks[cp..][1..] == toks[cp + 1..];
        if toks[cp].LParen? { level := level + 1; } else if toks[cp].RParen? { level := level - 1; }
        cp := cp + 1;
        if level == 0 { return; }
      }
      cp := from;
    }

    /** The whole condition: constants alone decide nothing unless -k is given. */
    method IfEval() returns (lt: Verdict, cp: nat)
      modifies this`constExpr
      ensures lt == IfVerdict(toks, c)
      ensures (lt.VTrue? || lt.VFalse?) ==> cp <= |toks| && toks[cp..] == Parse(0, toks, c.Undefs()).rest
    {
      constExpr := !c.killConsts;
      assert toks[0..] == toks;
      var v;
      lt, v, cp := EvalTable(0, 0);
      if lt.VError? { return VIf, 0; }
      if constExpr { lt := VIf; }
    }
  }

  // ----- soundness -----

  /** A world in which numerals have their values and the symbols are as -D and -U say. */
  ghost predicate Possible(w: World, c: Config) {
    && (forall t :: w.num(t) == c.literal(t))
    && (forall name :: name in c.syms && name != "" ==> PossibleSym(w, c, name))
  }

  ghost predicate PossibleSym(w: World, c: Config, name: string)
    requires name in c.syms
  {
    && (w.defined_(name) <==> !c.syms[name].Undef?)
    && (forall args :: c.syms[name].Undef? ==> w.sym(name, args) == 0)
    && (forall args :: c.syms[name].Numeric? ==> w.sym(name, args) == c.syms[name].v)
  }

  /** The same evaluation with integers that hold every value. */
  function Unbounded(e: Cond, c: Config): Partial {
    match e
    case Number(t) => Value(c.literal(t))
    case Defined(name, _) =>
      if name in c.syms && name != "" then Value(Bool(!c.syms[name].Undef?)) else Unknown
    case Sym(name, _) =>
      if name !in c.syms then Unknown
      else (match c.syms[name]
            case Undef => Value(0)
            case Numeric(v) => Value(v)
            case NotNumeric => Wrong)
    case Not(x) =>
      var v := Unbounded(x, c);
      if v.Value? then Value(Bool(v.v == 0)) else v
    case Paren(x) => Unbounded(x, c)
    case Bin(op, l, r) => Combine(op, Unbounded(l, c), Unbounded(r, c), c.strict)
  }

  /** Both are known or not, and if they are, then both are zero or neither. */
  predicate SameTruth(p: Partial, q: Partial) {
    (p.Value? <==> q.Value?) && (p.Wrong? <==> q.Wrong?) && (p.Value? ==> (p.v == 0 <==> q.v == 0))
  }

  /** The ints of the evaluator decide the condition as integers that hold every value do. */
  predicate Agreed(e: Cond, c: Config) { SameTruth(Evaluate(e, c), Unbounded(e, c)) }

  /** Without a bound on the integers, what is known of a condition is its value in every possible world, with
      either logic. */
  lemma {:induction false} UnboundedSound(e: Cond, c: Config, w: World, u: Undefs)
    requires Possible(w, c) && Fits(0, e, u)
    ensures Unbounded(e, c).Value? ==> Unbounded(e, c).v == Meaning(e, w)
    decreases e
  {
    match e
    case Not(x) =>
      FitsAnywhere(UNARY, x, u);
      UnboundedSound(x, c, w, u);
    case Paren(x) =>
      UnboundedSound(x, c, w, u);
    case Bin(op, l, r) =>
      FitsAnywhere(LevelOf(op), l, u);
      FitsAnywhere(LevelOf(op) + 1, r, u);
      UnboundedSound(l, c, w, u);
      UnboundedSound(r, c, w, u);
    case Number(t) =>
    case Defined(name, _) =>
    case Sym(name, args) =>
      if name in c.syms { assert PossibleSym(w, c, name); }
  }

  /** What the evaluator knows of a condition is true in every possible world, if its ints decide as unbounded
      integers do; and where those decide otherwise, it is false in every possible world. */
  lemma EvaluateSound(e: Cond, c: Config, w: World, u: Undefs)
    requires Possible(w, c) && Fits(0, e, u)
    ensures Evaluate(e, c).Value? && Agreed(e, c) ==> (Evaluate(e, c).v != 0 <==> Meaning(e, w) != 0)
    ensures Evaluate(e, c).Value? && Unbounded(e, c).Value? ==>
      ((Evaluate(e, c).v != 0 <==> Meaning(e, w) != 0) <==> Agreed(e, c))
  {
    UnboundedSound(e, c, w, u);
  }

  /** An int holds the value of the condition: it is that of a comparison of held values, or of operands whose
      truth is told, or a held value itself. */
  predicate ValuesHeld(e: Cond, c: Config) {
    match e
    case Number(t) => Held(c.literal(t))
    case Sym(name, _) => name in c.syms && c.syms[name].Numeric? ==> Held(c.syms[name].v)
    case Not(x) => TruthHeld(x, c)
    case Paren(x) => ValuesHeld(x, c)
    case Bin(op, l, r) =>
      if op.OpOr? || op.OpAnd? then TruthHeld(l, c) && TruthHeld(r, c) else ValuesHeld(l, c) && ValuesHeld(r, c)
    case Defined(_, _) => true
  }

  /** An int tells whether the condition is zero. */
  predicate TruthHeld(e: Cond, c: Config) {
    match e
    case Number(t) => ZeroTold(c.literal(t))
    case Sym(name, _) => name in c.syms && c.syms[name].Numeric? ==> ZeroTold(c.syms[name].v)
    case Not(x) => TruthHeld(x, c)
    case Paren(x) => TruthHeld(x, c)
    case Bin(op, l, r) =>
      if op.OpOr? || op.OpAnd? then TruthHeld(l, c) && TruthHeld(r, c) else ValuesHeld(l, c) && ValuesHeld(r, c)
    case Defined(_, _) => true
  }

  /** Where an int holds the operands of comparisons, and tells zero of the others, it decides as unbounded
      integers do. */
  lemma {:induction false} HeldAgrees(e: Cond, c: Config)
    ensures ValuesHeld(e, c) ==> Evaluate(e, c) == Unbounded(e, c)
    ensures TruthHeld(e, c) ==> Agreed(e, c)
  {
    match e
    case Number(t) =>
      HeldExact(c.literal(t));
      ZeroToldExact(c.literal(t));
    case Defined(_, _) =>
    case Sym(name, _) =>
      if name in c.syms && c.syms[name].Numeric? {
        HeldExact(c.syms[name].v);
        ZeroToldExact(c.syms[name].v);
      }
    case Not(x) => HeldAgrees(x, c);
    case Paren(x) => HeldAgrees(x, c);
    case Bin(op, l, r) =>
      HeldAgrees(l, c);
      HeldAgrees(r, c);
  }

  lemma {:induction false} FitsAnywhere(level: nat, e: Cond, u: Undefs)
    requires Fits(level, e, u)
    ensures Fits(0, e, u)
  {
    if level > 0 {
      FitsLooser(level - 1, e, u);
      FitsAnywhere(level - 1, e, u);
    }
  }

  /** The verdict on a whole line: tokens left over make it undecided. */
  function LineVerdict(ts: Tokens, c: Config): Verdict {
    var r := Parse(0, ts, c.Undefs());
    if r.Read? && r.rest == [] then IfVerdict(ts, c) else VIf
  }

  /** A line found true, or false, is the text of exactly one condition of the grammar, and that condition is
      nonzero, or zero, in every possible world if the ints decide as unbounded integers do.  Where those decide
      otherwise the line is the other way round in every possible world. */
  lemma VerdictSound(ts: Tokens, c: Config)
    requires LineVerdict(ts, c) != VIf
    ensures var e := Parse(0, ts, c.Undefs()).e;
      && Fits(0, e, c.Undefs()) && Show(e) == ts
      && (forall x :: Fits(0, x, c.Undefs()) && Show(x) == ts ==> x == e)
      && (Agreed(e, c) ==> forall w :: Possible(w, c) ==> (Meaning(e, w) != 0 <==> LineVerdict(ts, c) == VTrue))
      && (Unbounded(e, c).Value? && !Agreed(e, c) ==>
          forall w :: Possible(w, c) ==> (Meaning(e, w) != 0 <==> LineVerdict(ts, c) == VFalse))
  {
    var u := c.Undefs();
    var e := Parse(0, ts, u).e;
    ParseShows(0, ts, u);
    assert Show(e) + [] == Show(e);
    forall x | Fits(0, x, u) && Show(x) == ts ensures x == e { Unambiguous(x, e, u); }
    forall w | Possible(w, c)
      ensures Agreed(e, c) ==> (Meaning(e, w) != 0 <==> LineVerdict(ts, c) == VTrue)
      ensures Unbounded(e, c).Value? && !Agreed(e, c) ==> (Meaning(e, w) != 0 <==> LineVerdict(ts, c) == VFalse)
    {
      EvaluateSound(e, c, w, u);
    }
  }

  // ----- strict and loose logic -----

  /** Every symbol of the condition is known. */
  predicate AllKnown(e: Cond, c: Config) {
    match e
    case Number(_) => true
    case Defined(name, _) => name in c.syms && name != ""
    case Sym(name, _) => name in c.syms
    case Not(x) => AllKnown(x, c)
    case Paren(x) => AllKnown(x, c)
    case Bin(_, l, r) => AllKnown(l, c) && AllKnown(r, c)
  }

  /** Strict logic (-K) decides a condition exactly if all its symbols are known. */
  lemma {:induction false} StrictExact(e: Cond, c: Config)
    requires c.strict && !Evaluate(e, c).Wrong?
    ensures Evaluate(e, c).Value? <==> AllKnown(e, c)
  {
    match e
    case Not(x) => StrictExact(x, c);
    case Paren(x) => StrictExact(x, c);
    case Bin(op, l, r) =>
      StrictExact(l, c);
      StrictExact(r, c);
    case Number(t) =>
    case Defined(name, _) =>
    case Sym(name, args) =>
  }

  /** The operand is known to be zero, or known not to be. */
  predicate Zero(e: Cond, c: Config) { Evaluate(e, c) == Value(0) }

  predicate NonZero(e: Cond, c: Config) { Evaluate(e, c).Value? && !Zero(e, c) }

  /** Loose logic: a known symbol is enough where it settles an `&&` or an `||`. */
  predicate Settled(e: Cond, c: Config) {
    match e
    case Number(_) => true
    case Defined(name, _) => name in c.syms && name != ""
    case Sym(name, _) => name in c.syms
    case Not(x) => Settled(x, c)
    case Paren(x) => Settled(x, c)
    case Bin(op, l, r) =>
      || (Settled(l, c) && Settled(r, c))
      || (op.OpAnd? && ((Settled(l, c) && Zero(l, c)) || (Settled(r, c) && Zero(r, c))))
      || (op.OpOr? && ((Settled(l, c) && NonZero(l, c)) || (Settled(r, c) && NonZero(r, c))))
  }

  /** Loose logic decides a condition exactly if it is settled; an `&&` with a zero operand is zero, and an `||`
      with one that is not zero is 1. */
  lemma {:induction false} LooseExact(e: Cond, c: Config)
    requires !c.strict && !Evaluate(e, c).Wrong?
    ensures Evaluate(e, c).Value? <==> Settled(e, c)
    ensures e.Bin? && e.op.OpAnd? && (Zero(e.l, c) || Zero(e.r, c)) ==> Evaluate(e, c) == Value(0)
    ensures e.Bin? && e.op.OpOr? && (NonZero(e.l, c) || NonZero(e.r, c)) ==> Evaluate(e, c) == Value(1)
  {
    match e
    case Not(x) => LooseExact(x, c);
    case Paren(x) => LooseExact(x, c);
    case Bin(op, l, r) =>
      LooseExact(l, c);
      LooseExact(r, c);
    case Number(t) =>
    case Defined(name, _) =>
    case Sym(name, args) =>
  }

  /** A symbol whose -D value is no number stands in the condition, outside `defined`. */
  predicate MentionsWord(e: Cond, c: Config) {
    match e
    case Number(_) => false
    case Defined(_, _) => false
    case Sym(name, _) => name in c.syms && c.syms[name].NotNumeric?
    case Not(x) => MentionsWord(x, c)
    case Paren(x) => MentionsWord(x, c)
    case Bin(_, l, r) => MentionsWord(l, c) || MentionsWord(r, c)
  }

  /** The evaluation fails exactly for those, whatever the logic. */
  lemma {:induction false} WrongExact(e: Cond, c: Config)
    ensures Evaluate(e, c).Wrong? <==> MentionsWord(e, c)
  {
    match e
    case Not(x) => WrongExact(x, c);
    case Paren(x) => WrongExact(x, c);
    case Bin(op, l, r) =>
      WrongExact(l, c);
      WrongExact(r, c);
    case Number(t) =>
    case Defined(name, _) =>
    case Sym(name, args) =>
  }

  /** The names in a condition. */
  function NamesIn(e: Cond): set<string> {
    match e
    case Number(_) => {}
    case Defined(name, _) => {name}
    case Sym(name, _) => {name}
    case Not(x) => NamesIn(x)
    case Paren(x) => NamesIn(x)
    case Bin(_, l, r) => NamesIn(l) + NamesIn(r)
  }

  lemma {:induction false} UsesNames(e: Cond)
    ensures UsesSymbol(e) <==> NamesIn(e) != {}
  {
    match e
    case Not(x) => UsesNames(x);
    case Paren(x) => UsesNames(x);
    case Bin(op, l, r) =>
      UsesNames(l);
      UsesNames(r);
    case Number(t) =>
    case Defined(name, _) => assert name in NamesIn(e);
    case Sym(name, args) => assert name in NamesIn(e);
  }

  /** A line is decided exactly if all of it is one condition, which is settled (or, with strict logic, known),
      has no -D value that is no number, and mentions a name unless -k is given. */
  lemma DecidedExactly(ts: Tokens, c: Config)
    ensures LineVerdict(ts, c) != VIf <==>
      var r := Parse(0, ts, c.Undefs());
      && r.Read? && r.rest == [] && (c.killConsts || NamesIn(r.e) != {}) && !MentionsWord(r.e, c)
      && if c.strict then AllKnown(r.e, c) else Settled(r.e, c)
  {
    var r := Parse(0, ts, c.Undefs());
    if r.Read? {
      WrongExact(r.e, c);
      UsesNames(r.e);
      if !Evaluate(r.e, c).Wrong? {
        if c.strict { StrictExact(r.e, c); } else { LooseExact(r.e, c); }
      }
    }
  }

  /** Whatever strict logic decides, loose logic decides in the same way. */
  lemma {:induction false} LooseDecidesMore(e: Cond, c: Config)
    ensures Evaluate(e, c.(strict := true)).Value? ==>
      Evaluate(e, c.(strict := false)) == Evaluate(e, c.(strict := true))
  {
    match e
    case Not(x) => LooseDecidesMore(x, c);
    case Paren(x) => LooseDecidesMore(x, c);
    case Bin(op, l, r) =>
      LooseDecidesMore(l, c);
      LooseDecidesMore(r, c);
    case Number(t) =>
    case Defined(name, _) =>
    case Sym(name, args) =>
  }

  // ----- values that an int cannot hold -----

  /** The value and its int are zero together: it is zero, or its low 32 bits, as strtol gives them, are not. */
  predicate ZeroTold(v: int) { v == 0 || Strtol(v) % 0x1_0000_0000 != 0 }

  lemma ZeroToldExact(v: int)
    ensures (Int32(v) == 0 <==> v == 0) <==> ZeroTold(v)
  {
    LowBits(Strtol(v));
    if v != 0 { assert Strtol(v) != 0; }
  }

  lemma LowBits(x: int)
    ensures (x + 0x8000_0000) % 0x1_0000_0000 == 0x8000_0000 <==> x % 0x1_0000_0000 == 0
  {
    var q, r := x / 0x1_0000_0000, x % 0x1_0000_0000;
    if r < 0x8000_0000 { Remainder(q, r + 0x8000_0000); } else { Remainder(q + 1, r - 0x8000_0000); }
  }

  lemma Remainder(q: int, r: int)
    requires 0 <= r < 0x1_0000_0000
    ensures (0x1_0000_0000 * q + r) % 0x1_0000_0000 == r
  {
  }

  /** A numeral on its own (with -k) is judged by the int that is left of it. */
  lemma NumeralVerdict(text: string, c: Config, w: World)
    requires Numeral(text) && c.killConsts && Possible(w, c)
    ensures (LineVerdict([Word(text)], c) == VTrue <==> Meaning(Number(text), w) != 0) <==> ZeroTold(c.literal(text))
  {
    var ts, u := [Word(text)], c.Undefs();
    assert Show(Number(text)) + [] == ts;
    ShowParses(0, Number(text), [], u);
    ZeroToldExact(c.literal(text));
  }

  /** `#if 4294967296` is taken for false. */
  lemma NumeralTruncated(c: Config)
    requires c.killConsts && c.literal("4294967296") == 0x1_0000_0000
    ensures LineVerdict([Word("4294967296")], c) == VFalse
  {
    var ts, u := [Word("4294967296")], c.Undefs();
    assert Show(Number("4294967296")) + [] == ts;
    ShowParses(0, Number("4294967296"), [], u);
  }

  /** A name that the evaluator looks up. */
  predicate SymbolName(name: string) { name != "" && !Numeral(name) && name != "defined" }

  /** A symbol on its own, with a numeral as its -D value, is judged by the int that is left of the value. */
  lemma SymbolVerdict(name: string, c: Config, w: World)
    requires SymbolName(name) && name in c.syms && c.syms[name].Numeric? && Possible(w, c)
    ensures (LineVerdict([Word(name)], c) == VTrue <==> Meaning(Sym(name, []), w) != 0) <==> ZeroTold(c.syms[name].v)
  {
    LoneSymbol(name, c);
    assert PossibleSym(w, c, name);
    ZeroToldExact(c.syms[name].v);
  }

  lemma LoneSymbol(name: string, c: Config)
    requires SymbolName(name) && name in c.syms && c.syms[name].Numeric?
    ensures LineVerdict([Word(name)], c) == if Int32(c.syms[name].v) != 0 then VTrue else VFalse
  {
    var ts, e := [Word(name)], Sym(name, []);
    assert Args([]) == [];
    assert Show(e) + [] == ts;
    ShowParses(0, e, [], c.Undefs());
  }

  /** With -DX=4294967296, `#if X` is taken for false, though X is not zero in any possible world; and there
      is such a world. */
  lemma SymbolTruncated(c: Config)
    requires c.syms == map["X" := Numeric(0x1_0000_0000)]
    ensures LineVerdict([Word("X")], c) == VFalse
    ensures forall w :: Possible(w, c) ==> Meaning(Sym("X", []), w) != 0
    ensures exists w :: Possible(w, c)
  {
    assert "X"[0] == 'X' && "X" != "defined" by { assert |"X"| == 1; }
    LoneSymbol("X", c);
    forall w | Possible(w, c) ensures Meaning(Sym("X", []), w) != 0 { assert PossibleSym(w, c, "X"); }
    var w := World(name => name == "X", (name, args) => 0x1_0000_0000, c.literal);
    assert Possible(w, c);
  }
}
