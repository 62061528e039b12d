/** Comparisons in expressions: numbers as numbers, everything else as text. */
module KconfigCompare {
  import opened KconfigExpr

  function Truth(b: bool): Tri { if b then 2 else 0 }

  /** The six operators go by one order: of less, equal and greater one holds, and the others follow. */
  lemma OrderRule(l: Symbol, r: Symbol, env: Env)
    ensures var lt, eq, gt := Eval(ECmp(Lth, l, r), env), Eval(ECmp(Equal, l, r), env), Eval(ECmp(Gth, l, r), env);
      && {lt, eq, gt} == {0, 2} && lt + eq + gt == 2
      && Eval(ECmp(Leq, l, r), env) == lt + eq && Eval(ECmp(Geq, l, r), env) == gt + eq
      && Eval(ECmp(Unequal, l, r), env) == 2 - eq
  {
  }

  /** What the text of a symbol is as a number: y, m and n are 2, 1 and 0 for bool and tristate symbols and
      otherwise no numbers. */
  lemma NumberRule(s: Symbol, env: Env)
    ensures IsTri(s) ==> ParseText(Text(s, env), TypeOf(s), env) == PSigned(env.tri(s))
    ensures !IsTri(s) && Text(s, env) in {"n", "m", "y"} ==> ParseText(Text(s, env), TypeOf(s), env) == PString
    ensures !IsTri(s) && Text(s, env) !in {"n", "m", "y"} && TypeOf(s) !in {Boolean, Tristate} ==>
      ParseText(Text(s, env), TypeOf(s), env) == env.parse(Text(s, env), TypeOf(s))
  {
    assert "n"[0] == 'n' && "m"[0] == 'm' && "y"[0] == 'y';
  }

  predicate BothStrings(l: Symbol, r: Symbol) { l.SymConfig? && r.SymConfig? && l.ty == r.ty == String }

  /** Two numbers. */
  lemma NumbersRule(l: Symbol, r: Symbol, a: int, b: int, env: Env)
    requires !BothStrings(l, r)
    requires ParseText(Text(l, env), TypeOf(l), env) == PSigned(a)
    requires ParseText(Text(r, env), TypeOf(r), env) == PSigned(b)
    ensures Eval(ECmp(Lth, l, r), env) == Truth(a < b) && Eval(ECmp(Equal, l, r), env) == Truth(a == b)
  {
  }

  /** With a number that takes all 64 bits both are taken without a sign. */
  lemma UnsignedRule(l: Symbol, r: Symbol, env: Env)
    requires !BothStrings(l, r)
    requires var p, q := ParseText(Text(l, env), TypeOf(l), env), ParseText(Text(r, env), TypeOf(r), env);
      !p.PString? && !q.PString? && (p.PUnsigned? || q.PUnsigned?)
    ensures var p, q := ParseText(Text(l, env), TypeOf(l), env), ParseText(Text(r, env), TypeOf(r), env);
      && Eval(ECmp(Lth, l, r), env) == Truth(NoSign(p) < NoSign(q))
      && Eval(ECmp(Equal, l, r), env) == Truth(NoSign(p) == NoSign(q))
  {
  }

  function NoSign(p: Parsed): int
    requires !p.PString?
  {
    match p
    case PUnsigned(u) => u
    case PSigned(s) => if s < 0 then 18446744073709551616 + s else s
  }

  /** The first text comes before the second: it is a beginning of it, or smaller where they part. */
  ghost predicate Before(a: string, b: string) { exists k: nat :: PartAt(a, b, k) }

  predicate PartAt(a: string, b: string, k: nat) {
    k <= |a| && k < |b| && a[..k] == b[..k] && (k == |a| || a[k] < b[k])
  }

  lemma SameRest(a: string, b: string, k: nat)
    requires 0 < k <= |a| && k <= |b| && a[..k] == b[..k]
    ensures a[1..][..k - 1] == b[1..][..k - 1]
  {
    assert a[..k][1..] == a[1..][..k - 1];
    assert b[..k][1..] == b[1..][..k - 1];
  }

  lemma SameStart(a: string, b: string, k: nat)
    requires k <= |a| && k <= |b| && a[..k] == b[..k]
    ensures k > 0 ==> a[0] == b[0]
  {
    if k > 0 { assert a[..k][0] == b[..k][0]; }
  }

  lemma {:induction false} StrcmpOrder(a: string, b: string)
    ensures Strcmp(a, b) in {-1, 0, 1}
    ensures Strcmp(a, b) == -1 <==> Before(a, b)
  {
    if a != [] && b != [] {
      StrcmpOrder(a[1..], b[1..]);
      if a[0] == b[0] {
        if k: nat :| PartAt(a[1..], b[1..], k) {
          assert a[..k + 1] == [a[0]] + a[1..][..k] && b[..k + 1] == [b[0]] + b[1..][..k];
          assert PartAt(a, b, k + 1);
        }
        if k: nat :| PartAt(a, b, k) {
          SameRest(a, b, k);
          assert PartAt(a[1..], b[1..], k - 1);
        }
      } else {
        if k: nat :| PartAt(a, b, k) {
          SameStart(a, b, k);
        }
        if a[0] < b[0] { assert PartAt(a, b, 0); }
      }
    } else if b != [] {
      assert PartAt(a, b, 0);
    }
  }

  /** Two string symbols, or anything that is no number. */
  lemma TextsRule(l: Symbol, r: Symbol, env: Env)
    requires BothStrings(l, r)
      || ParseText(Text(l, env), TypeOf(l), env).PString? || ParseText(Text(r, env), TypeOf(r), env).PString?
    ensures Eval(ECmp(Lth, l, r), env) == Truth(Before(Text(l, env), Text(r, env)))
    ensures Eval(ECmp(Equal, l, r), env) == Truth(Text(l, env) == Text(r, env))
  {
    StrcmpOrder(Text(l, env), Text(r, env));
    StrcmpZero(Text(l, env), Text(r, env));
  }
}
