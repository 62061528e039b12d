/** Automatic submenus and visibility: the tests of expr.c inside the restructuring of menu.c. */
module MenuVisible {
  import opened KconfigExpr
  import opened MenuForest
  import opened MenuFinalize
  import KconfigSubmenu

  /** What menu_finalize finds at a node: the condition of its prompt or, without a prompt, its dependency;
      its symbol; and the condition of its prompt if it has one.  All are propagated before the node's
      siblings are looked at. */
  datatype Conditions = Conditions(dep: nat -> Option<Expr>, sym: nat -> Option<Symbol>, prompt: nat -> Option<Expr>,
                                   promptless: nat -> bool)

  /** The answers that the loop over the entries after a symbol gets. */
  function Asked(c: Conditions): Answers {
    Answers((n: nat) => c.sym(n).Some?, c.promptless,
            (s: nat, m: nat) => c.sym(s).Some? && KconfigSubmenu.Takes(c.dep(m), c.sym(s).value, c.prompt(s)))
  }

  /** The entry is hidden wherever the symbol is off and its prompt hidden. */
  predicate HiddenWith(c: Conditions, s: nat, m: nat, env: Env)
    requires c.sym(s).Some?
  {
    EvalOpt(c.dep(m), env) != 0 ==> Value(c.sym(s).value, env) != 0 || EvalOpt(c.prompt(s), env) != 0
  }

  /** The condition is one that the superset test can compare. */
  predicate Comparable(e: Option<Expr>, env: Env) { e.Some? ==> KconfigSubmenu.Comparable(e.value, env) }

  /** The submenu made for a bool or tristate symbol: every entry in it that can be compared is hidden with the
      symbol, and it is as long as it can be: the next entry is one that the tests do not tie to the symbol.
      The rest of the menu does not matter. */
  lemma SubmenuHidden(c: Conditions, s: nat, fs: Forest, env: Env)
    requires c.sym(s).Some? && IsTri(c.sym(s).value) && EnvOk(env) && Comparable(c.prompt(s), env)
    ensures var r := Absorb(s, fs, Asked(c));
      && (forall t :: t in r.0 && Comparable(c.dep(t.id), env) ==> HiddenWith(c, s, t.id, env))
      && (r.1 != [] ==> !KconfigSubmenu.Takes(c.dep(r.1[0].id), c.sym(s).value, c.prompt(s)))
  {
    SubmenuExact(s, fs, Asked(c));
    forall t | t in Absorb(s, fs, Asked(c)).0 && Comparable(c.dep(t.id), env)
      ensures HiddenWith(c, s, t.id, env)
    {
      KconfigSubmenu.TakesSound(c.dep(t.id), c.sym(s).value, c.prompt(s), env);
    }
  }
}
