/** Saving the values of all symbols and loading them again as settings of the user. */
module KconfigReload {
  import opened KconfigExpr
  import opened KconfigSymbols
  import opened KconfigValue

  /** The configuration after loading what was saved: the bool and tristate symbols that were written have their
      value as setting, the others none. */
  function Reloaded(c: Config, sol: Env): Config
    requires |c.user| == |c.defs|
  {
    c.(user := seq(|c.defs|, i requires 0 <= i < |c.defs| =>
      if TriType(c.defs[i].ty) && Written(c.defs[i], c.user[i], c.modules, sol) then Some(sol.tri(Refer(c.defs, i)))
      else None))
  }

  /** The value of a symbol survives: it is hidden, or its prompt allows the value, or it is selected to it. */
  predicate Survives(c: Config, sol: Env, i: nat)
    requires i < |c.defs|
  {
    var vis, val := Visible(c.defs[i], c.modules, sol), sol.tri(Refer(c.defs, i));
    TriType(c.defs[i].ty) ==> vis == 0 || val <= vis || val == RevDep(c.defs[i], c.modules, sol)
  }

  /** One symbol, once the symbols that it depends on are as before. */
  lemma ReloadOne(c: Config, sol: Env, sol': Env, i: nat)
    requires c.Valid() && Solves(c, sol) && i < |c.defs| && Agree(sol, sol', Dependencies(c.defs[i]))
    ensures NewValue(c.defs[i], Reloaded(c, sol).user[i], c.modules, sol') == sol.tri(Refer(c.defs, i))
      <==> Survives(c, sol, i)
  {
    AttributesAgree(c.defs[i], c.modules, sol, sol');
  }

  lemma {:induction false} ReloadSame(c: Config, rank: map<nat, nat>, sol: Env, sol': Env, i: nat)
    requires c.Valid() && Ranks(c.defs, rank) && Solves(c, sol) && Solves(Reloaded(c, sol), sol') && i < |c.defs|
    requires forall j :: 0 <= j < |c.defs| ==> Survives(c, sol, j)
    ensures sol'.tri(Refer(c.defs, i)) == sol.tri(Refer(c.defs, i))
    decreases rank[i]
  {
    forall s | s in Dependencies(c.defs[i]) && s.SymConfig? ensures sol.tri(s) == sol'.tri(s) {
      DependencyRank(c.defs, rank, i, s);
      ReloadSame(c, rank, sol, sol', s.id);
    }
    ReloadOne(c, sol, sol', i);
  }

  ghost predicate SameValues(c: Config, a: Env, b: Env) {
    forall i :: 0 <= i < |c.defs| ==> a.tri(Refer(c.defs, i)) == b.tri(Refer(c.defs, i))
  }

  /** Saved and loaded again, all symbols have their values again, exactly if each of them survives. */
  lemma ReloadKeeps(c: Config, rank: map<nat, nat>, sol: Env, sol': Env)
    requires c.Valid() && Ranks(c.defs, rank) && Solves(c, sol) && Solves(Reloaded(c, sol), sol')
    ensures SameValues(c, sol, sol') <==> forall i :: 0 <= i < |c.defs| ==> Survives(c, sol, i)
  {
    if forall i :: 0 <= i < |c.defs| ==> Survives(c, sol, i) {
      forall i | 0 <= i < |c.defs| ensures sol.tri(Refer(c.defs, i)) == sol'.tri(Refer(c.defs, i)) {
        ReloadSame(c, rank, sol, sol', i);
      }
    }
    if SameValues(c, sol, sol') {
      forall i | 0 <= i < |c.defs| ensures Survives(c, sol, i) {
        forall s | s in Dependencies(c.defs[i]) && s.SymConfig? ensures sol.tri(s) == sol'.tri(s) {
          DependencyRank0(c.defs, i, s);
        }
        ReloadOne(c, sol, sol', i);
      }
    }
  }

  lemma DependencyRank0(defs: Defs, i: nat, s: Symbol)
    requires WellFormed(defs) && i < |defs| && s in Dependencies(defs[i]) && s.SymConfig?
    ensures s.id < |defs| && s == Refer(defs, s.id)
  {
    assert RefersWell(defs, Dependencies(defs[i]));
  }

  /** One symbol, visible as m and y by default: saved as y and loaded again, it is m. */
  lemma ReloadLoses(base: Env, sol: Env, sol': Env)
    ensures var c := Config([CAPPED], [None], 2, base);
      && c.Valid()
      && (Solves(c, sol) && Solves(Reloaded(c, sol), sol') ==>
          sol.tri(Refer(c.defs, 0)) == 2 && sol'.tri(Refer(c.defs, 0)) == 1 && !Survives(c, sol, 0))
  {
    CappedAlone(base);
    var c := Config([CAPPED], [None], 2, base);
    if Solves(c, sol) && Solves(Reloaded(c, sol), sol') {
      CappedValues(sol);
      CappedValues(sol');
      assert Reloaded(c, sol).user[0] == Some(2);
    }
  }

  lemma CappedAlone(base: Env)
    ensures Config([CAPPED], [None], 2, base).Valid()
  {
    assert PropsSymbols(CAPPED.props[1..][1..]) == [];
    assert PropsSymbols(CAPPED.props[1..]) == [SymYes];
    assert Dependencies(CAPPED) == [SymMod, SymYes];
  }

  /** A symbol that the user could set to its value keeps it: every value that the user gave survives. */
  lemma UserValuesSurvive(c: Config, sol: Env, i: nat)
    requires c.Valid() && Solves(c, sol) && i < |c.defs|
    requires c.defs[i].ty.Boolean? || c.user[i].Some? || c.modules == 0
    ensures Survives(c, sol, i)
  {
  }
}
