/** The whole cycle: values are computed, saved, loaded as settings of the user, and computed again. */
module ConfCycle {
  import opened MenuForest
  import opened ConfWriteSpec
  import opened KconfigExpr
  import opened KconfigSymbols
  import opened KconfigValue
  import opened KconfigReload
  import opened ConfLine
  import opened ConfRead
  import opened ConfSave

  /** These are the symbols that the computation wants in the file. */
  ghost predicate IsWritten(c: Config, sol: Env, syms: set<nat>)
    requires c.Valid()
  {
    forall s: nat :: s in syms <==> s < |c.defs| && Written(c.defs[s], c.user[s], c.modules, sol)
  }

  /** The menu and the texts printed belong to a configuration with computed values: a symbol is written if
      the computation says so and has a node outside choices, names have the types of their symbols and tell
      them apart, and bool and tristate symbols are printed with their value.  The others have some text. */
  ghost predicate Shows(types: map<string, SymType>, c: Config, sol: Env, f: Forest, q: Menu, x: Texts)
    requires c.Valid()
  {
    && IsWritten(c, sol, DueSyms(Preorder(f), q))
    && (forall s: nat :: s < |c.defs| ==> x.name(s) in types && types[x.name(s)] == c.defs[s].ty)
    && (forall s: nat :: s < |c.defs| && TriType(c.defs[s].ty) ==>
          x.value(s) == Setting.State(sol.tri(Refer(c.defs, s))))
    && (forall s: nat, t: nat :: s < |c.defs| && t < |c.defs| && s != t ==> x.name(s) != x.name(t))
  }

  /** The settings of a loaded file, symbol by symbol. */
  function UserOf(c: Config, x: Texts, m: map<string, Setting>): seq<Option<Tri>> {
    seq(|c.defs|, i requires 0 <= i < |c.defs| =>
      if x.name(i) in m && m[x.name(i)].State? then Some(m[x.name(i)].t) else None)
  }

  /** What is loaded is what the computation called for. */
  lemma LoadedUser(types: map<string, SymType>, c: Config, sol: Env, f: Forest, q: Menu, x: Texts)
    requires c.Valid() && Shows(types, c, sol, f, q, x) && Sound(types, x, DueSyms(Preorder(f), q))
    ensures var rows := SavedRows(f, q, x);
      && AllFine(types, rows)
      && UserOf(c, x, ReadAll(types, FileText(types, rows), map[])) == Reloaded(c, sol).user
  {
    SaveAndLoad(types, f, q, x);
    UserExactly(types, c, sol, f, q, x, ReadAll(types, FileText(types, SavedRows(f, q, x)), map[]));
  }

  lemma UserExactly(types: map<string, SymType>, c: Config, sol: Env, f: Forest, q: Menu, x: Texts,
                    m: map<string, Setting>)
    requires c.Valid() && Shows(types, c, sol, f, q, x) && Sound(types, x, DueSyms(Preorder(f), q))
    requires SetExactly(m, DueSyms(Preorder(f), q), x)
    ensures UserOf(c, x, m) == Reloaded(c, sol).user
  {
    forall i: nat | i < |c.defs| ensures UserOf(c, x, m)[i] == Reloaded(c, sol).user[i] {
      if x.name(i) in m {
        var s :| s in DueSyms(Preorder(f), q) && x.name(s) == x.name(i);
        assert s == i;
      }
    }
  }

  /** Computed, saved, loaded and computed again, all values are the same, exactly if no visible symbol is
      above its prompt without being selected to its value. */
  lemma CycleKeeps(types: map<string, SymType>, c: Config, rank: map<nat, nat>, sol: Env, sol': Env, f: Forest,
                   q: Menu, x: Texts)
    requires c.Valid() && Ranks(c.defs, rank) && Solves(c, sol)
    requires Shows(types, c, sol, f, q, x) && Sound(types, x, DueSyms(Preorder(f), q))
    requires var rows := SavedRows(f, q, x);
      && AllFine(types, rows)
      && var c' := c.(user := UserOf(c, x, ReadAll(types, FileText(types, rows), map[])));
         c'.Valid() && Solves(c', sol')
    ensures SameValues(c, sol, sol') <==> forall i :: 0 <= i < |c.defs| ==> Survives(c, sol, i)
  {
    LoadedUser(types, c, sol, f, q, x);
    ReloadKeeps(c, rank, sol, sol');
  }
}
