/** Symbol definitions and the dependency graph between them. */
module KconfigSymbols {
  import opened KconfigExpr

  datatype PropKind = Prompt | Comment | MenuTitle | Default | Select | Imply | Range | Definition

  /** A property: its condition and, for defaults, the default expression. */
  datatype Property = Property(kind: PropKind, visible: Option<Expr>, expr: Option<Expr>)

  /** The properties that carry text for the user. */
  predicate HasText(p: Property) { p.kind.Prompt? || p.kind.Comment? || p.kind.MenuTitle? }

  datatype SymbolDef = SymbolDef(
    ty: SymType, props: seq<Property>,
    dirDep: Option<Expr>, revDep: Option<Expr>, implied: Option<Expr>)

  /** All symbols; SymConfig(i, ty) refers to entry i. */
  type Defs = seq<SymbolDef>

  function Refer(defs: Defs, i: nat): Symbol
    requires i < |defs|
  {
    SymConfig(i, defs[i].ty)
  }

  /** The symbols of an expression, in the order in which they are visited. */
  function Symbols(e: Expr): seq<Symbol> {
    match e
    case ESym(s) => [s]
    case ENot(x) => Symbols(x)
    case EAnd(l, r) => Symbols(l) + Symbols(r)
    case EOr(l, r) => Symbols(l) + Symbols(r)
    case ECmp(_, l, r) => [l, r]
  }

  function SymbolsOpt(e: Option<Expr>): seq<Symbol> { if e.None? then [] else Symbols(e.value) }

  /** What a property makes its symbol depend on.  Selects and implies act on other symbols. */
  function PropSymbols(p: Property): seq<Symbol> {
    if p.kind.Select? || p.kind.Imply? then []
    else SymbolsOpt(p.visible) + if p.kind.Default? then SymbolsOpt(p.expr) else []
  }

  function PropsSymbols(ps: seq<Property>): seq<Symbol> {
    if ps == [] then [] else PropSymbols(ps[0]) + PropsSymbols(ps[1..])
  }

  lemma {:induction false} PropAmong(ps: seq<Property>, n: nat, s: Symbol)
    requires n < |ps| && s in PropSymbols(ps[n])
    ensures s in PropsSymbols(ps)
  {
    if n > 0 { PropAmong(ps[1..], n - 1, s); }
  }

  lemma PropInDependencies(d: SymbolDef, n: nat)
    requires n < |d.props|
    ensures forall s :: s in PropSymbols(d.props[n]) ==> s in Dependencies(d)
  {
    forall s | s in PropSymbols(d.props[n]) ensures s in Dependencies(d) {
      PropAmong(d.props, n, s);
    }
  }

  function Dependencies(d: SymbolDef): seq<Symbol> {
    SymbolsOpt(d.dirDep) + SymbolsOpt(d.revDep) + SymbolsOpt(d.implied) + PropsSymbols(d.props)
  }

  /** The symbol stands in the condition or expression. */
  predicate Mentions(e: Option<Expr>, s: Symbol) { e.Some? && s in Symbols(e.value) }

  lemma {:induction false} AmongProps(ps: seq<Property>, s: Symbol)
    ensures s in PropsSymbols(ps) ==> exists n :: 0 <= n < |ps| && s in PropSymbols(ps[n])
  {
    if ps != [] && s in PropsSymbols(ps) && s !in PropSymbols(ps[0]) {
      AmongProps(ps[1..], s);
      var n :| 0 <= n < |ps[1..]| && s in PropSymbols(ps[1..][n]);
      assert ps[n + 1] == ps[1..][n];
    }
  }

  /** A symbol depends on those in its dependencies, in the conditions of its properties but for selects and
      implies, and in its defaults. */
  lemma DependenciesExactly(d: SymbolDef, s: Symbol)
    ensures s in Dependencies(d) <==>
      || Mentions(d.dirDep, s) || Mentions(d.revDep, s) || Mentions(d.implied, s)
      || (exists n :: 0 <= n < |d.props| && d.props[n].kind != Select && d.props[n].kind != Imply &&
            (Mentions(d.props[n].visible, s) || (d.props[n].kind == Default && Mentions(d.props[n].expr, s))))
  {
    AmongProps(d.props, s);
    forall n | 0 <= n < |d.props| && s in PropSymbols(d.props[n]) ensures s in PropsSymbols(d.props) {
      PropAmong(d.props, n, s);
    }
  }

  /** References are to existing symbols and carry their type. */
  ghost predicate RefersWell(defs: Defs, ss: seq<Symbol>) {
    forall s :: s in ss && s.SymConfig? ==> s.id < |defs| && s.ty == defs[s.id].ty
  }

  ghost predicate WellFormed(defs: Defs) {
    forall i :: 0 <= i < |defs| ==> RefersWell(defs, Dependencies(defs[i]))
  }

  /** Symbol `i` depends directly on symbol `j`. */
  ghost predicate Edge(defs: Defs, i: nat, j: nat) {
    i < |defs| && j < |defs| && Refer(defs, j) in Dependencies(defs[i])
  }

  /** A walk along dependencies. */
  ghost predicate Walk(defs: Defs, p: seq<nat>) {
    p != [] && forall k :: 0 <= k < |p| - 1 ==> Edge(defs, p[k], p[k + 1])
  }

  ghost predicate OnCycle(defs: Defs, i: nat) {
    exists p :: |p| >= 2 && Walk(defs, p) && p[0] == i && p[|p| - 1] == i
  }

  ghost predicate Acyclic(defs: Defs) {
    forall i :: !OnCycle(defs, i)
  }

  /** Every dependency has a smaller rank. */
  ghost predicate Ranks(defs: Defs, rank: map<nat, nat>) {
    && (forall i :: 0 <= i < |defs| ==> i in rank)
    && forall i, j :: Edge(defs, i, j) ==> rank[j] < rank[i]
  }

  lemma {:induction false} WalkDescends(defs: Defs, rank: map<nat, nat>, p: seq<nat>)
    requires Ranks(defs, rank) && Walk(defs, p) && |p| >= 2
    ensures p[0] in rank && p[|p| - 1] in rank && rank[p[|p| - 1]] < rank[p[0]]
  {
    assert Edge(defs, p[0], p[1]);
    if |p| > 2 {
      var q := p[1..];
      forall k | 0 <= k < |q| - 1 ensures Edge(defs, q[k], q[k + 1]) {
        assert Edge(defs, p[k + 1], p[(k + 1) + 1]);
      }
      WalkDescends(defs, rank, q);
    }
  }

  lemma RankedAcyclic(defs: Defs, rank: map<nat, nat>)
    requires Ranks(defs, rank)
    ensures Acyclic(defs)
  {
    forall i ensures !OnCycle(defs, i) {
      if OnCycle(defs, i) {
        var p :| |p| >= 2 && Walk(defs, p) && p[0] == i && p[|p| - 1] == i;
        WalkDescends(defs, rank, p);
        assert false;
      }
    }
  }
}
