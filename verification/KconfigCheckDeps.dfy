/** sym_check_deps: the depth-first search for recursive dependencies. */
module KconfigCheckDeps {
  import opened KconfigExpr
  import opened KconfigSymbols

  ghost function Below(n: nat): (r: set<nat>)
    ensures forall i: nat :: i in r <==> i < n
  {
    if n == 0 then {} else Below(n - 1) + {n - 1}
  }

  /** The stack is a dependency walk through exactly the symbols under check, each once. */
  ghost predicate StackOk(defs: Defs, stack: seq<nat>, check: set<nat>) {
    if stack == [] then check == {}
    else
      var i, rest := stack[|stack| - 1], stack[..|stack| - 1];
      && i < |defs| && i in check
      && (rest != [] ==> Edge(defs, rest[|rest| - 1], i))
      && StackOk(defs, rest, check - {i})
  }

  ghost function SeqSet(s: seq<nat>): set<nat> {
    if s == [] then {} else SeqSet(s[..|s| - 1]) + {s[|s| - 1]}
  }

  /** Symbols in the order in which their checks were completed: each depends on earlier ones only. */
  ghost predicate DoneOk(defs: Defs, done: seq<nat>) {
    done == [] ||
    var i, rest := done[|done| - 1], done[..|done| - 1];
    i < |defs| && i !in SeqSet(rest) && Completed(Dependencies(defs[i]), SeqSet(rest)) && DoneOk(defs, rest)
  }

  /** A symbol's rank is its place in that order. */
  ghost function RankOf(done: seq<nat>): map<nat, nat> {
    if done == [] then map[] else RankOf(done[..|done| - 1])[done[|done| - 1] := |done| - 1]
  }

  /** Complete symbols depend on complete symbols of smaller rank only. */
  ghost predicate RankedSet(defs: Defs, rank: map<nat, nat>, complete: set<nat>) {
    && rank.Keys == complete
    && (forall i :: i in rank ==> rank[i] < |rank|)
    && forall i, j {:trigger Edge(defs, i, j)} :: i in rank && Edge(defs, i, j) ==> j in rank && rank[j] < rank[i]
  }

  /** All these symbols are complete.  Constants have nothing to complete. */
  ghost predicate Completed(ss: seq<Symbol>, complete: set<nat>) {
    forall s :: s in ss && s.SymConfig? ==> s.id in complete
  }

  /** The order in which all symbols are visited. */
  ghost predicate Lists(defs: Defs, order: seq<nat>) {
    && (forall k :: 0 <= k < |order| ==> order[k] < |defs|)
    && (forall i: nat :: i < |defs| ==> i in order)
  }

  ghost predicate AllIn(order: seq<nat>, n: nat, s: set<nat>) {
    forall k :: 0 <= k < n <= |order| ==> order[k] in s
  }

  lemma AllInMore(order: seq<nat>, n: nat, s: set<nat>, t: set<nat>)
    requires AllIn(order, n, s) && s <= t && n < |order| && order[n] in t
    ensures AllIn(order, n + 1, t)
  {
  }

  lemma CompletedMore(ps: seq<Property>, n: nat, before: set<nat>, after: set<nat>, clean: bool)
    requires n < |ps| && before <= after
    requires clean ==> Completed(PropsSymbols(ps[..n]), before) && Completed(PropSymbols(ps[n]), after)
    ensures clean ==> Completed(PropsSymbols(ps[..n + 1]), after)
  {
    PropsSnoc(ps, n);
  }

  ghost predicate AllOnCycle(defs: Defs, reported: seq<nat>) {
    forall k :: 0 <= k < |reported| ==> OnCycle(defs, reported[k])
  }

  lemma StackPush(defs: Defs, stack: seq<nat>, check: set<nat>, i: nat)
    requires StackOk(defs, stack, check) && i < |defs| && i !in check
    requires stack != [] ==> Edge(defs, stack[|stack| - 1], i)
    ensures StackOk(defs, stack + [i], check + {i})
  {
    PushParts(stack, i);
    UndoEnter(check, check, i);
  }

  lemma PushParts(stack: seq<nat>, i: nat)
    ensures (stack + [i])[..|stack|] == stack && |stack + [i]| == |stack| + 1 && (stack + [i])[|stack|] == i
  {
  }

  /** From a symbol on the stack the dependencies lead to the top of the stack. */
  lemma {:induction false} WalkToTop(defs: Defs, stack: seq<nat>, check: set<nat>, i: nat) returns (p: seq<nat>)
    requires StackOk(defs, stack, check) && i in check
    ensures stack != [] && Walk(defs, p) && p[0] == i && p[|p| - 1] == stack[|stack| - 1]
  {
    var top, rest := stack[|stack| - 1], stack[..|stack| - 1];
    if i == top {
      p := [i];
    } else {
      p := WalkToTop(defs, rest, check - {top}, i);
      WalkOn(defs, p, top);
      p := p + [top];
    }
  }

  lemma WalkOn(defs: Defs, p: seq<nat>, j: nat)
    requires Walk(defs, p) && Edge(defs, p[|p| - 1], j)
    ensures Walk(defs, p + [j])
  {
    var q := p + [j];
    forall k | 0 <= k < |q| - 1 ensures Edge(defs, q[k], q[k + 1]) {
      if k < |p| - 1 { assert Edge(defs, p[k], p[k + 1]); }
    }
  }

  /** A symbol met again while under check closes a cycle. */
  lemma StackCycle(defs: Defs, stack: seq<nat>, check: set<nat>, i: nat)
    requires StackOk(defs, stack, check) && stack != [] && i in check
    requires Edge(defs, stack[|stack| - 1], i)
    ensures OnCycle(defs, i)
  {
    var p := WalkToTop(defs, stack, check, i);
    WalkOn(defs, p, i);
    assert |p + [i]| >= 2 && (p + [i])[0] == i;
  }

  /** The places in the order rank the symbols. */
  lemma {:induction false} DoneRanked(defs: Defs, done: seq<nat>)
    requires DoneOk(defs, done)
    ensures RankedSet(defs, RankOf(done), SeqSet(done)) && |RankOf(done)| == |done|
  {
    if done != [] {
      var i, rest := done[|done| - 1], done[..|done| - 1];
      DoneRanked(defs, rest);
      RankedAdd(defs, RankOf(rest), SeqSet(rest), i);
      MapGrows(RankOf(rest), i, |rest|);
    }
  }

  /** A symbol whose dependencies are all complete may be completed. */
  lemma RankedAdd(defs: Defs, rank: map<nat, nat>, complete: set<nat>, i: nat)
    requires RankedSet(defs, rank, complete) && i !in complete
    requires i < |defs| && Completed(Dependencies(defs[i]), complete)
    ensures RankedSet(defs, rank[i := |rank|], complete + {i})
  {
    var rank' := rank[i := |rank|];
    MapGrows(rank, i, |rank|);
    forall j, k | j in rank' && Edge(defs, j, k)
      ensures k in rank' && rank'[k] < rank'[j]
    {
      if j == i { assert Refer(defs, k) in Dependencies(defs[i]); assert k in rank; } else { assert j in rank; }
    }
  }

  lemma MapGrows(m: map<nat, nat>, i: nat, x: nat)
    requires i !in m
    ensures |m[i := x]| == |m| + 1 && m[i := x].Keys == m.Keys + {i}
  {
  }

  /** Flags, stack and order fit together. */
  ghost predicate Good(defs: Defs, check: set<nat>, checked: set<nat>, stack: seq<nat>, done: seq<nat>, clean: bool) {
    && WellFormed(defs) && check <= checked <= Below(|defs|) && StackOk(defs, stack, check)
    && (clean ==> DoneOk(defs, done) && SeqSet(done) == checked - check)
  }

  lemma LeaveGood(defs: Defs, check: set<nat>, checked: set<nat>, below: seq<nat>, done: seq<nat>, clean: bool, i: nat)
    requires Good(defs, check, checked, below + [i], done, clean) && i < |defs|
    requires clean ==> Completed(Dependencies(defs[i]), checked - check)
    ensures Good(defs, check - {i}, checked, below, done + [i], clean)
  {
    PushParts(below, i);
    TakeOut(checked, check, i);
    PushParts(done, i);
  }

  lemma EnterGood(defs: Defs, check: set<nat>, checked: set<nat>, stack: seq<nat>, done: seq<nat>, clean: bool, i: nat)
    requires Good(defs, check, checked, stack, done, clean)
    requires i < |defs| && i !in checked && (stack != [] ==> Edge(defs, stack[|stack| - 1], i))
    ensures Good(defs, check + {i}, checked + {i}, stack + [i], done, clean)
  {
    StackPush(defs, stack, check, i);
    PutIn(checked, check, i);
  }

  lemma UndoEnter(checked: set<nat>, check: set<nat>, i: nat)
    requires check <= checked && i !in checked
    ensures (check + {i}) - {i} == check && checked <= checked + {i}
  {
  }

  lemma FewerLeft(all: set<nat>, checked: set<nat>, i: nat)
    requires i in all && i !in checked
    ensures all - (checked + {i}) < all - checked
  {
    assert i in all - checked;
  }

  lemma TakeOut(checked: set<nat>, check: set<nat>, i: nat)
    requires check <= checked && i in check
    ensures checked - (check - {i}) == (checked - check) + {i} && check - {i} <= checked && i !in checked - check
  {
  }

  lemma PutIn(checked: set<nat>, check: set<nat>, i: nat)
    requires check <= checked && i !in checked
    ensures (checked + {i}) - (check + {i}) == checked - check && check + {i} <= checked + {i}
  {
  }

  class Checker {
    const defs: Defs
    /** The symbols whose CHECK flag, and whose CHECKED flag, is set. */
    var check: set<nat>
    var checked: set<nat>
    /** The symbols being checked, innermost last. */
    var stack: seq<nat>
    /** The symbols whose check is complete, in order, as long as nothing was complained about. */
    ghost var done: seq<nat>
    ghost var clean: bool

    constructor (d: Defs)
      requires WellFormed(d)
      ensures defs == d && check == {} && checked == {} && stack == [] && clean && Valid()
    {
      defs, check, checked, stack, done, clean := d, {}, {}, [], [], true;
    }

    ghost predicate Valid()
      reads this
    {
      Good(defs, check, checked, stack, done, clean)
    }

    /** The symbol whose dependencies are being visited. */
    ghost predicate Visiting(i: nat)
      reads this
    {
      stack != [] && stack[|stack| - 1] == i && i < |defs|
    }

    /** What every check promises: flags and stack are restored, a reported symbol lies on a cycle. */
    twostate predicate Kept(new r: Option<nat>)
      reads this
    {
      && Valid() && check == old(check) && stack == old(stack) && old(checked) <= checked
      && (r.Some? ==> OnCycle(defs, r.value) && !clean)
      && (r.None? ==> clean == old(clean))
    }

    method CheckSymbol(s: Symbol) returns (r: Option<nat>)
      requires Valid() && RefersWell(defs, [s])
      requires stack != [] ==> s in Dependencies(defs[stack[|stack| - 1]])
      modifies this
      ensures Kept(r)
      ensures r.None? && clean ==> Completed([s], checked - check)
      decreases Below(|defs|) - checked, 0, 2
    {
      // constants have no dependencies
      if !s.SymConfig? { return None; }
      assert s in [s] && s == Refer(defs, s.id);
      r := CheckId(s.id);
    }

    method CheckId(i: nat) returns (r: Option<nat>)
      requires Valid() && i < |defs|
      requires stack != [] ==> Edge(defs, stack[|stack| - 1], i)
      modifies this
      ensures Kept(r)
      ensures r.None? && clean ==> i in checked - check
      decreases Below(|defs|) - checked, 0, 1
    {
      if i in check {
        StackCycle(defs, stack, check, i);
        clean := false;
        return Some(i);
      }
      if i in checked { return None; }
      r := CheckNew(i);
    }

    /** A symbol that is met for the first time. */
    method CheckNew(i: nat) returns (r: Option<nat>)
      requires Valid() && i < |defs| && i !in checked
      requires stack != [] ==> Edge(defs, stack[|stack| - 1], i)
      modifies this
      ensures Kept(r)
      ensures r.None? && clean ==> i in checked - check
      decreases Below(|defs|) - checked, 0, 0
    {
      UndoEnter(checked, check, i);
      PushParts(stack, i);
      FewerLeft(Below(|defs|), checked, i);
      Enter(i);
      ghost var below := old(stack);
      r := CheckDependencies(i);
      Leave(i, below, r.None?);
    }

    method Enter(i: nat)
      requires Valid() && i < |defs| && i !in checked
      requires stack != [] ==> Edge(defs, stack[|stack| - 1], i)
      modifies this
      ensures Valid() && clean == old(clean)
      ensures check == old(check) + {i} && checked == old(checked) + {i} && stack == old(stack) + [i]
    {
      EnterGood(defs, check, checked, stack, done, clean, i);
      check, checked, stack := check + {i}, checked + {i}, stack + [i];
    }

    method Leave(i: nat, ghost below: seq<nat>, ghost fine: bool)
      requires Valid() && stack == below + [i] && i < |defs|
      requires fine && clean ==> Completed(Dependencies(defs[i]), checked - check)
      requires !fine ==> !clean
      modifies this
      ensures Valid() && clean == old(clean) && checked == old(checked)
      ensures check == old(check) - {i} && stack == below
    {
      LeaveGood(defs, check, checked, below, done, clean, i);
      PushParts(below, i);
      check, stack, done := check - {i}, stack[..|stack| - 1], done + [i];
    }

    /** sym_check_sym_deps: all the expressions of one symbol, in order. */
    method CheckDependencies(i: nat) returns (r: Option<nat>)
      requires Valid() && Visiting(i)
      modifies this
      ensures Kept(r)
      ensures r.None? && clean ==> Completed(Dependencies(defs[i]), checked - check)
      decreases Below(|defs|) - checked, 4
    {
      var d := defs[i];
      r := CheckExprOpt(d.dirDep, i);
      if r.Some? { return; }
      r := CheckExprOpt(d.revDep, i);
      if r.Some? { return; }
      r := CheckExprOpt(d.implied, i);
      if r.Some? { return; }
      r := CheckProperties(i);
    }

    method CheckProperties(i: nat) returns (r: Option<nat>)
      requires Valid() && Visiting(i)
      modifies this
      ensures Kept(r)
      ensures r.None? && clean ==> Completed(PropsSymbols(defs[i].props), checked - check)
      decreases Below(|defs|) - checked, 3, 2
    {
      var n := 0;
      r := None;
      AllProps(defs[i].props);
      while n < |defs[i].props|
        invariant 0 <= n <= |defs[i].props|
        invariant Kept(r) && r.None?
        invariant clean ==> Completed(PropsSymbols(defs[i].props[..n]), checked - check)
      {
        r := CheckNth(i, n);
        if r.Some? { return; }
        n := n + 1;
      }
    }

    /** One turn of that loop. */
    method CheckNth(i: nat, n: nat) returns (r: Option<nat>)
      requires Valid() && Visiting(i) && n < |defs[i].props|
      requires clean ==> Completed(PropsSymbols(defs[i].props[..n]), checked - check)
      modifies this
      ensures Kept(r)
      ensures r.None? && clean ==> Completed(PropsSymbols(defs[i].props[..n + 1]), checked - check)
      decreases Below(|defs|) - checked, 3, 1
    {
      PropInDependencies(defs[i], n);
      ghost var before := checked - check;
      r := CheckProperty(defs[i].props[n], i);
      CompletedMore(defs[i].props, n, before, checked - check, r.None? && clean);
    }

    method CheckProperty(p: Property, i: nat) returns (r: Option<nat>)
      requires Valid() && Visiting(i)
      requires forall s :: s in PropSymbols(p) ==> s in Dependencies(defs[i])
      modifies this
      ensures Kept(r)
      ensures r.None? && clean ==> Completed(PropSymbols(p), checked - check)
      decreases Below(|defs|) - checked, 3, 0
    {
      if p.kind.Select? || p.kind.Imply? { return None; }
      r := CheckExprOpt(p.visible, i);
      if r.Some? || !p.kind.Default? { return; }
      r := CheckExprOpt(p.expr, i);
    }

    method CheckExprOpt(e: Option<Expr>, ghost i: nat) returns (r: Option<nat>)
      requires Valid() && Visiting(i)
      requires forall s :: s in SymbolsOpt(e) ==> s in Dependencies(defs[i])
      modifies this
      ensures Kept(r)
      ensures r.None? && clean ==> Completed(SymbolsOpt(e), checked - check)
      decreases Below(|defs|) - checked, 2
    {
      if e.None? { return None; }
      assert SymbolsOpt(e) == Symbols(e.value);
      r := CheckExpr(e.value, i);
    }

    /** sym_check_expr_deps. */
    method CheckExpr(e: Expr, ghost i: nat) returns (r: Option<nat>)
      requires Valid() && Visiting(i)
      requires forall s :: s in Symbols(e) ==> s in Dependencies(defs[i])
      modifies this
      ensures Kept(r)
      ensures r.None? && clean ==> Completed(Symbols(e), checked - check)
      decreases Below(|defs|) - checked, 1, e, 1
    {
      match e {
        case ESym(s) => r := CheckOperand(s, i);
        case ENot(x) => r := CheckExpr(x, i);
        case EAnd(a, b) => r := CheckBoth(a, b, e, i);
        case EOr(a, b) => r := CheckBoth(a, b, e, i);
        case ECmp(_, a, b) =>
          r := CheckOperand(a, i);
          if r.None? { r := CheckOperand(b, i); }
      }
    }

    method CheckBoth(a: Expr, b: Expr, ghost e: Expr, ghost i: nat) returns (r: Option<nat>)
      requires Valid() && Visiting(i)
      requires a < e && b < e
      requires forall s :: s in Symbols(a) + Symbols(b) ==> s in Dependencies(defs[i])
      modifies this
      ensures Kept(r)
      ensures r.None? && clean ==> Completed(Symbols(a) + Symbols(b), checked - check)
      decreases Below(|defs|) - checked, 1, e, 0
    {
      r := CheckExpr(a, i);
      if r.None? { r := CheckExpr(b, i); }
    }

    method CheckOperand(s: Symbol, ghost i: nat) returns (r: Option<nat>)
      requires Valid() && Visiting(i) && s in Dependencies(defs[i])
      modifies this
      ensures Kept(r)
      ensures r.None? && clean ==> Completed([s], checked - check)
      decreases Below(|defs|) - checked, 0, 3
    {
      assert RefersWell(defs, Dependencies(defs[i]));
      r := CheckSymbol(s);
    }

    /** The check of every symbol, in any order, from cleared flags: it complains exactly about cyclic
        graphs, and only about symbols on a cycle.  Without complaints the graph has ranks. */
    method CheckAll(order: seq<nat>) returns (errors: nat, reported: seq<nat>)
      requires Valid() && clean && check == {} && checked == {} && stack == []
      requires Lists(defs, order)
      modifies this
      ensures errors == 0 <==> Acyclic(defs)
      ensures errors == |reported| && AllOnCycle(defs, reported)
      ensures errors == 0 ==> Ranks(defs, RankOf(done))
      ensures check == {} && stack == []
    {
      errors, reported := 0, [];
      var n := 0;
      while n < |order|
        invariant 0 <= n <= |order|
        invariant Valid() && check == {} && stack == []
        invariant errors == |reported| && AllOnCycle(defs, reported)
        invariant errors == 0 <==> clean
        invariant clean ==> AllIn(order, n, checked)
      {
        ghost var before := checked;
        var r := CheckId(order[n]);
        if clean { AllInMore(order, n, before, checked); }
        if r.Some? { errors, reported := errors + 1, reported + [r.value]; }
        n := n + 1;
      }
      Verdict(order, errors, reported);
    }

    lemma Verdict(order: seq<nat>, errors: nat, reported: seq<nat>)
      requires Valid() && check == {} && (errors == 0 <==> clean)
      requires Lists(defs, order)
      requires errors == |reported| && AllOnCycle(defs, reported)
      requires clean ==> AllIn(order, |order|, checked)
      ensures errors == 0 <==> Acyclic(defs)
      ensures errors == 0 ==> Ranks(defs, RankOf(done))
    {
      if errors == 0 {
        DoneRanked(defs, done);
        forall i | 0 <= i < |defs| ensures i in RankOf(done) { assert i in order; assert i in checked - check; }
        RankedAcyclic(defs, RankOf(done));
      } else {
        assert OnCycle(defs, reported[0]);
      }
    }
  }

  lemma AllProps(ps: seq<Property>)
    ensures ps[..|ps|] == ps && PropsSymbols(ps[..0]) == []
  {
  }

  lemma {:induction false} PropsSnoc(ps: seq<Property>, n: nat)
    requires n < |ps|
    ensures PropsSymbols(ps[..n + 1]) == PropsSymbols(ps[..n]) + PropSymbols(ps[n])
  {
    if n > 0 {
      PropsSnoc(ps[1..], n - 1);
      assert ps[..n + 1][1..] == ps[1..][..n] && ps[..n][1..] == ps[1..][..n - 1];
    }
  }
}
