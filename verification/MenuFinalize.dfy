/** menu_finalize on forests: automatic submenus and flattening keep the order of the menu. */
module MenuFinalize {
  import opened MenuForest

  /** Everything the restructuring asks of the menu nodes.  `takes(s, m)` is the answer to "does entry m
      belong into the submenu of symbol node s"; the answers are arbitrary. */
  datatype Answers = Answers(hasSym: nat -> bool, promptless: nat -> bool, takes: (nat, nat) -> bool)

  /** menu_finalize for the node `t` with the siblings `fs` behind it: the finished node, and the
      siblings that it did not take into its submenu. */
  function Finalize(t: Tree, fs: Forest, q: Answers): (r: (Tree, Forest))
    ensures Count(r.0.kids) + Count(r.1) == Count(t.kids) + Count(fs)
    ensures r.0.id == t.id
    decreases 1 + Count(t.kids) + Count(fs), 0
  {
    if t.kids != [] then (Node(t.id, Flatten(FinalizeAll(t.kids, q), q)), fs)
    else if q.hasSym(t.id) then
      var r := Absorb(t.id, fs, q);
      (Node(t.id, Flatten(r.0, q)), r.1)
    else (t, fs)
  }

  /** The loop over the entries after a symbol: each entry taken is itself finished first. */
  function Absorb(s: nat, fs: Forest, q: Answers): (r: (Forest, Forest))
    ensures Count(r.0) + Count(r.1) == Count(fs)
    decreases Count(fs), 1
  {
    if fs == [] || !q.takes(s, fs[0].id) then ([], fs)
    else
      var m := Finalize(fs[0], fs[1..], q);
      var ms := Absorb(s, m.1, q);
      CountCons(m.0, ms.0);
      ([m.0] + ms.0, ms.1)
  }

  /** The loop over the children of a node. */
  function FinalizeAll(fs: Forest, q: Answers): (r: Forest)
    ensures Count(r) == Count(fs)
    decreases Count(fs), 1
  {
    if fs == [] then []
    else
      var m := Finalize(fs[0], fs[1..], q);
      var ms := FinalizeAll(m.1, q);
      CountCons(m.0, ms);
      [m.0] + ms
  }

  /** The loop that lifts the children of entries without a prompt. */
  function Flatten(cs: Forest, q: Answers): (r: Forest)
    ensures Count(r) == Count(cs)
    decreases Count(cs)
  {
    if cs == [] then []
    else if cs[0].kids != [] && q.promptless(cs[0].id) then
      CountAppend(cs[0].kids, cs[1..]);
      var rest := Flatten(cs[0].kids + cs[1..], q);
      CountCons(Node(cs[0].id, []), rest);
      [Node(cs[0].id, [])] + rest
    else
      CountCons(cs[0], Flatten(cs[1..], q));
      [cs[0]] + Flatten(cs[1..], q)
  }

  // ----- the order of the menu is kept -----

  /** Lifting children keeps the order. */
  lemma {:induction false} FlattenKeepsOrder(cs: Forest, q: Answers)
    ensures Preorder(Flatten(cs, q)) == Preorder(cs)
    decreases Count(cs)
  {
    if cs != [] {
      if cs[0].kids != [] && q.promptless(cs[0].id) {
        CountAppend(cs[0].kids, cs[1..]);
        PreorderAppend(cs[0].kids, cs[1..]);
        FlattenKeepsOrder(cs[0].kids + cs[1..], q);
        PreorderCons(Node(cs[0].id, []), Flatten(cs[0].kids + cs[1..], q));
      } else {
        FlattenKeepsOrder(cs[1..], q);
        PreorderCons(cs[0], Flatten(cs[1..], q));
      }
    }
  }

  /** Creating submenus and flattening, at every level, keep the order: the finished node and the siblings
      left over read like the node and its siblings before. */
  lemma {:induction false} FinalizeKeepsOrder(t: Tree, fs: Forest, q: Answers)
    ensures Preorder([Finalize(t, fs, q).0]) + Preorder(Finalize(t, fs, q).1) == Preorder([t] + fs)
    decreases 1 + Count(t.kids) + Count(fs), 0
  {
    var r := Finalize(t, fs, q);
    PreorderCons(t, fs);
    PreorderOne(t);
    PreorderOne(r.0);
    if t.kids != [] {
      FinalizeAllKeepsOrder(t.kids, q);
      FlattenKeepsOrder(FinalizeAll(t.kids, q), q);
    } else if q.hasSym(t.id) {
      AbsorbKeepsOrder(t.id, fs, q);
      FlattenKeepsOrder(Absorb(t.id, fs, q).0, q);
    }
  }

  lemma PreorderOne(t: Tree)
    ensures Preorder([t]) == [t.id] + Preorder(t.kids)
  {
    var none: Forest := [];
    assert [t] + none == [t];
    PreorderCons(t, none);
  }

  lemma {:induction false} AbsorbKeepsOrder(s: nat, fs: Forest, q: Answers)
    ensures Preorder(Absorb(s, fs, q).0) + Preorder(Absorb(s, fs, q).1) == Preorder(fs)
    decreases Count(fs), 1
  {
    if fs != [] && q.takes(s, fs[0].id) {
      assert [fs[0]] + fs[1..] == fs;
      var m := Finalize(fs[0], fs[1..], q);
      FinalizeKeepsOrder(fs[0], fs[1..], q);
      AbsorbKeepsOrder(s, m.1, q);
      PreorderAppend([m.0], Absorb(s, m.1, q).0);
    }
  }

  lemma {:induction false} FinalizeAllKeepsOrder(fs: Forest, q: Answers)
    ensures Preorder(FinalizeAll(fs, q)) == Preorder(fs)
    decreases Count(fs), 1
  {
    if fs != [] {
      assert [fs[0]] + fs[1..] == fs;
      var m := Finalize(fs[0], fs[1..], q);
      FinalizeKeepsOrder(fs[0], fs[1..], q);
      FinalizeAllKeepsOrder(m.1, q);
      PreorderAppend([m.0], FinalizeAll(m.1, q));
    }
  }

  // ----- what the finished menu looks like -----

  /** At every level, an entry without a prompt has no children of its own. */
  predicate Flat(f: Forest, q: Answers)
    decreases f
  {
    f == [] || ((f[0].kids == [] || !q.promptless(f[0].id)) && Flat(f[0].kids, q) && Flat(f[1..], q))
  }

  /** The same below the entries of this forest. */
  predicate FlatBelow(f: Forest, q: Answers) {
    f == [] || (Flat(f[0].kids, q) && FlatBelow(f[1..], q))
  }

  lemma {:induction false} FlatBelowAppend(a: Forest, b: Forest, q: Answers)
    requires Flat(a, q) && FlatBelow(b, q)
    ensures FlatBelow(a + b, q)
  {
    if a == [] {
      assert a + b == b;
    } else {
      assert (a + b)[1..] == a[1..] + b;
      FlatBelowAppend(a[1..], b, q);
    }
  }

  lemma {:induction false} FlattenFlat(cs: Forest, q: Answers)
    requires FlatBelow(cs, q)
    ensures Flat(Flatten(cs, q), q)
    decreases Count(cs)
  {
    if cs != [] {
      if cs[0].kids != [] && q.promptless(cs[0].id) {
        CountAppend(cs[0].kids, cs[1..]);
        FlatBelowAppend(cs[0].kids, cs[1..], q);
        FlattenFlat(cs[0].kids + cs[1..], q);
      } else {
        FlattenFlat(cs[1..], q);
      }
    }
  }

  /** Below a finished node, at every level, only entries with a prompt have children. */
  lemma {:induction false} FinalizeFlat(t: Tree, fs: Forest, q: Answers)
    ensures Flat(Finalize(t, fs, q).0.kids, q)
    decreases 1 + Count(t.kids) + Count(fs), 0
  {
    if t.kids != [] {
      FinalizeAllFlat(t.kids, q);
      FlattenFlat(FinalizeAll(t.kids, q), q);
    } else if q.hasSym(t.id) {
      AbsorbFlat(t.id, fs, q);
      FlattenFlat(Absorb(t.id, fs, q).0, q);
    }
  }

  lemma {:induction false} FinalizeAllFlat(fs: Forest, q: Answers)
    ensures FlatBelow(FinalizeAll(fs, q), q)
    decreases Count(fs), 1
  {
    if fs != [] {
      var m := Finalize(fs[0], fs[1..], q);
      FinalizeFlat(fs[0], fs[1..], q);
      FinalizeAllFlat(m.1, q);
      assert ([m.0] + FinalizeAll(m.1, q))[1..] == FinalizeAll(m.1, q);
    }
  }

  lemma {:induction false} AbsorbFlat(s: nat, fs: Forest, q: Answers)
    ensures FlatBelow(Absorb(s, fs, q).0, q)
    decreases Count(fs), 1
  {
    if fs != [] && q.takes(s, fs[0].id) {
      var m := Finalize(fs[0], fs[1..], q);
      FinalizeFlat(fs[0], fs[1..], q);
      AbsorbFlat(s, m.1, q);
      assert ([m.0] + Absorb(s, m.1, q).0)[1..] == Absorb(s, m.1, q).0;
    }
  }

  /** The siblings a node leaves are the last of its siblings, untouched. */
  predicate Rest(r: Forest, fs: Forest) {
    r == fs || (fs != [] && Rest(r, fs[1..]))
  }

  lemma {:induction false} RestOfRest(a: Forest, b: Forest, c: Forest)
    requires Rest(a, b) && Rest(b, c)
    ensures Rest(a, c)
  {
    if b != c { RestOfRest(a, b, c[1..]); }
  }

  lemma {:induction false} FinalizeLeavesRest(t: Tree, fs: Forest, q: Answers)
    ensures Rest(Finalize(t, fs, q).1, fs)
    decreases 1 + Count(t.kids) + Count(fs), 0
  {
    if t.kids == [] && q.hasSym(t.id) { AbsorbLeavesRest(t.id, fs, q); }
  }

  lemma {:induction false} AbsorbLeavesRest(s: nat, fs: Forest, q: Answers)
    ensures Rest(Absorb(s, fs, q).1, fs)
    decreases Count(fs), 1
  {
    if fs != [] && q.takes(s, fs[0].id) {
      var m := Finalize(fs[0], fs[1..], q);
      FinalizeLeavesRest(fs[0], fs[1..], q);
      AbsorbLeavesRest(s, m.1, q);
      RestOfRest(Absorb(s, m.1, q).1, m.1, fs[1..]);
    }
  }

  /** The submenu of a symbol: each entry in it belongs to the symbol; it stops only at the end or at an
      entry that does not; and what is behind it is untouched. */
  lemma {:induction false} SubmenuExact(s: nat, fs: Forest, q: Answers)
    ensures var r := Absorb(s, fs, q);
      && (forall t :: t in r.0 ==> q.takes(s, t.id))
      && (r.1 != [] ==> !q.takes(s, r.1[0].id))
      && Rest(r.1, fs)
      && (r.0 == [] <==> fs == [] || !q.takes(s, fs[0].id))
    decreases Count(fs), 1
  {
    AbsorbLeavesRest(s, fs, q);
    if fs != [] && q.takes(s, fs[0].id) {
      SubmenuExact(s, Finalize(fs[0], fs[1..], q).1, q);
    }
  }
}
