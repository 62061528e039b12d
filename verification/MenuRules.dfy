/** What menu_finalize makes of nodes and lists of nodes, said without its loops. */
module MenuRules {
  import opened MenuForest
  import opened MenuFinalize

  /** A list with the children of entries without a prompt lifted out of them, at any depth of such entries. */
  function Lifted(f: Forest, q: Answers): Forest
    decreases f
  {
    if f == [] then []
    else (if q.promptless(f[0].id) then [Node(f[0].id, [])] + Lifted(f[0].kids, q) else [f[0]]) + Lifted(f[1..], q)
  }

  lemma {:induction false} LiftedAppend(a: Forest, b: Forest, q: Answers)
    ensures Lifted(a + b, q) == Lifted(a, q) + Lifted(b, q)
  {
    if a == [] {
      assert a + b == b;
    } else {
      assert (a + b)[1..] == a[1..] + b && (a + b)[0] == a[0];
      LiftedAppend(a[1..], b, q);
    }
  }

  /** That is what the flattening loop leaves, which puts the children into the list that it walks. */
  lemma {:induction false} FlattenLifts(cs: Forest, q: Answers)
    ensures Flatten(cs, q) == Lifted(cs, q)
    decreases Count(cs)
  {
    if cs != [] {
      var t, rest := cs[0], cs[1..];
      if t.kids != [] && q.promptless(t.id) {
        CountAppend(t.kids, rest);
        FlattenLifts(t.kids + rest, q);
        LiftedAppend(t.kids, rest, q);
        Regroup(Node(t.id, []), Lifted(t.kids, q), Lifted(rest, q));
      } else {
        FlattenLifts(rest, q);
        if q.promptless(t.id) {
          assert t == Node(t.id, []);
          Regroup(Node(t.id, []), [], Lifted(rest, q));
        }
      }
    }
  }

  lemma Regroup(t: Tree, a: Forest, b: Forest)
    ensures [t] + (a + b) == ([t] + a) + b && [t] + [] == [t]
  {
  }

  /** A symbol without children takes the entries behind it, up to the first that does not belong to it. */
  lemma SymbolTakes(t: Tree, fs: Forest, q: Answers)
    requires t.kids == [] && q.hasSym(t.id)
    ensures var r := Finalize(t, fs, q);
      && (r.1 != [] ==> !q.takes(t.id, r.1[0].id))
      && (r.0.kids != [] <==> fs != [] && q.takes(t.id, fs[0].id))
      && r.0.kids == Lifted(Absorb(t.id, fs, q).0, q)
  {
    SubmenuExact(t.id, fs, q);
    FlattenLifts(Absorb(t.id, fs, q).0, q);
    LiftedSome(Absorb(t.id, fs, q).0, q);
  }

  lemma LiftedSome(f: Forest, q: Answers)
    ensures Lifted(f, q) == [] <==> f == []
  {
  }

  /** Any other node takes nothing; its children are finished and lifted, and stay its children. */
  lemma OthersStay(t: Tree, fs: Forest, q: Answers)
    requires t.kids != [] || !q.hasSym(t.id)
    ensures Finalize(t, fs, q) == (Node(t.id, Lifted(FinalizeAll(t.kids, q), q)), fs)
  {
    FlattenLifts(FinalizeAll(t.kids, q), q);
  }

  /** A list is finished from its front, each node with what the nodes before it have left. */
  lemma ListFinished(t: Tree, fs: Forest, q: Answers)
    ensures var r := Finalize(t, fs, q); FinalizeAll([t] + fs, q) == [r.0] + FinalizeAll(r.1, q)
    ensures FinalizeAll([], q) == []
  {
    assert ([t] + fs)[0] == t && ([t] + fs)[1..] == fs;
  }

  /** An entry that is taken is finished itself, and may take from those behind it first. */
  lemma TakenFinished(s: nat, t: Tree, fs: Forest, q: Answers)
    requires q.takes(s, t.id)
    ensures var r := Finalize(t, fs, q);
      Absorb(s, [t] + fs, q) == ([r.0] + Absorb(s, r.1, q).0, Absorb(s, r.1, q).1)
  {
    assert ([t] + fs)[0] == t && ([t] + fs)[1..] == fs;
  }
}
