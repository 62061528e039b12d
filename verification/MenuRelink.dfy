/** menu_finalize in memory: the list, next and parent pointers are rewritten while the loops walk them. */
module MenuRelink {
  import opened MenuForest
  import opened MenuFinalize

  lemma ChainOne(h: Heap, first: int, t: Tree, fs: Forest, owner: int, end: int)
    ensures Chain(h, first, [t] + fs, owner, end) <==>
      && first == t.id && h.Has(first) && h.parent[first] == owner
      && Chain(h, h.list[first], t.kids, first, NULL)
      && Chain(h, h.next[first], fs, owner, end)
  {
    assert ([t] + fs)[1..] == fs;
  }

  lemma SameButTrans(h: Heap, k: Heap, l: Heap, a: seq<nat>, b: seq<nat>)
    requires SameBut(h, k, a) && SameBut(k, l, b) && forall x :: x in b ==> x in a
    ensures SameBut(h, l, a)
  {
  }

  /** Moving the first of the chain to the end of what is done. */
  lemma ChainAdvance(h: Heap, first: int, done: Forest, t: Tree, rest: Forest, owner: int, restOwner: int)
    requires Chain(h, first, done, owner, t.id)
    requires h.Has(t.id) && h.parent[t.id] == owner && Chain(h, h.list[t.id], t.kids, t.id, NULL)
    requires Chain(h, h.next[t.id], rest, restOwner, NULL)
    ensures Chain(h, first, done + [t], owner, h.next[t.id])
  {
    var none: Forest := [];
    ChainOne(h, t.id, t, none, owner, h.next[t.id]);
    assert [t] + none == [t];
    ChainAppend(h, first, done, [t], owner, h.next[t.id]);
  }

  lemma FinalizeAllStep(done: Forest, todo: Forest, q: Answers)
    requires todo != []
    ensures var m := Finalize(todo[0], todo[1..], q);
      done + FinalizeAll(todo, q) == (done + [m.0]) + FinalizeAll(m.1, q)
  {
    var m := Finalize(todo[0], todo[1..], q);
    Push(done, m.0, FinalizeAll(m.1, q));
  }

  lemma Push(done: Forest, t: Tree, rest: Forest)
    ensures done + ([t] + rest) == (done + [t]) + rest
  {
  }

  lemma AbsorbStep(p: nat, done: Forest, todo: Forest, q: Answers)
    requires todo != [] && q.takes(p, todo[0].id)
    ensures var m := Finalize(todo[0], todo[1..], q);
      && done + Absorb(p, todo, q).0 == (done + [m.0]) + Absorb(p, m.1, q).0
      && Absorb(p, todo, q).1 == Absorb(p, m.1, q).1
  {
    var m := Finalize(todo[0], todo[1..], q);
    Push(done, m.0, Absorb(p, m.1, q).0);
  }

  lemma DistinctParts(all: Forest, done: Forest, t: Tree, rest: Forest)
    requires Preorder(all) == Preorder(done + [t]) + Preorder(rest) && Distinct(Preorder(all))
    ensures t.id in Preorder(all)
    ensures t.id !in Preorder(done) && t.id !in Preorder(t.kids) && t.id !in Preorder(rest)
  {
    var none: Forest := [];
    PreorderAppend(done, [t]);
    PreorderCons(t, none);
    assert [t] + none == [t];
    var a, b := Preorder(done), [t.id] + Preorder(t.kids);
    assert Preorder(done + [t]) == a + b;
    DistinctAppend(a + b, Preorder(rest));
    DistinctAppend(a, b);
    DistinctAppend([t.id], Preorder(t.kids));
    assert t.id in b && t.id in [t.id] && t.id in a + b;
  }

  lemma NextOrder(all: Forest, done: Forest, todo: Forest, t: Tree, rest: Forest)
    requires Preorder(all) == Preorder(done) + Preorder(todo) && Preorder([t]) + Preorder(rest) == Preorder(todo)
    ensures Preorder(all) == Preorder(done + [t]) + Preorder(rest)
  {
    PreorderAppend(done, [t]);
    Regroup(Preorder(done), Preorder([t]), Preorder(rest));
  }

  lemma SplitOrder(ks: Forest, a: Forest, b: Forest)
    requires ks == a + b && b != []
    ensures ks == (a + [b[0]]) + b[1..] && Preorder(ks) == Preorder(a + [b[0]]) + Preorder(b[1..])
  {
    assert ks == (a + [b[0]]) + b[1..];
    PreorderAppend(a + [b[0]], b[1..]);
  }

  lemma Regroup(a: seq<nat>, b: seq<nat>, c: seq<nat>)
    ensures a + (b + c) == (a + b) + c
  {
  }

  /** The list of a node once its children are finished or its submenu is made, before flattening, and the
      siblings left behind it. */
  function Collected(t: Tree, fs: Forest, q: Answers): (Forest, Forest) {
    if t.kids != [] then (FinalizeAll(t.kids, q), fs)
    else if q.hasSym(t.id) then Absorb(t.id, fs, q)
    else ([], fs)
  }

  lemma CollectedOrder(t: Tree, fs: Forest, q: Answers)
    ensures var c := Collected(t, fs, q);
      && Preorder([t] + fs) == [t.id] + Preorder(c.0) + Preorder(c.1)
      && Finalize(t, fs, q) == (Node(t.id, Flatten(c.0, q)), c.1)
    ensures forall x :: x in Preorder(Collected(t, fs, q).0) ==> x in Preorder([t] + fs)
  {
    PreorderCons(t, fs);
    if t.kids != [] {
      FinalizeAllKeepsOrder(t.kids, q);
    } else if q.hasSym(t.id) {
      AbsorbKeepsOrder(t.id, fs, q);
      Regroup([t.id], Preorder(Absorb(t.id, fs, q).0), Preorder(Absorb(t.id, fs, q).1));
    }
  }

  lemma VisitOrder(visits: seq<nat>, p: nat, t: Tree, fs: Forest, q: Answers)
    requires p == t.id
    ensures (visits + [p]) + Preorder(Collected(t, fs, q).0) == visits + Preorder([Finalize(t, fs, q).0])
  {
    var c := Collected(t, fs, q);
    CollectedOrder(t, fs, q);
    FlattenKeepsOrder(c.0, q);
    PreorderOne(Finalize(t, fs, q).0);
    Regroup(visits, [p], Preorder(c.0));
  }

  /** The entries `done` are the first of those that `p` takes from `fs`, and `todo` is what is left. */
  predicate Absorbed(p: nat, fs: Forest, done: Forest, todo: Forest, q: Answers) {
    && Absorb(p, fs, q).0 == done + Absorb(p, todo, q).0 && Absorb(p, fs, q).1 == Absorb(p, todo, q).1
    && Count(todo) <= Count(fs) && Preorder(fs) == Preorder(done) + Preorder(todo)
  }

  lemma AbsorbStop(p: nat, fs: Forest, done: Forest, todo: Forest, q: Answers)
    requires Absorbed(p, fs, done, todo, q) && (todo == [] || !q.takes(p, todo[0].id))
    ensures Absorb(p, fs, q) == (done, todo)
  {
    assert done + [] == done;
  }

  /** What one turn of the flattening loop leaves: the entry passed, and the entries still ahead. */
  function FlattenNext(todo: Forest, q: Answers): (Tree, Forest)
    requires todo != []
  {
    if todo[0].kids != [] && q.promptless(todo[0].id) then (Node(todo[0].id, []), todo[0].kids + todo[1..])
    else (todo[0], todo[1..])
  }

  lemma FlattenStep(done: Forest, todo: Forest, q: Answers)
    requires todo != []
    ensures var n := FlattenNext(todo, q);
      done + Flatten(todo, q) == (done + [n.0]) + Flatten(n.1, q)
  {
    var n := FlattenNext(todo, q);
    Push(done, n.0, Flatten(n.1, q));
  }

  lemma FlattenOrder(all: Forest, done: Forest, todo: Forest, q: Answers)
    requires todo != [] && Preorder(all) == Preorder(done) + Preorder(todo)
    ensures var n := FlattenNext(todo, q);
      Preorder(all) == Preorder(done + [n.0]) + Preorder(n.1)
  {
    var n := FlattenNext(todo, q);
    if todo[0].kids != [] && q.promptless(todo[0].id) {
      SpliceOrder(todo[0].id, todo[0].kids, todo[1..]);
    } else {
      PreorderOne(todo[0]);
    }
    NextOrder(all, done, todo, n.0, n.1);
  }

  lemma SpliceOrder(id: nat, kids: Forest, after: Forest)
    ensures Preorder([Node(id, [])]) + Preorder(kids + after) == [id] + Preorder(kids) + Preorder(after)
  {
    PreorderOne(Node(id, []));
    PreorderAppend(kids, after);
    Regroup([id], Preorder(kids), Preorder(after));
  }

  lemma FlattenCount(todo: Forest, q: Answers)
    requires todo != []
    ensures Count(FlattenNext(todo, q).1) < Count(todo)
  {
    CountAppend(todo[0].kids, todo[1..]);
  }

  /** The entry a loop stands at, apart from what is done and what is ahead. */
  lemma TurnParts(h: Heap, menu: int, todo: Forest, done: Forest, owner: int, all: Forest)
    requires Chain(h, menu, todo, owner, NULL) && menu != NULL
    requires Preorder(all) == Preorder(done) + Preorder(todo) && Distinct(Preorder(all))
    ensures todo != [] && h.Has(menu) && todo[0].id == menu && h.parent[menu] == owner
    ensures Chain(h, h.list[menu], todo[0].kids, menu, NULL) && Chain(h, h.next[menu], todo[1..], owner, NULL)
    ensures h.list[menu] != NULL <==> todo[0].kids != []
    ensures menu !in Preorder(todo[0].kids) && menu !in Preorder(todo[1..]) && menu !in Preorder(done)
    ensures Distinct(Preorder(todo[0].kids)) && Disjoint(Preorder(todo[0].kids), Preorder(todo[1..]))
    ensures Disjoint(Preorder(done), Preorder(todo[0].kids))
    ensures forall x :: x in [todo[0].id] + Preorder(todo[0].kids) ==> x in Preorder(todo)
    ensures forall x :: x in Preorder(todo) ==> x in Preorder(all)
  {
    DistinctAppend(Preorder(done), Preorder(todo));
    DistinctForest(todo);
    assert todo[0].id in Preorder(todo);
  }

  lemma SameButMore(h: Heap, k: Heap, a: seq<nat>, b: seq<nat>)
    requires SameBut(h, k, a) && forall x :: x in a ==> x in b
    ensures SameBut(h, k, b)
  {
  }

  class Menus {
    var h: Heap
    /** The nodes menu_finalize was called for, in order. */
    ghost var visits: seq<nat>

    constructor (heap: Heap)
      ensures h == heap && visits == []
    {
      h, visits := heap, [];
    }

    method SetList(p: int, x: int)
      requires h.Has(p)
      modifies this`h
      ensures h == old(h).(list := old(h).list[p := x])
    {
      h := h.(list := h.list[p := x]);
    }

    method SetNext(p: int, x: int)
      requires h.Has(p)
      modifies this`h
      ensures h == old(h).(next := old(h).next[p := x])
    {
      h := h.(next := h.next[p := x]);
    }

    method SetParent(p: int, x: int)
      requires h.Has(p)
      modifies this`h
      ensures h == old(h).(parent := old(h).parent[p := x])
    {
      h := h.(parent := h.parent[p := x]);
    }

    method FinalizeNode(p: nat, q: Answers, ghost t: Tree, ghost fs: Forest, ghost owner: int)
      requires Chain(h, p, [t] + fs, owner, NULL) && Distinct(Preorder([t] + fs))
      modifies this
      ensures var r := Finalize(t, fs, q);
        && Chain(h, p, [r.0] + r.1, owner, NULL)
        && visits == old(visits) + Preorder([r.0])
      ensures SameBut(old(h), h, Preorder([t] + fs))
      decreases 1 + Count(t.kids) + Count(fs), 0, 0
    {
      NodeParts(p, t, fs, owner);
      CollectedOrder(t, fs, q);
      ghost var ids := Preorder([t] + fs);
      visits := visits + [p];
      if h.list[p] != NULL {
        FinalizeChildren(p, q, t.kids);
        ChainSameBut(old(h), h, h.next[p], fs, owner, NULL, Preorder(t.kids));
        SameButMore(old(h), h, Preorder(t.kids), ids);
      } else if q.hasSym(p) {
        AbsorbSiblings(p, q, fs, owner);
        SameButMore(old(h), h, [p] + Preorder(fs), ids);
      }
      ghost var c, before := Collected(t, fs, q), h;
      FinishNode(p, q, c.0, c.1, owner);
      SameButTrans(old(h), before, h, ids, Preorder(c.0));
      VisitOrder(old(visits), p, t, fs, q);
    }

    /** What finalisation makes of the root and nothing beside it. */
    lemma RootOrder(t: Tree, q: Answers)
      ensures var m := Finalize(t, [], q); m.1 == [] && Preorder([m.0]) == Preorder([t]) && Flat(m.0.kids, q)
    {
      FinalizeLeavesRest(t, [], q);
      FinalizeKeepsOrder(t, [], q);
      FinalizeFlat(t, [], q);
      var r := Finalize(t, [], q).0;
      assert [r] + [] == [r] && [t] + [] == [t];
    }

    /** menu_finalize for the root: it ends; the order of the menu, and each node's parent pointer, are
        right afterwards; and it was called for each node exactly once, in menu order. */
    method FinalizeRoot(root: nat, q: Answers, ghost t: Tree) returns (ghost r: Tree)
      requires Chain(h, root, [t], NULL, NULL) && Distinct(Preorder([t])) && visits == []
      modifies this
      ensures Chain(h, root, [r], NULL, NULL) && Preorder([r]) == Preorder([t]) == visits
      ensures NoneTwice(visits)
      ensures r == Finalize(t, [], q).0 && Flat(r.kids, q)
      ensures SameBut(old(h), h, Preorder([t]))
    {
      ghost var none: Forest := [];
      assert [t] + none == [t];
      FinalizeNode(root, q, t, none, NULL);
      r := Finalize(t, none, q).0;
      RootOrder(t, q);
      assert [r] + none == [r];
      FirstVisits(old(visits), Preorder([r]));
      DistinctMeans(visits);
    }

    lemma FirstVisits(before: seq<nat>, ids: seq<nat>)
      requires before == []
      ensures before + ids == ids
    {
    }

    lemma NodeParts(p: nat, t: Tree, fs: Forest, owner: int)
      requires Chain(h, p, [t] + fs, owner, NULL) && Distinct(Preorder([t] + fs))
      ensures p == t.id && h.Has(p) && h.parent[p] == owner && (h.list[p] != NULL <==> t.kids != [])
      ensures Chain(h, h.list[p], t.kids, p, NULL) && Chain(h, h.next[p], fs, owner, NULL)
      ensures Preorder([t] + fs) == [p] + Preorder(t.kids) + Preorder(fs)
      ensures Distinct(Preorder(t.kids)) && Distinct(Preorder(fs)) && Disjoint(Preorder(t.kids), Preorder(fs))
      ensures Disjoint(Preorder(fs), Preorder(t.kids))
      ensures p !in Preorder(t.kids) && p !in Preorder(fs)
    {
      ChainOne(h, p, t, fs, owner, NULL);
      PreorderCons(t, fs);
      DistinctForest([t] + fs);
      assert ([t] + fs)[0] == t && ([t] + fs)[1..] == fs;
    }

    /** The loop that flattens: the children of an entry without a prompt are spliced in behind it. */
    method FlattenChildren(p: nat, q: Answers, ghost kids: Forest)
      requires h.Has(p) && Chain(h, h.list[p], kids, p, NULL)
      requires Distinct(Preorder(kids)) && p !in Preorder(kids)
      modifies this`h
      ensures h.Has(p) && h.list[p] == old(h).list[p] && Chain(h, h.list[p], Flatten(kids, q), p, NULL)
      ensures SameBut(old(h), h, Preorder(kids))
    {
      ghost var done: Forest, todo := [], kids;
      ghost var first := h.list[p];
      var menu := h.list[p];
      while menu != NULL
        invariant h.Has(p) && h.list[p] == first
        invariant Chain(h, first, done, p, menu) && Chain(h, menu, todo, p, NULL)
        invariant done + Flatten(todo, q) == Flatten(kids, q)
        invariant Preorder(kids) == Preorder(done) + Preorder(todo)
        invariant SameBut(old(h), h, Preorder(kids))
        decreases Count(todo)
      {
        ghost var before := h;
        ghost var u: Tree;
        ghost var rest: Forest;
        u, rest := FlattenOne(menu, p, q, first, done, todo, kids);
        ChainAdvance(h, first, done, u, rest, p, p);
        SameButTrans(old(h), before, h, Preorder(kids), Preorder(todo));
        done, todo := done + [u], rest;
        menu := h.next[menu];
      }
      ChainHead(h, menu, todo, p, NULL);
      assert done == Flatten(kids, q);
    }

    /** One turn of the flattening loop. */
    method FlattenOne(menu: nat, p: nat, q: Answers, ghost first: int, ghost done: Forest, ghost todo: Forest,
                      ghost all: Forest)
      returns (ghost u: Tree, ghost rest: Forest)
      requires Chain(h, menu, todo, p, NULL) && Chain(h, first, done, p, menu)
      requires Preorder(all) == Preorder(done) + Preorder(todo) && Distinct(Preorder(all))
      modifies this`h
      ensures todo != [] && u.id == menu && h.Has(menu) && h.parent[menu] == p
      ensures Chain(h, h.list[menu], u.kids, menu, NULL) && Chain(h, h.next[menu], rest, p, NULL)
      ensures Chain(h, first, done, p, menu)
      ensures done + Flatten(todo, q) == (done + [u]) + Flatten(rest, q)
      ensures Preorder(all) == Preorder(done + [u]) + Preorder(rest)
      ensures Count(rest) < Count(todo)
      ensures SameBut(old(h), h, Preorder(todo)) && forall x :: x in Preorder(todo) ==> x in Preorder(all)
    {
      TurnParts(h, menu, todo, done, p, all);
      FlattenStep(done, todo, q);
      FlattenOrder(all, done, todo, q);
      FlattenCount(todo, q);
      u, rest := FlattenNext(todo, q).0, FlattenNext(todo, q).1;
      if h.list[menu] != NULL && q.promptless(menu) {
        Splice(menu, p, first, done, todo[0].kids, todo[1..]);
        SameButMore(old(h), h, [menu] + Preorder(todo[0].kids), Preorder(todo));
      }
    }

    /** The children of `menu` move up behind it. */
    method Splice(menu: nat, p: nat, ghost first: int, ghost done: Forest, ghost ks: Forest, ghost after: Forest)
      requires h.Has(menu) && Chain(h, h.list[menu], ks, menu, NULL) && Chain(h, h.next[menu], after, p, NULL)
      requires Chain(h, first, done, p, menu) && ks != []
      requires Distinct(Preorder(ks)) && menu !in Preorder(ks) && menu !in Preorder(after) && menu !in Preorder(done)
      requires Disjoint(Preorder(ks), Preorder(after)) && Disjoint(Preorder(done), Preorder(ks))
      modifies this`h
      ensures h.Has(menu) && h.list[menu] == NULL && h.parent[menu] == old(h).parent[menu]
      ensures Chain(h, h.next[menu], ks + after, p, NULL) && Chain(h, first, done, p, menu)
      ensures SameBut(old(h), h, [menu] + Preorder(ks))
    {
      ghost var next := h.next[menu];
      var last := Adopt(menu, p, ks);
      ChainSameBut(old(h), h, next, after, p, NULL, Preorder(ks));
      ChainSameBut(old(h), h, first, done, p, menu, Preorder(ks));
      ghost var before := h;
      LinkBehind(menu, last, p, first, done, ks, after);
      SameButMore(old(h), before, Preorder(ks), [menu] + Preorder(ks));
      SameButTrans(old(h), before, h, [menu] + Preorder(ks), [menu] + Preorder(ks));
    }

    /** The adopted children are linked between `menu` and what follows it. */
    method LinkBehind(menu: nat, last: nat, p: nat, ghost first: int, ghost done: Forest, ghost ks: Forest,
                      ghost after: Forest)
      requires h.Has(menu) && Chain(h, h.list[menu], ks, p, NULL) && Chain(h, h.next[menu], after, p, NULL)
      requires Chain(h, first, done, p, menu) && ks != [] && last == LastId(ks)
      requires Distinct(Preorder(ks)) && menu !in Preorder(ks) && menu !in Preorder(after) && menu !in Preorder(done)
      requires Disjoint(Preorder(ks), Preorder(after)) && Disjoint(Preorder(done), Preorder(ks))
      modifies this`h
      ensures h.Has(menu) && h.list[menu] == NULL && h.parent == old(h).parent
      ensures Chain(h, h.next[menu], ks + after, p, NULL) && Chain(h, first, done, p, menu)
      ensures SameBut(old(h), h, [menu] + Preorder(ks))
    {
      ghost var list, next := h.list[menu], h.next[menu];
      ChainLast(h, list, ks, p, NULL);
      ChainSetEnd(h, list, ks, p, NULL, next);
      SetNext(last, h.next[menu]);
      ChainSameBut(old(h), h, next, after, p, NULL, [last]);
      ChainSameBut(old(h), h, first, done, p, menu, [last]);
      ghost var h2 := h;
      SetNext(menu, h.list[menu]);
      SetList(menu, NULL);
      ChainSameBut(h2, h, list, ks, p, next, [menu]);
      ChainSameBut(h2, h, next, after, p, NULL, [menu]);
      ChainSameBut(h2, h, first, done, p, menu, [menu]);
      ChainHead(h, next, after, p, NULL);
      ChainAppend(h, list, ks, after, p, NULL);
    }

    /** Every child of `menu` gets the parent `p`; the last one is returned. */
    method Adopt(menu: nat, p: nat, ghost ks: Forest) returns (last: nat)
      requires h.Has(menu) && Chain(h, h.list[menu], ks, menu, NULL) && ks != []
      requires Distinct(Preorder(ks)) && menu !in Preorder(ks)
      modifies this`h
      ensures h.list == old(h).list && h.next == old(h).next && |h.parent| == |old(h).parent|
      ensures Chain(h, h.list[menu], ks, p, NULL) && last == LastId(ks)
      ensures SameBut(old(h), h, Preorder(ks))
    {
      ghost var a: Forest, b := [], ks;
      ghost var first := h.list[menu];
      last := h.list[menu];
      while true
        invariant h.list == old(h).list && h.next == old(h).next && |h.parent| == |old(h).parent|
        invariant b != [] && ks == a + b
        invariant Chain(h, first, a, p, last) && Chain(h, last, b, menu, NULL)
        invariant SameBut(old(h), h, Preorder(ks))
        decreases |b|
      {
        ghost var t, rest := b[0], b[1..];
        SplitOrder(ks, a, b);
        ghost var before := h;
        AdoptOne(last, p, first, a, t, rest, menu, ks);
        SameButTrans(old(h), before, h, Preorder(ks), [last]);
        a, b := a + [t], rest;
        assert ks == a + b;
        ChainHead(h, h.next[last], b, menu, NULL);
        if h.next[last] == NULL {
          assert a == ks;
          break;
        }
        last := h.next[last];
      }
    }

    /** The node and its finished list, flattened. */
    method FinishNode(p: nat, q: Answers, ghost kids: Forest, ghost rest: Forest, ghost owner: int)
      requires h.Has(p) && h.parent[p] == owner
      requires Chain(h, h.list[p], kids, p, NULL) && Chain(h, h.next[p], rest, owner, NULL)
      requires Distinct([p] + Preorder(kids) + Preorder(rest))
      modifies this`h
      ensures Chain(h, p, [Node(p, Flatten(kids, q))] + rest, owner, NULL)
      ensures SameBut(old(h), h, Preorder(kids))
    {
      DistinctAppend([p] + Preorder(kids), Preorder(rest));
      DistinctAppend([p], Preorder(kids));
      assert p in [p] && p in [p] + Preorder(kids);
      ghost var next := h.next[p];
      FlattenChildren(p, q, kids);
      ChainSameBut(old(h), h, next, rest, owner, NULL, Preorder(kids));
      ChainOne(h, p, Node(p, Flatten(kids, q)), rest, owner, NULL);
    }

    /** Every child in turn, as the chain stands when its turn comes. */
    method FinalizeChildren(p: nat, q: Answers, ghost kids: Forest)
      requires h.Has(p) && Chain(h, h.list[p], kids, p, NULL)
      requires Distinct(Preorder(kids)) && p !in Preorder(kids)
      modifies this
      ensures h.Has(p) && Chain(h, h.list[p], FinalizeAll(kids, q), p, NULL)
      ensures SameBut(old(h), h, Preorder(kids))
      ensures visits == old(visits) + Preorder(FinalizeAll(kids, q))
      decreases Count(kids), 1
    {
      ghost var done: Forest, todo := [], kids;
      ghost var first := h.list[p];
      var menu := h.list[p];
      while menu != NULL
        invariant h.Has(p) && h.list[p] == first
        invariant Chain(h, first, done, p, menu) && Chain(h, menu, todo, p, NULL)
        invariant done + FinalizeAll(todo, q) == FinalizeAll(kids, q) && Count(todo) <= Count(kids)
        invariant Preorder(kids) == Preorder(done) + Preorder(todo)
        invariant SameBut(old(h), h, Preorder(kids))
        invariant visits == old(visits) + Preorder(done)
        decreases Count(todo)
      {
        ghost var before := h;
        ghost var m := FinalizeNext(menu, q, first, done, todo, p, p, kids);
        ChainAdvance(h, first, done, m.0, m.1, p, p);
        PreorderAppend(done, [m.0]);
        Regroup(old(visits), Preorder(done), Preorder([m.0]));
        FinalizeAllStep(done, todo, q);
        SameButTrans(old(h), before, h, Preorder(kids), Preorder(todo));
        done, todo := done + [m.0], m.1;
        menu := h.next[menu];
      }
      ChainHead(h, menu, todo, p, NULL);
      assert done == FinalizeAll(kids, q);
    }

    /** One turn of a loop that finishes the node at `menu`, behind the finished chain `done`. */
    method FinalizeNext(menu: nat, q: Answers, ghost first: int, ghost done: Forest, ghost todo: Forest,
                        ghost doneOwner: int, ghost owner: int, ghost all: Forest)
      returns (ghost m: (Tree, Forest))
      requires Chain(h, menu, todo, owner, NULL) && Chain(h, first, done, doneOwner, menu)
      requires Preorder(all) == Preorder(done) + Preorder(todo) && Distinct(Preorder(all))
      modifies this
      ensures todo != [] && todo[0].id == menu && h.Has(menu) && m == Finalize(todo[0], todo[1..], q)
      ensures
        && m.0.id == menu && h.parent[menu] == owner && Chain(h, h.list[menu], m.0.kids, menu, NULL)
        && Chain(h, h.next[menu], m.1, owner, NULL)
        && Chain(h, first, done, doneOwner, menu)
        && Preorder(all) == Preorder(done + [m.0]) + Preorder(m.1)
        && visits == old(visits) + Preorder([m.0])
      ensures Count(m.1) < Count(todo)
      ensures SameBut(old(h), h, Preorder(todo))
      ensures forall x :: x in Preorder(todo) ==> x in Preorder(all)
      decreases Count(todo), 0, 1
    {
      assert [todo[0]] + todo[1..] == todo;
      DistinctAppend(Preorder(done), Preorder(todo));
      m := Finalize(todo[0], todo[1..], q);
      FinalizeNode(menu, q, todo[0], todo[1..], owner);
      ChainSameBut(old(h), h, first, done, doneOwner, menu, Preorder(todo));
      ChainOne(h, menu, m.0, m.1, owner, NULL);
      FinalizeKeepsOrder(todo[0], todo[1..], q);
      NextOrder(all, done, todo, m.0, m.1);
    }

    /** The entries after a symbol that belong to it: finished, adopted, and moved into its list. */
    method AbsorbSiblings(p: nat, q: Answers, ghost fs: Forest, ghost owner: int)
      requires h.Has(p) && h.list[p] == NULL && Chain(h, h.next[p], fs, owner, NULL)
      requires Distinct(Preorder(fs)) && p !in Preorder(fs)
      modifies this
      ensures h.Has(p) && h.parent[p] == old(h).parent[p]
      ensures var r := Absorb(p, fs, q);
        && Chain(h, h.list[p], r.0, p, NULL) && Chain(h, h.next[p], r.1, owner, NULL)
        && visits == old(visits) + Preorder(r.0)
      ensures SameBut(old(h), h, [p] + Preorder(fs))
      decreases Count(fs), 2
    {
      var last := AdoptSiblings(p, q, fs, owner);
      ghost var r, before := Absorb(p, fs, q), h;
      AbsorbKeepsOrder(p, fs, q);
      SameButMore(old(h), h, Preorder(fs), [p] + Preorder(fs));
      if last != NULL {
        MoveIntoList(p, last, Head(r.1, NULL), r.0, r.1, owner, fs);
        SameButTrans(old(h), before, h, [p] + Preorder(fs), [p] + Preorder(fs));
      }
    }

    /** The loop that looks at the entries after a symbol; the last one adopted is returned. */
    method AdoptSiblings(p: nat, q: Answers, ghost fs: Forest, ghost owner: int) returns (last: int)
      requires h.Has(p) && Chain(h, h.next[p], fs, owner, NULL)
      requires Distinct(Preorder(fs)) && p !in Preorder(fs)
      modifies this
      ensures h.Has(p) && h.parent[p] == old(h).parent[p] && h.list[p] == old(h).list[p]
      ensures var r := Absorb(p, fs, q);
        && Chain(h, h.next[p], r.0, p, Head(r.1, NULL)) && Chain(h, Head(r.1, NULL), r.1, owner, NULL)
        && visits == old(visits) + Preorder(r.0)
        && last == if r.0 == [] then NULL else LastId(r.0)
      ensures SameBut(old(h), h, Preorder(fs))
      decreases Count(fs), 1
    {
      ghost var done: Forest, todo := [], fs;
      var menu := h.next[p];
      last := NULL;
      while menu != NULL && q.takes(p, menu)
        invariant h.Has(p) && h.next[p] == old(h).next[p]
        invariant h.list[p] == old(h).list[p] && h.parent[p] == old(h).parent[p]
        invariant Chain(h, h.next[p], done, p, menu) && Chain(h, menu, todo, owner, NULL)
        invariant Absorbed(p, fs, done, todo, q)
        invariant last == if done == [] then NULL else LastId(done)
        invariant SameBut(old(h), h, Preorder(fs))
        invariant visits == old(visits) + Preorder(done)
        decreases Count(todo)
      {
        done, todo := AbsorbTurn(menu, p, q, h.next[p], done, todo, owner, fs, old(h), old(visits));
        last := menu;
        menu := h.next[menu];
      }
      ChainHead(h, menu, todo, owner, NULL);
      AbsorbStop(p, fs, done, todo, q);
    }

    /** One turn of that loop. */
    method AbsorbTurn(menu: nat, p: nat, q: Answers, ghost first: int, ghost done: Forest, ghost todo: Forest,
                      ghost owner: int, ghost fs: Forest, ghost h0: Heap, ghost visits0: seq<nat>)
      returns (ghost done': Forest, ghost todo': Forest)
      requires Chain(h, first, done, p, menu) && Chain(h, menu, todo, owner, NULL) && q.takes(p, menu)
      requires Distinct(Preorder(fs)) && Absorbed(p, fs, done, todo, q)
      requires SameBut(h0, h, Preorder(fs)) && visits == visits0 + Preorder(done)
      modifies this
      ensures h.Has(menu) && Chain(h, first, done', p, h.next[menu]) && Chain(h, h.next[menu], todo', owner, NULL)
      ensures Absorbed(p, fs, done', todo', q) && done' != [] && LastId(done') == menu
      ensures SameBut(h0, h, Preorder(fs)) && visits == visits0 + Preorder(done')
      ensures Count(todo') < Count(todo)
      decreases Count(todo), 0, 3
    {
      ghost var before := h;
      AbsorbStep(p, done, todo, q);
      ghost var m := AbsorbOne(menu, p, q, first, done, todo, owner, fs);
      SameButTrans(h0, before, h, Preorder(fs), Preorder(todo));
      PreorderAppend(done, [m.0]);
      Regroup(visits0, Preorder(done), Preorder([m.0]));
      done', todo' := done + [m.0], m.1;
    }

    /** One entry is finished and adopted. */
    method AbsorbOne(menu: nat, p: nat, q: Answers, ghost first: int, ghost done: Forest, ghost todo: Forest,
                     ghost owner: int, ghost all: Forest)
      returns (ghost m: (Tree, Forest))
      requires Chain(h, menu, todo, owner, NULL) && Chain(h, first, done, p, menu)
      requires Preorder(all) == Preorder(done) + Preorder(todo) && Distinct(Preorder(all))
      modifies this
      ensures todo != [] && m == Finalize(todo[0], todo[1..], q) && m.0.id == menu && h.Has(menu)
      ensures Chain(h, first, done + [m.0], p, h.next[menu]) && Chain(h, h.next[menu], m.1, owner, NULL)
      ensures Preorder(all) == Preorder(done + [m.0]) + Preorder(m.1)
      ensures visits == old(visits) + Preorder([m.0])
      ensures Count(m.1) < Count(todo)
      ensures SameBut(old(h), h, Preorder(todo)) && forall x :: x in Preorder(todo) ==> x in Preorder(all)
      decreases Count(todo), 0, 2
    {
      TurnParts(h, menu, todo, done, owner, all);
      m := FinalizeNext(menu, q, first, done, todo, p, owner, all);
      ghost var before := h;
      AdoptOne(menu, p, first, done, m.0, m.1, owner, all);
      SameButTrans(old(h), before, h, Preorder(todo), [menu]);
    }

    /** menu->parent = parent, for the entry just finished. */
    method AdoptOne(menu: nat, p: nat, ghost first: int, ghost done: Forest, ghost t: Tree, ghost rest: Forest,
                    ghost owner: int, ghost all: Forest)
      requires h.Has(menu) && t.id == menu && Chain(h, h.list[menu], t.kids, menu, NULL)
      requires Chain(h, h.next[menu], rest, owner, NULL) && Chain(h, first, done, p, menu)
      requires Preorder(all) == Preorder(done + [t]) + Preorder(rest) && Distinct(Preorder(all))
      modifies this`h
      ensures h == old(h).(parent := old(h).parent[menu := p])
      ensures Chain(h, first, done + [t], p, h.next[menu]) && Chain(h, h.next[menu], rest, owner, NULL)
      ensures SameBut(old(h), h, [menu]) && menu in Preorder(all)
    {
      DistinctParts(all, done, t, rest);
      SetParent(menu, p);
      ChainSameBut(old(h), h, first, done, p, menu, [menu]);
      ChainSameBut(old(h), h, h.list[menu], t.kids, menu, NULL, [menu]);
      ChainSameBut(old(h), h, h.next[menu], rest, owner, NULL, [menu]);
      ChainAdvance(h, first, done, t, rest, p, owner);
    }

    /** The adopted entries leave the sibling chain and become the list of `p`. */
    method MoveIntoList(p: nat, last: nat, ghost menu: int, ghost done: Forest, ghost rest: Forest, ghost owner: int,
                        ghost all: Forest)
      requires h.Has(p) && Chain(h, h.next[p], done, p, menu) && Chain(h, menu, rest, owner, NULL)
      requires Preorder(all) == Preorder(done) + Preorder(rest) && Distinct(Preorder(all)) && p !in Preorder(all)
      requires done != [] && last == LastId(done)
      modifies this`h
      ensures h.Has(p) && h.parent == old(h).parent
      ensures Chain(h, h.list[p], done, p, NULL) && Chain(h, h.next[p], rest, owner, NULL)
      ensures SameBut(old(h), h, [p] + Preorder(all))
    {
      ghost var h0 := h;
      ghost var first := h.next[p];
      DistinctAppend(Preorder(done), Preorder(rest));
      ChainLast(h, first, done, p, menu);
      ChainSetEnd(h, first, done, p, menu, NULL);
      SetList(p, h.next[p]);
      SetNext(p, h.next[last]);
      assert h.next[p] == menu;
      SetNext(last, NULL);
      ghost var k := h0.(next := h0.next[last := NULL]);
      ChainSameBut(k, h, first, done, p, NULL, [p]);
      ChainSameBut(h0, h, menu, rest, owner, NULL, [p, last]);
    }
  }

  lemma ChainSameBut(h: Heap, k: Heap, first: int, f: Forest, owner: int, end: int, ids: seq<nat>)
    requires Chain(h, first, f, owner, end) && SameBut(h, k, ids) && Disjoint(Preorder(f), ids)
    ensures Chain(k, first, f, owner, end)
  {
    ChainFrame(h, k, first, f, owner, end);
  }
}
