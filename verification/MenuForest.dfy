/** Menu trees: as ordered forests, and as list/next/parent pointers in memory. */
module MenuForest {

  datatype Tree = Node(id: nat, kids: seq<Tree>)

  type Forest = seq<Tree>

  /** Nodes in the order in which a reader of the menus meets them. */
  function Preorder(f: Forest): seq<nat> {
    if f == [] then [] else [f[0].id] + Preorder(f[0].kids) + Preorder(f[1..])
  }

  /** Number of nodes. */
  function Count(f: Forest): nat {
    if f == [] then 0 else 1 + Count(f[0].kids) + Count(f[1..])
  }

  lemma {:induction false} CountAppend(a: Forest, b: Forest)
    ensures Count(a + b) == Count(a) + Count(b)
  {
    if a == [] {
      assert a + b == b;
    } else {
      assert (a + b)[1..] == a[1..] + b;
      CountAppend(a[1..], b);
    }
  }

  lemma CountCons(t: Tree, f: Forest)
    ensures Count([t] + f) == 1 + Count(t.kids) + Count(f)
  {
    assert ([t] + f)[1..] == f;
  }

  lemma PreorderCons(t: Tree, f: Forest)
    ensures Preorder([t] + f) == [t.id] + Preorder(t.kids) + Preorder(f)
  {
    assert ([t] + f)[1..] == f;
  }

  lemma {:induction false} PreorderAppend(a: Forest, b: Forest)
    ensures Preorder(a + b) == Preorder(a) + Preorder(b)
  {
    if a == [] {
      assert a + b == b;
    } else {
      assert (a + b)[1..] == a[1..] + b;
      PreorderAppend(a[1..], b);
    }
  }

  /** No node occurs twice. */
  predicate Distinct(s: seq<nat>) {
    s == [] || (s[0] !in s[1..] && Distinct(s[1..]))
  }

  /** No two positions hold the same node. */
  predicate NoneTwice(s: seq<nat>) { forall i, j :: 0 <= i < j < |s| ==> s[i] != s[j] }

  lemma {:induction false} DistinctMeans(s: seq<nat>)
    ensures Distinct(s) <==> NoneTwice(s)
  {
    if s != [] {
      DistinctMeans(s[1..]);
      if Distinct(s) {
        forall i, j | 0 <= i < j < |s| ensures s[i] != s[j] {
          assert s[j] == s[1..][j - 1];
          if i > 0 { assert s[i] == s[1..][i - 1]; }
        }
      }
      if NoneTwice(s) {
        forall i, j | 0 <= i < j < |s[1..]| ensures s[1..][i] != s[1..][j] {
          assert s[i + 1] != s[j + 1];
        }
      }
    }
  }

  predicate Disjoint(a: seq<nat>, b: seq<nat>) {
    forall x :: x in a ==> x !in b
  }

  lemma {:induction false} DistinctAppend(a: seq<nat>, b: seq<nat>)
    ensures Distinct(a + b) <==> Distinct(a) && Distinct(b) && Disjoint(a, b)
  {
    if a == [] {
      assert a + b == b;
    } else {
      assert (a + b)[1..] == a[1..] + b;
      assert a == [a[0]] + a[1..];
      DistinctAppend(a[1..], b);
    }
  }

  /** A forest without repeated nodes, taken apart. */
  lemma DistinctForest(f: Forest)
    requires f != [] && Distinct(Preorder(f))
    ensures f[0].id !in Preorder(f[0].kids) && f[0].id !in Preorder(f[1..])
    ensures Distinct(Preorder(f[0].kids)) && Distinct(Preorder(f[1..]))
    ensures Disjoint(Preorder(f[0].kids), Preorder(f[1..]))
  {
    DistinctAppend([f[0].id] + Preorder(f[0].kids), Preorder(f[1..]));
    DistinctAppend([f[0].id], Preorder(f[0].kids));
    assert f[0].id in [f[0].id];
  }

  // ----- memory -----

  const NULL: int := -1

  /** The pointer fields of all menu nodes: first child, next sibling, parent. */
  datatype Heap = Heap(list: seq<int>, next: seq<int>, parent: seq<int>)
  {
    predicate Has(p: int) {
      0 <= p < |list| && |next| == |list| && |parent| == |list|
    }
  }

  /** The sibling chain from `first` up to `end` is the forest `f`, with all its children, and every node
      points to the owner of its list. */
  predicate Chain(h: Heap, first: int, f: Forest, owner: int, end: int)
    decreases f
  {
    if f == [] then first == end
    else
      && first == f[0].id && h.Has(first)
      && h.parent[first] == owner
      && Chain(h, h.list[first], f[0].kids, first, NULL)
      && Chain(h, h.next[first], f[1..], owner, end)
  }

  /** Two memories agree on these nodes. */
  predicate Same(h: Heap, k: Heap, ids: seq<nat>) {
    && |h.list| == |k.list| && |h.next| == |k.next| && |h.parent| == |k.parent|
    && forall x :: x in ids && h.Has(x) ==>
      k.list[x] == h.list[x] && k.next[x] == h.next[x] && k.parent[x] == h.parent[x]
  }

  /** Two memories agree on all nodes but these. */
  ghost predicate SameBut(h: Heap, k: Heap, ids: seq<nat>) {
    && |h.list| == |k.list| && |h.next| == |k.next| && |h.parent| == |k.parent|
    && forall x :: x !in ids && h.Has(x) ==>
      k.list[x] == h.list[x] && k.next[x] == h.next[x] && k.parent[x] == h.parent[x]
  }

  lemma {:induction false} ChainFrame(h: Heap, k: Heap, first: int, f: Forest, owner: int, end: int)
    requires Chain(h, first, f, owner, end) && Same(h, k, Preorder(f))
    ensures Chain(k, first, f, owner, end)
    decreases f
  {
    if f != [] {
      assert first in Preorder(f);
      ChainFrame(h, k, h.list[first], f[0].kids, first, NULL);
      ChainFrame(h, k, h.next[first], f[1..], owner, end);
    }
  }

  /** Where the chain of a forest starts. */
  function Head(f: Forest, end: int): int { if f == [] then end else f[0].id }

  lemma {:induction false} ChainAppend(h: Heap, first: int, a: Forest, b: Forest, owner: int, end: int)
    ensures Chain(h, first, a + b, owner, end)
      <==> Chain(h, first, a, owner, Head(b, end)) && Chain(h, Head(b, end), b, owner, end)
    decreases a
  {
    if a == [] {
      assert a + b == b;
    } else {
      assert (a + b)[1..] == a[1..] + b && (a + b)[0] == a[0];
      if h.Has(first) { ChainAppend(h, h.next[first], a[1..], b, owner, end); }
    }
  }

  lemma {:induction false} ChainHead(h: Heap, first: int, f: Forest, owner: int, end: int)
    requires Chain(h, first, f, owner, end)
    ensures first == Head(f, end)
  {
  }

  /** The last node of a nonempty chain. */
  function LastId(f: Forest): nat
    requires f != []
  {
    f[|f| - 1].id
  }

  lemma LastOfRest(f: Forest)
    requires |f| > 1
    ensures f[1..] != [] && LastId(f[1..]) == LastId(f)
  {
  }

  /** Redirecting the last next pointer of a chain. */
  lemma {:induction false} ChainSetEnd(h: Heap, first: int, f: Forest, owner: int, end: int, end': int)
    requires Chain(h, first, f, owner, end) && f != [] && Distinct(Preorder(f))
    requires h.Has(LastId(f))
    ensures Chain(h.(next := h.next[LastId(f) := end']), first, f, owner, end')
    ensures h.next[LastId(f)] == end
    ensures LastId(f) in Preorder(f)
    decreases f
  {
    var k := h.(next := h.next[LastId(f) := end']);
    DistinctForest(f);
    if |f| == 1 {
      ChainFrame(h, k, h.list[first], f[0].kids, first, NULL);
    } else {
      LastOfRest(f);
      ChainSetEnd(h, h.next[first], f[1..], owner, end, end');
      ChainFrame(h, k, h.list[first], f[0].kids, first, NULL);
    }
  }

  lemma {:induction false} ChainLast(h: Heap, first: int, f: Forest, owner: int, end: int)
    requires Chain(h, first, f, owner, end) && f != []
    ensures h.Has(LastId(f)) && LastId(f) in Preorder(f)
    decreases f
  {
    if |f| > 1 { ChainLast(h, h.next[first], f[1..], owner, end); assert LastId(f[1..]) == LastId(f); }
  }
}
