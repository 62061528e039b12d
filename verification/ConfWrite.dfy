/** conf_write: a cursor walks the menu nodes by their list, next and parent pointers. */
module ConfWrite {
  import opened MenuForest
  import opened ConfWriteSpec

  /** A node above the cursor, and the siblings behind it that are still to come. */
  datatype Level = Level(id: nat, rest: Forest)

  /** The pointers above the cursor: each open node has its remaining siblings behind it; the last is the root. */
  predicate Above(h: Heap, owner: int, up: seq<Level>, root: nat)
    decreases |up|
  {
    if up == [] then owner == root && h.Has(root) && h.next[root] == NULL && h.parent[root] == NULL
    else
      && owner == up[0].id && owner != root && h.Has(owner)
      && Chain(h, h.next[owner], up[0].rest, h.parent[owner], NULL)
      && Above(h, h.parent[owner], up[1..], root)
  }

  /** What is left to do once the cursor climbs out of the current list. */
  function Climb(up: seq<Level>, st: State, q: Menu): State
    decreases |up|
  {
    if up == [] then st else Climb(up[1..], Walk(up[0].rest, Close(up[0].id, st, q), q), q)
  }

  function Ahead(up: seq<Level>): nat {
    if up == [] then 0 else Count(up[0].rest) + Ahead(up[1..])
  }

  /** The root is not one of the nodes of its list. */
  predicate Below(f: Forest, up: seq<Level>, root: nat) {
    root !in Preorder(f) && forall k :: 0 <= k < |up| ==> root !in Preorder(up[k].rest)
  }

  lemma BelowFirst(f: Forest, up: seq<Level>, root: nat)
    requires f != [] && Below(f, up, root)
    ensures f[0].id != root && Below(f[0].kids, [Level(f[0].id, f[1..])] + up, root) && Below(f[1..], up, root)
  {
  }

  lemma BelowUp(up: seq<Level>, root: nat)
    requires up != [] && forall k :: 0 <= k < |up| ==> root !in Preorder(up[k].rest)
    ensures Below(up[0].rest, up[1..], root)
  {
  }

  class Writer {
    const h: Heap
    /** The WRITTEN flag of each symbol. */
    var written: set<nat>
    var needNewline: bool
    var out: seq<Piece>
    /** The nodes the cursor has stood at. */
    ghost var met: seq<nat>

    constructor (heap: Heap)
      ensures h == heap && Now() == FRESH
    {
      h, written, needNewline, out, met := heap, {}, false, [], [];
    }

    ghost function Now(): State
      reads this
    {
      State(written, needNewline, out, met)
    }

    /** The node under the cursor. */
    method VisitNode(menu: nat, q: Menu)
      modifies this
      ensures Now() == Visit(menu, old(Now()), q)
    {
      met := met + [menu];
      if !q.hasSym(menu) {
        if !q.visible(menu) { return; }
        out := out + [Heading(menu)];
        needNewline := false;
      } else if !q.choice(q.sym(menu)) && q.sym(menu) !in written {
        if !q.writable(q.sym(menu)) { return; }
        if needNewline {
          out := out + [Blank];
          needNewline := false;
        }
        written := written + {q.sym(menu)};
        out := out + [Line(q.sym(menu), menu)];
      }
    }

    /** The cursor climbs from a last sibling to the next node ahead of it, closing the menus it leaves. */
    method ClimbOut(menu: nat, q: Menu, root: nat, ghost owner: int, ghost up: seq<Level>)
      returns (to: int, ghost todo: Forest, ghost owner': int, ghost up': seq<Level>)
      requires h.Has(menu) && h.parent[menu] == owner && Above(h, owner, up, root) && Below([], up, root)
      modifies this
      ensures to != NULL ==>
        && todo != [] && Chain(h, to, todo, owner', NULL) && Above(h, owner', up', root) && Below(todo, up', root)
        && Count(todo) + Ahead(up') == Ahead(up)
        && Climb(up', Walk(todo, Now(), q), q) == Climb(up, old(Now()), q)
      ensures to == NULL ==> Now() == Climb(up, old(Now()), q)
    {
      to, todo, owner', up' := h.parent[menu], [], owner, up;
      while to != NULL
        invariant to == owner' && (to != NULL ==> Above(h, owner', up', root) && Below([], up', root))
        invariant to != NULL ==> Ahead(up') == Ahead(up) && Climb(up', Now(), q) == Climb(up, old(Now()), q)
        invariant to == NULL ==> Now() == Climb(up, old(Now()), q)
        decreases if to == NULL then 0 else 1 + |up'|
      {
        if !q.hasSym(to) && q.visible(to) && to != root {
          out := out + [EndOf(to)];
          needNewline := true;
        }
        if up' == [] {
          owner' := h.parent[to];
        } else {
          BelowUp(up', root);
          todo, owner', up' := up'[0].rest, h.parent[to], up'[1..];
        }
        if h.next[to] != NULL {
          to := h.next[to];
          return;
        }
        to := h.parent[to];
      }
    }

    /** The whole walk.  In a menu without a repeated node the file comes out right. */
    method Write(root: nat, q: Menu, ghost t: Tree)
      requires t.id == root && Chain(h, root, [t], NULL, NULL) && root !in Preorder(t.kids)
      requires Now() == FRESH
      modifies this
      ensures Now() == Walk(t.kids, FRESH, q).(written := {})
      ensures Distinct(Preorder(t.kids)) ==> FileRight(t.kids, Now(), q)
    {
      ghost var todo: Forest, owner: int, up: seq<Level> := t.kids, root, [];
      var menu := h.list[root];
      while menu != NULL
        invariant menu != NULL ==> todo != []
        invariant menu != NULL ==>
          Chain(h, menu, todo, owner, NULL) && Above(h, owner, up, root) && Below(todo, up, root)
        invariant menu != NULL ==> Climb(up, Walk(todo, Now(), q), q) == Walk(t.kids, FRESH, q)
        invariant menu == NULL ==> Now() == Walk(t.kids, FRESH, q)
        decreases if menu == NULL then 0 else 1 + Count(todo) + Ahead(up)
      {
        BelowFirst(todo, up, root);
        VisitNode(menu, q);
        if h.list[menu] != NULL {
          up := [Level(menu, todo[1..])] + up;
          todo, owner := todo[0].kids, menu;
          menu := h.list[menu];
        } else if h.next[menu] != NULL {
          todo := todo[1..];
          menu := h.next[menu];
        } else {
          menu, todo, owner, up := ClimbOut(menu, q, root, owner, up);
        }
      }
      written := {};
      if Distinct(Preorder(t.kids)) { RightWritten(t.kids, Walk(t.kids, FRESH, q), q); }
    }

    lemma RightWritten(f: Forest, st: State, q: Menu)
      requires Distinct(Preorder(f)) && st == Walk(f, FRESH, q)
      ensures FileRight(f, st.(written := {}), q)
    {
      WholeFile(f, q);
    }
  }
}
