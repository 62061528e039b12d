/** expr_eliminate_dups as the program runs it: slots of one shared tree are overwritten while the
    recursion walks it, the global trans_count counts joins, and a loop repeats the pass. */
module KconfigDupsInPlace {
  import opened KconfigExpr
  import opened KconfigEq
  import opened KconfigJoin
  import opened KconfigSlots
  import opened KconfigTree
  import opened KconfigDups
  import opened KconfigUnique

  /** A slot of the level that starts at `base`, seen from the root of the tree. */
  lemma {:induction false} SlotFromRoot(t: Expr, base: Path, op: Op, p: Path, x: Expr)
    requires Within(t, base) && InLevel(op, Get(t, base), p)
    ensures Within(t, base + p) && Get(t, base + p) == At(op, Get(t, base), p)
    ensures Set(t, base + p, x) == Set(t, base, Put(op, Get(t, base), p, x))
  {
    if base == [] {
      assert base + p == p;
      SlotInLevel(op, t, p, x);
    } else {
      assert (base + p)[1..] == base[1..] + p;
      SlotFromRoot(Child(t, base[0]), base[1..], op, p, x);
    }
  }

  lemma {:induction false} SlotInLevel(op: Op, t: Expr, p: Path, x: Expr)
    requires InLevel(op, t, p)
    ensures Within(t, p) && Get(t, p) == At(op, t, p) && Set(t, p, x) == Put(op, t, p, x)
  {
    if p != [] { SlotInLevel(op, Child(t, p[0]), p[1..], x); }
  }

  class Simplifier {
    var root: Expr
    var transCount: nat

    constructor (e: Expr, count: nat)
      ensures root == e && transCount == count
    {
      root, transCount := e, count;
    }

    /** expr_eliminate_dups1 on two slots of the level at `base`. */
    method EliminateDups1(op: Op, base: Path, p: Path, q: Path)
      requires Within(root, base) && IsOp(Get(root, base), op)
      requires InLevel(op, Get(root, base), p) && InLevel(op, Get(root, base), q)
      modifies this
      ensures Within(old(root), base)
      ensures
        var r := Dups1(op, Get(old(root), base), p, q);
        root == Set(old(root), base, r.0) && transCount == old(transCount) + r.1
      decreases Size(Get(root, base)),
        LevelSize(op, At(op, Get(root, base), p)) + LevelSize(op, At(op, Get(root, base), q)), 1
    {
      ghost var t := Get(root, base);
      ghost var start := root;
      SlotFromRoot(root, base, op, p, root);
      SlotFromRoot(root, base, op, q, root);
      if IsOp(Get(root, base + p), op) {
        Descend(op, t, p);
        EliminateDups1(op, base, p + [false], q);
        ghost var r1 := Dups1(op, t, p + [false], q);
        SetGet(start, base, r1.0, Dups1(op, t, p, q).0);
        SameLevelAt(op, t, r1.0, p + [true]);
        SameLevelAt(op, t, r1.0, q);
        EliminateDups1(op, base, p + [true], q);
      } else if IsOp(Get(root, base + q), op) {
        Descend(op, t, q);
        EliminateDups1(op, base, p, q + [false]);
        ghost var r1 := Dups1(op, t, p, q + [false]);
        SetGet(start, base, r1.0, Dups1(op, t, p, q).0);
        SameLevelAt(op, t, r1.0, p);
        SameLevelAt(op, t, r1.0, q + [true]);
        EliminateDups1(op, base, p, q + [true]);
      } else if p != q {
        JoinInPlace(op, base, p, q);
      } else {
        SetGet(root, base, t, t);
      }
    }

    method JoinInPlace(op: Op, base: Path, p: Path, q: Path)
      requires Within(root, base) && IsOp(Get(root, base), op)
      requires Operand(op, Get(root, base), p) && Operand(op, Get(root, base), q) && p != q
      modifies this
      ensures Within(old(root), base)
      ensures
        var r := JoinSlots(op, Get(old(root), base), p, q);
        root == Set(old(root), base, r.0) && transCount == old(transCount) + r.1
      decreases Size(Get(root, base)), 0, 0
    {
      ghost var t := Get(root, base);
      ghost var start := root;
      ghost var a := At(op, t, p);
      ghost var inner := if IsAnyOp(a) then Dups1(OpOf(a), a, [], []) else (a, 0);
      SlotFromRoot(start, base, op, p, inner.0);
      PutOperand(op, t, p, a);
      PutOperand(op, t, p, inner.0);
      PutElsewhere(op, t, p, q, inner.0);
      ghost var t1 := Put(op, t, p, inner.0);
      SetGet(start, base, t1, t1);
      SetGet(start, base + p, a, a);
      if IsAnyOp(Get(root, base + p)) {
        EliminateDups1(OpOf(Get(root, base + p)), base + p, [], []);
      }
      assert root == Set(start, base, t1);
      SlotFromRoot(root, base, op, p, root);
      SlotFromRoot(root, base, op, q, root);
      var j := Join(op, Get(root, base + p), Get(root, base + q));
      if j.Some? {
        ghost var u := Put(op, t1, p, Neutral(op));
        SlotFromRoot(root, base, op, p, Neutral(op));
        root := Set(root, base + p, Neutral(op));
        SetGet(start, base, t1, u);
        SetGet(start, base, u, u);
        PutTwice(op, t, p, inner.0, Neutral(op));
        PutElsewhere(op, t, p, q, Neutral(op));
        SlotFromRoot(root, base, op, q, j.value);
        root := Set(root, base + q, j.value);
        SetGet(start, base, u, Put(op, u, q, j.value));
        transCount := transCount + 1;
      }
    }

    /** expr_eliminate_dups. */
    method EliminateDups()
      modifies this
      ensures root == ElimDups(old(root)) && transCount == old(transCount)
      ensures Unique(root) && Size(root) <= Size(old(root))
      ensures forall env | EnvOk(env) && NoClash(old(root), env) :: Eval(root, env) == Eval(old(root), env)
    {
      var oldCount := transCount;
      while true
        invariant ElimDups(root) == ElimDups(old(root)) && Size(root) <= Size(old(root))
        decreases Size(root)
      {
        transCount := 0;
        ghost var e := root;
        if IsAnyOp(root) {
          EliminateDups1(OpOf(root), [], [], []);
        }
        assert root == Pass(e).0 && transCount == Pass(e).1;
        if transCount == 0 {
          if IsAnyOp(e) { Dups1Settles(OpOf(e), e, [], []); }
          break;
        }
        PassShrinks(e);
        root := ElimYN(root);
      }
      transCount := oldCount;
      ElimDupsUnique(old(root));
      forall env | EnvOk(env) && NoClash(old(root), env)
        ensures Eval(root, env) == Eval(old(root), env)
      {
        ElimDupsKeepsValue(old(root), env);
      }
    }
  }

  lemma {:induction false} PutTwice(op: Op, t: Expr, p: Path, x: Expr, y: Expr)
    requires Operand(op, t, p) && !IsOp(x, op)
    ensures Operand(op, Put(op, t, p, x), p)
    ensures Put(op, Put(op, t, p, x), p, y) == Put(op, t, p, y)
  {
    if p != [] { PutTwice(op, Child(t, p[0]), p[1..], x, y); }
  }
}
