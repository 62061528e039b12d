/** What conf_write writes: each symbol once, inside the headings of the menus around it. */
module ConfWriteSpec {
  import opened MenuForest

  /** What the walk asks of the menu: the symbol of a node, whether the symbol is a choice, whether it is to
      be written once calculated, and whether the prompt of a node is visible. */
  datatype Menu = Menu(hasSym: nat -> bool, sym: nat -> nat, choice: nat -> bool, writable: nat -> bool,
                       visible: nat -> bool)
  {
    /** The node is a menu, a comment or the like, and gets a heading. */
    predicate Headed(n: nat) { !hasSym(n) && visible(n) }

    /** The symbol of this node has a line in the file. */
    predicate Due(n: nat) { hasSym(n) && !choice(sym(n)) && writable(sym(n)) }
  }

  /** The pieces of the file.  `Line` names the symbol and the node it was written for. */
  datatype Piece = Blank | Heading(node: nat) | EndOf(node: nat) | Line(sym: nat, node: nat)

  /** The WRITTEN flags, need_newline, the file so far, and the nodes met so far. */
  datatype State = State(written: set<nat>, needNewline: bool, out: seq<Piece>, met: seq<nat>)

  const FRESH := State({}, false, [], [])

  /** The file, with a blank line if one is due. */
  function Spacer(st: State): seq<Piece> {
    if st.needNewline then st.out + [Blank] else st.out
  }

  /** One node of the walk. */
  function Visit(n: nat, st: State, q: Menu): State {
    var met := st.met + [n];
    if !q.hasSym(n) then
      if q.visible(n) then st.(needNewline := false, out := st.out + [Heading(n)], met := met) else st.(met := met)
    else if !q.choice(q.sym(n)) && q.sym(n) !in st.written && q.writable(q.sym(n)) then
      State(st.written + {q.sym(n)}, false, Spacer(st) + [Line(q.sym(n), n)], met)
    else st.(met := met)
  }

  /** Climbing out of a node. */
  function Close(n: nat, st: State, q: Menu): State {
    if q.Headed(n) then st.(needNewline := true, out := st.out + [EndOf(n)]) else st
  }

  /** The walk over a forest. */
  function Walk(f: Forest, st: State, q: Menu): State
    decreases f
  {
    if f == [] then st
    else
      var inside := Walk(f[0].kids, Visit(f[0].id, st, q), q);
      Walk(f[1..], if f[0].kids == [] then inside else Close(f[0].id, inside, q), q)
  }

  // ----- every node once, in order -----

  lemma {:induction false} WalkMeets(f: Forest, st: State, q: Menu)
    ensures Walk(f, st, q).met == st.met + Preorder(f)
    decreases f
  {
    if f != [] {
      var inside := Walk(f[0].kids, Visit(f[0].id, st, q), q);
      var after := if f[0].kids == [] then inside else Close(f[0].id, inside, q);
      WalkMeets(f[0].kids, Visit(f[0].id, st, q), q);
      WalkMeets(f[1..], after, q);
      JoinMet(st.met, f[0].id, Preorder(f[0].kids), Preorder(f[1..]));
    }
  }

  lemma JoinMet(met: seq<nat>, n: nat, a: seq<nat>, b: seq<nat>)
    ensures ((met + [n]) + a) + b == met + ([n] + a + b)
  {
  }

  // ----- every symbol once, at its first node -----

  /** The lines of the file. */
  function Lines(out: seq<Piece>): seq<Piece> {
    if out == [] then []
    else
      var before, e := Lines(out[..|out| - 1]), out[|out| - 1];
      if e.Line? then before + [e] else before
  }

  /** The symbols that the nodes of a list owe a line for. */
  function DueSyms(nodes: seq<nat>, q: Menu): set<nat> {
    if nodes == [] then {}
    else
      var before, n := DueSyms(nodes[..|nodes| - 1], q), nodes[|nodes| - 1];
      if q.Due(n) then before + {q.sym(n)} else before
  }

  lemma {:induction false} DueSymsMeans(nodes: seq<nat>, s: nat, q: Menu)
    ensures s in DueSyms(nodes, q) <==> exists i :: 0 <= i < |nodes| && q.Due(nodes[i]) && q.sym(nodes[i]) == s
  {
    if nodes != [] {
      var before := nodes[..|nodes| - 1];
      DueSymsMeans(before, s, q);
      if i :| 0 <= i < |before| && q.Due(before[i]) && q.sym(before[i]) == s { assert nodes[i] == before[i]; }
      if i :| 0 <= i < |nodes| && q.Due(nodes[i]) && q.sym(nodes[i]) == s {
        if i < |before| { assert before[i] == nodes[i]; }
      }
    }
  }

  /** One line for each node whose symbol is due and has not been met before. */
  function FirstLines(nodes: seq<nat>, q: Menu): seq<Piece> {
    if nodes == [] then []
    else
      var before, n := nodes[..|nodes| - 1], nodes[|nodes| - 1];
      if q.Due(n) && q.sym(n) !in DueSyms(before, q) then FirstLines(before, q) + [Line(q.sym(n), n)]
      else FirstLines(before, q)
  }

  /** The flags and the lines are those that the nodes met so far call for. */
  predicate WrittenRight(st: State, q: Menu) {
    st.written == DueSyms(st.met, q) && Lines(st.out) == FirstLines(st.met, q)
  }

  lemma LinesStep(out: seq<Piece>, e: Piece)
    ensures Lines(out + [e]) == if e.Line? then Lines(out) + [e] else Lines(out)
  {
    assert (out + [e])[..|out|] == out;
  }

  lemma NodeStep(nodes: seq<nat>, n: nat, q: Menu)
    ensures DueSyms(nodes + [n], q) == if q.Due(n) then DueSyms(nodes, q) + {q.sym(n)} else DueSyms(nodes, q)
    ensures FirstLines(nodes + [n], q)
      == if q.Due(n) && q.sym(n) !in DueSyms(nodes, q) then FirstLines(nodes, q) + [Line(q.sym(n), n)]
         else FirstLines(nodes, q)
  {
    assert (nodes + [n])[..|nodes|] == nodes;
  }

  lemma VisitWrites(n: nat, st: State, q: Menu)
    requires WrittenRight(st, q)
    ensures WrittenRight(Visit(n, st, q), q)
  {
    if !q.hasSym(n) {
      HeadingWrites(n, st, q);
    } else if q.Due(n) && q.sym(n) !in st.written {
      LineWrites(n, st, q);
    } else {
      NodeStep(st.met, n, q);
    }
  }

  lemma HeadingWrites(n: nat, st: State, q: Menu)
    requires WrittenRight(st, q) && !q.hasSym(n)
    ensures WrittenRight(Visit(n, st, q), q)
  {
    NodeStep(st.met, n, q);
    LinesStep(st.out, Heading(n));
  }

  lemma SpacerLines(st: State)
    ensures Lines(Spacer(st)) == Lines(st.out)
  {
    LinesStep(st.out, Blank);
  }

  lemma LineWrites(n: nat, st: State, q: Menu)
    requires WrittenRight(st, q) && q.Due(n) && q.sym(n) !in st.written
    ensures WrittenRight(Visit(n, st, q), q)
  {
    NodeStep(st.met, n, q);
    SpacerLines(st);
    LinesStep(Spacer(st), Line(q.sym(n), n));
  }

  lemma {:induction false} WalkWrites(f: Forest, st: State, q: Menu)
    requires WrittenRight(st, q)
    ensures WrittenRight(Walk(f, st, q), q)
    decreases f
  {
    if f != [] {
      VisitWrites(f[0].id, st, q);
      var inside := Walk(f[0].kids, Visit(f[0].id, st, q), q);
      WalkWrites(f[0].kids, Visit(f[0].id, st, q), q);
      LinesStep(inside.out, EndOf(f[0].id));
      WalkWrites(f[1..], if f[0].kids == [] then inside else Close(f[0].id, inside, q), q);
    }
  }

  /** Node number `i` of a list is the first one of its symbol. */
  predicate FirstOf(nodes: seq<nat>, i: nat, q: Menu)
    requires i < |nodes|
  {
    q.hasSym(nodes[i]) && forall j :: 0 <= j < i && q.hasSym(nodes[j]) ==> q.sym(nodes[j]) != q.sym(nodes[i])
  }

  lemma FirstOfLast(nodes: seq<nat>, q: Menu)
    requires nodes != [] && q.Due(nodes[|nodes| - 1])
    ensures q.sym(nodes[|nodes| - 1]) !in DueSyms(nodes[..|nodes| - 1], q) <==> FirstOf(nodes, |nodes| - 1, q)
  {
    var before, s := nodes[..|nodes| - 1], q.sym(nodes[|nodes| - 1]);
    DueSymsMeans(before, s, q);
    if s in DueSyms(before, q) {
      var i :| 0 <= i < |before| && q.Due(before[i]) && q.sym(before[i]) == s;
      assert nodes[i] == before[i];
    } else {
      forall j | 0 <= j < |nodes| - 1 && q.hasSym(nodes[j]) ensures q.sym(nodes[j]) != s {
        assert nodes[j] == before[j];
      }
    }
  }

  /** A line is there exactly for the first node of each symbol to be written. */
  lemma {:induction false} FirstLinesExact(nodes: seq<nat>, s: nat, n: nat, q: Menu)
    ensures Line(s, n) in FirstLines(nodes, q)
      <==> exists i :: 0 <= i < |nodes| && nodes[i] == n && q.Due(n) && q.sym(n) == s && FirstOf(nodes, i, q)
  {
    if nodes != [] {
      var before, last := nodes[..|nodes| - 1], |nodes| - 1;
      FirstLinesExact(before, s, n, q);
      if q.Due(nodes[last]) { FirstOfLast(nodes, q); }
      forall i | 0 <= i < last ensures FirstOf(before, i, q) == FirstOf(nodes, i, q) {}
      if i :| 0 <= i < |nodes| && nodes[i] == n && q.Due(n) && q.sym(n) == s && FirstOf(nodes, i, q) {
        if i < last { assert FirstOf(before, i, q) && before[i] == n; }
      }
      if i :| 0 <= i < |before| && before[i] == n && q.Due(n) && q.sym(n) == s && FirstOf(before, i, q) {
        assert nodes[i] == n && FirstOf(nodes, i, q);
      }
    }
  }

  /** How many lines a symbol has. */
  function LineCount(out: seq<Piece>, s: nat): nat {
    if out == [] then 0
    else (if out[|out| - 1].Line? && out[|out| - 1].sym == s then 1 else 0) + LineCount(out[..|out| - 1], s)
  }

  lemma LineCountStep(out: seq<Piece>, e: Piece, s: nat)
    ensures LineCount(out + [e], s) == (if e.Line? && e.sym == s then 1 else 0) + LineCount(out, s)
  {
    assert (out + [e])[..|out|] == out;
  }

  lemma {:induction false} LineCountLines(out: seq<Piece>, s: nat)
    ensures LineCount(Lines(out), s) == LineCount(out, s)
  {
    if out != [] {
      LineCountLines(out[..|out| - 1], s);
      LineCountStep(Lines(out[..|out| - 1]), out[|out| - 1], s);
    }
  }

  lemma {:induction false} FirstLinesCount(nodes: seq<nat>, s: nat, q: Menu)
    ensures LineCount(FirstLines(nodes, q), s) == if s in DueSyms(nodes, q) then 1 else 0
  {
    if nodes != [] {
      var before, n := nodes[..|nodes| - 1], nodes[|nodes| - 1];
      FirstLinesCount(before, s, q);
      LineCountStep(FirstLines(before, q), Line(q.sym(n), n), s);
    }
  }

  // ----- headings and their ends -----

  /** Where each node stands: under which headings, and whether it has children. */
  datatype Layout = Layout(under: nat -> seq<nat>, full: nat -> bool)

  predicate LaidOut(f: Forest, above: seq<nat>, l: Layout, q: Menu)
    decreases f
  {
    f == [] || (
        && l.under(f[0].id) == above
        && l.full(f[0].id) == (f[0].kids != [])
        && LaidOut(f[0].kids, if q.Headed(f[0].id) then above + [f[0].id] else above, l, q)
        && LaidOut(f[1..], above, l, q))
  }

  /** The visible menus around node `n` of the forest, outermost first, below those in `above`. */
  function UnderOf(f: Forest, above: seq<nat>, n: nat, q: Menu): seq<nat>
    decreases f
  {
    if f == [] || f[0].id == n then above
    else if n in Preorder(f[0].kids) then
      UnderOf(f[0].kids, AboveKids(f[0], above, q), n, q)
    else UnderOf(f[1..], above, n, q)
  }

  /** Node `n` of the forest has children. */
  function FullOf(f: Forest, n: nat): bool
    decreases f
  {
    f != [] && if f[0].id == n then f[0].kids != [] else FullOf(f[0].kids, n) || FullOf(f[1..], n)
  }

  function LayoutOf(f: Forest, above: seq<nat>, q: Menu): Layout {
    Layout((n: nat) => UnderOf(f, above, n, q), (n: nat) => FullOf(f, n))
  }

  /** The layout says of the nodes of the forest where they stand in it. */
  predicate Places(l: Layout, f: Forest, above: seq<nat>, q: Menu) {
    forall n :: n in Preorder(f) ==> l.under(n) == UnderOf(f, above, n, q) && l.full(n) == FullOf(f, n)
  }

  lemma {:induction false} FullAmong(f: Forest, n: nat)
    requires FullOf(f, n)
    ensures n in Preorder(f)
    decreases f
  {
    if f[0].id != n {
      if FullOf(f[0].kids, n) { FullAmong(f[0].kids, n); } else { FullAmong(f[1..], n); }
    }
  }

  function AboveKids(t: Tree, above: seq<nat>, q: Menu): seq<nat> {
    if q.Headed(t.id) then above + [t.id] else above
  }

  lemma PlaceInKids(f: Forest, above: seq<nat>, n: nat, q: Menu)
    requires f != [] && Distinct(Preorder(f)) && n in Preorder(f[0].kids)
    ensures UnderOf(f, above, n, q) == UnderOf(f[0].kids, AboveKids(f[0], above, q), n, q)
    ensures FullOf(f, n) == FullOf(f[0].kids, n)
  {
    DistinctForest(f);
    if FullOf(f[1..], n) { FullAmong(f[1..], n); }
  }

  lemma PlaceInRest(f: Forest, above: seq<nat>, n: nat, q: Menu)
    requires f != [] && Distinct(Preorder(f)) && n in Preorder(f[1..])
    ensures UnderOf(f, above, n, q) == UnderOf(f[1..], above, n, q) && FullOf(f, n) == FullOf(f[1..], n)
  {
    DistinctForest(f);
    if FullOf(f[0].kids, n) { FullAmong(f[0].kids, n); }
  }

  lemma PlacesParts(l: Layout, f: Forest, above: seq<nat>, q: Menu)
    requires f != [] && Distinct(Preorder(f)) && Places(l, f, above, q)
    ensures Places(l, f[0].kids, AboveKids(f[0], above, q), q) && Places(l, f[1..], above, q)
  {
    forall n | n in Preorder(f[0].kids)
      ensures l.under(n) == UnderOf(f[0].kids, AboveKids(f[0], above, q), n, q) && l.full(n) == FullOf(f[0].kids, n)
    {
      PlaceInKids(f, above, n, q);
    }
    forall n | n in Preorder(f[1..])
      ensures l.under(n) == UnderOf(f[1..], above, n, q) && l.full(n) == FullOf(f[1..], n)
    {
      PlaceInRest(f, above, n, q);
    }
  }

  /** In a forest without a repeated node, every node has its place. */
  lemma {:induction false} PlacesLaidOut(l: Layout, f: Forest, above: seq<nat>, q: Menu)
    requires Distinct(Preorder(f)) && Places(l, f, above, q)
    ensures LaidOut(f, above, l, q)
    decreases f
  {
    if f != [] {
      PlacesParts(l, f, above, q);
      DistinctForest(f);
      assert f[0].id in Preorder(f);
      PlacesLaidOut(l, f[0].kids, AboveKids(f[0], above, q), q);
      PlacesLaidOut(l, f[1..], above, q);
    }
  }

  datatype Scanned = Open(menus: seq<nat>) | Bad

  /** Reading the file with a stack of open menus: a heading and a line must stand under the headings that
      the menu gives them, a heading with children opens its menu, and an end closes the innermost one. */
  function ScanPiece(s: Scanned, e: Piece, l: Layout): Scanned {
    if s.Bad? then Bad
    else match e
      case Blank => s
      case Heading(n) => if s.menus != l.under(n) then Bad else if l.full(n) then Open(s.menus + [n]) else s
      case EndOf(n) => if s.menus != [] && s.menus[|s.menus| - 1] == n then Open(s.menus[..|s.menus| - 1]) else Bad
      case Line(_, n) => if s.menus == l.under(n) then s else Bad
  }

  function Scan(out: seq<Piece>, l: Layout): Scanned {
    if out == [] then Open([]) else ScanPiece(Scan(out[..|out| - 1], l), out[|out| - 1], l)
  }

  lemma ScanStep(out: seq<Piece>, e: Piece, l: Layout)
    ensures Scan(out + [e], l) == ScanPiece(Scan(out, l), e, l)
  {
    assert (out + [e])[..|out|] == out;
  }

  lemma VisitScans(n: nat, st: State, q: Menu, l: Layout)
    requires Scan(st.out, l) == Open(l.under(n))
    ensures Scan(Visit(n, st, q).out, l) == Open(if q.Headed(n) && l.full(n) then l.under(n) + [n] else l.under(n))
  {
    ScanStep(st.out, Heading(n), l);
    ScanStep(st.out, Blank, l);
    ScanStep(Spacer(st), Line(q.sym(n), n), l);
  }

  /** The headings of visible menus with children, and their ends, are bracketed; and whatever is written is
      inside the headings of exactly the visible menus around its node. */
  lemma {:induction false} WalkBrackets(f: Forest, st: State, q: Menu, l: Layout, above: seq<nat>)
    requires LaidOut(f, above, l, q) && Scan(st.out, l) == Open(above)
    ensures Scan(Walk(f, st, q).out, l) == Open(above)
    decreases f
  {
    if f != [] {
      var n, kids, a := f[0].id, f[0].kids, Visit(f[0].id, st, q);
      VisitScans(n, st, q, l);
      var inside := Walk(kids, a, q);
      if kids != [] {
        WalkBrackets(kids, a, q, l, if q.Headed(n) then above + [n] else above);
        CloseScans(n, inside, q, l, above);
        WalkBrackets(f[1..], Close(n, inside, q), q, l, above);
      } else {
        WalkBrackets(f[1..], inside, q, l, above);
      }
    }
  }

  lemma CloseScans(n: nat, st: State, q: Menu, l: Layout, above: seq<nat>)
    requires Scan(st.out, l) == Open(if q.Headed(n) then above + [n] else above)
    ensures Scan(Close(n, st, q).out, l) == Open(above)
  {
    ScanStep(st.out, EndOf(n), l);
    assert (above + [n])[..|above|] == above;
  }

  /** The nodes headed, and the nodes ended, in the order of the file. */
  function Headings(out: seq<Piece>): seq<nat> {
    if out == [] then []
    else
      var before, e := Headings(out[..|out| - 1]), out[|out| - 1];
      if e.Heading? then before + [e.node] else before
  }

  function Ends(out: seq<Piece>): seq<nat> {
    if out == [] then []
    else
      var before, e := Ends(out[..|out| - 1]), out[|out| - 1];
      if e.EndOf? then before + [e.node] else before
  }

  lemma MarksStep(out: seq<Piece>, e: Piece)
    ensures Headings(out + [e]) == if e.Heading? then Headings(out) + [e.node] else Headings(out)
    ensures Ends(out + [e]) == if e.EndOf? then Ends(out) + [e.node] else Ends(out)
  {
    assert (out + [e])[..|out|] == out;
  }

  /** The visible menus, outermost first. */
  function HeadedNodes(f: Forest, q: Menu): seq<nat>
    decreases f
  {
    if f == [] then []
    else
      var below := HeadedNodes(f[0].kids, q) + HeadedNodes(f[1..], q);
      if q.Headed(f[0].id) then [f[0].id] + below else below
  }

  /** The visible menus with children, innermost first. */
  function EndedNodes(f: Forest, q: Menu): seq<nat>
    decreases f
  {
    if f == [] then []
    else
      var after := EndedNodes(f[1..], q);
      EndedNodes(f[0].kids, q) + (if f[0].kids != [] && q.Headed(f[0].id) then [f[0].id] + after else after)
  }

  lemma VisitMarks(n: nat, st: State, q: Menu)
    ensures Headings(Visit(n, st, q).out) == if q.Headed(n) then Headings(st.out) + [n] else Headings(st.out)
    ensures Ends(Visit(n, st, q).out) == Ends(st.out)
  {
    MarksStep(st.out, Heading(n));
    MarksStep(st.out, Blank);
    MarksStep(Spacer(st), Line(q.sym(n), n));
  }

  /** Every visible menu has its heading once, and every visible menu with children its end once. */
  lemma {:induction false} WalkMarks(f: Forest, st: State, q: Menu)
    ensures Headings(Walk(f, st, q).out) == Headings(st.out) + HeadedNodes(f, q)
    ensures Ends(Walk(f, st, q).out) == Ends(st.out) + EndedNodes(f, q)
    decreases f
  {
    if f != [] {
      var n, kids, a := f[0].id, f[0].kids, Visit(f[0].id, st, q);
      var inside := Walk(kids, a, q);
      VisitMarks(n, st, q);
      WalkMarks(kids, a, q);
      MarksStep(inside.out, EndOf(n));
      WalkMarks(f[1..], if kids == [] then inside else Close(n, inside, q), q);
      Join(Headings(st.out), n, HeadedNodes(kids, q), HeadedNodes(f[1..], q));
      Join2(Ends(st.out), EndedNodes(kids, q), n, EndedNodes(f[1..], q));
    }
  }

  lemma Join(a: seq<nat>, n: nat, c: seq<nat>, d: seq<nat>)
    ensures ((a + [n]) + c) + d == a + ([n] + (c + d)) && (a + c) + d == a + (c + d)
  {
  }

  lemma Join2(a: seq<nat>, b: seq<nat>, n: nat, d: seq<nat>)
    ensures ((a + b) + [n]) + d == a + (b + ([n] + d)) && (a + b) + d == a + (b + d)
  {
  }

  // ----- blank lines -----

  /** A blank line stands exactly between the end of a menu and a symbol line. */
  predicate Spaced(out: seq<Piece>) {
    && (forall i :: 0 <= i < |out| && out[i].Blank? ==> 0 < i && out[i - 1].EndOf? && i + 1 < |out| && out[i + 1].Line?)
    && (forall i :: 0 <= i < |out| - 1 && out[i].EndOf? ==> !out[i + 1].Line?)
  }

  predicate SpacedSoFar(st: State) {
    Spaced(st.out) && (st.needNewline <==> st.out != [] && st.out[|st.out| - 1].EndOf?)
  }

  lemma VisitSpaces(n: nat, st: State, q: Menu)
    requires SpacedSoFar(st)
    ensures SpacedSoFar(Visit(n, st, q))
  {
  }

  lemma CloseSpaces(n: nat, st: State, q: Menu)
    requires SpacedSoFar(st)
    ensures SpacedSoFar(Close(n, st, q))
  {
  }

  lemma {:induction false} WalkSpaces(f: Forest, st: State, q: Menu)
    requires SpacedSoFar(st)
    ensures SpacedSoFar(Walk(f, st, q))
    decreases f
  {
    if f != [] {
      VisitSpaces(f[0].id, st, q);
      WalkSpaces(f[0].kids, Visit(f[0].id, st, q), q);
      var inside := Walk(f[0].kids, Visit(f[0].id, st, q), q);
      CloseSpaces(f[0].id, inside, q);
      WalkSpaces(f[1..], if f[0].kids == [] then inside else Close(f[0].id, inside, q), q);
    }
  }

  // ----- the whole file -----

  /** The file for the nodes `f` below the root: every node is met once, in menu order; each symbol to be
      written has exactly one line, and that one is for its first node; headings and ends are those of the
      visible menus, properly bracketed; and blank lines stand where a line follows an end. */
  predicate FileRight(f: Forest, st: State, q: Menu) {
    && st.met == Preorder(f)
    && Lines(st.out) == FirstLines(Preorder(f), q)
    && Scan(st.out, LayoutOf(f, [], q)) == Open([])
    && Headings(st.out) == HeadedNodes(f, q) && Ends(st.out) == EndedNodes(f, q)
    && Spaced(st.out)
  }

  lemma WholeFile(f: Forest, q: Menu)
    requires Distinct(Preorder(f))
    ensures FileRight(f, Walk(f, FRESH, q), q)
  {
    PlacesLaidOut(LayoutOf(f, [], q), f, [], q);
    WalkMeets(f, FRESH, q);
    assert [] + Preorder(f) == Preorder(f);
    WalkWrites(f, FRESH, q);
    WalkBrackets(f, FRESH, q, LayoutOf(f, [], q), []);
    WalkMarks(f, FRESH, q);
    assert [] + HeadedNodes(f, q) == HeadedNodes(f, q) && [] + EndedNodes(f, q) == EndedNodes(f, q);
    WalkSpaces(f, FRESH, q);
  }

  lemma {:induction false} HeadedExactly(f: Forest, n: nat, q: Menu)
    ensures n in HeadedNodes(f, q) <==> n in Preorder(f) && !q.hasSym(n) && q.visible(n)
    decreases f
  {
    if f != [] {
      HeadedExactly(f[0].kids, n, q);
      HeadedExactly(f[1..], n, q);
    }
  }

  lemma {:induction false} HeadingAmong(out: seq<Piece>, n: nat)
    ensures Heading(n) in out <==> n in Headings(out)
    ensures EndOf(n) in out <==> n in Ends(out)
  {
    if out != [] {
      HeadingAmong(out[..|out| - 1], n);
      assert out == out[..|out| - 1] + [out[|out| - 1]];
    }
  }

  lemma {:induction false} EndedExactly(f: Forest, n: nat, q: Menu)
    requires Distinct(Preorder(f))
    ensures n in EndedNodes(f, q) <==> n in Preorder(f) && !q.hasSym(n) && q.visible(n) && FullOf(f, n)
    decreases f
  {
    if f != [] {
      DistinctForest(f);
      EndedExactly(f[0].kids, n, q);
      EndedExactly(f[1..], n, q);
      if FullOf(f[0].kids, n) { FullAmong(f[0].kids, n); }
      if FullOf(f[1..], n) { FullAmong(f[1..], n); }
    }
  }

  /** A heading is there exactly for the visible nodes without a symbol, and an end for those with children. */
  lemma HeadingsExactly(f: Forest, n: nat, q: Menu)
    requires Distinct(Preorder(f))
    ensures var out := Walk(f, FRESH, q).out;
      && (Heading(n) in out <==> n in Preorder(f) && !q.hasSym(n) && q.visible(n))
      && (EndOf(n) in out <==> n in Preorder(f) && !q.hasSym(n) && q.visible(n) && FullOf(f, n))
  {
    WalkMarks(f, FRESH, q);
    assert [] + HeadedNodes(f, q) == HeadedNodes(f, q) && [] + EndedNodes(f, q) == EndedNodes(f, q);
    HeadingAmong(Walk(f, FRESH, q).out, n);
    HeadedExactly(f, n, q);
    EndedExactly(f, n, q);
  }

  /** A symbol has a line exactly if it is no choice, is to be written, and has a node. */
  lemma SymbolsExactly(f: Forest, s: nat, q: Menu)
    ensures LineCount(Walk(f, FRESH, q).out, s) == 1 <==>
      && !q.choice(s) && q.writable(s)
      && exists i :: 0 <= i < |Preorder(f)| && q.hasSym(Preorder(f)[i]) && q.sym(Preorder(f)[i]) == s
  {
    EachSymbolOnce(f, s, q);
  }

  lemma LineCountIs(f: Forest, s: nat, q: Menu)
    ensures LineCount(Walk(f, FRESH, q).out, s) == if s in DueSyms(Preorder(f), q) then 1 else 0
  {
    WalkMeets(f, FRESH, q);
    assert [] + Preorder(f) == Preorder(f);
    WalkWrites(f, FRESH, q);
    LineCountLines(Walk(f, FRESH, q).out, s);
    FirstLinesCount(Preorder(f), s, q);
  }

  /** Every symbol to be written has one line, every other symbol none. */
  lemma EachSymbolOnce(f: Forest, s: nat, q: Menu)
    ensures LineCount(Walk(f, FRESH, q).out, s)
      == if exists i :: 0 <= i < |Preorder(f)| && q.Due(Preorder(f)[i]) && q.sym(Preorder(f)[i]) == s then 1 else 0
  {
    LineCountIs(f, s, q);
    DueSymsMeans(Preorder(f), s, q);
  }
}
