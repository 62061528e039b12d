/** Saving a configuration and loading it again: the walk of conf_write and the reader together. */
module ConfSave {
  import opened MenuForest
  import opened ConfWriteSpec
  import opened KconfigExpr
  import opened ConfLine
  import opened ConfRead
  import opened ConfHeading

  /** What is printed for a symbol, for a node, and as the title of the whole menu. */
  datatype Texts = Texts(name: nat -> string, value: nat -> Setting, prompt: nat -> string, title: string)

  /** The lines that a piece of the file is printed as. */
  function RowsOf(e: Piece, x: Texts): seq<Row> {
    match e
    case Blank => [Empty]
    case Heading(n) => [Empty, Hash, Comment(x.prompt(n)), Hash]
    case EndOf(n) => [Comment("end of " + x.prompt(n))]
    case Line(s, _) => [Row.Symbol(x.name(s), x.value(s))]
  }

  /** A menu is headed by its prompt between bare hashes below an empty line, and ends with a remark; a blank line
      is empty. */
  lemma PieceText(types: map<string, SymType>, n: nat, x: Texts)
    requires Fine(types, Comment(x.prompt(n))) && Fine(types, Comment("end of " + x.prompt(n)))
    ensures FileText(types, RowsOf(Heading(n), x)) == "\n#\n" + ("# " + x.prompt(n) + "\n") + "#\n"
    ensures FileText(types, RowsOf(EndOf(n), x)) == "# end of " + x.prompt(n) + "\n"
    ensures FileText(types, RowsOf(Blank, x)) == "\n"
  {
    HeadingRowsText(types, x.prompt(n));
    var e := Comment("end of " + x.prompt(n));
    assert [e][1..] == [] && [Empty][1..] == [];
    assert "# " + ("end of " + x.prompt(n)) + "\n" == "# end of " + x.prompt(n) + "\n";
  }

  lemma HeadingRowsText(types: map<string, SymType>, prompt: string)
    requires Fine(types, Comment(prompt))
    ensures FileText(types, [Empty, Hash, Comment(prompt), Hash]) == "\n#\n" + ("# " + prompt + "\n") + "#\n"
  {
    var c := Comment(prompt);
    FileFirst(types, Hash, []);
    assert [Hash] + [] == [Hash];
    FileFirst(types, c, [Hash]);
    assert [c] + [Hash] == [c, Hash];
    FileFirst(types, Hash, [c, Hash]);
    assert [Hash] + [c, Hash] == [Hash, c, Hash];
    FileFirst(types, Empty, [Hash, c, Hash]);
    assert [Empty] + [Hash, c, Hash] == [Empty, Hash, c, Hash];
    assert "\n" + ("#\n" + (("# " + prompt + "\n") + "#\n")) == "\n#\n" + ("# " + prompt + "\n") + "#\n";
  }

  lemma FileFirst(types: map<string, SymType>, r: Row, rest: seq<Row>)
    requires Fine(types, r) && AllFine(types, rest)
    ensures AllFine(types, [r] + rest) && FileText(types, [r] + rest) == Render(types, r) + FileText(types, rest)
  {
    assert ([r] + rest)[0] == r && ([r] + rest)[1..] == rest;
  }

  function AllRows(out: seq<Piece>, x: Texts): seq<Row> {
    if out == [] then [] else AllRows(out[..|out| - 1], x) + RowsOf(out[|out| - 1], x)
  }

  /** Of the symbols to be written, names are names, values fit and are readable, and different ones have
      different names; no prompt looks like an assignment, nor does the title. */
  ghost predicate Sound(types: map<string, SymType>, x: Texts, syms: set<nat>) {
    && (forall s :: s in syms ==> Fine(types, Row.Symbol(x.name(s), x.value(s))))
    && (forall s, t :: s in syms && t in syms && s != t ==> x.name(s) != x.name(t))
    && (forall n :: Fine(types, Comment(x.prompt(n))))
    && Fine(types, Comment(x.title))
  }

  predicate LinesOf(out: seq<Piece>, syms: set<nat>) {
    forall i :: 0 <= i < |out| && out[i].Line? ==> out[i].sym in syms
  }

  lemma RowsFine(types: map<string, SymType>, e: Piece, x: Texts, syms: set<nat>)
    requires Sound(types, x, syms) && (e.Line? ==> e.sym in syms)
    ensures AllFine(types, RowsOf(e, x))
  {
    if e.EndOf? {
      assert Fine(types, Comment(x.prompt(e.node)));
      assert ("end of " + x.prompt(e.node))[0] == 'e' && CONFIG[0] == 'C';
    } else if e.Heading? {
      assert Fine(types, Comment(x.prompt(e.node)));
    }
  }

  lemma {:induction false} AllRowsFine(types: map<string, SymType>, out: seq<Piece>, x: Texts, syms: set<nat>)
    requires Sound(types, x, syms) && LinesOf(out, syms)
    ensures AllFine(types, AllRows(out, x))
  {
    if out != [] {
      RowsFine(types, out[|out| - 1], x, syms);
      AllRowsFine(types, out[..|out| - 1], x, syms);
    }
  }

  lemma {:induction false} LinesCounted(out: seq<Piece>, i: nat)
    requires i < |out| && out[i].Line?
    ensures LineCount(out, out[i].sym) > 0
  {
    if i < |out| - 1 { LinesCounted(out[..|out| - 1], i); }
  }

  lemma PieceSettings(e: Piece, x: Texts, values: map<string, Setting>)
    ensures Settings(RowsOf(e, x), values) == if e.Line? then values[x.name(e.sym) := x.value(e.sym)] else values
  {
    if e.Line? {
      OneRow(Row.Symbol(x.name(e.sym), x.value(e.sym)), values);
    } else {
      PlainSettings(RowsOf(e, x), values);
    }
  }

  /** Some symbol line of the file sets this name to this value. */
  ghost predicate SetBy(out: seq<Piece>, x: Texts, name: string, v: Setting) {
    exists s :: LineCount(out, s) > 0 && x.name(s) == name && x.value(s) == v
  }

  function Loaded(out: seq<Piece>, x: Texts): map<string, Setting> { Settings(AllRows(out, x), map[]) }

  lemma LoadedStep(out: seq<Piece>, x: Texts)
    requires out != []
    ensures var m, e := Loaded(out[..|out| - 1], x), out[|out| - 1];
      Loaded(out, x) == if e.Line? then m[x.name(e.sym) := x.value(e.sym)] else m
  {
    var before, e := out[..|out| - 1], out[|out| - 1];
    SettingsAppend(AllRows(before, x), RowsOf(e, x), map[]);
    PieceSettings(e, x, Loaded(before, x));
  }

  /** The settings of a file are those of its symbol lines. */
  lemma {:induction false} LoadedSetBy(out: seq<Piece>, x: Texts, name: string)
    requires name in Loaded(out, x)
    ensures SetBy(out, x, name, Loaded(out, x)[name])
  {
    if out != [] {
      var before, e := out[..|out| - 1], out[|out| - 1];
      LoadedStep(out, x);
      if e.Line? && name == x.name(e.sym) {
        assert LineCount(out, e.sym) > 0;
      } else {
        LoadedSetBy(before, x, name);
        var s :| LineCount(before, s) > 0 && x.name(s) == name && x.value(s) == Loaded(before, x)[name];
        assert LineCount(out, s) > 0;
      }
    }
  }

  lemma {:induction false} LinesLoaded(out: seq<Piece>, x: Texts, s: nat)
    requires LineCount(out, s) > 0
    ensures x.name(s) in Loaded(out, x)
  {
    if out != [] {
      LoadedStep(out, x);
      if LineCount(out[..|out| - 1], s) > 0 { LinesLoaded(out[..|out| - 1], x, s); }
    }
  }

  /** The settings are the values of these symbols, and no others. */
  ghost predicate SetExactly(m: map<string, Setting>, syms: set<nat>, x: Texts) {
    && (forall s :: s in syms ==> x.name(s) in m && m[x.name(s)] == x.value(s))
    && (forall name :: name in m ==> exists s :: s in syms && x.name(s) == name)
  }

  /** The lines of the file: the heading, and those for the nodes `f` below the root. */
  function SavedRows(f: Forest, q: Menu, x: Texts): seq<Row> {
    HeadingRows(x.title) + AllRows(Walk(f, FRESH, q).out, x)
  }

  lemma SavedFine(types: map<string, SymType>, f: Forest, q: Menu, x: Texts)
    requires Sound(types, x, DueSyms(Preorder(f), q))
    ensures AllFine(types, SavedRows(f, q, x))
  {
    var out := Walk(f, FRESH, q).out;
    forall i | 0 <= i < |out| && out[i].Line? ensures out[i].sym in DueSyms(Preorder(f), q) {
      LinesCounted(out, i);
      LineCountIs(f, out[i].sym, q);
    }
    AllRowsFine(types, out, x, DueSyms(Preorder(f), q));
    HeadingFine(types, x.title);
  }

  /** The heading is read over. */
  lemma SavedSettings(types: map<string, SymType>, f: Forest, q: Menu, x: Texts)
    requires Fine(types, Comment(x.title))
    ensures Settings(SavedRows(f, q, x), map[]) == Loaded(Walk(f, FRESH, q).out, x)
  {
    HeadingFine(types, x.title);
    SettingsAppend(HeadingRows(x.title), AllRows(Walk(f, FRESH, q).out, x), map[]);
    PlainSettings(HeadingRows(x.title), map[]);
  }

  /** The configuration that conf_write saves is the one that is read back: each symbol of the menu that is
      to be written gets its value again, and nothing else is set. */
  lemma SaveAndLoad(types: map<string, SymType>, f: Forest, q: Menu, x: Texts)
    requires Sound(types, x, DueSyms(Preorder(f), q))
    ensures var rows, syms := SavedRows(f, q, x), DueSyms(Preorder(f), q);
      && AllFine(types, rows)
      && SetExactly(ReadAll(types, FileText(types, rows), map[]), syms, x)
  {
    SavedFine(types, f, q, x);
    SavedSettings(types, f, q, x);
    FileRoundTrip(types, SavedRows(f, q, x));
    forall s ensures LineCount(Walk(f, FRESH, q).out, s) > 0 <==> s in DueSyms(Preorder(f), q) {
      LineCountIs(f, s, q);
    }
    LoadedExactly(Walk(f, FRESH, q).out, DueSyms(Preorder(f), q), x);
  }

  lemma LoadedExactly(out: seq<Piece>, syms: set<nat>, x: Texts)
    requires forall s: nat :: LineCount(out, s) > 0 <==> s in syms
    requires forall s, t :: s in syms && t in syms && s != t ==> x.name(s) != x.name(t)
    ensures SetExactly(Loaded(out, x), syms, x)
  {
    var m := Loaded(out, x);
    forall name | name in m ensures exists s :: s in syms && x.name(s) == name && x.value(s) == m[name] {
      LoadedSetBy(out, x, name);
    }
    forall s | s in syms ensures x.name(s) in m && m[x.name(s)] == x.value(s) {
      LinesLoaded(out, x, s);
      var t :| t in syms && x.name(t) == x.name(s) && x.value(t) == m[x.name(s)];
    }
  }
}
