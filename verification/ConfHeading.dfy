/** The comment printer, and the heading at the top of a written file. */
module ConfHeading {
  import opened ConfEscape
  import opened KconfigExpr
  import opened ConfLine
  import opened ConfRead

  function CommentRow(line: string): Row { if line == [] then Hash else Comment(line) }

  predicate More(text: string) { Find(text, '\n') < |text| }

  /** The first line of a text, and what is below it. */
  function First(text: string): string { text[..Find(text, '\n')] }

  function Rest(text: string): (rest: string)
    requires More(text)
    ensures |rest| < |text|
  {
    text[Find(text, '\n') + 1..]
  }

  /** A text with a line above it. */
  function Above(line: string, rest: string): string { line + ("\n" + rest) }

  lemma FirstRest(line: string, rest: string)
    requires '\n' !in line
    ensures More(Above(line, rest)) && First(Above(line, rest)) == line && Rest(Above(line, rest)) == rest
  {
    FindIn(line, '\n', rest);
    assert Above(line, rest) == line + ['\n'] + rest;
  }

  /** A comment is printed line by line. */
  function CommentRows(text: string): seq<Row>
    decreases |text|
  {
    if More(text) then [CommentRow(First(text))] + CommentRows(Rest(text)) else [CommentRow(text)]
  }

  const AUTOMATIC := "Automatically generated file; DO NOT EDIT."

  /** The room in the buffer of the heading, without the closing NUL. */
  const ROOM := 255

  function HeadingText(title: string): string {
    var text := Above("", Above(AUTOMATIC, Above(title, "")));
    if |text| > ROOM then text[..ROOM] else text
  }

  function HeadingRows(title: string): seq<Row> { CommentRows(HeadingText(title)) }

  /** What of the title fits. */
  function Fitting(title: string): string {
    var room := ROOM - |AUTOMATIC| - 2;
    if |title| > room then title[..room] else title
  }

  lemma RowAbove(line: string, rest: string)
    requires '\n' !in line
    ensures CommentRows(Above(line, rest)) == [CommentRow(line)] + CommentRows(rest)
  {
    FirstRest(line, rest);
  }

  lemma LastRow(line: string)
    requires '\n' !in line
    ensures CommentRows(line) == [CommentRow(line)]
  {
  }

  predicate Fits(title: string) { |title| < ROOM - |AUTOMATIC| - 2 }

  /** What follows the notice. */
  function HeadingRest(title: string): string {
    if Fits(title) then Above(title, "") else Fitting(title)
  }

  lemma HeadingSplit(title: string)
    ensures HeadingText(title) == Above("", Above(AUTOMATIC, HeadingRest(title)))
  {
  }

  lemma RestRows(title: string)
    requires '\n' !in title
    ensures CommentRows(HeadingRest(title)) == [CommentRow(Fitting(title))] + if Fits(title) then [Hash] else []
  {
    if Fits(title) {
      RowAbove(title, "");
      LastRow("");
    } else {
      LastRow(Fitting(title));
    }
  }

  /** The heading: the notice and the title between bare hashes. A title that fills the buffer loses its end
      and the hash below it. */
  lemma HeadingShape(title: string)
    requires '\n' !in title
    ensures HeadingRows(title)
      == [Hash] + ([Comment(AUTOMATIC)] + ([CommentRow(Fitting(title))] + if Fits(title) then [Hash] else []))
  {
    HeadingSplit(title);
    RowAbove("", Above(AUTOMATIC, HeadingRest(title)));
    NoticeClean();
    RowAbove(AUTOMATIC, HeadingRest(title));
    RestRows(title);
  }

  lemma FittingFine(types: map<string, SymType>, title: string)
    requires Fine(types, Comment(title))
    ensures Fine(types, CommentRow(Fitting(title)))
  {
    assert Fitting(title) <= title;
  }

  lemma NoticeClean()
    ensures '\n' !in AUTOMATIC && NUL !in AUTOMATIC
  {
  }

  lemma NoticeStart()
    ensures !(CONFIG <= AUTOMATIC)
  {
    assert AUTOMATIC[0] == 'A' && CONFIG[0] == 'C';
  }

  lemma NoticeFine(types: map<string, SymType>)
    ensures Fine(types, Comment(AUTOMATIC))
  {
    NoticeClean();
    NoticeStart();
  }

  /** No line of these sets anything. */
  predicate NoSymbols(rows: seq<Row>) { forall i :: 0 <= i < |rows| ==> !rows[i].Symbol? }

  lemma PlainJoin(types: map<string, SymType>, r: Row, rest: seq<Row>)
    requires Fine(types, r) && !r.Symbol? && AllFine(types, rest) && NoSymbols(rest)
    ensures AllFine(types, [r] + rest) && NoSymbols([r] + rest)
  {
  }

  /** No line of the heading passes for a setting when the title does not. */
  lemma HeadingFine(types: map<string, SymType>, title: string)
    requires Fine(types, Comment(title))
    ensures AllFine(types, HeadingRows(title)) && NoSymbols(HeadingRows(title))
  {
    HeadingShape(title);
    FittingFine(types, title);
    NoticeFine(types);
    var end := if Fits(title) then [Hash] else [];
    PlainJoin(types, CommentRow(Fitting(title)), end);
    PlainJoin(types, Comment(AUTOMATIC), [CommentRow(Fitting(title))] + end);
    PlainJoin(types, Hash, [Comment(AUTOMATIC)] + ([CommentRow(Fitting(title))] + end));
  }

  lemma OneRow(r: Row, values: map<string, Setting>)
    ensures Settings([r], values) == if r.Symbol? then values[r.name := r.v] else values
  {
    var said := if r.Symbol? then Given(r.name, r.v) else Skipped;
    assert [r][1..] == [] && RowSaids([r]) == [said] + RowSaids([]) == [said];
    assert [said][..0] == [] && RecordAll([said], values) == Record(RecordAll([], values), said);
  }

  lemma {:induction false} PlainSettings(rows: seq<Row>, values: map<string, Setting>)
    requires NoSymbols(rows)
    ensures Settings(rows, values) == values
  {
    if rows != [] {
      assert [rows[0]] + rows[1..] == rows;
      SettingsAppend([rows[0]], rows[1..], values);
      OneRow(rows[0], values);
      PlainSettings(rows[1..], values);
    }
  }

  lemma FileHead(types: map<string, SymType>, r: Row, rest: seq<Row>)
    requires AllFine(types, [r] + rest)
    ensures Fine(types, r) && AllFine(types, rest)
    ensures FileText(types, [r] + rest) == Render(types, r) + FileText(types, rest)
  {
    assert ([r] + rest)[0] == r && ([r] + rest)[1..] == rest;
    forall i | 0 <= i < |rest| ensures Fine(types, rest[i]) {
      assert ([r] + rest)[i + 1] == rest[i];
    }
  }

  function PrintedLine(line: string): string {
    if line == [] then "#" + "\n" else "#" + (" " + line) + "\n"
  }

  /** What the printer makes of a text. */
  function CommentText(text: string): string
    decreases |text|
  {
    if More(text) then PrintedLine(First(text)) + CommentText(Rest(text)) else PrintedLine(text)
  }

  /** The rows of a comment are what the printer prints. */
  lemma {:induction false} CommentPrinted(types: map<string, SymType>, text: string)
    requires AllFine(types, CommentRows(text))
    ensures FileText(types, CommentRows(text)) == CommentText(text)
    decreases |text|
  {
    if More(text) {
      FileHead(types, CommentRow(First(text)), CommentRows(Rest(text)));
      RowPrinted(types, First(text));
      CommentPrinted(types, Rest(text));
    } else {
      assert [CommentRow(text)] + [] == [CommentRow(text)];
      FileHead(types, CommentRow(text), []);
      RowPrinted(types, text);
    }
  }

  lemma RowPrinted(types: map<string, SymType>, line: string)
    requires Fine(types, CommentRow(line))
    ensures Render(types, CommentRow(line)) == PrintedLine(line)
  {
    assert "# " + line + "\n" == "#" + (" " + line) + "\n";
  }

  /** One turn of the printer's loop. */
  lemma PrintStep(whole: string, out: string, text: string)
    requires whole == out + CommentText(text)
    ensures if More(text) then whole == out + PrintedLine(First(text)) + CommentText(Rest(text))
            else whole == out + PrintedLine(text) && First(text) == text
  {
    if More(text) { Regrouped(out, PrintedLine(First(text)), CommentText(Rest(text))); }
  }

  lemma Regrouped(out: string, line: string, rest: string)
    ensures out + (line + rest) == out + line + rest
  {
  }

  method PrintHashed(before: string, line: string) returns (out: string)
    ensures out == before + PrintedLine(line)
  {
    out := before + "#";
    if line != [] { out := out + (" " + line); }
    out := out + "\n";
  }

  /** kconfig_print_comment: the line up to the next newline, with a hash before it, until the text ends. */
  method PrintComment(text: string) returns (out: string)
    ensures out == CommentText(text)
  {
    out := "";
    var p := text;
    while true
      invariant CommentText(text) == out + CommentText(p)
      decreases |p|
    {
      PrintStep(CommentText(text), out, p);
      out := PrintHashed(out, First(p));
      if !More(p) { break; }
      p := Rest(p);
    }
  }
}
