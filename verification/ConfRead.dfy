/** Reading a configuration file: the loop over its lines, and the settings that it leaves. */
module ConfRead {
  import opened ConfEscape
  import opened KconfigExpr
  import opened ConfLine

  /** The text of a C string: everything before the first NUL. */
  function CString(s: string): string { s[..Find(s, NUL)] }

  /** How much compat_getline takes: up to and with the newline. */
  function LineSize(text: string): (n: nat)
    ensures n <= |text| && (text != [] ==> n > 0)
  {
    var i := Find(text, '\n');
    if i < |text| then i + 1 else i
  }

  /** The settings after a line. */
  function Record(values: map<string, Setting>, said: Said): map<string, Setting> {
    if said.Given? then values[said.name := said.v] else values
  }

  /** The settings after a number of lines: later lines overrule earlier ones. */
  function RecordAll(saids: seq<Said>, values: map<string, Setting>): map<string, Setting> {
    if saids == [] then values else Record(RecordAll(saids[..|saids| - 1], values), saids[|saids| - 1])
  }

  /** What the lines of a file say. */
  function Saids(types: map<string, SymType>, text: string): seq<Said>
    decreases |text|
  {
    if text == [] then []
    else
      var n := LineSize(text);
      [ReadLine(types, CString(text[..n]))] + Saids(types, text[n..])
  }

  /** The settings after a file. */
  function ReadAll(types: map<string, SymType>, text: string, values: map<string, Setting>): map<string, Setting> {
    RecordAll(Saids(types, text), values)
  }

  // ----- choices -----

  /** A choice while its values are read: the largest of them, the last one that was y, and whether the choice
      still counts as set by the user. */
  datatype ChoiceState = ChoiceState(tri: Tri, pick: Option<string>, isSet: bool)

  const UNREAD := ChoiceState(NO, None, true)

  /** Which choice a symbol belongs to, if it belongs to one. */
  type ChoiceOf = map<string, nat>

  /** A line sets a value of this choice. */
  predicate OfChoice(said: Said, choiceOf: ChoiceOf, id: nat) {
    said.Given? && said.v.State? && said.name in choiceOf && choiceOf[said.name] == id
  }

  /** A choice after one of its values is read as `t`. */
  function Turned(cs: ChoiceState, name: string, t: Tri): ChoiceState {
    ChoiceState(TriOr(cs.tri, t), if t == YES then Some(name) else cs.pick, cs.isSet && !(t == MOD && cs.tri == YES))
  }

  function ChoiceStep(cs: ChoiceState, said: Said, choiceOf: ChoiceOf, id: nat): ChoiceState {
    if OfChoice(said, choiceOf, id) then Turned(cs, said.name, said.v.t) else cs
  }

  function ChoiceAfter(saids: seq<Said>, choiceOf: ChoiceOf, id: nat): ChoiceState {
    if saids == [] then UNREAD
    else ChoiceStep(ChoiceAfter(saids[..|saids| - 1], choiceOf, id), saids[|saids| - 1], choiceOf, id)
  }

  function Unread(ids: set<nat>): map<nat, ChoiceState> { map id | id in ids :: UNREAD }

  /** All the choices after a line, and after a number of lines. */
  function ChoicesStep(choices: map<nat, ChoiceState>, said: Said, choiceOf: ChoiceOf): map<nat, ChoiceState> {
    map id | id in choices :: ChoiceStep(choices[id], said, choiceOf, id)
  }

  function ChoicesAfter(ids: set<nat>, saids: seq<Said>, choiceOf: ChoiceOf): map<nat, ChoiceState> {
    map id | id in ids :: ChoiceAfter(saids, choiceOf, id)
  }

  /** Line number `i` sets a value of the choice to `t`. */
  predicate SetsTo(saids: seq<Said>, choiceOf: ChoiceOf, id: nat, i: int, t: Tri) {
    0 <= i < |saids| && OfChoice(saids[i], choiceOf, id) && saids[i].v.t == t
  }

  lemma SetsToBefore(saids: seq<Said>, choiceOf: ChoiceOf, id: nat)
    requires saids != []
    ensures forall i, t: Tri :: i < |saids| - 1 ==>
      (SetsTo(saids[..|saids| - 1], choiceOf, id, i, t) <==> SetsTo(saids, choiceOf, id, i, t))
  {
  }

  /** The value of the choice is the largest that any line gives. */
  lemma {:induction false} ChoiceLargest(saids: seq<Said>, choiceOf: ChoiceOf, id: nat)
    ensures var cs := ChoiceAfter(saids, choiceOf, id);
      && (forall i, t: Tri :: SetsTo(saids, choiceOf, id, i, t) ==> t <= cs.tri)
      && (cs.tri != NO ==> exists i :: SetsTo(saids, choiceOf, id, i, cs.tri))
  {
    if saids != [] {
      var last := |saids| - 1;
      ChoiceLargest(saids[..last], choiceOf, id);
      SetsToBefore(saids, choiceOf, id);
      var before, cs := ChoiceAfter(saids[..last], choiceOf, id), ChoiceAfter(saids, choiceOf, id);
      if cs.tri != NO {
        if cs.tri == before.tri {
          var i :| SetsTo(saids[..last], choiceOf, id, i, before.tri);
          assert SetsTo(saids, choiceOf, id, i, cs.tri);
        } else {
          assert SetsTo(saids, choiceOf, id, last, cs.tri);
        }
      }
    }
  }

  /** The last line that gives y, and no later one does. */
  ghost predicate LastYes(saids: seq<Said>, choiceOf: ChoiceOf, id: nat, i: int) {
    SetsTo(saids, choiceOf, id, i, YES) && forall j :: i < j ==> !SetsTo(saids, choiceOf, id, j, YES)
  }

  /** The value picked is the one that the last y names, and there is none without a y. */
  lemma {:induction false} ChoicePicks(saids: seq<Said>, choiceOf: ChoiceOf, id: nat)
    ensures var cs := ChoiceAfter(saids, choiceOf, id);
      && (cs.pick.None? <==> forall i :: !SetsTo(saids, choiceOf, id, i, YES))
      && (cs.pick.Some? ==> exists i :: LastYes(saids, choiceOf, id, i) && saids[i].name == cs.pick.value)
  {
    if saids != [] {
      var last := |saids| - 1;
      ChoicePicks(saids[..last], choiceOf, id);
      SetsToBefore(saids, choiceOf, id);
      var before, cs := ChoiceAfter(saids[..last], choiceOf, id), ChoiceAfter(saids, choiceOf, id);
      if SetsTo(saids, choiceOf, id, last, YES) {
        assert LastYes(saids, choiceOf, id, last);
      } else {
        assert cs.pick == before.pick;
        if cs.pick.Some? {
          var i :| LastYes(saids[..last], choiceOf, id, i) && saids[..last][i].name == before.pick.value;
          assert LastYes(saids, choiceOf, id, i);
        }
      }
    }
  }

  /** The choice stops counting as set by the user exactly if some value is m after another was y. */
  lemma {:induction false} ChoiceUnset(saids: seq<Said>, choiceOf: ChoiceOf, id: nat)
    ensures !ChoiceAfter(saids, choiceOf, id).isSet
      <==> exists i, j :: i < j && SetsTo(saids, choiceOf, id, i, YES) && SetsTo(saids, choiceOf, id, j, MOD)
  {
    if saids != [] {
      var last := |saids| - 1;
      ChoiceUnset(saids[..last], choiceOf, id);
      ChoiceLargest(saids[..last], choiceOf, id);
      SetsToBefore(saids, choiceOf, id);
      if i, j :| i < j && SetsTo(saids[..last], choiceOf, id, i, YES) && SetsTo(saids[..last], choiceOf, id, j, MOD) {
        assert SetsTo(saids, choiceOf, id, i, YES) && SetsTo(saids, choiceOf, id, j, MOD);
      }
      if SetsTo(saids, choiceOf, id, last, MOD) && ChoiceAfter(saids[..last], choiceOf, id).tri == YES {
        var i :| SetsTo(saids[..last], choiceOf, id, i, YES);
        assert SetsTo(saids, choiceOf, id, i, YES);
      }
    }
  }

  // ----- the loop -----

  /** The lines `done` have been taken, and the rest of the file begins at `at`. */
  ghost predicate TakenSoFar(types: map<string, SymType>, text: string, at: nat, done: seq<Said>) {
    at <= |text| && Saids(types, text) == done + Saids(types, text[at..])
  }

  lemma ReadStart(types: map<string, SymType>, text: string)
    ensures TakenSoFar(types, text, 0, [])
  {
    assert text[0..] == text;
    assert [] + Saids(types, text) == Saids(types, text);
  }

  /** Where the line after the one at `at` begins. */
  function NextLine(text: string, at: nat): (next: nat)
    requires at < |text|
    ensures at < next <= |text|
  {
    at + LineSize(text[at..])
  }

  /** What the line at `at` says. */
  function SaidAt(types: map<string, SymType>, text: string, at: nat): Said
    requires at < |text|
  {
    ReadLine(types, CString(text[at..NextLine(text, at)]))
  }

  /** One turn of the loop over the lines. */
  lemma ReadTurn(types: map<string, SymType>, text: string, at: nat, done: seq<Said>)
    requires TakenSoFar(types, text, at, done) && at < |text|
    ensures TakenSoFar(types, text, NextLine(text, at), done + [SaidAt(types, text, at)])
  {
    SaidsFrom(types, text, at);
    Regroup(done, SaidAt(types, text, at), Saids(types, text[NextLine(text, at)..]));
  }

  lemma SaidsFrom(types: map<string, SymType>, text: string, at: nat)
    requires at < |text|
    ensures Saids(types, text[at..]) == [SaidAt(types, text, at)] + Saids(types, text[NextLine(text, at)..])
  {
    SaidsHead(types, text[at..], text[at..NextLine(text, at)], text[NextLine(text, at)..]);
  }

  lemma SaidsHead(types: map<string, SymType>, text: string, line: string, rest: string)
    requires text == line + rest && |line| == LineSize(text) > 0
    ensures Saids(types, text) == [ReadLine(types, CString(line))] + Saids(types, rest)
  {
    assert text[..|line|] == line && text[|line|..] == rest;
  }

  lemma Regroup(done: seq<Said>, x: Said, rest: seq<Said>)
    ensures done + ([x] + rest) == (done + [x]) + rest
  {
  }

  lemma ReadEnd(types: map<string, SymType>, text: string, done: seq<Said>)
    requires TakenSoFar(types, text, |text|, done)
    ensures done == Saids(types, text)
  {
    assert done + [] == done;
  }

  lemma RecordSnoc(done: seq<Said>, x: Said, values: map<string, Setting>)
    ensures RecordAll(done + [x], values) == Record(RecordAll(done, values), x)
  {
    assert (done + [x])[..|done|] == done;
  }

  lemma ChoicesStart(ids: set<nat>, choiceOf: ChoiceOf)
    ensures Unread(ids) == ChoicesAfter(ids, [], choiceOf)
  {
  }

  lemma ChoicesSnoc(ids: set<nat>, done: seq<Said>, x: Said, choiceOf: ChoiceOf)
    ensures ChoicesAfter(ids, done + [x], choiceOf) == ChoicesStep(ChoicesAfter(ids, done, choiceOf), x, choiceOf)
  {
    assert (done + [x])[..|done|] == done;
  }

  lemma CStringClean(s: string)
    ensures NUL !in CString(s)
  {
  }

  class Reader {
    const types: map<string, SymType>
    const choiceOf: ChoiceOf
    const choiceIds: set<nat>
    /** The symbols that have a setting of the user, with it. */
    var values: map<string, Setting>
    var choices: map<nat, ChoiceState>

    constructor (types: map<string, SymType>, choiceOf: ChoiceOf, choiceIds: set<nat>)
      requires forall name :: name in choiceOf ==> choiceOf[name] in choiceIds
      ensures this.types == types && this.choiceOf == choiceOf && this.choiceIds == choiceIds && Valid()
    {
      this.types, this.choiceOf, this.choiceIds := types, choiceOf, choiceIds;
      values, choices := map[], Unread(choiceIds);
    }

    predicate Valid()
      reads this
    {
      choices.Keys == choiceIds && forall name :: name in choiceOf ==> choiceOf[name] in choiceIds
    }

    /** conf_set_sym_val: the value text stands in a buffer, where a string loses its backslashes. */
    method SetSymVal(name: string, b: array<char>, ghost s: string) returns (isSet: bool)
      requires name in types && Buffered(b, 0, s)
      modifies this`values, b
      ensures values == Record(old(values), SaidOf(name, ReadValue(types[name], s)))
      ensures isSet <==> ReadValue(types[name], s).Set?
    {
      FirstChar(b, s);
      isSet := true;
      match types[name]
      case Tristate =>
        if b[0] == 'm' { values := values[name := State(MOD)]; } else { isSet := SetBool(name, b[0]); }
      case Boolean =>
        isSet := SetBool(name, b[0]);
      case String =>
        if b[0] != '"' { return false; }
        isSet := UnescapeTail(b, s);
        if isSet {
          var t := StrDup(b, 1, Unescape(s[1..]).text);
          values := values[name := Text(t)];
        }
      case Int =>
        isSet := SetNumeral(name, b, s);
      case Hex =>
        isSet := SetNumeral(name, b, s);
      case Unknown =>
        isSet := false;
    }

    /** y or n. */
    method SetBool(name: string, c: char) returns (isSet: bool)
      modifies this`values
      ensures values == if c == 'y' then old(values)[name := State(YES)]
                        else if c == 'n' then old(values)[name := State(NO)] else old(values)
      ensures isSet <==> c == 'y' || c == 'n'
    {
      isSet := true;
      if c == 'y' { values := values[name := State(YES)]; }
      else if c == 'n' { values := values[name := State(NO)]; }
      else { isSet := false; }
    }

    method SetNumeral(name: string, b: array<char>, ghost s: string) returns (isSet: bool)
      requires name in types && (types[name].Int? || types[name].Hex?) && Buffered(b, 0, s)
      modifies this`values
      ensures values == Record(old(values), SaidOf(name, ReadValue(types[name], s)))
      ensures isSet <==> ReadValue(types[name], s).Set?
    {
      HeldClean(b, 0, s);
      var t := StrDup(b, 0, s);
      isSet := StringValid(types[name], t);
      if isSet { values := values[name := Text(t)]; }
    }

    /** The first half of a turn of the loop: the symbol that the line set, if it set one. */
    method SetByLine(line: string) returns (sym: Option<string>)
      requires NUL !in line
      modifies this`values
      ensures var said := ReadLine(types, line);
        values == Record(old(values), said) && sym == if said.Given? then Some(said.name) else None
    {
      sym := None;
      if At(line, 0) == '#' {
        if |line| < 2 || !(CONFIG <= line[2..]) { return; }
        var rest := line[2..][|CONFIG|..];
        var i := Find(rest, ' ');
        if i == |rest| { return; }
        if !(UNSET <= rest[i + 1..]) { return; }
        var name := rest[..i];
        if name !in types { return; }
        if types[name].Boolean? || types[name].Tristate? {
          values := values[name := State(NO)];
          sym := Some(name);
        }
      } else if CONFIG <= line {
        var rest := line[|CONFIG|..];
        var i := Find(rest, '=');
        if i == |rest| { return; }
        sym := SetAssigned(rest[..i], rest[i + 1..]);
      }
    }

    method SetAssigned(name: string, p: string) returns (sym: Option<string>)
      requires NUL !in p
      modifies this`values
      ensures var said :=
          if name !in types then NoSymbol(name) else SaidOf(name, ReadValue(types[name], ValueText(p)));
        values == Record(old(values), said) && sym == if said.Given? then Some(said.name) else None
    {
      if name !in types { return None; }
      var b := CopyText(ValueText(p));
      var isSet := SetSymVal(name, b, ValueText(p));
      sym := if isSet then Some(name) else None;
    }

    /** The second half: a symbol of a choice turns the state of the choice. */
    method TurnChoice(name: string)
      requires Valid() && name in values
      modifies this`choices
      ensures Valid()
      ensures choices == ChoicesStep(old(choices), Given(name, values[name]), choiceOf)
    {
      if name !in choiceOf || !values[name].State? { return; }
      var cs, t := choices[choiceOf[name]], values[name].t;
      if t == MOD && cs.tri == YES { cs := cs.(isSet := false); }
      if t == YES { cs := cs.(pick := Some(name)); }
      cs := cs.(tri := TriOr(cs.tri, t));
      choices := choices[choiceOf[name] := cs];
    }

    /** A line and what follows from it. */
    method TakeLine(line: string)
      requires Valid() && NUL !in line
      modifies this
      ensures Valid() && values == Record(old(values), ReadLine(types, line))
      ensures choices == ChoicesStep(old(choices), ReadLine(types, line), choiceOf)
    {
      var sym := SetByLine(line);
      if sym.Some? { TurnChoice(sym.value); }
    }

    /** One turn of the loop over the lines. */
    method TakeNext(text: string, at: nat) returns (next: nat)
      requires Valid() && at < |text|
      modifies this
      ensures Valid() && next == NextLine(text, at)
      ensures values == Record(old(values), SaidAt(types, text, at))
      ensures choices == ChoicesStep(old(choices), SaidAt(types, text, at), choiceOf)
    {
      var n := GetLine(text, at);
      next := at + n;
      CStringClean(text[at..next]);
      TakeLine(CString(text[at..next]));
    }

    /** conf_read_simple: the old settings go, and the lines of the file are taken one after the other. */
    method ReadFile(text: string)
      requires Valid()
      modifies this
      ensures Valid() && values == ReadAll(types, text, map[])
      ensures choices == ChoicesAfter(choiceIds, Saids(types, text), choiceOf)
    {
      values, choices := map[], Unread(choiceIds);
      var at := 0;
      ghost var done: seq<Said> := [];
      ReadStart(types, text);
      ChoicesStart(choiceIds, choiceOf);
      while at < |text|
        invariant Valid() && at <= |text| && TakenSoFar(types, text, at, done)
        invariant values == RecordAll(done, map[])
        invariant choices == ChoicesAfter(choiceIds, done, choiceOf)
      {
        ghost var said := SaidAt(types, text, at);
        ReadTurn(types, text, at, done);
        RecordSnoc(done, said, map[]);
        ChoicesSnoc(choiceIds, done, said, choiceOf);
        at := TakeNext(text, at);
        done := done + [said];
      }
      ReadEnd(types, text, done);
    }
  }

  /** compat_getline: a character at a time, up to a newline or the end. */
  method GetLine(text: string, at: nat) returns (n: nat)
    requires at < |text|
    ensures n == LineSize(text[at..])
  {
    n := 0;
    ghost var rest := text[at..];
    while at + n < |text|
      invariant at + n <= |text| && forall k :: 0 <= k < n ==> rest[k] != '\n'
    {
      n := n + 1;
      if text[at + n - 1] == '\n' {
        assert rest[n - 1] == '\n';
        return;
      }
      assert rest[n - 1] != '\n';
    }
  }

  lemma FirstChar(b: array<char>, s: string)
    requires Buffered(b, 0, s)
    ensures b[0] == At(s, 0)
  {
    if s != [] { assert b[0 + 0] == s[0]; }
  }

  lemma HeldClean(b: array<char>, p: nat, s: string)
    requires Buffered(b, p, s)
    ensures NUL !in s
  {
  }

  method UnescapeTail(b: array<char>, ghost s: string) returns (found: bool)
    requires Buffered(b, 0, s) && s != []
    modifies b
    ensures found <==> Unescape(s[1..]).Whole?
    ensures found ==> Buffered(b, 1, Unescape(s[1..]).text)
  {
    assert forall i :: 0 <= i < |s[1..]| ==> b[0 + (i + 1)] == s[i + 1] == s[1..][i];
    found := UnescapeInPlace(b, 1, s[1..]);
  }

  method StrDup(b: array<char>, p: nat, ghost s: string) returns (t: string)
    requires Buffered(b, p, s)
    ensures t == s
  {
    t := [];
    var k := 0;
    while b[p + k] != NUL
      invariant k <= |s| && t == s[..k] && (k < |s| ==> s[k] == b[p + k] != NUL)
      decreases |s| - k
    {
      t := t + [b[p + k]];
      k := k + 1;
    }
  }

  method CopyText(s: string) returns (b: array<char>)
    requires NUL !in s
    ensures fresh(b) && Buffered(b, 0, s)
  {
    b := new char[|s| + 1](i requires 0 <= i => if i < |s| then s[i] else NUL);
  }

  // ----- whole files -----

  /** What is written to a configuration file. */
  datatype Row = Symbol(name: string, v: Setting) | Comment(text: string) | Hash | Empty

  /** A row that can be written, and that does not pass for something else. */
  predicate Fine(types: map<string, SymType>, row: Row) {
    match row
    case Symbol(name, v) =>
      Name(name) && NUL !in name && name in types && Typed(types[name], v) && Readable(types[name], v)
    case Comment(text) => '\n' !in text && NUL !in text && !(CONFIG <= text)
    case Hash => true
    case Empty => true
  }

  function Render(types: map<string, SymType>, row: Row): string
    requires Fine(types, row)
  {
    match row
    case Symbol(name, v) => PrintLine(types[name], name, v)
    case Comment(text) => "# " + text + "\n"
    case Hash => "#\n"
    case Empty => "\n"
  }

  predicate AllFine(types: map<string, SymType>, rows: seq<Row>) {
    forall i :: 0 <= i < |rows| ==> Fine(types, rows[i])
  }

  function FileText(types: map<string, SymType>, rows: seq<Row>): string
    requires AllFine(types, rows)
  {
    if rows == [] then [] else Render(types, rows[0]) + FileText(types, rows[1..])
  }

  /** What the rows say when they are read. */
  function RowSaids(rows: seq<Row>): seq<Said> {
    if rows == [] then []
    else [if rows[0].Symbol? then Given(rows[0].name, rows[0].v) else Skipped] + RowSaids(rows[1..])
  }

  /** The settings that the rows stand for. */
  function Settings(rows: seq<Row>, values: map<string, Setting>): map<string, Setting> {
    RecordAll(RowSaids(rows), values)
  }

  /** A row is one line: its newline is its last character. */
  predicate OneLine(s: string) {
    s != [] && s[|s| - 1] == '\n' && '\n' !in s[..|s| - 1] && NUL !in s
  }

  lemma OneLineOf(s: string)
    requires '\n' !in s && NUL !in s
    ensures OneLine(s + "\n")
  {
    assert (s + "\n")[..|s|] == s;
  }

  lemma RowIsLine(types: map<string, SymType>, row: Row)
    requires Fine(types, row)
    ensures OneLine(Render(types, row))
  {
    match row
    case Symbol(name, v) =>
      SymbolIsLine(types[name], name, v);
    case Comment(text) =>
      OneLineOf("# " + text);
      assert "# " + text + "\n" == ("# " + text) + "\n";
    case Hash => OneLineOf("#");
    case Empty => OneLineOf([]);
  }

  lemma SymbolIsLine(ty: SymType, name: string, v: Setting)
    requires Name(name) && NUL !in name && Typed(ty, v) && Readable(ty, v)
    ensures OneLine(PrintLine(ty, name, v))
  {
    if v.State? && v.t == NO {
      UnsetIsLine(name);
    } else {
      ShownIsLine(ty, v);
      AssignedIsLine(name, Shown(ty, v));
    }
  }

  lemma UnsetIsLine(name: string)
    requires '\n' !in name && NUL !in name
    ensures OneLine("# " + CONFIG + name + (" " + UNSET + "\n"))
  {
    var line := "# " + CONFIG + name + " " + UNSET;
    OneLineOf(line);
    assert "# " + CONFIG + name + (" " + UNSET + "\n") == line + "\n";
  }

  lemma AssignedIsLine(name: string, shown: string)
    requires '\n' !in name && NUL !in name && '\n' !in shown && NUL !in shown
    ensures OneLine(CONFIG + name + ("=" + shown + "\n"))
  {
    var line := CONFIG + name + "=" + shown;
    OneLineOf(line);
    assert CONFIG + name + ("=" + shown + "\n") == line + "\n";
  }

  lemma ShownIsLine(ty: SymType, v: Setting)
    requires Typed(ty, v) && Readable(ty, v)
    ensures '\n' !in Shown(ty, v) && NUL !in Shown(ty, v)
  {
    if v.Text? {
      if ty.String? {
        EscapeNewline(v.s);
        EscapeClean(v.s);
      } else {
        NumeralClean(ty, v.s);
      }
    }
  }

  lemma PrefixOfLine(c: string, text: string)
    requires '\n' !in c && c <= text + "\n"
    ensures c <= text
  {
    var line := text + "\n";
    assert forall i :: 0 <= i < |c| ==> line[i] == c[i] != '\n';
    assert line[|text|] == '\n';
    assert c == line[..|c|] == text[..|c|];
  }

  lemma RowReads(types: map<string, SymType>, row: Row)
    requires Fine(types, row)
    ensures [ReadLine(types, Render(types, row))] == RowSaids([row])
  {
    match row
    case Symbol(name, v) => LineRoundTrip(types, name, v);
    case Comment(text) =>
      var line := "# " + text + "\n";
      assert line[2..] == text + "\n";
      if CONFIG <= text + "\n" { PrefixOfLine(CONFIG, text); }
    case Hash =>
    case Empty =>
  }

  lemma FirstLine(types: map<string, SymType>, line: string, rest: string)
    requires OneLine(line)
    ensures Saids(types, line + rest) == [ReadLine(types, line)] + Saids(types, rest)
  {
    var text, body := line + rest, line[..|line| - 1];
    assert text == body + ['\n'] + rest;
    FindIn(body, '\n', rest);
    assert LineSize(text) == |line| && text[..|line|] == line && text[|line|..] == rest;
    assert CString(line) == line;
  }

  /** Reading a written file gives back what its rows say. */
  lemma {:induction false} FileRoundTrip(types: map<string, SymType>, rows: seq<Row>)
    requires AllFine(types, rows)
    ensures Saids(types, FileText(types, rows)) == RowSaids(rows)
  {
    if rows != [] {
      RowIsLine(types, rows[0]);
      FirstLine(types, Render(types, rows[0]), FileText(types, rows[1..]));
      RowReads(types, rows[0]);
      FileRoundTrip(types, rows[1..]);
      assert [rows[0]] + rows[1..] == rows;
      RowSaidsAppend([rows[0]], rows[1..]);
    }
  }

  lemma {:induction false} RowSaidsAppend(a: seq<Row>, b: seq<Row>)
    ensures RowSaids(a + b) == RowSaids(a) + RowSaids(b)
  {
    if a == [] {
      assert a + b == b;
    } else {
      assert (a + b)[1..] == a[1..] + b && (a + b)[0] == a[0];
      RowSaidsAppend(a[1..], b);
    }
  }

  lemma {:induction false} RecordAppend(a: seq<Said>, b: seq<Said>, values: map<string, Setting>)
    ensures RecordAll(a + b, values) == RecordAll(b, RecordAll(a, values))
  {
    if b == [] {
      assert a + b == a;
    } else {
      assert (a + b)[..|a + b| - 1] == a + b[..|b| - 1];
      RecordAppend(a, b[..|b| - 1], values);
    }
  }

  lemma SettingsAppend(a: seq<Row>, b: seq<Row>, values: map<string, Setting>)
    ensures Settings(a + b, values) == Settings(b, Settings(a, values))
  {
    RowSaidsAppend(a, b);
    RecordAppend(RowSaids(a), RowSaids(b), values);
  }

  // ----- a saved choice -----

  /** Of the values of a choice, `pick` is written as y and the others as n; or all are n. */
  ghost predicate OneYes(saids: seq<Said>, choiceOf: ChoiceOf, id: nat, pick: Option<string>) {
    && (forall i, t: Tri :: SetsTo(saids, choiceOf, id, i, t) ==> t == if pick == Some(saids[i].name) then YES else NO)
    && (pick.Some? ==> exists i :: SetsTo(saids, choiceOf, id, i, YES))
  }

  /** A bool choice reads back as it was saved: on, with the same pick; or off. */
  lemma ChoiceRoundTrip(types: map<string, SymType>, rows: seq<Row>, choiceOf: ChoiceOf, id: nat, pick: Option<string>)
    requires AllFine(types, rows) && OneYes(RowSaids(rows), choiceOf, id, pick)
    ensures ChoiceAfter(Saids(types, FileText(types, rows)), choiceOf, id)
      == ChoiceState(if pick.Some? then YES else NO, pick, true)
  {
    FileRoundTrip(types, rows);
    SavedState(RowSaids(rows), choiceOf, id, pick);
  }

  lemma SavedState(saids: seq<Said>, choiceOf: ChoiceOf, id: nat, pick: Option<string>)
    requires OneYes(saids, choiceOf, id, pick)
    ensures ChoiceAfter(saids, choiceOf, id) == ChoiceState(if pick.Some? then YES else NO, pick, true)
  {
    ChoiceLargest(saids, choiceOf, id);
    ChoicePicks(saids, choiceOf, id);
    ChoiceUnset(saids, choiceOf, id);
  }
}
