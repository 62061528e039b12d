/** One line of a configuration file, written and read back. */
module ConfLine {
  import opened ConfEscape
  import opened KconfigExpr

  /** What a symbol is set to. */
  datatype Setting = State(t: Tri) | Text(s: string)

  /** The setting belongs to a symbol of this type. */
  predicate Typed(ty: SymType, v: Setting) {
    if ty.Boolean? || ty.Tristate? then v.State? else !ty.Unknown? && v.Text? && NUL !in v.s
  }

  // ----- values -----

  predicate Digit(c: char) { '0' <= c <= '9' }

  predicate HexDigit(c: char) { Digit(c) || 'a' <= c <= 'f' || 'A' <= c <= 'F' }

  /** The character at a position of a C string. */
  function At(s: string, i: nat): char { if i < |s| then s[i] else NUL }

  function Unsigned(s: string): string { if At(s, 0) == '-' then s[1..] else s }

  function Unprefixed(s: string): string {
    if At(s, 0) == '0' && (At(s, 1) == 'x' || At(s, 1) == 'X') then s[2..] else s
  }

  /** The numerals of an int symbol: a sign may stand in front, but no superfluous 0. */
  predicate Decimal(s: string) {
    var t := Unsigned(s);
    t != [] && (forall i :: 0 <= i < |t| ==> Digit(t[i])) && (t[0] == '0' ==> |t| == 1)
  }

  /** The numerals of a hex symbol: 0x may stand in front. */
  predicate Hexadecimal(s: string) {
    var t := Unprefixed(s);
    t != [] && forall i :: 0 <= i < |t| ==> HexDigit(t[i])
  }

  /** sym_string_valid, for the types that have a text. */
  predicate ValidText(ty: SymType, s: string) {
    match ty
    case String => true
    case Int => Decimal(s)
    case Hex => Hexadecimal(s)
    case _ => false
  }

  /** The scan over an int or hex text, a character at a time. */
  method StringValid(ty: SymType, s: string) returns (ok: bool)
    requires ty.Int? || ty.Hex? || ty.String?
    requires NUL !in s
    ensures ok == ValidText(ty, s)
  {
    match ty
    case String =>
      ok := true;
    case Int =>
      var p := 0;
      var ch := At(s, p);
      p := p + 1;
      if ch == '-' {
        ch := At(s, p);
        p := p + 1;
      }
      ghost var t := Unsigned(s);
      ghost var sign := |s| - |t|;
      assert p == sign + 1 && ch == At(t, 0);
      assert forall i :: 0 <= i < |t| ==> t[i] == s[sign + i];
      if !Digit(ch) { return false; }
      if ch == '0' && At(s, p) != NUL { return false; }
      ok := DigitsFrom(s, p);
      if !ok {
        var k :| p <= k < |s| && !Digit(s[k]);
        assert t[k - sign] == s[k];
      }
    case Hex =>
      var p := 0;
      if At(s, 0) == '0' && (At(s, 1) == 'x' || At(s, 1) == 'X') { p := 2; }
      ghost var t := Unprefixed(s);
      if p == |s| { return false; }
      ok := HexDigitsFrom(s, p);
      if !ok {
        var k :| p <= k < |s| && !HexDigit(s[k]);
        assert t[k - p] == s[k];
      }
    case _ =>
  }

  method DigitsFrom(s: string, from: nat) returns (ok: bool)
    requires from <= |s|
    ensures ok <==> forall k :: from <= k < |s| ==> Digit(s[k])
  {
    var p := from;
    while p < |s|
      invariant from <= p <= |s| && forall k :: from <= k < p ==> Digit(s[k])
    {
      if !Digit(s[p]) { return false; }
      p := p + 1;
    }
    return true;
  }

  method HexDigitsFrom(s: string, from: nat) returns (ok: bool)
    requires from <= |s|
    ensures ok <==> forall k :: from <= k < |s| ==> HexDigit(s[k])
  {
    var p := from;
    while p < |s|
      invariant from <= p <= |s| && forall k :: from <= k < p ==> HexDigit(s[k])
    {
      if !HexDigit(s[p]) { return false; }
      p := p + 1;
    }
    return true;
  }

  /** What reading a value text gives: a setting, a complaint, or nothing. */
  datatype Outcome = Set(v: Setting) | Invalid | Nothing

  /** conf_set_sym_val, for the user's settings. */
  function ReadValue(ty: SymType, p: string): Outcome {
    match ty
    case Tristate =>
      if At(p, 0) == 'm' then Set(State(MOD))
      else if At(p, 0) == 'y' then Set(State(YES))
      else if At(p, 0) == 'n' then Set(State(NO))
      else Invalid
    case Boolean =>
      if At(p, 0) == 'y' then Set(State(YES)) else if At(p, 0) == 'n' then Set(State(NO)) else Invalid
    case String =>
      if At(p, 0) != '"' then Nothing
      else
        var q := Unescape(p[1..]);
        if q.Cut? then Invalid else Set(Text(q.text))
    case Int => if Decimal(p) then Set(Text(p)) else Invalid
    case Hex => if Hexadecimal(p) then Set(Text(p)) else Invalid
    case Unknown => Nothing
  }

  // ----- writing -----

  const CONFIG := "CONFIG_"
  const UNSET := "is not set"

  function Shown(ty: SymType, v: Setting): string
    requires Typed(ty, v)
  {
    if v.State? then TriText(v.t) else if ty.String? then Quoted(v.s) else v.s
  }

  /** conf_write_symbol with kconfig_print_symbol. */
  function PrintLine(ty: SymType, name: string, v: Setting): string
    requires Typed(ty, v)
  {
    if v.State? && v.t == NO then "# " + CONFIG + name + (" " + UNSET + "\n")
    else CONFIG + name + ("=" + Shown(ty, v) + "\n")
  }

  // ----- reading -----

  /** strchr: the position of the first `c`, or the length. */
  function Find(s: string, c: char): (i: nat)
    ensures i <= |s| && (i < |s| ==> s[i] == c) && (forall k :: 0 <= k < i ==> s[k] != c)
  {
    if s == [] || s[0] == c then 0 else 1 + Find(s[1..], c)
  }

  /** What a line says. */
  datatype Said = Skipped | Stray | NoSymbol(name: string) | Bad(name: string) | Given(name: string, v: Setting)

  /** The value text of a line: up to the newline, without a carriage return in front of it. */
  function ValueText(p: string): string {
    var j := Find(p, '\n');
    if 0 < j < |p| && p[j - 1] == '\r' then p[..j - 1] else p[..j]
  }

  /** One turn of the loop of conf_read_simple. */
  function ReadLine(types: map<string, SymType>, line: string): Said {
    if At(line, 0) == '#' then
      if |line| < 2 || !(CONFIG <= line[2..]) then Skipped
      else
        var rest := line[2..][|CONFIG|..];
        var i := Find(rest, ' ');
        if i == |rest| || !(UNSET <= rest[i + 1..]) then Skipped
        else if rest[..i] !in types then NoSymbol(rest[..i])
        else if types[rest[..i]].Boolean? || types[rest[..i]].Tristate? then Given(rest[..i], State(NO))
        else Skipped
    else if CONFIG <= line then
      var rest := line[|CONFIG|..];
      var i := Find(rest, '=');
      if i == |rest| then Skipped
      else if rest[..i] !in types then NoSymbol(rest[..i])
      else SaidOf(rest[..i], ReadValue(types[rest[..i]], ValueText(rest[i + 1..])))
    else if At(line, 0) != '\r' && At(line, 0) != '\n' then Stray
    else Skipped
  }

  function SaidOf(name: string, o: Outcome): Said {
    match o
    case Set(v) => Given(name, v)
    case Invalid => Bad(name)
    case Nothing => Skipped
  }

  // ----- the round trip -----

  /** A name that the scanner of the lines can find again. */
  predicate Name(name: string) { ' ' !in name && '=' !in name && '\n' !in name }

  /** The settings that survive: a bool symbol is never m, a numeral is a numeral, a string is one line. */
  predicate Readable(ty: SymType, v: Setting) {
    match v
    case State(t) => ty.Tristate? || t != MOD
    case Text(s) => if ty.String? then '\n' !in s else ValidText(ty, s)
  }

  lemma {:induction false} FindIn(a: string, c: char, b: string)
    requires c !in a
    ensures Find(a + [c] + b, c) == |a|
    ensures (a + [c] + b)[..|a|] == a && (a + [c] + b)[|a| + 1..] == b
  {
    var s := a + [c] + b;
    assert s[|a|] == c;
    assert forall k :: 0 <= k < |a| ==> s[k] == a[k];
  }

  /** A line `CONFIG_name=value` is taken apart into its name and its value. */
  lemma AssignedLine(types: map<string, SymType>, name: string, p: string)
    requires Name(name) && name in types
    ensures ReadLine(types, CONFIG + name + ("=" + p)) == SaidOf(name, ReadValue(types[name], ValueText(p)))
  {
    var line := CONFIG + name + ("=" + p);
    assert line[0] == 'C' && CONFIG <= line;
    assert line[|CONFIG|..] == name + ['='] + p;
    FindIn(name, '=', p);
  }

  lemma UnsetLine(types: map<string, SymType>, name: string)
    requires Name(name) && name in types
    ensures ReadLine(types, "# " + CONFIG + name + (" " + UNSET + "\n"))
      == if types[name].Boolean? || types[name].Tristate? then Given(name, State(NO)) else Skipped
  {
    var line := "# " + CONFIG + name + (" " + UNSET + "\n");
    assert line[2..][|CONFIG|..] == name + [' '] + (UNSET + "\n");
    assert CONFIG <= line[2..];
    FindIn(name, ' ', UNSET + "\n");
  }

  lemma ShownText(s: string)
    requires '\n' !in s && (s != [] ==> s[|s| - 1] != '\r')
    ensures ValueText(s + "\n") == s
  {
    FindIn(s, '\n', []);
    assert s + ['\n'] + [] == s + "\n";
  }

  lemma {:induction false} EscapeNewline(s: string)
    ensures '\n' in Escape(s) <==> '\n' in s
  {
    if s != [] {
      EscapeNewline(s[1..]);
      assert s == [s[0]] + s[1..];
    }
  }

  lemma StringReads(s: string)
    ensures '\n' !in s ==> ReadValue(String, ValueText(Quoted(s) + "\n")) == Set(Text(s))
    ensures '\n' in s ==> ReadValue(String, ValueText(Quoted(s) + "\n")) == Invalid
  {
    EscapeNewline(s);
    var q := Quoted(s);
    if '\n' !in s {
      ShownText(q);
      UnescapeEscape(s, []);
      assert q[1..] == Escape(s) + ("\"" + []);
    } else {
      QuotedCut(s);
    }
  }

  /** A newline in a string cuts its line inside the quotes. */
  lemma QuotedCut(s: string)
    requires '\n' in Escape(s)
    ensures ReadValue(String, ValueText(Quoted(s) + "\n")) == Invalid
  {
    var p, e := Quoted(s) + "\n", Escape(s);
    var i :| 0 <= i < |e| && e[i] == '\n';
    assert p[1 + i] == '\n' && p[0] == '"';
    var v := ValueText(p);
    ValueTextPrefix(p);
    assert 1 <= |v| <= 1 + i;
    UnescapeCut(s, |v| - 1);
    CutPrefix(e, v, p);
  }

  lemma ValueTextPrefix(p: string)
    ensures var v := ValueText(p); v <= p && |v| <= Find(p, '\n') && (p != [] && p[0] == '"' ==> |v| > 0)
  {
  }

  lemma CutPrefix(e: string, v: string, p: string)
    requires p == "\"" + e + "\"" + "\n" && v <= p && 1 <= |v| <= 1 + |e|
    ensures v[0] == '"' && v[1..] == e[..|v| - 1]
  {
  }

  lemma NumeralReads(ty: SymType, s: string)
    requires ty.Int? || ty.Hex?
    ensures ValidText(ty, s) ==> ReadValue(ty, ValueText(s + "\n")) == Set(Text(s))
    ensures !ValidText(ty, s) ==> ReadValue(ty, ValueText(s + "\n")) != Set(Text(s))
  {
    if ValidText(ty, s) {
      NumeralClean(ty, s);
      ShownText(s);
    }
  }

  lemma NumeralClean(ty: SymType, s: string)
    requires ValidText(ty, s) && (ty.Int? || ty.Hex?)
    ensures s != [] && '\n' !in s && '\r' !in s
  {
    if ty.Int? { DecimalClean(s); } else { HexadecimalClean(s); }
  }

  lemma DecimalClean(s: string)
    requires Decimal(s)
    ensures s != [] && '\n' !in s && '\r' !in s
  {
    var t := Unsigned(s);
    forall i | 0 <= i < |s| ensures s[i] == '-' || Digit(s[i]) {
      if |s| - |t| <= i { assert s[i] == t[i - (|s| - |t|)]; }
    }
  }

  lemma HexadecimalClean(s: string)
    requires Hexadecimal(s)
    ensures s != [] && '\n' !in s && '\r' !in s
  {
    var t := Unprefixed(s);
    forall i | 0 <= i < |s| ensures s[i] == 'x' || s[i] == 'X' || HexDigit(s[i]) {
      if |s| - |t| <= i { assert s[i] == t[i - (|s| - |t|)]; }
    }
  }

  /** A printed line reads back to the same symbol and setting, exactly if the setting is readable. */
  lemma LineRoundTrip(types: map<string, SymType>, name: string, v: Setting)
    requires Name(name) && name in types && Typed(types[name], v)
    ensures ReadLine(types, PrintLine(types[name], name, v)) == Given(name, v) <==> Readable(types[name], v)
  {
    var ty := types[name];
    if v.State? && v.t == NO {
      UnsetLine(types, name);
    } else {
      var p := Shown(ty, v) + "\n";
      assert CONFIG + name + ("=" + Shown(ty, v) + "\n") == CONFIG + name + ("=" + p);
      AssignedLine(types, name, p);
      match v {
        case State(t) =>
          ShownText(TriText(t));
        case Text(s) =>
          if ty.String? { StringReads(s); } else { NumeralReads(ty, s); }
      }
    }
  }
}
