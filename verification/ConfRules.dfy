/** Lines of a configuration file as texts: what is written, character by character, and how any line is read. */
module ConfRules {
  import opened KconfigExpr
  import opened ConfEscape
  import opened ConfLine
  import opened ConfRead

  // ----- numerals -----

  lemma DigitCodes(c: char)
    ensures Digit(c) <==> 48 <= c as int <= 57
    ensures HexDigit(c) <==> 48 <= c as int <= 57 || 65 <= c as int <= 70 || 97 <= c as int <= 102
  {
  }

  function DigitChar(d: nat): (c: char)
    requires d < 10
    ensures Digit(c)
  {
    (48 + d) as char
  }

  function DigitValue(c: char): (d: nat)
    requires Digit(c)
    ensures d < 10
  {
    c as int - 48
  }

  lemma DigitInverse(c: char)
    requires Digit(c)
    ensures DigitChar(DigitValue(c)) == c && (DigitValue(c) == 0 <==> c == '0')
  {
  }

  lemma DigitZero(d: nat)
    requires d < 10
    ensures DigitChar(d) == '0' <==> d == 0
  {
  }

  /** The usual notation of a number. */
  function NatText(n: nat): (s: string)
    ensures s != []
  {
    if n < 10 then [DigitChar(n)] else NatText(n / 10) + [DigitChar(n % 10)]
  }

  function IntText(v: int): string { if v < 0 then "-" + NatText(-v) else NatText(v) }

  lemma {:induction false} NatTextDigits(n: nat)
    ensures forall i :: 0 <= i < |NatText(n)| ==> Digit(NatText(n)[i])
    ensures NatText(n)[0] == '0' ==> n == 0 && |NatText(n)| == 1
  {
    if n >= 10 { NatTextDigits(n / 10); } else { DigitZero(n); }
  }

  predicate AllDigits(s: string) { forall i :: 0 <= i < |s| ==> Digit(s[i]) }

  function ValueOf(s: string): nat
    requires AllDigits(s)
  {
    if s == [] then 0 else 10 * ValueOf(s[..|s| - 1]) + DigitValue(s[|s| - 1])
  }

  lemma TenTimes(q: nat, d: nat)
    requires d < 10
    ensures (10 * q + d) / 10 == q && (10 * q + d) % 10 == d
  {
  }

  lemma NatTextStep(q: nat, d: nat)
    requires q > 0 && d < 10
    ensures NatText(10 * q + d) == NatText(q) + [DigitChar(d)]
  {
    TenTimes(q, d);
  }

  lemma {:induction false} DigitsAreText(s: string)
    requires s != [] && AllDigits(s) && (s[0] == '0' ==> |s| == 1)
    ensures s == NatText(ValueOf(s)) && (ValueOf(s) == 0 ==> s == "0")
  {
    var before, last := s[..|s| - 1], s[|s| - 1];
    DigitInverse(last);
    if before == [] {
      assert s == [last] && ValueOf(s) == DigitValue(last);
    } else {
      assert before[0] == s[0] && s == before + [last];
      DigitsAreText(before);
      NatTextStep(ValueOf(before), DigitValue(last));
    }
  }

  /** The texts that an int symbol may have are the usual notations of the integers, and -0. */
  lemma DecimalExactly(s: string)
    ensures Decimal(s) <==> s == "-0" || exists v :: s == IntText(v)
  {
    var t := Unsigned(s);
    if Decimal(s) {
      DigitsAreText(t);
      if s != t {
        assert s == "-" + t;
        var v: int := ValueOf(t);
        if v > 0 { assert s == IntText(-v); }
      } else {
        assert s == IntText(ValueOf(t));
      }
    }
    if v :| s == IntText(v) {
      NatTextDigits(if v < 0 then -v else v);
      if v < 0 { assert t == NatText(-v); } else { assert Digit(s[0]); }
    }
  }

  /** Those of a hex symbol are digits, with 0x or 0X before them or not. */
  lemma HexadecimalExactly(s: string)
    ensures Hexadecimal(s) <==>
      exists t :: AllHex(t) && (s == t || s == "0x" + t || s == "0X" + t)
  {
    if Hexadecimal(s) {
      var t := Unprefixed(s);
      assert AllHex(t);
      if s != t { assert s == [s[0], s[1]] + t; }
    }
    if t :| AllHex(t) && (s == t || s == "0x" + t || s == "0X" + t) {
      if s == t {
        if |t| > 1 { assert HexDigit(t[1]); }
      } else {
        assert s[2..] == t;
      }
    }
  }

  predicate AllHex(t: string) { t != [] && forall i :: 0 <= i < |t| ==> HexDigit(t[i]) }

  // ----- what is written -----

  /** The line of each kind of setting. */
  lemma StateRule(ty: SymType, name: string)
    requires ty == Boolean || ty == Tristate
    ensures PrintLine(ty, name, State(2)) == "CONFIG_" + name + "=y\n"
    ensures PrintLine(ty, name, State(1)) == "CONFIG_" + name + "=m\n"
    ensures PrintLine(ty, name, State(0)) == "# CONFIG_" + name + " is not set\n"
  {
    assert "# " + CONFIG == "# CONFIG_" && " " + UNSET + "\n" == " is not set\n";
    assert "=" + "y" + "\n" == "=y\n" && "=" + "m" + "\n" == "=m\n";
  }

  lemma NumeralRule(ty: SymType, name: string, s: string)
    requires (ty == Int || ty == Hex) && NUL !in s
    ensures PrintLine(ty, name, Setting.Text(s)) == "CONFIG_" + name + ("=" + s + "\n")
  {
  }

  lemma StringRule(name: string, s: string)
    requires NUL !in s
    ensures PrintLine(String, name, Setting.Text(s)) == "CONFIG_" + name + ("=" + ("\"" + Escape(s) + "\"") + "\n")
  {
  }

  /** Escaping is done character by character: quotes and backslashes get a backslash before them. */
  lemma {:induction false} EscapeRule(a: string, c: char, b: string)
    ensures Escape(a + ([c] + b))
      == Escape(a) + ((if c as int == 34 || c as int == 92 then ['\\', c] else [c]) + Escape(b))
    ensures Escape("") == ""
  {
    if a == [] {
      assert a + ([c] + b) == [c] + b && ([c] + b)[1..] == b;
    } else {
      assert (a + ([c] + b))[1..] == a[1..] + ([c] + b) && (a + ([c] + b))[0] == a[0];
      EscapeRule(a[1..], c, b);
    }
  }

  // ----- how any line is read -----

  /** An assignment: the name is up to the first =, the value is the rest of the line. */
  lemma AssignedRule(types: map<string, SymType>, name: string, rest: string)
    requires '=' !in name
    ensures ReadLine(types, "CONFIG_" + name + ("=" + rest))
      == if name !in types then NoSymbol(name) else SaidOf(name, ReadValue(types[name], ValueText(rest)))
  {
    var line := "CONFIG_" + name + ("=" + rest);
    var tail := name + ("=" + rest);
    assert line == CONFIG + tail && line[|CONFIG|..] == tail && CONFIG <= line;
    FindIn(name, '=', rest);
    assert tail == name + ['='] + rest;
    assert tail[..|name|] == name && tail[|name| + 1..] == rest;
    assert At(line, 0) == 'C';
  }

  lemma CommentTaken(name: string, words: string)
    requires ' ' !in name
    ensures var line := "# CONFIG_" + name + (" " + words);
      && |line| >= 2 && line[0] == '#' && CONFIG <= line[2..]
      && line[2..][|CONFIG|..] == name + [' '] + words
  {
    var line := "# CONFIG_" + name + (" " + words);
    assert line[2..] == CONFIG + (name + [' '] + words);
  }

  /** What a comment about a symbol says. */
  lemma CommentRule(types: map<string, SymType>, name: string, words: string)
    requires ' ' !in name
    ensures ReadLine(types, "# CONFIG_" + name + (" " + words))
      == if !(UNSET <= words) then Skipped
         else if name !in types then NoSymbol(name)
         else if types[name].Boolean? || types[name].Tristate? then Given(name, State(0)) else Skipped
  {
    CommentTaken(name, words);
    FindIn(name, ' ', words);
  }

  /** A comment that says a bool or tristate is not set; whatever follows. */
  lemma UnsetRule(types: map<string, SymType>, name: string, rest: string)
    requires ' ' !in name
    ensures ReadLine(types, "# CONFIG_" + name + (" " + ("is not set" + rest)))
      == if name !in types then NoSymbol(name)
         else if types[name].Boolean? || types[name].Tristate? then Given(name, State(0)) else Skipped
  {
    CommentRule(types, name, UNSET + rest);
  }

  /** Other comments, and lines that are empty, say nothing; anything else is complained about. */
  lemma OtherRule(types: map<string, SymType>, line: string)
    requires !(CONFIG <= line)
    ensures line != [] && line[0] == '#' && !("CONFIG_" <= line[if |line| < 2 then |line| else 2..]) ==>
      ReadLine(types, line) == Skipped
    ensures line != [] && (line[0] == '\n' || line[0] == '\r') ==> ReadLine(types, line) == Skipped
    ensures line == [] || line[0] !in {'#', '\n', '\r'} ==> ReadLine(types, line) == Stray
  {
  }

  /** An assignment without = is skipped, and so is a comment without the words. */
  lemma UnfinishedRule(types: map<string, SymType>, rest: string)
    ensures '=' !in rest ==> ReadLine(types, "CONFIG_" + rest) == Skipped
    ensures ' ' !in rest ==> ReadLine(types, "# CONFIG_" + rest) == Skipped
  {
    assert ("CONFIG_" + rest)[|CONFIG|..] == rest && CONFIG <= "CONFIG_" + rest;
    var line := "# CONFIG_" + rest;
    assert line[2..] == CONFIG + rest && line[2..][|CONFIG|..] == rest;
  }

  /** Nor does a comment that says something else about a symbol. */
  lemma OtherWordsRule(types: map<string, SymType>, name: string, words: string)
    requires ' ' !in name && !("is not set" <= words)
    ensures ReadLine(types, "# CONFIG_" + name + (" " + words)) == Skipped
  {
    CommentRule(types, name, words);
  }

  /** The value ends at the newline, or before a carriage return that stands there. */
  lemma ValueRule(v: string, more: string)
    requires '\n' !in v
    ensures v == [] || v[|v| - 1] != '\r' ==> ValueText(v + "\n" + more) == v
    ensures ValueText(v + "\r" + "\n" + more) == v
    ensures v == [] || v[|v| - 1] != '\r' ==> ValueText(v) == v
  {
    FindIn(v, '\n', more);
    assert v + "\n" + more == v + ['\n'] + more;
    assert (v + "\n" + more)[..|v|] == v;
    var w := v + "\r";
    FindIn(w, '\n', more);
    assert w + "\n" + more == w + ['\n'] + more;
    assert (w + "\n" + more)[..|w| - 1] == v && (w + "\n" + more)[|w| - 1] == '\r';
    assert v[..|v|] == v;
  }

  /** A bool or tristate goes by the first character of its value. */
  lemma TriRule(c: char, more: string)
    ensures ReadValue(Tristate, [c] + more)
      == if c == 'y' then Set(State(2)) else if c == 'm' then Set(State(1))
         else if c == 'n' then Set(State(0)) else Invalid
    ensures ReadValue(Boolean, [c] + more)
      == if c == 'y' then Set(State(2)) else if c == 'n' then Set(State(0)) else Invalid
    ensures ReadValue(Tristate, "") == Invalid && ReadValue(Boolean, "") == Invalid
  {
  }

  /** A numeral is taken as it stands; a text without an opening quote is passed over; and so is any value of a
      symbol without a type. */
  lemma TextRule(s: string)
    ensures ReadValue(Int, s) == if Decimal(s) then Set(Setting.Text(s)) else Invalid
    ensures ReadValue(Hex, s) == if Hexadecimal(s) then Set(Setting.Text(s)) else Invalid
    ensures s == [] || s[0] != '"' ==> ReadValue(String, s) == Nothing
    ensures ReadValue(Unknown, s) == Nothing
  {
  }

  // ----- lines of a file -----

  /** The file is taken line by line, the last one even without a newline; what follows a NUL in a line is not
      seen. */
  lemma LinesRule(types: map<string, SymType>, line: string, rest: string)
    requires '\n' !in line
    ensures Saids(types, line + "\n" + rest) == [ReadLine(types, CString(line + "\n"))] + Saids(types, rest)
    ensures line != [] ==> Saids(types, line) == [ReadLine(types, CString(line))]
    ensures Saids(types, "") == []
  {
    FirstLineCut(line, rest);
    if line != [] { WholeLineCut(line); }
  }

  lemma FirstLineCut(line: string, rest: string)
    requires '\n' !in line
    ensures var text := line + "\n" + rest;
      text != [] && LineSize(text) == |line| + 1 && text[..|line| + 1] == line + "\n" && text[|line| + 1..] == rest
  {
    FindIn(line, '\n', rest);
    assert line + "\n" + rest == line + ['\n'] + rest;
  }

  lemma WholeLineCut(line: string)
    requires '\n' !in line && line != []
    ensures LineSize(line) == |line| && line[..|line|] == line && line[|line|..] == []
  {
  }

  lemma NulRule(s: string, more: string)
    requires NUL !in s
    ensures CString(s + [NUL] + more) == s && CString(s) == s
  {
    FindIn(s, NUL, more);
    assert (s + [NUL] + more)[..|s|] == s && s[..|s|] == s;
  }
}
