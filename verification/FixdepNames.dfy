/** Which configuration names a file mentions, and the list of them without repetitions. */
module FixdepNames {

  predicate Ident(c: char) {
    'a' <= c <= 'z' || 'A' <= c <= 'Z' || '0' <= c <= '9' || c == '_'
  }

  /** ASCII letters, digits and the underscore, by their codes. */
  lemma IdentCodes(c: char)
    ensures Ident(c) <==> var n := c as int; 48 <= n <= 57 || 65 <= n <= 90 || n == 95 || 97 <= n <= 122
  {
  }

  const CONFIG := "CONFIG_"
  const MODULE := "_MODULE"

  /** The length of the run of identifier characters that a text starts with. */
  function RunLength(s: string): (n: nat)
    ensures n <= |s| && (forall k :: 0 <= k < n ==> Ident(s[k])) && (n < |s| ==> !Ident(s[n]))
  {
    if s == [] || !Ident(s[0]) then 0 else 1 + RunLength(s[1..])
  }

  /** The maximal runs of identifier characters, in order. */
  function Words(s: string): seq<string>
    decreases |s|
  {
    if s == [] then []
    else if Ident(s[0]) then [s[..RunLength(s)]] + Words(s[RunLength(s)..])
    else Words(s[1..])
  }

  /** A stretch of the text that is a maximal run. */
  predicate MaximalRun(s: string, i: int, j: int) {
    && 0 <= i < j <= |s| && (forall k :: i <= k < j ==> Ident(s[k]))
    && (i == 0 || !Ident(s[i - 1])) && (j == |s| || !Ident(s[j]))
  }

  predicate RunIs(s: string, i: int, j: int, w: string) {
    MaximalRun(s, i, j) && s[i..j] == w
  }

  /** Exactly the maximal runs are found. */
  lemma {:induction false} WordsExact(s: string, w: string)
    ensures w in Words(s) <==> exists i, j :: RunIs(s, i, j, w)
    decreases |s|
  {
    if s != [] {
      var n := if Ident(s[0]) then RunLength(s) else 1;
      WordsExact(s[n..], w);
      RunsOf(s, n, w);
    }
  }

  lemma RunsOf(s: string, n: nat, w: string)
    requires s != [] && n == (if Ident(s[0]) then RunLength(s) else 1)
    ensures (exists i, j :: RunIs(s, i, j, w))
      <==> (Ident(s[0]) && w == s[..n]) || exists i, j :: RunIs(s[n..], i, j, w)
  {
    if i, j :| RunIs(s[n..], i, j, w) { RunShift(s, n, i, j, w); }
    if Ident(s[0]) { assert RunIs(s, 0, n, s[..n]); }
    if i, j :| RunIs(s, i, j, w) {
      if i >= n { RunShift(s, n, i - n, j - n, w); } else { RunAtStart(s, i, j); }
    }
  }

  lemma RunShift(s: string, n: nat, i: int, j: int, w: string)
    requires 0 < n <= |s| && (n < |s| ==> !Ident(s[n - 1]) || !Ident(s[n]))
    requires i >= 0
    ensures RunIs(s[n..], i, j, w) <==> RunIs(s, n + i, n + j, w)
  {
    if i <= j && n + j <= |s| { assert s[n + i..n + j] == s[n..][i..j]; }
    assert forall k :: n <= k < |s| ==> s[k] == s[n..][k - n];
  }

  lemma RunAtStart(s: string, i: int, j: int)
    requires s != [] && MaximalRun(s, i, j) && i < (if Ident(s[0]) then RunLength(s) else 1)
    ensures Ident(s[0]) && i == 0 && j == RunLength(s)
  {
    var n := RunLength(s);
    assert i == 0 ==> Ident(s[i]);
  }

  /** The name that a word mentions, if it mentions one; the suffix of modules is dropped. */
  function NameOf(word: string): seq<string> {
    if !(CONFIG <= word) then []
    else
      var w := word[|CONFIG|..];
      Named(if EndsWith(w, MODULE) then w[..|w| - |MODULE|] else w)
  }

  function Named(name: string): seq<string> { if name == "" then [] else [name] }

  predicate EndsWith(s: string, sub: string) {
    |sub| <= |s| && s[|s| - |sub|..] == sub
  }

  lemma EndsWithExact(s: string, sub: string)
    ensures EndsWith(s, sub) <==> exists t :: s == t + sub
  {
    if EndsWith(s, sub) { assert s == s[..|s| - |sub|] + sub; }
  }

  /** The word that is nothing but the prefix and the suffix names nothing. */
  lemma BareModule()
    ensures NameOf(CONFIG + MODULE) == [] && NameOf(CONFIG) == []
  {
    assert (CONFIG + MODULE)[|CONFIG|..] == MODULE && MODULE == [] + MODULE;
    assert CONFIG[|CONFIG|..] == [];
  }

  /** The names a file mentions, in order. */
  function Names(s: string): seq<string>
    decreases |s|
  {
    if s == [] then []
    else if Ident(s[0]) then NameOf(s[..RunLength(s)]) + Names(s[RunLength(s)..])
    else Names(s[1..])
  }

  lemma {:induction false} NamesOfWords(s: string, name: string)
    ensures name in Names(s) <==> exists w :: w in Words(s) && NameOf(w) == [name]
    decreases |s|
  {
    if s != [] {
      var n := if Ident(s[0]) then RunLength(s) else 1;
      NamesOfWords(s[n..], name);
      if Ident(s[0]) && name in Names(s) {
        if name in NameOf(s[..n]) { assert s[..n] in Words(s); }
      }
    }
  }

  /** Some maximal run of the file mentions the name. */
  ghost predicate Mentions(s: string, name: string) {
    exists i, j :: MaximalRun(s, i, j) && NameOf(s[i..j]) == [name]
  }

  lemma NamesExact(s: string, name: string)
    ensures name in Names(s) <==> Mentions(s, name)
  {
    NamesOfWords(s, name);
    if name in Names(s) {
      var w :| w in Words(s) && NameOf(w) == [name];
      WordsExact(s, w);
      var i, j :| RunIs(s, i, j, w);
      assert MaximalRun(s, i, j) && NameOf(s[i..j]) == [name];
    }
    if i, j :| MaximalRun(s, i, j) && NameOf(s[i..j]) == [name] {
      WordsExact(s, s[i..j]);
      assert RunIs(s, i, j, s[i..j]);
    }
  }

  function AllNames(files: seq<string>): seq<string> {
    if files == [] then [] else AllNames(files[..|files| - 1]) + Names(files[|files| - 1])
  }

  lemma {:induction false} AllNamesExact(files: seq<string>, name: string)
    ensures name in AllNames(files) <==> exists i :: 0 <= i < |files| && name in Names(files[i])
  {
    if files != [] {
      var before := files[..|files| - 1];
      AllNamesExact(before, name);
      if i :| 0 <= i < |before| && name in Names(before[i]) { assert files[i] == before[i]; }
      if i :| 0 <= i < |files| && name in Names(files[i]) {
        if i < |before| { assert before[i] == files[i]; }
      }
    }
  }

  // ----- each name once -----

  /** The names at their first uses. */
  function FirstUses(names: seq<string>): seq<string> {
    if names == [] then []
    else
      var before, last := names[..|names| - 1], names[|names| - 1];
      if last in before then FirstUses(before) else FirstUses(before) + [last]
  }

  lemma {:induction false} FirstUsesSame(names: seq<string>, name: string)
    ensures name in FirstUses(names) <==> name in names
  {
    if names != [] {
      var before, last := names[..|names| - 1], names[|names| - 1];
      FirstUsesSame(before, name);
      assert names == before + [last];
    }
  }

  lemma {:induction false} FirstUsesOnce(names: seq<string>)
    ensures forall i, j :: 0 <= i < j < |FirstUses(names)| ==> FirstUses(names)[i] != FirstUses(names)[j]
  {
    if names != [] {
      var before, last := names[..|names| - 1], names[|names| - 1];
      FirstUsesOnce(before);
      FirstUsesSame(before, last);
    }
  }

  /** A name is listed for some files exactly if one of them has a maximal run of identifier characters that
      is CONFIG_ and the name, with _MODULE behind it or not. */
  lemma ListedExactly(files: seq<string>, name: string)
    ensures name in FirstUses(AllNames(files)) <==> exists k :: 0 <= k < |files| && Mentions(files[k], name)
  {
    FirstUsesSame(AllNames(files), name);
    AllNamesExact(files, name);
    forall k | 0 <= k < |files| ensures name in Names(files[k]) <==> Mentions(files[k], name) {
      NamesExact(files[k], name);
    }
  }

  /** What NameOf means: the word is CONFIG_ and the name, with or without the suffix; without it, the name
      itself does not end in it. */
  lemma NameOfExact(word: string, name: string)
    ensures NameOf(word) == [name] <==>
      name != "" && (word == CONFIG + name + MODULE || (word == CONFIG + name && !EndsWith(name, MODULE)))
  {
    if NameOf(word) == [name] { NameOfGives(word, name); }
    if word == CONFIG + name + MODULE { NameWithSuffix(name); }
    if word == CONFIG + name { assert word[|CONFIG|..] == name; }
  }

  lemma NameOfGives(word: string, name: string)
    requires NameOf(word) == [name]
    ensures name != "" && (word == CONFIG + name + MODULE || (word == CONFIG + name && !EndsWith(name, MODULE)))
  {
    var w := word[|CONFIG|..];
    assert word == CONFIG + w;
    if EndsWith(w, MODULE) {
      assert w == name + MODULE;
      assert CONFIG + (name + MODULE) == CONFIG + name + MODULE;
    }
  }

  lemma NameWithSuffix(name: string)
    ensures name != "" ==> NameOf(CONFIG + name + MODULE) == [name]
  {
    var word, w := CONFIG + name + MODULE, name + MODULE;
    assert word == CONFIG + w;
    assert word[|CONFIG|..] == w;
    assert w[|w| - |MODULE|..] == MODULE && w[..|w| - |MODULE|] == name;
  }
}
