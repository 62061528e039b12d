/** The macro language of Kconfig files: what a text expands to. */
module MacroExpand {
  import opened MacroText

  /** A variable; the value of a recursive one is expanded at each use. */
  datatype Variable = Variable(name: string, value: string, recursive: bool)

  /** The errors of the program, and `Overrun`: a part goes behind the array of arguments, and what the program
      does from there on is undefined. */
  datatype Error = Unterminated | TooManyArguments | Overrun | RecursiveReference | TooDeep | Complaint

  datatype Builtin = NoSuch | Gives(text: string) | Halts

  /** The variables, and the answers from outside: `ordinal` is the number that strtoul makes of a whole text
      and 0 for others, `builtin` the built-in functions, `env` the environment. */
  datatype Setup = Setup(vars: seq<Variable>, ordinal: string -> nat, builtin: (string, seq<string>) -> Builtin,
                         env: string -> string)

  /** How often each variable is being expanded at the moment. */
  type Counts = seq<nat>

  const MAXCOUNT: nat := 1000
  const MAXARGS: nat := 16

  /** What is left of the limits on nesting. */
  function Budget(counts: Counts): nat {
    if counts == [] then 0
    else (if counts[0] <= MAXCOUNT then MAXCOUNT + 1 - counts[0] else 0) + Budget(counts[1..])
  }

  lemma {:induction false} BudgetStep(counts: Counts, i: nat)
    requires i < |counts| && counts[i] <= MAXCOUNT
    ensures Budget(counts[i := counts[i] + 1]) == Budget(counts) - 1
  {
    var c := counts[i := counts[i] + 1];
    if i == 0 {
      assert c[1..] == counts[1..];
    } else {
      BudgetStep(counts[1..], i - 1);
      assert c[1..] == counts[1..][i - 1 := counts[i] + 1];
    }
  }

  /** The first variable of a name, or the number of variables. */
  function Lookup(vars: seq<Variable>, name: string): (i: nat)
    ensures i <= |vars| && (i < |vars| ==> vars[i].name == name) && forall k :: 0 <= k < i ==> vars[k].name != name
  {
    if vars == [] || vars[0].name == name then 0 else 1 + Lookup(vars[1..], name)
  }

  /** Characters of a token. */
  predicate TokenChar(c: char) {
    'a' <= c <= 'z' || 'A' <= c <= 'Z' || '0' <= c <= '9' || c == '_' || c == '-'
  }

  /** The text made, and the rest of the input; or an error, which ends the program. */
  datatype Result = Made(text: string, rest: string) | Stop(error: Error)

  datatype Values = All(texts: seq<string>) | StopAll(error: Error)

  /** The input as far as it belongs to the text or, with `token`, to one token. */
  function Expand(x: Setup, s: string, token: bool, args: seq<string>, counts: Counts): (r: Result)
    requires |counts| == |x.vars|
    ensures r.Made? ==> |r.rest| <= |s|
    decreases Budget(counts), |s|, 0
  {
    if s == [] then Made([], [])
    else if s[0] == '$' then
      var d := Dollar(x, s[1..], args, counts);
      if d.Stop? then d
      else Prefix(d.text, Expand(x, d.rest, token, args, counts))
    else if token && !TokenChar(s[0]) then Made([], s)
    else Prefix([s[0]], Expand(x, s[1..], token, args, counts))
  }

  function Prefix(t: string, r: Result): Result {
    if r.Stop? then r else Made(t + r.text, r.rest)
  }

  /** The reference behind a `$`, if it is one. */
  function Dollar(x: Setup, s: string, args: seq<string>, counts: Counts): (r: Result)
    requires |counts| == |x.vars|
    ensures r.Made? ==> |r.rest| <= |s|
    decreases Budget(counts), |s|, 0
  {
    if s == [] || s[0] != '(' then Made("$", s)
    else
      var q := Close(s[1..], 0, 0);
      if q == |s[1..]| then Stop(Unterminated)
      else
        var v := Clause(x, s[1..][..q], args, counts);
        if v.Stop? then v else Made(v.text, s[1..][q + 1..])
  }

  /** A clause: an argument of the caller, a variable or user function, a built-in, the environment, or nothing. */
  function Clause(x: Setup, s: string, args: seq<string>, counts: Counts): (r: Result)
    requires |counts| == |x.vars|
    ensures r.Made? ==> r.rest == []
    decreases Budget(counts), |s|, 3
  {
    var n := x.ordinal(s);
    if 0 < n <= |args| then Made(args[n - 1], [])
    else
      var parts := Split(s, 0, []);
      SplitShort(s, 0, []);
      if |parts| - 1 > MAXARGS then Stop(TooManyArguments)
      else if |parts| > MAXARGS then Stop(Overrun)
      else
        var vals := ExpandAll(x, parts, args, counts, |s|);
        if vals.StopAll? then Stop(vals.error) else Reference(x, vals.texts[0], vals.texts[1..], counts)
  }

  /** The name and the arguments, expanded in turn. */
  function ExpandAll(x: Setup, parts: seq<string>, args: seq<string>, counts: Counts, ghost n: nat): (r: Values)
    requires |counts| == |x.vars| && forall i :: 0 <= i < |parts| ==> |parts[i]| <= n
    ensures r.All? ==> |r.texts| == |parts|
    decreases Budget(counts), n, 2, |parts|
  {
    if parts == [] then All([])
    else
      var v := Expand(x, parts[0], false, args, counts);
      if v.Stop? then StopAll(v.error)
      else
        var vs := ExpandAll(x, parts[1..], args, counts, n);
        if vs.StopAll? then vs else All([v.text] + vs.texts)
  }

  /** A name with its arguments. */
  function Reference(x: Setup, name: string, args: seq<string>, counts: Counts): (r: Result)
    requires |counts| == |x.vars|
    ensures r.Made? ==> r.rest == []
    decreases Budget(counts), 0, 1
  {
    var i := Lookup(x.vars, name);
    if i < |x.vars| then
      if args == [] && counts[i] > 0 then Stop(RecursiveReference)
      else if counts[i] > MAXCOUNT then Stop(TooDeep)
      else if !x.vars[i].recursive then Made(x.vars[i].value, [])
      else
        BudgetStep(counts, i);
        var r := Expand(x, x.vars[i].value, false, args, counts[i := counts[i] + 1]);
        if r.Stop? then r else Made(r.text, [])
    else
      match x.builtin(name, args)
      case Gives(t) => Made(t, [])
      case Halts => Stop(Complaint)
      case NoSuch => Made(if args == [] then x.env(name) else "", [])
  }

  // ----- properties of expansion -----

  /** A text is expanded to its end. */
  lemma {:induction false} ExpandEnds(x: Setup, s: string, args: seq<string>, counts: Counts)
    requires |counts| == |x.vars| && Expand(x, s, false, args, counts).Made?
    ensures Expand(x, s, false, args, counts).rest == []
    decreases |s|
  {
    if s != [] {
      if s[0] == '$' {
        ExpandEnds(x, Dollar(x, s[1..], args, counts).rest, args, counts);
      } else {
        ExpandEnds(x, s[1..], args, counts);
      }
    }
  }

  /** Text without references is left alone. */
  lemma {:induction false} PlainStays(x: Setup, s: string, args: seq<string>, counts: Counts)
    requires |counts| == |x.vars| && '$' !in s
    ensures Expand(x, s, false, args, counts) == Made(s, [])
  {
    if s != [] {
      PlainStays(x, s[1..], args, counts);
      assert [s[0]] + s[1..] == s;
    }
  }

  /** The reference behind a `$` is the clause up to the parenthesis that closes it, and the input goes on
      just behind that; the clause falls into balanced parts that join to it. */
  lemma DollarTakes(x: Setup, s: string, args: seq<string>, counts: Counts, q: nat)
    requires |counts| == |x.vars| && s != [] && s[0] == '(' && ClosesAt(s[1..], q)
    ensures var d, v := Dollar(x, s, args, counts), Clause(x, s[1..][..q], args, counts);
      d == if v.Made? then Made(v.text, s[q + 2..]) else v
    ensures Parts(Split(s[1..][..q], 0, [])) && Joined(Split(s[1..][..q], 0, [])) == s[1..][..q]
  {
    CloseFinds(s[1..], q);
    ClauseParts(s[1..], q);
    assert s[1..][q + 1..] == s[q + 2..];
  }

  /** Without a parenthesis that closes it, a reference is an error. */
  lemma DollarUnterminated(x: Setup, s: string, args: seq<string>, counts: Counts)
    requires |counts| == |x.vars| && s != [] && s[0] == '(' && forall q :: !ClosesAt(s[1..], q)
    ensures Dollar(x, s, args, counts) == Stop(Unterminated)
  {
    CloseFinds(s[1..], Close(s[1..], 0, 0));
  }

  /** Expansion goes piece by piece: a text that expands, and does not end in `$`, may have anything behind it. */
  lemma {:induction false} ExpandAppend(x: Setup, a: string, b: string, args: seq<string>, counts: Counts)
    requires |counts| == |x.vars| && Expand(x, a, false, args, counts).Made?
    requires a != [] ==> a[|a| - 1] != '$'
    ensures Expand(x, a + b, false, args, counts)
      == Prefix(Expand(x, a, false, args, counts).text, Expand(x, b, false, args, counts))
    decreases |a|
  {
    if a == [] {
      assert a + b == b;
      PrefixNothing(Expand(x, b, false, args, counts));
    } else if a[0] == '$' {
      var d := Dollar(x, a[1..], args, counts);
      DollarAppend(x, a[1..], b, args, counts);
      DollarRest(x, a[1..], args, counts);
      ExpandAppend(x, d.rest, b, args, counts);
      ExpandDollarFirst(x, a, b, args, counts);
    } else {
      ExpandAppend(x, a[1..], b, args, counts);
      ExpandPlainFirst(x, a, b, args, counts);
    }
  }

  lemma PrefixNothing(r: Result)
    ensures Prefix([], r) == r
  {
    if r.Made? { assert [] + r.text == r.text; }
  }

  lemma ExpandDollarFirst(x: Setup, a: string, b: string, args: seq<string>, counts: Counts)
    requires |counts| == |x.vars| && a != [] && a[0] == '$'
    requires Dollar(x, a[1..], args, counts).Made?
    requires var d := Dollar(x, a[1..], args, counts); Dollar(x, a[1..] + b, args, counts) == Made(d.text, d.rest + b)
    ensures var d := Dollar(x, a[1..], args, counts);
      && Expand(x, a + b, false, args, counts) == Prefix(d.text, Expand(x, d.rest + b, false, args, counts))
      && forall t, r :: Prefix(d.text, Prefix(t, r)) == Prefix(d.text + t, r)
  {
    assert (a + b)[1..] == a[1..] + b;
    forall t, r
      ensures var d := Dollar(x, a[1..], args, counts); Prefix(d.text, Prefix(t, r)) == Prefix(d.text + t, r)
    {
      PrefixTwice(Dollar(x, a[1..], args, counts).text, t, r);
    }
  }

  lemma ExpandPlainFirst(x: Setup, a: string, b: string, args: seq<string>, counts: Counts)
    requires |counts| == |x.vars| && a != [] && a[0] != '$'
    ensures Expand(x, a + b, false, args, counts) == Prefix([a[0]], Expand(x, a[1..] + b, false, args, counts))
    ensures forall t, r :: Prefix([a[0]], Prefix(t, r)) == Prefix([a[0]] + t, r)
  {
    assert (a + b)[1..] == a[1..] + b;
    forall t, r ensures Prefix([a[0]], Prefix(t, r)) == Prefix([a[0]] + t, r) {
      PrefixTwice([a[0]], t, r);
    }
  }

  lemma PrefixTwice(a: string, b: string, r: Result)
    ensures Prefix(a, Prefix(b, r)) == Prefix(a + b, r)
  {
    if r.Made? { assert a + (b + r.text) == (a + b) + r.text; }
  }

  lemma DollarRest(x: Setup, s: string, args: seq<string>, counts: Counts)
    requires |counts| == |x.vars| && Dollar(x, s, args, counts).Made?
    ensures var r := Dollar(x, s, args, counts).rest; |r| <= |s| && r == s[|s| - |r|..]
  {
  }

  lemma DollarAppend(x: Setup, s: string, b: string, args: seq<string>, counts: Counts)
    requires |counts| == |x.vars| && s != [] && Dollar(x, s, args, counts).Made?
    ensures var d := Dollar(x, s, args, counts); Dollar(x, s + b, args, counts) == Made(d.text, d.rest + b)
  {
    if s[0] == '(' {
      var t := s[1..];
      var q := Close(t, 0, 0);
      assert (s + b)[1..] == t + b;
      CloseExtend(t, b, 0, 0);
      assert (t + b)[..q] == t[..q] && (t + b)[q + 1..] == t[q + 1..] + b;
    }
  }

  // ----- the counts -----

  /** Fewer expansions under way. */
  predicate Fewer(a: Counts, b: Counts) {
    |a| == |b| && forall i :: 0 <= i < |a| ==> a[i] <= b[i]
  }

  lemma FewerStep(a: Counts, b: Counts, i: nat)
    requires Fewer(a, b) && i < |a|
    ensures Fewer(a[i := a[i] + 1], b[i := b[i] + 1])
  {
  }

  /** The counts only ever stop an expansion: what is made with some expansions under way is made just so
      with fewer. */
  lemma {:induction false} CountsOnlyStop(x: Setup, s: string, token: bool, args: seq<string>, counts: Counts,
                                          fewer: Counts)
    requires |counts| == |x.vars| && Fewer(fewer, counts) && Expand(x, s, token, args, counts).Made?
    ensures Expand(x, s, token, args, fewer) == Expand(x, s, token, args, counts)
    decreases Budget(counts), |s|, 0
  {
    if s != [] {
      if s[0] == '$' {
        DollarFewer(x, s[1..], args, counts, fewer);
        CountsOnlyStop(x, Dollar(x, s[1..], args, counts).rest, token, args, counts, fewer);
      } else if !token || TokenChar(s[0]) {
        CountsOnlyStop(x, s[1..], token, args, counts, fewer);
      }
    }
  }

  lemma {:induction false} DollarFewer(x: Setup, s: string, args: seq<string>, counts: Counts, fewer: Counts)
    requires |counts| == |x.vars| && Fewer(fewer, counts) && Dollar(x, s, args, counts).Made?
    ensures Dollar(x, s, args, fewer) == Dollar(x, s, args, counts)
    decreases Budget(counts), |s|, 0
  {
    if s != [] && s[0] == '(' {
      ClauseFewer(x, s[1..][..Close(s[1..], 0, 0)], args, counts, fewer);
    }
  }

  lemma {:induction false} ClauseFewer(x: Setup, s: string, args: seq<string>, counts: Counts, fewer: Counts)
    requires |counts| == |x.vars| && Fewer(fewer, counts) && Clause(x, s, args, counts).Made?
    ensures Clause(x, s, args, fewer) == Clause(x, s, args, counts)
    decreases Budget(counts), |s|, 3
  {
    if !(0 < x.ordinal(s) <= |args|) {
      var parts := Split(s, 0, []);
      SplitShort(s, 0, []);
      AllFewer(x, parts, args, counts, fewer, |s|);
      var vals := ExpandAll(x, parts, args, counts, |s|);
      ReferenceFewer(x, vals.texts[0], vals.texts[1..], counts, fewer);
    }
  }

  lemma {:induction false} AllFewer(x: Setup, parts: seq<string>, args: seq<string>, counts: Counts, fewer: Counts,
                                    n: nat)
    requires |counts| == |x.vars| && Fewer(fewer, counts) && forall i :: 0 <= i < |parts| ==> |parts[i]| <= n
    requires ExpandAll(x, parts, args, counts, n).All?
    ensures ExpandAll(x, parts, args, fewer, n) == ExpandAll(x, parts, args, counts, n)
    decreases Budget(counts), n, 2, |parts|
  {
    if parts != [] {
      CountsOnlyStop(x, parts[0], false, args, counts, fewer);
      AllFewer(x, parts[1..], args, counts, fewer, n);
    }
  }

  lemma {:induction false} ReferenceFewer(x: Setup, name: string, args: seq<string>, counts: Counts, fewer: Counts)
    requires |counts| == |x.vars| && Fewer(fewer, counts) && Reference(x, name, args, counts).Made?
    ensures Reference(x, name, args, fewer) == Reference(x, name, args, counts)
    decreases Budget(counts), 0, 1
  {
    var i := Lookup(x.vars, name);
    if i < |x.vars| && x.vars[i].recursive {
      BudgetStep(counts, i);
      FewerStep(fewer, counts, i);
      CountsOnlyStop(x, x.vars[i].value, false, args, counts[i := counts[i] + 1], fewer[i := fewer[i] + 1]);
    }
  }
}
