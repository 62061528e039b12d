/** What references mean: arguments, variables of both flavours, functions and the environment. */
module MacroRules {
  import opened MacroText
  import opened MacroExpand

  /** ASCII letters, digits, the dash and the underscore, by their codes. */
  predicate TokenCode(n: int) { n == 45 || 48 <= n <= 57 || 65 <= n <= 90 || n == 95 || 97 <= n <= 122 }

  lemma TokenChars(c: char)
    ensures TokenChar(c) <==> TokenCode(c as int)
  {
  }

  /** A token without references ends before the first character that is not one of a token's. */
  lemma {:induction false} TokenRule(x: Setup, s: string, k: nat, args: seq<string>, counts: Counts)
    requires |counts| == |x.vars| && k <= |s| && '$' !in s[..k] && (k < |s| ==> s[k] != '$')
    requires (forall i :: 0 <= i < k ==> TokenCode(s[i] as int)) && (k < |s| ==> !TokenCode(s[k] as int))
    ensures Expand(x, s, true, args, counts) == Made(s[..k], s[k..])
  {
    if k == 0 {
      if s != [] { TokenChars(s[0]); } else { assert s[0..] == []; }
    } else {
      TokenChars(s[0]);
      assert s[..k][0] == s[0];
      assert s[1..][..k - 1] == s[..k][1..] && s[1..][k - 1..] == s[k..];
      TokenRule(x, s[1..], k - 1, args, counts);
      assert [s[0]] + s[..k][1..] == s[..k];
    }
  }

  // ----- clauses -----

  /** `$(n)` is the argument of that number, counted from 1. */
  lemma ArgumentRule(x: Setup, s: string, args: seq<string>, counts: Counts)
    requires |counts| == |x.vars| && 1 <= x.ordinal(s) <= |args|
    ensures Clause(x, s, args, counts) == Made(args[x.ordinal(s) - 1], [])
  {
  }

  /** Anything else with more than 16 outer commas is refused, and with 16 the array overruns. */
  lemma CommaRule(x: Setup, s: string, args: seq<string>, counts: Counts)
    requires |counts| == |x.vars| && !(1 <= x.ordinal(s) <= |args|)
    ensures OuterCommas(s, 0) > 16 ==> Clause(x, s, args, counts) == Stop(TooManyArguments)
    ensures OuterCommas(s, 0) == 16 ==> Clause(x, s, args, counts) == Stop(Overrun)
  {
    SplitCounts(s, 0, []);
  }

  /** A text that the splitter and the expansion leave alone. */
  predicate Bare(s: string) { forall i :: 0 <= i < |s| ==> s[i] !in {'$', '(', ')', ','} }

  predicate AllBare(parts: seq<string>) { forall i :: 0 <= i < |parts| ==> Bare(parts[i]) }

  lemma BareRest(a: string)
    requires Bare(a) && a != []
    ensures Bare(a[1..])
  {
    forall i | 0 <= i < |a| - 1 ensures a[1..][i] !in {'$', '(', ')', ','} { assert a[1..][i] == a[i + 1]; }
  }

  lemma {:induction false} SplitBare(a: string, rest: string, prev: string)
    requires Bare(a)
    ensures Split(a + rest, 0, prev) == Split(rest, 0, prev + a)
    decreases |a|
  {
    if a == [] {
      assert a + rest == rest && prev + a == prev;
    } else {
      assert (a + rest)[1..] == a[1..] + rest;
      BareRest(a);
      SplitBare(a[1..], rest, prev + [a[0]]);
      assert prev + [a[0]] + a[1..] == prev + a;
    }
  }

  /** Bare parts with commas between them are split into just these. */
  lemma {:induction false} SplitJoined(parts: seq<string>)
    requires parts != [] && AllBare(parts)
    ensures Split(Joined(parts), 0, []) == parts
  {
    assert [] + parts[0] == parts[0];
    if |parts| == 1 {
      SplitBare(parts[0], [], []);
      assert parts[0] + [] == parts[0] && parts == [parts[0]];
    } else {
      var rest := [','] + Joined(parts[1..]);
      assert Joined(parts) == parts[0] + rest;
      SplitBare(parts[0], rest, []);
      SplitJoined(parts[1..]);
      assert rest[1..] == Joined(parts[1..]) && parts == [parts[0]] + parts[1..];
    }
  }

  lemma BareNoDollar(s: string)
    requires Bare(s)
    ensures '$' !in s
  {
    forall i | 0 <= i < |s| ensures s[i] != '$' {}
  }

  lemma {:induction false} BareParts(x: Setup, parts: seq<string>, args: seq<string>, counts: Counts, n: nat)
    requires |counts| == |x.vars| && AllBare(parts) && forall i :: 0 <= i < |parts| ==> |parts[i]| <= n
    ensures ExpandAll(x, parts, args, counts, n) == All(parts)
  {
    if parts != [] {
      BareNoDollar(parts[0]);
      PlainStays(x, parts[0], args, counts);
      BareParts(x, parts[1..], args, counts, n);
      assert [parts[0]] + parts[1..] == parts;
    }
  }

  /** A clause that is no argument number refers to its first part, with the others as arguments. */
  lemma PartsRule(x: Setup, s: string, parts: seq<string>, args: seq<string>, counts: Counts)
    requires |counts| == |x.vars| && Split(s, 0, []) == parts && AllBare(parts) && |parts| <= 16
    requires !(1 <= x.ordinal(s) <= |args|)
    ensures Clause(x, s, args, counts) == Reference(x, parts[0], parts[1..], counts)
  {
    SplitShort(s, 0, []);
    BareParts(x, parts, args, counts, |s|);
  }

  /** `$(f,a,b)` with bare parts refers to f with the arguments a and b. */
  lemma CallRule(x: Setup, parts: seq<string>, args: seq<string>, counts: Counts)
    requires |counts| == |x.vars| && 1 <= |parts| <= 16 && AllBare(parts)
    requires !(1 <= x.ordinal(Joined(parts)) <= |args|)
    ensures Clause(x, Joined(parts), args, counts) == Reference(x, parts[0], parts[1..], counts)
  {
    SplitJoined(parts);
    PartsRule(x, Joined(parts), parts, args, counts);
  }

  // ----- names -----

  /** The first variable of the name. */
  predicate Names(x: Setup, i: nat, name: string) {
    i < |x.vars| && x.vars[i].name == name && forall k :: 0 <= k < i ==> x.vars[k].name != name
  }

  predicate Unnamed(x: Setup, name: string) { forall k :: 0 <= k < |x.vars| ==> x.vars[k].name != name }

  /** A simple variable is its value, arguments or not; as long as it is not under expansion itself. */
  lemma SimpleRule(x: Setup, i: nat, args: seq<string>, counts: Counts)
    requires |counts| == |x.vars| && i < |x.vars| && Names(x, i, x.vars[i].name) && !x.vars[i].recursive
    requires if args == [] then counts[i] == 0 else counts[i] <= 1000
    ensures Reference(x, x.vars[i].name, args, counts) == Made(x.vars[i].value, [])
  {
    LookupIs(x, i, x.vars[i].name);
  }

  /** A recursive one is its value expanded with the arguments of this reference, not with those around it. */
  lemma RecursiveRule(x: Setup, i: nat, args: seq<string>, counts: Counts)
    requires |counts| == |x.vars| && i < |x.vars| && Names(x, i, x.vars[i].name) && x.vars[i].recursive
    requires if args == [] then counts[i] == 0 else counts[i] <= 1000
    ensures var r := Expand(x, x.vars[i].value, false, args, counts[i := counts[i] + 1]);
      Reference(x, x.vars[i].name, args, counts) == if r.Made? then Made(r.text, []) else r
  {
    LookupIs(x, i, x.vars[i].name);
  }

  /** A variable under expansion is refused without arguments; with arguments it may be met 1000 times over. */
  lemma RecursionRule(x: Setup, i: nat, args: seq<string>, counts: Counts)
    requires |counts| == |x.vars| && i < |x.vars| && Names(x, i, x.vars[i].name)
    ensures args == [] && counts[i] > 0 ==> Reference(x, x.vars[i].name, args, counts) == Stop(RecursiveReference)
    ensures args != [] && counts[i] > 1000 ==> Reference(x, x.vars[i].name, args, counts) == Stop(TooDeep)
  {
    LookupIs(x, i, x.vars[i].name);
  }

  /** Otherwise a built-in function, otherwise the environment, which takes no arguments. */
  lemma OutsideRule(x: Setup, name: string, args: seq<string>, counts: Counts)
    requires |counts| == |x.vars| && Unnamed(x, name)
    ensures var r := Reference(x, name, args, counts);
      match x.builtin(name, args)
      case Gives(t) => r == Made(t, [])
      case Halts => r == Stop(Complaint)
      case NoSuch => r == if args == [] then Made(x.env(name), []) else Made("", [])
  {
    var i := Lookup(x.vars, name);
  }

  lemma LookupIs(x: Setup, i: nat, name: string)
    requires Names(x, i, name)
    ensures Lookup(x.vars, name) == i
  {
    var j := Lookup(x.vars, name);
    if j < i { assert false; }
  }

  // ----- a user function at work -----

  lemma {:induction false} CloseBare(s: string, q: nat, k: nat)
    requires k <= q < |s| && s[q] == ')' && forall i :: k <= i < q ==> s[i] != '(' && s[i] != ')'
    ensures Close(s, k, 0) == q
    decreases q - k
  {
    if k < q { CloseBare(s, q, k + 1); }
  }

  /** A reference with bare text in it, and what follows. */
  lemma DollarBare(x: Setup, d: string, rest: string, args: seq<string>, counts: Counts)
    requires |counts| == |x.vars| && Bare(d)
    ensures var v := Clause(x, d, args, counts);
      Dollar(x, "(" + (d + (")" + rest)), args, counts) == if v.Stop? then v else Made(v.text, rest)
  {
    var s := d + (")" + rest);
    assert s[|d|] == ')' && s[..|d|] == d && s[|d| + 1..] == rest;
    CloseBare(s, |d|, 0);
    assert ("(" + s)[1..] == s && ("(" + s)[0] == '(';
  }

  /** In the value of a function, `$(n)` becomes argument n, and the text goes on. */
  lemma ArgumentPlaced(x: Setup, d: string, rest: string, args: seq<string>, counts: Counts)
    requires |counts| == |x.vars| && Bare(d) && 1 <= x.ordinal(d) <= |args|
    ensures Expand(x, "$" + ("(" + (d + (")" + rest))), false, args, counts)
      == Prefix(args[x.ordinal(d) - 1], Expand(x, rest, false, args, counts))
  {
    var s := "(" + (d + (")" + rest));
    assert ("$" + s)[0] == '$' && ("$" + s)[1..] == s;
    DollarBare(x, d, rest, args, counts);
    ArgumentRule(x, d, args, counts);
  }
}
