/** The macro expander as it runs: a cursor through the text, an output that grows, counts raised and lowered. */
module MacroProgram {
  import opened MacroText
  import opened MacroExpand

  /** The parts before `prev` have been cut off, and the one that begins there goes on at `p`. */
  ghost predicate CutSoFar(s: string, parts: seq<string>, prev: nat, p: nat, nest: int) {
    prev <= p <= |s| && Split(s, 0, []) == parts + Split(s[p..], nest, s[prev..p])
  }

  lemma CutStart(s: string)
    ensures CutSoFar(s, [], 0, 0, 0)
  {
    assert s[0..] == s && s[0..0] == [] && [] + Split(s, 0, []) == Split(s, 0, []);
  }

  lemma CutTurn(s: string, parts: seq<string>, prev: nat, p: nat, nest: int)
    requires CutSoFar(s, parts, prev, p, nest) && p < |s|
    ensures nest == 0 && s[p] == ',' ==>
      CutSoFar(s, parts + [s[prev..p]], p + 1, p + 1, 0) && |Split(s, 0, [])| >= |parts| + 2
    ensures !(nest == 0 && s[p] == ',') ==>
      CutSoFar(s, parts, prev, p + 1, if s[p] == '(' then nest + 1 else if s[p] == ')' then nest - 1 else nest)
  {
    assert s[p..][1..] == s[p + 1..] && s[prev..p] + [s[p]] == s[prev..p + 1] && s[p + 1..p + 1] == [];
    var rest := Split(s[p + 1..], 0, []);
    assert parts + ([s[prev..p]] + rest) == (parts + [s[prev..p]]) + rest;
  }

  lemma CutEnd(s: string, parts: seq<string>, prev: nat, nest: int)
    requires CutSoFar(s, parts, prev, |s|, nest)
    ensures Split(s, 0, []) == parts + [s[prev..]]
  {
    assert s[prev..|s|] == s[prev..];
  }

  /** There is a clause whose last part goes behind the array. */
  lemma SlotsOverrun(s: string)
    requires s == Commas(MAXARGS)
    ensures |Split(s, 0, [])| == MAXARGS + 1 && OuterCommas(s, 0) == MAXARGS
  {
    CommasOuter(MAXARGS);
    SplitCounts(s, 0, []);
  }

  class Expander {
    const x: Setup
    /** exp_count of each variable. */
    var counts: Counts

    constructor (setup: Setup)
      ensures x == setup && |counts| == |x.vars| && forall i :: 0 <= i < |counts| ==> counts[i] == 0
    {
      x := setup;
      counts := seq(|setup.vars|, i => 0);
    }

    /** __expand_string: the text from the cursor on, to the end or to the end of a token. */
    method ExpandString(s: string, from: nat, token: bool, args: seq<string>)
      returns (ok: bool, out: string, p: nat, error: Error)
      requires |counts| == |x.vars| && from <= |s|
      modifies this
      ensures var r := Expand(x, s[from..], token, args, old(counts));
        if ok then p <= |s| && r == Made(out, s[p..]) && counts == old(counts) else r == Stop(error)
      decreases Budget(counts), |s| - from, 0
    {
      ghost var whole := Expand(x, s[from..], token, args, counts);
      out, p, error := [], from, Complaint;
      var start := from;
      ghost var made: string := [];
      PrefixNothing(whole);
      SliceNothing(out, s, from);
      while true
        invariant from <= start <= p <= |s| && counts == old(counts) && made == out + s[start..p]
        invariant whole == Prefix(made, Expand(x, s[p..], token, args, counts))
        decreases |s| - p
      {
        AtCursor(x, s, p, token, args, counts, made);
        if p < |s| && s[p] == '$' {
          var text, q;
          ok, text, q, error := ExpandDollar(s, p + 1, args);
          if !ok { return; }
          PrefixTwice(made, text, Expand(x, s[q..], token, args, counts));
          out := out + s[start..p] + text;
          made := made + text;
          SliceNothing(out, s, q);
          start, p := q, q;
          continue;
        }
        if p == |s| || (token && !TokenChar(s[p])) { break; }
        SlicePush(out, s, start, p);
        made := made + [s[p]];
        p := p + 1;
      }
      ok := true;
      out := out + s[start..p];
      SliceNothing(made, s, p);
    }

    /** expand_dollar_with_args: the parentheses are counted up to the one that closes the reference. */
    method ExpandDollar(s: string, from: nat, args: seq<string>) returns (ok: bool, text: string, to: nat, error: Error)
      requires |counts| == |x.vars| && from <= |s|
      modifies this
      ensures var r := Dollar(x, s[from..], args, old(counts));
        if ok then from <= to <= |s| && r == Made(text, s[to..]) && counts == old(counts) else r == Stop(error)
      decreases Budget(counts), |s| - from, 0
    {
      text, to, error := "$", from, Complaint;
      if from == |s| || s[from] != '(' { return true, text, to, error; }
      var p := from + 1;
      assert s[from..][1..] == s[p..];
      var q := FindClose(s, p);
      if q == |s| { return false, text, to, Unterminated; }
      assert s[p..][..q - p] == s[p..q] && s[p..][q - p + 1..] == s[q + 1..];
      ok, text, error := EvalClause(s[p..q], args);
      to := q + 1;
    }

    /** The loop over the parentheses. */
    method FindClose(s: string, from: nat) returns (q: nat)
      requires from <= |s|
      ensures from <= q <= |s| && q == from + Close(s[from..], 0, 0)
    {
      q := from;
      var nest := 0;
      while q < |s|
        invariant from <= q <= |s| && nest >= 0
        invariant Close(s[from..], 0, 0) == Close(s[from..], q - from, nest)
      {
        if s[q] == '(' {
          nest := nest + 1;
        } else if s[q] == ')' {
          if nest == 0 { return; }
          nest := nest - 1;
        }
        q := q + 1;
      }
    }

    /** eval_clause: the parts between the commas are expanded, and the name is looked up.  Nothing is said of
        the program once it has written behind the array. */
    method EvalClause(s: string, args: seq<string>) returns (ok: bool, text: string, error: Error)
      requires |counts| == |x.vars|
      modifies this
      ensures var r := Clause(x, s, args, old(counts));
        if ok then r == Made(text, []) && counts == old(counts) else r == Stop(error)
      decreases Budget(counts), |s|, 3
    {
      text, error := [], Complaint;
      var n := x.ordinal(s);
      if 0 < n <= |args| { return true, args[n - 1], error; }
      var parts;
      ok, parts := Cut(s);
      if !ok { return false, text, TooManyArguments; }
      if |parts| > MAXARGS { return false, text, Overrun; }
      SplitShort(s, 0, []);
      var texts;
      ok, texts, error := ExpandParts(parts, args, |s|);
      if !ok { return; }
      ok, text, error := Refer(texts[0], texts[1..]);
    }

    /** The loop that cuts the clause at its outer commas.  The parts go into the slots of an array with room
        for MAXARGS of them; a comma is refused when all are taken, but the last part is not.  The slots
        taken are within the array exactly if the commas are not MAXARGS in number. */
    method Cut(s: string) returns (ok: bool, parts: seq<string>)
      ensures ok <==> |Split(s, 0, [])| - 1 <= MAXARGS
      ensures ok ==> parts == Split(s, 0, [])
      ensures |parts| <= MAXARGS <==> OuterCommas(s, 0) != MAXARGS
    {
      parts := [];
      var prev, p, nest := 0, 0, 0;
      SplitCounts(s, 0, []);
      CutStart(s);
      while p < |s|
        invariant 0 <= prev <= p <= |s| && |parts| <= MAXARGS && CutSoFar(s, parts, prev, p, nest)
      {
        CutTurn(s, parts, prev, p, nest);
        if nest == 0 && s[p] == ',' {
          if |parts| >= MAXARGS { return false, parts; }
          parts := parts + [s[prev..p]];
          prev := p + 1;
        } else if s[p] == '(' {
          nest := nest + 1;
        } else if s[p] == ')' {
          nest := nest - 1;
        }
        p := p + 1;
      }
      CutEnd(s, parts, prev, nest);
      parts := parts + [s[prev..]];
      ok := true;
    }

    method ExpandParts(parts: seq<string>, args: seq<string>, ghost n: nat)
      returns (ok: bool, texts: seq<string>, error: Error)
      requires |counts| == |x.vars| && forall i :: 0 <= i < |parts| ==> |parts[i]| <= n
      modifies this
      ensures var r := ExpandAll(x, parts, args, old(counts), n);
        if ok then r == All(texts) && counts == old(counts) else r == StopAll(error)
      decreases Budget(counts), n, 2
    {
      texts, error := [], Complaint;
      var i := 0;
      ghost var whole := ExpandAll(x, parts, args, counts, n);
      assert parts[0..] == parts;
      while i < |parts|
        invariant i <= |parts| && |texts| == i && counts == old(counts)
        invariant whole == AfterSome(texts, ExpandAll(x, parts[i..], args, counts, n))
      {
        var text, p;
        assert parts[i..][1..] == parts[i + 1..] && parts[i][0..] == parts[i];
        ok, text, p, error := ExpandString(parts[i], 0, false, args);
        if !ok { return; }
        AfterMore(texts, text, ExpandAll(x, parts[i + 1..], args, counts, n));
        texts := texts + [text];
        i := i + 1;
      }
      ok := true;
      assert texts + [] == texts;
    }

    /** variable_expand, then the built-in functions, then the environment. */
    method Refer(name: string, args: seq<string>) returns (ok: bool, text: string, error: Error)
      requires |counts| == |x.vars|
      modifies this
      ensures var r := Reference(x, name, args, old(counts));
        if ok then r == Made(text, []) && counts == old(counts) else r == Stop(error)
      decreases Budget(counts), 0, 1
    {
      text, error := [], Complaint;
      var i := FindVariable(name);
      if i < |x.vars| {
        if args == [] && counts[i] > 0 { return false, text, RecursiveReference; }
        if counts[i] > MAXCOUNT { return false, text, TooDeep; }
        ghost var before := counts;
        BudgetStep(counts, i);
        counts := counts[i := counts[i] + 1];
        ok := true;
        if x.vars[i].recursive {
          var p;
          assert x.vars[i].value[0..] == x.vars[i].value;
          ok, text, p, error := ExpandString(x.vars[i].value, 0, false, args);
          if !ok { return; }
        } else {
          text := x.vars[i].value;
        }
        counts := counts[i := counts[i] - 1];
        assert counts == before;
        return;
      }
      match x.builtin(name, args)
      case Gives(t) => return true, t, error;
      case Halts => return false, text, Complaint;
      case NoSuch =>
        if args == [] { text := x.env(name); }
        return true, text, error;
    }

    /** variable_lookup: a walk along the list of variables. */
    method FindVariable(name: string) returns (i: nat)
      ensures i == Lookup(x.vars, name)
    {
      i := 0;
      assert x.vars[0..] == x.vars;
      while i < |x.vars| && x.vars[i].name != name
        invariant i <= |x.vars| && Lookup(x.vars, name) == i + Lookup(x.vars[i..], name)
      {
        assert x.vars[i..][1..] == x.vars[i + 1..];
        i := i + 1;
      }
    }
  }

  /** What an expansion of parts comes to when some are done already. */
  function AfterSome(texts: seq<string>, r: Values): Values {
    if r.StopAll? then r else All(texts + r.texts)
  }

  lemma AfterMore(texts: seq<string>, t: string, r: Values)
    ensures AfterSome(texts, AfterSome([t], r)) == AfterSome(texts + [t], r)
  {
    if r.All? { assert texts + ([t] + r.texts) == (texts + [t]) + r.texts; }
  }

  lemma SliceNothing(out: string, s: string, p: nat)
    requires p <= |s|
    ensures out + s[p..p] == out && out + [] == out
  {
  }

  lemma SlicePush(out: string, s: string, start: nat, p: nat)
    requires start <= p < |s|
    ensures (out + s[start..p]) + [s[p]] == out + s[start..p + 1]
  {
  }

  /** One turn of the loop over the text. */
  lemma AtCursor(x: Setup, s: string, p: nat, token: bool, args: seq<string>, counts: Counts, made: string)
    requires p <= |s| && |counts| == |x.vars|
    ensures p < |s| && s[p] == '$' ==>
      (var d := Dollar(x, s[p + 1..], args, counts);
       Expand(x, s[p..], token, args, counts)
         == if d.Stop? then d else Prefix(d.text, Expand(x, d.rest, token, args, counts)))
    ensures p == |s| || (s[p] != '$' && token && !TokenChar(s[p])) ==>
      Expand(x, s[p..], token, args, counts) == Made([], s[p..])
    ensures p < |s| && s[p] != '$' && (!token || TokenChar(s[p])) ==>
      Prefix(made, Expand(x, s[p..], token, args, counts))
        == Prefix(made + [s[p]], Expand(x, s[p + 1..], token, args, counts))
  {
    if p < |s| {
      assert s[p..][1..] == s[p + 1..];
      PrefixTwice(made, [s[p]], Expand(x, s[p + 1..], token, args, counts));
    }
  }
}
