/** The text side of macro references: matching parentheses, and splitting a clause at its commas. */
module MacroText {

  /** Open parentheses minus closed ones. */
  function Height(s: string): int {
    if s == [] then 0
    else Height(s[..|s| - 1]) + (if s[|s| - 1] == '(' then 1 else if s[|s| - 1] == ')' then -1 else 0)
  }

  lemma {:induction false} HeightAppend(a: string, b: string)
    ensures Height(a + b) == Height(a) + Height(b)
  {
    if b == [] {
      assert a + b == a;
    } else {
      assert (a + b)[..|a + b| - 1] == a + b[..|b| - 1];
      HeightAppend(a, b[..|b| - 1]);
    }
  }

  lemma HeightStep(s: string, p: nat)
    requires p < |s|
    ensures Height(s[..p + 1]) == Height(s[..p]) + (if s[p] == '(' then 1 else if s[p] == ')' then -1 else 0)
  {
    assert s[..p + 1][..p] == s[..p];
  }

  /** No prefix closes more than it opens. */
  predicate Level(s: string) {
    forall k :: 0 <= k <= |s| ==> Height(s[..k]) >= 0
  }

  predicate Balanced(s: string) { Level(s) && Height(s) == 0 }

  /** The first place where a parenthesis closes that the text did not open. */
  predicate ClosesAt(s: string, q: nat) {
    q < |s| && s[q] == ')' && Balanced(s[..q])
  }

  /** The end of the clause that the text starts with, or its length. */
  function Close(s: string, p: nat, nest: nat): (q: nat)
    requires p <= |s|
    ensures p <= q <= |s|
    decreases |s| - p
  {
    if p == |s| then p
    else if s[p] == '(' then Close(s, p + 1, nest + 1)
    else if s[p] == ')' then if nest == 0 then p else Close(s, p + 1, nest - 1)
    else Close(s, p + 1, nest)
  }

  lemma {:induction false} CloseExact(s: string, p: nat, nest: nat)
    requires p <= |s| && nest == Height(s[..p]) && forall k :: 0 <= k <= p ==> Height(s[..k]) >= 0
    ensures var q := Close(s, p, nest); q < |s| ==> ClosesAt(s, q)
    ensures Close(s, p, nest) == |s| ==> Level(s)
    decreases |s| - p
  {
    if p == |s| {
      assert s[..p] == s;
    } else {
      HeightStep(s, p);
      if s[p] == ')' && nest == 0 {
        assert forall k :: 0 <= k <= p ==> s[..p][..k] == s[..k];
      } else {
        CloseExact(s, p + 1, if s[p] == '(' then nest + 1 else if s[p] == ')' then nest - 1 else nest);
      }
    }
  }

  /** A text that goes on behind such a place is not level. */
  lemma ClosesBefore(s: string, q: nat, b: nat)
    requires ClosesAt(s, q) && q < b <= |s|
    ensures !Level(s[..b])
  {
    HeightStep(s, q);
    assert s[..b][..q + 1] == s[..q + 1];
    assert Height(s[..b][..q + 1]) == -1;
  }

  /** The clause is found exactly if there is one, and it is the right one. */
  lemma CloseFinds(s: string, q: nat)
    ensures ClosesAt(s, q) <==> q < |s| && Close(s, 0, 0) == q
  {
    assert s[..0] == [] && s[..|s|] == s;
    CloseExact(s, 0, 0);
    var r := Close(s, 0, 0);
    if ClosesAt(s, q) {
      if q < r { ClosesBefore(s, q, r); } else if r < q { ClosesBefore(s, r, q); }
    }
  }

  /** What is found does not depend on what stands behind it. */
  lemma {:induction false} CloseExtend(s: string, t: string, p: nat, nest: nat)
    requires p <= |s| && Close(s, p, nest) < |s|
    ensures Close(s + t, p, nest) == Close(s, p, nest)
    decreases |s| - p
  {
    if s[p] != ')' || nest != 0 {
      CloseExtend(s, t, p + 1, if s[p] == '(' then nest + 1 else if s[p] == ')' then nest - 1 else nest);
    }
  }

  // ----- commas -----

  /** The parts of a clause between the commas that stand outside parentheses; `prev` is the part begun. */
  function Split(s: string, nest: int, prev: string): (r: seq<string>)
    ensures r != []
    decreases |s|
  {
    if s == [] then [prev]
    else if nest == 0 && s[0] == ',' then [prev] + Split(s[1..], 0, [])
    else Split(s[1..], if s[0] == '(' then nest + 1 else if s[0] == ')' then nest - 1 else nest, prev + [s[0]])
  }

  /** The commas that stand outside parentheses. */
  function OuterCommas(s: string, nest: int): nat {
    if s == [] then 0
    else if nest == 0 && s[0] == ',' then 1 + OuterCommas(s[1..], 0)
    else OuterCommas(s[1..], if s[0] == '(' then nest + 1 else if s[0] == ')' then nest - 1 else nest)
  }

  lemma {:induction false} SplitCounts(s: string, nest: int, prev: string)
    ensures |Split(s, nest, prev)| == OuterCommas(s, nest) + 1
    decreases |s|
  {
    if s != [] {
      if nest == 0 && s[0] == ',' {
        SplitCounts(s[1..], 0, []);
      } else {
        SplitCounts(s[1..], if s[0] == '(' then nest + 1 else if s[0] == ')' then nest - 1 else nest, prev + [s[0]]);
      }
    }
  }

  function Commas(n: nat): string { if n == 0 then "" else "," + Commas(n - 1) }

  lemma {:induction false} CommasOuter(n: nat)
    ensures OuterCommas(Commas(n), 0) == n
  {
    if n > 0 {
      CommasOuter(n - 1);
      assert Commas(n)[1..] == Commas(n - 1);
    }
  }

  function Joined(parts: seq<string>): string
    requires parts != []
  {
    if |parts| == 1 then parts[0] else parts[0] + [','] + Joined(parts[1..])
  }

  /** Nothing is lost: the parts, with their commas, are the clause. */
  lemma {:induction false} SplitJoins(s: string, nest: int, prev: string)
    ensures Joined(Split(s, nest, prev)) == prev + s
    decreases |s|
  {
    if s == [] {
      assert prev + s == prev;
    } else if nest == 0 && s[0] == ',' {
      SplitJoins(s[1..], 0, []);
      var r := Split(s[1..], 0, []);
      assert ([prev] + r)[1..] == r;
      assert [] + s[1..] == s[1..];
      assert prev + s == prev + [','] + s[1..];
    } else {
      SplitJoins(s[1..], if s[0] == '(' then nest + 1 else if s[0] == ')' then nest - 1 else nest, prev + [s[0]]);
      assert (prev + [s[0]]) + s[1..] == prev + s;
    }
  }

  /** A comma of a part is inside parentheses. */
  predicate NoTopComma(s: string) {
    forall k :: 0 <= k < |s| && s[k] == ',' ==> Height(s[..k]) != 0
  }

  lemma NoTopCommaStep(s: string, c: char)
    requires NoTopComma(s) && (c == ',' ==> Height(s) != 0)
    ensures NoTopComma(s + [c])
  {
    var t := s + [c];
    forall k | 0 <= k < |t| && t[k] == ',' ensures Height(t[..k]) != 0 {
      if k < |s| {
        assert t[..k] == s[..k] && t[k] == s[k];
      } else {
        assert t[..k] == s;
      }
    }
  }

  lemma LevelStep(s: string, c: char)
    requires Level(s) && (c == ')' ==> Height(s) > 0)
    ensures Level(s + [c]) && Height(s + [c]) == Height(s) + (if c == '(' then 1 else if c == ')' then -1 else 0)
  {
    var t := s + [c];
    HeightStep(t, |s|);
    assert t[..|s|] == s && t[..|t|] == t && s[..|s|] == s;
    forall k | 0 <= k <= |t| ensures Height(t[..k]) >= 0 {
      if k <= |s| { assert t[..k] == s[..k]; }
    }
  }

  predicate Parts(parts: seq<string>) {
    forall i :: 0 <= i < |parts| ==> Balanced(parts[i]) && NoTopComma(parts[i])
  }

  /** In a balanced clause every part is balanced, and is cut at all of its outer commas; the nesting count
      never falls below zero. */
  lemma {:induction false} SplitBalanced(s: string, nest: nat, prev: string)
    requires Level(prev) && Height(prev) == nest && NoTopComma(prev)
    requires forall k :: 0 <= k <= |s| ==> nest + Height(s[..k]) >= 0
    requires nest + Height(s) == 0
    ensures Parts(Split(s, nest, prev))
    decreases |s|
  {
    if s != [] {
      var c := s[0];
      HeightTail(s);
      assert s[..0] == [];
      assert s[..1] == [c];
      HeightStep(s, 0);
      assert nest + Height(s[..1]) >= 0;
      if nest == 0 && c == ',' {
        assert NoTopComma([]) && Level([]);
        SplitBalanced(s[1..], 0, []);
      } else {
        LevelStep(prev, c);
        NoTopCommaStep(prev, c);
        SplitBalanced(s[1..], if c == '(' then nest + 1 else if c == ')' then nest - 1 else nest, prev + [c]);
      }
    }
  }

  lemma HeightTail(s: string)
    requires s != []
    ensures forall k :: 0 <= k <= |s| - 1 ==> Height(s[1..][..k]) == Height(s[..k + 1]) - Height(s[..1])
    ensures Height(s) == Height(s[..1]) + Height(s[1..])
  {
    forall k | 0 <= k <= |s| - 1 ensures Height(s[1..][..k]) == Height(s[..k + 1]) - Height(s[..1]) {
      assert s[..k + 1] == s[..1] + s[1..][..k];
      HeightAppend(s[..1], s[1..][..k]);
    }
    assert s == s[..1] + s[1..];
    HeightAppend(s[..1], s[1..]);
  }

  /** No part is longer than the clause. */
  lemma {:induction false} SplitShort(s: string, nest: int, prev: string)
    ensures forall i :: 0 <= i < |Split(s, nest, prev)| ==> |Split(s, nest, prev)[i]| <= |prev| + |s|
    decreases |s|
  {
    if s == [] {
    } else if nest == 0 && s[0] == ',' {
      SplitShort(s[1..], 0, []);
    } else {
      SplitShort(s[1..], if s[0] == '(' then nest + 1 else if s[0] == ')' then nest - 1 else nest, prev + [s[0]]);
    }
  }

  /** The parts of a clause that was cut out at its closing parenthesis. */
  lemma ClauseParts(s: string, q: nat)
    requires ClosesAt(s, q)
    ensures Parts(Split(s[..q], 0, [])) && Joined(Split(s[..q], 0, [])) == s[..q]
  {
    assert Level([]) && NoTopComma([]);
    SplitBalanced(s[..q], 0, []);
    SplitJoins(s[..q], 0, []);
    assert [] + s[..q] == s[..q];
  }
}
