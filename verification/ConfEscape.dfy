/** String values in configuration files: quoting, and taking the quotes off again in place. */
module ConfEscape {

  const NUL: char := '\0'

  predicate Special(c: char) { c == '"' || c == '\\' }

  /** A backslash before each quote and backslash. */
  function Escape(s: string): string {
    if s == [] then []
    else if Special(s[0]) then ['\\', s[0]] + Escape(s[1..])
    else [s[0]] + Escape(s[1..])
  }

  function Quoted(s: string): string { "\"" + Escape(s) + "\"" }

  /** The text before the first quote without a backslash, each backslash standing for the character behind
      it; Cut if there is no such quote. */
  datatype Quote = Cut | Whole(text: string)

  function Unescape(s: string): Quote {
    if s == [] then Cut
    else if s[0] == '"' then Whole([])
    else if s[0] != '\\' then Prepend([s[0]], Unescape(s[1..]))
    else if |s| == 1 then Cut
    else Prepend([s[1]], Unescape(s[2..]))
  }

  function Prepend(p: string, t: Quote): Quote {
    if t.Cut? then Cut else Whole(p + t.text)
  }

  lemma UnescapeStep(c: char, t: string)
    ensures Unescape(['\\', c] + t) == Prepend([c], Unescape(t))
    ensures !Special(c) ==> Unescape([c] + t) == Prepend([c], Unescape(t))
  {
    assert (['\\', c] + t)[2..] == t;
    assert ([c] + t)[1..] == t;
  }

  /** Reading back what was escaped gives the text, whatever stands behind the closing quote. */
  lemma {:induction false} UnescapeEscape(s: string, rest: string)
    ensures Unescape(Escape(s) + ("\"" + rest)) == Whole(s)
  {
    if s == [] {
      assert Escape(s) + ("\"" + rest) == "\"" + rest;
    } else {
      UnescapeEscape(s[1..], rest);
      var tail := Escape(s[1..]) + ("\"" + rest);
      UnescapeStep(s[0], tail);
      EscapeFirst(s, "\"" + rest);
    }
  }

  lemma EscapeFirst(s: string, t: string)
    requires s != []
    ensures Escape(s) + t
      == if Special(s[0]) then ['\\', s[0]] + (Escape(s[1..]) + t) else [s[0]] + (Escape(s[1..]) + t)
  {
  }

  /** Text cut off inside the quotes is never taken for a whole one. */
  lemma {:induction false} UnescapeCut(s: string, n: nat)
    requires n <= |Escape(s)|
    ensures Unescape(Escape(s)[..n]) == Cut
  {
    if s != [] && n > 0 {
      var rest := Escape(s[1..]);
      if Special(s[0]) {
        if n >= 2 {
          UnescapeCut(s[1..], n - 2);
          assert Escape(s)[..n] == ['\\', s[0]] + rest[..n - 2];
          assert Escape(s)[..n][2..] == rest[..n - 2];
        }
      } else {
        UnescapeCut(s[1..], n - 1);
        assert Escape(s)[..n] == [s[0]] + rest[..n - 1];
        assert Escape(s)[..n][1..] == rest[..n - 1];
      }
    }
  }

  lemma {:induction false} EscapeAppend(a: string, b: string)
    ensures Escape(a + b) == Escape(a) + Escape(b)
  {
    if a == [] {
      assert a + b == b;
    } else {
      assert (a + b)[1..] == a[1..] + b;
      EscapeAppend(a[1..], b);
    }
  }

  /** How many characters need a backslash. */
  function Specials(s: string): nat {
    if s == [] then 0 else (if Special(s[0]) then 1 else 0) + Specials(s[1..])
  }

  lemma {:induction false} EscapeLength(s: string)
    ensures |Escape(s)| == |s| + Specials(s)
  {
    if s != [] { EscapeLength(s[1..]); }
  }

  /** strcspn: the length of the first stretch without quotes and backslashes. */
  function Span(s: string): (l: nat)
    ensures l <= |s| && (forall k :: 0 <= k < l ==> !Special(s[k])) && (l < |s| ==> Special(s[l]))
  {
    if s == [] || Special(s[0]) then 0 else 1 + Span(s[1..])
  }

  lemma {:induction false} SpanPlain(s: string, l: nat)
    requires l <= |s| && forall k :: 0 <= k < l ==> !Special(s[k])
    ensures Escape(s[..l]) == s[..l] && Escape(s) == s[..l] + Escape(s[l..]) && Specials(s) == Specials(s[l..])
  {
    if l > 0 {
      SpanPlain(s[1..], l - 1);
      assert s[..l] == [s[0]] + s[1..][..l - 1];
      assert s[..l][1..] == s[1..][..l - 1] && s[1..][l - 1..] == s[l..];
    } else {
      assert s[l..] == s && s[..l] == [];
    }
  }

  /** A text in a buffer, with its closing NUL. */
  predicate Buffered(b: array<char>, start: nat, s: string)
    reads b
  {
    && start + |s| < b.Length && b[start + |s|] == NUL
    && forall i :: 0 <= i < |s| ==> b[start + i] == s[i] && s[i] != NUL
  }

  /** strcat and strncat: `s` is written behind the `len` characters already there. */
  method Append(b: array<char>, len: nat, s: string)
    requires len + |s| < b.Length
    modifies b
    ensures b[..len + |s|] == old(b[..len]) + s && b[len + |s|] == NUL
  {
    var k := 0;
    while k < |s|
      invariant 0 <= k <= |s| && b[..len] == old(b[..len]) && b[len..len + k] == s[..k]
    {
      b[len + k] := s[k];
      k := k + 1;
    }
    b[len + |s|] := NUL;
    assert b[..len + |s|] == b[..len] + b[len..len + |s|];
  }

  /** One stretch of plain characters, and the special character behind it. */
  lemma Stretch(s: string, p: nat)
    requires p <= |s|
    ensures var l := Span(s[p..]);
      && p + l <= |s|
      && (p + l == |s| ==> Escape(s[p..]) == s[p..p + l] && Specials(s[p..]) == 0)
      && (p + l < |s| ==>
            && Special(s[p + l]) && Specials(s[p..]) == 1 + Specials(s[p + l + 1..])
            && Escape(s[p..]) == s[p..p + l] + ['\\', s[p + l]] + Escape(s[p + l + 1..]))
  {
    var t := s[p..];
    var l := Span(t);
    SpanPlain(t, l);
    assert t[..l] == s[p..p + l] && t[l..] == s[p + l..];
    if p + l < |s| {
      assert t[l] == s[p + l] && s[p + l..][1..] == s[p + l + 1..];
    }
  }

  /** The first pass of the escaping: the size of the buffer. */
  method EscapedSize(s: string) returns (size: nat)
    ensures size == |Quoted(s)| + 1
  {
    size := |s| + 2 + 1;
    var p := 0;
    while true
      invariant 0 <= p <= |s| && size + Specials(s[p..]) == |s| + Specials(s) + 3
      decreases |s| - p
    {
      Stretch(s, p);
      p := p + Span(s[p..]);
      if p == |s| { break; }
      size := size + 1;
      p := p + 1;
    }
    EscapeLength(s);
  }

  lemma EscapePrefix(s: string, p: nat)
    requires p <= |s|
    ensures Escape(s) == Escape(s[..p]) + Escape(s[p..])
  {
    assert s == s[..p] + s[p..];
    EscapeAppend(s[..p], s[p..]);
  }

  lemma EscapeNext(s: string, p: nat)
    requires p < |s| && Special(s[p])
    ensures Escape(s[..p + 1]) == Escape(s[..p]) + ['\\', s[p]]
  {
    assert s[..p + 1] == s[..p] + [s[p]];
    EscapeAppend(s[..p], [s[p]]);
    EscapeFirst([s[p]], []);
  }

  /** The opening quote and the first `p` characters, escaped, are in a buffer of the right size. */
  predicate Written(res: array<char>, len: nat, s: string, p: nat)
    reads res
  {
    && p <= |s| && len == 1 + |Escape(s[..p])| && len < res.Length == |Quoted(s)| + 1
    && res[..len] == "\"" + Escape(s[..p])
  }

  /** Plain characters are copied, a special one gets its backslash. */
  lemma StretchEscape(s: string, p: nat)
    requires p <= |s|
    ensures var l := Span(s[p..]);
      && p + l <= |s| && (p + l < |s| ==> Special(s[p + l]))
      && Escape(s[..p + l]) == Escape(s[..p]) + s[p..p + l]
      && |Escape(s[..p + l])| <= |Escape(s)|
  {
    var l := Span(s[p..]);
    EscapePrefix(s, p + l);
    assert s[..p + l] == s[..p] + s[p..p + l];
    EscapeAppend(s[..p], s[p..p + l]);
    SpanPlain(s[p..], l);
    assert s[p..][..l] == s[p..p + l];
  }

  /** One stretch of plain characters of the text goes into the buffer. */
  method AppendStretch(res: array<char>, len: nat, s: string, p: nat) returns (l: nat)
    requires Written(res, len, s, p)
    modifies res
    ensures l == Span(s[p..]) && p + l <= |s| && (p + l < |s| ==> Special(s[p + l]))
    ensures Written(res, len + l, s, p + l)
  {
    StretchEscape(s, p);
    l := Span(s[p..]);
    Append(res, len, s[p..p + l]);
  }

  /** A backslash, and the special character behind it. */
  method AppendSpecial(res: array<char>, len: nat, s: string, p: nat)
    requires Written(res, len, s, p) && p < |s| && Special(s[p])
    modifies res
    ensures Written(res, len + 2, s, p + 1)
  {
    EscapeNext(s, p);
    EscapePrefix(s, p + 1);
    Append(res, len, "\\");
    Append(res, len + 1, [s[p]]);
    assert res[..len + 2] == ("\"" + Escape(s[..p])) + "\\" + [s[p]];
  }

  /** Escaping in two passes: the text and its NUL exactly fill the buffer whose size the first pass found. */
  method EscapeStringValue(s: string) returns (res: array<char>)
    requires NUL !in s
    ensures fresh(res) && res.Length == |Quoted(s)| + 1 && Buffered(res, 0, Quoted(s))
  {
    var size := EscapedSize(s);
    res := new char[size];
    res[0] := NUL;
    Append(res, 0, "\"");
    var p, len := 0, 1;
    while true
      invariant 0 <= p && Written(res, len, s, p)
      decreases |s| - p
    {
      var l := AppendStretch(res, len, s, p);
      len, p := len + l, p + l;
      if p == |s| { break; }
      AppendSpecial(res, len, s, p);
      len, p := len + 2, p + 1;
    }
    assert s[..p] == s;
    Append(res, len, "\"");
    EscapeClean(s);
    assert res[..len + 1] == Quoted(s);
    assert forall i :: 0 <= i < |Quoted(s)| ==> res[i] == res[..len + 1][i];
  }

  lemma {:induction false} EscapeClean(s: string)
    requires NUL !in s
    ensures NUL !in Escape(s)
  {
    if s != [] { EscapeClean(s[1..]); }
  }

  /** The loop that takes the backslashes out of a buffer, moving the rest of the text down each time, and
      puts a NUL over the closing quote.  A backslash at the very end leaves nothing to find behind it. */
  method UnescapeInPlace(b: array<char>, start: nat, ghost s: string) returns (found: bool)
    requires Buffered(b, start, s)
    modifies b
    ensures forall i :: 0 <= i < start ==> b[i] == old(b[i])
    ensures found <==> Unescape(s).Whole?
    ensures found ==> Buffered(b, start, Unescape(s).text)
  {
    var p: nat := start;
    ghost var todo := s;
    ghost var done: string := [];
    while true
      invariant Reading(b, start, p, done, todo) && forall i :: 0 <= i < start ==> b[i] == old(b[i])
      invariant Unescape(s) == Prepend(done, Unescape(todo))
      decreases |todo|
    {
      SpanUnescape(todo, done);
      p, done, todo := NextSpecial(b, start, p, done, todo);
      AtSpecial(todo, done);
      if b[p] == NUL { return false; }
      if b[p] == '"' {
        CutAt(b, start, p, done, todo);
        return true;
      }
      var more := Unbackslash(b, start, p, done, todo);
      if !more { return false; }
      done, todo := done + [todo[1]], todo[2..];
      p := p + 1;
    }
  }

  /** The backslash goes, and the character behind it stays, if there is one. */
  method Unbackslash(b: array<char>, start: nat, p: nat, ghost done: string, ghost todo: string) returns (more: bool)
    requires Reading(b, start, p, done, todo) && todo != []
    modifies b
    ensures forall i :: 0 <= i < start ==> b[i] == old(b[i])
    ensures more <==> |todo| > 1
    ensures more ==> Reading(b, start, p + 1, done + [todo[1]], todo[2..])
  {
    MoveDown(b, start, p, done, todo);
    more := b[p] != NUL;
    if |todo| > 1 {
      PassOne(b, start, p, done, todo[1..]);
      assert todo[1..][1..] == todo[2..];
    }
  }

  /** *p = 0, over the closing quote. */
  method CutAt(b: array<char>, start: nat, p: nat, ghost done: string, ghost todo: string)
    requires Reading(b, start, p, done, todo)
    modifies b
    ensures forall i :: 0 <= i < start ==> b[i] == old(b[i])
    ensures Buffered(b, start, done)
  {
    b[p] := NUL;
  }

  lemma AtSpecial(s: string, done: string)
    ensures s != [] && s[0] == '"' ==> Prepend(done, Unescape(s)) == Whole(done)
    ensures |s| > 1 && s[0] == '\\' ==>
      Prepend(done, Unescape(s)) == Prepend(done + [s[1]], Unescape(s[2..])) && s[1..][1..] == s[2..]
  {
    if |s| > 1 { PrependTwice(done, [s[1]], Unescape(s[2..])); }
    assert done + [] == done;
  }

  /** The buffer while it is being read: what is finished, and, from `p` on, what is still to be looked at. */
  predicate Reading(b: array<char>, start: nat, p: nat, done: string, todo: string)
    reads b
  {
    && start + |done| == p && Buffered(b, p, todo)
    && forall i :: 0 <= i < |done| ==> b[start + i] == done[i] && done[i] != NUL
  }

  lemma PassOne(b: array<char>, start: nat, p: nat, done: string, todo: string)
    requires Reading(b, start, p, done, todo) && todo != []
    ensures b[p] == todo[0] && b[p] != NUL && Reading(b, start, p + 1, done + [todo[0]], todo[1..])
  {
    assert b[p] == b[p + 0] == todo[0];
    forall i | 0 <= i < |todo[1..]| ensures b[p + 1 + i] == todo[1..][i] != NUL {
      assert b[p + (i + 1)] == todo[i + 1];
    }
  }

  lemma PrependTwice(a: string, b: string, t: Quote)
    ensures Prepend(a, Prepend(b, t)) == Prepend(a + b, t)
  {
    if t.Whole? { assert a + (b + t.text) == (a + b) + t.text; }
  }

  /** strpbrk: the next quote or backslash, or the end. */
  method NextSpecial(b: array<char>, start: nat, from: nat, ghost done: string, ghost s: string)
    returns (p: nat, ghost done': string, ghost todo: string)
    requires Reading(b, start, from, done, s)
    ensures done' == done + s[..Span(s)] && todo == s[Span(s)..] && Reading(b, start, p, done', todo)
  {
    p, done', todo := from, done, s;
    ghost var l := 0;
    assert done + s[..l] == done && s[l..] == s;
    while b[p] != NUL && !Special(b[p])
      invariant l <= |s| && Span(s) == l + Span(todo) && done' == done + s[..l] && todo == s[l..]
      invariant Reading(b, start, p, done', todo)
      decreases |s| - l
    {
      PassOne(b, start, p, done', todo);
      PassPart(done, s, l);
      p, l := p + 1, l + 1;
      done', todo := done + s[..l], s[l..];
    }
    if todo != [] { PassOne(b, start, p, done', todo); }
  }

  lemma PassPart(done: string, s: string, l: nat)
    requires l < |s|
    ensures (done + s[..l]) + [s[l]] == done + s[..l + 1] && s[l..][1..] == s[l + 1..]
    ensures !Special(s[l]) ==> Span(s[l..]) == 1 + Span(s[l + 1..])
  {
    assert s[l..][1..] == s[l + 1..];
  }

  lemma {:induction false} SpanUnescape(s: string, done: string)
    ensures Prepend(done, Unescape(s)) == Prepend(done + s[..Span(s)], Unescape(s[Span(s)..]))
  {
    if Span(s) > 0 {
      SpanUnescape(s[1..], done + [s[0]]);
      PrependTwice(done, [s[0]], Unescape(s[1..]));
      assert (done + [s[0]]) + s[1..][..Span(s) - 1] == done + s[..Span(s)];
      assert s[1..][Span(s) - 1..] == s[Span(s)..];
    } else {
      assert s[0..] == s && done + s[..0] == done;
    }
  }

  /** memmove(p, p + 1, strlen(p)). */
  method MoveDown(b: array<char>, start: nat, p: nat, ghost done: string, ghost s: string)
    requires Reading(b, start, p, done, s) && s != []
    modifies b
    ensures forall i :: 0 <= i < start ==> b[i] == old(b[i])
    ensures Reading(b, start, p, done, s[1..])
  {
    var k := p;
    ghost var n := p + |s|;
    while b[k] != NUL
      invariant p <= k <= n && b[n] == NUL
      invariant forall j :: 0 <= j < b.Length ==> b[j] == if p <= j < k then old(b[j + 1]) else old(b[j])
      invariant k < n ==> b[k] == s[k - p]
      decreases n - k
    {
      assert old(b[p + (k - p)]) == s[k - p];
      b[k] := b[k + 1];
      k := k + 1;
      assert k < n ==> old(b[p + (k - p)]) == s[k - p];
    }
    forall i | 0 <= i < |s[1..]| ensures b[p + i] == s[1..][i] {
      assert old(b[p + (i + 1)]) == s[i + 1];
    }
  }
}
