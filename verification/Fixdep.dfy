/** fixdep: the scan over a file for CONFIG_ words, and the hash table of the names already printed. */
module Fixdep {
  import opened FixdepNames

  const HASHSZ: nat := 256

  /** A chain of the table; new items go in front. */
  datatype Chain = End | Item(name: string, hash: nat, next: Chain)

  predicate InChain(c: Chain, name: string) {
    c.Item? && (c.name == name || InChain(c.next, name))
  }

  predicate Hashed(c: Chain, hash: string -> nat) {
    c.Item? ==> c.hash == hash(c.name) && Hashed(c.next, hash)
  }

  class Scanner {
    /** strhash; nothing depends on what it computes. */
    const hash: string -> nat
    const hashtab: array<Chain>
    var printed: seq<string>

    constructor (hash: string -> nat)
      ensures this.hash == hash && Valid() && printed == [] && fresh(hashtab)
    {
      this.hash := hash;
      hashtab := new Chain[HASHSZ](_ => End);
      printed := [];
    }

    /** Each printed name is in the chain of its hash value, and nothing else is in the table. */
    ghost predicate Valid()
      reads this, hashtab
    {
      && hashtab.Length == HASHSZ
      && (forall b :: 0 <= b < HASHSZ ==> Hashed(hashtab[b], hash))
      && (forall b, name :: 0 <= b < HASHSZ ==>
            (InChain(hashtab[b], name) <==> name in printed && hash(name) % HASHSZ == b))
    }

    method IsDefinedConfig(name: string, h: nat) returns (found: bool)
      requires Valid() && h == hash(name)
      ensures found <==> name in printed
    {
      var aux := hashtab[h % HASHSZ];
      while aux.Item?
        invariant Hashed(aux, hash) && (InChain(aux, name) <==> name in printed)
        decreases aux
      {
        if aux.hash == h && aux.name == name { return true; }
        aux := aux.next;
      }
      return false;
    }

    method UseConfig(name: string)
      requires Valid()
      modifies this, hashtab
      ensures Valid() && printed == if name in old(printed) then old(printed) else old(printed) + [name]
    {
      var h := hash(name);
      var found := IsDefinedConfig(name, h);
      if found { return; }
      hashtab[h % HASHSZ] := Item(name, h, hashtab[h % HASHSZ]);
      printed := printed + [name];
    }

    /** The names before a position have been used; a run that is under way there has been dealt with. */
    ghost predicate Scanned(s: string, p: nat, before: seq<string>, names: seq<string>)
      reads this, hashtab
    {
      && Valid() && p <= |s| && printed == FirstUses(names)
      && names + NamesFrom(s, p) == before + Names(s)
    }

    method ParseConfigFile(s: string, ghost before: seq<string>)
      requires Valid() && printed == FirstUses(before)
      modifies this, hashtab
      ensures Valid() && printed == FirstUses(before + Names(s))
    {
      ghost var names := before;
      var p := 0;
      assert s[0..] == s;
      while true
        invariant Scanned(s, p, before, names)
        decreases |s| - p
      {
        ghost var from := p;
        p := StrStr(s, p);
        NoneBetween(s, from, p);
        if p == |s| { break; }
        if p > 0 && Ident(s[p - 1]) {
          ConfigIdent(s, p);
          RunGoesOn(s, p, p + |CONFIG|);
          p := p + |CONFIG|;
          continue;
        }
        p, names := UseRun(s, p, before, names);
      }
      assert NamesFrom(s, |s|) == [];
      assert names + [] == names;
    }

    /** A word that begins with CONFIG_ is taken to its end, and the name that it mentions is used. */
    method UseRun(s: string, at: nat, ghost before: seq<string>, ghost names: seq<string>)
      returns (q: nat, ghost names': seq<string>)
      requires Scanned(s, at, before, names)
      requires At(s, at) && (at == 0 || !Ident(s[at - 1]))
      modifies this, hashtab
      ensures at < q && Scanned(s, q, before, names')
    {
      var p := at + |CONFIG|;
      q := RunEnd(s, p);
      names' := names + NameOf(s[at..q]);
      RunTaken(s, at, q, before, names);
      UseWord(s, at, q, names);
    }

    /** The name in a run, if there is one: a module suffix is cut off first. */
    method UseWord(s: string, at: nat, q: nat, ghost names: seq<string>)
      requires Valid() && printed == FirstUses(names) && At(s, at) && at + |CONFIG| <= q <= |s|
      modifies this, hashtab
      ensures Valid() && printed == FirstUses(names + NameOf(s[at..q]))
    {
      var p, r := at + |CONFIG|, q;
      if EndsWith(s[p..q], MODULE) { r := q - |MODULE|; }
      NameAt(s, at, q, r);
      WithNameStep(names, s[p..r]);
      if r > p { UseConfig(s[p..r]); }
    }

    /** Any number of files, one after the other. */
    method ParseFiles(files: seq<string>)
      requires Valid() && printed == []
      modifies this, hashtab
      ensures printed == FirstUses(AllNames(files))
    {
      var i := 0;
      while i < |files|
        invariant i <= |files| && Valid() && printed == FirstUses(AllNames(files[..i]))
      {
        assert files[..i + 1][..i] == files[..i];
        ParseConfigFile(files[i], AllNames(files[..i]));
        i := i + 1;
      }
      assert files[..i] == files;
    }
  }

  // ----- the scan -----

  /** CONFIG_ stands at this place. */
  predicate At(s: string, p: nat) {
    p + |CONFIG| <= |s| && s[p..p + |CONFIG|] == CONFIG
  }

  /** strstr: the next place, or the end. */
  method StrStr(s: string, from: nat) returns (p: nat)
    requires from <= |s|
    ensures from <= p <= |s| && (p < |s| ==> At(s, p)) && forall k :: from <= k < p ==> !At(s, k)
  {
    p := from;
    while p < |s| && !(CONFIG <= s[p..])
      invariant from <= p <= |s| && forall k :: from <= k < p ==> !At(s, k)
    {
      AtPrefix(s, p);
      p := p + 1;
    }
    if p < |s| { AtPrefix(s, p); }
  }

  method RunEnd(s: string, from: nat) returns (q: nat)
    requires from <= |s|
    ensures from <= q <= |s| && (forall k :: from <= k < q ==> Ident(s[k])) && (q < |s| ==> !Ident(s[q]))
  {
    q := from;
    while q < |s| && Ident(s[q])
      invariant from <= q <= |s| && forall k :: from <= k < q ==> Ident(s[k])
    {
      q := q + 1;
    }
  }

  lemma AtPrefix(s: string, p: nat)
    requires p <= |s|
    ensures At(s, p) <==> CONFIG <= s[p..]
  {
    if p + |CONFIG| <= |s| { assert s[p..][..|CONFIG|] == s[p..p + |CONFIG|]; }
  }

  /** The names of the words that begin at a position or behind it. */
  function NamesFrom(s: string, p: nat): seq<string>
    requires p <= |s|
  {
    if p > 0 && Ident(s[p - 1]) then Names(s[p..][RunLength(s[p..])..]) else Names(s[p..])
  }

  /** Where CONFIG_ does not stand, no name begins. */
  lemma NoneAt(s: string, p: nat)
    requires p < |s| && !At(s, p)
    ensures NamesFrom(s, p) == NamesFrom(s, p + 1)
  {
    var t, u := s[p..], s[p + 1..];
    assert t[1..] == u;
    if Ident(s[p]) {
      assert t[RunLength(t)..] == u[RunLength(u)..];
      AtPrefix(s, p);
      assert t[..RunLength(t)] <= t;
    } else {
      assert t[0..] == t;
    }
  }

  lemma {:induction false} NoneBetween(s: string, p: nat, q: nat)
    requires p <= q <= |s| && forall k :: p <= k < q ==> !At(s, k)
    ensures NamesFrom(s, p) == NamesFrom(s, q)
    decreases q - p
  {
    if p < q {
      NoneAt(s, p);
      NoneBetween(s, p + 1, q);
    }
  }

  /** Inside a run nothing begins, wherever CONFIG_ stands. */
  lemma {:induction false} RunGoesOn(s: string, p: nat, q: nat)
    requires 0 < p <= q <= |s| && Ident(s[p - 1]) && forall k :: p <= k < q ==> Ident(s[k])
    ensures NamesFrom(s, p) == NamesFrom(s, q)
    decreases q - p
  {
    if p < q {
      var t, u := s[p..], s[p + 1..];
      assert t[1..] == u && t[RunLength(t)..] == u[RunLength(u)..];
      RunGoesOn(s, p + 1, q);
    }
  }

  lemma ConfigIdent(s: string, p: nat)
    requires At(s, p)
    ensures forall k :: p <= k < p + |CONFIG| ==> Ident(s[k])
  {
    forall k | p <= k < p + |CONFIG| ensures Ident(s[k]) {
      assert s[k] == s[p..p + |CONFIG|][k - p] == CONFIG[k - p];
    }
  }

  /** The word that begins where CONFIG_ does. */
  lemma WordAt(s: string, at: nat, q: nat)
    requires At(s, at) && (at == 0 || !Ident(s[at - 1])) && at + |CONFIG| <= q <= |s|
    requires (forall k :: at + |CONFIG| <= k < q ==> Ident(s[k])) && (q < |s| ==> !Ident(s[q]))
    ensures NamesFrom(s, at) == NameOf(s[at..q]) + NamesFrom(s, q)
  {
    ConfigIdent(s, at);
    var t, n := s[at..], q - at;
    assert forall k :: 0 <= k < n ==> t[k] == s[at + k];
    RunLengthIs(t, n);
    assert t[..n] == s[at..q] && t[n..] == s[q..];
    assert Ident(s[q - 1]) && s[q..][0..] == s[q..];
  }

  lemma {:induction false} RunLengthIs(t: string, n: nat)
    requires n <= |t| && (forall k :: 0 <= k < n ==> Ident(t[k])) && (n < |t| ==> !Ident(t[n]))
    ensures RunLength(t) == n
  {
    if n > 0 { RunLengthIs(t[1..], n - 1); }
  }

  /** The name of that word, as the scan cuts it out. */
  lemma NameAt(s: string, at: nat, q: nat, r: int)
    requires At(s, at) && at + |CONFIG| <= q <= |s|
    requires r == if EndsWith(s[at + |CONFIG|..q], MODULE) then q - |MODULE| else q
    ensures at + |CONFIG| <= r && NameOf(s[at..q]) == Named(s[at + |CONFIG|..r])
  {
    var word, w := s[at..q], s[at + |CONFIG|..q];
    assert word[..|CONFIG|] == CONFIG && word[|CONFIG|..] == w;
    if EndsWith(w, MODULE) { assert w[..|w| - |MODULE|] == s[at + |CONFIG|..r]; }
  }

  /** The list with one more name, unless that is in it or empty. */
  function WithName(used: seq<string>, name: string): seq<string> {
    if name == "" || name in used then used else used + [name]
  }

  lemma WithNameStep(names: seq<string>, name: string)
    ensures FirstUses(names + Named(name)) == WithName(FirstUses(names), name)
  {
    if name == "" { assert names + [] == names; } else { FirstUsesStep(names, name); }
  }

  /** What a whole run adds to the names used so far. */
  lemma RunTaken(s: string, at: nat, q: nat, before: seq<string>, names: seq<string>)
    requires At(s, at) && (at == 0 || !Ident(s[at - 1])) && at + |CONFIG| <= q <= |s|
    requires (forall k :: at + |CONFIG| <= k < q ==> Ident(s[k])) && (q < |s| ==> !Ident(s[q]))
    requires names + NamesFrom(s, at) == before + Names(s)
    ensures (names + NameOf(s[at..q])) + NamesFrom(s, q) == before + Names(s)
  {
    WordAt(s, at, q);
    Regroup(names, NameOf(s[at..q]), NamesFrom(s, q));
  }

  lemma FirstUsesStep(names: seq<string>, name: string)
    ensures FirstUses(names + [name])
      == if name in FirstUses(names) then FirstUses(names) else FirstUses(names) + [name]
  {
    assert (names + [name])[..|names|] == names;
    FirstUsesSame(names, name);
  }

  lemma Regroup(a: seq<string>, b: seq<string>, c: seq<string>)
    ensures (a + b) + c == a + (b + c)
  {
  }
}
