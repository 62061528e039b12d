/** Blank lines and line numbers: the options -B and -b. */
module UnifdefBlanks {
  import opened UnifdefTable
  import opened UnifdefPreserves

  /** Each line of the output is a newline, or some form of the input line of the same number. */
  predicate InPlace(ls: seq<Line>, out: seq<OutLine>) {
    |out| == |ls| && forall i :: 0 <= i < |ls| ==> out[i].Newline? || out[i].line == ls[i]
  }

  lemma InPlaceSnoc(ls: seq<Line>, out: seq<OutLine>, l: Line, x: OutLine)
    requires InPlace(ls, out) && (x.Newline? || x.line == l)
    ensures InPlace(ls + [l], out + [x])
  {
  }

  lemma FormLine(w: Write, l: Line)
    ensures FormOf(w, l).Newline? || FormOf(w, l).line == l
  {
  }

  lemma StepInPlace(m: Machine, o: Options, ls: seq<Line>)
    requires ls != [] && m.Valid() && InPlace(ls[..|ls| - 1], m.out) && o.lnBlank && !o.compBlank
    requires !ls[|ls| - 1].ty.Unevaluable? && Step(m, o, ls[|ls| - 1]).Next?
    ensures InPlace(ls, Step(m, o, ls[|ls| - 1]).m.out)
  {
    var before, l := ls[..|ls| - 1], ls[|ls| - 1];
    var w := StepWrite(m, o, l);
    StepOut(m, o, l);
    EachWritten(m, o, w, l);
    FormLine(w, l);
    InPlaceSnoc(before, m.out, l, FormOf(w, l));
    assert before + [l] == ls;
  }

  lemma ClassifiedParts(ls: seq<Line>)
    requires Classified(ls) && ls != []
    ensures Classified(ls[..|ls| - 1]) && !ls[|ls| - 1].ty.Unevaluable?
  {
  }

  /** With -b and without -B every line keeps its number. */
  lemma {:induction false} NumbersKept(ls: seq<Line>, o: Options)
    requires Classified(ls) && o.lnBlank && !o.compBlank && Run(ls, o).Next?
    ensures InPlace(ls, Run(ls, o).m.out)
  {
    if ls != [] {
      ClassifiedParts(ls);
      NumbersKept(ls[..|ls| - 1], o);
      StepInPlace(Run(ls[..|ls| - 1], o).m, o, ls);
    }
  }

  lemma EachWritten(m: Machine, o: Options, w: Write, l: Line)
    requires o.lnBlank && !o.compBlank
    ensures Written(m, o, w, l).out == m.out + [FormOf(w, l)]
  {
  }

  // ----- blank lines around deleted ones -----

  predicate AllBlank(ls: seq<Line>) { forall i :: 0 <= i < |ls| ==> Blank(ls[i]) }

  /** Lines that are printed, or deleted, one after the other. */
  ghost function AfterAll(m: Machine, o: Options, w: Write, ls: seq<Line>): Machine {
    if ls == [] then m else Written(AfterAll(m, o, w, ls[..|ls| - 1]), o, w, ls[|ls| - 1])
  }

  function AsReads(ls: seq<Line>): seq<OutLine> {
    if ls == [] then [] else AsReads(ls[..|ls| - 1]) + [AsRead(ls[|ls| - 1])]
  }

  /** Nothing has been deleted since the last blank lines: all are printed, and counted. */
  lemma {:induction false} BlanksPrinted(m: Machine, o: Options, ls: seq<Line>)
    requires AllBlank(ls) && m.blankcount == m.blankmax
    ensures var m' := AfterAll(m, o, Keep, ls);
      m'.out == m.out + AsReads(ls) && m'.blankcount == m'.blankmax == m.blankcount + |ls|
  {
    if ls == [] {
      assert m.out + [] == m.out;
    } else {
      BlanksPrinted(m, o, ls[..|ls| - 1]);
      assert m.out + (AsReads(ls[..|ls| - 1]) + [AsRead(ls[|ls| - 1])])
          == m.out + AsReads(ls[..|ls| - 1]) + [AsRead(ls[|ls| - 1])];
    }
  }

  /** Deleting restarts the count and keeps what it is compared with. */
  lemma {:induction false} DeletionCounts(m: Machine, o: Options, ls: seq<Line>)
    requires ls != [] && !o.lnBlank
    ensures var m' := AfterAll(m, o, Delete, ls);
      m'.out == m.out && m'.blankcount == 0 && m'.blankmax == m.blankmax && m'.exitstat == 1
  {
    if |ls| > 1 { DeletionCounts(m, o, ls[..|ls| - 1]); } else { assert ls[..0] == []; }
  }

  /** Behind a deletion, with -B, as many blank lines go as were printed before it. */
  lemma {:induction false} BlanksDropped(m: Machine, o: Options, ls: seq<Line>)
    requires AllBlank(ls) && o.compBlank && m.blankcount == 0
    ensures var m' := AfterAll(m, o, Keep, ls);
      if |ls| <= m.blankmax then m'.out == m.out && m'.blankcount == |ls| && m'.blankmax == m.blankmax
      else m'.out == m.out + AsReads(ls[m.blankmax..]) && m'.blankcount == m'.blankmax == |ls|
  {
    if ls != [] {
      var before := ls[..|ls| - 1];
      BlanksDropped(m, o, before);
      if |ls| > m.blankmax {
        assert ls[m.blankmax..][..|ls| - m.blankmax - 1] == before[m.blankmax..];
        assert ls[m.blankmax..][|ls| - m.blankmax - 1] == ls[|ls| - 1];
        JoinBlanks(m.out, AsReads(before[m.blankmax..]), AsRead(ls[|ls| - 1]));
        if |before| == m.blankmax { assert before[m.blankmax..] == []; }
      }
    }
  }

  lemma JoinBlanks(out: seq<OutLine>, a: seq<OutLine>, x: OutLine)
    ensures out + (a + [x]) == out + a + [x] && out + ([] + [x]) == out + [x]
  {
  }

  /** With -B the blank lines around a deleted section become as many as there were on the longer side. */
  lemma BlanksAround(m: Machine, o: Options, above: seq<Line>, deleted: seq<Line>, below: seq<Line>)
    requires o.compBlank && !o.lnBlank && m.blankcount == m.blankmax == 0
    requires AllBlank(above) && deleted != [] && AllBlank(below)
    ensures var m' := AfterAll(AfterAll(AfterAll(m, o, Keep, above), o, Delete, deleted), o, Keep, below);
      m'.out == m.out + AsReads(above) + AsReads(if |below| <= |above| then [] else below[|above|..])
  {
    BlanksPrinted(m, o, above);
    var m1 := AfterAll(m, o, Keep, above);
    DeletionCounts(m1, o, deleted);
    BlanksDropped(AfterAll(m1, o, Delete, deleted), o, below);
    if |below| <= |above| { assert m1.out + [] == m1.out; }
  }

  /** A line with text in it starts the count anew on both sides. */
  lemma TextCounts(m: Machine, o: Options, w: Write, l: Line)
    requires !w.Delete? && !(w.Keep? && Blank(l))
    ensures var m' := Written(m, o, w, l); m'.blankcount == m'.blankmax == 0 && m'.out == m.out + [FormOf(w, l)]
  {
  }

  /** At the top of the file no blank line is dropped that nothing is deleted before. */
  lemma FreshCounts()
    ensures Init().blankcount == Init().blankmax
  {
  }
}
