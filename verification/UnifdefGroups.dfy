/** The groups of a file: every well-nested file is read as one, and what unifdef leaves of it is known. */
module UnifdefGroups {
  import opened CppConditionals
  import opened UnifdefTable
  import opened UnifdefPreserves
  import opened UnifdefReduces

  datatype Reading = Broken | Whole(f: Forest, rest: seq<Line>)

  datatype ReadingMore = BrokenMore | WholeMore(b: Branches, rest: seq<Line>)

  predicate IsOpening(l: Line) { l.ty.Directive? && Opens(l.ty.kind) }

  predicate IsClosing(l: Line) { l.ty.Directive? && !Opens(l.ty.kind) }

  predicate IsEndif(l: Line) { l.ty.Directive? && l.ty.kind == Endif }

  predicate IsElse(l: Line) { l.ty.Directive? && l.ty.kind == Else }

  /** The file up to a line that belongs to a group around it. */
  function ReadForest(ls: seq<Line>): (r: Reading)
    ensures r.Whole? ==> |r.rest| <= |ls| && (r.rest == [] || IsClosing(r.rest[0]))
    decreases |ls|, 1
  {
    if ls == [] || IsClosing(ls[0]) then Whole(Nil, ls)
    else if !IsOpening(ls[0]) then
      var r := ReadForest(ls[1..]);
      if r.Broken? then Broken else Whole(TextThen(ls[0], r.f), r.rest)
    else
      var body := ReadForest(ls[1..]);
      if body.Broken? then Broken
      else
        var more := ReadBranches(body.rest);
        if more.BrokenMore? then Broken
        else
          var r := ReadForest(more.rest);
          if r.Broken? then Broken else Whole(GroupThen(ls[0], body.f, more.b, r.f), r.rest)
  }

  /** The rest of a group. */
  function ReadBranches(ls: seq<Line>): (r: ReadingMore)
    ensures r.WholeMore? ==> |r.rest| < |ls|
    decreases |ls|, 0
  {
    if ls == [] || !IsClosing(ls[0]) then BrokenMore
    else if IsEndif(ls[0]) then WholeMore(Close(ls[0]), ls[1..])
    else
      var body := ReadForest(ls[1..]);
      if body.Broken? then BrokenMore
      else if IsElse(ls[0]) then
        if body.rest != [] && IsEndif(body.rest[0])
        then WholeMore(ElseThen(ls[0], body.f, body.rest[0]), body.rest[1..])
        else BrokenMore
      else
        var more := ReadBranches(body.rest);
        if more.BrokenMore? then BrokenMore else WholeMore(ElifThen(ls[0], body.f, more.b), more.rest)
  }

  predicate NoneDodgy(ls: seq<Line>) { forall l :: l in ls && l.ty.Directive? ==> !l.ty.dodgy }

  predicate Ordinary(ls: seq<Line>) { Classified(ls) && NoneDodgy(ls) }

  lemma OrdinaryRest(ls: seq<Line>, k: nat)
    requires Ordinary(ls) && k <= |ls|
    ensures Ordinary(ls[k..])
  {
    forall l | l in ls[k..] ensures l in ls {}
  }

  lemma FirstLine(ls: seq<Line>)
    requires Ordinary(ls) && ls != []
    ensures ls == [ls[0]] + ls[1..] && Ordinary(ls[1..])
    ensures ls[0].ty.Plain? || (ls[0].ty.Directive? && !ls[0].ty.dodgy)
  {
    OrdinaryRest(ls, 1);
    assert ls[0] in ls;
  }

  /** What is read is the text of the groups, and they are well formed. */
  lemma {:induction false} ReadShows(ls: seq<Line>)
    requires Ordinary(ls) && ReadForest(ls).Whole?
    ensures var r := ReadForest(ls); Flat(r.f) + r.rest == ls && WellFormed(r.f) && Ordinary(r.rest)
    decreases |ls|, 1
  {
    if ls == [] || IsClosing(ls[0]) {
      assert [] + ls == ls;
    } else {
      FirstLine(ls);
      ReadShows(ls[1..]);
      var body := ReadForest(ls[1..]);
      if !IsOpening(ls[0]) {
        TextJoined(ls[0], body.f, body.rest);
      } else {
        BranchesShow(body.rest);
        var more := ReadBranches(body.rest);
        ReadShows(more.rest);
        var r := ReadForest(more.rest);
        GroupJoined(ls[0], body.f, more.b, r.f, r.rest);
      }
    }
  }

  lemma TextJoined(l: Line, f: Forest, rest: seq<Line>)
    ensures Flat(TextThen(l, f)) + rest == [l] + (Flat(f) + rest)
  {
    JoinThree([l], Flat(f), rest);
  }

  lemma GroupJoined(l: Line, body: Forest, more: Branches, f: Forest, rest: seq<Line>)
    ensures Flat(GroupThen(l, body, more, f)) + rest
      == [l] + (Flat(body) + (FlatMore(more) + (Flat(f) + rest)))
  {
    JoinThree(FlatMore(more), Flat(f), rest);
    JoinThree(Flat(body), FlatMore(more) + Flat(f), rest);
    JoinThree([l], Flat(body) + (FlatMore(more) + Flat(f)), rest);
  }

  lemma ElifJoined(l: Line, body: Forest, more: Branches, rest: seq<Line>)
    ensures FlatMore(ElifThen(l, body, more)) + rest == [l] + (Flat(body) + (FlatMore(more) + rest))
  {
    JoinThree(Flat(body), FlatMore(more), rest);
    JoinThree([l], Flat(body) + FlatMore(more), rest);
  }

  lemma ElseJoined(l: Line, body: Forest, e: Line, rest: seq<Line>)
    ensures FlatMore(ElseThen(l, body, e)) + rest == [l] + (Flat(body) + ([e] + rest))
  {
    JoinThree(Flat(body), [e], rest);
    JoinThree([l], Flat(body) + [e], rest);
  }

  lemma JoinThree(a: seq<Line>, b: seq<Line>, c: seq<Line>)
    ensures a + b + c == a + (b + c)
  {
  }

  lemma {:induction false} BranchesShow(ls: seq<Line>)
    requires Ordinary(ls) && ReadBranches(ls).WholeMore?
    ensures var r := ReadBranches(ls); FlatMore(r.b) + r.rest == ls && WellFormedMore(r.b) && Ordinary(r.rest)
    decreases |ls|, 0
  {
    FirstLine(ls);
    if !IsEndif(ls[0]) {
      ReadShows(ls[1..]);
      var body := ReadForest(ls[1..]);
      if IsElse(ls[0]) {
        FirstLine(body.rest);
        ElseJoined(ls[0], body.f, body.rest[0], body.rest[1..]);
      } else {
        BranchesShow(body.rest);
        var more := ReadBranches(body.rest);
        ElifJoined(ls[0], body.f, more.b, more.rest);
      }
    }
  }

  // ----- reading and the preprocessor -----

  /** The preprocessor on a stretch of lines. */
  ghost function CppOn(st: CppState, ls: seq<Line>, val: nat -> bool): CppState
    decreases |ls|
  {
    if ls == [] then st else CppOn(CppStep(st, Source(ls[0]), val, false), ls[1..], val)
  }

  lemma {:induction false} IllFormedStays(ls: seq<Line>, val: nat -> bool)
    ensures CppOn(IllFormed, ls, val) == IllFormed
    decreases |ls|
  {
    if ls != [] { IllFormedStays(ls[1..], val); }
  }

  lemma {:induction false} CppOnAppend(st: CppState, a: seq<Line>, b: seq<Line>, val: nat -> bool)
    ensures CppOn(st, a + b, val) == CppOn(CppOn(st, a, val), b, val)
    decreases |a|
  {
    if a == [] {
      assert a + b == b;
    } else {
      assert (a + b)[1..] == a[1..] + b;
      CppOnAppend(CppStep(st, Source(a[0]), val, false), a[1..], b, val);
    }
  }

  lemma {:induction false} CppRunIsOn(ls: seq<Line>, val: nat -> bool)
    ensures CppRun(Sources(ls), val, false) == CppOn(Cpp([], []), ls, val)
  {
    if ls != [] {
      var before, last := ls[..|ls| - 1], ls[|ls| - 1];
      CppRunIsOn(before, val);
      CppRunSnoc(Sources(before), Source(last), val, false);
      CppOnAppend(Cpp([], []), before, [last], val);
      assert before + [last] == ls;
    }
  }

  /** Not closed again: the lines are ill formed, or leave more groups open than there were. */
  predicate LeftOpen(st: CppState, n: nat) { st.Cpp? ==> |st.frames| > n }

  /** What is read leaves the open groups as they were; what is broken does not. */
  lemma {:induction false} ReadRuns(ls: seq<Line>, frames: seq<Frame>, picked: seq<nat>, val: nat -> bool)
    returns (p: seq<nat>)
    requires Classified(ls)
    ensures var st, r := CppOn(Cpp(frames, picked), ls, val), ReadForest(ls);
      if r.Broken? then LeftOpen(st, |frames|) else Classified(r.rest) && st == CppOn(Cpp(frames, p), r.rest, val)
    decreases |ls|, 1
  {
    p := picked;
    if ls != [] && !IsClosing(ls[0]) {
      ClassifiedRest(ls);
      assert ls[0] in ls;
      var st := CppStep(Cpp(frames, picked), Source(ls[0]), val, false);
      if !IsOpening(ls[0]) {
        p := ReadRuns(ls[1..], frames, st.picked, val);
      } else {
        var top := IfFrame(Active(frames), val(ls[0].id));
        p := ReadRuns(ls[1..], frames + [top], picked, val);
        var body := ReadForest(ls[1..]);
        if body.Whole? {
          p := BranchesRun(body.rest, frames, top, p, val);
          var more := ReadBranches(body.rest);
          if more.WholeMore? { p := ReadRuns(more.rest, frames, p, val); }
        }
      }
    }
  }

  lemma ClassifiedRest(ls: seq<Line>)
    requires Classified(ls) && ls != []
    ensures Classified(ls[1..])
  {
  }

  lemma {:induction false} BranchesRun(ls: seq<Line>, frames: seq<Frame>, top: Frame, picked: seq<nat>,
                                       val: nat -> bool)
    returns (p: seq<nat>)
    requires Classified(ls) && !top.sawElse && (ls == [] || IsClosing(ls[0]))
    ensures var st, r := CppOn(Cpp(frames + [top], picked), ls, val), ReadBranches(ls);
      if r.BrokenMore? then LeftOpen(st, |frames|) else Classified(r.rest) && st == CppOn(Cpp(frames, p), r.rest, val)
    decreases |ls|, 0
  {
    p := picked;
    assert Below(frames + [top]) == frames && Top(frames + [top]) == top;
    if ls != [] {
      ClassifiedRest(ls);
      if !IsEndif(ls[0]) {
        var next := if IsElse(ls[0]) then ElseFrame(top) else ElifFrame(top, val(ls[0].id));
        p := ReadRuns(ls[1..], frames + [next], picked, val);
        var body := ReadForest(ls[1..]);
        if body.Whole? {
          if IsElse(ls[0]) {
            ElseEnds(body.rest, frames, next, p, val);
          } else {
            p := BranchesRun(body.rest, frames, next, p, val);
          }
        }
      }
    }
  }

  lemma ElseEnds(ls: seq<Line>, frames: seq<Frame>, top: Frame, picked: seq<nat>, val: nat -> bool)
    requires Classified(ls) && top.sawElse && (ls == [] || IsClosing(ls[0]))
    ensures var st := CppOn(Cpp(frames + [top], picked), ls, val);
      if ls != [] && IsEndif(ls[0]) then Classified(ls[1..]) && st == CppOn(Cpp(frames, picked), ls[1..], val)
      else LeftOpen(st, |frames|)
  {
    assert Below(frames + [top]) == frames && Top(frames + [top]) == top;
    if ls != [] {
      ClassifiedRest(ls);
      if !IsEndif(ls[0]) { IllFormedStays(ls[1..], val); }
    }
  }

  /** The file is read to its end. */
  predicate Grouped(ls: seq<Line>) { ReadForest(ls).Whole? && ReadForest(ls).rest == [] }

  /** A file is well nested for the preprocessor exactly if it is read as groups to its end. */
  lemma WellNestedExactly(ls: seq<Line>, val: nat -> bool)
    requires Classified(ls)
    ensures Preprocess(Sources(ls), val, false).Selected? <==> Grouped(ls)
  {
    SelectedAtEnd(ls, val);
    var p := ReadRuns(ls, [], [], val);
    var r := ReadForest(ls);
    if r.Whole? && r.rest != [] { ClosingAlone(r.rest, p, val); }
  }

  lemma ClosingAlone(ls: seq<Line>, picked: seq<nat>, val: nat -> bool)
    requires ls != [] && IsClosing(ls[0])
    ensures CppOn(Cpp([], picked), ls, val).IllFormed?
  {
    IllFormedStays(ls[1..], val);
  }

  lemma SelectedAtEnd(ls: seq<Line>, val: nat -> bool)
    ensures var st := CppOn(Cpp([], []), ls, val);
      Preprocess(Sources(ls), val, false).Selected? <==> st.Cpp? && st.frames == []
  {
    CppRunIsOn(ls, val);
  }

  // ----- what is left of a file -----

  /** The output is what the definition keeps of the groups, and the exit status says whether that is less. */
  ghost predicate Reduced(ls: seq<Line>, m: Machine, o: Options) {
    && Grouped(ls) && Flat(ReadForest(ls).f) == ls && WellFormed(ReadForest(ls).f)
    && (forall kb | BlanksCount(o, kb) :: Shown(m.out, kb) == Shown(Kept(ReadForest(ls).f), kb))
    && m.exitstat == if |Kept(ReadForest(ls).f)| < |ls| then 1 else 0
  }

  /** Of a file without dodgy directives that unifdef accepts, it leaves exactly what the definition keeps. */
  lemma OutputReduced(ls: seq<Line>, o: Options, inComment: bool, val: nat -> bool)
    requires Ordinary(ls) && (forall l :: l in ls ==> Agrees(l, val))
    requires RunFile(ls, o, inComment).Exit?
    ensures Reduced(ls, RunFile(ls, o, inComment).m, o)
  {
    FilePreserved(ls, o, inComment, val, false);
    WellNestedExactly(ls, val);
    ReadShows(ls);
    var f := ReadForest(ls).f;
    assert Flat(f) + [] == Flat(f);
    RunBeforeEof(ls, o, inComment, val);
    forall kb | BlanksCount(o, kb) ensures Shown(RunFile(ls, o, inComment).m.out, kb) == Shown(Kept(f), kb) {
      FileKept(f, o, kb);
    }
    FileKept(f, o, false);
  }

  /** The end of the file adds nothing. */
  lemma RunBeforeEof(ls: seq<Line>, o: Options, inComment: bool, val: nat -> bool)
    requires Classified(ls) && (forall l :: l in ls ==> Agrees(l, val)) && RunFile(ls, o, inComment).Exit?
    ensures Run(ls, o) == Next(RunFile(ls, o, inComment).m)
  {
    var eof := Line(Eof(inComment), |ls|);
    assert (ls + [eof])[..|ls|] == ls;
    RunKeeps(ls, o, val, false);
    StepKeeps(Run(ls, o).m, o, eof, val, false, CppRun(Sources(ls), val, false));
  }

  lemma FileKept(f: Forest, o: Options, kb: bool)
    requires WellFormed(f) && BlanksCount(o, kb) && Run(Flat(f), o).Next?
    ensures var m := Run(Flat(f), o).m;
      Shown(m.out, kb) == Shown(Kept(f), kb) && m.exitstat == if |Kept(f)| < |Flat(f)| then 1 else 0
  {
    RunIsRunOn(Flat(f), o);
    ForestKept(Init(), f, o, kb);
    assert Init().ifstate[0] == Outside;
    NoneWritten(Shown(Kept(f), kb));
  }

  // ----- no decided line is left -----

  predicate Decided(l: Line) { IsTrue(l) || IsFalse(l) }

  /** No line with a decided condition opens or continues a group of the output. */
  predicate NoneDecided(out: seq<OutLine>) {
    forall x :: x in out && (x.AsRead? || x.AsIf?) ==> !Decided(x.line)
  }

  lemma DecidedEffect(s: IfState, l: Line, o: Options)
    requires Decided(l)
    ensures var e := EffectOf(Transition(s, l.ty), o);
      e.Report? || ((e.Block? || e.Mark?) && !e.w.Keep? && !e.w.KeepAsIf?)
  {
    match l.ty.kind
    case TrueI =>
    case FalseI =>
    case True =>
    case False =>
    case ElTrue =>
    case ElFalse =>
  }

  lemma StepDecided(m: Machine, o: Options, l: Line)
    requires m.Valid() && !l.ty.Unevaluable? && NoneDecided(m.out) && Step(m, o, l).Next?
    ensures NoneDecided(Step(m, o, l).m.out)
  {
    StepOut(m, o, l);
    WrittenOut(m, o, StepWrite(m, o, l), l);
    if Decided(l) { DecidedEffect(m.ifstate[m.depth], l, o); }
  }

  /** For every file, dodgy or not, and at every point of it. */
  lemma {:induction false} RunDecided(ls: seq<Line>, o: Options)
    requires Classified(ls) && Run(ls, o).Next?
    ensures NoneDecided(Run(ls, o).m.out)
  {
    if ls != [] {
      RunDecided(ls[..|ls| - 1], o);
      StepDecided(Run(ls[..|ls| - 1], o).m, o, ls[|ls| - 1]);
    }
  }

  lemma FileDecided(ls: seq<Line>, o: Options, inComment: bool)
    requires Classified(ls) && RunFile(ls, o, inComment).Exit?
    ensures NoneDecided(RunFile(ls, o, inComment).m.out)
  {
    var eof := Line(Eof(inComment), |ls|);
    assert (ls + [eof])[..|ls|] == ls;
    NoExit(ls, o);
    RunDecided(ls, o);
  }

  lemma {:induction false} NoExit(ls: seq<Line>, o: Options)
    requires Classified(ls)
    ensures !Run(ls, o).Exit?
  {
    if ls != [] {
      NoExit(ls[..|ls| - 1], o);
      var before := Run(ls[..|ls| - 1], o);
      if before.Next? { OnlyEofEnds(before.m, o, ls[|ls| - 1]); }
    }
  }

  lemma OnlyEofEnds(m: Machine, o: Options, l: Line)
    requires m.Valid() && !l.ty.Unevaluable? && !l.ty.Eof?
    ensures !Step(m, o, l).Exit?
  {
  }
}
