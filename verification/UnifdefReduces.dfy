/** What unifdef leaves of a file: a definition on the groups of the file, which the state machine meets. */
module UnifdefReduces {
  import opened UnifdefTable
  import opened UnifdefPreserves

  /** A file by its groups. */
  datatype Forest =
    | Nil
    | TextThen(line: Line, rest: Forest)
    | GroupThen(first: Line, body: Forest, more: Branches, rest: Forest)

  /** A group from the end of a branch on. */
  datatype Branches =
    | Close(endif: Line)
    | ElifThen(line: Line, body: Forest, more: Branches)
    | ElseThen(line: Line, body: Forest, endif: Line)

  /** A directive of this kind on one physical line. */
  predicate Clean(l: Line, k: Kind) { l.ty == Directive(k, false) }

  predicate CleanElif(l: Line) { Clean(l, Elif) || Clean(l, ElTrue) || Clean(l, ElFalse) }

  predicate WellFormed(f: Forest) {
    match f
    case Nil => true
    case TextThen(l, rest) => l.ty.Plain? && WellFormed(rest)
    case GroupThen(l, body, more, rest) =>
      l.ty.Directive? && !l.ty.dodgy && Opens(l.ty.kind) && WellFormed(body) && WellFormedMore(more) && WellFormed(rest)
  }

  predicate WellFormedMore(b: Branches) {
    match b
    case Close(e) => Clean(e, Endif)
    case ElifThen(l, body, more) => CleanElif(l) && WellFormed(body) && WellFormedMore(more)
    case ElseThen(l, body, e) => Clean(l, Else) && WellFormed(body) && Clean(e, Endif)
  }

  /** The lines of the file. */
  function Flat(f: Forest): seq<Line> {
    match f
    case Nil => []
    case TextThen(l, rest) => [l] + Flat(rest)
    case GroupThen(l, body, more, rest) => [l] + (Flat(body) + (FlatMore(more) + Flat(rest)))
  }

  function FlatMore(b: Branches): seq<Line> {
    match b
    case Close(e) => [e]
    case ElifThen(l, body, more) => [l] + (Flat(body) + FlatMore(more))
    case ElseThen(l, body, e) => [l] + (Flat(body) + [e])
  }

  /** What is left of a file.  A group whose condition is true gives way to its text; one whose condition is
      false, to its other branches; one whose condition is unknown stays. */
  function Kept(f: Forest): seq<OutLine> {
    match f
    case Nil => []
    case TextThen(l, rest) => [AsRead(l)] + Kept(rest)
    case GroupThen(l, body, more, rest) =>
      (if IsTrue(l) then Kept(body)
       else if IsFalse(l) then Unopened(more)
       else [AsRead(l)] + (Kept(body) + Opened(more)))
      + Kept(rest)
  }

  predicate IsTrue(l: Line) {
    l.ty.Directive? && !l.ty.dodgy && (l.ty.kind.TrueI? || l.ty.kind.True? || l.ty.kind.ElTrue?)
  }

  predicate IsFalse(l: Line) {
    l.ty.Directive? && !l.ty.dodgy && (l.ty.kind.FalseI? || l.ty.kind.False? || l.ty.kind.ElFalse?)
  }

  /** The branches of a group of which all before were false: the first unknown one opens it. */
  function Unopened(b: Branches): seq<OutLine> {
    match b
    case Close(_) => []
    case ElifThen(l, body, more) =>
      if IsTrue(l) then Kept(body)
      else if IsFalse(l) then Unopened(more)
      else [AsIf(l)] + (Kept(body) + Opened(more))
    case ElseThen(_, body, _) => Kept(body)
  }

  /** The branches behind an unknown one: false ones go, a true one becomes the last. */
  function Opened(b: Branches): seq<OutLine> {
    match b
    case Close(e) => [AsRead(e)]
    case ElifThen(l, body, more) =>
      if IsTrue(l) then [AsElse(l)] + (Kept(body) + [Closing(more)])
      else if IsFalse(l) then Opened(more)
      else [AsRead(l)] + (Kept(body) + Opened(more))
    case ElseThen(l, body, e) => [AsRead(l)] + (Kept(body) + [AsRead(e)])
  }

  /** The line that ends a group behind a true branch. */
  function Closing(b: Branches): OutLine {
    match b
    case Close(e) => AsRead(e)
    case ElifThen(l, _, _) => AsEndif(l)
    case ElseThen(l, _, _) => AsEndif(l)
  }

  // ----- the machine on a stretch of lines -----

  ghost function RunOn(m: Machine, ls: seq<Line>, o: Options): (r: Outcome)
    requires m.Valid()
    ensures r.Next? ==> r.m.Valid()
    decreases |ls|
  {
    if ls == [] then Next(m)
    else
      var r := Step(m, o, ls[0]);
      if r.Next? then RunOn(r.m, ls[1..], o) else r
  }

  lemma {:induction false} RunOnAppend(m: Machine, a: seq<Line>, b: seq<Line>, o: Options)
    requires m.Valid()
    ensures var r := RunOn(m, a, o); RunOn(m, a + b, o) == if r.Next? then RunOn(r.m, b, o) else r
    decreases |a|
  {
    if a == [] {
      assert a + b == b;
    } else {
      assert (a + b)[1..] == a[1..] + b;
      var r := Step(m, o, a[0]);
      if r.Next? { RunOnAppend(r.m, a[1..], b, o); }
    }
  }

  lemma RunOnFirst(m: Machine, l: Line, ls: seq<Line>, o: Options)
    requires m.Valid()
    ensures var r := Step(m, o, l); RunOn(m, [l] + ls, o) == if r.Next? then RunOn(r.m, ls, o) else r
  {
    assert ([l] + ls)[1..] == ls;
  }

  lemma {:induction false} RunIsRunOn(ls: seq<Line>, o: Options)
    ensures Run(ls, o) == RunOn(Init(), ls, o)
  {
    if ls != [] {
      var before, last := ls[..|ls| - 1], ls[|ls| - 1];
      RunIsRunOn(before, o);
      RunOnAppend(Init(), before, [last], o);
      assert before + [last] == ls;
      if Run(before, o).Next? { RunOnFirst(Run(before, o).m, last, [], o); }
    }
  }

  // ----- what is shown -----

  /** The line counts: no newline in place of a deleted line, and no blank line unless blank lines count. */
  predicate Shows(x: OutLine, kb: bool) { !x.Newline? && (kb || !x.AsRead? || !Blank(x.line)) }

  function Shown(out: seq<OutLine>, kb: bool): seq<OutLine> {
    if out == [] then []
    else Shown(out[..|out| - 1], kb) + if Shows(out[|out| - 1], kb) then [out[|out| - 1]] else []
  }

  lemma {:induction false} ShownAppend(a: seq<OutLine>, b: seq<OutLine>, kb: bool)
    ensures Shown(a + b, kb) == Shown(a, kb) + Shown(b, kb)
  {
    if b == [] {
      assert a + b == a;
    } else {
      assert (a + b)[..|a + b| - 1] == a + b[..|b| - 1];
      ShownAppend(a, b[..|b| - 1], kb);
    }
  }

  lemma ShownOne(x: OutLine, kb: bool)
    ensures Shown([x], kb) == if Shows(x, kb) then [x] else []
  {
    assert [x][..0] == [];
  }

  /** What a step writes. */
  function FormsOf(w: Write, l: Line): seq<OutLine> { if w.Delete? then [] else [FormOf(w, l)] }

  lemma WrittenShown(m: Machine, o: Options, w: Write, l: Line, kb: bool)
    requires BlanksCount(o, kb)
    ensures Shown(Written(m, o, w, l).out, kb) == Shown(m.out, kb) + Shown(FormsOf(w, l), kb)
    ensures Written(m, o, w, l).exitstat == if w.Delete? then 1 else m.exitstat
  {
    WrittenOut(m, o, w, l);
    ShownOne(FormOf(w, l), kb);
    if Written(m, o, w, l).out != m.out { ShownAppend(m.out, [FormOf(w, l)], kb); }
  }

  lemma StepExit(m: Machine, o: Options, l: Line)
    requires m.Valid() && Step(m, o, l).Next? && !l.ty.Unevaluable?
    ensures Step(m, o, l).m.exitstat == Written(m, o, StepWrite(m, o, l), l).exitstat
  {
    EffectsFit(m.ifstate[m.depth], l.ty, o);
  }

  lemma StepShown(m: Machine, o: Options, l: Line, kb: bool)
    requires m.Valid() && Step(m, o, l).Next? && !l.ty.Unevaluable? && BlanksCount(o, kb)
    ensures var m' := Step(m, o, l).m;
      && Shown(m'.out, kb) == Shown(m.out, kb) + Shown(FormsOf(StepWrite(m, o, l), l), kb)
      && m'.exitstat == if StepWrite(m, o, l).Delete? then 1 else m.exitstat
  {
    StepOut(m, o, l);
    StepExit(m, o, l);
    WrittenShown(m, o, StepWrite(m, o, l), l, kb);
  }

  // ----- the machine leaves what the definition keeps -----

  /** From one machine to the other, `x` has been written of `n` lines. */
  ghost predicate Wrote(m: Machine, m': Machine, x: seq<OutLine>, n: nat, kb: bool) {
    && Shown(m'.out, kb) == Shown(m.out, kb) + Shown(x, kb) && |x| <= n
    && m'.exitstat == if |x| < n then 1 else m.exitstat
  }

  lemma WroteThen(m: Machine, m1: Machine, m2: Machine, x: seq<OutLine>, n: nat, x': seq<OutLine>, n': nat, kb: bool)
    requires Wrote(m, m1, x, n, kb) && Wrote(m1, m2, x', n', kb)
    ensures Wrote(m, m2, x + x', n + n', kb)
  {
    ShownAppend(x, x', kb);
  }

  /** The top of the stack. */
  ghost function TopState(m: Machine): IfState
    requires m.Valid()
  {
    m.ifstate[m.depth]
  }

  /** What the rest of a group leaves, by the state in which its current branch ends. */
  function MoreKept(s: IfState, b: Branches): seq<OutLine> {
    match s
    case FalsePrefix => Unopened(b)
    case PassMiddle => Opened(b)
    case FalseMiddle => Opened(b)
    case TrueMiddle => [Closing(b)]
    case _ => []
  }

  predicate MidGroup(s: IfState) {
    s.FalsePrefix? || s.TruePrefix? || s.PassMiddle? || s.FalseMiddle? || s.TrueMiddle? || s.FalseTrailer?
  }

  function KeptIn(s: IfState, f: Forest): seq<OutLine> { if Dropping(s) then [] else Kept(f) }

  ghost predicate SameStack(m: Machine, m': Machine)
    requires m.Valid() && m'.Valid()
  {
    m'.Stack() == m.Stack()
  }

  lemma TopOfStack(m: Machine, m': Machine)
    requires m.Valid() && m'.Valid() && SameStack(m, m')
    ensures m'.depth == m.depth && TopState(m') == TopState(m)
  {
    assert |m'.Stack()| == |m.Stack()|;
    assert m'.Stack()[m.depth] == m.Stack()[m.depth];
  }

  /** The state in which a group begins. */
  function OpenedState(s: IfState, l: Line): IfState {
    if Dropping(s) then FalseTrailer
    else if IsTrue(l) then TruePrefix
    else if IsFalse(l) then FalsePrefix
    else PassMiddle
  }

  lemma OpenEffect(s: IfState, l: Line, o: Options)
    requires l.ty.Directive? && !l.ty.dodgy && Opens(l.ty.kind)
    ensures var a := Transition(s, l.ty);
      OpensGroup(a) && EffectOf(a, o)
        == Block(if OpenedState(s, l).PassMiddle? then Keep else Delete, OpenedState(s, l))
  {
  }

  lemma OnTop(below: seq<IfState>, m': Machine, s: IfState)
    requires m'.Valid() && m'.Stack() == below + [s]
    ensures TopState(m') == s
  {
    assert |m'.Stack()| == m'.depth + 1 && m'.Stack()[m'.depth] == m'.ifstate[m'.depth];
  }

  /** The first line of a group. */
  lemma OpenClean(m: Machine, l: Line, o: Options, kb: bool)
    requires m.Valid() && l.ty.Directive? && !l.ty.dodgy && Opens(l.ty.kind) && BlanksCount(o, kb)
    requires Step(m, o, l).Next?
    ensures var m' := Step(m, o, l).m;
      var s := OpenedState(TopState(m), l);
      && m'.Stack() == m.Stack() + [s] && TopState(m') == s
      && Wrote(m, m', if s.PassMiddle? then [AsRead(l)] else [], 1, kb)
  {
    OpenEffect(TopState(m), l, o);
    PerformOpens(m, o, l);
    StepShown(m, o, l, kb);
    OnTop(m.Stack(), Step(m, o, l).m, OpenedState(TopState(m), l));
  }

  /** An #elif or #else. */
  lemma TurnClean(m: Machine, l: Line, o: Options, kb: bool, e: Effect)
    requires m.Valid() && m.depth > 0 && TurnsGroup(l) && BlanksCount(o, kb) && Step(m, o, l).Next?
    requires e == EffectOf(Transition(TopState(m), l.ty), o) && (e.Block? || e.Mark?)
    ensures var m' := Step(m, o, l).m;
      && m'.Stack() == m.Stack()[..m.depth] + [e.s] && TopState(m') == e.s
      && Wrote(m, m', FormsOf(e.w, l), 1, kb)
  {
    PerformTurns(m, o, l);
    OnTop(m.Stack()[..m.depth], Step(m, o, l).m, e.s);
    StepWrote(m, o, l, kb);
  }

  lemma StepWrote(m: Machine, o: Options, l: Line, kb: bool)
    requires m.Valid() && Step(m, o, l).Next? && !l.ty.Unevaluable? && BlanksCount(o, kb)
    ensures Wrote(m, Step(m, o, l).m, FormsOf(StepWrite(m, o, l), l), 1, kb)
  {
    StepShown(m, o, l, kb);
  }

  lemma CloseClean(m: Machine, l: Line, o: Options, kb: bool)
    requires m.Valid() && m.depth > 0 && Clean(l, Endif) && TopState(m) != Outside && BlanksCount(o, kb)
    requires Step(m, o, l).Next?
    ensures var m' := Step(m, o, l).m;
      m'.Stack() == m.Stack()[..m.depth] && Wrote(m, m', if OpenInOutput(TopState(m)) then [AsRead(l)] else [], 1, kb)
  {
    EndifEffect(TopState(m), l.ty, o);
    PerformCloses(m, o, l);
    StepShown(m, o, l, kb);
  }

  lemma TextClean(m: Machine, l: Line, o: Options, kb: bool)
    requires m.Valid() && l.ty.Plain? && BlanksCount(o, kb)
    ensures Step(m, o, l).Next?
    ensures var m' := Step(m, o, l).m;
      SameStack(m, m') && Wrote(m, m', if Dropping(TopState(m)) then [] else [AsRead(l)], 1, kb)
  {
    PerformPlain(m, o, l);
    WrittenShown(m, o, StepWrite(m, o, l), l, kb);
  }

  /** The lines one after another: a step, then the rest. */
  lemma StepThen(m: Machine, l: Line, ls: seq<Line>, o: Options)
    requires m.Valid() && RunOn(m, [l] + ls, o).Next?
    ensures Step(m, o, l).Next? && RunOn(m, [l] + ls, o) == RunOn(Step(m, o, l).m, ls, o)
  {
    RunOnFirst(m, l, ls, o);
  }

  lemma RunThen(m: Machine, a: seq<Line>, b: seq<Line>, o: Options)
    requires m.Valid() && RunOn(m, a + b, o).Next?
    ensures RunOn(m, a, o).Next? && RunOn(m, a + b, o) == RunOn(RunOn(m, a, o).m, b, o)
  {
    RunOnAppend(m, a, b, o);
  }

  /** What an #elif writes, and the state that it leads to. */
  function ElifWrite(s: IfState, k: Kind): Write {
    match s
    case FalsePrefix => if k == Elif then KeepAsIf else Delete
    case PassMiddle => if k == Elif then Keep else if k == ElTrue then KeepAsElse else Delete
    case FalseMiddle => if k == Elif then Keep else if k == ElTrue then KeepAsElse else Delete
    case TrueMiddle => KeepAsEndif
    case _ => Delete
  }

  function ElifState(s: IfState, k: Kind): IfState {
    match s
    case FalsePrefix => if k == Elif then PassMiddle else if k == ElTrue then TruePrefix else FalsePrefix
    case PassMiddle => if k == Elif then PassMiddle else if k == ElTrue then TrueMiddle else FalseMiddle
    case FalseMiddle => if k == Elif then PassMiddle else if k == ElTrue then TrueMiddle else FalseMiddle
    case _ => FalseTrailer
  }

  lemma ElifEffect(s: IfState, l: Line, o: Options)
    requires MidGroup(s) && CleanElif(l)
    ensures var e := EffectOf(Transition(s, l.ty), o);
      (e.Block? || e.Mark?) && e.w == ElifWrite(s, l.ty.kind) && e.s == ElifState(s, l.ty.kind) && MidGroup(e.s)
  {
  }

  lemma ElifKept(s: IfState, l: Line, body: Forest, more: Branches)
    requires MidGroup(s) && CleanElif(l)
    ensures var t := ElifState(s, l.ty.kind);
      MoreKept(s, ElifThen(l, body, more))
        == FormsOf(ElifWrite(s, l.ty.kind), l) + (KeptIn(t, body) + MoreKept(t, more))
  {
    var t := ElifState(s, l.ty.kind);
    NoneWritten(KeptIn(t, body) + MoreKept(t, more));
    NoneWritten(MoreKept(t, more));
    NothingAfter(KeptIn(t, body));
    NothingAfter(FormsOf(ElifWrite(s, l.ty.kind), l));
  }

  lemma NoneWritten(x: seq<OutLine>)
    ensures [] + x == x
  {
  }

  lemma NothingAfter(x: seq<OutLine>)
    ensures x + [] == x
  {
  }

  /** The same for an #else. */
  function ElseWrite(s: IfState): Write {
    match s
    case PassMiddle => Keep
    case FalseMiddle => Keep
    case TrueMiddle => KeepAsEndif
    case _ => Delete
  }

  function ElseState(s: IfState): IfState {
    match s
    case FalsePrefix => TrueElse
    case PassMiddle => PassElse
    case FalseMiddle => PassElse
    case _ => FalseElse
  }

  lemma ElseEffect(s: IfState, l: Line, o: Options)
    requires MidGroup(s) && Clean(l, Else)
    ensures EffectOf(Transition(s, l.ty), o) == Mark(ElseWrite(s), ElseState(s))
  {
  }

  function EndOfElse(s: IfState, end: Line): seq<OutLine> { if ElseState(s).PassElse? then [AsRead(end)] else [] }

  lemma ElseKept(s: IfState, l: Line, body: Forest, end: Line)
    requires MidGroup(s) && Clean(l, Else)
    ensures MoreKept(s, ElseThen(l, body, end))
      == FormsOf(ElseWrite(s), l) + (KeptIn(ElseState(s), body) + EndOfElse(s, end))
  {
    NoneWritten(KeptIn(ElseState(s), body));
    NothingAfter(KeptIn(ElseState(s), body));
    NothingAfter(FormsOf(ElseWrite(s), l));
  }

  lemma GroupKept(s: IfState, l: Line, body: Forest, more: Branches, rest: Forest)
    requires l.ty.Directive? && !l.ty.dodgy && Opens(l.ty.kind)
    ensures var t := OpenedState(s, l);
      KeptIn(s, GroupThen(l, body, more, rest))
        == (if t.PassMiddle? then [AsRead(l)] else []) + (KeptIn(t, body) + (MoreKept(t, more) + KeptIn(s, rest)))
  {
    var t := OpenedState(s, l);
    NoneWritten(KeptIn(t, body) + (MoreKept(t, more) + KeptIn(s, rest)));
    NoneWritten(MoreKept(t, more) + KeptIn(s, rest));
    NoneWritten(KeptIn(s, rest));
    if t.PassMiddle? { Regroup(AsRead(l), Kept(body), Opened(more), Kept(rest)); }
  }

  lemma Regroup(x: OutLine, a: seq<OutLine>, b: seq<OutLine>, c: seq<OutLine>)
    ensures [x] + (a + b) + c == [x] + (a + (b + c))
  {
  }

  /** The lines of a file inside a group, or outside all: what is written of them. */
  lemma {:induction false} ForestKept(m: Machine, f: Forest, o: Options, kb: bool)
    requires m.Valid() && WellFormed(f) && BlanksCount(o, kb) && RunOn(m, Flat(f), o).Next?
    ensures var m' := RunOn(m, Flat(f), o).m;
      SameStack(m, m') && Wrote(m, m', KeptIn(TopState(m), f), |Flat(f)|, kb)
    decreases f
  {
    match f
    case Nil =>
      NothingAfter(Shown(m.out, kb));
    case TextThen(l, rest) =>
      StepThen(m, l, Flat(rest), o);
      TextClean(m, l, o, kb);
      var m1 := Step(m, o, l).m;
      TopOfStack(m, m1);
      ForestKept(m1, rest, o, kb);
      WroteThen(m, m1, RunOn(m, Flat(f), o).m, if Dropping(TopState(m)) then [] else [AsRead(l)], 1,
                KeptIn(TopState(m), rest), |Flat(rest)|, kb);
      NoneWritten(KeptIn(TopState(m), rest));
    case GroupThen(l, body, more, rest) =>
      StepThen(m, l, Flat(body) + (FlatMore(more) + Flat(rest)), o);
      var m1 := Step(m, o, l).m;
      OpenClean(m, l, o, kb);
      RunThen(m1, Flat(body), FlatMore(more) + Flat(rest), o);
      var m2 := RunOn(m1, Flat(body), o).m;
      ForestKept(m1, body, o, kb);
      TopOfStack(m1, m2);
      RunThen(m2, FlatMore(more), Flat(rest), o);
      var m3 := RunOn(m2, FlatMore(more), o).m;
      StackDepth(m, m2, TopState(m1));
      MoreKeeps(m2, more, o, kb);
      StackBack(m, m2, m3, TopState(m1));
      TopOfStack(m, m3);
      var m4 := RunOn(m3, Flat(rest), o).m;
      ForestKept(m3, rest, o, kb);
      GroupWrote(m, m1, m2, m3, m4, TopState(m), l, body, more, rest, kb);
  }

  /** The parts of a group and what is behind it. */
  lemma GroupWrote(m: Machine, m1: Machine, m2: Machine, m3: Machine, m4: Machine, s: IfState, l: Line,
                   body: Forest, more: Branches, rest: Forest, kb: bool)
    requires l.ty.Directive? && !l.ty.dodgy && Opens(l.ty.kind)
    requires Wrote(m, m1, if OpenedState(s, l).PassMiddle? then [AsRead(l)] else [], 1, kb)
    requires Wrote(m1, m2, KeptIn(OpenedState(s, l), body), |Flat(body)|, kb)
    requires Wrote(m2, m3, MoreKept(OpenedState(s, l), more), |FlatMore(more)|, kb)
    requires Wrote(m3, m4, KeptIn(s, rest), |Flat(rest)|, kb)
    ensures Wrote(m, m4, KeptIn(s, GroupThen(l, body, more, rest)), |Flat(GroupThen(l, body, more, rest))|, kb)
  {
    var t := OpenedState(s, l);
    FourWrote(m, m1, m2, m3, m4, if t.PassMiddle? then [AsRead(l)] else [], 1, KeptIn(t, body), |Flat(body)|,
              MoreKept(t, more), |FlatMore(more)|, KeptIn(s, rest), |Flat(rest)|, kb);
    GroupKept(s, l, body, more, rest);
    GroupLength(l, body, more, rest);
  }

  lemma GroupLength(l: Line, body: Forest, more: Branches, rest: Forest)
    ensures |Flat(GroupThen(l, body, more, rest))| == 1 + (|Flat(body)| + (|FlatMore(more)| + |Flat(rest)|))
  {
  }

  lemma FourWrote(m: Machine, m1: Machine, m2: Machine, m3: Machine, m4: Machine, a: seq<OutLine>, na: nat,
                  b: seq<OutLine>, nb: nat, c: seq<OutLine>, nc: nat, d: seq<OutLine>, nd: nat, kb: bool)
    requires Wrote(m, m1, a, na, kb) && Wrote(m1, m2, b, nb, kb) && Wrote(m2, m3, c, nc, kb) && Wrote(m3, m4, d, nd, kb)
    ensures Wrote(m, m4, a + (b + (c + d)), na + (nb + (nc + nd)), kb)
  {
    WroteThen(m2, m3, m4, c, nc, d, nd, kb);
    WroteThen(m1, m2, m4, b, nb, c + d, nc + nd, kb);
    WroteThen(m, m1, m4, a, na, b + (c + d), nb + (nc + nd), kb);
  }

  lemma StackDepth(m: Machine, m2: Machine, s: IfState)
    requires m.Valid() && m2.Valid() && m2.Stack() == m.Stack() + [s]
    ensures m2.depth == m.depth + 1 && TopState(m2) == s
  {
    assert |m2.Stack()| == m2.depth + 1;
    OnTop(m.Stack(), m2, s);
  }

  lemma StackBack(m: Machine, m2: Machine, m3: Machine, s: IfState)
    requires m.Valid() && m2.Valid() && m3.Valid() && m2.Stack() == m.Stack() + [s]
    requires m3.Stack() == m2.Stack()[..m2.depth]
    ensures SameStack(m, m3)
  {
    StackDepth(m, m2, s);
    assert (m.Stack() + [s])[..m.depth + 1] == m.Stack();
  }

  /** The stack and the output after an #elif or #else from state `s` of the current level. */
  ghost predicate Turned(m: Machine, m1: Machine, w: Write, s: IfState, l: Line, kb: bool)
    requires m.Valid() && m1.Valid()
  {
    m1.depth == m.depth > 0 && TopState(m1) == s && m1.Stack()[..m.depth] == m.Stack()[..m.depth]
    && Wrote(m, m1, FormsOf(w, l), 1, kb)
  }

  lemma ElifStep(m: Machine, l: Line, o: Options, kb: bool)
    requires m.Valid() && m.depth > 0 && MidGroup(TopState(m)) && CleanElif(l) && BlanksCount(o, kb)
    requires Step(m, o, l).Next?
    ensures MidGroup(ElifState(TopState(m), l.ty.kind))
    ensures Turned(m, Step(m, o, l).m, ElifWrite(TopState(m), l.ty.kind), ElifState(TopState(m), l.ty.kind), l, kb)
  {
    ElifEffect(TopState(m), l, o);
    TurnClean(m, l, o, kb, EffectOf(Transition(TopState(m), l.ty), o));
    TurnedStack(m, Step(m, o, l).m, ElifState(TopState(m), l.ty.kind));
  }

  lemma ElseStep(m: Machine, l: Line, o: Options, kb: bool)
    requires m.Valid() && m.depth > 0 && MidGroup(TopState(m)) && Clean(l, Else) && BlanksCount(o, kb)
    requires Step(m, o, l).Next?
    ensures Turned(m, Step(m, o, l).m, ElseWrite(TopState(m)), ElseState(TopState(m)), l, kb)
  {
    ElseEffect(TopState(m), l, o);
    TurnClean(m, l, o, kb, EffectOf(Transition(TopState(m), l.ty), o));
    TurnedStack(m, Step(m, o, l).m, ElseState(TopState(m)));
  }

  lemma ThreeWrote(m: Machine, m1: Machine, m2: Machine, m3: Machine, a: seq<OutLine>, na: nat,
                   b: seq<OutLine>, nb: nat, c: seq<OutLine>, nc: nat, kb: bool)
    requires Wrote(m, m1, a, na, kb) && Wrote(m1, m2, b, nb, kb) && Wrote(m2, m3, c, nc, kb)
    ensures Wrote(m, m3, a + (b + c), na + (nb + nc), kb)
  {
    WroteThen(m1, m2, m3, b, nb, c, nc, kb);
    WroteThen(m, m1, m3, a, na, b + c, nb + nc, kb);
  }

  lemma ElifWrote(m: Machine, m1: Machine, m2: Machine, m3: Machine, s: IfState, l: Line, body: Forest,
                  more: Branches, kb: bool)
    requires MidGroup(s) && CleanElif(l)
    requires Wrote(m, m1, FormsOf(ElifWrite(s, l.ty.kind), l), 1, kb)
    requires Wrote(m1, m2, KeptIn(ElifState(s, l.ty.kind), body), |Flat(body)|, kb)
    requires Wrote(m2, m3, MoreKept(ElifState(s, l.ty.kind), more), |FlatMore(more)|, kb)
    ensures Wrote(m, m3, MoreKept(s, ElifThen(l, body, more)), |FlatMore(ElifThen(l, body, more))|, kb)
  {
    var t := ElifState(s, l.ty.kind);
    ThreeWrote(m, m1, m2, m3, FormsOf(ElifWrite(s, l.ty.kind), l), 1, KeptIn(t, body), |Flat(body)|,
               MoreKept(t, more), |FlatMore(more)|, kb);
    ElifKept(s, l, body, more);
  }

  lemma ElseWrote(m: Machine, m1: Machine, m2: Machine, m3: Machine, s: IfState, l: Line, body: Forest, e: Line,
                  kb: bool)
    requires MidGroup(s) && Clean(l, Else)
    requires Wrote(m, m1, FormsOf(ElseWrite(s), l), 1, kb)
    requires Wrote(m1, m2, KeptIn(ElseState(s), body), |Flat(body)|, kb) && Wrote(m2, m3, EndOfElse(s, e), 1, kb)
    ensures Wrote(m, m3, MoreKept(s, ElseThen(l, body, e)), |FlatMore(ElseThen(l, body, e))|, kb)
  {
    ThreeWrote(m, m1, m2, m3, FormsOf(ElseWrite(s), l), 1, KeptIn(ElseState(s), body), |Flat(body)|,
               EndOfElse(s, e), 1, kb);
    ElseKept(s, l, body, e);
  }

  /** The rest of a group. */
  lemma {:induction false} MoreKeeps(m: Machine, b: Branches, o: Options, kb: bool)
    requires m.Valid() && m.depth > 0 && MidGroup(TopState(m)) && WellFormedMore(b) && BlanksCount(o, kb)
    requires RunOn(m, FlatMore(b), o).Next?
    ensures var m' := RunOn(m, FlatMore(b), o).m;
      m'.Stack() == m.Stack()[..m.depth] && Wrote(m, m', MoreKept(TopState(m), b), |FlatMore(b)|, kb)
    decreases b
  {
    match b
    case Close(e) =>
      CloseKeeps(m, e, o, kb);
    case ElifThen(l, body, more) =>
      StepThen(m, l, Flat(body) + FlatMore(more), o);
      var s := TopState(m);
      var m1 := Step(m, o, l).m;
      ElifStep(m, l, o, kb);
      RunThen(m1, Flat(body), FlatMore(more), o);
      var m2 := RunOn(m1, Flat(body), o).m;
      ForestKept(m1, body, o, kb);
      TopOfStack(m1, m2);
      var m3 := RunOn(m2, FlatMore(more), o).m;
      MoreKeeps(m2, more, o, kb);
      ElifWrote(m, m1, m2, m3, s, l, body, more, kb);
    case ElseThen(l, body, e) =>
      StepThen(m, l, Flat(body) + [e], o);
      var s := TopState(m);
      var m1 := Step(m, o, l).m;
      ElseStep(m, l, o, kb);
      RunThen(m1, Flat(body), [e], o);
      var m2 := RunOn(m1, Flat(body), o).m;
      ForestKept(m1, body, o, kb);
      TopOfStack(m1, m2);
      var m3 := RunOn(m2, [e], o).m;
      EndKeeps(m2, e, o, kb);
      ElseWrote(m, m1, m2, m3, s, l, body, e, kb);
  }

  lemma EndKeeps(m: Machine, e: Line, o: Options, kb: bool)
    requires m.Valid() && m.depth > 0 && Clean(e, Endif) && TopState(m) != Outside && BlanksCount(o, kb)
    requires RunOn(m, [e], o).Next?
    ensures var m' := RunOn(m, [e], o).m;
      m'.Stack() == m.Stack()[..m.depth] && Wrote(m, m', if OpenInOutput(TopState(m)) then [AsRead(e)] else [], 1, kb)
  {
    assert [e] + [] == [e];
    StepThen(m, e, [], o);
    CloseClean(m, e, o, kb);
  }

  lemma CloseKeeps(m: Machine, e: Line, o: Options, kb: bool)
    requires m.Valid() && m.depth > 0 && Clean(e, Endif) && MidGroup(TopState(m)) && BlanksCount(o, kb)
    requires RunOn(m, [e], o).Next?
    ensures var m' := RunOn(m, [e], o).m;
      m'.Stack() == m.Stack()[..m.depth] && Wrote(m, m', MoreKept(TopState(m), Close(e)), 1, kb)
  {
    EndKeeps(m, e, o, kb);
  }

  lemma TurnedStack(m: Machine, m2: Machine, s: IfState)
    requires m.Valid() && m2.Valid() && m.depth > 0 && m2.Stack() == m.Stack()[..m.depth] + [s]
    ensures m2.depth == m.depth && TopState(m2) == s && m2.Stack()[..m2.depth] == m.Stack()[..m.depth]
  {
    assert |m2.Stack()| == m2.depth + 1;
    assert m2.Stack()[m2.depth] == m2.ifstate[m2.depth];
  }
}
