/** Which files unifdef accepts, and what each of its complaints means. */
module UnifdefAccepts {
  import opened CppConditionals
  import opened UnifdefTable
  import opened UnifdefPreserves

  predicate IsDodgy(l: Line) { l.ty.Directive? && l.ty.dodgy }

  /** What a line adds to the number of open groups. */
  function Nests(l: Line): int {
    if l.ty.Directive? && Opens(l.ty.kind) then 1 else if l.ty.Directive? && l.ty.kind == Endif then -1 else 0
  }

  /** The groups that are open behind the lines. */
  function Level(ls: seq<Line>): int {
    if ls == [] then 0 else Level(ls[..|ls| - 1]) + Nests(ls[|ls| - 1])
  }

  /** The stack of the program has room for the groups of the file. */
  ghost predicate Shallow(ls: seq<Line>) {
    forall k :: 0 <= k <= |ls| ==> Level(ls[..k]) < MAXDEPTH
  }

  lemma PrefixOfBefore(ls: seq<Line>, k: nat)
    requires k < |ls|
    ensures ls[..|ls| - 1][..k] == ls[..k] && ls[..|ls|] == ls
  {
  }

  lemma ShallowSnoc(ls: seq<Line>)
    requires ls != []
    ensures Shallow(ls) <==> Shallow(ls[..|ls| - 1]) && Level(ls) < MAXDEPTH
  {
    var before := ls[..|ls| - 1];
    if Shallow(ls) {
      PrefixOfBefore(ls, 0);
      assert Level(ls[..|ls|]) < MAXDEPTH;
      forall k | 0 <= k <= |before| ensures Level(before[..k]) < MAXDEPTH {
        PrefixOfBefore(ls, k);
      }
    }
    if Shallow(before) && Level(ls) < MAXDEPTH {
      forall k | 0 <= k <= |ls| ensures Level(ls[..k]) < MAXDEPTH {
        if k < |ls| { PrefixOfBefore(ls, k); } else { PrefixOfBefore(ls, 0); }
      }
    }
  }

  /** What the transition functions do to the depth of the stack. */
  predicate Nesting(ty: LineType, a: Action, e: Effect) {
    && (OpensGroup(a) <==> ty.Directive? && Opens(ty.kind))
    && (OpensGroup(a) ==> e.Block? || e.Report?)
    && (e.Leave? ==> ty.Directive? && ty.kind == Endif)
    && (ty.Directive? && ty.kind == Endif ==> e.Leave? || e.Report?)
    && (e.Report? && e.msg == Obfuscated ==> ty.Directive? && ty.dodgy)
    && (e.Report? ==> e.msg == Obfuscated || NestingComplaint(e.msg))
    && (e.Finish? ==> ty.Eof?)
    && (ty.Eof? ==> e.Finish? || e.Report?)
  }

  lemma OpenNests(s: IfState, ty: LineType, o: Options)
    requires ty.Directive? && Opens(ty.kind)
    ensures Nesting(ty, Transition(s, ty), EffectOf(Transition(s, ty), o))
  {
  }

  lemma OtherNests(s: IfState, ty: LineType, o: Options)
    requires ty.Directive? && !Opens(ty.kind)
    ensures Nesting(ty, Transition(s, ty), EffectOf(Transition(s, ty), o))
  {
    match ty.kind
    case Elif =>
    case ElTrue =>
    case ElFalse =>
    case Else =>
    case Endif =>
  }

  lemma ActionNests(s: IfState, ty: LineType, o: Options)
    requires !ty.Unevaluable?
    ensures Nesting(ty, Transition(s, ty), EffectOf(Transition(s, ty), o))
  {
    if ty.Directive? {
      if Opens(ty.kind) { OpenNests(s, ty, o); } else { OtherNests(s, ty, o); }
    }
  }

  /** One step: how deep it leaves the stack, and what its limits are. */
  lemma StepNests(m: Machine, o: Options, l: Line)
    requires m.Valid() && !l.ty.Unevaluable?
    ensures var r := Step(m, o, l);
      && (r.Next? ==> r.m.depth == m.depth + Nests(l))
      && (r == Failed(TooManyLevels) ==> m.depth + Nests(l) == MAXDEPTH)
      && (r == Failed(Obfuscated) ==> IsDodgy(l))
      && (r == Failed(EofInComment) ==> l.ty.Eof? && l.ty.inComment)
      && (r.Exit? ==> l.ty.Eof? && !l.ty.inComment)
      && (l.ty.Eof? ==> !r.Next?)
  {
    ActionNests(m.ifstate[m.depth], l.ty, o);
  }

  /** The stack is as deep as the groups that are open. */
  lemma {:induction false} RunNests(ls: seq<Line>, o: Options)
    requires Classified(ls)
    ensures Run(ls, o).Next? ==> Run(ls, o).m.depth == Level(ls) && Shallow(ls)
    ensures Run(ls, o) == Failed(TooManyLevels) ==> !Shallow(ls)
    ensures Run(ls, o) == Failed(Obfuscated) ==> exists l :: l in ls && IsDodgy(l)
    ensures Run(ls, o) != Failed(EofInComment) && !Run(ls, o).Exit?
  {
    if ls != [] {
      var before, l := ls[..|ls| - 1], ls[|ls| - 1];
      RunNests(before, o);
      ShallowSnoc(ls);
      if Run(before, o).Next? { StepNests(Run(before, o).m, o, l); }
    }
  }

  /** What a complaint says about the file. */
  ghost predicate Justified(msg: Message, ls: seq<Line>, inComment: bool, val: nat -> bool) {
    match msg
    case TooManyLevels => !Shallow(ls)
    case Obfuscated => exists l :: l in ls && IsDodgy(l)
    case EofInComment => inComment
    case PrematureEof => Preprocess(Sources(ls), val, false).NotWellNested?
    case InappropriateElif => CppRun(Sources(ls), val, false).IllFormed?
    case InappropriateElse => CppRun(Sources(ls), val, false).IllFormed?
    case InappropriateEndif => CppRun(Sources(ls), val, false).IllFormed?
  }

  /** unifdef complains only about what is there. */
  lemma RefusalJustified(ls: seq<Line>, o: Options, inComment: bool, val: nat -> bool)
    requires Classified(ls) && (forall l :: l in ls ==> Agrees(l, val))
    ensures RunFile(ls, o, inComment).Exit? || RunFile(ls, o, inComment).Failed?
    ensures RunFile(ls, o, inComment).Failed? ==> Justified(RunFile(ls, o, inComment).msg, ls, inComment, val)
    ensures RunFile(ls, o, inComment).Exit? ==> Shallow(ls) && !inComment
  {
    var eof := Line(Eof(inComment), |ls|);
    assert (ls + [eof])[..|ls|] == ls;
    RunNests(ls, o);
    NeverAborts(ls, o);
    if Run(ls, o).Next? {
      StepNests(Run(ls, o).m, o, eof);
      StepStacks(Run(ls, o).m, o, eof);
      EofReports(Run(ls, o).m, o, eof);
      if RunFile(ls, o, inComment) == Failed(PrematureEof) { UnterminatedJustified(ls, o, inComment, val); }
    } else if NestingComplaint(Run(ls, o).msg) {
      ComplaintsJustified(ls, o, val);
    }
  }

  lemma EofReports(m: Machine, o: Options, l: Line)
    requires m.Valid() && l.ty.Eof?
    ensures Step(m, o, l).Failed? ==> Step(m, o, l).msg == PrematureEof || Step(m, o, l).msg == EofInComment
  {
  }

  /** A dodgy line whose condition was decided, at the start of a group or behind an unknown branch: it is
      refused, or with the option for it passed through as if nothing were known. */
  lemma DodgyDecided(s: IfState, l: Line, o: Options)
    requires IsDodgy(l) && !Dropping(s) && l.ty.kind != If && l.ty.kind != Elif
    requires Opens(l.ty.kind) || (s.PassMiddle? && l.ty.kind != Else && l.ty.kind != Endif)
    ensures EffectOf(Transition(s, l.ty), o) == if o.iocccOk then Block(Keep, PassMiddle) else Report(Obfuscated)
  {
  }

  /** A dodgy line that is accepted is left as it is or dropped with the text around it; save that an unknown
      #elif behind false branches still becomes an #if. */
  lemma DodgyUnedited(s: IfState, l: Line, o: Options)
    requires IsDodgy(l)
    ensures var e := EffectOf(Transition(s, l.ty), o);
      || e.Report?
      || ((e.Block? || e.Mark? || e.Leave?) && (
            e.w.Keep? || (e.w.Delete? && Dropping(s)) || (s.FalsePrefix? && l.ty.kind == Elif && e.w.KeepAsIf?)))
  {
    match l.ty.kind
    case TrueI =>
    case FalseI =>
    case If =>
    case True =>
    case False =>
    case Elif =>
    case ElTrue =>
    case ElFalse =>
    case Else =>
    case Endif =>
  }

  /** A file without dodgy directives is accepted exactly if it is well nested, no deeper than the stack,
      and ends outside comments. */
  lemma AcceptsExactly(ls: seq<Line>, o: Options, inComment: bool, val: nat -> bool)
    requires Classified(ls) && (forall l :: l in ls ==> Agrees(l, val) && !IsDodgy(l))
    ensures RunFile(ls, o, inComment).Exit?
      <==> Preprocess(Sources(ls), val, false).Selected? && Shallow(ls) && !inComment
  {
    RefusalJustified(ls, o, inComment, val);
    if RunFile(ls, o, inComment).Exit? { FilePreserved(ls, o, inComment, val, false); }
  }
}
