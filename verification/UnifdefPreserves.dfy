/** unifdef keeps the meaning of a file: whatever the unknown conditions are, the preprocessor
    selects the same text lines from the output as from the input. */
module UnifdefPreserves {
  import opened CppConditionals
  import opened UnifdefTable

  /** The input line as the preprocessor sees it. */
  function Source(l: Line): CppLine {
    match l.ty
    case Plain(blank) => CppText(l.id, blank)
    case Directive(k, _) =>
      if Opens(k) then CppIf(l.id)
      else if k == Else then CppElse
      else if k == Endif then CppEndif
      else CppElif(l.id)
    case Eof(_) => CppText(l.id, true)
    case Unevaluable => CppText(l.id, true)
  }

  /** An output line as the preprocessor sees it.  A newline written for a deleted line is blank text. */
  function Emitted(x: OutLine): CppLine {
    match x
    case AsRead(l) => Source(l)
    case AsIf(l) => CppIf(l.id)
    case AsElse(_) => CppElse
    case AsEndif(_) => CppEndif
    case Newline => CppText(0, true)
  }

  ghost function Sources(ls: seq<Line>): seq<CppLine> {
    if ls == [] then [] else Sources(ls[..|ls| - 1]) + [Source(ls[|ls| - 1])]
  }

  ghost function EmittedAll(xs: seq<OutLine>): seq<CppLine> {
    if xs == [] then [] else EmittedAll(xs[..|xs| - 1]) + [Emitted(xs[|xs| - 1])]
  }

  /** The truth assignment agrees with what unifdef decided about this line.  Dodgy lines are never
      decided, so nothing is asked of them. */
  predicate Agrees(l: Line, val: nat -> bool) {
    l.ty.Directive? && !l.ty.dodgy ==>
      && ((l.ty.kind.TrueI? || l.ty.kind.True? || l.ty.kind.ElTrue?) ==> val(l.id))
      && ((l.ty.kind.FalseI? || l.ty.kind.False? || l.ty.kind.ElFalse?) ==> !val(l.id))
  }

  /** States whose group has its start line in the output, and no #endif yet. */
  predicate OpenInOutput(s: IfState) {
    s.PassMiddle? || s.FalseMiddle? || s.TrueMiddle? || s.PassElse?
  }

  /** Input frame and output frame of a level that is open in the output. */
  predicate SharedFrame(s: IfState, i: Frame, o: Frame) {
    match s
    case PassMiddle => i == o && !i.sawElse
    case FalseMiddle => i == Frame(false, o.taken, false) && !o.sawElse
    case TrueMiddle => i == Frame(o.cur, true, false) && o == Frame(o.cur, true, true)
    case PassElse => i == o && i.sawElse
    case Outside => false
    case FalsePrefix => false
    case TruePrefix => false
    case FalseElse => false
    case TrueElse => false
    case FalseTrailer => false
  }

  /** Input frame of a level that is not open in the output; `around` tells whether the surrounding
      group is selected. */
  predicate HiddenFrame(s: IfState, i: Frame, around: bool) {
    match s
    case FalsePrefix => i == Frame(false, !around, false)
    case TruePrefix => i == Frame(around, true, false)
    case FalseElse => !i.cur && i.sawElse
    case TrueElse => i.cur == around && i.sawElse
    case FalseTrailer => i == Frame(false, true, false)
    case Outside => false
    case PassMiddle => false
    case FalseMiddle => false
    case TrueMiddle => false
    case PassElse => false
  }

  /** The stack of unifdef against the open groups of the input and of the output. */
  ghost predicate Related(stack: seq<IfState>, ins: seq<Frame>, outs: seq<Frame>)
    decreases |stack|
  {
    if |stack| <= 1 then stack == [Outside] && ins == [] && outs == []
    else
      var s := stack[|stack| - 1];
      var rest := stack[..|stack| - 1];
      && s != Outside
      && ins != []
      && (Dropping(rest[|rest| - 1]) ==> s.FalseTrailer? || s.FalseElse?)
      && if OpenInOutput(s)
         then outs != [] && SharedFrame(s, Top(ins), Top(outs)) && Related(rest, Below(ins), Below(outs))
         else HiddenFrame(s, Top(ins), Active(Below(ins))) && Related(rest, Below(ins), outs)
  }

  /** Where unifdef prints, input and output agree on whether text is selected; where it deletes, the
      input selects nothing. */
  lemma {:induction false} RelatedActive(stack: seq<IfState>, ins: seq<Frame>, outs: seq<Frame>)
    requires Related(stack, ins, outs)
    ensures stack != []
    ensures if Dropping(stack[|stack| - 1]) then !Active(ins) else Active(ins) == Active(outs)
    decreases |stack|
  {
    if |stack| > 1 {
      var s := stack[|stack| - 1];
      if !OpenInOutput(s) {
        RelatedActive(stack[..|stack| - 1], Below(ins), outs);
      }
    }
  }

  lemma RelatedPush(stack: seq<IfState>, ins: seq<Frame>, outs: seq<Frame>, s: IfState, i: Frame, os: seq<Frame>)
    requires Related(stack, ins, outs) && stack != [] && s != Outside
    requires Dropping(stack[|stack| - 1]) ==> s.FalseTrailer? || s.FalseElse?
    requires if OpenInOutput(s) then exists o :: os == outs + [o] && SharedFrame(s, i, o)
             else os == outs && HiddenFrame(s, i, Active(ins))
    ensures Related(stack + [s], ins + [i], os)
  {
    assert (stack + [s])[..|stack|] == stack;
    assert Below(ins + [i]) == ins;
    if OpenInOutput(s) { assert Below(os) == outs; }
  }

  /** How many groups are open in the output: the levels in the PASS and MIDDLE states. */
  ghost function OpenLevels(stack: seq<IfState>): nat {
    if stack == [] then 0
    else OpenLevels(stack[..|stack| - 1]) + if OpenInOutput(stack[|stack| - 1]) then 1 else 0
  }

  lemma {:induction false} RelatedDepths(stack: seq<IfState>, ins: seq<Frame>, outs: seq<Frame>)
    requires Related(stack, ins, outs)
    ensures |ins| == |stack| - 1
    ensures |outs| == OpenLevels(stack)
    decreases |stack|
  {
    if |stack| > 1 {
      var rest := stack[..|stack| - 1];
      RelatedDepths(rest, Below(ins), if OpenInOutput(stack[|stack| - 1]) then Below(outs) else outs);
    } else {
      assert stack[..0] == [];
      assert OpenLevels(stack[..0]) == 0;
    }
  }

  /** What writing a line does to the preprocessor reading the output. */
  ghost function WriteStep(st: CppState, w: Write, l: Line, val: nat -> bool, keepBlank: bool): CppState {
    match w
    case Keep => CppStep(st, Source(l), val, keepBlank)
    case KeepAsIf => CppStep(st, CppIf(l.id), val, keepBlank)
    case KeepAsElse => CppStep(st, CppElse, val, keepBlank)
    case KeepAsEndif => CppStep(st, CppEndif, val, keepBlank)
    case Delete => st
  }

  /** Blank lines are compared only when unifdef neither drops nor adds any. */
  predicate BlanksCount(o: Options, keepBlank: bool) { keepBlank ==> !o.compBlank && !o.lnBlank }

  /** The line that is written in each form. */
  function FormOf(w: Write, l: Line): OutLine {
    match w
    case Keep => AsRead(l)
    case KeepAsIf => AsIf(l)
    case KeepAsElse => AsElse(l)
    case KeepAsEndif => AsEndif(l)
    case Delete => Newline
  }

  /** What is appended, if anything. */
  lemma WrittenOut(m: Machine, o: Options, w: Write, l: Line)
    ensures var out := Written(m, o, w, l).out;
      && (out == m.out || out == m.out + [FormOf(w, l)])
      && (out == m.out ==> w.Delete? || (w.Keep? && Blank(l) && o.compBlank))
      && (w.Delete? && out != m.out ==> o.lnBlank)
  {
  }

  lemma EmittedSnoc(xs: seq<OutLine>, x: OutLine, val: nat -> bool, keepBlank: bool)
    ensures CppRun(EmittedAll(xs + [x]), val, keepBlank)
      == CppStep(CppRun(EmittedAll(xs), val, keepBlank), Emitted(x), val, keepBlank)
  {
    assert (xs + [x])[..|xs|] == xs;
    CppRunSnoc(EmittedAll(xs), Emitted(x), val, keepBlank);
  }

  lemma BlankReads(st: CppState, n: nat, val: nat -> bool)
    ensures CppStep(st, CppText(n, true), val, false) == st
  {
  }

  lemma FormReads(st: CppState, w: Write, l: Line, val: nat -> bool, keepBlank: bool)
    requires w.Delete? ==> !keepBlank
    ensures CppStep(st, Emitted(FormOf(w, l)), val, keepBlank) == WriteStep(st, w, l, val, keepBlank)
  {
    match w
    case Keep =>
    case KeepAsIf =>
    case KeepAsElse =>
    case KeepAsEndif =>
    case Delete => BlankReads(st, 0, val);
  }

  lemma WrittenReads(m: Machine, o: Options, w: Write, l: Line, val: nat -> bool, keepBlank: bool)
    requires BlanksCount(o, keepBlank)
    ensures CppRun(EmittedAll(Written(m, o, w, l).out), val, keepBlank)
         == WriteStep(CppRun(EmittedAll(m.out), val, keepBlank), w, l, val, keepBlank)
  {
    WrittenOut(m, o, w, l);
    var out, out' := m.out, Written(m, o, w, l).out;
    var st := CppRun(EmittedAll(out), val, keepBlank);
    if out' == out {
      if w.Keep? { BlankReads(st, l.id, val); }
    } else {
      FormReads(st, w, l, val, keepBlank);
      EmittedSnoc(out, FormOf(w, l), val, keepBlank);
    }
  }

  /** Both frames of one level, open in the output or not. */
  predicate LevelFrames(s: IfState, i: Frame, x: Frame, around: bool) {
    if OpenInOutput(s) then SharedFrame(s, i, x) else HiddenFrame(s, i, around)
  }

  /** The frame a condition or #else leaves behind. */
  function TurnFrame(f: Frame, k: Kind, v: bool): Frame { if k == Else then ElseFrame(f) else ElifFrame(f, v) }

  /** State `s` may turn into `s'`, writing the line as `w`: the frames of the level stay related.
      `x` matters only where the group is open in the output. */
  predicate Turns(s: IfState, w: Write, s': IfState, k: Kind, i: Frame, x: Frame, around: bool, v: bool) {
    && !i.sawElse && s' != Outside
    && match w {
         case Keep => OpenInOutput(s) && OpenInOutput(s') && !x.sawElse
                      && SharedFrame(s', TurnFrame(i, k, v), TurnFrame(x, k, v))
         case KeepAsIf => !OpenInOutput(s) && OpenInOutput(s')
                      && SharedFrame(s', TurnFrame(i, k, v), IfFrame(around, v))
         case KeepAsElse => OpenInOutput(s) && OpenInOutput(s') && !x.sawElse
                      && SharedFrame(s', TurnFrame(i, k, v), ElseFrame(x))
         case KeepAsEndif => OpenInOutput(s) && !OpenInOutput(s') && HiddenFrame(s', TurnFrame(i, k, v), around)
         case Delete => OpenInOutput(s) == OpenInOutput(s') && LevelFrames(s', TurnFrame(i, k, v), x, around)
       }
  }

  lemma TurnFrames(s: IfState, ty: LineType, o: Options, i: Frame, x: Frame, around: bool, v: bool)
    requires ty.Directive? && !Opens(ty.kind) && ty.kind != Endif && s != Outside
    requires LevelFrames(s, i, x, around)
    requires !ty.dodgy ==> (ty.kind == ElTrue ==> v) && (ty.kind == ElFalse ==> !v)
    ensures
      var e := EffectOf(Transition(s, ty), o);
      && (e.Report? || e.Block? || e.Mark?)
      && (!e.Report? ==> Turns(s, e.w, e.s, ty.kind, i, x, around, v))
  {
    if OpenInOutput(s) { TurnShared(s, ty, o, i, x, around, v); } else { TurnHidden(s, ty, o, i, x, around, v); }
  }

  lemma TurnShared(s: IfState, ty: LineType, o: Options, i: Frame, x: Frame, around: bool, v: bool)
    requires ty.Directive? && !Opens(ty.kind) && ty.kind != Endif && OpenInOutput(s)
    requires SharedFrame(s, i, x)
    requires !ty.dodgy ==> (ty.kind == ElTrue ==> v) && (ty.kind == ElFalse ==> !v)
    ensures
      var e := EffectOf(Transition(s, ty), o);
      && (e.Report? || e.Block? || e.Mark?)
      && (!e.Report? ==> Turns(s, e.w, e.s, ty.kind, i, x, around, v))
  {
    if ty.kind.Else? { ElseShared(s, ty, o, i, x, around, v); } else { ElifShared(s, ty, o, i, x, around, v); }
  }

  lemma ElseShared(s: IfState, ty: LineType, o: Options, i: Frame, x: Frame, around: bool, v: bool)
    requires ty.Directive? && ty.kind.Else? && OpenInOutput(s) && SharedFrame(s, i, x)
    ensures
      var e := EffectOf(Transition(s, ty), o);
      && (e.Report? || e.Block? || e.Mark?)
      && (!e.Report? ==> Turns(s, e.w, e.s, ty.kind, i, x, around, v))
  {
  }

  lemma ElifShared(s: IfState, ty: LineType, o: Options, i: Frame, x: Frame, around: bool, v: bool)
    requires ty.Directive? && (ty.kind.Elif? || ty.kind.ElTrue? || ty.kind.ElFalse?)
    requires OpenInOutput(s) && SharedFrame(s, i, x)
    requires !ty.dodgy ==> (ty.kind == ElTrue ==> v) && (ty.kind == ElFalse ==> !v)
    ensures
      var e := EffectOf(Transition(s, ty), o);
      && (e.Report? || e.Block? || e.Mark?)
      && (!e.Report? ==> Turns(s, e.w, e.s, ty.kind, i, x, around, v))
  {
    match ty.kind
    case Elif =>
    case ElTrue =>
    case ElFalse =>
  }

  lemma TurnHidden(s: IfState, ty: LineType, o: Options, i: Frame, x: Frame, around: bool, v: bool)
    requires ty.Directive? && !Opens(ty.kind) && ty.kind != Endif && s != Outside && !OpenInOutput(s)
    requires HiddenFrame(s, i, around)
    requires !ty.dodgy ==> (ty.kind == ElTrue ==> v) && (ty.kind == ElFalse ==> !v)
    ensures
      var e := EffectOf(Transition(s, ty), o);
      && (e.Report? || e.Block? || e.Mark?)
      && (!e.Report? ==> Turns(s, e.w, e.s, ty.kind, i, x, around, v))
  {
    match ty.kind
    case Elif =>
    case ElTrue =>
    case ElFalse =>
    case Else =>
  }

  /** Inside a dropped group only the trailer states occur, and they stay among themselves. */
  lemma TurnDropped(s: IfState, ty: LineType, o: Options)
    requires ty.Directive? && !Opens(ty.kind) && ty.kind != Endif && (s.FalseTrailer? || s.FalseElse?)
    ensures
      var e := EffectOf(Transition(s, ty), o);
      e.Report? || ((e.Block? || e.Mark?) && e.w.Delete? && (e.s.FalseTrailer? || e.s.FalseElse?))
  {
  }

  lemma EndifEffect(s: IfState, ty: LineType, o: Options)
    requires ty.Directive? && ty.kind == Endif
    ensures
      var e := EffectOf(Transition(s, ty), o);
      e.Report? || (s != Outside && e.Leave? && e.w == if OpenInOutput(s) then Keep else Delete)
  {
  }

  lemma OutsideEffect(ty: LineType, o: Options)
    requires ty.Directive? && !Opens(ty.kind)
    ensures EffectOf(Transition(Outside, ty), o).Report?
  {
  }

  /** The lines that turn a group to its next branch. */
  predicate TurnsGroup(l: Line) { l.ty.Directive? && !Opens(l.ty.kind) && l.ty.kind != Endif }

  /** The output level after turning. */
  ghost function TurnedOuts(s: IfState, w: Write, outRest: seq<Frame>, k: Kind, x: Frame, around: bool,
                            v: bool): seq<Frame> {
    match w
    case Keep => outRest + [TurnFrame(x, k, v)]
    case KeepAsIf => outRest + [IfFrame(around, v)]
    case KeepAsElse => outRest + [ElseFrame(x)]
    case KeepAsEndif => outRest
    case Delete => if OpenInOutput(s) then outRest + [x] else outRest
  }

  lemma TurnWrites(s: IfState, w: Write, s': IfState, l: Line, i: Frame, x: Frame, outRest: seq<Frame>,
                   val: nat -> bool, picked: seq<nat>, kb: bool)
    requires TurnsGroup(l) && Turns(s, w, s', l.ty.kind, i, x, Active(outRest), val(l.id))
    ensures WriteStep(Cpp(if OpenInOutput(s) then outRest + [x] else outRest, picked), w, l, val, kb)
         == Cpp(TurnedOuts(s, w, outRest, l.ty.kind, x, Active(outRest), val(l.id)), picked)
  {
    assert Below(outRest + [x]) == outRest;
  }

  lemma TurnRelated(s: IfState, w: Write, s': IfState, k: Kind, rest: seq<IfState>, inRest: seq<Frame>,
                    outRest: seq<Frame>, i: Frame, x: Frame, v: bool)
    requires rest != [] && Related(rest, inRest, outRest)
    requires Turns(s, w, s', k, i, x, Active(inRest), v)
    requires Dropping(rest[|rest| - 1]) ==> s'.FalseTrailer? || s'.FalseElse?
    ensures Related(rest + [s'], inRest + [TurnFrame(i, k, v)], TurnedOuts(s, w, outRest, k, x, Active(inRest), v))
  {
    RelatedPush(rest, inRest, outRest, s', TurnFrame(i, k, v), TurnedOuts(s, w, outRest, k, x, Active(inRest), v));
  }

  /** The level on top of related stacks. */
  lemma RelatedTop(stack: seq<IfState>, ins: seq<Frame>, outs: seq<Frame>)
    returns (rest: seq<IfState>, inRest: seq<Frame>, outRest: seq<Frame>, x: Frame)
    requires |stack| > 1 && Related(stack, ins, outs)
    ensures rest == stack[..|stack| - 1] && rest != [] && ins != [] && inRest == Below(ins)
    ensures Related(rest, inRest, outRest)
    ensures outs == if OpenInOutput(stack[|stack| - 1]) then outRest + [x] else outRest
    ensures stack[|stack| - 1] != Outside
    ensures LevelFrames(stack[|stack| - 1], Top(ins), x, Active(inRest))
    ensures Dropping(rest[|rest| - 1]) ==> stack[|stack| - 1].FalseTrailer? || stack[|stack| - 1].FalseElse?
    ensures !Dropping(rest[|rest| - 1]) ==> Active(inRest) == Active(outRest)
  {
    rest, inRest := stack[..|stack| - 1], Below(ins);
    if OpenInOutput(stack[|stack| - 1]) { outRest, x := Below(outs), Top(outs); } else { outRest, x := outs, Top(ins); }
    RelatedActive(rest, inRest, outRest);
  }

  /** The input turns to the next branch. */
  lemma TurnReads(ins: seq<Frame>, l: Line, val: nat -> bool, picked: seq<nat>, kb: bool)
    requires ins != [] && TurnsGroup(l) && !Top(ins).sawElse
    ensures CppStep(Cpp(ins, picked), Source(l), val, kb)
      == Cpp(Below(ins) + [TurnFrame(Top(ins), l.ty.kind, val(l.id))], picked)
  {
  }

  /** An #elif or #else within a group whose frames are related. */
  lemma Turn(stack: seq<IfState>, ins: seq<Frame>, outs: seq<Frame>, l: Line, o: Options, val: nat -> bool,
             picked: seq<nat>, kb: bool)
    requires |stack| > 1 && Related(stack, ins, outs) && Agrees(l, val) && TurnsGroup(l)
    ensures
      var e := EffectOf(Transition(stack[|stack| - 1], l.ty), o);
      && (e.Report? || e.Block? || e.Mark?)
      && (!e.Report? ==>
        var i := CppStep(Cpp(ins, picked), Source(l), val, kb);
        var x := WriteStep(Cpp(outs, picked), e.w, l, val, kb);
        && i.Cpp? && x.Cpp? && i.picked == picked && x.picked == picked
        && Related(stack[..|stack| - 1] + [e.s], i.frames, x.frames))
  {
    var s, v := stack[|stack| - 1], val(l.id);
    var rest, inRest, outRest, x := RelatedTop(stack, ins, outs);
    TurnFrames(s, l.ty, o, Top(ins), x, Active(inRest), v);
    if s.FalseTrailer? || s.FalseElse? { TurnDropped(s, l.ty, o); }
    var e := EffectOf(Transition(s, l.ty), o);
    if !e.Report? {
      TurnBy(s, e.w, e.s, l, rest, inRest, outRest, Top(ins), x, val, picked, kb);
      TurnReads(ins, l, val, picked, kb);
    }
  }

  /** The same for one effect: what is written, and the frames that it leaves. */
  lemma TurnBy(s: IfState, w: Write, s': IfState, l: Line, rest: seq<IfState>, inRest: seq<Frame>, outRest: seq<Frame>,
               i: Frame, x: Frame, val: nat -> bool, picked: seq<nat>, kb: bool)
    requires rest != [] && Related(rest, inRest, outRest) && TurnsGroup(l)
    requires Turns(s, w, s', l.ty.kind, i, x, Active(inRest), val(l.id))
    requires Dropping(rest[|rest| - 1]) ==> w.Delete? && (s'.FalseTrailer? || s'.FalseElse?)
    requires !Dropping(rest[|rest| - 1]) ==> Active(inRest) == Active(outRest)
    ensures
      var outs := if OpenInOutput(s) then outRest + [x] else outRest;
      var r := WriteStep(Cpp(outs, picked), w, l, val, kb);
      r.Cpp? && r.picked == picked && Related(rest + [s'], inRest + [TurnFrame(i, l.ty.kind, val(l.id))], r.frames)
  {
    TurnRelated(s, w, s', l.ty.kind, rest, inRest, outRest, i, x, val(l.id));
    if !Dropping(rest[|rest| - 1]) {
      TurnWrites(s, w, s', l, i, x, outRest, val, picked, kb);
    }
  }

  lemma CloseGroup(stack: seq<IfState>, ins: seq<Frame>, outs: seq<Frame>, l: Line, o: Options, val: nat -> bool,
                   picked: seq<nat>, kb: bool)
    requires |stack| > 1 && Related(stack, ins, outs)
    requires l.ty.Directive? && l.ty.kind == Endif
    ensures
      var e := EffectOf(Transition(stack[|stack| - 1], l.ty), o);
      && (e.Report? || e.Leave?)
      && (e.Leave? ==>
        var i := CppStep(Cpp(ins, picked), Source(l), val, kb);
        var x := WriteStep(Cpp(outs, picked), e.w, l, val, kb);
        && i.Cpp? && x.Cpp? && i.picked == picked && x.picked == picked
        && Related(stack[..|stack| - 1], i.frames, x.frames))
  {
    EndifEffect(stack[|stack| - 1], l.ty, o);
  }

  /** The effects of opening a group, frame by frame. */
  lemma OpenFrames(s: IfState, ty: LineType, o: Options, around: bool, v: bool)
    requires ty.Directive? && Opens(ty.kind)
    requires Dropping(s) ==> !around
    requires !ty.dodgy ==> (ty.kind == TrueI || ty.kind == True ==> v) && (ty.kind == FalseI || ty.kind == False ==> !v)
    ensures
      var a := Transition(s, ty);
      var e := EffectOf(a, o);
      && OpensGroup(a) && (e.Report? || e.Block?)
      && (e.Block? ==>
        && e.s != Outside
        && (e.w.Keep? || e.w.Delete?)
        && OpenInOutput(e.s) == e.w.Keep?
        && (Dropping(s) ==> e.s.FalseTrailer?)
        && LevelFrames(e.s, IfFrame(around, v), IfFrame(around, v), around))
  {
  }

  /** The first line of a group: a new level on every stack that shows it. */
  lemma OpenGroup(stack: seq<IfState>, ins: seq<Frame>, outs: seq<Frame>, l: Line, o: Options, val: nat -> bool,
                  picked: seq<nat>, kb: bool)
    requires stack != [] && Related(stack, ins, outs) && Agrees(l, val)
    requires l.ty.Directive? && Opens(l.ty.kind)
    ensures
      var a := Transition(stack[|stack| - 1], l.ty);
      var e := EffectOf(a, o);
      && OpensGroup(a) && (e.Report? || e.Block?)
      && (e.Block? ==>
        var i := CppStep(Cpp(ins, picked), Source(l), val, kb);
        var x := WriteStep(Cpp(outs, picked), e.w, l, val, kb);
        && i.Cpp? && x.Cpp? && i.picked == picked && x.picked == picked
        && Related(stack + [e.s], i.frames, x.frames))
  {
    RelatedActive(stack, ins, outs);
    var s, v := stack[|stack| - 1], val(l.id);
    OpenFrames(s, l.ty, o, Active(ins), v);
    var e := EffectOf(Transition(s, l.ty), o);
    if e.Block? {
      var x := WriteStep(Cpp(outs, picked), e.w, l, val, kb);
      if e.w.Keep? { assert x.frames == outs + [IfFrame(Active(ins), v)]; }
      RelatedPush(stack, ins, outs, e.s, IfFrame(Active(ins), v), x.frames);
    }
  }

  /** The states of unifdef, the preprocessor on the input and the preprocessor on the output agree. */
  ghost predicate InStep(m: Machine, i: CppState, x: CppState) {
    && m.Valid() && i.Cpp? && x.Cpp?
    && i.picked == x.picked
    && Related(m.Stack(), i.frames, x.frames)
  }

  /** How a step writes its line. */
  ghost function StepWrite(m: Machine, o: Options, l: Line): Write
    requires m.Valid()
  {
    var e := EffectOf(Transition(m.ifstate[m.depth], l.ty), o);
    if e.Text? || e.Block? || e.Mark? || e.Leave? then e.w else Delete
  }

  lemma PlainKeeps(m: Machine, o: Options, l: Line, val: nat -> bool, kb: bool, i: CppState, x: CppState)
    requires InStep(m, i, x) && l.ty.Plain?
    ensures Step(m, o, l).Next?
    ensures InStep(Step(m, o, l).m, CppStep(i, Source(l), val, kb), WriteStep(x, StepWrite(m, o, l), l, val, kb))
  {
    RelatedActive(m.Stack(), i.frames, x.frames);
    PerformPlain(m, o, l);
  }

  lemma PerformPlain(m: Machine, o: Options, l: Line)
    requires m.Valid() && l.ty.Plain?
    ensures StepWrite(m, o, l) == if Dropping(m.ifstate[m.depth]) then Delete else Keep
    ensures Step(m, o, l) == Next(Written(m, o, StepWrite(m, o, l), l))
    ensures Step(m, o, l).m.Stack() == m.Stack()
  {
  }

  lemma OpenKeeps(m: Machine, o: Options, l: Line, val: nat -> bool, kb: bool, i: CppState, x: CppState)
    requires InStep(m, i, x) && l.ty.Directive? && Opens(l.ty.kind) && Agrees(l, val)
    ensures Step(m, o, l).Next? || Step(m, o, l).Failed?
    ensures Step(m, o, l).Next? ==>
      InStep(Step(m, o, l).m, CppStep(i, Source(l), val, kb), WriteStep(x, StepWrite(m, o, l), l, val, kb))
  {
    OpenGroup(m.Stack(), i.frames, x.frames, l, o, val, i.picked, kb);
    PerformOpens(m, o, l);
  }

  lemma PerformOpens(m: Machine, o: Options, l: Line)
    requires m.Valid() && OpensGroup(Transition(m.ifstate[m.depth], l.ty))
    requires var e := EffectOf(Transition(m.ifstate[m.depth], l.ty), o); e.Report? || e.Block?
    ensures Step(m, o, l).Next? || Step(m, o, l).Failed?
    ensures Step(m, o, l).Next? ==>
      var e := EffectOf(Transition(m.ifstate[m.depth], l.ty), o);
      && e.Block?
      && Step(m, o, l).m.out == Written(m, o, e.w, l).out
      && Step(m, o, l).m.Stack() == m.Stack() + [e.s]
  {
    if Step(m, o, l).Next? {
      var e := EffectOf(Transition(m.ifstate[m.depth], l.ty), o);
      var m' := Step(m, o, l).m;
      assert m'.ifstate == m.ifstate[m.depth + 1 := e.s] && m'.depth == m.depth + 1;
      assert m'.ifstate[..m.depth + 2] == m.ifstate[..m.depth + 1] + [e.s];
    }
  }

  lemma TurnKeeps(m: Machine, o: Options, l: Line, val: nat -> bool, kb: bool, i: CppState, x: CppState)
    requires InStep(m, i, x) && TurnsGroup(l) && Agrees(l, val)
    ensures Step(m, o, l).Next? || Step(m, o, l).Failed?
    ensures Step(m, o, l).Next? ==>
      InStep(Step(m, o, l).m, CppStep(i, Source(l), val, kb), WriteStep(x, StepWrite(m, o, l), l, val, kb))
  {
    if m.depth == 0 {
      OutsideEffect(l.ty, o);
    } else {
      Turn(m.Stack(), i.frames, x.frames, l, o, val, i.picked, kb);
      PerformTurns(m, o, l);
    }
  }

  lemma PerformTurns(m: Machine, o: Options, l: Line)
    requires m.Valid() && m.depth > 0 && TurnsGroup(l)
    ensures
      var e := EffectOf(Transition(m.ifstate[m.depth], l.ty), o);
      && (e.Report? ==> Step(m, o, l).Failed?)
      && (e.Block? || e.Mark? ==>
        && Step(m, o, l).Next?
        && Step(m, o, l).m.out == Written(m, o, e.w, l).out
        && Step(m, o, l).m.Stack() == m.Stack()[..m.depth] + [e.s])
  {
    var e := EffectOf(Transition(m.ifstate[m.depth], l.ty), o);
    if e.Block? || e.Mark? {
      var m' := Step(m, o, l).m;
      assert m'.ifstate == m.ifstate[m.depth := e.s] && m'.depth == m.depth;
      assert m'.ifstate[..m.depth + 1] == m.ifstate[..m.depth + 1][..m.depth] + [e.s];
    }
  }

  lemma CloseKeeps(m: Machine, o: Options, l: Line, val: nat -> bool, kb: bool, i: CppState, x: CppState)
    requires InStep(m, i, x) && l.ty.Directive? && l.ty.kind == Endif
    ensures Step(m, o, l).Next? || Step(m, o, l).Failed?
    ensures Step(m, o, l).Next? ==>
      InStep(Step(m, o, l).m, CppStep(i, Source(l), val, kb), WriteStep(x, StepWrite(m, o, l), l, val, kb))
  {
    if m.depth == 0 {
      OutsideEffect(l.ty, o);
    } else {
      CloseGroup(m.Stack(), i.frames, x.frames, l, o, val, i.picked, kb);
      PerformCloses(m, o, l);
    }
  }

  lemma PerformCloses(m: Machine, o: Options, l: Line)
    requires m.Valid() && m.depth > 0 && l.ty.Directive? && l.ty.kind == Endif
    ensures
      var e := EffectOf(Transition(m.ifstate[m.depth], l.ty), o);
      && (e.Report? ==> Step(m, o, l).Failed?)
      && (e.Leave? ==>
        && Step(m, o, l).Next?
        && Step(m, o, l).m.out == Written(m, o, e.w, l).out
        && Step(m, o, l).m.Stack() == m.Stack()[..m.depth])
  {
    var e := EffectOf(Transition(m.ifstate[m.depth], l.ty), o);
    if e.Leave? {
      var m' := Step(m, o, l).m;
      assert m'.ifstate == m.ifstate && m'.depth == m.depth - 1;
      assert m.ifstate[..m.depth] == m.ifstate[..m.depth + 1][..m.depth];
    }
  }

  /** Whatever a step does, its line is written in one of the forms. */
  lemma StepOut(m: Machine, o: Options, l: Line)
    requires m.Valid() && Step(m, o, l).Next? && !l.ty.Unevaluable?
    ensures Step(m, o, l).m.out == Written(m, o, StepWrite(m, o, l), l).out
  {
    EffectsFit(m.ifstate[m.depth], l.ty, o);
  }

  /** The agreement after a step. */
  lemma StepAgrees(m: Machine, o: Options, l: Line, val: nat -> bool, kb: bool, i: CppState, x: CppState)
    requires InStep(m, i, x) && !l.ty.Unevaluable? && Agrees(l, val)
    ensures !Step(m, o, l).Aborted?
    ensures Step(m, o, l).Exit? ==> l.ty.Eof? && i.frames == x.frames == [] && Step(m, o, l).m == m
    ensures Step(m, o, l).Next? ==>
      InStep(Step(m, o, l).m, CppStep(i, Source(l), val, kb), WriteStep(x, StepWrite(m, o, l), l, val, kb))
  {
    if l.ty.Plain? {
      PlainKeeps(m, o, l, val, kb, i, x);
    } else if l.ty.Eof? {
      RelatedDepths(m.Stack(), i.frames, x.frames);
    } else if Opens(l.ty.kind) {
      OpenKeeps(m, o, l, val, kb, i, x);
    } else if l.ty.kind == Endif {
      CloseKeeps(m, o, l, val, kb, i, x);
    } else {
      TurnKeeps(m, o, l, val, kb, i, x);
    }
  }

  /** One step of unifdef: the three states keep agreeing, and neither depth abort is reached. */
  lemma StepKeeps(m: Machine, o: Options, l: Line, val: nat -> bool, kb: bool, i: CppState)
    requires InStep(m, i, CppRun(EmittedAll(m.out), val, kb))
    requires !l.ty.Unevaluable? && Agrees(l, val) && BlanksCount(o, kb)
    ensures !Step(m, o, l).Aborted?
    ensures Step(m, o, l).Exit? ==>
      l.ty.Eof? && i.frames == [] && CppRun(EmittedAll(m.out), val, kb).frames == [] && Step(m, o, l).m == m
    ensures Step(m, o, l).Next? ==>
      InStep(Step(m, o, l).m, CppStep(i, Source(l), val, kb), CppRun(EmittedAll(Step(m, o, l).m.out), val, kb))
  {
    StepAgrees(m, o, l, val, kb, i, CppRun(EmittedAll(m.out), val, kb));
    if Step(m, o, l).Next? {
      StepOut(m, o, l);
      WrittenReads(m, o, StepWrite(m, o, l), l, val, kb);
    }
  }

  lemma {:induction false} RunKeeps(ls: seq<Line>, o: Options, val: nat -> bool, kb: bool)
    requires forall l :: l in ls ==> !l.ty.Unevaluable? && !l.ty.Eof? && Agrees(l, val)
    requires BlanksCount(o, kb)
    ensures Run(ls, o).Next? || Run(ls, o).Failed?
    ensures Run(ls, o).Next? ==>
      InStep(Run(ls, o).m, CppRun(Sources(ls), val, kb), CppRun(EmittedAll(Run(ls, o).m.out), val, kb))
  {
    if ls == [] {
      assert Init().Stack() == [Outside];
    } else {
      var before, l := ls[..|ls| - 1], ls[|ls| - 1];
      RunKeeps(before, o, val, kb);
      if Run(before, o).Next? {
        var m := Run(before, o).m;
        StepKeeps(m, o, l, val, kb, CppRun(Sources(before), val, kb));
        CppRunSnoc(Sources(before), Source(l), val, kb);
      }
    }
  }

  /** The lines of a file as unifdef classifies them: no end of file inside, nothing unevaluable, which
      is how the line parser reports them. */
  predicate Classified(ls: seq<Line>) {
    forall l :: l in ls ==> !l.ty.Unevaluable? && !l.ty.Eof?
  }

  /** Run on a whole file, up to and including its end. */
  ghost function RunFile(ls: seq<Line>, o: Options, inComment: bool): Outcome {
    Run(ls + [Line(Eof(inComment), |ls|)], o)
  }

  /** The main result.  When unifdef ends normally, both files are well nested and select the same text
      lines under every truth assignment that agrees with what it was told. */
  lemma FilePreserved(ls: seq<Line>, o: Options, inComment: bool, val: nat -> bool, kb: bool)
    requires Classified(ls) && BlanksCount(o, kb)
    requires forall l :: l in ls ==> Agrees(l, val)
    requires RunFile(ls, o, inComment).Exit?
    ensures Preprocess(Sources(ls), val, kb).Selected?
    ensures Preprocess(EmittedAll(RunFile(ls, o, inComment).m.out), val, kb) == Preprocess(Sources(ls), val, kb)
  {
    var eof := Line(Eof(inComment), |ls|);
    assert (ls + [eof])[..|ls|] == ls;
    RunKeeps(ls, o, val, kb);
    var m := Run(ls, o).m;
    StepKeeps(m, o, eof, val, kb, CppRun(Sources(ls), val, kb));
  }

  /** The bottom of the stack, and only the bottom, is OUTSIDE. */
  ghost predicate WellStacked(m: Machine) {
    && m.Valid() && m.ifstate[0] == Outside
    && forall d :: 0 < d <= m.depth ==> m.ifstate[d] != Outside
  }

  /** Effects keep the bottom of the stack, and only the bottom, OUTSIDE. */
  predicate Fitting(s: IfState, a: Action, e: Effect) {
    && !e.Crash?
    && (e.Block? || e.Mark? ==> e.s != Outside)
    && (OpensGroup(a) ==> e.Report? || e.Block?)
    && (s == Outside && !OpensGroup(a) ==> e.Report? || e.Text? || e.Finish?)
  }

  lemma OpenEffectsFit(s: IfState, ty: LineType, o: Options)
    requires ty.Directive? && Opens(ty.kind)
    ensures Fitting(s, Transition(s, ty), EffectOf(Transition(s, ty), o))
  {
    if !Dropping(s) { assert Transition(s, ty) == OpenKept(ty.kind, ty.dodgy); }
  }

  lemma OtherEffectsFit(s: IfState, ty: LineType, o: Options)
    requires ty.Directive? && !Opens(ty.kind)
    ensures Fitting(s, Transition(s, ty), EffectOf(Transition(s, ty), o))
  {
    match ty.kind
    case Elif =>
    case ElTrue =>
    case ElFalse =>
    case Else =>
    case Endif =>
  }

  lemma EffectsFit(s: IfState, ty: LineType, o: Options)
    requires !ty.Unevaluable?
    ensures Fitting(s, Transition(s, ty), EffectOf(Transition(s, ty), o))
  {
    if ty.Directive? {
      if Opens(ty.kind) { OpenEffectsFit(s, ty, o); } else { OtherEffectsFit(s, ty, o); }
    }
  }

  lemma StepStacks(m: Machine, o: Options, l: Line)
    requires WellStacked(m) && !l.ty.Unevaluable?
    ensures !Step(m, o, l).Aborted?
    ensures Step(m, o, l).Next? ==> WellStacked(Step(m, o, l).m)
  {
    EffectsFit(m.ifstate[m.depth], l.ty, o);
  }

  /** No file, well nested or not, reaches one of the abort() calls of the state machine. */
  lemma {:induction false} NeverAborts(ls: seq<Line>, o: Options)
    requires forall l :: l in ls ==> !l.ty.Unevaluable?
    ensures !Run(ls, o).Aborted?
    ensures Run(ls, o).Next? ==> WellStacked(Run(ls, o).m)
  {
    if ls != [] {
      NeverAborts(ls[..|ls| - 1], o);
      var before := Run(ls[..|ls| - 1], o);
      if before.Next? { StepStacks(before.m, o, ls[|ls| - 1]); }
    }
  }

  /** The complaints about nesting, as opposed to the limits of the program. */
  predicate NestingComplaint(msg: Message) {
    msg.InappropriateElif? || msg.InappropriateElse? || msg.InappropriateEndif? || msg.PrematureEof?
  }

  /** Which line makes unifdef complain about the nesting. */
  lemma ComplaintStep(m: Machine, o: Options, l: Line)
    requires m.Valid()
    requires Step(m, o, l).Failed? && NestingComplaint(Step(m, o, l).msg)
    ensures var s := m.ifstate[m.depth];
      || (l.ty.Eof? && s != Outside)
      || (l.ty.Directive? && !Opens(l.ty.kind) && s == Outside)
      || (TurnsGroup(l) && (s.PassElse? || s.FalseElse? || s.TrueElse?))
  {
    match m.ifstate[m.depth]
    case Outside =>
    case FalsePrefix =>
    case TruePrefix =>
    case PassMiddle =>
    case FalseMiddle =>
    case TrueMiddle =>
    case PassElse =>
    case FalseElse =>
    case TrueElse =>
    case FalseTrailer =>
  }

  lemma ComplaintIllFormed(m: Machine, o: Options, l: Line, val: nat -> bool, i: CppState, x: CppState)
    requires InStep(m, i, x) && WellStacked(m)
    requires l.ty.Plain? || l.ty.Directive?
    requires Step(m, o, l).Failed? && NestingComplaint(Step(m, o, l).msg)
    ensures CppStep(i, Source(l), val, false).IllFormed?
  {
    ComplaintStep(m, o, l);
    RelatedDepths(m.Stack(), i.frames, x.frames);
    assert m.Stack()[|m.Stack()| - 1] == m.ifstate[m.depth];
  }

  /** Complaints about nesting are justified: the preprocessor would reject the file too. */
  lemma {:induction false} ComplaintsJustified(ls: seq<Line>, o: Options, val: nat -> bool)
    requires Classified(ls) && (forall l :: l in ls ==> Agrees(l, val))
    requires Run(ls, o).Failed? && NestingComplaint(Run(ls, o).msg)
    ensures CppRun(Sources(ls), val, false).IllFormed?
  {
    var before, l := ls[..|ls| - 1], ls[|ls| - 1];
    CppRunSnoc(Sources(before), Source(l), val, false);
    if Run(before, o).Failed? {
      ComplaintsJustified(before, o, val);
    } else {
      RunKeeps(before, o, val, false);
      NeverAborts(before, o);
      var m := Run(before, o).m;
      ComplaintIllFormed(m, o, l, val, CppRun(Sources(before), val, false), CppRun(EmittedAll(m.out), val, false));
    }
  }

  /** A file that unifdef refuses at its end was left open. */
  lemma UnterminatedJustified(ls: seq<Line>, o: Options, inComment: bool, val: nat -> bool)
    requires Classified(ls) && (forall l :: l in ls ==> Agrees(l, val))
    requires RunFile(ls, o, inComment) == Failed(PrematureEof)
    ensures Preprocess(Sources(ls), val, false).NotWellNested?
  {
    var eof := Line(Eof(inComment), |ls|);
    assert (ls + [eof])[..|ls|] == ls;
    RunKeeps(ls, o, val, false);
    if Run(ls, o).Failed? {
      ComplaintsJustified(ls, o, val);
    } else {
      var m := Run(ls, o).m;
      RelatedDepths(m.Stack(), CppRun(Sources(ls), val, false).frames, CppRun(EmittedAll(m.out), val, false).frames);
      NeverAborts(ls, o);
      ComplaintStep(m, o, eof);
    }
  }

  /** The groups open in the output are exactly the levels in the PASS and MIDDLE states. */
  lemma OpenGroupsMatch(ls: seq<Line>, o: Options, val: nat -> bool)
    requires Classified(ls) && (forall l :: l in ls ==> Agrees(l, val))
    requires Run(ls, o).Next?
    ensures
      var m := Run(ls, o).m;
      var x := CppRun(EmittedAll(m.out), val, false);
      x.Cpp? && |x.frames| == OpenLevels(m.Stack())
  {
    RunKeeps(ls, o, val, false);
    var m := Run(ls, o).m;
    RelatedDepths(m.Stack(), CppRun(Sources(ls), val, false).frames, CppRun(EmittedAll(m.out), val, false).frames);
  }
}
