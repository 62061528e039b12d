/** The unifdef program itself: global state updated line by line, proved to follow UnifdefTable. */
module Unifdef {
  import opened UnifdefTable
  import opened UnifdefPreserves
  import opened UnifdefGroups
  import opened CppConditionals

  /** How a transition function returns: normally, through exit(), error() or abort(). */
  datatype Signal = Go | Stop | Error(msg: Message) | Abort

  ghost predicate Reports(sig: Signal, m: Machine, r: Outcome) {
    match r
    case Next(n) => sig == Go && m == n
    case Exit(n) => sig == Stop && m == n
    case Failed(msg) => sig == Error(msg)
    case Aborted => sig == Abort
  }

  class Program {
    const o: Options
    const ifstate: array<IfState>
    const ignoring: array<bool>
    var depth: nat
    var delcount: nat
    var blankcount: nat
    var blankmax: nat
    var exitstat: nat
    var out: seq<OutLine>

    ghost predicate Valid()
      reads this
    {
      ifstate.Length == MAXDEPTH && ignoring.Length == MAXDEPTH && depth < MAXDEPTH
    }

    ghost function View(): Machine
      reads this, ifstate, ignoring
    {
      Machine(ifstate[..], ignoring[..], depth, delcount, blankcount, blankmax, exitstat, out)
    }

    constructor (options: Options)
      ensures Valid() && fresh(ifstate) && fresh(ignoring)
      ensures o == options && View() == Init()
    {
      o := options;
      ifstate := new IfState[MAXDEPTH](_ => Outside);
      ignoring := new bool[MAXDEPTH](_ => false);
      depth, delcount, exitstat, out := 0, 0, 0, [];
      blankcount, blankmax := 1000, 1000;
      new;
      assert ifstate[..] == seq(MAXDEPTH, _ => Outside);
      assert ignoring[..] == seq(MAXDEPTH, _ => false);
    }

    method FlushLine(form: OutLine, blank: bool, keep: bool)
      modifies this
      ensures View() == Flush(old(View()), o, form, blank, keep)
    {
      if keep {
        if blank && o.compBlank && blankcount != blankmax {
          delcount := delcount + 1;
          blankcount := blankcount + 1;
        } else {
          out := out + [form];
          delcount := 0;
          blankcount := if blank then blankcount + 1 else 0;
          blankmax := blankcount;
        }
      } else {
        if o.lnBlank { out := out + [Newline]; }
        exitstat := 1;
        delcount := delcount + 1;
        blankcount := 0;
      }
    }

    method WriteLine(w: Write, l: Line)
      modifies this
      ensures View() == Written(old(View()), o, w, l)
    {
      match w {
        case Keep => FlushLine(AsRead(l), Blank(l), true);
        case KeepAsIf => FlushLine(AsIf(l), false, true);
        case KeepAsElse => FlushLine(AsElse(l), false, true);
        case KeepAsEndif => FlushLine(AsEndif(l), false, true);
        case Delete => FlushLine(AsRead(l), Blank(l), false);
      }
    }

    method DoIgnoreOff()
      requires Valid() && depth > 0
      modifies ignoring
      ensures View() == IgnoreOff(old(View()))
    {
      ignoring[depth] := ignoring[depth - 1];
    }

    method DoIgnoreOn()
      requires Valid()
      modifies ignoring
      ensures View() == IgnoreOn(old(View()))
    {
      ignoring[depth] := true;
    }

    method DoState(s: IfState)
      requires Valid()
      modifies ifstate
      ensures View() == SetState(old(View()), s)
    {
      ifstate[depth] := s;
    }

    method DoPerform(e: Effect, l: Line) returns (sig: Signal)
      requires Valid()
      modifies this, ifstate, ignoring
      ensures sig == Go ==> Valid()
      ensures Reports(sig, View(), Perform(e, old(View()), o, l))
    {
      match e {
        case Report(msg) => return Error(msg);
        case Text(w) => WriteLine(w, l);
        case Block(w, s) =>
          if depth == 0 { return Abort; }
          WriteLine(w, l);
          DoIgnoreOff();
          DoState(s);
        case Mark(w, s) =>
          WriteLine(w, l);
          DoState(s);
        case Leave(w) =>
          if depth == 0 { return Abort; }
          WriteLine(w, l);
          depth := depth - 1;
        case Finish =>
          if l.ty.Eof? && l.ty.inComment { return Error(EofInComment); }
          return Stop;
        case Crash => return Abort;
      }
      return Go;
    }

    method DoStep(l: Line) returns (sig: Signal)
      requires Valid()
      modifies this, ifstate, ignoring
      ensures sig == Go ==> Valid()
      ensures Reports(sig, View(), Step(old(View()), o, l))
    {
      var a := Transition(ifstate[depth], l.ty);
      var e := EffectOf(a, o);
      if OpensGroup(a) {
        if e.Report? { return Error(e.msg); }
        if depth == MAXDEPTH - 1 { return Error(TooManyLevels); }
        depth := depth + 1;
        sig := DoPerform(e, l);
        if sig == Go && TurnsIgnoringOn(a) { DoIgnoreOn(); }
      } else {
        sig := DoPerform(e, l);
      }
    }

    /** The driver loop: one transition per line, the end of file included. */
    method Process(ls: seq<Line>, inComment: bool) returns (sig: Signal)
      requires Valid() && View() == Init()
      requires Classified(ls)
      modifies this, ifstate, ignoring
      ensures sig != Go && sig != Abort
      ensures Reports(sig, View(), RunFile(ls, o, inComment))
      ensures sig == Stop ==> SameText(ls, out, o) && NoneDecided(out)
      ensures sig == Stop && NoneDodgy(ls) && Consistent(ls) ==> Reduced(ls, View(), o)
    {
      var file := ls + [Line(Eof(inComment), |ls|)];
      NeverAborts(file, o);
      var n := 0;
      sig := Go;
      ghost var soFar := Run(file[..n], o);
      while sig == Go && n < |file|
        invariant 0 <= n <= |file| && soFar == Run(file[..n], o)
        invariant sig == Go ==> Valid()
        invariant Reports(sig, View(), soFar)
        invariant sig != Go ==> soFar == Run(file, o)
      {
        RunNext(file, n, o);
        sig := DoStep(file[n]);
        n := n + 1;
        soFar := Run(file[..n], o);
        if sig != Go { EndedStays(file, n, o); }
      }
      assert file[..|file|] == file;
      EofEnds(ls, o, inComment);
      if sig == Stop {
        StoppedSame(ls, o, inComment);
        FileDecided(ls, o, inComment);
        if NoneDodgy(ls) && Consistent(ls) { StoppedReduced(ls, o, inComment); }
      }
    }
  }

  /** Whatever the conditions are, as long as they agree with what unifdef was told, the preprocessor selects
      the same text from the output as from the input. */
  ghost predicate SameText(ls: seq<Line>, out: seq<OutLine>, o: Options) {
    forall val: nat -> bool, kb | BlanksCount(o, kb) && (forall l :: l in ls ==> Agrees(l, val)) ::
      && Preprocess(Sources(ls), val, kb).Selected?
      && Preprocess(EmittedAll(out), val, kb) == Preprocess(Sources(ls), val, kb)
  }

  /** The decided lines do not contradict each other, as is so when lines are numbered. */
  ghost predicate Consistent(ls: seq<Line>) { exists val: nat -> bool :: AllAgree(ls, val) }

  ghost predicate AllAgree(ls: seq<Line>, val: nat -> bool) { forall l :: l in ls ==> Agrees(l, val) }

  lemma StoppedReduced(ls: seq<Line>, o: Options, inComment: bool)
    requires Classified(ls) && NoneDodgy(ls) && Consistent(ls) && RunFile(ls, o, inComment).Exit?
    ensures Reduced(ls, RunFile(ls, o, inComment).m, o)
  {
    var val: nat -> bool :| AllAgree(ls, val);
    OutputReduced(ls, o, inComment, val);
  }

  lemma StoppedSame(ls: seq<Line>, o: Options, inComment: bool)
    requires Classified(ls) && RunFile(ls, o, inComment).Exit?
    ensures SameText(ls, RunFile(ls, o, inComment).m.out, o)
  {
    forall val: nat -> bool, kb | BlanksCount(o, kb) && (forall l :: l in ls ==> Agrees(l, val))
      ensures Preprocess(Sources(ls), val, kb).Selected?
      ensures Preprocess(EmittedAll(RunFile(ls, o, inComment).m.out), val, kb) == Preprocess(Sources(ls), val, kb)
    {
      FilePreserved(ls, o, inComment, val, kb);
    }
  }

  lemma RunNext(file: seq<Line>, n: nat, o: Options)
    requires n < |file| && Run(file[..n], o).Next?
    ensures Run(file[..n + 1], o) == Step(Run(file[..n], o).m, o, file[n])
  {
    assert file[..n + 1][..n] == file[..n];
  }

  lemma {:induction false} EndedStays(file: seq<Line>, n: nat, o: Options)
    requires n <= |file| && !Run(file[..n], o).Next?
    ensures Run(file, o) == Run(file[..n], o)
  {
    if n < |file| {
      assert file[..|file| - 1][..n] == file[..n];
      EndedStays(file[..|file| - 1], n, o);
    } else {
      assert file[..n] == file;
    }
  }

  lemma EofEnds(ls: seq<Line>, o: Options, inComment: bool)
    ensures !RunFile(ls, o, inComment).Next?
  {
    var eof := Line(Eof(inComment), |ls|);
    assert (ls + [eof])[..|ls|] == ls;
  }
}
