/** The #if state machine of unifdef on values: states, line types, the transition table and what
    each transition function does to the stack, the counters and the output. */
module UnifdefTable {

  datatype Kind = TrueI | FalseI | If | True | False | Elif | ElTrue | ElFalse | Else | Endif

  /** Line types.  Every directive also has a dodgy form (not on one physical line). */
  datatype LineType =
    | Directive(kind: Kind, dodgy: bool)
    | Plain(blank: bool)
    | Eof(inComment: bool)
    | Unevaluable

  datatype Line = Line(ty: LineType, id: nat)

  datatype IfState =
    | Outside | FalsePrefix | TruePrefix | PassMiddle | FalseMiddle
    | TrueMiddle | PassElse | FalseElse | TrueElse | FalseTrailer

  /** What is written: a line as read, with its keyword edited, or a newline standing in for it (-b). */
  datatype OutLine =
    | AsRead(line: Line)
    | AsIf(line: Line)
    | AsElse(line: Line)
    | AsEndif(line: Line)
    | Newline

  datatype Options = Options(compBlank: bool, lnBlank: bool, iocccOk: bool)

  datatype Message =
    | InappropriateElif | InappropriateElse | InappropriateEndif | PrematureEof
    | Obfuscated | TooManyLevels | EofInComment

  datatype Action =
    | Eelif | Eelse | Eendif | Eeof | Eioccc | Print | Drop
    | Strue | Sfalse | Selse | Pelif | Pelse | Pendif
    | Dfalse | Delif | Delse | Dendif
    | Fdrop | Fpass | Ftrue | Ffalse | Oiffy | Oif | Oelif
    | Idrop | Itrue | Ifalse | Mpass | Mtrue | Melif | Melse
    | Done | AbortNow

  const MAXDEPTH: nat := 64

  /** The first five columns of every row, for plain and for dodgy directives. */
  function OpenKept(k: Kind, dodgy: bool): Action
    requires Opens(k)
  {
    match k
    case TrueI => if dodgy then Oiffy else Itrue
    case FalseI => if dodgy then Oiffy else Ifalse
    case If => Fpass
    case True => if dodgy then Oif else Ftrue
    case _ => if dodgy then Oif else Ffalse
  }

  function OpenDropped(k: Kind): Action {
    if k == TrueI || k == FalseI then Idrop else Fdrop
  }

  predicate Opens(k: Kind) { k.TrueI? || k.FalseI? || k.If? || k.True? || k.False? }

  /** The transition table. */
  function Transition(s: IfState, ty: LineType): Action {
    match ty
    case Unevaluable => AbortNow
    case Eof(_) => if s == Outside then Done else Eeof
    case Plain(_) => if Dropping(s) then Drop else Print
    case Directive(k, d) =>
      if Opens(k) then if Dropping(s) then OpenDropped(k) else OpenKept(k, d)
      else
        match s
        case Outside => Reject(k)
        case FalsePrefix =>
          (match k
           case Elif => Mpass
           case ElTrue => if d then Eioccc else Strue
           case ElFalse => if d then Eioccc else Sfalse
           case Else => if d then Eioccc else Selse
           case _ => if d then Eioccc else Dendif)
        case TruePrefix =>
          if d then Eioccc else if k == Else then Delse else if k == Endif then Dendif else Dfalse
        case PassMiddle =>
          (match k
           case Elif => Pelif
           case ElTrue => if d then Oelif else Mtrue
           case ElFalse => if d then Oelif else Delif
           case Else => Pelse
           case _ => Pendif)
        case FalseMiddle =>
          if d then Eioccc else
          (match k
           case Elif => Pelif
           case ElTrue => Mtrue
           case ElFalse => Delif
           case Else => Pelse
           case _ => Pendif)
        case TrueMiddle =>
          if k == Endif then Pendif else if d then Eioccc else if k == Else then Melse else Melif
        case PassElse => if k == Endif then Pendif else Reject(k)
        case FalseElse => if k == Endif then (if d then Eioccc else Dendif) else Reject(k)
        case TrueElse => if k == Endif then (if d then Eioccc else Dendif) else Reject(k)
        case FalseTrailer =>
          if k == Endif then (if d then Eioccc else Dendif) else if k == Else then Delse else Dfalse
  }

  function Reject(k: Kind): Action {
    if k == Else then Eelse else if k == Endif then Eendif else Eelif
  }

  /** States in which text is deleted. */
  predicate Dropping(s: IfState) {
    s.FalsePrefix? || s.FalseMiddle? || s.FalseElse? || s.FalseTrailer?
  }

  /** The globals of the program.  Entries above `depth` are stale. */
  datatype Machine = Machine(
    ifstate: seq<IfState>, ignoring: seq<bool>, depth: nat,
    delcount: nat, blankcount: nat, blankmax: nat, exitstat: nat,
    out: seq<OutLine>)
  {
    ghost predicate Valid() {
      |ifstate| == MAXDEPTH && |ignoring| == MAXDEPTH && depth < MAXDEPTH
    }

    ghost function Stack(): seq<IfState>
      requires Valid()
    {
      ifstate[..depth + 1]
    }
  }

  /** How a transition ends: on to the next line, a normal exit, an error exit, or abort(). */
  datatype Outcome =
    | Next(m: Machine)
    | Exit(m: Machine)
    | Failed(msg: Message)
    | Aborted

  ghost function Init(): Machine {
    Machine(seq(MAXDEPTH, _ => Outside), seq(MAXDEPTH, _ => false), 0, 0, 1000, 1000, 0, [])
  }

  /** flushline, for a line written in the given form. */
  ghost function Flush(m: Machine, o: Options, form: OutLine, blank: bool, keep: bool): Machine {
    if keep then
      if blank && o.compBlank && m.blankcount != m.blankmax then
        m.(delcount := m.delcount + 1, blankcount := m.blankcount + 1)
      else
        var n := if blank then m.blankcount + 1 else 0;
        m.(out := m.out + [form], delcount := 0, blankcount := n, blankmax := n)
    else
      m.(out := if o.lnBlank then m.out + [Newline] else m.out,
         exitstat := 1, delcount := m.delcount + 1, blankcount := 0)
  }

  /** How a transition function writes the line. */
  datatype Write = Keep | KeepAsIf | KeepAsElse | KeepAsEndif | Delete

  /** What a transition function does after writing the line: `Block` is ignoreoff() and state(),
      `Mark` is state() alone, `Leave` is unnest(). */
  datatype Effect =
    | Report(msg: Message)
    | Text(w: Write)
    | Block(w: Write, s: IfState)
    | Mark(w: Write, s: IfState)
    | Leave(w: Write)
    | Finish
    | Crash

  predicate OpensGroup(a: Action) {
    || a.Fdrop? || a.Fpass? || a.Ftrue? || a.Ffalse? || a.Oiffy? || a.Oif?
    || a.Idrop? || a.Itrue? || a.Ifalse?
  }

  /** The transition functions; for one that opens a group, what it does after nest(). */
  function EffectOf(a: Action, o: Options): Effect {
    match a
    case Eelif => Report(InappropriateElif)
    case Eelse => Report(InappropriateElse)
    case Eendif => Report(InappropriateEndif)
    case Eeof => Report(PrematureEof)
    case Eioccc => Report(Obfuscated)
    case Print => Text(Keep)
    case Drop => Text(Delete)
    case Strue => Block(Delete, TruePrefix)
    case Sfalse => Block(Delete, FalsePrefix)
    case Selse => Mark(Delete, TrueElse)
    case Pelif => Block(Keep, PassMiddle)
    case Pelse => Mark(Keep, PassElse)
    case Pendif => Leave(Keep)
    case Dfalse => Block(Delete, FalseTrailer)
    case Delif => Block(Delete, FalseMiddle)
    case Delse => Mark(Delete, FalseElse)
    case Dendif => Leave(Delete)
    case Fdrop => Block(Delete, FalseTrailer)
    case Fpass => Block(Keep, PassMiddle)
    case Ftrue => Block(Delete, TruePrefix)
    case Ffalse => Block(Delete, FalsePrefix)
    case Oiffy => if o.iocccOk then Block(Keep, PassMiddle) else Report(Obfuscated)
    case Oif => if o.iocccOk then Block(Keep, PassMiddle) else Report(Obfuscated)
    case Oelif => if o.iocccOk then Block(Keep, PassMiddle) else Report(Obfuscated)
    case Idrop => Block(Delete, FalseTrailer)
    case Itrue => Block(Delete, TruePrefix)
    case Ifalse => Block(Delete, FalsePrefix)
    case Mpass => Block(KeepAsIf, PassMiddle)
    case Mtrue => Mark(KeepAsElse, TrueMiddle)
    case Melif => Mark(KeepAsEndif, FalseTrailer)
    case Melse => Mark(KeepAsEndif, FalseElse)
    case Done => Finish
    case AbortNow => Crash
  }

  /** ignoreon() follows these. */
  predicate TurnsIgnoringOn(a: Action) { a.Oiffy? || a.Idrop? || a.Itrue? || a.Ifalse? }

  predicate Blank(l: Line) { l.ty.Plain? && l.ty.blank }

  ghost function Written(m: Machine, o: Options, w: Write, l: Line): Machine {
    match w
    case Keep => Flush(m, o, AsRead(l), Blank(l), true)
    case KeepAsIf => Flush(m, o, AsIf(l), false, true)
    case KeepAsElse => Flush(m, o, AsElse(l), false, true)
    case KeepAsEndif => Flush(m, o, AsEndif(l), false, true)
    case Delete => Flush(m, o, AsRead(l), Blank(l), false)
  }

  ghost function SetState(m: Machine, s: IfState): Machine
    requires m.Valid()
  {
    m.(ifstate := m.ifstate[m.depth := s])
  }

  ghost function IgnoreOff(m: Machine): Machine
    requires m.Valid() && m.depth > 0
  {
    m.(ignoring := m.ignoring[m.depth := m.ignoring[m.depth - 1]])
  }

  ghost function IgnoreOn(m: Machine): Machine
    requires m.Valid()
  {
    m.(ignoring := m.ignoring[m.depth := true])
  }

  ghost function Perform(e: Effect, m: Machine, o: Options, l: Line): (r: Outcome)
    requires m.Valid()
    ensures r.Next? ==> r.m.Valid()
  {
    match e
    case Report(msg) => Failed(msg)
    case Text(w) => Next(Written(m, o, w, l))
    case Block(w, s) =>
      if m.depth == 0 then Aborted else Next(SetState(IgnoreOff(Written(m, o, w, l)), s))
    case Mark(w, s) => Next(SetState(Written(m, o, w, l), s))
    case Leave(w) =>
      if m.depth == 0 then Aborted else Next(Written(m, o, w, l).(depth := m.depth - 1))
    case Finish => if l.ty.Eof? && l.ty.inComment then Failed(EofInComment) else Exit(m)
    case Crash => Aborted
  }

  /** nest() and the rest of a transition function that opens a group.  Entries of the new level are
      stale until the effect overwrites them. */
  ghost function Open(a: Action, m: Machine, o: Options, l: Line): (r: Outcome)
    requires m.Valid()
    ensures r.Next? ==> r.m.Valid()
  {
    var e := EffectOf(a, o);
    if e.Report? then Failed(e.msg)
    else if m.depth == MAXDEPTH - 1 then Failed(TooManyLevels)
    else
      var b := Perform(e, m.(depth := m.depth + 1), o, l);
      if b.Next? && TurnsIgnoringOn(a) then Next(IgnoreOn(b.m)) else b
  }

  ghost function Step(m: Machine, o: Options, l: Line): (r: Outcome)
    requires m.Valid()
    ensures r.Next? ==> r.m.Valid()
  {
    var a := Transition(m.ifstate[m.depth], l.ty);
    if OpensGroup(a) then Open(a, m, o, l) else Perform(EffectOf(a, o), m, o, l)
  }

  /** The machine after all of `ls`, which may end early. */
  ghost function Run(ls: seq<Line>, o: Options): (r: Outcome)
    ensures r.Next? ==> r.m.Valid()
  {
    if ls == [] then Next(Init()) else
    var before := Run(ls[..|ls| - 1], o);
    if before.Next? then Step(before.m, o, ls[|ls| - 1]) else before
  }
}
