/** From the directives of a file to its meaning: evaluation, classification and the state machine together. */
module UnifdefFile {
  import opened CppConditionals
  import opened UnifdefTable
  import opened UnifdefPreserves
  import opened UnifdefExpr
  import opened UnifdefIfEval

  /** A line once comments are gone.  `more`: something else stands behind the symbol of #ifdef. */
  datatype Text =
    | IfLine(cond: Tokens)
    | IfdefLine(name: string, negated: bool, more: bool)
    | ElifLine(cond: Tokens)
    | ElseLine
    | EndifLine
    | OtherLine(blank: bool)

  /** `dodgy`: a comment on the line began before it or goes on behind it. */
  datatype Input = Input(text: Text, dodgy: bool)

  /** The type that the line parser gives to a line. */
  function Classify(x: Input, c: Config): LineType {
    match x.text
    case IfLine(ts) =>
      (match LineVerdict(ts, c)
       case VTrue => Directive(True, x.dodgy)
       case VFalse => Directive(False, x.dodgy)
       case _ => Directive(If, x.dodgy))
    case ElifLine(ts) =>
      (match LineVerdict(ts, c)
       case VTrue => Directive(ElTrue, x.dodgy)
       case VFalse => Directive(ElFalse, x.dodgy)
       case _ => Directive(Elif, x.dodgy))
    case IfdefLine(name, negated, more) =>
      if name == "" || name !in c.syms || more then Directive(If, x.dodgy)
      else if c.syms[name].Undef? == negated then Directive(if name in c.ignored then TrueI else True, x.dodgy)
      else Directive(if name in c.ignored then FalseI else False, x.dodgy)
    case ElseLine => Directive(Else, x.dodgy)
    case EndifLine => Directive(Endif, x.dodgy)
    case OtherLine(blank) => Plain(blank)
  }

  function LinesOf(xs: seq<Input>, c: Config): seq<Line> {
    seq(|xs|, i requires 0 <= i < |xs| => Line(Classify(xs[i], c), i))
  }

  /** The line has a condition, and it is one that the grammar knows. */
  predicate Conditional(x: Text, c: Config) {
    match x
    case IfLine(ts) => Whole(ts, c)
    case ElifLine(ts) => Whole(ts, c)
    case IfdefLine(name, _, more) => name != "" && !more
    case _ => false
  }

  predicate Whole(ts: Tokens, c: Config) {
    var r := Parse(0, ts, c.Undefs());
    r.Read? && r.rest == []
  }

  /** Whether the condition holds in a world. */
  predicate Holds(x: Text, w: World, c: Config)
    requires Conditional(x, c)
  {
    match x
    case IfLine(ts) => Meaning(Parse(0, ts, c.Undefs()).e, w) != 0
    case ElifLine(ts) => Meaning(Parse(0, ts, c.Undefs()).e, w) != 0
    case IfdefLine(name, negated, _) => w.defined_(name) != negated
  }

  /** A condition that is decided is decided as with unbounded integers. */
  predicate ValuesFit(x: Text, c: Config)
    requires Conditional(x, c)
  {
    match x
    case IfLine(ts) => LineVerdict(ts, c) == VIf || Agreed(Parse(0, ts, c.Undefs()).e, c)
    case ElifLine(ts) => LineVerdict(ts, c) == VIf || Agreed(Parse(0, ts, c.Undefs()).e, c)
    case IfdefLine(_, _, _) => true
  }

  ghost predicate AllValuesFit(xs: seq<Input>, c: Config) {
    forall i :: 0 <= i < |xs| && Conditional(xs[i].text, c) ==> ValuesFit(xs[i].text, c)
  }

  /** The world at each line.  It may change from line to line, since the file may define symbols itself; but
      it never contradicts -D and -U. */
  ghost predicate AllPossible(w: nat -> World, n: nat, c: Config) {
    forall i: nat :: i < n ==> Possible(w(i), c)
  }

  /** The truth of the conditions, by line number, is that of the world at the line.  Lines whose condition is
      not in the grammar may go either way. */
  ghost predicate TruthOf(val: nat -> bool, xs: seq<Input>, w: nat -> World, c: Config) {
    forall i: nat :: i < |xs| && Conditional(xs[i].text, c) ==> (val(i) <==> Holds(xs[i].text, w(i), c))
  }

  lemma ClassifiedTruly(x: Input, i: nat, val: nat -> bool, w: World, c: Config)
    requires Possible(w, c)
    requires Conditional(x.text, c) ==> ValuesFit(x.text, c) && (val(i) <==> Holds(x.text, w, c))
    ensures Agrees(Line(Classify(x, c), i), val)
  {
    match x.text
    case IfLine(ts) =>
      if LineVerdict(ts, c) != VIf { VerdictSound(ts, c); }
    case ElifLine(ts) =>
      if LineVerdict(ts, c) != VIf { VerdictSound(ts, c); }
    case IfdefLine(name, negated, more) =>
    case _ =>
  }

  /** The purpose of unifdef.  If it ends normally, and its ints decide no condition otherwise than unbounded
      integers, then the preprocessor selects the same text lines from its output as from its input, whatever the
      other symbols are at each line, as long as the symbols of -D and -U are as these say. */
  lemma OutputMeansInput(xs: seq<Input>, c: Config, o: Options, inComment: bool, w: nat -> World,
                         val: nat -> bool, keepBlank: bool)
    requires AllValuesFit(xs, c) && AllPossible(w, |xs|, c) && TruthOf(val, xs, w, c) && BlanksCount(o, keepBlank)
    requires RunFile(LinesOf(xs, c), o, inComment).Exit?
    ensures var ls := LinesOf(xs, c);
      && Preprocess(Sources(ls), val, keepBlank).Selected?
      && Preprocess(EmittedAll(RunFile(ls, o, inComment).m.out), val, keepBlank)
        == Preprocess(Sources(ls), val, keepBlank)
  {
    var ls := LinesOf(xs, c);
    forall l | l in ls ensures !l.ty.Unevaluable? && !l.ty.Eof? && Agrees(l, val) {
      var i :| 0 <= i < |ls| && ls[i] == l;
      ClassifiedTruly(xs[i], i, val, w(i), c);
    }
    FilePreserved(ls, o, inComment, val, keepBlank);
  }
}
