/** The reference meaning of conditional inclusion, section 6.10.1 of ISO/IEC 9899:1999:
    which text lines of a file survive, given the truth of every controlling condition. */
module CppConditionals {

  /** One line as the preprocessor sees it.  A condition is named by the line it stands on. */
  datatype CppLine =
    | CppIf(cond: nat)
    | CppElif(cond: nat)
    | CppElse
    | CppEndif
    | CppText(id: nat, blank: bool)

  /** One open #if group.  `taken` is also set when the surrounding group is skipped, so that no
      branch of a group nested in skipped text can be selected. */
  datatype Frame = Frame(cur: bool, taken: bool, sawElse: bool)

  datatype CppState =
    | Cpp(frames: seq<Frame>, picked: seq<nat>)
    | IllFormed

  /** The frame of a new #if whose surroundings are selected or not and whose condition has value `v`. */
  function IfFrame(around: bool, v: bool): Frame { Frame(around && v, !around || v, false) }

  function ElifFrame(f: Frame, v: bool): Frame { Frame(!f.taken && v, f.taken || v, false) }

  function ElseFrame(f: Frame): Frame { Frame(!f.taken, true, true) }

  ghost predicate Active(frames: seq<Frame>) {
    frames == [] || frames[|frames| - 1].cur
  }

  ghost function Below(frames: seq<Frame>): seq<Frame>
    requires frames != []
  {
    frames[..|frames| - 1]
  }

  ghost function Top(frames: seq<Frame>): Frame
    requires frames != []
  {
    frames[|frames| - 1]
  }

  /** `keepBlank` says whether blank text lines are reported. */
  ghost function CppStep(st: CppState, l: CppLine, val: nat -> bool, keepBlank: bool): CppState {
    if st.IllFormed? then IllFormed else
    var fs := st.frames;
    match l
    case CppIf(c) =>
      st.(frames := fs + [IfFrame(Active(fs), val(c))])
    case CppElif(c) =>
      if fs == [] || Top(fs).sawElse then IllFormed
      else st.(frames := Below(fs) + [ElifFrame(Top(fs), val(c))])
    case CppElse =>
      if fs == [] || Top(fs).sawElse then IllFormed
      else st.(frames := Below(fs) + [ElseFrame(Top(fs))])
    case CppEndif =>
      if fs == [] then IllFormed else st.(frames := Below(fs))
    case CppText(id, blank) =>
      if Active(fs) && (keepBlank || !blank) then st.(picked := st.picked + [id]) else st
  }

  ghost function CppRun(ls: seq<CppLine>, val: nat -> bool, keepBlank: bool): CppState {
    if ls == [] then Cpp([], [])
    else CppStep(CppRun(ls[..|ls| - 1], val, keepBlank), ls[|ls| - 1], val, keepBlank)
  }

  lemma CppRunSnoc(ls: seq<CppLine>, l: CppLine, val: nat -> bool, keepBlank: bool)
    ensures CppRun(ls + [l], val, keepBlank) == CppStep(CppRun(ls, val, keepBlank), l, val, keepBlank)
  {
    assert (ls + [l])[..|ls|] == ls;
  }

  datatype Selection = Selected(ids: seq<nat>) | NotWellNested

  /** The text lines a complete file contributes, or NotWellNested. */
  ghost function Preprocess(ls: seq<CppLine>, val: nat -> bool, keepBlank: bool): Selection {
    var st := CppRun(ls, val, keepBlank);
    if st.Cpp? && st.frames == [] then Selected(st.picked) else NotWellNested
  }
}
