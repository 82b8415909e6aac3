/**
 unifdef's #if processor: the transition table and what each transition function does.
 */
module UnifdefMachine {
  import opened ConditionalInclusion

  /** The Linetype enumeration; a dodgy directive is the same type with comments over its
      ends. */
  datatype LineType =
    | TRUEI | FALSEI | IF | TRUE | FALSE
    | ELIF | ELTRUE | ELFALSE | ELSE | ENDIF
    | PLAIN | EOF

  datatype IfState =
    | OUTSIDE
    | FALSE_PREFIX | TRUE_PREFIX
    | PASS_MIDDLE | FALSE_MIDDLE | TRUE_MIDDLE
    | PASS_ELSE | FALSE_ELSE | TRUE_ELSE
    | FALSE_TRAILER

  datatype Action =
    | Eelif | Eelse | Eendif | Eeof | Eioccc
    | print_ | drop | done
    | Strue | Sfalse | Selse
    | Pelif | Pelse | Pendif
    | Dfalse | Delif | Delse | Dendif
    | Fdrop | Fpass | Ftrue | Ffalse
    | Oiffy | Oif | Oelif
    | Idrop | Itrue | Ifalse
    | Mpass | Mtrue | Melif | Melse

  function TypeOf(line: Line): LineType {
    match line
    case Plain(_, _) => PLAIN
    case If(Known(true), ignored, _) => if ignored then TRUEI else TRUE
    case If(Known(false), ignored, _) => if ignored then FALSEI else FALSE
    case If(Unknown(_), _, _) => IF
    case Elif(Known(true), _) => ELTRUE
    case Elif(Known(false), _) => ELFALSE
    case Elif(Unknown(_), _) => ELIF
    case Else(_) => ELSE
    case Endif(_) => ENDIF
  }

  predicate Dodgy(line: Line) {
    !line.Plain? && line.c != NONE
  }

  datatype Row = Row(truei: Action, falsei: Action, if_: Action, true_: Action, false_: Action,
                     elif: Action, eltrue: Action, elfalse: Action, else_: Action, endif: Action)

  function OneLineRow(s: IfState): Row {
    match s
    case OUTSIDE       => Row(Itrue, Ifalse, Fpass, Ftrue, Ffalse, Eelif,  Eelif,  Eelif,  Eelse, Eendif)
    case FALSE_PREFIX  => Row(Idrop, Idrop,  Fdrop, Fdrop, Fdrop,  Mpass,  Strue,  Sfalse, Selse, Dendif)
    case TRUE_PREFIX   => Row(Itrue, Ifalse, Fpass, Ftrue, Ffalse, Dfalse, Dfalse, Dfalse, Delse, Dendif)
    case PASS_MIDDLE   => Row(Itrue, Ifalse, Fpass, Ftrue, Ffalse, Pelif,  Mtrue,  Delif,  Pelse, Pendif)
    case FALSE_MIDDLE  => Row(Idrop, Idrop,  Fdrop, Fdrop, Fdrop,  Pelif,  Mtrue,  Delif,  Pelse, Pendif)
    case TRUE_MIDDLE   => Row(Itrue, Ifalse, Fpass, Ftrue, Ffalse, Melif,  Melif,  Melif,  Melse, Pendif)
    case PASS_ELSE     => Row(Itrue, Ifalse, Fpass, Ftrue, Ffalse, Eelif,  Eelif,  Eelif,  Eelse, Pendif)
    case FALSE_ELSE    => Row(Idrop, Idrop,  Fdrop, Fdrop, Fdrop,  Eelif,  Eelif,  Eelif,  Eelse, Dendif)
    case TRUE_ELSE     => Row(Itrue, Ifalse, Fpass, Ftrue, Ffalse, Eelif,  Eelif,  Eelif,  Eelse, Dendif)
    case FALSE_TRAILER => Row(Idrop, Idrop,  Fdrop, Fdrop, Fdrop,  Dfalse, Dfalse, Dfalse, Delse, Dendif)
  }

  function DodgyRow(s: IfState): Row {
    match s
    case OUTSIDE       => Row(Oiffy, Oiffy, Fpass, Oif,   Oif,   Eelif,  Eelif,  Eelif,  Eelse,  Eendif)
    case FALSE_PREFIX  => Row(Idrop, Idrop, Fdrop, Fdrop, Fdrop, Mpass,  Eioccc, Eioccc, Eioccc, Eioccc)
    case TRUE_PREFIX   => Row(Oiffy, Oiffy, Fpass, Oif,   Oif,   Eioccc, Eioccc, Eioccc, Eioccc, Eioccc)
    case PASS_MIDDLE   => Row(Oiffy, Oiffy, Fpass, Oif,   Oif,   Pelif,  Oelif,  Oelif,  Pelse,  Pendif)
    case FALSE_MIDDLE  => Row(Idrop, Idrop, Fdrop, Fdrop, Fdrop, Eioccc, Eioccc, Eioccc, Eioccc, Eioccc)
    case TRUE_MIDDLE   => Row(Oiffy, Oiffy, Fpass, Oif,   Oif,   Eioccc, Eioccc, Eioccc, Eioccc, Pendif)
    case PASS_ELSE     => Row(Oiffy, Oiffy, Fpass, Oif,   Oif,   Eelif,  Eelif,  Eelif,  Eelse,  Pendif)
    case FALSE_ELSE    => Row(Idrop, Idrop, Fdrop, Fdrop, Fdrop, Eelif,  Eelif,  Eelif,  Eelse,  Eioccc)
    case TRUE_ELSE     => Row(Oiffy, Oiffy, Fpass, Oif,   Oif,   Eelif,  Eelif,  Eelif,  Eelse,  Eioccc)
    case FALSE_TRAILER => Row(Idrop, Idrop, Fdrop, Fdrop, Fdrop, Dfalse, Dfalse, Dfalse, Delse,  Eioccc)
  }

  predicate Printing(s: IfState) {
    match s
    case OUTSIDE | TRUE_PREFIX | PASS_MIDDLE | TRUE_MIDDLE | PASS_ELSE | TRUE_ELSE => true
    case _ => false
  }

  function Trans(s: IfState, lt: LineType, dodgy: bool): Action {
    var row := if dodgy then DodgyRow(s) else OneLineRow(s);
    match lt
    case TRUEI => row.truei
    case FALSEI => row.falsei
    case IF => row.if_
    case TRUE => row.true_
    case FALSE => row.false_
    case ELIF => row.elif
    case ELTRUE => row.eltrue
    case ELFALSE => row.elfalse
    case ELSE => row.else_
    case ENDIF => row.endif
    case PLAIN => if Printing(s) then print_ else drop
    case EOF => if s.OUTSIDE? then done else Eeof
  }

  datatype Level = Level(state: IfState, ignoring: bool)

  /** `levels` holds depths 1..depth; depth 0 is OUTSIDE and never ignoring. */
  datatype Machine = Machine(levels: Stack<Level>, out: seq<Line>, exitstat: nat)

  datatype Error = BadElif | BadElse | BadEndif | PrematureEof | Obfuscated | TooDeep | EofInComment

  datatype Outcome =
    | Running(m: Machine)
    | Failed(error: Error)
    | Aborted
    | Exited(status: nat, out: seq<Line>)

  const MAXDEPTH := 64

  function Top(levels: Stack<Level>): IfState {
    if levels.Bottom? then OUTSIDE else levels.top.state
  }

  predicate Ignoring(levels: Stack<Level>) {
    levels.Push? && levels.top.ignoring
  }

  function Flush(m: Machine, line: Line, keep: bool): Machine {
    if keep then m.(out := m.out + [line]) else m.(exitstat := 1)
  }

  /** nest, flush the line, and start a level in state `s`. */
  function Enter(m: Machine, line: Line, keep: bool, s: IfState, ignore: bool): Outcome {
    if Height(m.levels) + 1 >= MAXDEPTH then Failed(TooDeep) else
    Running(Flush(m, line, keep).(levels := Push(m.levels, Level(s, ignore || Ignoring(m.levels)))))
  }

  /** Flush the line and move the current level to state `s`. */
  function Move(m: Machine, line: Line, keep: bool, s: IfState, ignoreoff: bool): Outcome {
    if m.levels.Bottom? then Aborted else
    var ignoring := if ignoreoff then Ignoring(m.levels.below) else m.levels.top.ignoring;
    Running(Flush(m, line, keep).(levels := Push(m.levels.below, Level(s, ignoring))))
  }

  /** Flush the line and unnest. */
  function Leave(m: Machine, line: Line, keep: bool): Outcome {
    if m.levels.Bottom? then Aborted else
    Running(Flush(m, line, keep).(levels := m.levels.below))
  }

  /** The line after strncpy of "if  " over its keyword. */
  function AsIf(line: Line): Line {
    if line.Elif? then If(line.cond, false, line.c) else line
  }

  /** What a transition function does to the machine, as one of four shapes. */
  datatype Effect =
    | Stops(error: Error)
    | Stays(keep: bool)
    | Enters(keep: bool, to: IfState, ignore: bool)
    | Moves(written: Line, keep: bool, to: IfState, ignoreoff: bool)
    | Leaves(keep: bool)
    | Exits

  function EffectOf(a: Action, line: Line, iocccok: bool): Effect {
    match a
    case Eelif => Stops(BadElif)
    case Eelse => Stops(BadElse)
    case Eendif => Stops(BadEndif)
    case Eeof => Stops(PrematureEof)
    case Eioccc => Stops(Obfuscated)
    case print_ => Stays(true)
    case drop => Stays(false)
    case done => Exits
    case Strue => Moves(line, false, TRUE_PREFIX, true)
    case Sfalse => Moves(line, false, FALSE_PREFIX, true)
    case Selse => Moves(line, false, TRUE_ELSE, false)
    case Pelif => Moves(line, true, PASS_MIDDLE, true)
    case Pelse => Moves(line, true, PASS_ELSE, false)
    case Pendif => Leaves(true)
    case Dfalse => Moves(line, false, FALSE_TRAILER, true)
    case Delif => Moves(line, false, FALSE_MIDDLE, true)
    case Delse => Moves(line, false, FALSE_ELSE, false)
    case Dendif => Leaves(false)
    case Fdrop => Enters(false, FALSE_TRAILER, false)
    case Fpass => Enters(true, PASS_MIDDLE, false)
    case Ftrue => Enters(false, TRUE_PREFIX, false)
    case Ffalse => Enters(false, FALSE_PREFIX, false)
    case Oiffy => if !iocccok then Stops(Obfuscated) else Enters(true, PASS_MIDDLE, true)
    case Oif => if !iocccok then Stops(Obfuscated) else Enters(true, PASS_MIDDLE, false)
    case Oelif => if !iocccok then Stops(Obfuscated) else Moves(line, true, PASS_MIDDLE, true)
    case Idrop => Enters(false, FALSE_TRAILER, true)
    case Itrue => Enters(false, TRUE_PREFIX, true)
    case Ifalse => Enters(false, FALSE_PREFIX, true)
    case Mpass => Moves(AsIf(line), true, PASS_MIDDLE, true)
    case Mtrue => Moves(Else(NONE), true, TRUE_MIDDLE, false)
    case Melif => Moves(Endif(NONE), true, FALSE_TRAILER, false)
    case Melse => Moves(Endif(NONE), true, FALSE_ELSE, false)
  }

  function Perform(e: Effect, m: Machine, line: Line): Outcome {
    match e
    case Stops(error) => Failed(error)
    case Stays(keep) => Running(Flush(m, line, keep))
    case Enters(keep, to, ignore) => Enter(m, line, keep, to, ignore)
    case Moves(written, keep, to, ignoreoff) => Move(m, written, keep, to, ignoreoff)
    case Leaves(keep) => Leave(m, line, keep)
    case Exits => Exited(m.exitstat, m.out)
  }

  function EffectFor(s: IfState, line: Line, iocccok: bool): Effect {
    EffectOf(Trans(s, TypeOf(line), Dodgy(line)), line, iocccok)
  }

  function Step(m: Machine, line: Line, iocccok: bool): Outcome {
    Perform(EffectFor(Top(m.levels), line, iocccok), m, line)
  }

  const INITIAL := Machine(Bottom, [], 0)

  function RunLines(lines: seq<Line>, iocccok: bool): Outcome {
    if lines == [] then Running(INITIAL) else
    match RunLines(lines[..|lines| - 1], iocccok)
    case Running(m) => Step(m, lines[|lines| - 1], iocccok)
    case stopped => stopped
  }

  const BLANK := Plain("", NONE)

  /** The whole of process(): all the lines, then end of file. */
  function Unifdef(lines: seq<Line>, iocccok: bool): Outcome {
    match RunLines(lines, iocccok)
    case Running(m) =>
      if Top(m.levels).OUTSIDE? && OpenAfter(lines) then Failed(EofInComment)
      else Perform(EffectOf(Trans(Top(m.levels), EOF, false), BLANK, iocccok), m, BLANK)
    case stopped => stopped
  }
}
