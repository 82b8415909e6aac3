/**
 unifdef preserves meaning. The machine's stack, the reference sections of the input and
 the reference sections of the output are kept in step, level by level.
 */
module UnifdefSimulation {
  import opened ConditionalInclusion
  import opened UnifdefMachine

  /** Does a level in this state have its opening directive in the output? */
  predicate Emitted(s: IfState) {
    s in {PASS_MIDDLE, FALSE_MIDDLE, TRUE_MIDDLE, PASS_ELSE}
  }

  /** What a deleted level's state says about the input's section. */
  predicate DeletedOk(s: IfState, sec: Section, outerActive: bool, outerPrinting: bool) {
    match s
    case FALSE_PREFIX => outerPrinting && sec == Section(if outerActive then Seeking else Finished, false)
    case TRUE_PREFIX => outerPrinting && sec == Section(if outerActive then Taking else Finished, false)
    case TRUE_ELSE => outerPrinting && sec == Section(if outerActive then Taking else Finished, true)
    case FALSE_ELSE => sec == Section(Finished, true)
    case FALSE_TRAILER => sec == Section(Finished, false)
    case _ => false
  }

  /** What a surviving level's state says about the input's and the output's sections. */
  predicate EmittedOk(s: IfState, i: Section, o: Section, outerActive: bool) {
    && (!outerActive ==> i.mode.Finished? && o.mode.Finished?)
    && match s
       case PASS_MIDDLE => i == o && !i.elseSeen
       case FALSE_MIDDLE => !i.mode.Taking? && (i.mode.Seeking? <==> o.mode.Seeking?) && !i.elseSeen && !o.elseSeen
       case TRUE_MIDDLE => i.mode == o.mode && !i.mode.Seeking? && !i.elseSeen && o.elseSeen
       case PASS_ELSE => i == o && !i.mode.Seeking? && i.elseSeen
       case _ => false
  }

  ghost predicate InStep(levels: Stack<Level>, i: Stack<Section>, o: Stack<Section>)
    decreases levels
  {
    match levels
    case Bottom => i.Bottom? && o.Bottom?
    case Push(below, Level(s, _)) =>
      && i.Push?
      && if Emitted(s)
         then o.Push? && InStep(below, i.below, o.below) && Printing(Top(below))
              && EmittedOk(s, i.top, o.top, Active(i.below))
         else InStep(below, i.below, o) && DeletedOk(s, i.top, Active(i.below), Printing(Top(below)))
  }

  /** Printing states agree on what is active; in the others the input is inactive. */
  lemma InStepActive(levels: Stack<Level>, i: Stack<Section>, o: Stack<Section>)
    requires InStep(levels, i, o)
    ensures Printing(Top(levels)) ==> Active(i) == Active(o)
    ensures !Printing(Top(levels)) ==> !Active(i)
    ensures Height(i) == Height(levels) && Height(o) <= Height(levels)
    ensures Top(levels).OUTSIDE? <==> levels.Bottom?
  {
    match levels
    case Bottom =>
    case Push(below, Level(s, _)) =>
      InStepActive(below, i.below, if Emitted(s) then o.below else o);
  }

  /** What one line does, given the machine's outcome `r` and the line `l` it may have
      written: both references accept it or the machine reports an error, and the three
      stacks stay in step. `o` is the output's progress before the line. */
  ghost predicate After(r: Outcome, m: Machine, l: Line, i: Progress, o: Progress, line: Line, v: Valuation) {
    match r
    case Running(m') =>
      && (m'.out == m.out || m'.out == m.out + [l])
      && var i' := Advance(i, line, v);
         var o' := if m'.out == m.out then Some(o) else Advance(o, l, v);
         && i'.Some? && o'.Some?
         && InStep(m'.levels, i'.value.sections, o'.value.sections)
         && i'.value.selected == o'.value.selected
         && Height(m'.levels) < MAXDEPTH
    case Failed(e) => e.Obfuscated? || Advance(i, line, v).None?
    case _ => false
  }

  /** The text an accepted line would be written as: edited by a move, otherwise itself. */
  function Written(m: Machine, line: Line, iocccok: bool): Line {
    var e := EffectFor(Top(m.levels), line, iocccok);
    if e.Moves? then e.written else line
  }

  /** nest: the new level is in step when its own state is. */
  lemma EnterKeeps(m: Machine, i: Progress, o: Progress, line: Line, keep: bool, s: IfState, ignore: bool, v: Valuation)
    requires InStep(m.levels, i.sections, o.sections) && i.selected == o.selected && line.If?
    requires keep ==> s.PASS_MIDDLE? && Printing(Top(m.levels))
    requires !keep ==>
               var mode := if !Active(i.sections) then Finished else if Holds(line.cond, v) then Taking else Seeking;
               !Emitted(s) && DeletedOk(s, Section(mode, false), Active(i.sections), Printing(Top(m.levels)))
    ensures After(Enter(m, line, keep, s, ignore), m, line, i, o, line, v)
  {
    InStepActive(m.levels, i.sections, o.sections);
    assert keep ==> m.out + [line] != m.out;
  }

  /** A move within the current level. */
  lemma MoveKeeps(m: Machine, i: Progress, o: Progress, line: Line, l: Line, keep: bool, s: IfState, ignoreoff: bool, v: Valuation)
    requires m.levels.Push? && i.selected == o.selected && Height(m.levels) < MAXDEPTH
    requires line.Elif? || line.Else?
    requires var i' := Advance(i, line, v);
             var o' := if keep then Advance(o, l, v) else Some(o);
             && i'.Some? && o'.Some? && !l.Plain?
             && forall b :: InStep(Push(m.levels.below, Level(s, b)), i'.value.sections, o'.value.sections)
    ensures After(Move(m, l, keep, s, ignoreoff), m, l, i, o, line, v)
  {
    assert keep ==> m.out + [l] != m.out;
    var b := if ignoreoff then Ignoring(m.levels.below) else m.levels.top.ignoring;
    assert InStep(Push(m.levels.below, Level(s, b)), Advance(i, line, v).value.sections,
                  (if keep then Advance(o, l, v) else Some(o)).value.sections);
  }

  lemma StepPlain(m: Machine, i: Progress, o: Progress, line: Line, iocccok: bool, v: Valuation)
    requires InStep(m.levels, i.sections, o.sections) && i.selected == o.selected && line.Plain?
    requires Height(m.levels) < MAXDEPTH
    ensures After(Step(m, line, iocccok), m, Written(m, line, iocccok), i, o, line, v)
  {
    InStepActive(m.levels, i.sections, o.sections);
    assert m.out + [line] != m.out;
  }

  /** The table's five #if columns are the same in every printing row, and in every other row. */
  lemma IfColumns(s: IfState, dodgy: bool)
    ensures var row := if dodgy then DodgyRow(s) else OneLineRow(s);
            (row.truei, row.falsei, row.if_, row.true_, row.false_) ==
            if !Printing(s) then (Idrop, Idrop, Fdrop, Fdrop, Fdrop)
            else if dodgy then (Oiffy, Oiffy, Fpass, Oif, Oif)
            else (Itrue, Ifalse, Fpass, Ftrue, Ffalse)
  {
  }

  /** #if is kept only where the block is printed, and otherwise the new level's state says
      what the reference section is. */
  lemma TableIf(s: IfState, line: Line, iocccok: bool)
    requires line.If?
    ensures var e := EffectFor(s, line, iocccok);
            || e == Stops(Obfuscated)
            || (e.Enters? && e.keep && e.to.PASS_MIDDLE? && Printing(s) && (line.cond.Unknown? || Dodgy(line)))
            || (e.Enters? && !e.keep && Printing(s) && line.cond == Known(e.to.TRUE_PREFIX?) && !Dodgy(line)
                && (e.to.TRUE_PREFIX? || e.to.FALSE_PREFIX?))
            || (e.Enters? && !e.keep && !Printing(s) && e.to.FALSE_TRAILER?)
  {
    IfColumns(s, Dodgy(line));
    hide OneLineRow, DodgyRow;
    var a := Trans(s, TypeOf(line), Dodgy(line));
    if !Printing(s) {
      assert a in {Idrop, Fdrop};
    } else if Dodgy(line) {
      assert a in {Oiffy, Fpass, Oif};
    } else {
      match line.cond
      case Unknown(_) => assert a == Fpass;
      case Known(b) =>
        assert a == if b then if line.ignored then Itrue else Ftrue else if line.ignored then Ifalse else Ffalse;
    }
  }

  lemma StepIf(m: Machine, i: Progress, o: Progress, line: Line, iocccok: bool, v: Valuation)
    requires InStep(m.levels, i.sections, o.sections) && i.selected == o.selected && line.If?
    ensures After(Step(m, line, iocccok), m, Written(m, line, iocccok), i, o, line, v)
  {
    hide EffectFor;
    InStepActive(m.levels, i.sections, o.sections);
    TableIf(Top(m.levels), line, iocccok);
    var e := EffectFor(Top(m.levels), line, iocccok);
    if e.Enters? {
      EnterKeeps(m, i, o, line, e.keep, e.to, e.ignore, v);
    }
  }

  /** What the table does with #elif, by the class of the current state. */
  lemma TableElif(s: IfState, line: Line, iocccok: bool)
    requires line.Elif?
    ensures var e := EffectFor(s, line, iocccok);
            || e == Stops(Obfuscated)
            || match s
               case OUTSIDE | PASS_ELSE | FALSE_ELSE | TRUE_ELSE => e == Stops(BadElif)
               case FALSE_PREFIX =>
                 if line.cond.Unknown? then e == Moves(If(line.cond, false, line.c), true, PASS_MIDDLE, true)
                 else !Dodgy(line) && e == Moves(line, false, if line.cond.value then TRUE_PREFIX else FALSE_PREFIX, true)
               case TRUE_PREFIX | FALSE_TRAILER => e == Moves(line, false, FALSE_TRAILER, true)
               case PASS_MIDDLE | FALSE_MIDDLE =>
                 || ((line.cond.Unknown? || Dodgy(line)) && e == Moves(line, true, PASS_MIDDLE, true))
                 || (line.cond == Known(true) && !Dodgy(line) && e == Moves(Else(NONE), true, TRUE_MIDDLE, false))
                 || (line.cond == Known(false) && !Dodgy(line) && e == Moves(line, false, FALSE_MIDDLE, true))
               case TRUE_MIDDLE => e == Moves(Endif(NONE), true, FALSE_TRAILER, false)
  {
  }

  lemma ElifKept(m: Machine, i: Progress, o: Progress, line: Line, e: Effect, v: Valuation)
    requires InStep(m.levels, i.sections, o.sections) && i.selected == o.selected && line.Elif?
    requires Height(m.levels) < MAXDEPTH && m.levels.Push? && Emitted(Top(m.levels)) && !Top(m.levels).PASS_ELSE?
    requires || (e == Moves(line, true, PASS_MIDDLE, true) && !Top(m.levels).TRUE_MIDDLE?)
             || (e == Moves(Else(NONE), true, TRUE_MIDDLE, false) && line.cond == Known(true) && !Top(m.levels).TRUE_MIDDLE?)
             || (e == Moves(line, false, FALSE_MIDDLE, true) && line.cond == Known(false) && !Top(m.levels).TRUE_MIDDLE?)
             || (e == Moves(Endif(NONE), true, FALSE_TRAILER, false) && Top(m.levels).TRUE_MIDDLE?)
    ensures After(Move(m, e.written, e.keep, e.to, e.ignoreoff), m, e.written, i, o, line, v)
  {
    InStepActive(m.levels.below, i.sections.below, o.sections.below);
    MoveKeeps(m, i, o, line, e.written, e.keep, e.to, e.ignoreoff, v);
  }

  lemma ElifDeleted(m: Machine, i: Progress, o: Progress, line: Line, e: Effect, v: Valuation)
    requires InStep(m.levels, i.sections, o.sections) && i.selected == o.selected && line.Elif?
    requires Height(m.levels) < MAXDEPTH && m.levels.Push?
    requires match Top(m.levels)
             case FALSE_PREFIX =>
               if line.cond.Unknown? then e == Moves(If(line.cond, false, line.c), true, PASS_MIDDLE, true)
               else e == Moves(line, false, if line.cond.value then TRUE_PREFIX else FALSE_PREFIX, true)
             case TRUE_PREFIX | FALSE_TRAILER => e == Moves(line, false, FALSE_TRAILER, true)
             case _ => false
    ensures After(Move(m, e.written, e.keep, e.to, e.ignoreoff), m, e.written, i, o, line, v)
  {
    InStepActive(m.levels, i.sections, o.sections);
    InStepActive(m.levels.below, i.sections.below, o.sections);
    MoveKeeps(m, i, o, line, e.written, e.keep, e.to, e.ignoreoff, v);
  }

  lemma StepElif(m: Machine, i: Progress, o: Progress, line: Line, iocccok: bool, v: Valuation)
    requires InStep(m.levels, i.sections, o.sections) && i.selected == o.selected && line.Elif?
    requires Height(m.levels) < MAXDEPTH
    ensures After(Step(m, line, iocccok), m, Written(m, line, iocccok), i, o, line, v)
  {
    hide EffectFor, Move;
    InStepActive(m.levels, i.sections, o.sections);
    TableElif(Top(m.levels), line, iocccok);
    var e := EffectFor(Top(m.levels), line, iocccok);
    if e.Moves? {
      if Emitted(Top(m.levels)) {
        ElifKept(m, i, o, line, e, v);
      } else {
        ElifDeleted(m, i, o, line, e, v);
      }
    }
  }

  /** What the table does with #else, by the class of the current state. */
  lemma TableElse(s: IfState, line: Line, iocccok: bool)
    requires line.Else?
    ensures var e := EffectFor(s, line, iocccok);
            || e == Stops(Obfuscated)
            || match s
               case OUTSIDE | PASS_ELSE | FALSE_ELSE | TRUE_ELSE => e == Stops(BadElse)
               case FALSE_PREFIX => e == Moves(line, false, TRUE_ELSE, false)
               case TRUE_PREFIX | FALSE_TRAILER => e == Moves(line, false, FALSE_ELSE, false)
               case PASS_MIDDLE | FALSE_MIDDLE => e == Moves(line, true, PASS_ELSE, false)
               case TRUE_MIDDLE => e == Moves(Endif(NONE), true, FALSE_ELSE, false)
  {
  }

  lemma StepElse(m: Machine, i: Progress, o: Progress, line: Line, iocccok: bool, v: Valuation)
    requires InStep(m.levels, i.sections, o.sections) && i.selected == o.selected && line.Else?
    requires Height(m.levels) < MAXDEPTH
    ensures After(Step(m, line, iocccok), m, Written(m, line, iocccok), i, o, line, v)
  {
    hide EffectFor;
    InStepActive(m.levels, i.sections, o.sections);
    TableElse(Top(m.levels), line, iocccok);
    var e := EffectFor(Top(m.levels), line, iocccok);
    if e.Moves? {
      InStepActive(m.levels.below, i.sections.below, if Emitted(m.levels.top.state) then o.sections.below else o.sections);
      MoveKeeps(m, i, o, line, e.written, e.keep, e.to, e.ignoreoff, v);
    }
  }

  /** #endif leaves the level, and is kept exactly where the opening directive was. */
  lemma TableEndif(s: IfState, line: Line, iocccok: bool)
    requires line.Endif?
    ensures var e := EffectFor(s, line, iocccok);
            || e == Stops(Obfuscated)
            || (if s.OUTSIDE? then e == Stops(BadEndif) else e == Leaves(Emitted(s)))
  {
  }

  lemma StepEndif(m: Machine, i: Progress, o: Progress, line: Line, iocccok: bool, v: Valuation)
    requires InStep(m.levels, i.sections, o.sections) && i.selected == o.selected && line.Endif?
    requires Height(m.levels) < MAXDEPTH
    ensures After(Step(m, line, iocccok), m, Written(m, line, iocccok), i, o, line, v)
  {
    hide EffectFor;
    InStepActive(m.levels, i.sections, o.sections);
    TableEndif(Top(m.levels), line, iocccok);
    assert m.out + [line] != m.out;
  }

  lemma StepKeepsInStep(m: Machine, i: Progress, o: Progress, line: Line, iocccok: bool, v: Valuation)
    requires InStep(m.levels, i.sections, o.sections) && i.selected == o.selected
    requires Height(m.levels) < MAXDEPTH
    ensures After(Step(m, line, iocccok), m, Written(m, line, iocccok), i, o, line, v)
  {
    hide EffectFor, InStep, After, Step;
    match line
    case Plain(_, _) => StepPlain(m, i, o, line, iocccok, v);
    case If(_, _, _) => StepIf(m, i, o, line, iocccok, v);
    case Elif(_, _) => StepElif(m, i, o, line, iocccok, v);
    case Else(_) => StepElse(m, i, o, line, iocccok, v);
    case Endif(_) => StepEndif(m, i, o, line, iocccok, v);
  }
}
