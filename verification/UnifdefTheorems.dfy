/**
 What unifdef promises of a whole run: the same lines reach the compiler, exactly the
 ill-formed sources are refused, nothing known is left behind, and a second run changes nothing.
 */
module UnifdefTheorems {
  import opened ConditionalInclusion
  import opened UnifdefMachine
  import opened UnifdefSimulation
  import opened UnifdefGroups

  predicate OneLine(lines: seq<Line>) {
    forall k :: 0 <= k < |lines| ==> !Dodgy(lines[k])
  }

  lemma {:induction false} RunInStep(lines: seq<Line>, iocccok: bool, v: Valuation)
    ensures match RunLines(lines, iocccok)
            case Running(m) =>
              && Height(m.levels) < MAXDEPTH
              && var i := Progression(lines, v);
                 var o := Progression(m.out, v);
                 && i.Some? && o.Some?
                 && InStep(m.levels, i.value.sections, o.value.sections)
                 && i.value.selected == o.value.selected
            case Failed(e) => e.Obfuscated? || Progression(lines, v).None?
            case _ => false
  {
    if lines != [] {
      hide Step, Advance, InStep;
      var prefix, line := lines[..|lines| - 1], lines[|lines| - 1];
      RunInStep(prefix, iocccok, v);
      if RunLines(prefix, iocccok).Running? {
        var m := RunLines(prefix, iocccok).m;
        StepKeepsInStep(m, Progression(prefix, v).value, Progression(m.out, v).value, line, iocccok, v);
        ProgressionSnoc(m.out, Written(m, line, iocccok), v);
      }
    }
  }

  /** With the directives taken as they are written, whatever comments surround them: for every
      source and every truth assignment to the unknown conditions, when unifdef exits, its
      output and its input are both well formed and select the same plain lines in the same
      order. When it reports an error other than an obfuscated directive or a
      comment open at end of file, the source is ill formed. It never reaches an abort. */
  lemma DirectivesPreserved(lines: seq<Line>, iocccok: bool, v: Valuation)
    ensures match Unifdef(lines, iocccok)
            case Exited(_, out) => Preprocess(lines, v).Some? && Preprocess(out, v) == Preprocess(lines, v) && !OpenAfter(lines)
            case Failed(e) => e.Obfuscated? || (OpenAfter(lines) && e.EofInComment?) || Preprocess(lines, v).None?
            case _ => false
  {
    hide RunLines, Progression, InStep;
    RunInStep(lines, iocccok, v);
    match RunLines(lines, iocccok)
    case Running(m) =>
      InStepActive(m.levels, Progression(lines, v).value.sections, Progression(m.out, v).value.sections);
    case _ =>
  }

  // Nothing known is left behind.

  /** No condition that could have been acted on: unknown, or on a directive spread over
      several lines that -e lets through. */
  predicate Undecided(line: Line, iocccok: bool) {
    line.If? || line.Elif? ==> line.cond.Unknown? || (Dodgy(line) && iocccok)
  }

  predicate AllUndecided(lines: seq<Line>, iocccok: bool) {
    forall k :: 0 <= k < |lines| ==> Undecided(lines[k], iocccok)
  }

  lemma WritesUndecided(m: Machine, line: Line, iocccok: bool)
    requires AllUndecided(m.out, iocccok)
    ensures Step(m, line, iocccok).Running? ==> AllUndecided(Step(m, line, iocccok).m.out, iocccok)
  {
    LineWrites(Top(m.levels), line, iocccok);
    hide EffectFor;
  }

  /** A kept line is written undecided, whatever the state. */
  lemma LineWrites(s: IfState, line: Line, iocccok: bool)
    ensures var e := EffectFor(s, line, iocccok);
            && (e.Moves? && e.keep ==> Undecided(e.written, iocccok))
            && ((e.Stays? || e.Enters? || e.Leaves?) && e.keep ==> Undecided(line, iocccok))
  {
    hide EffectFor;
    match line
    case Plain(_, _) => PlainStays(s, line, iocccok);
    case If(_, _, _) => IfWrites(s, line, iocccok);
    case Elif(_, _) => ElifWrites(s, line, iocccok);
    case Else(_) => TableElse(s, line, iocccok);
    case Endif(_) => TableEndif(s, line, iocccok);
  }

  lemma PlainStays(s: IfState, line: Line, iocccok: bool)
    requires line.Plain?
    ensures EffectFor(s, line, iocccok) == Stays(Printing(s))
  {
  }

  lemma IfWrites(s: IfState, line: Line, iocccok: bool)
    requires line.If?
    ensures var e := EffectFor(s, line, iocccok);
            e.Stops? || (e.Enters? && (e.keep ==> Undecided(line, iocccok)))
  {
    IfColumns(s, Dodgy(line));
    var a := Trans(s, TypeOf(line), Dodgy(line));
    assert if line.cond.Unknown? then a in {Fpass, Fdrop}
           else if Dodgy(line) then a in {Oiffy, Oif, Idrop, Fdrop}
           else a in {Itrue, Ifalse, Ftrue, Ffalse, Idrop, Fdrop};
  }

  lemma ElifWrites(s: IfState, line: Line, iocccok: bool)
    requires line.Elif?
    ensures var e := EffectFor(s, line, iocccok);
            e.Stops? || (e.Moves? && (e.keep ==> Undecided(e.written, iocccok)))
  {
    match line.cond
    case Unknown(_) => TableElif(s, line, iocccok);
    case Known(b) =>
      var a := Trans(s, TypeOf(line), Dodgy(line));
      assert a in {Eelif, Eioccc, Strue, Sfalse, Dfalse, Mtrue, Delif, Melif} || (Dodgy(line) && a == Oelif);
  }

  /** In what unifdef writes, a condition it could decide stands only on a directive spread
      over several lines, and only under -e. */
  lemma {:induction false} OutputUndecided(lines: seq<Line>, iocccok: bool)
    ensures RunLines(lines, iocccok).Running? ==> AllUndecided(RunLines(lines, iocccok).m.out, iocccok)
  {
    hide Step;
    if lines != [] {
      var prefix, line := lines[..|lines| - 1], lines[|lines| - 1];
      OutputUndecided(prefix, iocccok);
      if RunLines(prefix, iocccok).Running? {
        WritesUndecided(RunLines(prefix, iocccok).m, line, iocccok);
      }
    }
  }

  // The exit status, and when the output is the input.

  /** Every open level is passed through: its directives so far are all in the output. */
  predicate Passing(levels: Stack<Level>) {
    match levels
    case Bottom => true
    case Push(below, top) => top.state in {PASS_MIDDLE, PASS_ELSE} && Passing(below)
  }

  /** A one-line #elif whose condition is known to be true. */
  predicate EditedElif(line: Line) {
    line == Elif(Known(true), NONE)
  }

  predicate NoEditedElif(lines: seq<Line>) {
    forall k :: 0 <= k < |lines| ==> !EditedElif(lines[k])
  }

  ghost predicate Accounted(m: Machine, lines: seq<Line>) {
    && m.exitstat <= 1
    && |m.out| <= |lines|
    && (m.exitstat == 0 <==> |m.out| == |lines|)
    && (m.exitstat == 0 && NoEditedElif(lines) ==> Passing(m.levels) && m.out == lines)
    && (!NoEditedElif(lines) ==> m.out != lines)
  }

  /** What one line does in a passed-through block. */
  lemma PassingEffect(s: IfState, line: Line, iocccok: bool)
    requires s in {OUTSIDE, PASS_MIDDLE, PASS_ELSE}
    ensures var e := EffectFor(s, line, iocccok);
            || e.Stops?
            || (EditedElif(line) && e.Moves? && e.written != line)
            || (!EditedElif(line) && !e.Exits? &&
                  (e.keep ==> (e.Moves? ==> e.written == line) &&
                              (e.Moves? || e.Enters? ==> e.to in {PASS_MIDDLE, PASS_ELSE})))
  {
    match line
    case Plain(_, _) =>
    case If(_, _, _) => TableIf(s, line, iocccok);
    case Elif(_, _) =>
      if EditedElif(line) { assert Trans(s, ELTRUE, false) in {Eelif, Mtrue}; }
      else { TableElif(s, line, iocccok); }
    case Else(_) => TableElse(s, line, iocccok);
    case Endif(_) =>
  }

  lemma StepAccounted(m: Machine, prefix: seq<Line>, line: Line, iocccok: bool)
    requires Accounted(m, prefix) && Step(m, line, iocccok).Running?
    ensures Accounted(Step(m, line, iocccok).m, prefix + [line])
  {
    hide EffectFor;
    var lines, m' := prefix + [line], Step(m, line, iocccok).m;
    assert lines[..|prefix|] == prefix && lines[|prefix|] == line;
    assert m'.out != m.out ==> m'.out == m.out + [Written(m, line, iocccok)];
    if m.exitstat == 0 && NoEditedElif(prefix) {
      PassingEffect(Top(m.levels), line, iocccok);
    }
  }

  lemma {:induction false} RunAccounted(lines: seq<Line>, iocccok: bool)
    ensures RunLines(lines, iocccok).Running? ==> Accounted(RunLines(lines, iocccok).m, lines)
  {
    if lines != [] {
      hide Step, Accounted;
      var prefix, line := lines[..|lines| - 1], lines[|lines| - 1];
      RunAccounted(prefix, iocccok);
      assert prefix + [line] == lines;
      if RunLines(prefix, iocccok).Running? && RunLines(lines, iocccok).Running? {
        StepAccounted(RunLines(prefix, iocccok).m, prefix, line, iocccok);
      }
    }
  }

  /** The exit status is 0 exactly when no line was deleted. That is not the same as the
      output being the input: a known-true #elif after an unknown #if is edited, not deleted.
      The output is the input exactly when the status is 0 and no such #elif is present. */
  lemma ExitStatus(lines: seq<Line>, iocccok: bool)
    ensures match Unifdef(lines, iocccok)
            case Exited(status, out) =>
              && status <= 1 && |out| <= |lines|
              && (status == 0 <==> |out| == |lines|)
              && (out == lines <==> status == 0 && NoEditedElif(lines))
            case _ => true
  {
    hide RunLines, Progression, InStep;
    RunAccounted(lines, iocccok);
    RunInStep(lines, iocccok, _ => true);
  }

  /** The family's smallest member: status 0 although the output differs from the input. */
  lemma StatusZeroButEdited(a: Line, b: Line, c: Line, iocccok: bool)
    requires a.If? && a.cond.Unknown? && !Dodgy(a) && EditedElif(b) && c == Endif(NONE)
    ensures Unifdef([a, b, c], iocccok) == Exited(0, [a, Else(NONE), c])
    ensures [a, Else(NONE), c] != [a, b, c]
  {
    hide Step, EffectFor;
    var m1 := Machine(Push(Bottom, Level(PASS_MIDDLE, false)), [a], 0);
    var m2 := Machine(Push(Bottom, Level(TRUE_MIDDLE, false)), [a, Else(NONE)], 0);
    var m3 := Machine(Bottom, [a, Else(NONE), c], 0);
    OpenStep(a, iocccok, m1);
    EditStep(m1, b, iocccok, m2);
    CloseStep(m2, c, iocccok, m3);
    RunSnoc([], a, iocccok, INITIAL, m1);
    RunSnoc([a], b, iocccok, m1, m2);
    RunSnoc([a, b], c, iocccok, m2, m3);
    assert [] + [a] == [a] && [a] + [b] == [a, b] && [a, b] + [c] == [a, b, c];
    assert [a, Else(NONE), c][1] != [a, b, c][1];
  }

  lemma OpenStep(a: Line, iocccok: bool, m: Machine)
    requires a.If? && a.cond.Unknown? && !Dodgy(a) && m == Machine(Push(Bottom, Level(PASS_MIDDLE, false)), [a], 0)
    ensures Step(INITIAL, a, iocccok) == Running(m)
  {
    assert Trans(OUTSIDE, IF, false) == Fpass;
  }

  lemma CloseStep(m: Machine, c: Line, iocccok: bool, m': Machine)
    requires m.levels.Push? && Top(m.levels).TRUE_MIDDLE? && c == Endif(NONE)
    requires m' == m.(levels := m.levels.below, out := m.out + [c])
    ensures Step(m, c, iocccok) == Running(m')
  {
    assert Trans(TRUE_MIDDLE, ENDIF, false) == Pendif;
  }

  lemma EditStep(m: Machine, b: Line, iocccok: bool, m': Machine)
    requires m.levels.Push? && Top(m.levels).PASS_MIDDLE? && EditedElif(b)
    requires m' == m.(levels := Push(m.levels.below, Level(TRUE_MIDDLE, m.levels.top.ignoring)), out := m.out + [Else(NONE)])
    ensures Step(m, b, iocccok) == Running(m')
  {
    assert Trans(PASS_MIDDLE, ELTRUE, false) == Mtrue;
  }

  lemma RunSnoc(lines: seq<Line>, line: Line, iocccok: bool, m: Machine, m': Machine)
    requires RunLines(lines, iocccok) == Running(m)
    requires Step(m, line, iocccok) == Running(m')
    ensures RunLines(lines + [line], iocccok) == Running(m')
  {
    assert (lines + [line])[..|lines|] == lines;
  }

  /** Where nothing can be decided, nothing is deleted, edited or found obfuscated. */
  lemma {:induction false} NothingDropped(lines: seq<Line>, iocccok: bool)
    requires AllUndecided(lines, iocccok)
    ensures RunLines(lines, iocccok) != Failed(Obfuscated)
    ensures RunLines(lines, iocccok).Running? ==>
              var m := RunLines(lines, iocccok).m;
              m.exitstat == 0 && Passing(m.levels) && m.out == lines
  {
    hide EffectFor;
    if lines != [] {
      var prefix, line := lines[..|lines| - 1], lines[|lines| - 1];
      NothingDropped(prefix, iocccok);
      if RunLines(prefix, iocccok).Running? {
        UndecidedKept(Top(RunLines(prefix, iocccok).m.levels), line, iocccok);
        PassingEffect(Top(RunLines(prefix, iocccok).m.levels), line, iocccok);
        assert prefix + [line] == lines;
      }
    }
  }

  lemma UndecidedKept(s: IfState, line: Line, iocccok: bool)
    requires Undecided(line, iocccok) && s in {OUTSIDE, PASS_MIDDLE, PASS_ELSE}
    ensures var e := EffectFor(s, line, iocccok);
            !EditedElif(line) && !e.Exits? && e != Stops(Obfuscated) && (e.Stops? || e.keep)
  {
    hide Trans;
    match line
    case Plain(_, _) => PlainStays(s, line, iocccok);
    case If(_, _, _) => PassedIf(s, TypeOf(line), Dodgy(line));
    case Elif(_, _) => PassedElif(s, TypeOf(line), Dodgy(line));
    case Else(_) => PassedElif(s, ELIF, Dodgy(line));
    case Endif(_) => PassedElif(s, ELIF, Dodgy(line));
  }

  lemma PassedIf(s: IfState, lt: LineType, dodgy: bool)
    requires s in {OUTSIDE, PASS_MIDDLE, PASS_ELSE}
    ensures lt.IF? ==> Trans(s, lt, dodgy) == Fpass
    ensures dodgy && lt in {TRUEI, FALSEI, TRUE, FALSE} ==> Trans(s, lt, dodgy) in {Oiffy, Oif}
  {
    IfColumns(s, dodgy);
  }

  /** The entries of the passed-through states for what follows an #if. */
  lemma PassedElif(s: IfState, lt: LineType, dodgy: bool)
    requires s in {OUTSIDE, PASS_MIDDLE, PASS_ELSE}
    ensures lt.ELIF? || (dodgy && (lt.ELTRUE? || lt.ELFALSE?)) ==>
              Trans(s, lt, dodgy) in {Eelif, Pelif} || (Trans(s, lt, dodgy) == Oelif && !lt.ELIF?)
    ensures Trans(s, ELSE, dodgy) in {Eelse, Pelse} && Trans(s, ENDIF, dodgy) in {Eendif, Pendif}
  {
  }
}
