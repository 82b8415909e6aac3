/**
 unifdef's globals and transition functions, updated in place as in the source, proved to
 refine the machine. The depth-0 aborts are shown unreachable: they are preconditions here,
 discharged from the table.
 */
module UnifdefProcess {
  import opened ConditionalInclusion
  import opened UnifdefMachine

  /** The stack held in the first `d` entries above index 0 of the two arrays. */
  ghost function LevelsOf(states: seq<IfState>, flags: seq<bool>, d: nat): Stack<Level>
    requires d < |states| && d < |flags|
  {
    if d == 0 then Bottom else Push(LevelsOf(states, flags, d - 1), Level(states[d], flags[d]))
  }

  lemma {:induction false} LevelsFrame(s: seq<IfState>, s': seq<IfState>, f: seq<bool>, f': seq<bool>, d: nat)
    requires d < |s| <= |s'| && d < |f| <= |f'|
    requires forall k :: 0 < k <= d ==> s[k] == s'[k] && f[k] == f'[k]
    ensures LevelsOf(s, f, d) == LevelsOf(s', f', d)
    ensures Height(LevelsOf(s, f, d)) == d
  {
    if d > 0 { LevelsFrame(s, s', f, f', d - 1); }
  }

  /** Writing one level above an unchanged stack. */
  lemma LevelsPush(s: seq<IfState>, s': seq<IfState>, f: seq<bool>, f': seq<bool>, d: nat)
    requires d + 1 < |s'| && d < |s| <= |s'| && d + 1 < |f'| && d < |f| <= |f'|
    requires forall k :: 0 < k <= d ==> s[k] == s'[k] && f[k] == f'[k]
    ensures LevelsOf(s', f', d + 1) == Push(LevelsOf(s, f, d), Level(s'[d + 1], f'[d + 1]))
  {
    LevelsFrame(s, s', f, f', d);
  }

  /** What the flag below the top says. */
  lemma TopFlag(s: seq<IfState>, f: seq<bool>, d: nat)
    requires d < |s| && d < |f| && !f[0] && s[0].OUTSIDE?
    ensures Ignoring(LevelsOf(s, f, d)) == f[d] && Top(LevelsOf(s, f, d)) == s[d]
    ensures Height(LevelsOf(s, f, d)) == d && (LevelsOf(s, f, d).Bottom? <==> d == 0)
  {
    LevelsFrame(s, s, f, f, d);
  }

  /** Writing the top entries of both arrays moves the top level. */
  lemma LevelMoved(s: seq<IfState>, f: seq<bool>, d: nat, to: IfState, flag: bool)
    requires 0 < d < |s| && d < |f| && !f[0] && s[0].OUTSIDE?
    ensures var levels := LevelsOf(s, f, d);
            && LevelsOf(s[d := to], f[d := flag], d) == Push(levels.below, Level(to, flag))
            && Ignoring(levels.below) == f[d - 1] && levels.top.ignoring == f[d]
  {
    LevelsFrame(s, s[d := to], f, f[d := flag], d - 1);
    TopFlag(s, f, d - 1);
  }

  /** Go: the transition function returned. Halt: the process ended inside it. */
  datatype Signal = Go | Halt(outcome: Outcome)

  class Processor {
    const iocccok: bool
    const ifstate: array<IfState>
    const ignoring: array<bool>
    var depth: nat
    var tline: Line
    var out: seq<Line>
    var exitstat: nat

    ghost predicate Valid()
      reads this, ifstate, ignoring
    {
      && ifstate.Length == MAXDEPTH && ignoring.Length == MAXDEPTH
      && depth < MAXDEPTH
      && ifstate[0].OUTSIDE? && !ignoring[0]
      && forall k :: 0 < k <= depth ==> !ifstate[k].OUTSIDE?
    }

    ghost function Abstract(): Machine
      requires Valid()
      reads this, ifstate, ignoring
    {
      Machine(LevelsOf(ifstate[..], ignoring[..], depth), out, exitstat)
    }

    /** The state of the process after a transition function is that of the machine. */
    ghost predicate Did(r: Signal, o: Outcome)
      reads this, ifstate, ignoring
    {
      match r
      case Go => Valid() && o == Running(Abstract())
      case Halt(h) => o == h && !h.Running?
    }

    constructor (iocccok: bool)
      ensures Valid() && Abstract() == INITIAL && this.iocccok == iocccok
      ensures fresh(ifstate) && fresh(ignoring)
    {
      this.iocccok := iocccok;
      ifstate := new IfState[MAXDEPTH](_ => OUTSIDE);
      ignoring := new bool[MAXDEPTH](_ => false);
      depth, tline, out, exitstat := 0, BLANK, [], 0;
    }

    // State machine utility functions

    method IgnoreOff()
      requires Valid() && depth != 0
      modifies ignoring
      ensures ignoring[..] == old(ignoring[..])[depth := old(ignoring[depth - 1])]
    {
      ignoring[depth] := ignoring[depth - 1];
    }

    method State(to: IfState)
      requires ifstate.Length == MAXDEPTH && depth < MAXDEPTH
      modifies ifstate
      ensures ifstate[..] == old(ifstate[..])[depth := to]
    {
      ifstate[depth] := to;
    }

    method FlushLine(keep: bool)
      modifies `out, `exitstat
      ensures out == if keep then old(out) + [tline] else old(out)
      ensures exitstat == if keep then old(exitstat) else 1
    {
      if keep {
        out := out + [tline];
      } else {
        exitstat := 1;
      }
    }

    // The shapes shared by the transition functions

    /** flush, ignoreoff when asked, state: a move of the current level. */
    method MoveLevel(keep: bool, to: IfState, off: bool)
      requires Valid() && depth != 0 && !to.OUTSIDE?
      modifies `out, `exitstat, ifstate, ignoring
      ensures Valid() && depth == old(depth)
      ensures Running(Abstract()) == Move(old(Abstract()), tline, keep, to, off)
    {
      ghost var states, flags := ifstate[..], ignoring[..];
      var flag := if off then ignoring[depth - 1] else ignoring[depth];
      LevelMoved(states, flags, depth, to, flag);
      hide LevelsOf;
      FlushLine(keep);
      if off { IgnoreOff(); }
      assert ignoring[..] == flags[depth := flag];
      State(to);
      assert ifstate[..] == states[depth := to];
    }

    method UnnestAfter(keep: bool)
      requires Valid() && depth != 0
      modifies `out, `exitstat, `depth
      ensures Valid() && Running(Abstract()) == Leave(old(Abstract()), tline, keep)
    {
      FlushLine(keep);
      depth := depth - 1;
    }

    /** A level above the current one. */
    method OpenLevel(to: IfState, flag: bool)
      requires Valid() && !to.OUTSIDE? && depth + 1 < MAXDEPTH
      modifies `depth, ifstate, ignoring
      ensures Valid() && depth == old(depth) + 1
      ensures Abstract() == old(Abstract()).(levels := Push(old(Abstract().levels), Level(to, flag)))
    {
      ghost var states, flags, d := ifstate[..], ignoring[..], depth;
      LevelsPush(states, states[d + 1 := to], flags, flags[d + 1 := flag], d);
      hide LevelsOf;
      depth := depth + 1;
      ignoring[depth] := flag;
      assert ignoring[..] == flags[d + 1 := flag];
      State(to);
      assert ifstate[..] == states[d + 1 := to];
    }

    /** nest, then the first move of the new level, with ignoreon when asked. */
    method EnterLevel(keep: bool, to: IfState, ignore: bool) returns (r: Signal)
      requires Valid() && !to.OUTSIDE?
      modifies `out, `exitstat, `depth, ifstate, ignoring
      ensures Did(r, Enter(old(Abstract()), tline, keep, to, ignore))
    {
      TopFlag(ifstate[..], ignoring[..], depth);
      hide LevelsOf;
      if depth + 1 >= MAXDEPTH {
        return Halt(Failed(TooDeep));
      }
      FlushLine(keep);
      OpenLevel(to, ignore || ignoring[depth]);
      return Go;
    }

    /** trans_table[ifstate[depth]][lineval]() for a line of the input. */
    method Dispatch(line: Line) returns (r: Signal)
      requires Valid()
      modifies this, ifstate, ignoring
      ensures Did(r, Step(old(Abstract()), line, iocccok))
    {
      tline := line;
      var current := ifstate[depth];
      assert current == Top(Abstract().levels);
      assert depth == 0 <==> current.OUTSIDE?;
      var e := EffectFor(current, line, iocccok);
      OutsideNeverMoves(current, line, iocccok);
      hide EffectFor;
      match e
      case Stops(error) => return Halt(Failed(error));
      case Stays(keep) => FlushLine(keep); return Go;
      case Enters(keep, to, ignore) => r := EnterLevel(keep, to, ignore);
      case Moves(written, keep, to, ignoreoff) => tline := written; MoveLevel(keep, to, ignoreoff); return Go;
      case Leaves(keep) => UnnestAfter(keep); return Go;
      case Exits => return Halt(Exited(exitstat, out));
    }

    /** The driver: every line, then end of file. */
    method Process(lines: seq<Line>) returns (r: Outcome)
      requires Valid() && Abstract() == INITIAL
      modifies this, ifstate, ignoring
      ensures r == Unifdef(lines, iocccok)
    {
      hide EffectFor;
      var n := 0;
      while n < |lines|
        invariant 0 <= n <= |lines| && Valid()
        invariant RunLines(lines[..n], iocccok) == Running(Abstract())
      {
        var s := Dispatch(lines[n]);
        assert lines[..n + 1][..n] == lines[..n];
        if s.Halt? {
          RunStopped(lines, n + 1, iocccok);
          assert lines[..|lines|] == lines;
          return s.outcome;
        }
        n := n + 1;
      }
      assert lines[..n] == lines;
      if !ifstate[depth].OUTSIDE? {
        return Failed(PrematureEof);
      }
      if OpenAfter(lines) {
        return Failed(EofInComment);
      }
      return Exited(exitstat, out);
    }
  }

  /** The OUTSIDE row never moves or leaves a level, and no row moves to OUTSIDE. */
  lemma OutsideNeverMoves(s: IfState, line: Line, iocccok: bool)
    ensures var e := EffectFor(s, line, iocccok);
            && (e.Moves? || e.Leaves? ==> !s.OUTSIDE?)
            && (e.Moves? || e.Enters? ==> !e.to.OUTSIDE?)
  {
    if s.OUTSIDE? {
      match line
      case Elif(_, _) => assert Trans(s, TypeOf(line), Dodgy(line)) == Eelif;
      case _ =>
    }
  }

  /** Once stopped, the rest of the input is not read. */
  lemma {:induction false} RunStopped(lines: seq<Line>, n: nat, iocccok: bool)
    requires n <= |lines| && !RunLines(lines[..n], iocccok).Running?
    ensures RunLines(lines, iocccok) == RunLines(lines[..n], iocccok)
  {
    if n == |lines| {
      assert lines[..n] == lines;
    } else {
      var prefix := lines[..|lines| - 1];
      assert prefix[..n] == lines[..n];
      RunStopped(prefix, n, iocccok);
    }
  }
}
