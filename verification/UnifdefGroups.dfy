/**
 What the source alone says about the state unifdef is in: for every open group, whether the
 text around it is kept, what is known of its conditions so far, and whether its #else was
 seen. From this follows which directives spread over several lines are reported.
 */
module UnifdefGroups {
  import opened ConditionalInclusion
  import opened UnifdefMachine
  import opened UnifdefSimulation

  /** A condition as unifdef goes by it: one on a directive spread over several lines is never
      acted on. */
  datatype Verdict = T | F | U

  function VerdictOf(line: Line): Verdict
    requires line.If? || line.Elif?
  {
    if line.cond.Unknown? || Dodgy(line) then U else if line.cond.value then T else F
  }

  datatype Group = Group(shown: bool, conds: seq<Verdict>, elseSeen: bool)

  function FirstHit(conds: seq<Verdict>): nat {
    if conds == [] || !conds[0].F? then 0 else 1 + FirstHit(conds[1..])
  }

  function FirstTrue(conds: seq<Verdict>): nat {
    if conds == [] || conds[0].T? then 0 else 1 + FirstTrue(conds[1..])
  }

  /** The branch the conditions so far lead to. */
  function Branch(conds: seq<Verdict>): IfState {
    var n, hit, yes := |conds|, FirstHit(conds), FirstTrue(conds);
    if hit >= n then FALSE_PREFIX
    else if yes == hit then if hit + 1 == n then TRUE_PREFIX else FALSE_TRAILER
    else if yes < n then if yes + 1 == n then TRUE_MIDDLE else FALSE_TRAILER
    else if conds[n - 1].F? then FALSE_MIDDLE else PASS_MIDDLE
  }

  function StateOf(g: Group): IfState {
    if !g.shown then if g.elseSeen then FALSE_ELSE else FALSE_TRAILER
    else if !g.elseSeen then Branch(g.conds)
    else
      match Branch(g.conds)
      case FALSE_PREFIX => TRUE_ELSE
      case PASS_MIDDLE | FALSE_MIDDLE => PASS_ELSE
      case _ => FALSE_ELSE
  }

  function Now(groups: Stack<Group>): IfState {
    if groups.Bottom? then OUTSIDE else StateOf(groups.top)
  }

  /** The open groups after a line. */
  function Track(groups: Stack<Group>, line: Line): Stack<Group> {
    match line
    case Plain(_, _) => groups
    case If(_, _, _) => Push(groups, Group(Printing(Now(groups)), [VerdictOf(line)], false))
    case Elif(_, _) =>
      if groups.Bottom? then groups
      else Push(groups.below, groups.top.(conds := groups.top.conds + [VerdictOf(line)]))
    case Else(_) => if groups.Bottom? then groups else Push(groups.below, groups.top.(elseSeen := true))
    case Endif(_) => if groups.Bottom? then groups else groups.below
  }

  function GroupsOf(lines: seq<Line>): Stack<Group> {
    if lines == [] then Bottom else Track(GroupsOf(lines[..|lines| - 1]), lines[|lines| - 1])
  }

  lemma {:induction false} FirstsSnoc(conds: seq<Verdict>, v: Verdict)
    ensures FirstHit(conds) <= |conds| && FirstTrue(conds) <= |conds|
    ensures FirstHit(conds) < |conds| ==> !conds[FirstHit(conds)].F?
    ensures FirstTrue(conds) < |conds| ==> conds[FirstTrue(conds)].T?
    ensures FirstHit(conds) <= FirstTrue(conds)
    ensures FirstHit(conds) < |conds| ==> (FirstTrue(conds) == FirstHit(conds) <==> conds[FirstHit(conds)].T?)
    ensures FirstHit(conds + [v]) == if FirstHit(conds) < |conds| || !v.F? then FirstHit(conds) else |conds| + 1
    ensures FirstTrue(conds + [v]) == if FirstTrue(conds) < |conds| || v.T? then FirstTrue(conds) else |conds| + 1
  {
    if conds != [] {
      FirstsSnoc(conds[1..], v);
      assert (conds + [v])[1..] == conds[1..] + [v];
    } else {
      assert (conds + [v])[1..] == [];
    }
  }

  /** One more condition. */
  lemma BranchSnoc(conds: seq<Verdict>, v: Verdict)
    requires conds != []
    ensures Branch(conds + [v]) ==
            match Branch(conds)
            case FALSE_PREFIX => if v.T? then TRUE_PREFIX else if v.F? then FALSE_PREFIX else PASS_MIDDLE
            case PASS_MIDDLE | FALSE_MIDDLE => if v.T? then TRUE_MIDDLE else if v.F? then FALSE_MIDDLE else PASS_MIDDLE
            case _ => FALSE_TRAILER
  {
    FirstsSnoc(conds, v);
    hide FirstHit, FirstTrue;
    assert (conds + [v])[|conds|] == v;
  }

  // The machine is in the states that the source says

  ghost predicate Matches(levels: Stack<Level>, groups: Stack<Group>)
    decreases levels
  {
    match (levels, groups)
    case (Bottom, Bottom) => true
    case (Push(lb, l), Push(gb, g)) =>
      Matches(lb, gb) && l.state == StateOf(g) && (g.shown <==> Printing(Top(lb))) && g.conds != []
    case _ => false
  }

  lemma MatchesNow(levels: Stack<Level>, groups: Stack<Group>)
    requires Matches(levels, groups)
    ensures Top(levels) == Now(groups) && (levels.Bottom? <==> groups.Bottom?)
    ensures levels.Push? && Emitted(Top(levels)) ==> Printing(Top(levels.below))
  {
  }

  lemma IfMatches(m: Machine, groups: Stack<Group>, line: Line, iocccok: bool)
    requires Matches(m.levels, groups) && line.If? && Step(m, line, iocccok).Running?
    ensures Matches(Step(m, line, iocccok).m.levels, Track(groups, line))
  {
    hide EffectFor;
    MatchesNow(m.levels, groups);
    TableIf(Top(m.levels), line, iocccok);
    var g := Track(groups, line).top;
    assert g.shown ==> StateOf(g) == match VerdictOf(line) { case T => TRUE_PREFIX case F => FALSE_PREFIX case U => PASS_MIDDLE } by {
      FirstsSnoc([], g.conds[0]);
      assert [] + [g.conds[0]] == g.conds;
    }
  }

  lemma ElifMatches(m: Machine, groups: Stack<Group>, line: Line, iocccok: bool)
    requires Matches(m.levels, groups) && line.Elif? && Step(m, line, iocccok).Running?
    ensures Matches(Step(m, line, iocccok).m.levels, Track(groups, line))
  {
    hide EffectFor, Branch;
    TableElif(Top(m.levels), line, iocccok);
    if groups.Push? { BranchSnoc(groups.top.conds, VerdictOf(line)); }
  }

  lemma ElseMatches(m: Machine, groups: Stack<Group>, line: Line, iocccok: bool)
    requires Matches(m.levels, groups) && (line.Else? || line.Endif?) && Step(m, line, iocccok).Running?
    ensures Matches(Step(m, line, iocccok).m.levels, Track(groups, line))
  {
    hide EffectFor, Branch;
    if line.Else? { TableElse(Top(m.levels), line, iocccok); } else { TableEndif(Top(m.levels), line, iocccok); }
  }

  lemma {:induction false} RunMatches(lines: seq<Line>, iocccok: bool)
    ensures RunLines(lines, iocccok).Running? ==> Matches(RunLines(lines, iocccok).m.levels, GroupsOf(lines))
  {
    if lines != [] {
      var prefix, line := lines[..|lines| - 1], lines[|lines| - 1];
      RunMatches(prefix, iocccok);
      if RunLines(lines, iocccok).Running? {
        var m, groups := RunLines(prefix, iocccok).m, GroupsOf(prefix);
        assert Step(m, line, iocccok).Running?;
        if line.Plain? {
          PlainKeepsLevels(m, line, iocccok);
        } else {
          hide Step, Matches, Track;
          if line.If? { IfMatches(m, groups, line, iocccok); }
          else if line.Elif? { ElifMatches(m, groups, line, iocccok); }
          else { ElseMatches(m, groups, line, iocccok); }
        }
      }
    }
  }

  lemma PlainKeepsLevels(m: Machine, line: Line, iocccok: bool)
    requires line.Plain?
    ensures Step(m, line, iocccok) == Running(Flush(m, line, Printing(Top(m.levels))))
  {
  }

  // Which directives are reported

  /** Is this directive, spread over several lines, reported as obfuscated? */
  predicate Reported(s: IfState, line: Line, iocccok: bool) {
    && Dodgy(line)
    && match line
       case If(cond, _, _) => cond.Known? && Printing(s) && !iocccok
       case Elif(cond, _) =>
         (match s
          case FALSE_PREFIX => cond.Known?
          case PASS_MIDDLE => cond.Known? && !iocccok
          case TRUE_PREFIX | FALSE_MIDDLE | TRUE_MIDDLE => true
          case _ => false)
       case Else(_) => s in {FALSE_PREFIX, TRUE_PREFIX, FALSE_MIDDLE, TRUE_MIDDLE}
       case Endif(_) => s !in {OUTSIDE, PASS_MIDDLE, TRUE_MIDDLE, PASS_ELSE}
       case Plain(_, _) => false
  }

  lemma ReportedStops(s: IfState, line: Line, iocccok: bool)
    ensures EffectFor(s, line, iocccok) == Stops(Obfuscated) <==> Reported(s, line, iocccok)
  {
    if Dodgy(line) { DodgyStops(s, line, iocccok); } else { OneLineNotObfuscated(s, line, iocccok); }
  }

  lemma DodgyStops(s: IfState, line: Line, iocccok: bool)
    requires Dodgy(line)
    ensures EffectFor(s, line, iocccok) == Stops(Obfuscated) <==> Reported(s, line, iocccok)
  {
    if line.If? { IfColumns(s, true); }
  }

  predicate Plainspoken(a: Action) {
    !a.Eioccc? && !a.Oiffy? && !a.Oif? && !a.Oelif?
  }

  /** No entry of the table for a one-line directive complains of obfuscation. */
  lemma OneLineEntries(s: IfState, lt: LineType)
    ensures Plainspoken(Trans(s, lt, false))
  {
    var row := OneLineRow(s);
    assert Plainspoken(row.truei) && Plainspoken(row.falsei) && Plainspoken(row.if_);
    assert Plainspoken(row.true_) && Plainspoken(row.false_) && Plainspoken(row.elif);
    assert Plainspoken(row.eltrue) && Plainspoken(row.elfalse) && Plainspoken(row.else_) && Plainspoken(row.endif);
  }

  lemma OneLineNotObfuscated(s: IfState, line: Line, iocccok: bool)
    requires !Dodgy(line)
    ensures EffectFor(s, line, iocccok) != Stops(Obfuscated)
  {
    OneLineEntries(s, TypeOf(line));
  }

  /** Would printing change at the directive, were it on one line: between the text before, the
      directive itself and the text after it? */
  predicate Changes(g: Group, line: Line) {
    var s := StateOf(g);
    var e := EffectFor(s, Bare(line), false);
    && !e.Stops? && !e.Exits?
    && var after := match e { case Enters(_, to, _) => Printing(to) case Moves(_, _, to, _) => Printing(to)
                              case Leaves(_) => g.shown case _ => Printing(s) };
       !(Printing(s) == e.keep == after)
  }

  /** The report is meant for directives where printing changes. It is missing for an undecided
      #elif after conditions that are all false. It is made without need for a false #elif in
      text that is deleted and stays so, a true one in text that is kept and stays so, and an
      #endif in the midst of deleted text. */
  predicate Missed(s: IfState, line: Line) {
    s.FALSE_PREFIX? && line.Elif? && line.cond.Unknown?
  }

  predicate Needless(g: Group, line: Line) {
    || (line.Elif? && line.cond == Known(false) && StateOf(g) in {FALSE_PREFIX, FALSE_MIDDLE})
    || (line.Elif? && line.cond == Known(true) && StateOf(g).PASS_MIDDLE?)
    || (line.Endif? && !g.shown)
  }

  /** What -e lets through. */
  predicate Excused(s: IfState, line: Line, iocccok: bool) {
    iocccok && ((line.If? && line.cond.Known? && Printing(s)) || (line.Elif? && line.cond.Known? && s.PASS_MIDDLE?))
  }

  lemma ReportedExactly(g: Group, line: Line, iocccok: bool)
    requires Dodgy(line) && g.conds != []
    ensures var s := StateOf(g);
            Reported(s, line, iocccok) <==>
            !Excused(s, line, iocccok) && ((Changes(g, line) && !Missed(s, line)) || Needless(g, line))
  {
    var s := StateOf(g);
    StateShown(g);
    hide StateOf;
    match line
    case If(_, _, _) => TableIf(s, Bare(line), false); OneLineNotObfuscated(s, Bare(line), false); hide EffectFor;
    case Elif(_, _) => TableElif(s, Bare(line), false); OneLineNotObfuscated(s, Bare(line), false); hide EffectFor;
    case Else(_) => TableElse(s, Bare(line), false); OneLineNotObfuscated(s, Bare(line), false); hide EffectFor;
    case Endif(_) => TableEndif(s, Bare(line), false); OneLineNotObfuscated(s, Bare(line), false); hide EffectFor;
  }

  lemma StateShown(g: Group)
    ensures !StateOf(g).OUTSIDE? && (StateOf(g) !in {FALSE_TRAILER, FALSE_ELSE} ==> g.shown)
    ensures StateOf(g) in {PASS_ELSE, FALSE_ELSE, TRUE_ELSE} <==> g.elseSeen
  {
  }
}
