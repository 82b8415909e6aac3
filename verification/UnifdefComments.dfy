/**
 Comments over several lines. What unifdef writes reads as it did in the source, but for one
 entry of the table: an undecided #elif that ends a comment, after conditions that are all
 false. Its comment's opening was deleted. From this the results for whole files.
 */
module UnifdefComments {
  import opened ConditionalInclusion
  import opened UnifdefMachine
  import opened UnifdefSimulation
  import opened UnifdefGroups
  import opened UnifdefTheorems

  /** The group's text is kept and none of its conditions so far is other than false. */
  predicate FalseSoFar(groups: Stack<Group>) {
    groups.Push? && groups.top.shown && !groups.top.elseSeen && forall j :: 0 <= j < |groups.top.conds| ==> groups.top.conds[j].F?
  }

  /** Line `k` is written without the opening of its comment, and reads as text without it. */
  predicate OrphanAt(lines: seq<Line>, k: nat) {
    && k < |lines| && lines[k].Elif? && lines[k].cond.Unknown?
    && lines[k].c.before.Open? && lines[k].c.before.alone.AsText?
    && FalseSoFar(GroupsOf(lines[..k]))
  }

  ghost predicate Orphaned(lines: seq<Line>) {
    exists k: nat :: OrphanAt(lines, k)
  }

  lemma {:induction false} AllFalse(conds: seq<Verdict>)
    ensures FirstHit(conds) >= |conds| <==> forall j :: 0 <= j < |conds| ==> conds[j].F?
  {
    if conds != [] && conds[0].F? {
      AllFalse(conds[1..]);
      assert forall j :: 0 < j < |conds| ==> conds[j] == conds[1..][j - 1];
    }
  }

  lemma FalsePrefixNow(groups: Stack<Group>)
    ensures Now(groups).FALSE_PREFIX? <==> FalseSoFar(groups)
  {
    if groups.Push? { AllFalse(groups.top.conds); }
  }

  // Every other entry of the table keeps a directive together with its comments

  /** Where a directive spread over several lines is neither refused nor Missed, it is left as
      it is, and it is printed exactly if the text on both sides is. */
  lemma Smooth(s: IfState, line: Line, iocccok: bool)
    requires Dodgy(line)
    ensures var e := EffectFor(s, line, iocccok);
            || e.Stops?
            || (e.Enters? && e.keep == Printing(s) == Printing(e.to))
            || (e.Moves? && !Missed(s, line) && e.written == line && e.keep == Printing(s) == Printing(e.to))
            || (Missed(s, line) && e == Moves(If(line.cond, false, line.c), true, PASS_MIDDLE, true))
            || (e == Leaves(true) && Printing(s) && Emitted(s))
  {
    ReportedStops(s, line, iocccok);
    match line
    case If(_, _, _) => TableIf(s, line, iocccok); hide EffectFor;
    case Elif(_, _) => TableElif(s, line, iocccok); hide EffectFor;
    case Else(_) => TableElse(s, line, iocccok); hide EffectFor;
    case Endif(_) => TableEndif(s, line, iocccok); hide EffectFor;
  }

  /** A directive on one line is written as one. */
  lemma OneLineWritten(s: IfState, line: Line, iocccok: bool)
    requires !line.Plain? && line.c == NONE
    ensures var e := EffectFor(s, line, iocccok); !e.Stays? && !e.Exits? && (e.Moves? ==> e.written.c == NONE)
  {
    match line
    case If(_, _, _) => TableIf(s, line, iocccok); hide EffectFor;
    case Elif(_, _) => TableElif(s, line, iocccok); hide EffectFor;
    case Else(_) => TableElse(s, line, iocccok); hide EffectFor;
    case Endif(_) => TableEndif(s, line, iocccok); hide EffectFor;
  }

  // What the output reads as

  /** How a written line compares with what is read: the same, or an undecided opening that is
      the same but for the comment before it or has become text. */
  predicate Alike(a: Line, b: Line) {
    a == b || (a.If? && a.cond.Unknown? && (Bare(a) == Bare(b) || b.Plain?))
  }

  predicate Lost(a: Line, b: Line) {
    a.If? && b.Plain?
  }

  ghost predicate AllAlike(out: seq<Line>, read: seq<Line>) {
    |read| == |out| && forall j :: 0 <= j < |out| ==> Alike(out[j], read[j])
  }

  ghost predicate SomeLost(out: seq<Line>, read: seq<Line>) {
    exists j :: 0 <= j < |out| && j < |read| && Lost(out[j], read[j])
  }

  /** After the lines so far: the output can be read; a comment is open after it exactly where
      text is printed and one is open in the source; and an opening was lost exactly if there
      was an orphan. */
  ghost predicate InTune(m: Machine, lines: seq<Line>) {
    && Reread(m.out).Some?
    && (OpenAfter(m.out) <==> Printing(Top(m.levels)) && OpenAfter(lines))
    && AllAlike(m.out, Reread(m.out).value)
    && (SomeLost(m.out, Reread(m.out).value) <==> Orphaned(lines))
  }

  /** Nothing is written, and no orphan is met. */
  lemma TuneDropped(m: Machine, prefix: seq<Line>, line: Line, m': Machine)
    requires InTune(m, prefix) && m'.out == m.out && !OrphanAt(prefix + [line], |prefix|)
    requires OpenAfter(m.out) <==> Printing(Top(m'.levels)) && line.c.after
    ensures InTune(m', prefix + [line])
  {
    OrphanSnoc(prefix, line);
    assert OpenAfter(prefix + [line]) == line.c.after;
  }

  lemma OrphanSnoc(prefix: seq<Line>, line: Line)
    ensures Orphaned(prefix + [line]) <==> Orphaned(prefix) || OrphanAt(prefix + [line], |prefix|)
  {
    var lines := prefix + [line];
    forall k: nat | k < |prefix| ensures OrphanAt(lines, k) <==> OrphanAt(prefix, k) {
      assert lines[..k] == prefix[..k];
    }
    if Orphaned(prefix) {
      var k: nat :| OrphanAt(prefix, k);
      assert OrphanAt(lines, k);
    }
    if Orphaned(lines) {
      var k: nat :| OrphanAt(lines, k);
      if k < |prefix| { assert OrphanAt(prefix, k); } else { assert k == |prefix|; }
    }
  }

  /** A line is written and read as `seen`. */
  lemma TuneWritten(m: Machine, prefix: seq<Line>, line: Line, l: Line, seen: Line, m': Machine)
    requires InTune(m, prefix) && m'.out == m.out + [l] && Seen(l, OpenAfter(m.out)) == Some(seen) && Alike(l, seen)
    requires Lost(l, seen) <==> OrphanAt(prefix + [line], |prefix|)
    requires l.c.after <==> Printing(Top(m'.levels)) && line.c.after
    ensures InTune(m', prefix + [line])
  {
    OrphanSnoc(prefix, line);
    hide Orphaned, OrphanAt, Seen;
    var out, read := m.out, Reread(m.out).value;
    var out', read' := out + [l], read + [seen];
    assert out'[..|out|] == out;
    assert Reread(out') == Some(read');
    if SomeLost(out, read) {
      var j :| 0 <= j < |out| && Lost(out[j], read[j]);
      assert Lost(out'[j], read'[j]);
    }
    if Lost(l, seen) { assert Lost(out'[|out|], read'[|out|]); }
    if SomeLost(out', read') && !Lost(l, seen) {
      var j :| 0 <= j < |out'| && j < |read'| && Lost(out'[j], read'[j]);
      assert Lost(out[j], read[j]);
    }
  }

  lemma PlainInTune(m: Machine, prefix: seq<Line>, line: Line, iocccok: bool)
    requires InTune(m, prefix) && line.Plain? && (line.c.before.Open? <==> OpenAfter(prefix))
    ensures InTune(Flush(m, line, Printing(Top(m.levels))), prefix + [line])
  {
    var m' := Flush(m, line, Printing(Top(m.levels)));
    assert (prefix + [line])[|prefix|] == line;
    if Printing(Top(m.levels)) {
      TuneWritten(m, prefix, line, line, line, m');
    } else {
      TuneDropped(m, prefix, line, m');
    }
  }

  /** A directive's own part in the tune: what is written for it, and how that reads. */
  ghost predicate Fits(e: Effect, s: IfState, after: bool, line: Line, open: bool) {
    var l := if e.Moves? then e.written else line;
    if e.Stops? || e.Exits? || e.Stays? then e.Stops?
    else if e.keep then
      && Seen(l, Printing(s) && open).Some? && Alike(l, Seen(l, Printing(s) && open).value)
      && (Lost(l, Seen(l, Printing(s) && open).value) <==> IsOrphan(s, line))
      && (l.c.after <==> after && line.c.after)
    else !IsOrphan(s, line) && (Printing(s) && open <==> after && line.c.after)
  }

  predicate IsOrphan(s: IfState, line: Line) {
    Missed(s, line) && line.c.before.Open? && line.c.before.alone.AsText?
  }

  lemma DirectiveFits(s: IfState, outer: bool, line: Line, open: bool, iocccok: bool)
    requires !line.Plain? && (line.c.before.Open? <==> open) && (Emitted(s) ==> outer)
    ensures var e := EffectFor(s, line, iocccok);
            Fits(e, s, match e { case Enters(_, to, _) => Printing(to) case Moves(_, _, to, _) => Printing(to) case _ => outer }, line, open)
  {
    if Dodgy(line) { Smooth(s, line, iocccok); } else { OneLineWritten(s, line, iocccok); }
    hide EffectFor;
  }

  lemma DirectiveInTune(m: Machine, prefix: seq<Line>, line: Line, iocccok: bool)
    requires InTune(m, prefix) && Matches(m.levels, GroupsOf(prefix)) && !line.Plain?
    requires (line.c.before.Open? <==> OpenAfter(prefix)) && Step(m, line, iocccok).Running?
    ensures InTune(Step(m, line, iocccok).m, prefix + [line])
  {
    var s, m' := Top(m.levels), Step(m, line, iocccok).m;
    var outer := m.levels.Push? && Printing(Top(m.levels.below));
    MatchesNow(m.levels, GroupsOf(prefix));
    OrphanIs(prefix, line, s);
    DirectiveFits(s, outer, line, OpenAfter(prefix), iocccok);
    TuneOpen(m, prefix);
    hide EffectFor, GroupsOf, InTune, OrphanAt, Matches, IsOrphan, Seen, Alike, Lost;
    var e := EffectFor(s, line, iocccok);
    var l := if e.Moves? then e.written else line;
    if e.keep {
      TuneWritten(m, prefix, line, l, Seen(l, OpenAfter(m.out)).value, m');
    } else {
      TuneDropped(m, prefix, line, m');
    }
  }

  lemma OrphanIs(prefix: seq<Line>, line: Line, s: IfState)
    requires s == Now(GroupsOf(prefix)) && !line.Plain?
    ensures OrphanAt(prefix + [line], |prefix|) <==> IsOrphan(s, line)
  {
    var lines := prefix + [line];
    assert lines[|prefix|] == line && lines[..|prefix|] == prefix;
    FalsePrefixNow(GroupsOf(prefix));
  }

  lemma TuneOpen(m: Machine, prefix: seq<Line>)
    requires InTune(m, prefix)
    ensures OpenAfter(m.out) <==> Printing(Top(m.levels)) && OpenAfter(prefix)
  {
  }

  lemma {:induction false} RunInTune(lines: seq<Line>, iocccok: bool)
    requires Chained(lines)
    ensures RunLines(lines, iocccok).Running? ==> InTune(RunLines(lines, iocccok).m, lines)
  {
    if lines == [] {
      assert !Orphaned(lines) && Reread([]) == Some([]);
    } else {
      var n := |lines| - 1;
      var prefix, line := lines[..n], lines[n];
      ChainedPrefix(lines, n);
      RunInTune(prefix, iocccok);
      assert prefix + [line] == lines;
      if RunLines(lines, iocccok).Running? {
        var m := RunLines(prefix, iocccok).m;
        RunMatches(prefix, iocccok);
        hide InTune, Matches;
        if line.Plain? {
          PlainKeepsLevels(m, line, iocccok);
          PlainInTune(m, prefix, line, iocccok);
        } else {
          hide Step;
          DirectiveInTune(m, prefix, line, iocccok);
        }
      }
    }
  }

  // Whole files

  lemma {:induction false} LostOpens(out: seq<Line>, read: seq<Line>)
    requires AllAlike(out, read)
    ensures Closes(read) == Closes(out) && Opens(read) <= Opens(out)
    ensures SomeLost(out, read) ==> Opens(read) < Opens(out)
  {
    if out != [] {
      var n := |out| - 1;
      assert Alike(out[n], read[n]);
      LostOpens(out[..n], read[..n]);
      if SomeLost(out, read) && !Lost(out[n], read[n]) {
        var j :| 0 <= j < |out| && j < |read| && Lost(out[j], read[j]);
        assert Lost(out[..n][j], read[..n][j]);
      }
    }
  }

  /** The output's directives being well formed, it reads as they say unless one was lost, and
      then it is ill formed. */
  lemma ReadOrLost(out: seq<Line>, read: seq<Line>, v: Valuation)
    requires AllAlike(out, read) && Preprocess(out, v).Some?
    ensures if SomeLost(out, read) then Preprocess(read, v).None? else Preprocess(read, v) == Preprocess(out, v)
  {
    if SomeLost(out, read) {
      LostOpens(out, read);
      Balance(out, v);
      Balance(read, v);
    } else {
      forall j | 0 <= j < |out| ensures Bare(out[j]) == Bare(read[j]) {
        assert Alike(out[j], read[j]) && !Lost(out[j], read[j]);
      }
      SameBare(out, read, v);
    }
  }

  /** The run behind an outcome. */
  lemma OutcomeOf(lines: seq<Line>, iocccok: bool)
    ensures var u, run := Unifdef(lines, iocccok), RunLines(lines, iocccok);
            && (u.Exited? ==> run.Running? && Top(run.m.levels).OUTSIDE? && u.out == run.m.out && !OpenAfter(lines))
            && (u == Failed(Obfuscated) <==> run == Failed(Obfuscated))
  {
    hide RunLines;
    RunInStep(lines, iocccok, _ => true);
  }

  /** What an accepted file's output reads as. */
  lemma ExitedInTune(lines: seq<Line>, iocccok: bool)
    requires Chained(lines) && Unifdef(lines, iocccok).Exited?
    ensures var out := Unifdef(lines, iocccok).out;
            && Reread(out).Some? && !OpenAfter(out) && AllAlike(out, Reread(out).value)
            && (SomeLost(out, Reread(out).value) <==> Orphaned(lines))
  {
    RunInTune(lines, iocccok);
    OutcomeOf(lines, iocccok);
    hide RunLines, Reread, Orphaned, Unifdef;
  }

  /** For every file and every truth assignment to the unknown conditions. When unifdef exits,
      the file was well formed, and its output means the same exactly if no undecided #elif that
      ends a comment, and is text without it, comes after conditions that are all false; else
      the output is ill formed. When it reports an error other than an obfuscated directive,
      the file is ill formed. It never aborts. */
  lemma MeaningPreserved(lines: seq<Line>, iocccok: bool, v: Valuation)
    requires Chained(lines)
    ensures match Unifdef(lines, iocccok)
            case Exited(_, out) =>
              && Meaning(lines, v).Some?
              && (Meaning(out, v) == Meaning(lines, v) <==> !Orphaned(lines))
              && (Orphaned(lines) ==> Meaning(out, v).None?)
            case Failed(e) => e.Obfuscated? || Meaning(lines, v).None?
            case _ => false
  {
    hide RunLines, Orphaned, Reread, AllAlike, SomeLost, Progression;
    ChainedReads(lines);
    DirectivesPreserved(lines, iocccok, v);
    if Unifdef(lines, iocccok).Exited? {
      var out := Unifdef(lines, iocccok).out;
      ExitedInTune(lines, iocccok);
      ReadOrLost(out, Reread(out).value, v);
    }
  }

  /** The state of the innermost group, from the lines before. */
  predicate ReportedAt(lines: seq<Line>, k: nat, iocccok: bool) {
    k < |lines| && Reported(Now(GroupsOf(lines[..k])), lines[k], iocccok)
  }

  lemma ReportedPrefix(lines: seq<Line>, n: nat, k: nat, iocccok: bool)
    requires k < n <= |lines|
    ensures ReportedAt(lines[..n], k, iocccok) <==> ReportedAt(lines, k, iocccok)
  {
    assert lines[..n][..k] == lines[..k];
  }

  lemma ReportedLast(lines: seq<Line>, iocccok: bool)
    requires lines != [] && RunLines(lines[..|lines| - 1], iocccok).Running?
    ensures RunLines(lines, iocccok) == Failed(Obfuscated) <==> ReportedAt(lines, |lines| - 1, iocccok)
  {
    var n := |lines| - 1;
    var prefix, m := lines[..n], RunLines(lines[..n], iocccok).m;
    RunMatches(prefix, iocccok);
    MatchesNow(m.levels, GroupsOf(prefix));
    ReportedStops(Top(m.levels), lines[n], iocccok);
    hide EffectFor, Reported, GroupsOf, Matches;
  }

  lemma {:induction false} ObfuscatedRun(lines: seq<Line>, iocccok: bool)
    ensures RunLines(lines, iocccok) == Failed(Obfuscated) ==> exists k: nat :: ReportedAt(lines, k, iocccok)
    ensures RunLines(lines, iocccok).Running? ==> forall k: nat :: !ReportedAt(lines, k, iocccok)
  {
    if lines != [] {
      var n := |lines| - 1;
      ObfuscatedRun(lines[..n], iocccok);
      forall k: nat | k < n ensures ReportedAt(lines[..n], k, iocccok) <==> ReportedAt(lines, k, iocccok) {
        ReportedPrefix(lines, n, k, iocccok);
      }
      if RunLines(lines[..n], iocccok).Running? {
        ReportedLast(lines, iocccok);
        hide Step, Reported;
        assert forall k: nat :: ReportedAt(lines, k, iocccok) ==> k <= n;
      } else if RunLines(lines[..n], iocccok) == Failed(Obfuscated) {
        var k: nat :| ReportedAt(lines[..n], k, iocccok);
        assert ReportedAt(lines, k, iocccok);
      }
    }
  }

  /** Which files are accepted, from the source alone: those the standard accepts with at most
      63 levels, unless they have a directive spread over several lines that is reported. */
  lemma AcceptsExactlyWellFormed(lines: seq<Line>, iocccok: bool, v: Valuation)
    requires Chained(lines)
    ensures Unifdef(lines, iocccok).Exited? <==>
              Meaning(lines, v).Some? && forall k: nat :: !ReportedAt(lines, k, iocccok)
    ensures OneLine(lines) ==> forall k: nat :: !ReportedAt(lines, k, iocccok)
  {
    ChainedReads(lines);
    DirectivesPreserved(lines, iocccok, v);
    ObfuscatedRun(lines, iocccok);
    OutcomeOf(lines, iocccok);
    hide RunLines, Progression, ReportedAt, Reread, Unifdef;
    if OneLine(lines) { OneLineUnreported(lines, iocccok); }
  }

  lemma OneLineUnreported(lines: seq<Line>, iocccok: bool)
    requires OneLine(lines)
    ensures forall k: nat :: !ReportedAt(lines, k, iocccok)
  {
  }

  lemma SeenFits(line: Line, open: bool)
    requires Seen(line, open).Some?
    ensures (Seen(line, open).value.c.before.Open? <==> open) && Seen(line, open).value.c.after == line.c.after
  {
  }

  lemma {:induction false} RereadChained(lines: seq<Line>)
    requires Reread(lines).Some?
    ensures Chained(Reread(lines).value) && |Reread(lines).value| == |lines|
    ensures OpenAfter(Reread(lines).value) == OpenAfter(lines)
  {
    if lines != [] {
      var n := |lines| - 1;
      RereadChained(lines[..n]);
      var before, all := Reread(lines[..n]).value, Reread(lines).value;
      SeenFits(lines[n], OpenAfter(lines[..n]));
      hide Seen, Reread;
      forall k | 0 <= k < |all| ensures all[k].c.before.Open? <==> OpenAfter(all[..k]) {
        if k < n { assert all[..k] == before[..k] && all[k] == before[k]; } else { assert all[..k] == before; }
      }
    }
  }

  lemma AlikeUndecided(out: seq<Line>, read: seq<Line>, iocccok: bool)
    requires AllAlike(out, read) && AllUndecided(out, iocccok)
    ensures AllUndecided(read, iocccok)
  {
    forall j | 0 <= j < |read| ensures Undecided(read[j], iocccok) {
      assert Alike(out[j], read[j]) && Undecided(out[j], iocccok);
    }
  }

  /** A second run, on the output as it reads, changes nothing and reports status 0, under
      exactly the same condition; else it reports an error. */
  lemma Idempotent(lines: seq<Line>, iocccok: bool)
    requires Chained(lines)
    ensures Unifdef(lines, iocccok).Exited? ==>
              var out := Unifdef(lines, iocccok).out;
              && Reread(out).Some? && Chained(Reread(out).value)
              && var read := Reread(out).value;
                 && (Unifdef(read, iocccok) == Exited(0, read) <==> !Orphaned(lines))
                 && (Orphaned(lines) ==> Unifdef(read, iocccok).Failed?)
  {
    if Unifdef(lines, iocccok).Exited? {
      var out, v: Valuation := Unifdef(lines, iocccok).out, _ => true;
      ExitedInTune(lines, iocccok);
      OutcomeOf(lines, iocccok);
      OutputUndecided(lines, iocccok);
      DirectivesPreserved(lines, iocccok, v);
      var read := Reread(out).value;
      RereadChained(out);
      ReadOrLost(out, read, v);
      AlikeUndecided(out, read, iocccok);
      SecondRun(read, iocccok, v);
    }
  }

  lemma SecondRun(read: seq<Line>, iocccok: bool, v: Valuation)
    requires AllUndecided(read, iocccok) && !OpenAfter(read)
    ensures Preprocess(read, v).Some? ==> Unifdef(read, iocccok) == Exited(0, read)
    ensures Preprocess(read, v).None? ==> Unifdef(read, iocccok).Failed?
  {
    hide RunLines, Progression;
    NothingDropped(read, iocccok);
    DirectivesPreserved(read, iocccok, v);
    OutcomeOf(read, iocccok);
  }

  /** The failure at its smallest. Between a false #if and an undecided #elif a comment begins
      on a line of text and ends before the #elif. The file is accepted and well formed; the
      output is not. */
  lemma CommentLost(id: nat, texts: seq<string>, iocccok: bool, v: Valuation)
    requires |texts| == 4
    ensures var lines := [If(Known(false), false, NONE), Plain(texts[0], NONE), Plain(texts[1], Comments(Closed, true)),
                          Elif(Unknown(id), Comments(Open(AsText(texts[2])), false)), Plain(texts[3], NONE), Endif(NONE)];
            && Chained(lines) && Meaning(lines, v) == Some(if v(id) then [texts[3]] else [])
            && Unifdef(lines, iocccok).Exited? && Meaning(Unifdef(lines, iocccok).out, v).None?
  {
    var lines := [If(Known(false), false, NONE), Plain(texts[0], NONE), Plain(texts[1], Comments(Closed, true)),
                  Elif(Unknown(id), Comments(Open(AsText(texts[2])), false)), Plain(texts[3], NONE), Endif(NONE)];
    LostChained(lines);
    LostGroups(lines, iocccok);
    LostMeaning(lines, v);
    ChainedReads(lines);
    hide ReportedAt, OrphanAt, Reread, Chained;
    AcceptsExactlyWellFormed(lines, iocccok, v);
    assert Orphaned(lines);
    MeaningPreserved(lines, iocccok, v);
  }

  lemma LostChained(lines: seq<Line>)
    requires |lines| == 6 && lines[0].c == lines[1].c == lines[4].c == lines[5].c == NONE
    requires lines[2].c == Comments(Closed, true) && lines[3].c.before.Open? && !lines[3].c.after
    ensures Chained(lines) && !OpenAfter(lines)
  {
    forall k | 0 <= k < 6 ensures lines[k].c.before.Open? <==> OpenAfter(lines[..k]) {
      assert k > 0 ==> lines[..k][k - 1] == lines[k - 1];
    }
  }

  lemma LostGroups(lines: seq<Line>, iocccok: bool)
    requires |lines| == 6 && lines[0] == If(Known(false), false, NONE) && lines[1].Plain? && lines[2].Plain?
    requires lines[3].Elif? && lines[3].cond.Unknown? && lines[3].c.before.Open? && lines[3].c.before.alone.AsText?
    requires lines[4].Plain? && lines[5] == Endif(NONE)
    ensures OrphanAt(lines, 3) && forall k: nat :: !ReportedAt(lines, k, iocccok)
  {
    assert lines[..1][..0] == [] && lines[..2][..1] == lines[..1] && lines[..3][..2] == lines[..2];
    assert lines[..0] == [];
    var g := Group(true, [F], false);
    assert GroupsOf(lines[..0]) == Bottom;
    assert GroupsOf(lines[..1]) == Push(Bottom, g);
    assert GroupsOf(lines[..2]) == Push(Bottom, g);
    assert GroupsOf(lines[..3]) == Push(Bottom, g);
    assert FirstHit([F]) == 1 by { FirstsSnoc([], F); assert [] + [F] == [F]; }
    assert StateOf(g) == FALSE_PREFIX;
    forall k: nat ensures !ReportedAt(lines, k, iocccok) {
      if k < 6 && k != 3 { assert lines[k].Plain? || lines[k].c == NONE; }
    }
  }

  lemma LostMeaning(lines: seq<Line>, v: Valuation)
    requires |lines| == 6 && lines[0] == If(Known(false), false, NONE) && lines[1].Plain? && lines[2].Plain?
    requires lines[3].Elif? && lines[3].cond.Unknown? && lines[4].Plain? && lines[5] == Endif(NONE)
    ensures Preprocess(lines, v) == Some(if v(lines[3].cond.id) then [lines[4].text] else [])
  {
    assert lines[..0] == [] && lines[..1][..0] == [] && lines[..2][..1] == lines[..1] && lines[..3][..2] == lines[..2];
    assert lines[..4][..3] == lines[..3] && lines[..5][..4] == lines[..4];
    assert Progression(lines[..0], v) == Some(START);
    var skip := Push(Bottom, Section(Seeking, false));
    assert Progression(lines[..1], v) == Some(Progress(skip, []));
    assert Progression(lines[..2], v) == Some(Progress(skip, []));
    assert Progression(lines[..3], v) == Some(Progress(skip, []));
    var mid := Push(Bottom, Section(if v(lines[3].cond.id) then Taking else Seeking, false));
    assert Progression(lines[..4], v) == Some(Progress(mid, []));
    assert Progression(lines[..5], v) == Some(Progress(mid, if v(lines[3].cond.id) then [] + [lines[4].text] else []));
    assert lines[..6] == lines && [] + [lines[4].text] == [lines[4].text];
  }
}
