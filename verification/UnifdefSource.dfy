/**
 From source lines to line types and back: with the evaluator deciding the conditions,
 unifdef's output means the same as its input in every environment that has the given
 -D and -U symbols.
 */
module UnifdefSource {
  import opened ConditionalInclusion
  import opened IfExpression
  import opened IfEvaluator
  import opened UnifdefMachine
  import opened UnifdefGroups
  import opened UnifdefTheorems
  import opened UnifdefComments

  /** `trailing` says that something other than comments follows the symbol; `around` which
      comments reach over the ends of the line. */
  datatype SourceLine =
    | Text(text: string, around: Comments)
    | Ifdef(sym: string, negated: bool, trailing: bool, around: Comments)
    | IfExpr(toks: seq<Token>, around: Comments)
    | ElifExpr(toks: seq<Token>, around: Comments)
    | ElseLine(around: Comments)
    | EndifLine(around: Comments)

  /** The truth of a line's own condition in an environment. */
  ghost predicate CTruth(line: SourceLine, w: World) {
    match line
    case Ifdef(x, negated, _, _) => negated == w.macros(x).Undefined?
    case IfExpr(toks, _) => ExprTruth(toks, w)
    case ElifExpr(toks, _) => ExprTruth(toks, w)
    case _ => true
  }

  ghost predicate ExprTruth(toks: seq<Token>, w: World) {
    match ParseLevel(0, toks)
    case Some((e, rest)) => if rest == [] then CValue(e, w) != 0 else w.other(toks)
    case None => w.other(toks)
  }

  function OrUnknown(b: Option<bool>, id: nat): Cond {
    if b.Some? then Known(b.value) else Unknown(id)
  }

  /** getline's classification; an undecided condition keeps its line number as its name. */
  ghost function Classify(line: SourceLine, id: nat, c: Config, ignored: set<string>): Line {
    match line
    case Text(s, around) => Plain(s, around)
    case Ifdef(x, negated, trailing, around) =>
      if x !in c.syms || trailing then If(Unknown(id), false, around)
      else If(Known(negated == c.syms[x].Undefined?), x in ignored, around)
    case IfExpr(toks, around) => If(OrUnknown(Condition(toks, c), id), false, around)
    case ElifExpr(toks, around) => Elif(OrUnknown(Condition(toks, c), id), around)
    case ElseLine(around) => Else(around)
    case EndifLine(around) => Endif(around)
  }

  ghost function ClassifyAll(lines: seq<SourceLine>, c: Config, ignored: set<string>): seq<Line> {
    seq(|lines|, k requires 0 <= k < |lines| => Classify(lines[k], k, c, ignored))
  }

  /** The line as the compiler sees it, with its condition decided by the environment. */
  ghost function Resolve(line: SourceLine, w: World): Line {
    match line
    case Text(s, around) => Plain(s, around)
    case Ifdef(_, _, _, _) | IfExpr(_, _) => If(Known(CTruth(line, w)), false, line.around)
    case ElifExpr(_, _) => Elif(Known(CTruth(line, w)), line.around)
    case ElseLine(around) => Else(around)
    case EndifLine(around) => Endif(around)
  }

  ghost function ResolveAll(lines: seq<SourceLine>, w: World): seq<Line> {
    seq(|lines|, k requires 0 <= k < |lines| => Resolve(lines[k], w))
  }

  /** The truth of every undecided condition, by line number. */
  ghost function Truths(lines: seq<SourceLine>, w: World): Valuation {
    (id: nat) => id < |lines| && CTruth(lines[id], w)
  }

  /** Every numeral in the line's condition fits in an int, if the condition is decided. */
  ghost predicate LineFits(line: SourceLine, c: Config) {
    (line.IfExpr? || line.ElifExpr?) && Condition(line.toks, c).Some? ==>
      match ParseLevel(0, line.toks)
      case Some((e, _)) => NumeralsFit(e, c)
      case None => true
  }

  lemma DecidedTruth(toks: seq<Token>, c: Config, w: World)
    requires Host(c) && Agrees(w, c) && Condition(toks, c).Some? && LineFits(IfExpr(toks, NONE), c)
    ensures Condition(toks, c) == Some(ExprTruth(toks, w))
  {
    var (e, _) := ParseLevel(0, toks).value;
    ValueIsCValue(e, c, w);
  }

  lemma SameAdvance(p: Progress, lines: seq<SourceLine>, k: nat, c: Config, ignored: set<string>, w: World, v: Valuation)
    requires Host(c) && Agrees(w, c) && k < |lines| && LineFits(lines[k], c)
    ensures Advance(p, Classify(lines[k], k, c, ignored), Truths(lines, w)) == Advance(p, Resolve(lines[k], w), v)
  {
    match lines[k]
    case IfExpr(toks, _) => if Condition(toks, c).Some? { DecidedTruth(toks, c, w); }
    case ElifExpr(toks, _) => if Condition(toks, c).Some? { DecidedTruth(toks, c, w); }
    case _ =>
  }

  lemma {:induction false} SameProgression(lines: seq<SourceLine>, n: nat, c: Config, ignored: set<string>, w: World, v: Valuation)
    requires Host(c) && Agrees(w, c) && n <= |lines|
    requires forall k :: 0 <= k < |lines| ==> LineFits(lines[k], c)
    ensures Progression(ClassifyAll(lines, c, ignored)[..n], Truths(lines, w)) == Progression(ResolveAll(lines, w)[..n], v)
  {
    if n > 0 {
      SameProgression(lines, n - 1, c, ignored, w, v);
      var a, b := ClassifyAll(lines, c, ignored)[..n], ResolveAll(lines, w)[..n];
      assert a[..n - 1] == ClassifyAll(lines, c, ignored)[..n - 1];
      assert b[..n - 1] == ResolveAll(lines, w)[..n - 1];
      match Progression(b[..n - 1], v)
      case Some(p) => SameAdvance(p, lines, n - 1, c, ignored, w, v);
      case None =>
    }
  }

  lemma SameComments(lines: seq<SourceLine>, c: Config, ignored: set<string>, w: World)
    requires Chained(ClassifyAll(lines, c, ignored))
    ensures Chained(ResolveAll(lines, w)) && OpenAfter(ResolveAll(lines, w)) == OpenAfter(ClassifyAll(lines, c, ignored))
  {
    var a, b := ClassifyAll(lines, c, ignored), ResolveAll(lines, w);
    forall k | 0 <= k < |lines| ensures a[k].c == b[k].c { SameLineComments(lines[k], k, c, ignored, w); }
    hide Classify, Resolve;
    forall k | 0 <= k < |b| ensures b[k].c.before.Open? <==> OpenAfter(b[..k]) {
      ChainedPrefix(a, k);
      assert k > 0 ==> a[..k][k - 1] == a[k - 1] && b[..k][k - 1] == b[k - 1];
    }
  }

  lemma SameLineComments(line: SourceLine, id: nat, c: Config, ignored: set<string>, w: World)
    ensures Classify(line, id, c, ignored).c == Resolve(line, w).c
  {
  }

  /** For every source, every set of given symbols and every environment that has them: when
      unifdef exits, the compiler keeps the same lines from its output as from the source,
      exactly if no comment was cut at an undecided #elif; an error other than of obfuscation
      means an ill-formed source. */
  lemma SourceMeaningPreserved(lines: seq<SourceLine>, c: Config, ignored: set<string>, iocccok: bool, w: World, v: Valuation)
    requires Host(c) && Agrees(w, c) && Chained(ClassifyAll(lines, c, ignored))
    requires forall k :: 0 <= k < |lines| ==> LineFits(lines[k], c)
    ensures match Unifdef(ClassifyAll(lines, c, ignored), iocccok)
            case Exited(_, out) =>
              && Meaning(ResolveAll(lines, w), v).Some?
              && (Meaning(out, Truths(lines, w)) == Meaning(ResolveAll(lines, w), v) <==> !Orphaned(ClassifyAll(lines, c, ignored)))
            case Failed(e) => e.Obfuscated? || Meaning(ResolveAll(lines, w), v).None?
            case _ => false
  {
    var classified, resolved := ClassifyAll(lines, c, ignored), ResolveAll(lines, w);
    hide Progression, RunLines, EffectFor, Classify, Resolve, CTruth, Reread, Orphaned, Chained, Unifdef, LineFits;
    SameComments(lines, c, ignored, w);
    ChainedReads(classified);
    ChainedReads(resolved);
    MeaningPreserved(classified, iocccok, Truths(lines, w));
    SameProgression(lines, |lines|, c, ignored, w, v);
    assert classified[..|lines|] == classified && resolved[..|lines|] == resolved;
  }
}
