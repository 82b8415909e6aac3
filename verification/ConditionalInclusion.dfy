/**
 The reference meaning of conditional inclusion, section 6.10.1 of
 ISO/IEC 9899:1999, for sources that have already been split into lines.

 A condition is either known to unifdef (its symbols were given with -D or -U)
 or unknown, in which case its truth is left to a valuation.
 */
module ConditionalInclusion {

  datatype Option<+T> = None | Some(value: T)

  datatype Cond = Known(value: bool) | Unknown(id: nat)

  /** Is a comment open where a line begins? If so, `alone` says what the line would be if the
      comment's opening were missing: the same, when all before the directive is again a
      comment, or ordinary text. */
  datatype Before = Closed | Open(alone: Alone)
  datatype Alone = AsIs | AsText(text: string)

  /** The comments that reach over the ends of a line. */
  datatype Comments = Comments(before: Before, after: bool)

  const NONE := Comments(Closed, false)

  /** `ignored` marks an #ifdef or #ifndef of a -iD or -iU symbol. It does not matter to the
      preprocessor, and neither do comments once lines are read one after the other. */
  datatype Line =
    | Plain(text: string, c: Comments)
    | If(cond: Cond, ignored: bool, c: Comments)
    | Elif(cond: Cond, c: Comments)
    | Else(c: Comments)
    | Endif(c: Comments)

  type Valuation = nat -> bool

  predicate Holds(c: Cond, v: Valuation) {
    match c
    case Known(b) => b
    case Unknown(id) => v(id)
  }

  datatype Stack<T> = Bottom | Push(below: Stack<T>, top: T)

  function Height<T>(s: Stack<T>): nat {
    match s
    case Bottom => 0
    case Push(below, _) => 1 + Height(below)
  }

  /** Seeking: no group of this section was selected yet. Taking: the current group is
      selected. Finished: no further group can be, or the whole section is skipped. */
  datatype Mode = Seeking | Taking | Finished

  datatype Section = Section(mode: Mode, elseSeen: bool)

  /** The nesting of conditional inclusion that section 5.2.4.1 guarantees. */
  const NESTING_LIMIT := 63

  datatype Progress = Progress(sections: Stack<Section>, selected: seq<string>)

  const START := Progress(Bottom, [])

  predicate Active(sections: Stack<Section>) {
    sections.Bottom? || sections.top.mode.Taking?
  }

  function Alternative(m: Mode, choose: bool): Mode {
    match m
    case Seeking => if choose then Taking else Seeking
    case _ => Finished
  }

  /** One line of preprocessing; None when the line violates the grammar of section 6.10
      or the nesting limit. */
  function Advance(p: Progress, line: Line, v: Valuation): Option<Progress> {
    match line
    case Plain(text, _) =>
      Some(if Active(p.sections) then p.(selected := p.selected + [text]) else p)
    case If(c, _, _) =>
      if Height(p.sections) >= NESTING_LIMIT then None else
      var mode := if !Active(p.sections) then Finished else if Holds(c, v) then Taking else Seeking;
      Some(p.(sections := Push(p.sections, Section(mode, false))))
    case Elif(c, _) =>
      if p.sections.Bottom? || p.sections.top.elseSeen then None else
      Some(p.(sections := Push(p.sections.below, Section(Alternative(p.sections.top.mode, Holds(c, v)), false))))
    case Else(_) =>
      if p.sections.Bottom? || p.sections.top.elseSeen then None else
      Some(p.(sections := Push(p.sections.below, Section(Alternative(p.sections.top.mode, true), true))))
    case Endif(_) =>
      if p.sections.Bottom? then None else Some(p.(sections := p.sections.below))
  }

  function Progression(lines: seq<Line>, v: Valuation): Option<Progress> {
    if lines == [] then Some(START) else
    match Progression(lines[..|lines| - 1], v)
    case None => None
    case Some(p) => Advance(p, lines[|lines| - 1], v)
  }

  /** The plain lines that reach the compiler, or None for an ill-formed source. */
  function Preprocess(lines: seq<Line>, v: Valuation): Option<seq<string>> {
    match Progression(lines, v)
    case Some(Progress(Bottom, selected)) => Some(selected)
    case _ => None
  }

  lemma ProgressionSnoc(lines: seq<Line>, line: Line, v: Valuation)
    ensures Progression(lines + [line], v) ==
            match Progression(lines, v) { case None => None case Some(p) => Advance(p, line, v) }
  {
    assert (lines + [line])[..|lines|] == lines;
  }

  // Comments over several lines

  predicate OpenAfter(lines: seq<Line>) {
    lines != [] && lines[|lines| - 1].c.after
  }

  /** The lines of a file, each classified where the one before it left off. */
  predicate Chained(lines: seq<Line>) {
    forall k :: 0 <= k < |lines| ==> (lines[k].c.before.Open? <==> OpenAfter(lines[..k]))
  }

  function WithComments(line: Line, c: Comments): Line {
    match line
    case Plain(text, _) => Plain(text, c)
    case If(cond, ignored, _) => If(cond, ignored, c)
    case Elif(cond, _) => Elif(cond, c)
    case Else(_) => Else(c)
    case Endif(_) => Endif(c)
  }

  /** How a line reads where a comment is open or not: as it was classified, or, as a directive
      that has lost the opening of its comment, alone. None for any other misreading. */
  function Seen(line: Line, open: bool): Option<Line> {
    if line.c.before.Open? == open then Some(line)
    else if open || line.Plain? then None
    else
      match line.c.before.alone
      case AsIs => Some(WithComments(line, Comments(Closed, line.c.after)))
      case AsText(text) => Some(Plain(text, Comments(Closed, line.c.after)))
  }

  /** The lines as they read one after the other. */
  function Reread(lines: seq<Line>): Option<seq<Line>> {
    if lines == [] then Some([]) else
    var n := |lines| - 1;
    match (Reread(lines[..n]), Seen(lines[n], OpenAfter(lines[..n])))
    case (Some(before), Some(line)) => Some(before + [line])
    case _ => None
  }

  /** What reaches the compiler from lines put one after the other. A comment open at the end
      is an error. */
  function Meaning(lines: seq<Line>, v: Valuation): Option<seq<string>> {
    match Reread(lines)
    case None => None
    case Some(read) => if OpenAfter(lines) then None else Preprocess(read, v)
  }

  lemma ChainedPrefix(lines: seq<Line>, n: nat)
    requires Chained(lines) && n <= |lines|
    ensures Chained(lines[..n])
    ensures n < |lines| ==> (lines[n].c.before.Open? <==> OpenAfter(lines[..n]))
  {
    forall k | 0 <= k < n ensures lines[..n][k].c.before.Open? <==> OpenAfter(lines[..n][..k]) {
      assert lines[..n][..k] == lines[..k];
    }
  }

  lemma {:induction false} ChainedReads(lines: seq<Line>)
    requires Chained(lines)
    ensures Reread(lines) == Some(lines)
  {
    hide Chained;
    if lines != [] {
      var n := |lines| - 1;
      ChainedPrefix(lines, n);
      ChainedReads(lines[..n]);
      assert lines[..n] + [lines[n]] == lines;
    }
  }

  // Openings and closings

  function Opens(lines: seq<Line>): nat {
    if lines == [] then 0 else Opens(lines[..|lines| - 1]) + if lines[|lines| - 1].If? then 1 else 0
  }

  function Closes(lines: seq<Line>): nat {
    if lines == [] then 0 else Closes(lines[..|lines| - 1]) + if lines[|lines| - 1].Endif? then 1 else 0
  }

  lemma {:induction false} Balance(lines: seq<Line>, v: Valuation)
    ensures Progression(lines, v).Some? ==> Opens(lines) == Closes(lines) + Height(Progression(lines, v).value.sections)
  {
    if lines != [] { Balance(lines[..|lines| - 1], v); }
  }

  function Bare(line: Line): Line { WithComments(line, NONE) }

  /** Lines that differ only in comments mean the same. */
  lemma {:induction false} SameBare(a: seq<Line>, b: seq<Line>, v: Valuation)
    requires |a| == |b| && forall k :: 0 <= k < |a| ==> Bare(a[k]) == Bare(b[k])
    ensures Progression(a, v) == Progression(b, v)
  {
    if a != [] {
      var n := |a| - 1;
      SameBare(a[..n], b[..n], v);
      assert Bare(a[n]) == Bare(b[n]);
    }
  }
}
