/**
 The Reader: device readers, elaborators and printers over the pipeline, reading until the
 terminator (loop mode) or a given number of strings.
 */
module ReaderProcess {
  import opened Pipeline
  import opened PipelineRuns
  import opened Letters

  /** `calls` counts the read() calls that returned, `last` says that one of them brought the
      terminator; `data` is what was read and passed on, `printed` what came out. */
  datatype Reader = Reader(p: Pipe<Text>, loop: bool, todo: int, calls: nat, last: bool,
                           data: seq<Text>, printed: seq<Text>)

  /** Receive: read() delivered a string. ReadFail: read() failed. */
  datatype RStep =
    | Internal(a: Step<Text>)
    | Receive(i: nat, s: Text, wake: set<nat>)
    | ReadFail(i: nat, wake: set<nat>)
    | StopRead(i: nat)
    | Print(i: nat)

  /** read_dev goes on to read() exactly in this case. */
  predicate Reading(r: Reader) {
    r.loop || r.todo > 0
  }

  predicate Ordinary<T>(a: Step<T>) {
    !a.SrcInsert? && !a.SrcAgain? && !a.SrcStop? && !a.SinkRetry? && !a.SinkFinish?
  }

  function Behind(s: RStep): Step<Text> {
    match s
    case Internal(a) => a
    case Receive(i, text, wake) => if text == TERMINATOR then SrcStop(i, wake) else SrcInsert(i, text, wake)
    case ReadFail(i, wake) => SrcAgain(i, wake)
    case StopRead(i) => SrcStop(i, {})
    case Print(i) => SinkFinish(i)
  }

  predicate CanStep(r: Reader, s: RStep) {
    && Enabled(r.p, Behind(s))
    && match s
       case Internal(a) => Ordinary(a)
       case Receive(_, _, wake) => Reading(r) && SignalsElab(r.p.elabs, wake)
       case ReadFail(_, wake) => Reading(r) && SignalsElab(r.p.elabs, wake)
       case StopRead(_) => !Reading(r)
       case Print(_) => true
  }

  function Counted(r: Reader): int {
    if r.loop then r.todo else r.todo - 1
  }

  function Do(r: Reader, s: RStep): Reader
    requires CanStep(r, s)
  {
    var r' := r.(p := Next(r.p, Behind(s), Upper));
    match s
    case Receive(_, text, _) =>
      if text == TERMINATOR then r'.(todo := Counted(r), calls := r.calls + 1, loop := false, last := true)
      else r'.(todo := Counted(r), calls := r.calls + 1, data := r.data + [text])
    case ReadFail(_, _) => r'.(todo := Counted(r), calls := r.calls + 1)
    case StopRead(_) => r'.(todo := Counted(r))
    case Print(i) => r'.(printed := r.printed + [r.p.sinks[i].item])
    case _ => r'
  }

  /** The argument `m`: 0 for reading until the terminator, else the number of reads. */
  function Begin(m: nat, nrt: nat, net: nat, npt: nat): Reader {
    Reader(Start(nrt, net, npt), m == 0, m, 0, false, [], [])
  }

  function Positive(x: int): nat { if x > 0 then x else 0 }

  /** What the mode keeps: until the terminator, or counting down; a thread stops only at the
      end of either. */
  ghost predicate Mode(r: Reader, m: nat) {
    && (if m == 0 then r.todo <= 0 && (r.loop <==> !r.last) else !r.loop && r.calls + Positive(r.todo) == m)
    && (forall i :: 0 <= i < |r.p.sources| && r.p.sources[i].SDone? ==> r.last || (m > 0 && r.todo <= 0))
  }

  /** Whatever was read is inside the pipeline, to come out in upper case, or printed. */
  ghost predicate RInv(r: Reader, m: nat) {
    && Inv(r.p) && r.p.sources != [] && r.p.elabs != [] && r.p.sinks != []
    && Mode(r, m) && TERMINATOR !in r.data
    && forall y: Text :: Count(r.data, Upper, y) == InFlight(r.p, Upper, y) + multiset(r.printed)[y]
  }

  lemma BeginInv(m: nat, nrt: nat, net: nat, npt: nat)
    requires nrt > 0 && net > 0 && npt > 0
    ensures RInv(Begin(m, nrt, net, npt), m)
  {
    StartInv<Text>(nrt, net, npt);
    forall y: Text ensures InFlight(Start<Text>(nrt, net, npt), Upper, y) == 0 {
      StartHasNothing(nrt, net, npt, Upper, y);
    }
  }

  lemma DataKept(r: Reader, s: RStep, m: nat, y: Text)
    requires RInv(r, m) && CanStep(r, s)
    ensures Count(Do(r, s).data, Upper, y) == InFlight(Do(r, s).p, Upper, y) + multiset(Do(r, s).printed)[y]
  {
    hide Next, InFlight, Count;
    Conserved(r.p, Behind(s), Upper, y);
    if s.Receive? { CountSnoc(r.data, s.s, Upper, y); }
  }

  lemma ModeKept(r: Reader, s: RStep, m: nat)
    requires Mode(r, m) && CanStep(r, s)
    ensures Mode(Do(r, s), m)
  {
    hide Next;
    ThreadsKept(r.p, Behind(s), Upper);
  }

  lemma RInvKept(r: Reader, s: RStep, m: nat)
    requires RInv(r, m) && CanStep(r, s)
    ensures RInv(Do(r, s), m)
  {
    hide Next, Enabled, Inv, InFlight, Count, Mode;
    ModeKept(r, s, m);
    forall y: Text
      ensures Count(Do(r, s).data, Upper, y) == InFlight(Do(r, s).p, Upper, y) + multiset(Do(r, s).printed)[y]
    {
      DataKept(r, s, m, y);
    }
    InvKept(r.p, Behind(s), Upper);
    ThreadsKept(r.p, Behind(s), Upper);
  }

  /** When the printers have been joined, what was printed is what was read, in upper case. */
  lemma JoinedPrintsAll(r: Reader, m: nat, y: Text)
    requires RInv(r, m) && r.p.main.Joined?
    ensures multiset(r.printed)[y] == Count(r.data, Upper, y)
  {
    JoinedIsEmpty(r.p, Upper, y);
  }

  // Whole runs

  ghost predicate Run(steps: seq<RStep>, from: Reader, to: Reader)
    decreases |steps|
  {
    if steps == [] then from == to
    else CanStep(from, steps[0]) && Run(steps[1..], Do(from, steps[0]), to)
  }

  lemma {:induction false} RunInv(steps: seq<RStep>, from: Reader, to: Reader, m: nat)
    requires Run(steps, from, to) && RInv(from, m)
    ensures RInv(to, m)
    decreases |steps|
  {
    hide RInv, CanStep, Do;
    if steps != [] {
      RInvKept(from, steps[0], m);
      RunInv(steps[1..], Do(from, steps[0]), to, m);
    }
  }

  /** Over every run of the Reader, whatever the device delivers: a given number of reads is
      never exceeded; when all threads are joined the terminator was read, or that number was
      reached; and then exactly the strings read were printed, in upper case. */
  lemma ReaderRuns(steps: seq<RStep>, m: nat, nrt: nat, net: nat, npt: nat, r: Reader)
    requires nrt > 0 && net > 0 && npt > 0 && Run(steps, Begin(m, nrt, net, npt), r)
    ensures m > 0 ==> r.calls <= m
    ensures r.p.main.Joined? ==> r.last || (m > 0 && r.calls == m)
    ensures r.p.main.Joined? ==> forall y: Text :: multiset(r.printed)[y] == Count(r.data, Upper, y)
  {
    BeginInv(m, nrt, net, npt);
    RunInv(steps, Begin(m, nrt, net, npt), r, m);
    if r.p.main.Joined? {
      forall y: Text ensures multiset(r.printed)[y] == Count(r.data, Upper, y) { JoinedPrintsAll(r, m, y); }
      assert r.p.sources[0].SDone?;
    }
  }

  lemma RStepMeasure(r: Reader, s: RStep)
    requires CanStep(r, s)
    ensures s.Internal? && Spurious(s.a) ==> Measure(Do(r, s).p) == Measure(r.p) + 2
    ensures s.ReadFail? || (s.Receive? && s.s != TERMINATOR) ==> Measure(Do(r, s).p) <= Measure(r.p) + SourceCost(r.p)
    ensures !(s.Internal? && Spurious(s.a)) && !s.ReadFail? && !(s.Receive? && s.s != TERMINATOR) ==>
              Measure(Do(r, s).p) < Measure(r.p)
    ensures SourceCost(Do(r, s).p) == SourceCost(r.p)
  {
    hide Next, Measure, SourceCost;
    MeasureSteps(r.p, Behind(s), Upper);
  }

  /** The set of sleepers a signal wakes can always be chosen. */
  lemma SomeSignal<T>(es: seq<Elab<T>>) returns (wake: set<nat>)
    ensures SignalsElab(es, wake)
  {
    wake := {};
    if exists j: nat :: j < |es| && es[j].EAsleep? {
      var j: nat :| j < |es| && es[j].EAsleep?;
      wake := {j};
      assert j in wake;
    }
  }

  /** Until everything is joined, a thread can step, or a device reader is inside read(). */
  lemma RProgress(r: Reader, m: nat) returns (s: RStep)
    requires RInv(r, m) && !r.p.main.Joined?
    ensures !s.ReadFail? && !(s.Internal? && Spurious(s.a))
    ensures if s.Receive? then Reading(r) && s.i < |r.p.sources| && r.p.sources[s.i].SHolds? else CanStep(r, s)
  {
    var a := Progress(r.p);
    if a.SrcStop? {
      s := if Reading(r) then Receive(a.i, [], {}) else StopRead(a.i);
    } else if a.SinkFinish? {
      s := Print(a.i);
    } else {
      s := Internal(a);
    }
  }
}
