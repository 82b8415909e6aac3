/**
 The Writer: creators, elaborators and device writers over the pipeline, with the countdown
 of strings to make, the retries of failed writes and the final terminator.
 */
module WriterProcess {
  import opened Pipeline
  import opened PipelineRuns
  import opened Letters

  /** A string with its place in the order of creation. */
  datatype Item = Item(id: nat, text: Text)

  function LowerItem(x: Item): Item {
    Item(x.id, Lower(x.text))
  }

  const MAX_RETRY := 5

  /** `created` as generated; `written` and `lost` as they left the pipeline. `doneTries` are
      the failed attempts of dev_done, `ended` that it has returned, `sent` that its last
      attempt succeeded. */
  datatype Writer = Writer(p: Pipe<Item>, todo: int, created: seq<Item>, written: seq<Item>, lost: seq<Item>,
                           doneTries: nat, ended: bool, sent: bool)

  /** WriteOk and WriteFail are the outcomes of one write() call; GiveUp follows the fifth
      failure; SendDone and DoneFail are the outcomes of one write() call in dev_done. */
  datatype WStep =
    | Internal(a: Step<Item>)
    | Create(i: nat, text: Text, wake: set<nat>)
    | StopCreate(i: nat)
    | WriteOk(i: nat) | WriteFail(i: nat) | GiveUp(i: nat)
    | SendDone | DoneFail

  predicate OfDone(s: WStep) { s.SendDone? || s.DoneFail? }

  /** Steps of the pipeline that need no decision of a source or a sink. */
  predicate Ordinary<T>(a: Step<T>) {
    !a.SrcInsert? && !a.SrcAgain? && !a.SrcStop? && !a.SinkRetry? && !a.SinkFinish?
  }

  /** The step of the pipeline behind a step of the Writer. */
  function Behind(w: Writer, s: WStep): Step<Item>
    requires !OfDone(s)
  {
    match s
    case Internal(a) => a
    case Create(i, text, wake) => SrcInsert(i, Item(|w.created|, text), wake)
    case StopCreate(i) => SrcStop(i, {})
    case WriteOk(i) => SinkFinish(i)
    case WriteFail(i) => SinkRetry(i)
    case GiveUp(i) => SinkFinish(i)
  }

  predicate CanStep(w: Writer, s: WStep) {
    if OfDone(s) then w.p.main.Joined? && !w.ended else
    && Enabled(w.p, Behind(w, s))
    && match s
       case Internal(a) => Ordinary(a)
       case Create(_, text, _) => w.todo > 0 && Generated(text)
       case StopCreate(_) => w.todo <= 0
       case WriteOk(i) => w.p.sinks[i].tries < MAX_RETRY
       case WriteFail(i) => w.p.sinks[i].tries < MAX_RETRY
       case GiveUp(i) => w.p.sinks[i].tries == MAX_RETRY
  }

  function Do(w: Writer, s: WStep): Writer
    requires CanStep(w, s)
  {
    if s.SendDone? then w.(ended := true, sent := true) else
    if s.DoneFail? then w.(doneTries := w.doneTries + 1, ended := w.doneTries + 1 > MAX_RETRY) else
    var w' := w.(p := Next(w.p, Behind(w, s), LowerItem));
    match s
    case Create(_, text, _) => w'.(todo := w.todo - 1, created := w.created + [Item(|w.created|, text)])
    case StopCreate(_) => w'.(todo := w.todo - 1)
    case WriteOk(i) => w'.(written := w.written + [w.p.sinks[i].item])
    case GiveUp(i) => w'.(lost := w.lost + [w.p.sinks[i].item])
    case _ => w'
  }

  function Begin(n: nat, nct: nat, net: nat, nwt: nat): Writer {
    Writer(Start(nct, net, nwt), n, [], [], [], 0, false, false)
  }

  function Positive(x: int): nat { if x > 0 then x else 0 }

  /** How many items, wherever they are, are or will come out as `y`. */
  ghost function Everywhere(w: Writer, y: Item): nat {
    InFlight(w.p, LowerItem, y) + multiset(w.written)[y] + multiset(w.lost)[y]
  }

  ghost predicate WInv(w: Writer, n: nat) {
    && Inv(w.p) && w.p.sources != [] && w.p.elabs != [] && w.p.sinks != []
    && |w.created| + Positive(w.todo) == n
    && (forall k :: 0 <= k < |w.created| ==> w.created[k].id == k && Generated(w.created[k].text))
    && (forall i :: 0 <= i < |w.p.sources| && w.p.sources[i].SDone? ==> w.todo <= 0)
    && (forall y: Item :: Count(w.created, LowerItem, y) == Everywhere(w, y))
    && (w.ended ==> w.p.main.Joined?)
    && (w.ended <==> w.sent || w.doneTries > MAX_RETRY)
  }

  lemma BeginInv(n: nat, nct: nat, net: nat, nwt: nat)
    requires nct > 0 && net > 0 && nwt > 0
    ensures WInv(Begin(n, nct, net, nwt), n)
  {
    StartInv<Item>(nct, net, nwt);
    var w := Begin(n, nct, net, nwt);
    forall y: Item ensures Count(w.created, LowerItem, y) == Everywhere(w, y) {
      StartHasNothing(nct, net, nwt, LowerItem, y);
    }
  }

  /** One step neither loses, duplicates nor alters an item. */
  lemma ItemsKept(w: Writer, s: WStep, n: nat, y: Item)
    requires WInv(w, n) && CanStep(w, s)
    ensures Count(Do(w, s).created, LowerItem, y) == Everywhere(Do(w, s), y)
  {
    hide Next, InFlight, Count;
    if !OfDone(s) {
      Conserved(w.p, Behind(w, s), LowerItem, y);
      if s.Create? { CountSnoc(w.created, Item(|w.created|, s.text), LowerItem, y); }
    }
  }

  lemma WInvKept(w: Writer, s: WStep, n: nat)
    requires WInv(w, n) && CanStep(w, s)
    ensures WInv(Do(w, s), n)
  {
    hide Next, Enabled, Inv, Count;
    forall y: Item ensures Count(Do(w, s).created, LowerItem, y) == Everywhere(Do(w, s), y) {
      ItemsKept(w, s, n, y);
    }
    if !OfDone(s) {
      InvKept(w.p, Behind(w, s), LowerItem);
      SourcesKept(w, s, n);
    }
  }

  lemma SourcesKept(w: Writer, s: WStep, n: nat)
    requires WInv(w, n) && CanStep(w, s) && !OfDone(s)
    ensures var w' := Do(w, s);
            && w'.p.sources != [] && w'.p.elabs != [] && w'.p.sinks != []
            && (forall i :: 0 <= i < |w'.p.sources| && w'.p.sources[i].SDone? ==> w'.todo <= 0)
            && (w'.ended ==> w'.p.main.Joined?)
  {
    ThreadsKept(w.p, Behind(w, s), LowerItem);
  }

  // Whole runs

  ghost predicate Run(steps: seq<WStep>, from: Writer, to: Writer)
    decreases |steps|
  {
    if steps == [] then from == to
    else CanStep(from, steps[0]) && Run(steps[1..], Do(from, steps[0]), to)
  }

  function SpuriousSteps(steps: seq<WStep>): nat {
    if steps == [] then 0 else
    (if steps[0].Internal? && Spurious(steps[0].a) then 1 else 0) + SpuriousSteps(steps[1..])
  }

  lemma {:induction false} RunInv(steps: seq<WStep>, from: Writer, to: Writer, n: nat)
    requires Run(steps, from, to) && WInv(from, n)
    ensures WInv(to, n)
    decreases |steps|
  {
    if steps != [] {
      WInvKept(from, steps[0], n);
      RunInv(steps[1..], Do(from, steps[0]), to, n);
    }
  }

  lemma {:induction false} DistinctIds(created: seq<Item>, k: nat)
    requires k < |created| && forall j :: 0 <= j < |created| ==> created[j].id == j
    ensures Count(created, LowerItem, LowerItem(created[k])) == 1
  {
    var n := |created| - 1;
    if k == n {
      NoneWithId(created[..n], created[k]);
    } else {
      DistinctIds(created[..n], k);
    }
  }

  lemma {:induction false} NoneWithId(created: seq<Item>, x: Item)
    requires forall j :: 0 <= j < |created| ==> created[j].id != x.id
    ensures Count(created, LowerItem, LowerItem(x)) == 0
  {
    if created != [] { NoneWithId(created[..|created| - 1], x); }
  }

  /** In every reachable state of every interleaving, every created string is in exactly one
      place: in a buffer, with one thread, written, or reported lost. */
  lemma ExactlyOnePlace(steps: seq<WStep>, n: nat, nct: nat, net: nat, nwt: nat, w: Writer, k: nat)
    requires nct > 0 && net > 0 && nwt > 0 && Run(steps, Begin(n, nct, net, nwt), w) && k < |w.created|
    ensures w.created[k].id == k && Everywhere(w, LowerItem(w.created[k])) == 1
  {
    BeginInv(n, nct, net, nwt);
    RunInv(steps, Begin(n, nct, net, nwt), w, n);
    DistinctIds(w.created, k);
  }

  /** dev_done is called only when all n strings were created and each has been written once
      or reported lost, never both; without a failed write, all were written. */
  lemma DoneOnlyAfterAll(steps: seq<WStep>, n: nat, nct: nat, net: nat, nwt: nat, w: Writer)
    requires nct > 0 && net > 0 && nwt > 0 && Run(steps, Begin(n, nct, net, nwt), w)
    requires w.p.main.Joined?
    ensures |w.created| == n
    ensures forall k :: 0 <= k < n ==>
              var y := LowerItem(w.created[k]); multiset(w.written)[y] + multiset(w.lost)[y] == 1
    ensures forall y: Item :: Count(w.created, LowerItem, y) == multiset(w.written)[y] + multiset(w.lost)[y]
  {
    BeginInv(n, nct, net, nwt);
    RunInv(steps, Begin(n, nct, net, nwt), w, n);
    assert w.p.sources[0].SDone?;
    forall y: Item ensures InFlight(w.p, LowerItem, y) == 0 { JoinedIsEmpty(w.p, LowerItem, y); }
    forall k | 0 <= k < n ensures Everywhere(w, LowerItem(w.created[k])) == 1 { DistinctIds(w.created, k); }
  }

  /** In every reachable state: if every elaborator, or every device writer, that has not
      ended sleeps on its condition variable, its buffer is empty and still open; and no
      thread holds both mutexes. */
  lemma NoLostWakeupInRuns(steps: seq<WStep>, n: nat, nct: nat, net: nat, nwt: nat, w: Writer)
    requires nct > 0 && net > 0 && nwt > 0 && Run(steps, Begin(n, nct, net, nwt), w)
    ensures (exists i :: 0 <= i < |w.p.elabs| && w.p.elabs[i].EAsleep?) ==>
              (forall i :: 0 <= i < |w.p.elabs| ==> !AwakeElab(w.p.elabs[i])) ==> w.p.rbuf == [] && !w.p.rdone
    ensures (exists i :: 0 <= i < |w.p.sinks| && w.p.sinks[i].KAsleep?) ==>
              (forall i :: 0 <= i < |w.p.sinks| ==> !AwakeSink(w.p.sinks[i])) ==> w.p.ebuf == [] && !w.p.edone
    ensures w.p.rlock == w.p.elock ==> w.p.rlock.Nobody?
  {
    BeginInv(n, nct, net, nwt);
    RunInv(steps, Begin(n, nct, net, nwt), w, n);
  }

  // Termination and progress

  function WMeasure(w: Writer): nat {
    Times(Positive(w.todo), SourceCost(w.p) + 1) + Measure(w.p) + DoneRank(w)
  }

  function DoneRank(w: Writer): nat {
    if w.ended then 0 else 1 + Positive(MAX_RETRY + 1 - w.doneTries)
  }

  lemma StepMeasure(w: Writer, s: WStep)
    requires CanStep(w, s)
    ensures !(s.Internal? && Spurious(s.a)) ==> WMeasure(Do(w, s)) < WMeasure(w)
    ensures s.Internal? && Spurious(s.a) ==> WMeasure(Do(w, s)) == WMeasure(w) + 2
  {
    hide Next, Measure, SourceCost;
    if !OfDone(s) { MeasureSteps(w.p, Behind(w, s), LowerItem); }
  }

  /** Every run is finite up to spurious wakeups, whatever the scheduler, the device and the
      choice of threads to wake. */
  lemma {:induction false} RunBounded(steps: seq<WStep>, from: Writer, to: Writer)
    requires Run(steps, from, to)
    ensures |steps| + WMeasure(to) <= WMeasure(from) + 3 * SpuriousSteps(steps)
    decreases |steps|
  {
    if steps != [] {
      StepMeasure(from, steps[0]);
      RunBounded(steps[1..], Do(from, steps[0]), to);
    }
  }

  /** Until the terminator phase some thread can step, provided write() returns, and not by a
      spurious wakeup. */
  lemma WProgress(w: Writer, n: nat) returns (s: WStep)
    requires WInv(w, n) && !w.ended
    ensures CanStep(w, s) && !(s.Internal? && Spurious(s.a)) && !s.WriteFail? && !s.DoneFail?
  {
    if w.p.main.Joined? { return SendDone; }
    var a := Progress(w.p);
    if a.SrcStop? {
      if w.todo <= 0 {
        assert Enabled(w.p, SrcStop(a.i, {}));
        s := StopCreate(a.i);
      } else {
        s := SomeCreate(w, a.i);
      }
    } else if a.SinkFinish? {
      s := if w.p.sinks[a.i].tries < MAX_RETRY then WriteOk(a.i) else GiveUp(a.i);
    } else {
      s := Internal(a);
    }
  }

  /** dev_done on its own: `ok` are the outcomes of its write() calls. The terminator is sent
      exactly when one of the first six succeeds. The return value says something else: 1,
      with a message of failure, exactly when the sixth is the first to succeed, and 0 also
      when all six fail. */
  method DevDone(ok: seq<bool>) returns (r: int, sent: bool)
    requires |ok| > MAX_RETRY
    ensures sent <==> exists k :: 0 <= k <= MAX_RETRY && ok[k]
    ensures r == 1 <==> ok[MAX_RETRY] && forall k :: 0 <= k < MAX_RETRY ==> !ok[k]
    ensures r == 0 || r == 1
  {
    var i := 0;
    while i <= MAX_RETRY && !ok[i]
      invariant 0 <= i <= MAX_RETRY + 1
      invariant forall k :: 0 <= k < i ==> !ok[k]
    {
      i := i + 1;
    }
    sent := i <= MAX_RETRY;
    return if i == MAX_RETRY then 1 else 0, sent;
  }

  lemma SomeCreate(w: Writer, i: nat) returns (s: WStep)
    requires i < |w.p.sources| && w.p.sources[i].SHolds? && w.todo > 0
    ensures s.Create? && s.i == i && CanStep(w, s)
  {
    if exists j: nat :: j < |w.p.elabs| && w.p.elabs[j].EAsleep? {
      var j: nat :| j < |w.p.elabs| && w.p.elabs[j].EAsleep?;
      assert j in {j};
      s := Create(i, [65], {j});
    } else {
      s := Create(i, [65], {});
    }
  }
}
