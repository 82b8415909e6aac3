/**
 Writer, device and Reader together: n strings to write, a Reader that reads until the
 terminator or a given number of times, and the device with its statistics and reallocation
 threads. Any write() or read() may fail. What is printed, given up and lost in failed reads is
 together what was generated; every run is bounded; and whether the end can still be reached
 is decided exactly.
 */
module WholeSystem {
  import opened Pipeline
  import opened PipelineRuns
  import opened Letters
  import D = Device
  import W = WriterProcess
  import R = ReaderProcess

  datatype System = System(w: W.Writer, r: R.Reader, d: D.Dev)

  /** Full and Empty: the process's device caller, testing for the second time, goes to sleep in
      the driver; that it tests in vain at other times changes nothing. There is at most
      one caller, for it holds its pipeline's mutex or is the main thread at the end. Kernel: a
      turn of kt_stat or kt_realloc. */
  datatype SStep =
    | OfWriter(ws: W.WStep) | Full
    | OfReader(rs: R.RStep) | Empty
    | Kernel(op: D.Op)

  /** The operation of the driver that a step of the Writer is the return of, if any. */
  function WriterOp(w: W.Writer, ws: W.WStep): seq<D.Op>
    requires W.CanStep(w, ws)
  {
    match ws
    case WriteOk(i) => [D.Write(w.p.sinks[i].item.text)]
    case SendDone => [D.Write(TERMINATOR)]
    case WriteFail(_) | DoneFail => [D.WriteFault]
    case _ => []
  }

  function ReaderOp(rs: R.RStep): seq<D.Op> {
    match rs
    case Receive(_, _, _) => [D.Read]
    case ReadFail(_, _) => [D.ReadFault]
    case _ => []
  }

  /** A thread of the Writer is inside write(). */
  predicate InWrite(w: W.Writer) {
    || (exists i :: 0 <= i < |w.p.sinks| && w.p.sinks[i].KBusy? && w.p.sinks[i].tries < W.MAX_RETRY)
    || (w.p.main.Joined? && !w.ended)
  }

  predicate InRead(r: R.Reader) {
    R.Reading(r) && exists i :: 0 <= i < |r.p.sources| && r.p.sources[i].SHolds?
  }

  predicate CanAll(d: D.Dev, ops: seq<D.Op>) {
    d.max >= 1 && (ops == [] || D.CanDo(d, ops[0]))
  }

  function DoAll(d: D.Dev, ops: seq<D.Op>): D.Dev
    requires CanAll(d, ops)
  {
    if ops == [] then d else D.Do(d, ops[0])
  }

  predicate CanStep(s: System, a: SStep) {
    && s.d.max >= 1
    && match a
       case OfWriter(ws) =>
         W.CanStep(s.w, ws) && CanAll(s.d, WriterOp(s.w, ws)) && (WriterOp(s.w, ws) != [] ==> s.d.wSleep == 0)
       case Full => InWrite(s.w) && s.d.wSleep == 0 && D.CanDo(s.d, D.WriteSleep)
       case OfReader(rs) =>
         && R.CanStep(s.r, rs) && CanAll(s.d, ReaderOp(rs)) && (ReaderOp(rs) != [] ==> s.d.rSleep == 0)
         && (rs.Receive? ==> rs.s == s.d.fifo[0])
       case Empty => InRead(s.r) && s.d.rSleep == 0 && D.CanDo(s.d, D.ReadSleep)
       case Kernel(op) => (op.Sample? || op.Realloc?) && D.CanDo(s.d, op)
  }

  function Do(s: System, a: SStep): System
    requires CanStep(s, a)
  {
    match a
    case OfWriter(ws) => s.(w := W.Do(s.w, ws), d := DoAll(s.d, WriterOp(s.w, ws)))
    case Full => s.(d := D.Do(s.d, D.WriteSleep))
    case OfReader(rs) => s.(r := R.Do(s.r, rs), d := DoAll(s.d, ReaderOp(rs)))
    case Empty => s.(d := D.Do(s.d, D.ReadSleep))
    case Kernel(op) => s.(d := D.Do(s.d, op))
  }

  /** A write() or read() that fails. */
  predicate Fault(a: SStep) {
    || (a.OfWriter? && (a.ws.WriteFail? || a.ws.DoneFail?))
    || (a.OfReader? && a.rs.ReadFail?)
  }

  /** `m` is the Reader's argument: 0 for reading until the terminator. */
  function Begin(n: nat, nct: nat, net: nat, nwt: nat, m: nat, nrt: nat, ner: nat, npt: nat): System {
    System(W.Begin(n, nct, net, nwt), R.Begin(m, nrt, ner, npt), D.FRESH)
  }

  function Texts(items: seq<W.Item>): seq<Text> {
    seq(|items|, i requires 0 <= i < |items| => items[i].text)
  }

  function Closing(b: bool): seq<Text> { if b then [TERMINATOR] else [] }

  /** What went into the device are the written strings, then the terminator; what was
      delivered are the strings read, then the terminator. */
  ghost predicate Channel(s: System) {
    && s.d.written == Texts(s.w.written) + Closing(s.w.sent)
    && s.d.delivered == s.r.data + Closing(s.r.last)
    && s.r.calls == |s.d.taken|
  }

  ghost predicate SInv(s: System, n: nat, m: nat) {
    W.WInv(s.w, n) && R.RInv(s.r, m) && D.DInv(s.d) && Channel(s)
  }

  // No string written is the terminator

  lemma {:induction false} CountWitness<S, T>(a: seq<S>, f: S -> T, y: T) returns (k: nat)
    requires Count(a, f, y) > 0
    ensures k < |a| && f(a[k]) == y
  {
    var n := |a| - 1;
    if f(a[n]) == y { k := n; } else { k := CountWitness(a[..n], f, y); }
  }

  lemma WrittenIsLowered(w: W.Writer, n: nat, y: W.Item) returns (k: nat)
    requires W.WInv(w, n) && W.Everywhere(w, y) > 0
    ensures k < |w.created| && y == W.LowerItem(w.created[k]) && y.text != TERMINATOR
  {
    k := CountWitness(w.created, W.LowerItem, y);
    GeneratedTravels(w.created[k].text);
  }

  lemma TextsNotTerminator(s: System, n: nat, j: nat)
    requires W.WInv(s.w, n) && j < |s.w.written|
    ensures Texts(s.w.written)[j] != TERMINATOR
  {
    var y := s.w.written[j];
    assert multiset(s.w.written)[y] > 0;
    var _ := WrittenIsLowered(s.w, n, y);
  }

  /** The terminator is the last string that goes in, so when it has come out, all have. */
  lemma TerminatorIsLast(s: System, n: nat, m: nat)
    requires SInv(s, n, m) && TERMINATOR in s.d.taken
    ensures s.w.sent && s.d.fifo == [] && s.d.taken == s.d.written
  {
    hide W.WInv, R.RInv;
    var k :| 0 <= k < |s.d.taken| && s.d.taken[k] == TERMINATOR;
    assert s.d.written[k] == TERMINATOR;
    if k < |s.w.written| {
      TextsNotTerminator(s, n, k);
      assert false;
    }
    assert s.d.written == s.d.taken;
  }

  lemma LastIsTaken(s: System, n: nat, m: nat)
    requires SInv(s, n, m) && s.r.last
    ensures TERMINATOR in s.d.taken
  {
    assert s.d.delivered[|s.d.delivered| - 1] == TERMINATOR;
    assert TERMINATOR in multiset(s.d.taken);
  }

  // What every step keeps

  lemma BeginInv(n: nat, nct: nat, net: nat, nwt: nat, m: nat, nrt: nat, ner: nat, npt: nat)
    requires nct > 0 && net > 0 && nwt > 0 && nrt > 0 && ner > 0 && npt > 0
    ensures SInv(Begin(n, nct, net, nwt, m, nrt, ner, npt), n, m)
  {
    W.BeginInv(n, nct, net, nwt);
    R.BeginInv(m, nrt, ner, npt);
  }

  /** The device's own invariant, whatever the operation. */
  lemma DeviceKeeps(d: D.Dev, ops: seq<D.Op>)
    requires D.DInv(d) && CanAll(d, ops)
    ensures D.DInv(DoAll(d, ops))
  {
    if ops != [] { D.DInvKept(d, ops[0]); }
  }

  lemma WriterStepKeeps(s: System, ws: W.WStep, n: nat, m: nat)
    requires SInv(s, n, m) && CanStep(s, OfWriter(ws))
    ensures SInv(Do(s, OfWriter(ws)), n, m)
  {
    W.WInvKept(s.w, ws, n);
    DeviceKeeps(s.d, WriterOp(s.w, ws));
    WriterChannel(s, ws, n);
    hide W.WInv, R.RInv, D.DInv, W.CanStep, W.Do, Channel;
  }

  lemma WriterChannel(s: System, ws: W.WStep, n: nat)
    requires W.WInv(s.w, n) && Channel(s) && CanStep(s, OfWriter(ws))
    ensures Channel(Do(s, OfWriter(ws)))
  {
    hide Next, Inv, Count, InFlight;
    if ws.WriteOk? {
      var x := s.w.p.sinks[ws.i].item;
      assert !s.w.sent by { NotJoinedWhileBusy(s.w, ws.i, n); }
      assert Texts(s.w.written + [x]) == Texts(s.w.written) + [x.text];
    }
  }

  lemma NotJoinedWhileBusy(w: W.Writer, i: nat, n: nat)
    requires W.WInv(w, n) && i < |w.p.sinks| && w.p.sinks[i].KBusy?
    ensures !w.sent
  {
  }

  lemma ReaderStepKeeps(s: System, rs: R.RStep, n: nat, m: nat)
    requires SInv(s, n, m) && CanStep(s, OfReader(rs))
    ensures SInv(Do(s, OfReader(rs)), n, m)
  {
    R.RInvKept(s.r, rs, m);
    DeviceKeeps(s.d, ReaderOp(rs));
    ReaderChannel(s, rs, n, m);
    hide W.WInv, R.RInv, D.DInv, R.CanStep, R.Do, Channel;
  }

  /** After the terminator there is nothing left to receive. */
  lemma NotYetLast(s: System, n: nat, m: nat)
    requires SInv(s, n, m) && s.d.fifo != []
    ensures !s.r.last
  {
    hide W.WInv, R.RInv;
    if s.r.last {
      LastIsTaken(s, n, m);
      TerminatorIsLast(s, n, m);
    }
  }

  lemma ReaderChannel(s: System, rs: R.RStep, n: nat, m: nat)
    requires SInv(s, n, m) && CanStep(s, OfReader(rs))
    ensures Channel(Do(s, OfReader(rs)))
  {
    hide SInv, Next, Enabled;
    if rs.Receive? { NotYetLast(s, n, m); }
    assert Channel(s) by { ChannelOf(s, n, m); }
  }

  lemma ChannelOf(s: System, n: nat, m: nat)
    requires SInv(s, n, m)
    ensures Channel(s)
  {
  }

  lemma SInvKept(s: System, a: SStep, n: nat, m: nat)
    requires SInv(s, n, m) && CanStep(s, a)
    ensures SInv(Do(s, a), n, m)
  {
    match a
    case OfWriter(ws) => WriterStepKeeps(s, ws, n, m);
    case OfReader(rs) => ReaderStepKeeps(s, rs, n, m);
    case Full => hide W.WInv, R.RInv; D.DInvKept(s.d, D.WriteSleep);
    case Empty => hide W.WInv, R.RInv; D.DInvKept(s.d, D.ReadSleep);
    case Kernel(op) => hide W.WInv, R.RInv; D.DInvKept(s.d, op);
  }

  // The account at the end

  lemma {:induction false} CountRemove<S, T>(a: seq<S>, k: nat, f: S -> T, y: T)
    requires k < |a|
    ensures Count(a, f, y) == Count(a[..k] + a[k + 1..], f, y) + if f(a[k]) == y then 1 else 0
  {
    var n := |a| - 1;
    if k == n {
      assert a[..k] + a[k + 1..] == a[..n];
    } else {
      var a' := a[..k] + a[k + 1..];
      CountRemove(a[..n], k, f, y);
      assert a'[..n - 1] == a[..n][..k] + a[..n][k + 1..];
      assert a'[n - 1] == a[n];
    }
  }

  /** If `b` is a rearrangement of `f` over `a`, then `g` over `b` counts as `g` after `f`
      over `a`. */
  lemma {:induction false} CountTransfer<S, T, U>(a: seq<S>, b: seq<T>, f: S -> T, g: T -> U, h: S -> U, y: U)
    requires forall z :: Count(a, f, z) == multiset(b)[z]
    requires forall x :: h(x) == g(f(x))
    ensures Count(b, g, y) == Count(a, h, y)
    decreases |b|
  {
    if b == [] {
      if a != [] {
        assert Count(a, f, f(a[|a| - 1])) >= 1;
        assert false;
      }
    } else {
      var n := |b| - 1;
      var z := b[n];
      assert b == b[..n] + [z];
      assert multiset(b)[z] >= 1;
      var k := CountWitness(a, f, z);
      var a' := a[..k] + a[k + 1..];
      forall z' ensures Count(a', f, z') == multiset(b[..n])[z'] { CountRemove(a, k, f, z'); }
      CountTransfer(a', b[..n], f, g, h, y);
      CountRemove(a, k, h, y);
    }
  }

  function TextOf(x: W.Item): Text { x.text }

  function UpperText(x: W.Item): Text { Upper(x.text) }

  function ThereAndBack(x: W.Item): Text { UpperText(W.LowerItem(x)) }

  lemma {:induction false} CountTexts(items: seq<W.Item>, y: Text)
    ensures Count(Texts(items), Upper, y) == Count(items, UpperText, y)
  {
    if items != [] {
      CountTexts(items[..|items| - 1], y);
      assert Texts(items)[..|items| - 1] == Texts(items[..|items| - 1]);
    }
  }

  lemma {:induction false} CountThereAndBack(items: seq<W.Item>, y: Text)
    requires forall k :: 0 <= k < |items| ==> Generated(items[k].text)
    ensures Count(items, ThereAndBack, y) == Count(items, TextOf, y)
  {
    if items != [] {
      CountThereAndBack(items[..|items| - 1], y);
      GeneratedTravels(items[|items| - 1].text);
    }
  }

  lemma {:induction false} CountIsMultiset(items: seq<W.Item>, y: Text)
    ensures Count(items, TextOf, y) == multiset(Texts(items))[y]
  {
    if items != [] {
      var n := |items| - 1;
      CountIsMultiset(items[..n], y);
      assert Texts(items) == Texts(items[..n]) + [items[n].text];
    }
  }

  /** Finished: the Reader's main thread has joined all its threads. */
  predicate Finished(s: System) {
    s.r.p.main.Joined?
  }

  /** The strings as they would have been printed. */
  function Uppers(s: seq<Text>): seq<Text> {
    seq(|s|, i requires 0 <= i < |s| => Upper(s[i]))
  }

  lemma {:induction false} CountUppers(s: seq<Text>, y: Text)
    ensures Count(s, Upper, y) == multiset(Uppers(s))[y]
  {
    if s != [] {
      var n := |s| - 1;
      CountUppers(s[..n], y);
      assert Uppers(s) == Uppers(s[..n]) + [Upper(s[n])];
    }
  }

  lemma {:induction false} CountConcat<S, T>(a: seq<S>, b: seq<S>, f: S -> T, y: T)
    ensures Count(a + b, f, y) == Count(a, f, y) + Count(b, f, y)
    decreases |b|
  {
    if b == [] {
      assert a + b == a;
    } else {
      CountConcat(a, b[..|b| - 1], f, y);
      assert (a + b)[..|a + b| - 1] == a + b[..|b| - 1];
    }
  }

  function Same(s: Text): Text { s }

  lemma {:induction false} CountSame(s: seq<Text>, y: Text)
    ensures Count(s, Same, y) == multiset(s)[y]
  {
    if s != [] {
      CountSame(s[..|s| - 1], y);
      assert s == s[..|s| - 1] + [s[|s| - 1]];
    }
  }

  /** All that was created, and how the Writer's pipeline let go of it. */
  lemma WriterAccount(w: W.Writer, n: nat, y: Text)
    requires W.WInv(w, n) && w.p.main.Joined?
    ensures |w.created| == n
    ensures multiset(Texts(w.created))[y] == Count(Texts(w.written), Upper, y) + Count(Texts(w.lost), Upper, y)
  {
    var out := w.written + w.lost;
    forall z: W.Item ensures Count(w.created, W.LowerItem, z) == multiset(out)[z] {
      JoinedIsEmpty(w.p, W.LowerItem, z);
    }
    assert w.p.sources[0].SDone?;
    hide W.WInv, Inv;
    CountTransfer(w.created, out, W.LowerItem, UpperText, ThereAndBack, y);
    CountConcat(w.written, w.lost, UpperText, y);
    CountTexts(w.written, y);
    CountTexts(w.lost, y);
    CountThereAndBack(w.created, y);
    CountIsMultiset(w.created, y);
  }

  /** All that went into the device, and where it is. */
  lemma DeviceAccount(d: D.Dev, y: Text)
    requires D.DInv(d)
    ensures Count(d.written, Upper, y) == Count(d.delivered, Upper, y) + Count(d.faulted, Upper, y) + Count(d.fifo, Upper, y)
  {
    var out := d.delivered + d.faulted;
    forall z: Text ensures Count(out, Same, z) == multiset(d.taken)[z] {
      CountSame(out, z);
      assert multiset(out) == multiset(d.taken);
    }
    hide D.DInv;
    CountTransfer(out, d.taken, Same, Upper, Upper, y);
    CountConcat(d.delivered, d.faulted, Upper, y);
    CountConcat(d.taken, d.fifo, Upper, y);
  }

  /** Both processes have joined their threads: what was printed, given up by the Writer, lost
      in failed reads or left in the device is what was generated; the terminator, once sent,
      was delivered, lost or left likewise. */
  lemma Account(s: System, n: nat, m: nat, y: Text)
    requires SInv(s, n, m) && Finished(s) && s.w.p.main.Joined?
    ensures |s.w.created| == n
    ensures multiset(Texts(s.w.created))[y] + multiset(Uppers(Closing(s.w.sent)))[y] ==
            multiset(s.r.printed)[y] + multiset(Uppers(Texts(s.w.lost)))[y] + multiset(Uppers(s.d.faulted))[y] +
            multiset(Uppers(s.d.fifo))[y] + multiset(Uppers(Closing(s.r.last)))[y]
  {
    R.JoinedPrintsAll(s.r, m, y);
    WriterAccount(s.w, n, y);
    DeviceAccount(s.d, y);
    hide W.WInv, R.RInv, D.DInv, Count;
    CountConcat(Texts(s.w.written), Closing(s.w.sent), Upper, y);
    CountConcat(s.r.data, Closing(s.r.last), Upper, y);
    CountUppers(Texts(s.w.lost), y);
    CountUppers(s.d.faulted, y);
    CountUppers(s.d.fifo, y);
    CountUppers(Closing(s.w.sent), y);
    CountUppers(Closing(s.r.last), y);
  }

  // Whole runs

  ghost predicate Run(steps: seq<SStep>, from: System, to: System)
    decreases |steps|
  {
    if steps == [] then from == to
    else CanStep(from, steps[0]) && Run(steps[1..], Do(from, steps[0]), to)
  }

  lemma {:induction false} RunInv(steps: seq<SStep>, from: System, to: System, n: nat, m: nat)
    requires Run(steps, from, to) && SInv(from, n, m)
    ensures SInv(to, n, m)
    decreases |steps|
  {
    hide SInv, CanStep, Do;
    if steps != [] {
      SInvKept(from, steps[0], n, m);
      RunInv(steps[1..], Do(from, steps[0]), to, n, m);
    }
  }

  predicate Faultless(steps: seq<SStep>) {
    forall k :: 0 <= k < |steps| ==> !Fault(steps[k])
  }

  /** Nothing has failed so far. */
  ghost predicate Clean(s: System) {
    && s.w.lost == [] && s.w.doneTries == 0 && s.d.faulted == []
    && forall i :: 0 <= i < |s.w.p.sinks| && s.w.p.sinks[i].KBusy? ==> s.w.p.sinks[i].tries == 0
  }

  /** A sink's retry count moves only by a failed write. */
  lemma TriesKept(p: Pipe<W.Item>, a: Step<W.Item>)
    requires Enabled(p, a) && !a.SinkRetry?
    requires forall i :: 0 <= i < |p.sinks| && p.sinks[i].KBusy? ==> p.sinks[i].tries == 0
    ensures var p' := Next(p, a, W.LowerItem);
            forall i :: 0 <= i < |p'.sinks| && p'.sinks[i].KBusy? ==> p'.sinks[i].tries == 0
  {
  }

  lemma CleanKept(s: System, a: SStep)
    requires Clean(s) && CanStep(s, a) && !Fault(a)
    ensures Clean(Do(s, a))
  {
    if a.OfWriter? && !W.OfDone(a.ws) {
      TriesKept(s.w.p, W.Behind(s.w, a.ws));
      hide Next;
    }
  }

  lemma {:induction false} RunClean(steps: seq<SStep>, from: System, to: System)
    requires Run(steps, from, to) && Clean(from) && Faultless(steps)
    ensures Clean(to)
    decreases |steps|
  {
    hide Clean, CanStep, Do, Fault;
    if steps != [] {
      CleanKept(from, steps[0]);
      RunClean(steps[1..], Do(from, steps[0]), to);
    }
  }

  /** The Reader's end, when it reads until the terminator. */
  lemma LoopFinished(s: System, n: nat)
    requires SInv(s, n, 0) && Finished(s)
    ensures s.r.last && s.w.sent && s.w.p.main.Joined? && s.d.fifo == []
  {
    assert s.r.p.sources[0].SDone?;
    LastIsTaken(s, n, 0);
    TerminatorIsLast(s, n, 0);
  }

  /** What was printed, given up by the Writer, lost in failed reads or left in the device is,
      with its multiplicity, what was generated, terminator included. */
  ghost predicate Balanced(s: System) {
    multiset(Texts(s.w.created)) + multiset(Uppers(Closing(s.w.sent))) ==
    multiset(s.r.printed) + multiset(Uppers(Texts(s.w.lost))) + multiset(Uppers(s.d.faulted)) +
    multiset(Uppers(s.d.fifo)) + multiset(Uppers(Closing(s.r.last)))
  }

  lemma GeneralAccount(s: System, n: nat, m: nat)
    requires SInv(s, n, m) && Finished(s) && s.w.p.main.Joined?
    ensures |s.w.created| == n && Balanced(s)
  {
    hide SInv;
    var a := multiset(Texts(s.w.created)) + multiset(Uppers(Closing(s.w.sent)));
    var b := multiset(s.r.printed) + multiset(Uppers(Texts(s.w.lost))) + multiset(Uppers(s.d.faulted)) +
             multiset(Uppers(s.d.fifo)) + multiset(Uppers(Closing(s.r.last)));
    Account(s, n, m, []);
    forall y: Text ensures a[y] == b[y] { Account(s, n, m, y); }
    assert a == b;
  }

  /** The same when the terminator was delivered and nothing is left in the device. */
  lemma LoopAccount(s: System, n: nat)
    requires SInv(s, n, 0) && Finished(s)
    ensures s.w.sent && s.w.ended && |s.w.created| == n
    ensures multiset(Texts(s.w.created)) ==
            multiset(s.r.printed) + multiset(Uppers(Texts(s.w.lost))) + multiset(Uppers(s.d.faulted))
  {
    LoopFinished(s, n);
    GeneralAccount(s, n, 0);
    assert s.w.ended;
    hide SInv;
    assert Uppers(s.d.fifo) == [];
    Cancel(multiset(Texts(s.w.created)), multiset(Uppers(Closing(true))),
           multiset(s.r.printed) + multiset(Uppers(Texts(s.w.lost))) + multiset(Uppers(s.d.faulted)));
  }

  lemma Cancel(a: multiset<Text>, c: multiset<Text>, b: multiset<Text>)
    requires a + c == b + c
    ensures a == b
  {
    assert a == (a + c) - c;
    assert b == (b + c) - c;
  }

  lemma CountedFinished(s: System, n: nat, m: nat)
    requires SInv(s, n, m) && Finished(s) && m > 0
    ensures s.r.last || |s.d.taken| == m
  {
    assert s.r.p.sources[0].SDone?;
  }

  /** For every number of strings, of reads and of threads, every interleaving, every failure
      of a write or read and every reallocation: what left the device is a prefix of what went
      in. When both processes have ended, what was printed, given up, lost in failed reads or
      left in the device is, with its multiplicity, what was generated. When the Reader reads
      until the terminator, its end alone is enough, and nothing is left in the device. */
  lemma EndToEnd(steps: seq<SStep>, n: nat, nct: nat, net: nat, nwt: nat, m: nat, nrt: nat, ner: nat, npt: nat, s: System)
    requires nct > 0 && net > 0 && nwt > 0 && nrt > 0 && ner > 0 && npt > 0
    requires Run(steps, Begin(n, nct, net, nwt, m, nrt, ner, npt), s)
    ensures s.d.taken <= s.d.written && Texts(s.w.written) <= s.d.written
    ensures Finished(s) && s.w.p.main.Joined? ==> |s.w.created| == n && Balanced(s)
    ensures Finished(s) && m > 0 ==> s.r.last || |s.d.taken| == m
    ensures Finished(s) && m == 0 ==>
              && s.w.ended && |s.w.created| == n
              && multiset(Texts(s.w.created)) ==
                 multiset(s.r.printed) + multiset(Uppers(Texts(s.w.lost))) + multiset(Uppers(s.d.faulted))
  {
    BeginInv(n, nct, net, nwt, m, nrt, ner, npt);
    RunInv(steps, Begin(n, nct, net, nwt, m, nrt, ner, npt), s, n, m);
    Prefixes(s, n, m);
    hide SInv, Run, Balanced;
    if Finished(s) {
      if m == 0 { LoopAccount(s, n); } else { CountedFinished(s, n, m); }
      if s.w.p.main.Joined? { GeneralAccount(s, n, m); }
    }
  }

  lemma Prefixes(s: System, n: nat, m: nat)
    requires SInv(s, n, m)
    ensures s.d.taken <= s.d.written && Texts(s.w.written) <= s.d.written
  {
    hide W.WInv, R.RInv;
  }

  /** Without a failed write or read exactly the generated strings are printed. */
  lemma FaultlessEndToEnd(steps: seq<SStep>, n: nat, nct: nat, net: nat, nwt: nat, nrt: nat, ner: nat, npt: nat, s: System)
    requires nct > 0 && net > 0 && nwt > 0 && nrt > 0 && ner > 0 && npt > 0
    requires Run(steps, Begin(n, nct, net, nwt, 0, nrt, ner, npt), s) && Faultless(steps)
    ensures Finished(s) ==> |s.w.created| == n && multiset(s.r.printed) == multiset(Texts(s.w.created))
  {
    hide Run, Finished;
    EndToEnd(steps, n, nct, net, nwt, 0, nrt, ner, npt, s);
    RunClean(steps, Begin(n, nct, net, nwt, 0, nrt, ner, npt), s);
    assert Uppers(Texts(s.w.lost)) == [] && Uppers(s.d.faulted) == [];
  }

  // Every run ends

  predicate SpuriousStep(a: SStep) {
    || (a.OfWriter? && a.ws.Internal? && Spurious(a.ws.a))
    || (a.OfReader? && a.rs.Internal? && Spurious(a.rs.a))
  }

  /** Steps that may recur for ever: spurious wakeups and turns of the kernel threads. */
  predicate Idle(a: SStep) {
    a.Kernel? || SpuriousStep(a)
  }

  function PerString(s: System): nat { SourceCost(s.r.p) + 2 }

  function PerStep(s: System): nat { PerString(s) + 2 }

  function Awake(sleepers: nat): nat { if sleepers > 0 then 0 else 1 }

  function SMeasure(s: System): nat {
    Times(W.WMeasure(s.w), PerStep(s)) + Times(|s.d.fifo|, PerString(s)) + Measure(s.r.p) +
    Awake(s.d.wSleep) + Awake(s.d.rSleep)
  }

  lemma {:induction false} TimesLess(m: nat, n: nat, b: nat)
    requires m < n
    ensures Times(m, b) + b <= Times(n, b)
  {
    if m < n - 1 { TimesLess(m, n - 1, b); }
  }

  /** A step of the Writer pays for a string in the device and for waking the reader. */
  lemma WriterMeasure(s: System, ws: W.WStep)
    requires CanStep(s, OfWriter(ws)) && !(ws.Internal? && Spurious(ws.a))
    ensures SMeasure(Do(s, OfWriter(ws))) < SMeasure(s)
  {
    hide W.Do, W.CanStep, W.WMeasure, Measure, Times, SourceCost;
    var s' := Do(s, OfWriter(ws));
    W.StepMeasure(s.w, ws);
    TimesLess(W.WMeasure(s'.w), W.WMeasure(s.w), PerStep(s));
    TimesGrows(|s'.d.fifo|, |s.d.fifo|, PerString(s));
  }

  lemma {:induction false} TimesGrows(m: nat, n: nat, b: nat)
    requires m <= n + 1
    ensures Times(m, b) <= Times(n, b) + b
  {
    if m < n { TimesLess(m, n, b); }
  }

  /** Taking a string out of the device pays for its way through the Reader and for waking
      the writer. */
  lemma ReaderMeasure(s: System, rs: R.RStep)
    requires CanStep(s, OfReader(rs)) && !(rs.Internal? && Spurious(rs.a))
    ensures SMeasure(Do(s, OfReader(rs))) < SMeasure(s)
  {
    hide R.Do, R.CanStep, W.WMeasure, Measure, SourceCost;
    R.RStepMeasure(s.r, rs);
    var s' := Do(s, OfReader(rs));
    assert PerString(s') == PerString(s);
    if ReaderOp(rs) != [] {
      assert Times(|s.d.fifo|, PerString(s)) == Times(|s'.d.fifo|, PerString(s)) + PerString(s);
    }
  }

  lemma StepMeasure(s: System, a: SStep)
    requires CanStep(s, a) && !Idle(a)
    ensures SMeasure(Do(s, a)) < SMeasure(s)
  {
    match a
    case OfWriter(ws) => hide SMeasure; WriterMeasure(s, ws);
    case OfReader(rs) => hide SMeasure; ReaderMeasure(s, rs);
    case Full => hide W.WMeasure, Measure, SourceCost, Times;
    case Empty => hide W.WMeasure, Measure, SourceCost, Times;
    case Kernel(_) =>
  }

  lemma SpuriousWriterMeasure(s: System, ws: W.WStep)
    requires CanStep(s, OfWriter(ws)) && ws.Internal? && Spurious(ws.a)
    ensures SMeasure(Do(s, OfWriter(ws))) == SMeasure(s) + 2 * PerStep(s)
  {
    hide W.Do, W.CanStep, W.WMeasure, Measure, Times, SourceCost;
    W.StepMeasure(s.w, ws);
    TwoMore(W.WMeasure(s.w), PerStep(s));
  }

  lemma TwoMore(m: nat, b: nat)
    ensures Times(m + 2, b) == Times(m, b) + 2 * b
  {
    assert Times(m + 2, b) == Times(m + 1, b) + b;
  }

  lemma SpuriousReaderMeasure(s: System, rs: R.RStep)
    requires CanStep(s, OfReader(rs)) && rs.Internal? && Spurious(rs.a)
    ensures SMeasure(Do(s, OfReader(rs))) == SMeasure(s) + 2
  {
    hide R.Do, R.CanStep, W.WMeasure, Measure, Times, SourceCost;
    R.RStepMeasure(s.r, rs);
  }

  /** A spurious wakeup adds a bounded amount, a turn of a kernel thread nothing. */
  lemma StepBound(s: System, a: SStep)
    requires CanStep(s, a)
    ensures 1 + SMeasure(Do(s, a)) <= SMeasure(s) + if Idle(a) then 2 * PerStep(s) + 1 else 0
  {
    hide R.Do, R.CanStep, W.Do, W.CanStep, W.WMeasure, Measure, SourceCost, Times;
    if !Idle(a) {
      StepMeasure(s, a);
    } else if a.OfWriter? {
      SpuriousWriterMeasure(s, a.ws);
    } else if a.OfReader? {
      SpuriousReaderMeasure(s, a.rs);
    }
  }

  lemma BoundCons(len: nat, m0: nat, m1: nat, m2: nat, idle: bool, k: nat, c: nat)
    requires 1 + m1 <= m0 + if idle then c else 0
    requires len + m2 <= m1 + Times(k, c)
    ensures 1 + len + m2 <= m0 + Times((if idle then 1 else 0) + k, c)
  {
  }

  lemma PerStepKept(s: System, a: SStep)
    requires CanStep(s, a)
    ensures PerStep(Do(s, a)) == PerStep(s)
  {
    if a.OfReader? { R.RStepMeasure(s.r, a.rs); }
  }

  function IdleSteps(steps: seq<SStep>): nat {
    if steps == [] then 0 else (if Idle(steps[0]) then 1 else 0) + IdleSteps(steps[1..])
  }

  /** Every run is bounded, failures included: its length is at most the measure it starts
      from, plus a fixed amount for each spurious wakeup and turn of a kernel thread in it. */
  lemma {:induction false} RunsEnd(steps: seq<SStep>, from: System, to: System)
    requires Run(steps, from, to)
    ensures |steps| + SMeasure(to) <= SMeasure(from) + Times(IdleSteps(steps), 2 * PerStep(from) + 1)
    decreases |steps|
  {
    hide SMeasure, CanStep, Do, Idle, PerStep;
    if steps != [] {
      PerStepKept(from, steps[0]);
      StepBound(from, steps[0]);
      RunsEnd(steps[1..], Do(from, steps[0]), to);
      BoundCons(|steps| - 1, SMeasure(from), SMeasure(Do(from, steps[0])), SMeasure(to),
                Idle(steps[0]), IdleSteps(steps[1..]), 2 * PerStep(from) + 1);
    }
  }

  // Whether the end can be reached, for a Reader that reads until the terminator

  /** The Reader still waits for the terminator, and it will not come: the Writer's caller
      sleeps on an empty device, where no read can wake it, or the Writer has ended and the
      terminator is not in the device. */
  predicate Doomed(s: System) {
    s.r.loop && ((s.d.wSleep > 0 && s.d.fifo == []) || (s.w.ended && TERMINATOR !in s.d.fifo))
  }

  /** An ended Writer makes no more steps. */
  lemma EndedIsQuiet(w: W.Writer, ws: W.WStep, n: nat)
    requires W.WInv(w, n) && w.ended
    ensures !W.CanStep(w, ws)
  {
  }

  lemma DoomedStays(s: System, a: SStep, n: nat, m: nat)
    requires SInv(s, n, m) && CanStep(s, a) && Doomed(s)
    ensures Doomed(Do(s, a))
  {
    hide Next, Inv;
    if a.OfWriter? && s.w.ended { EndedIsQuiet(s.w, a.ws, n); }
    hide W.WInv, R.RInv;
  }

  lemma {:induction false} DoomedForever(steps: seq<SStep>, from: System, to: System, n: nat)
    requires Run(steps, from, to) && SInv(from, n, 0) && Doomed(from)
    ensures Doomed(to) && !Finished(to)
    decreases |steps|
  {
    if steps == [] {
      StillReading(to, n);
    } else {
      hide SInv, CanStep, Do, Doomed, Finished;
      DoomedStays(from, steps[0], n, 0);
      SInvKept(from, steps[0], n, 0);
      DoomedForever(steps[1..], Do(from, steps[0]), to, n);
    }
  }

  /** Only a failure dooms. */
  lemma NotDoomedKept(s: System, a: SStep, n: nat, m: nat)
    requires SInv(s, n, m) && CanStep(s, a) && !Doomed(s) && !Fault(a)
    ensures !Doomed(Do(s, a))
  {
    hide SInv, Next, Enabled;
    match a
    case OfWriter(ws) =>
      if ws.SendDone? {
        var d' := Do(s, a).d;
        assert d'.fifo[|d'.fifo| - 1] == TERMINATOR;
      }
    case OfReader(rs) =>
      if rs.Receive? && TERMINATOR in s.d.fifo && s.d.fifo[0] != TERMINATOR { assert TERMINATOR in s.d.fifo[1..]; }
    case _ =>
  }

  /** Until the Reader ends, and unless it is doomed, some thread can step, not by a spurious
      wakeup and not by a failure. */
  lemma NoDeadlock(s: System, n: nat) returns (a: SStep)
    requires SInv(s, n, 0) && !Finished(s) && !Doomed(s)
    ensures CanStep(s, a) && !Idle(a) && !Fault(a)
  {
    if s.r.loop && s.d.fifo == [] {
      a := WriterProgress(s, n);
    } else {
      a := ReaderProgress(s, n);
    }
  }

  lemma WriterProgress(s: System, n: nat) returns (a: SStep)
    requires SInv(s, n, 0) && s.r.loop && !Doomed(s) && s.d.fifo == []
    ensures CanStep(s, a) && !Idle(a) && !Fault(a)
  {
    var ws := W.WProgress(s.w, n);
    hide W.WInv, R.RInv, W.CanStep;
    a := OfWriter(ws);
  }

  lemma ReaderProgress(s: System, n: nat) returns (a: SStep)
    requires SInv(s, n, 0) && !Finished(s) && (s.r.loop ==> s.d.fifo != [])
    ensures CanStep(s, a) && !Idle(a) && !Fault(a)
  {
    var rs := R.RProgress(s.r, 0);
    if rs.Receive? {
      var wake := R.SomeSignal(s.r.p.elabs);
      a := OfReader(R.Receive(rs.i, s.d.fifo[0], wake));
    } else {
      a := OfReader(rs);
    }
  }

  lemma {:induction false} CanFinish(s: System, n: nat) returns (steps: seq<SStep>, end: System)
    requires SInv(s, n, 0) && !Doomed(s)
    ensures Run(steps, s, end) && Finished(end) && Faultless(steps)
    ensures forall k :: 0 <= k < |steps| ==> !Idle(steps[k])
    decreases SMeasure(s)
  {
    hide CanStep, Do, SInv, SMeasure, Idle, Doomed, Fault;
    if Finished(s) {
      return [], s;
    }
    var a := NoDeadlock(s, n);
    StepMeasure(s, a);
    SInvKept(s, a, n, 0);
    NotDoomedKept(s, a, n, 0);
    steps, end := CanFinish(Do(s, a), n);
    assert ([a] + steps)[1..] == steps;
    steps := [a] + steps;
  }

  /** In every reachable state: the end can still be reached exactly when the system is not
      doomed. By RunsEnd a run that avoids failures, spurious wakeups and the kernel threads
      then cannot miss it. */
  lemma FinishReachable(steps: seq<SStep>, n: nat, nct: nat, net: nat, nwt: nat, nrt: nat, ner: nat, npt: nat, s: System)
    requires nct > 0 && net > 0 && nwt > 0 && nrt > 0 && ner > 0 && npt > 0
    requires Run(steps, Begin(n, nct, net, nwt, 0, nrt, ner, npt), s)
    ensures !Doomed(s) <==> exists more, end :: Run(more, s, end) && Finished(end)
    ensures Faultless(steps) ==> !Doomed(s)
  {
    BeginInv(n, nct, net, nwt, 0, nrt, ner, npt);
    RunInv(steps, Begin(n, nct, net, nwt, 0, nrt, ner, npt), s, n, 0);
    if Faultless(steps) { RunNotDoomed(steps, Begin(n, nct, net, nwt, 0, nrt, ner, npt), s, n); }
    hide SInv, Doomed, Finished;
    if !Doomed(s) {
      var more, end := CanFinish(s, n);
      assert Run(more, s, end) && Finished(end);
    } else {
      forall more, end | Run(more, s, end) ensures !Finished(end) { DoomedForever(more, s, end, n); }
    }
  }

  lemma {:induction false} RunNotDoomed(steps: seq<SStep>, from: System, to: System, n: nat)
    requires Run(steps, from, to) && SInv(from, n, 0) && !Doomed(from) && Faultless(steps)
    ensures !Doomed(to)
    decreases |steps|
  {
    hide SInv, CanStep, Do, Doomed, Fault;
    if steps != [] {
      NotDoomedKept(from, steps[0], n, 0);
      SInvKept(from, steps[0], n, 0);
      RunNotDoomed(steps[1..], Do(from, steps[0]), to, n);
    }
  }

  function Faults(steps: seq<SStep>): nat {
    if steps == [] then 0 else (if Fault(steps[0]) then 1 else 0) + Faults(steps[1..])
  }

  /** As long as the Reader reads, one failed read is enough to doom it: the terminator's. */
  lemma {:induction false} OneFaultDooms(s: System, n: nat) returns (steps: seq<SStep>, end: System)
    requires SInv(s, n, 0) && s.r.loop
    ensures Run(steps, s, end) && Doomed(end) && Faults(steps) <= 1
    decreases SMeasure(s)
  {
    hide CanStep, Do, SInv, SMeasure, Doomed, Fault, Finished;
    if Doomed(s) {
      return [], s;
    }
    StillReading(s, n);
    var a := NoDeadlock(s, n);
    if a.OfReader? && a.rs.Receive? && a.rs.s == TERMINATOR {
      end := TerminatorFails(s, a.rs.i, a.rs.wake, n);
      steps := [OfReader(R.ReadFail(a.rs.i, a.rs.wake))];
      assert steps[1..] == [] && Faults([]) == 0;
    } else {
      StepMeasure(s, a);
      SInvKept(s, a, n, 0);
      LoopStays(s, a);
      steps, end := OneFaultDooms(Do(s, a), n);
      assert ([a] + steps)[1..] == steps;
      steps := [a] + steps;
    }
  }

  lemma StillReading(s: System, n: nat)
    requires SInv(s, n, 0) && s.r.loop
    ensures !Finished(s)
  {
    if Finished(s) { LoopFinished(s, n); assert false; }
  }

  lemma LoopStays(s: System, a: SStep)
    requires CanStep(s, a) && s.r.loop && !(a.OfReader? && a.rs.Receive? && a.rs.s == TERMINATOR)
    ensures Do(s, a).r.loop
  {
    hide Next, Enabled;
  }

  lemma TerminatorFails(s: System, i: nat, wake: set<nat>, n: nat) returns (end: System)
    requires SInv(s, n, 0) && s.r.loop && CanStep(s, OfReader(R.Receive(i, TERMINATOR, wake)))
    ensures var a := OfReader(R.ReadFail(i, wake)); CanStep(s, a) && end == Do(s, a) && Doomed(end)
  {
    hide SInv;
    var a := OfReader(R.ReadFail(i, wake));
    FailsInstead(s, i, TERMINATOR, wake);
    end := Do(s, a);
    SInvKept(s, a, n, 0);
    LoopStays(s, a);
    hide CanStep;
    assert end.d.taken[|end.d.taken| - 1] == TERMINATOR;
    TerminatorIsLast(end, n, 0);
    SentIsEnded(end, n, 0);
  }

  /** Where a read can succeed it can fail. */
  lemma FailsInstead(s: System, i: nat, text: Text, wake: set<nat>)
    requires CanStep(s, OfReader(R.Receive(i, text, wake)))
    ensures CanStep(s, OfReader(R.ReadFail(i, wake)))
  {
  }

  lemma SentIsEnded(s: System, n: nat, m: nat)
    requires SInv(s, n, m)
    ensures s.w.sent ==> s.w.ended
  {
  }
}
