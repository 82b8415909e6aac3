/**
 The Reader with a number of reads to make, against the Writer and the device: in which states
 its end can still be reached. Every string taken from the device counts, the terminator too,
 and a thread that gets the terminator stops while the others go on.
 */
module CountingReader {
  import opened Pipeline
  import opened PipelineRuns
  import opened Letters
  import opened WholeSystem
  import D = Device
  import W = WriterProcess
  import R = ReaderProcess

  /** A string that was tried five times in vain is about to be given up. */
  predicate Pending(w: W.Writer) {
    exists i :: 0 <= i < |w.p.sinks| && w.p.sinks[i].KBusy? && w.p.sinks[i].tries == W.MAX_RETRY
  }

  /** How many strings, the terminator included, the Writer will still send if no call fails. */
  function ToCome(w: W.Writer, n: nat): int {
    n - |w.written| - |w.lost| - (if Pending(w) then 1 else 0) + (if w.ended then 0 else 1)
  }

  /** The Writer's caller sleeps where no read can wake it. */
  predicate Stuck(s: System) {
    s.d.wSleep > 0 && s.d.fifo == []
  }

  function Supply(s: System, n: nat): int {
    if Stuck(s) then 0 else |s.d.fifo| + ToCome(s.w, n)
  }

  predicate TerminatorComes(s: System) {
    TERMINATOR in s.d.fifo || (!s.w.ended && !Stuck(s))
  }

  /** More reads are to be made than strings can come, and the terminator is not there to stop
      the only thread. */
  predicate Starved(s: System, n: nat) {
    s.r.todo > 0 && s.r.todo > Supply(s, n) && !(|s.r.p.sources| == 1 && (s.r.last || TerminatorComes(s)))
  }

  /** Only the terminator stops a thread before the count is reached, and it stops one. */
  ghost predicate OneStopped(r: R.Reader) {
    && (r.todo > 0 ==> forall i, j :: 0 <= i < j < |r.p.sources| ==> !r.p.sources[i].SDone? || !r.p.sources[j].SDone?)
    && (r.last ==> exists i :: 0 <= i < |r.p.sources| && r.p.sources[i].SDone?)
  }

  // How many strings there can be

  lemma {:induction false} FitsInto<S, T>(b: seq<T>, a: seq<S>, f: S -> T)
    requires forall z :: multiset(b)[z] <= Count(a, f, z)
    ensures |b| <= |a|
    decreases |b|
  {
    if b != [] {
      var m := |b| - 1;
      var z := b[m];
      assert b == b[..m] + [z] && multiset(b)[z] >= 1;
      var k := CountWitness(a, f, z);
      var a' := a[..k] + a[k + 1..];
      forall z' ensures multiset(b[..m])[z'] <= Count(a', f, z') { CountRemove(a, k, f, z'); }
      FitsInto(b[..m], a', f);
    }
  }

  lemma {:induction false} SinkCounted<T>(ks: seq<Sink<T>>, i: nat, y: T)
    requires i < |ks|
    ensures SinkHas(ks[i], y) <= SinksHave(ks, y)
  {
    if i < |ks| - 1 { SinkCounted(ks[..|ks| - 1], i, y); }
  }

  lemma WrittenAtMost(w: W.Writer, n: nat, i: nat)
    requires W.WInv(w, n)
    ensures |w.written| + |w.lost| <= n
    ensures i < |w.p.sinks| && w.p.sinks[i].KBusy? ==> |w.written| + |w.lost| + 1 <= n
  {
    var out := w.written + w.lost;
    forall z: W.Item ensures multiset(out)[z] <= Count(w.created, W.LowerItem, z) {
      assert multiset(out)[z] == multiset(w.written)[z] + multiset(w.lost)[z];
    }
    FitsInto(out, w.created, W.LowerItem);
    if i < |w.p.sinks| && w.p.sinks[i].KBusy? {
      var x := w.p.sinks[i].item;
      forall z: W.Item ensures multiset(out + [x])[z] <= Count(w.created, W.LowerItem, z) {
        SinkCounted(w.p.sinks, i, z);
        assert multiset(out + [x])[z] == multiset(w.written)[z] + multiset(w.lost)[z] + SinkHas(w.p.sinks[i], z);
      }
      FitsInto(out + [x], w.created, W.LowerItem);
    }
  }

  lemma {:induction false} FitsBack<S, T>(a: seq<S>, b: seq<T>, f: S -> T)
    requires forall z :: Count(a, f, z) == multiset(b)[z]
    ensures |a| <= |b|
    decreases |b|
  {
    if b == [] {
      if a != [] {
        assert Count(a, f, f(a[|a| - 1])) >= 1;
        assert false;
      }
    } else {
      var m := |b| - 1;
      var z := b[m];
      assert b == b[..m] + [z] && multiset(b)[z] >= 1;
      var k := CountWitness(a, f, z);
      var a' := a[..k] + a[k + 1..];
      forall z' ensures Count(a', f, z') == multiset(b[..m])[z'] { CountRemove(a, k, f, z'); }
      FitsBack(a', b[..m], f);
    }
  }

  lemma NoneBusyJoined(w: W.Writer, n: nat)
    requires W.WInv(w, n) && w.p.main.Joined?
    ensures !Pending(w) && |w.written| + |w.lost| == n
  {
    var out := w.written + w.lost;
    forall z: W.Item ensures Count(w.created, W.LowerItem, z) == multiset(out)[z] {
      JoinedIsEmpty(w.p, W.LowerItem, z);
      assert multiset(out)[z] == multiset(w.written)[z] + multiset(w.lost)[z];
    }
    FitsBack(w.created, out, W.LowerItem);
    WrittenAtMost(w, n, 0);
    assert w.p.sources[0].SDone?;
  }

  /** The Writer's own account of what is to come. */
  lemma ToComeBounds(w: W.Writer, n: nat)
    requires W.WInv(w, n)
    ensures if w.ended then ToCome(w, n) == 0 else ToCome(w, n) >= 1
  {
    if w.ended {
      NoneBusyJoined(w, n);
    } else {
      WrittenAtMost(w, n, 0);
      if Pending(w) {
        var i :| 0 <= i < |w.p.sinks| && w.p.sinks[i].KBusy? && w.p.sinks[i].tries == W.MAX_RETRY;
        WrittenAtMost(w, n, i);
      }
    }
  }

  // Steps of the Writer

  /** While one string is being written no other is about to be given up. */
  lemma NotPending(w: W.Writer, n: nat, i: nat)
    requires W.WInv(w, n) && i < |w.p.sinks| && w.p.sinks[i].KBusy? && w.p.sinks[i].tries < W.MAX_RETRY
    ensures !Pending(w)
  {
    forall j: nat | j < |w.p.sinks| && w.p.sinks[j].KBusy? ensures j == i {
      assert w.p.elock == BySink(i) && w.p.elock == BySink(j);
    }
  }

  lemma BusyKept(p: Pipe<W.Item>, a: Step<W.Item>, i: nat)
    requires Enabled(p, a) && W.Ordinary(a) && i < |p.sinks|
    ensures |Next(p, a, W.LowerItem).sinks| == |p.sinks|
    ensures var k := Next(p, a, W.LowerItem).sinks[i];
            (k.KBusy? && k.tries == 5) <==> (p.sinks[i].KBusy? && p.sinks[i].tries == 5)
  {
  }

  lemma SourceBusyKept(p: Pipe<W.Item>, a: Step<W.Item>)
    requires Enabled(p, a) && (a.SrcInsert? || a.SrcStop?)
    ensures Next(p, a, W.LowerItem).sinks == p.sinks
  {
  }

  lemma PendingKept(w: W.Writer, ws: W.WStep)
    requires W.CanStep(w, ws) && (ws.Internal? || ws.Create? || ws.StopCreate?)
    ensures Pending(W.Do(w, ws)) <==> Pending(w)
  {
    var p' := W.Do(w, ws).p;
    if ws.Internal? {
      assert |p'.sinks| == |w.p.sinks| by { ThreadsKept(w.p, ws.a, W.LowerItem); }
      forall i: nat | i < |w.p.sinks|
        ensures (p'.sinks[i].KBusy? && p'.sinks[i].tries == 5) <==> (w.p.sinks[i].KBusy? && w.p.sinks[i].tries == 5)
      {
        BusyKept(w.p, ws.a, i);
      }
      hide Next, Enabled;
    } else {
      SourceBusyKept(w.p, W.Behind(w, ws));
      hide Next, Enabled;
    }
  }

  lemma FinishFrees(w: W.Writer, n: nat, i: nat)
    requires W.WInv(w, n) && i < |w.p.sinks| && w.p.sinks[i].KBusy?
    ensures !Pending(w.(p := Next(w.p, SinkFinish(i), W.LowerItem)))
  {
    forall j: nat | j < |w.p.sinks| && w.p.sinks[j].KBusy? ensures j == i {
      assert w.p.elock == BySink(i) && w.p.elock == BySink(j);
    }
  }

  /** What a step of the Writer does to what is to come: a successful call sends one of them, a
      failed one may cost one, any other step none. */
  lemma WriterToCome(w: W.Writer, ws: W.WStep, n: nat)
    requires W.WInv(w, n) && W.CanStep(w, ws)
    ensures ws.WriteOk? || ws.SendDone? ==> ToCome(W.Do(w, ws), n) == ToCome(w, n) - 1
    ensures ws.WriteFail? || ws.DoneFail? ==> ToCome(W.Do(w, ws), n) <= ToCome(w, n)
    ensures !ws.WriteOk? && !ws.SendDone? && !ws.WriteFail? && !ws.DoneFail? ==> ToCome(W.Do(w, ws), n) == ToCome(w, n)
  {
    match ws
    case WriteOk(i) => NotPending(w, n, i); FinishFrees(w, n, i); hide Next, W.WInv;
    case GiveUp(i) => FinishFrees(w, n, i); hide Next, W.WInv;
    case WriteFail(i) => NotPending(w, n, i); hide Next, W.WInv;
    case SendDone => hide W.WInv;
    case DoneFail => hide W.WInv;
    case _ => PendingKept(w, ws); hide Next, W.WInv;
  }

  // Supply and demand

  function Takes(a: SStep): nat {
    if a.OfReader? && ReaderOp(a.rs) != [] then 1 else 0
  }

  lemma SupplyPositive(s: System, n: nat, m: nat)
    requires SInv(s, n, m)
    ensures Supply(s, n) >= |s.d.fifo|
  {
    ToComeBounds(s.w, n);
  }

  lemma WriterSupply(s: System, ws: W.WStep, n: nat, m: nat)
    requires SInv(s, n, m) && CanStep(s, OfWriter(ws))
    ensures Supply(Do(s, OfWriter(ws)), n) <= Supply(s, n)
    ensures !Fault(OfWriter(ws)) ==> Supply(Do(s, OfWriter(ws)), n) == Supply(s, n)
  {
    ToComeBounds(s.w, n);
    WriterToCome(s.w, ws, n);
    W.WInvKept(s.w, ws, n);
    ToComeBounds(W.Do(s.w, ws), n);
    hide SInv, ToCome, W.CanStep, W.Do;
  }

  lemma ReaderSupply(s: System, rs: R.RStep, n: nat, m: nat)
    requires SInv(s, n, m) && CanStep(s, OfReader(rs))
    ensures Supply(Do(s, OfReader(rs)), n) <= Supply(s, n) - Takes(OfReader(rs))
    ensures !Fault(OfReader(rs)) ==> Supply(Do(s, OfReader(rs)), n) == Supply(s, n) - Takes(OfReader(rs))
  {
    ToComeBounds(s.w, n);
    hide SInv, ToCome, R.CanStep, R.Do;
  }

  /** No step adds to what the Reader can still get, and only failures take from it beyond what
      is read. */
  lemma SupplyStep(s: System, a: SStep, n: nat, m: nat)
    requires SInv(s, n, m) && CanStep(s, a)
    ensures Supply(Do(s, a), n) <= Supply(s, n) - Takes(a)
    ensures !Fault(a) ==> Supply(Do(s, a), n) == Supply(s, n) - Takes(a)
  {
    match a
    case OfWriter(ws) => hide SInv, Supply, CanStep, Do; WriterSupply(s, ws, n, m);
    case OfReader(rs) => hide SInv, Supply, CanStep, Do; ReaderSupply(s, rs, n, m);
    case _ => hide SInv, ToCome;
  }

  /** The count goes down with every string taken. */
  lemma DemandStep(s: System, a: SStep, m: nat)
    requires CanStep(s, a) && !s.r.loop && s.r.todo > 0
    ensures Do(s, a).r.todo == s.r.todo - Takes(a) && !Do(s, a).r.loop
    ensures |Do(s, a).r.p.sources| == |s.r.p.sources|
  {
    if a.OfReader? {
      ThreadsKept(s.r.p, R.Behind(a.rs), Upper);
      hide Next;
    }
  }

  lemma CountMode(s: System, n: nat, m: nat)
    requires SInv(s, n, m) && m > 0
    ensures !s.r.loop && (forall i :: 0 <= i < |s.r.p.sources| && s.r.p.sources[i].SDone? ==> s.r.last || s.r.todo <= 0)
    ensures |s.r.p.sources| >= 1
  {
  }

  // Threads that stopped

  lemma SourcesStop(r: R.Reader, rs: R.RStep, i: nat)
    requires R.CanStep(r, rs) && i < |r.p.sources|
    ensures var r' := R.Do(r, rs);
            && |r'.p.sources| == |r.p.sources|
            && (r.p.sources[i].SDone? ==> r'.p.sources[i].SDone?)
            && (r'.p.sources[i].SDone? && !r.p.sources[i].SDone? ==>
                  (rs.StopRead? && rs.i == i) || (rs.Receive? && rs.s == TERMINATOR && rs.i == i))
            && (rs.Receive? && rs.s == TERMINATOR && rs.i == i ==> r'.p.sources[i].SDone?)
  {
    StopsOnly(r.p, R.Behind(rs), i);
    hide Next, Enabled;
  }

  /** A source ends by stopping, and then for good. */
  lemma StopsOnly(p: Pipe<Text>, a: Step<Text>, i: nat)
    requires Enabled(p, a) && i < |p.sources|
    ensures var p' := Next(p, a, Upper);
            && |p'.sources| == |p.sources| && (p.sources[i].SDone? ==> p'.sources[i].SDone?)
            && (p'.sources[i].SDone? && !p.sources[i].SDone? ==> a.SrcStop? && a.i == i)
            && (a.SrcStop? && a.i == i ==> p'.sources[i].SDone?)
  {
  }

  lemma OneStoppedKept(s: System, a: SStep, n: nat, m: nat)
    requires SInv(s, n, m) && m > 0 && CanStep(s, a) && OneStopped(s.r)
    ensures OneStopped(Do(s, a).r)
  {
    if a.OfReader? {
      CountMode(s, n, m);
      if a.rs.Receive? { NotYetLast(s, n, m); }
      ReaderOneStopped(s.r, a.rs);
    }
  }

  lemma ReaderOneStopped(r: R.Reader, rs: R.RStep)
    requires R.CanStep(r, rs) && OneStopped(r) && !r.loop && (rs.Receive? ==> !r.last)
    requires forall i :: 0 <= i < |r.p.sources| && r.p.sources[i].SDone? ==> r.last || r.todo <= 0
    ensures OneStopped(R.Do(r, rs))
  {
    var r' := R.Do(r, rs);
    ThreadsKept(r.p, R.Behind(rs), Upper);
    forall i: nat | i < |r.p.sources|
      ensures r.p.sources[i].SDone? ==> r'.p.sources[i].SDone?
      ensures r'.p.sources[i].SDone? && !r.p.sources[i].SDone? ==>
                (rs.StopRead? && rs.i == i) || (rs.Receive? && rs.s == TERMINATOR && rs.i == i)
    {
      SourcesStop(r, rs, i);
    }
    if rs.Receive? && rs.s == TERMINATOR {
      SourcesStop(r, rs, rs.i);
      assert r'.p.sources[rs.i].SDone?;
    } else if r.last {
      var i :| 0 <= i < |r.p.sources| && r.p.sources[i].SDone?;
      assert r'.p.sources[i].SDone?;
    }
    hide Next, Enabled;
  }

  // Starved for ever

  lemma StarvedStays(s: System, a: SStep, n: nat, m: nat)
    requires SInv(s, n, m) && m > 0 && CanStep(s, a) && Starved(s, n)
    ensures Starved(Do(s, a), n)
  {
    CountMode(s, n, m);
    SupplyStep(s, a, n, m);
    SupplyPositive(s, n, m);
    DemandStep(s, a, m);
    if a.OfReader? && ReaderOp(a.rs) != [] { assert s.d.fifo != []; }
    if |s.r.p.sources| == 1 { TerminatorStaysAway(s, a, n, m); }
    hide Supply, SInv, CanStep, Do;
  }

  lemma TerminatorStaysAway(s: System, a: SStep, n: nat, m: nat)
    requires SInv(s, n, m) && CanStep(s, a) && !s.r.last && !TerminatorComes(s)
    ensures !Do(s, a).r.last && !TerminatorComes(Do(s, a))
  {
    if a.OfWriter? && s.w.ended { EndedIsQuiet(s.w, a.ws, n); }
    hide SInv, Next, Enabled;
    match a
    case OfWriter(ws) => hide R.Do;
    case OfReader(rs) => hide W.Do;
    case _ => hide R.Do, W.Do;
  }

  lemma StarvedNotFinished(s: System, n: nat, m: nat)
    requires SInv(s, n, m) && m > 0 && OneStopped(s.r) && Starved(s, n)
    ensures !Finished(s)
  {
    CountMode(s, n, m);
    Stopped(s, n, m, 0);
    if |s.r.p.sources| > 1 { Stopped(s, n, m, 1); }
    hide SInv, Supply;
  }

  lemma Stopped(s: System, n: nat, m: nat, i: nat)
    requires SInv(s, n, m) && i < |s.r.p.sources|
    ensures Finished(s) ==> s.r.p.sources[i].SDone?
  {
  }

  lemma {:induction false} StarvedForever(steps: seq<SStep>, from: System, to: System, n: nat, m: nat)
    requires Run(steps, from, to) && SInv(from, n, m) && m > 0 && OneStopped(from.r) && Starved(from, n)
    ensures !Finished(to)
    decreases |steps|
  {
    hide SInv, CanStep, Do, Starved, OneStopped, Finished;
    if steps == [] {
      StarvedNotFinished(from, n, m);
    } else {
      StarvedStays(from, steps[0], n, m);
      OneStoppedKept(from, steps[0], n, m);
      SInvKept(from, steps[0], n, m);
      StarvedForever(steps[1..], Do(from, steps[0]), to, n, m);
    }
  }

  // Otherwise the end can be reached

  lemma NotStarvedKept(s: System, a: SStep, n: nat, m: nat)
    requires SInv(s, n, m) && m > 0 && CanStep(s, a) && !Fault(a) && !Starved(s, n)
    ensures !Starved(Do(s, a), n)
  {
    CountMode(s, n, m);
    if s.r.todo > 0 {
      SupplyStep(s, a, n, m);
      DemandStep(s, a, m);
      if |s.r.p.sources| == 1 && (s.r.last || TerminatorComes(s)) { TerminatorStaysNear(s, a, n, m); }
    } else {
      CountedOut(s, a);
    }
    hide Supply, SInv, CanStep, Do;
  }

  lemma CountedOut(s: System, a: SStep)
    requires CanStep(s, a) && !s.r.loop && s.r.todo <= 0
    ensures Do(s, a).r.todo <= 0
  {
    hide Next, Enabled;
  }

  lemma TerminatorStaysNear(s: System, a: SStep, n: nat, m: nat)
    requires SInv(s, n, m) && CanStep(s, a) && !Fault(a) && (s.r.last || TerminatorComes(s))
    ensures Do(s, a).r.last || TerminatorComes(Do(s, a))
  {
    hide SInv, Next, Enabled;
    match a
    case OfWriter(ws) =>
      if ws.SendDone? {
        var d' := Do(s, a).d;
        assert d'.fifo[|d'.fifo| - 1] == TERMINATOR;
      }
    case OfReader(rs) =>
      if rs.Receive? && TERMINATOR in s.d.fifo && s.d.fifo[0] != TERMINATOR { assert TERMINATOR in s.d.fifo[1..]; }
    case _ =>
  }

  lemma CountingProgress(s: System, n: nat, m: nat) returns (a: SStep)
    requires SInv(s, n, m) && m > 0 && OneStopped(s.r) && !Finished(s) && !Starved(s, n)
    ensures CanStep(s, a) && !Idle(a) && !Fault(a)
  {
    var rs := R.RProgress(s.r, m);
    if !rs.Receive? {
      a := OfReader(rs);
    } else if s.d.fifo != [] {
      var wake := R.SomeSignal(s.r.p.elabs);
      a := OfReader(R.Receive(rs.i, s.d.fifo[0], wake));
    } else {
      ToComeBounds(s.w, n);
      NotLastWhileReading(s, rs.i, n, m);
      a := WriterGoesOn(s, n, m);
    }
  }

  lemma NotLastWhileReading(s: System, i: nat, n: nat, m: nat)
    requires SInv(s, n, m) && m > 0 && OneStopped(s.r) && i < |s.r.p.sources| && s.r.p.sources[i].SHolds? && R.Reading(s.r)
    ensures s.r.todo > 0 && (|s.r.p.sources| == 1 ==> !s.r.last)
  {
    CountMode(s, n, m);
  }

  lemma WriterGoesOn(s: System, n: nat, m: nat) returns (a: SStep)
    requires SInv(s, n, m) && s.d.fifo == [] && !s.w.ended && s.d.wSleep == 0
    ensures CanStep(s, a) && !Idle(a) && !Fault(a)
  {
    var ws := W.WProgress(s.w, n);
    hide W.WInv, R.RInv, W.CanStep;
    a := OfWriter(ws);
  }

  lemma {:induction false} CanFinishCounting(s: System, n: nat, m: nat) returns (steps: seq<SStep>, end: System)
    requires SInv(s, n, m) && m > 0 && OneStopped(s.r) && !Starved(s, n)
    ensures Run(steps, s, end) && Finished(end) && Faultless(steps)
    ensures forall k :: 0 <= k < |steps| ==> !Idle(steps[k])
    decreases SMeasure(s)
  {
    hide CanStep, Do, SInv, SMeasure, Idle, Starved, Fault, OneStopped;
    if Finished(s) {
      return [], s;
    }
    var a := CountingProgress(s, n, m);
    StepMeasure(s, a);
    SInvKept(s, a, n, m);
    OneStoppedKept(s, a, n, m);
    NotStarvedKept(s, a, n, m);
    steps, end := CanFinishCounting(Do(s, a), n, m);
    assert ([a] + steps)[1..] == steps;
    steps := [a] + steps;
  }

  lemma {:induction false} RunOneStopped(steps: seq<SStep>, from: System, to: System, n: nat, m: nat)
    requires Run(steps, from, to) && SInv(from, n, m) && m > 0 && OneStopped(from.r)
    ensures OneStopped(to.r)
    ensures Faultless(steps) && !Starved(from, n) ==> !Starved(to, n)
    decreases |steps|
  {
    hide SInv, CanStep, Do, OneStopped, Starved, Fault;
    if steps != [] {
      OneStoppedKept(from, steps[0], n, m);
      SInvKept(from, steps[0], n, m);
      if Faultless(steps) && !Starved(from, n) { NotStarvedKept(from, steps[0], n, m); }
      RunOneStopped(steps[1..], Do(from, steps[0]), to, n, m);
    }
  }

  /** In every reachable state, for a Reader that makes m reads: its end can still be reached
      exactly when it is not starved. Without failures that is so all along if m is at most one
      more than the number of strings, or the Reader has a single reading thread. */
  lemma CountingFinishReachable(steps: seq<SStep>, n: nat, nct: nat, net: nat, nwt: nat,
                                m: nat, nrt: nat, ner: nat, npt: nat, s: System)
    requires nct > 0 && net > 0 && nwt > 0 && nrt > 0 && ner > 0 && npt > 0 && m > 0
    requires Run(steps, Begin(n, nct, net, nwt, m, nrt, ner, npt), s)
    ensures !Starved(s, n) <==> exists more, end :: Run(more, s, end) && Finished(end)
    ensures Faultless(steps) && (m <= n + 1 || nrt == 1) ==> !Starved(s, n)
    ensures m > n + 1 && nrt > 1 ==> !Finished(s)
  {
    var s0 := Begin(n, nct, net, nwt, m, nrt, ner, npt);
    BeginInv(n, nct, net, nwt, m, nrt, ner, npt);
    BeginSupply(n, nct, net, nwt, m, nrt, ner, npt);
    RunInv(steps, s0, s, n, m);
    hide SInv, Starved, Finished, OneStopped, Begin;
    RunOneStopped(steps, s0, s, n, m);
    if m > n + 1 && nrt > 1 { StarvedForever(steps, s0, s, n, m); }
    if !Starved(s, n) {
      var more, end := CanFinishCounting(s, n, m);
      assert Run(more, s, end) && Finished(end);
    } else {
      forall more, end | Run(more, s, end) ensures !Finished(end) { StarvedForever(more, s, end, n, m); }
    }
  }

  lemma BeginSupply(n: nat, nct: nat, net: nat, nwt: nat, m: nat, nrt: nat, ner: nat, npt: nat)
    requires nrt > 0 && m > 0
    ensures var s := Begin(n, nct, net, nwt, m, nrt, ner, npt);
            OneStopped(s.r) && Supply(s, n) == n + 1 && (Starved(s, n) <==> m > n + 1 && nrt > 1)
  {
  }
}
