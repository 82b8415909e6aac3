/**
 The three-stage thread pipeline shared by the Writer and the Reader: sources fill a raw
 buffer, elaborators move items to an elaborated buffer, sinks drain it, and the main thread
 closes the buffers in turn. Any number of threads per stage; POSIX mutexes and condition
 variables (IEEE Std 1003.1). Every acquisition of a mutex is a step, and so is each critical
 section up to its release.
 */
module Pipeline {

  /** Holds: inside the critical section. Asleep: in pthread_cond_wait, mutex released. A
      thread that is woken has to take the mutex again and test again, as if it were idle. */
  datatype Source = SIdle | SHolds | SDone
  datatype Elab<T> = EIdle | EHolds | EAsleep | ERaw(raw: T) | EReady(item: T) | EDone
  datatype Sink<T> = KIdle | KHolds | KAsleep | KBusy(item: T, tries: nat) | KDone
  datatype Main = JoinSources | CloseRaw | JoinElabs | CloseElab | JoinSinks | Joined

  datatype Owner = Nobody | BySource(i: nat) | ByElab(i: nat) | BySink(i: nat) | ByMain

  datatype Pipe<T> = Pipe(
    rbuf: seq<T>, rdone: bool, rlock: Owner,
    ebuf: seq<T>, edone: bool, elock: Owner,
    sources: seq<Source>, elabs: seq<Elab<T>>, sinks: seq<Sink<T>>, main: Main)

  /** `wake` names the sleepers that a signal or broadcast wakes. Spurious wakeups are steps. */
  datatype Step<T> =
    | SrcLock(i: nat)
    | SrcInsert(i: nat, x: T, wake: set<nat>)
    | SrcAgain(i: nat, wake: set<nat>)
    | SrcStop(i: nat, wake: set<nat>)
    | ElabLock(i: nat) | ElabSleep(i: nat) | ElabExit(i: nat) | ElabTake(i: nat)
    | ElabLockE(i: nat) | ElabInsert(i: nat, wake: set<nat>) | ElabSpurious(i: nat)
    | SinkLock(i: nat) | SinkSleep(i: nat) | SinkExit(i: nat) | SinkTake(i: nat)
    | SinkRetry(i: nat) | SinkFinish(i: nat) | SinkSpurious(i: nat)
    | MainLockR | MainCloseR | MainLockE | MainCloseE | MainJoin

  function WakeElabs<T>(es: seq<Elab<T>>, wake: set<nat>): seq<Elab<T>> {
    seq(|es|, i requires 0 <= i < |es| => if i in wake && es[i].EAsleep? then EIdle else es[i])
  }

  function WakeSinks<T>(ks: seq<Sink<T>>, wake: set<nat>): seq<Sink<T>> {
    seq(|ks|, i requires 0 <= i < |ks| => if i in wake && ks[i].KAsleep? then KIdle else ks[i])
  }

  /** pthread_cond_signal wakes at least one sleeper, if there is one. */
  predicate SignalsElab<T>(es: seq<Elab<T>>, wake: set<nat>) {
    (exists i :: 0 <= i < |es| && es[i].EAsleep?) ==> exists i :: i in wake && i < |es| && es[i].EAsleep?
  }

  predicate SignalsSink<T>(ks: seq<Sink<T>>, wake: set<nat>) {
    (exists i :: 0 <= i < |ks| && ks[i].KAsleep?) ==> exists i :: i in wake && i < |ks| && ks[i].KAsleep?
  }

  /** pthread_cond_broadcast. */
  function WakeAllElabs<T>(es: seq<Elab<T>>): seq<Elab<T>> {
    seq(|es|, i requires 0 <= i < |es| => if es[i].EAsleep? then EIdle else es[i])
  }

  function WakeAllSinks<T>(ks: seq<Sink<T>>): seq<Sink<T>> {
    seq(|ks|, i requires 0 <= i < |ks| => if ks[i].KAsleep? then KIdle else ks[i])
  }

  predicate Enabled<T>(p: Pipe<T>, a: Step<T>) {
    match a
    case SrcLock(i) => i < |p.sources| && p.sources[i].SIdle? && p.rlock.Nobody?
    case SrcInsert(i, _, wake) => i < |p.sources| && p.sources[i].SHolds? && SignalsElab(p.elabs, wake)
    case SrcAgain(i, _) => i < |p.sources| && p.sources[i].SHolds?
    case SrcStop(i, _) => i < |p.sources| && p.sources[i].SHolds?
    case ElabLock(i) => i < |p.elabs| && p.elabs[i].EIdle? && p.rlock.Nobody?
    case ElabSleep(i) => i < |p.elabs| && p.elabs[i].EHolds? && p.rbuf == [] && !p.rdone
    case ElabExit(i) => i < |p.elabs| && p.elabs[i].EHolds? && p.rbuf == [] && p.rdone
    case ElabTake(i) => i < |p.elabs| && p.elabs[i].EHolds? && p.rbuf != []
    case ElabLockE(i) => i < |p.elabs| && p.elabs[i].ERaw? && p.elock.Nobody?
    case ElabInsert(i, wake) => i < |p.elabs| && p.elabs[i].EReady? && SignalsSink(p.sinks, wake)
    case ElabSpurious(i) => i < |p.elabs| && p.elabs[i].EAsleep?
    case SinkLock(i) => i < |p.sinks| && p.sinks[i].KIdle? && p.elock.Nobody?
    case SinkSleep(i) => i < |p.sinks| && p.sinks[i].KHolds? && p.ebuf == [] && !p.edone
    case SinkExit(i) => i < |p.sinks| && p.sinks[i].KHolds? && p.ebuf == [] && p.edone
    case SinkTake(i) => i < |p.sinks| && p.sinks[i].KHolds? && p.ebuf != []
    case SinkRetry(i) => i < |p.sinks| && p.sinks[i].KBusy? && p.sinks[i].tries < 5
    case SinkFinish(i) => i < |p.sinks| && p.sinks[i].KBusy?
    case SinkSpurious(i) => i < |p.sinks| && p.sinks[i].KAsleep?
    case MainLockR => p.main.JoinSources? && p.rlock.Nobody? && forall j :: 0 <= j < |p.sources| ==> p.sources[j].SDone?
    case MainCloseR => p.main.CloseRaw?
    case MainLockE => p.main.JoinElabs? && p.elock.Nobody? && forall j :: 0 <= j < |p.elabs| ==> p.elabs[j].EDone?
    case MainCloseE => p.main.CloseElab?
    case MainJoin => p.main.JoinSinks? && forall j :: 0 <= j < |p.sinks| ==> p.sinks[j].KDone?
  }

  /** `f` is the elaboration, to_lower in the Writer and to_upper in the Reader. */
  function Next<T>(p: Pipe<T>, a: Step<T>, f: T -> T): Pipe<T>
    requires Enabled(p, a)
  {
    match a
    case SrcLock(i) => p.(rlock := BySource(i), sources := p.sources[i := SHolds])
    case SrcInsert(i, x, wake) =>
      p.(rlock := Nobody, sources := p.sources[i := SIdle], rbuf := p.rbuf + [x], elabs := WakeElabs(p.elabs, wake))
    case SrcAgain(i, wake) => p.(rlock := Nobody, sources := p.sources[i := SIdle], elabs := WakeElabs(p.elabs, wake))
    case SrcStop(i, wake) => p.(rlock := Nobody, sources := p.sources[i := SDone], elabs := WakeElabs(p.elabs, wake))
    case ElabLock(i) => p.(rlock := ByElab(i), elabs := p.elabs[i := EHolds])
    case ElabSleep(i) => p.(rlock := Nobody, elabs := p.elabs[i := EAsleep])
    case ElabExit(i) => p.(rlock := Nobody, elabs := p.elabs[i := EDone])
    case ElabTake(i) => p.(rlock := Nobody, elabs := p.elabs[i := ERaw(p.rbuf[0])], rbuf := p.rbuf[1..])
    case ElabLockE(i) => p.(elock := ByElab(i), elabs := p.elabs[i := EReady(f(p.elabs[i].raw))])
    case ElabInsert(i, wake) =>
      p.(elock := Nobody, elabs := p.elabs[i := EIdle], ebuf := p.ebuf + [p.elabs[i].item], sinks := WakeSinks(p.sinks, wake))
    case ElabSpurious(i) => p.(elabs := p.elabs[i := EIdle])
    case SinkLock(i) => p.(elock := BySink(i), sinks := p.sinks[i := KHolds])
    case SinkSleep(i) => p.(elock := Nobody, sinks := p.sinks[i := KAsleep])
    case SinkExit(i) => p.(elock := Nobody, sinks := p.sinks[i := KDone])
    case SinkTake(i) => p.(sinks := p.sinks[i := KBusy(p.ebuf[0], 0)], ebuf := p.ebuf[1..])
    case SinkRetry(i) => p.(sinks := p.sinks[i := KBusy(p.sinks[i].item, p.sinks[i].tries + 1)])
    case SinkFinish(i) => p.(elock := Nobody, sinks := p.sinks[i := KIdle])
    case SinkSpurious(i) => p.(sinks := p.sinks[i := KIdle])
    case MainLockR => p.(rlock := ByMain, main := CloseRaw)
    case MainCloseR => p.(rlock := Nobody, rdone := true, elabs := WakeAllElabs(p.elabs), main := JoinElabs)
    case MainLockE => p.(elock := ByMain, main := CloseElab)
    case MainCloseE => p.(elock := Nobody, edone := true, sinks := WakeAllSinks(p.sinks), main := JoinSinks)
    case MainJoin => p.(main := Joined)
  }

  function Start<T>(ns: nat, ne: nat, nk: nat): Pipe<T> {
    Pipe([], false, Nobody, [], false, Nobody, seq(ns, _ => SIdle), seq(ne, _ => EIdle), seq(nk, _ => KIdle), JoinSources)
  }

  // What every step keeps

  /** Each mutex is held by the thread that is in its critical section, and by nobody else. */
  ghost predicate Locks<T>(p: Pipe<T>) {
    && (forall i: nat :: i < |p.sources| ==> (p.sources[i].SHolds? <==> p.rlock == BySource(i)))
    && (forall i: nat :: i < |p.elabs| ==> (p.elabs[i].EHolds? <==> p.rlock == ByElab(i)))
    && (forall i: nat :: i < |p.elabs| ==> (p.elabs[i].EReady? <==> p.elock == ByElab(i)))
    && (forall i: nat :: i < |p.sinks| ==> (p.sinks[i].KHolds? || p.sinks[i].KBusy? <==> p.elock == BySink(i)))
    && (p.rlock.ByMain? <==> p.main.CloseRaw?)
    && (p.elock.ByMain? <==> p.main.CloseElab?)
    && (p.rlock.BySource? ==> p.rlock.i < |p.sources|) && !p.rlock.BySink?
    && (p.rlock.ByElab? ==> p.rlock.i < |p.elabs|) && !p.elock.BySource?
    && (p.elock.ByElab? ==> p.elock.i < |p.elabs|)
    && (p.elock.BySink? ==> p.elock.i < |p.sinks|)
  }

  /** The staged shutdown: a buffer is closed only after its producers have ended, and a
      consumer ends only when its buffer is closed and empty. */
  ghost predicate Stages<T>(p: Pipe<T>) {
    && (p.rdone <==> !p.main.JoinSources? && !p.main.CloseRaw?)
    && (p.edone <==> p.main.JoinSinks? || p.main.Joined?)
    && (!p.main.JoinSources? ==> forall i :: 0 <= i < |p.sources| ==> p.sources[i].SDone?)
    && (p.main.CloseElab? || p.edone ==> forall i :: 0 <= i < |p.elabs| ==> p.elabs[i].EDone?)
    && (p.main.Joined? ==> forall i :: 0 <= i < |p.sinks| ==> p.sinks[i].KDone?)
    && (forall i :: 0 <= i < |p.elabs| && p.elabs[i].EDone? ==> p.rdone && p.rbuf == [])
    && (forall i :: 0 <= i < |p.sinks| && p.sinks[i].KDone? ==> p.edone && p.ebuf == [])
    && (forall i :: 0 <= i < |p.sinks| && p.sinks[i].KBusy? ==> p.sinks[i].tries <= 5)
  }

  predicate AwakeElab<T>(e: Elab<T>) {
    !e.EAsleep? && !e.EDone?
  }

  predicate AwakeSink<T>(k: Sink<T>) {
    !k.KAsleep? && !k.KDone?
  }

  /** No lost wakeup: nobody sleeps on a closed buffer, and while someone sleeps on one that
      is not empty, another consumer is awake and will come back to it. */
  ghost predicate ElabWakeups<T>(p: Pipe<T>) {
    && (forall i :: 0 <= i < |p.elabs| && p.elabs[i].EAsleep? ==> !p.rdone)
    && ((exists i :: 0 <= i < |p.elabs| && p.elabs[i].EAsleep?) && p.rbuf != [] ==>
          exists j :: 0 <= j < |p.elabs| && AwakeElab(p.elabs[j]))
  }

  ghost predicate SinkWakeups<T>(p: Pipe<T>) {
    && (forall i :: 0 <= i < |p.sinks| && p.sinks[i].KAsleep? ==> !p.edone)
    && ((exists i :: 0 <= i < |p.sinks| && p.sinks[i].KAsleep?) && p.ebuf != [] ==>
          exists j :: 0 <= j < |p.sinks| && AwakeSink(p.sinks[j]))
  }

  ghost predicate Inv<T>(p: Pipe<T>) {
    Locks(p) && Stages(p) && ElabWakeups(p) && SinkWakeups(p)
  }

  predicate OfSource<T>(a: Step<T>) {
    a.SrcLock? || a.SrcInsert? || a.SrcAgain? || a.SrcStop?
  }

  predicate OfElab<T>(a: Step<T>) {
    a.ElabLock? || a.ElabSleep? || a.ElabExit? || a.ElabTake? || a.ElabLockE? || a.ElabInsert? || a.ElabSpurious?
  }

  predicate OfSink<T>(a: Step<T>) {
    a.SinkLock? || a.SinkSleep? || a.SinkExit? || a.SinkTake? || a.SinkRetry? || a.SinkFinish? || a.SinkSpurious?
  }

  lemma SourceKeeps<T>(p: Pipe<T>, a: Step<T>, f: T -> T)
    requires Locks(p) && Stages(p) && Enabled(p, a) && OfSource(a)
    ensures Locks(Next(p, a, f)) && Stages(Next(p, a, f))
  {
  }

  lemma ElabKeepsLocks<T>(p: Pipe<T>, a: Step<T>, f: T -> T)
    requires Locks(p) && Enabled(p, a) && OfElab(a)
    ensures Locks(Next(p, a, f))
  {
  }

  lemma ElabKeepsStages<T>(p: Pipe<T>, a: Step<T>, f: T -> T)
    requires Locks(p) && Stages(p) && Enabled(p, a) && OfElab(a)
    ensures Stages(Next(p, a, f))
  {
  }

  lemma SinkKeepsLocks<T>(p: Pipe<T>, a: Step<T>, f: T -> T)
    requires Locks(p) && Enabled(p, a) && OfSink(a)
    ensures Locks(Next(p, a, f))
  {
  }

  lemma SinkTouches<T>(p: Pipe<T>, a: Step<T>, f: T -> T)
    requires Enabled(p, a) && OfSink(a)
    ensures var p' := Next(p, a, f);
            && (p'.rbuf, p'.rdone, p'.sources, p'.elabs) == (p.rbuf, p.rdone, p.sources, p.elabs)
            && p'.main == p.main && p'.edone == p.edone && (p.ebuf == [] ==> p'.ebuf == [])
            && a.i < |p.sinks| == |p'.sinks| && p'.sinks == p.sinks[a.i := p'.sinks[a.i]] && !p.sinks[a.i].KDone?
            && (p'.sinks[a.i].KDone? ==> p.edone && p.ebuf == [])
            && (p'.sinks[a.i].KBusy? ==> p'.sinks[a.i].tries <= 5)
  {
  }

  lemma SinkKeepsStages<T>(p: Pipe<T>, a: Step<T>, f: T -> T)
    requires Stages(p) && Enabled(p, a) && OfSink(a)
    ensures Stages(Next(p, a, f))
  {
    SinkTouches(p, a, f);
    hide Next, Enabled;
  }

  lemma MainKeeps<T>(p: Pipe<T>, a: Step<T>, f: T -> T)
    requires Locks(p) && Stages(p) && Enabled(p, a) && !OfSource(a) && !OfElab(a) && !OfSink(a)
    ensures Locks(Next(p, a, f)) && Stages(Next(p, a, f))
  {
  }

  /** An awake consumer stays awake, or goes to sleep or ends on an empty buffer; and only then
      does one fall asleep. */
  lemma ElabStaysAwake<T>(p: Pipe<T>, a: Step<T>, f: T -> T, j: nat)
    requires Enabled(p, a) && j < |p.elabs|
    ensures |Next(p, a, f).elabs| == |p.elabs|
    ensures AwakeElab(p.elabs[j]) && p.rbuf != [] ==> AwakeElab(Next(p, a, f).elabs[j])
    ensures Next(p, a, f).elabs[j].EAsleep? ==> p.elabs[j].EAsleep? || (p.rbuf == [] && Next(p, a, f).rbuf == [] && !p.rdone)
  {
  }

  lemma ElabSignalled<T>(p: Pipe<T>, a: Step<T>, f: T -> T)
    requires Enabled(p, a) && a.SrcInsert? && exists i :: 0 <= i < |p.elabs| && p.elabs[i].EAsleep?
    ensures exists j :: 0 <= j < |Next(p, a, f).elabs| && AwakeElab(Next(p, a, f).elabs[j])
  {
    var j :| j in a.wake && j < |p.elabs| && p.elabs[j].EAsleep?;
    assert AwakeElab(Next(p, a, f).elabs[j]);
  }

  lemma RawBuffer<T>(p: Pipe<T>, a: Step<T>, f: T -> T)
    requires Enabled(p, a)
    ensures Next(p, a, f).rbuf != [] ==> p.rbuf != [] || a.SrcInsert?
    ensures Next(p, a, f).rdone <==> p.rdone || a.MainCloseR?
    ensures a.MainCloseR? ==> forall i :: 0 <= i < |p.elabs| ==> !Next(p, a, f).elabs[i].EAsleep?
  {
  }

  lemma ElabWakeupsKept<T>(p: Pipe<T>, a: Step<T>, f: T -> T)
    requires Inv(p) && Enabled(p, a)
    ensures ElabWakeups(Next(p, a, f))
  {
    var p' := Next(p, a, f);
    assert ElabWakeups(p);
    hide Locks, Stages, SinkWakeups, Next, Enabled;
    RawBuffer(p, a, f);
    forall i: nat | i < |p.elabs| ensures |p'.elabs| == |p.elabs| && (p'.elabs[i].EAsleep? ==> !p'.rdone) {
      ElabStaysAwake(p, a, f, i);
    }
    ElabsSame(p, a, f);
    if i :| 0 <= i < |p'.elabs| && p'.elabs[i].EAsleep? && p'.rbuf != [] {
      ElabStaysAwake(p, a, f, i);
      if p.rbuf != [] {
        var j :| 0 <= j < |p.elabs| && AwakeElab(p.elabs[j]);
        ElabStaysAwake(p, a, f, j);
      } else {
        ElabSignalled(p, a, f);
      }
    }
  }

  lemma ElabsSame<T>(p: Pipe<T>, a: Step<T>, f: T -> T)
    requires Enabled(p, a)
    ensures |Next(p, a, f).elabs| == |p.elabs|
  {
  }

  lemma SinkWakeupsKept<T>(p: Pipe<T>, a: Step<T>, f: T -> T)
    requires Inv(p) && Enabled(p, a)
    ensures SinkWakeups(Next(p, a, f))
  {
    var p' := Next(p, a, f);
    if exists i :: 0 <= i < |p'.sinks| && p'.sinks[i].KAsleep? && p'.ebuf != [] {
      var i :| 0 <= i < |p'.sinks| && p'.sinks[i].KAsleep? && p'.ebuf != [];
      assert p.sinks[i].KAsleep?;
      if a.ElabInsert? {
        var j :| j in a.wake && j < |p.sinks| && p.sinks[j].KAsleep?;
        assert AwakeSink(p'.sinks[j]);
      } else {
        assert p.ebuf != [];
        var j :| 0 <= j < |p.sinks| && AwakeSink(p.sinks[j]);
        assert AwakeSink(p'.sinks[j]);
      }
    }
  }

  lemma InvKept<T>(p: Pipe<T>, a: Step<T>, f: T -> T)
    requires Inv(p) && Enabled(p, a)
    ensures Inv(Next(p, a, f))
  {
    hide Next, Enabled, Locks, Stages, ElabWakeups, SinkWakeups;
    if OfSource(a) {
      SourceKeeps(p, a, f);
    } else if OfElab(a) {
      ElabKeepsLocks(p, a, f);
      ElabKeepsStages(p, a, f);
    } else if OfSink(a) {
      SinkKeepsLocks(p, a, f);
      SinkKeepsStages(p, a, f);
    } else {
      MainKeeps(p, a, f);
    }
    ElabWakeupsKept(p, a, f);
    SinkWakeupsKept(p, a, f);
  }

  /** Threads neither appear nor disappear, a source ends only by stopping, and what is
      joined stays so. */
  lemma ThreadsKept<T>(p: Pipe<T>, a: Step<T>, f: T -> T)
    requires Enabled(p, a)
    ensures var p' := Next(p, a, f);
            && |p'.sources| == |p.sources| && |p'.elabs| == |p.elabs| && |p'.sinks| == |p.sinks|
            && (forall i :: 0 <= i < |p.sources| && p'.sources[i].SDone? ==> p.sources[i].SDone? || (a.SrcStop? && a.i == i))
            && (p.main.Joined? ==> p'.main.Joined?)
  {
  }

  lemma StartInv<T>(ns: nat, ne: nat, nk: nat)
    ensures Inv(Start<T>(ns, ne, nk))
  {
  }
}
