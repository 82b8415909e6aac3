/**
 Conservation, termination and progress of the pipeline: where every item is, a measure that
 every step but a spurious wakeup uses up, and the absence of deadlock.
 */
module PipelineRuns {
  import opened Pipeline

  // Conservation

  /** How many elements of `s` are `y` once `g` is applied. */
  function Count<S, T(==)>(s: seq<S>, g: S -> T, y: T): nat {
    if s == [] then 0 else Count(s[..|s| - 1], g, y) + if g(s[|s| - 1]) == y then 1 else 0
  }

  lemma {:induction false} CountFirst<S, T>(s: seq<S>, g: S -> T, y: T)
    requires s != []
    ensures Count(s, g, y) == (if g(s[0]) == y then 1 else 0) + Count(s[1..], g, y)
  {
    if |s| > 1 {
      CountFirst(s[..|s| - 1], g, y);
      assert s[..|s| - 1][1..] == s[1..][..|s| - 2];
    }
  }

  lemma CountSnoc<S, T>(s: seq<S>, x: S, g: S -> T, y: T)
    ensures Count(s + [x], g, y) == Count(s, g, y) + if g(x) == y then 1 else 0
  {
    assert (s + [x])[..|s|] == s;
  }

  /** What a thread has taken out of one buffer and not yet put into the next. */
  function ElabHas<T(==)>(e: Elab<T>, f: T -> T, y: T): nat {
    match e
    case ERaw(x) => if f(x) == y then 1 else 0
    case EReady(x) => if x == y then 1 else 0
    case _ => 0
  }

  function SinkHas<T(==)>(k: Sink<T>, y: T): nat {
    if k.KBusy? && k.item == y then 1 else 0
  }

  function ElabsHave<T(==)>(es: seq<Elab<T>>, f: T -> T, y: T): nat {
    if es == [] then 0 else ElabsHave(es[..|es| - 1], f, y) + ElabHas(es[|es| - 1], f, y)
  }

  function SinksHave<T(==)>(ks: seq<Sink<T>>, y: T): nat {
    if ks == [] then 0 else SinksHave(ks[..|ks| - 1], y) + SinkHas(ks[|ks| - 1], y)
  }

  /** How many items between the sources and the end of the pipeline will come out as `y`. */
  function InFlight<T(==)>(p: Pipe<T>, f: T -> T, y: T): nat {
    Count(p.rbuf, f, y) + ElabsHave(p.elabs, f, y) + multiset(p.ebuf)[y] + SinksHave(p.sinks, y)
  }

  lemma {:induction false} ElabsUpdate<T>(es: seq<Elab<T>>, i: nat, e: Elab<T>, f: T -> T, y: T)
    requires i < |es|
    ensures ElabsHave(es[i := e], f, y) + ElabHas(es[i], f, y) == ElabsHave(es, f, y) + ElabHas(e, f, y)
  {
    var n := |es| - 1;
    if i == n {
      assert es[i := e][..n] == es[..n];
    } else {
      ElabsUpdate(es[..n], i, e, f, y);
      assert es[i := e][..n] == es[..n][i := e];
    }
  }

  lemma {:induction false} SinksUpdate<T>(ks: seq<Sink<T>>, i: nat, k: Sink<T>, y: T)
    requires i < |ks|
    ensures SinksHave(ks[i := k], y) + SinkHas(ks[i], y) == SinksHave(ks, y) + SinkHas(k, y)
  {
    var n := |ks| - 1;
    if i == n {
      assert ks[i := k][..n] == ks[..n];
    } else {
      SinksUpdate(ks[..n], i, k, y);
      assert ks[i := k][..n] == ks[..n][i := k];
    }
  }

  /** Some sleepers are now idle; nothing else changed. */
  ghost predicate ElabsWoken<T>(es: seq<Elab<T>>, es': seq<Elab<T>>) {
    |es| == |es'| && forall i :: 0 <= i < |es| ==> es'[i] == es[i] || (es[i].EAsleep? && es'[i].EIdle?)
  }

  ghost predicate SinksWoken<T>(ks: seq<Sink<T>>, ks': seq<Sink<T>>) {
    |ks| == |ks'| && forall i :: 0 <= i < |ks| ==> ks'[i] == ks[i] || (ks[i].KAsleep? && ks'[i].KIdle?)
  }

  lemma {:induction false} WakingMovesNothing<T>(es: seq<Elab<T>>, es': seq<Elab<T>>, f: T -> T, y: T)
    requires ElabsWoken(es, es')
    ensures ElabsHave(es', f, y) == ElabsHave(es, f, y)
  {
    if es != [] { WakingMovesNothing(es[..|es| - 1], es'[..|es| - 1], f, y); }
  }

  lemma {:induction false} WakingSinksMovesNothing<T>(ks: seq<Sink<T>>, ks': seq<Sink<T>>, y: T)
    requires SinksWoken(ks, ks')
    ensures SinksHave(ks', y) == SinksHave(ks, y)
  {
    if ks != [] { WakingSinksMovesNothing(ks[..|ks| - 1], ks'[..|ks| - 1], y); }
  }

  function Entering<T(==)>(a: Step<T>, f: T -> T, y: T): nat {
    if a.SrcInsert? && f(a.x) == y then 1 else 0
  }

  function Leaving<T(==)>(p: Pipe<T>, a: Step<T>, y: T): nat {
    if a.SinkFinish? && a.i < |p.sinks| then SinkHas(p.sinks[a.i], y) else 0
  }

  lemma ConservedBySource<T>(p: Pipe<T>, a: Step<T>, f: T -> T, y: T)
    requires Enabled(p, a) && OfSource(a)
    ensures InFlight(Next(p, a, f), f, y) == InFlight(p, f, y) + Entering(a, f, y)
  {
    hide ElabsHave, SinksHave, Count;
    var p' := Next(p, a, f);
    WakingMovesNothing(p.elabs, p'.elabs, f, y);
    if a.SrcInsert? { CountSnoc(p.rbuf, a.x, f, y); }
  }

  lemma ConservedByElab<T>(p: Pipe<T>, a: Step<T>, f: T -> T, y: T)
    requires Enabled(p, a) && OfElab(a)
    ensures InFlight(Next(p, a, f), f, y) == InFlight(p, f, y)
  {
    hide ElabsHave, SinksHave, Count;
    var p' := Next(p, a, f);
    ElabsUpdate(p.elabs, a.i, p'.elabs[a.i], f, y);
    if a.ElabTake? {
      CountFirst(p.rbuf, f, y);
    } else if a.ElabInsert? {
      WakingSinksMovesNothing(p.sinks, p'.sinks, y);
    }
  }

  lemma ConservedBySink<T>(p: Pipe<T>, a: Step<T>, f: T -> T, y: T)
    requires Enabled(p, a) && OfSink(a)
    ensures InFlight(Next(p, a, f), f, y) + Leaving(p, a, y) == InFlight(p, f, y)
  {
    hide ElabsHave, SinksHave, Count;
    var p' := Next(p, a, f);
    SinksUpdate(p.sinks, a.i, p'.sinks[a.i], y);
    if a.SinkTake? { assert p.ebuf == [p.ebuf[0]] + p'.ebuf; }
  }

  lemma ConservedByMain<T>(p: Pipe<T>, a: Step<T>, f: T -> T, y: T)
    requires Enabled(p, a) && !OfSource(a) && !OfElab(a) && !OfSink(a)
    ensures InFlight(Next(p, a, f), f, y) == InFlight(p, f, y)
  {
    WakingMovesNothing(p.elabs, Next(p, a, f).elabs, f, y);
    WakingSinksMovesNothing(p.sinks, Next(p, a, f).sinks, y);
  }

  /** Items enter only from a source and leave only from a sink; no other step loses or
      duplicates one. */
  lemma Conserved<T>(p: Pipe<T>, a: Step<T>, f: T -> T, y: T)
    requires Enabled(p, a)
    ensures InFlight(Next(p, a, f), f, y) + Leaving(p, a, y) == InFlight(p, f, y) + Entering(a, f, y)
  {
    hide Next, Enabled, InFlight;
    if OfSource(a) {
      ConservedBySource(p, a, f, y);
    } else if OfElab(a) {
      ConservedByElab(p, a, f, y);
    } else if OfSink(a) {
      ConservedBySink(p, a, f, y);
    } else {
      ConservedByMain(p, a, f, y);
    }
  }

  lemma {:induction false} DoneHaveNothing<T>(es: seq<Elab<T>>, ks: seq<Sink<T>>, f: T -> T, y: T)
    requires forall i :: 0 <= i < |es| ==> es[i].EDone?
    requires forall i :: 0 <= i < |ks| ==> ks[i].KDone?
    ensures ElabsHave(es, f, y) == 0 && SinksHave(ks, y) == 0
    decreases |es| + |ks|
  {
    if es != [] { DoneHaveNothing(es[..|es| - 1], ks, f, y); }
    if ks != [] { DoneHaveNothing(es, ks[..|ks| - 1], f, y); }
  }

  /** When the last thread has been joined nothing is left inside. */
  lemma JoinedIsEmpty<T>(p: Pipe<T>, f: T -> T, y: T)
    requires Inv(p) && p.main.Joined? && p.elabs != [] && p.sinks != []
    ensures p.rbuf == [] && p.ebuf == [] && InFlight(p, f, y) == 0
  {
    DoneHaveNothing(p.elabs, p.sinks, f, y);
    assert p.elabs[0].EDone? && p.sinks[0].KDone?;
  }

  lemma {:induction false} StartHasNothing<T>(ns: nat, ne: nat, nk: nat, f: T -> T, y: T)
    ensures InFlight(Start<T>(ns, ne, nk), f, y) == 0
    decreases ne + nk
  {
    var p := Start<T>(ns, ne, nk);
    if ne > 0 {
      StartHasNothing(ns, ne - 1, nk, f, y);
      assert p.elabs[..ne - 1] == Start<T>(ns, ne - 1, nk).elabs;
    }
    if nk > 0 {
      StartHasNothing(ns, ne, nk - 1, f, y);
      assert p.sinks[..nk - 1] == Start<T>(ns, ne, nk - 1).sinks;
    }
  }

  // A measure

  function Times(n: nat, b: nat): nat {
    if n == 0 then 0 else Times(n - 1, b) + b
  }

  function SourceRank(s: Source, ne: nat): nat {
    match s case SIdle => 2 * ne + 2 case SHolds => 2 * ne + 1 case SDone => 0
  }

  /** What an elaborator with a finished item still has to pay for. */
  function ReadyRank(nk: nat): nat { 11 + 2 * nk }

  function ElabRank<T>(e: Elab<T>, nk: nat): nat {
    match e
    case EIdle => 2
    case EHolds => 1
    case ERaw(_) => ReadyRank(nk) + 1
    case EReady(_) => ReadyRank(nk)
    case _ => 0
  }

  function SinkRank<T>(k: Sink<T>): nat {
    match k
    case KIdle => 2
    case KHolds => 1
    case KBusy(_, tries) => 3 + if tries < 5 then 5 - tries else 0
    case _ => 0
  }

  function MainRank(m: Main): nat {
    match m case JoinSources => 5 case CloseRaw => 4 case JoinElabs => 3 case CloseElab => 2 case JoinSinks => 1 case Joined => 0
  }

  function SourcesRank(ss: seq<Source>, ne: nat): nat {
    if ss == [] then 0 else SourcesRank(ss[..|ss| - 1], ne) + SourceRank(ss[|ss| - 1], ne)
  }

  function ElabsRank<T>(es: seq<Elab<T>>, nk: nat): nat {
    if es == [] then 0 else ElabsRank(es[..|es| - 1], nk) + ElabRank(es[|es| - 1], nk)
  }

  function SinksRank<T>(ks: seq<Sink<T>>): nat {
    if ks == [] then 0 else SinksRank(ks[..|ks| - 1]) + SinkRank(ks[|ks| - 1])
  }

  function Measure<T>(p: Pipe<T>): nat {
    var ne, nk := |p.elabs|, |p.sinks|;
    SourcesRank(p.sources, ne) + Times(|p.rbuf|, ReadyRank(nk) + 1) + ElabsRank(p.elabs, nk) +
    Times(|p.ebuf|, 8) + SinksRank(p.sinks) + Times(MainRank(p.main), 1 + 2 * ne + 2 * nk)
  }

  lemma {:induction false} SourcesRankUpdate(ss: seq<Source>, i: nat, s: Source, ne: nat)
    requires i < |ss|
    ensures SourcesRank(ss[i := s], ne) + SourceRank(ss[i], ne) == SourcesRank(ss, ne) + SourceRank(s, ne)
  {
    var n := |ss| - 1;
    if i == n {
      assert ss[i := s][..n] == ss[..n];
    } else {
      SourcesRankUpdate(ss[..n], i, s, ne);
      assert ss[i := s][..n] == ss[..n][i := s];
    }
  }

  lemma {:induction false} ElabsRankUpdate<T>(es: seq<Elab<T>>, i: nat, e: Elab<T>, nk: nat)
    requires i < |es|
    ensures ElabsRank(es[i := e], nk) + ElabRank(es[i], nk) == ElabsRank(es, nk) + ElabRank(e, nk)
  {
    var n := |es| - 1;
    if i == n {
      assert es[i := e][..n] == es[..n];
    } else {
      ElabsRankUpdate(es[..n], i, e, nk);
      assert es[i := e][..n] == es[..n][i := e];
    }
  }

  lemma {:induction false} SinksRankUpdate<T>(ks: seq<Sink<T>>, i: nat, k: Sink<T>)
    requires i < |ks|
    ensures SinksRank(ks[i := k]) + SinkRank(ks[i]) == SinksRank(ks) + SinkRank(k)
  {
    var n := |ks| - 1;
    if i == n {
      assert ks[i := k][..n] == ks[..n];
    } else {
      SinksRankUpdate(ks[..n], i, k);
      assert ks[i := k][..n] == ks[..n][i := k];
    }
  }

  lemma {:induction false} WakingCosts<T>(es: seq<Elab<T>>, es': seq<Elab<T>>, nk: nat)
    requires ElabsWoken(es, es')
    ensures ElabsRank(es', nk) <= ElabsRank(es, nk) + 2 * |es|
  {
    if es != [] { WakingCosts(es[..|es| - 1], es'[..|es| - 1], nk); }
  }

  lemma {:induction false} WakingSinksCosts<T>(ks: seq<Sink<T>>, ks': seq<Sink<T>>)
    requires SinksWoken(ks, ks')
    ensures SinksRank(ks') <= SinksRank(ks) + 2 * |ks|
  {
    if ks != [] { WakingSinksCosts(ks[..|ks| - 1], ks'[..|ks| - 1]); }
  }

  /** What a source may add to the measure by going round once. */
  function SourceCost<T>(p: Pipe<T>): nat {
    2 + ReadyRank(|p.sinks|) + 2 * |p.elabs|
  }

  predicate Spurious<T>(a: Step<T>) {
    a.ElabSpurious? || a.SinkSpurious?
  }

  lemma SourceMeasure<T>(p: Pipe<T>, a: Step<T>, f: T -> T)
    requires Enabled(p, a) && OfSource(a)
    ensures a.SrcLock? || a.SrcStop? ==> Measure(Next(p, a, f)) < Measure(p)
    ensures a.SrcInsert? || a.SrcAgain? ==> Measure(Next(p, a, f)) <= Measure(p) + SourceCost(p)
  {
    hide SourcesRank, ElabsRank, SinksRank;
    var p' := Next(p, a, f);
    SourcesRankUpdate(p.sources, a.i, p'.sources[a.i], |p.elabs|);
    if !a.SrcLock? { WakingCosts(p.elabs, p'.elabs, |p.sinks|); }
  }

  lemma ElabMeasure<T>(p: Pipe<T>, a: Step<T>, f: T -> T)
    requires Enabled(p, a) && OfElab(a)
    ensures !a.ElabSpurious? ==> Measure(Next(p, a, f)) < Measure(p)
    ensures a.ElabSpurious? ==> Measure(Next(p, a, f)) == Measure(p) + 2
  {
    hide SourcesRank, ElabsRank, SinksRank;
    var p' := Next(p, a, f);
    ElabsRankUpdate(p.elabs, a.i, p'.elabs[a.i], |p.sinks|);
    if a.ElabInsert? { WakingSinksCosts(p.sinks, p'.sinks); }
  }

  lemma SinkMeasure<T>(p: Pipe<T>, a: Step<T>, f: T -> T)
    requires Enabled(p, a) && OfSink(a)
    ensures !a.SinkSpurious? ==> Measure(Next(p, a, f)) < Measure(p)
    ensures a.SinkSpurious? ==> Measure(Next(p, a, f)) == Measure(p) + 2
  {
    hide SourcesRank, ElabsRank, SinksRank;
    SinksRankUpdate(p.sinks, a.i, Next(p, a, f).sinks[a.i]);
  }

  lemma MainMeasure<T>(p: Pipe<T>, a: Step<T>, f: T -> T)
    requires Enabled(p, a) && !OfSource(a) && !OfElab(a) && !OfSink(a)
    ensures Measure(Next(p, a, f)) < Measure(p)
  {
    hide SourcesRank, ElabsRank, SinksRank;
    var p' := Next(p, a, f);
    if a.MainCloseR? { WakingCosts(p.elabs, p'.elabs, |p.sinks|); }
    if a.MainCloseE? { WakingSinksCosts(p.sinks, p'.sinks); }
    assert Times(MainRank(p.main), 1 + 2 * |p.elabs| + 2 * |p.sinks|) ==
           Times(MainRank(p'.main), 1 + 2 * |p.elabs| + 2 * |p.sinks|) + (1 + 2 * |p.elabs| + 2 * |p.sinks|);
  }

  /** Every step uses up some of the measure, except a source going round, which adds at most
      a fixed cost, and a spurious wakeup, which adds two. */
  lemma MeasureSteps<T>(p: Pipe<T>, a: Step<T>, f: T -> T)
    requires Enabled(p, a)
    ensures !Spurious(a) && !a.SrcInsert? && !a.SrcAgain? ==> Measure(Next(p, a, f)) < Measure(p)
    ensures a.SrcInsert? || a.SrcAgain? ==> Measure(Next(p, a, f)) <= Measure(p) + SourceCost(p)
    ensures Spurious(a) ==> Measure(Next(p, a, f)) == Measure(p) + 2
    ensures SourceCost(Next(p, a, f)) == SourceCost(p)
  {
    hide Measure;
    if OfSource(a) {
      SourceMeasure(p, a, f);
    } else if OfElab(a) {
      ElabMeasure(p, a, f);
    } else if OfSink(a) {
      SinkMeasure(p, a, f);
    } else {
      MainMeasure(p, a, f);
    }
  }

  // Progress

  /** Until everything is joined some thread can step: a thread holding a mutex, or else one
      that can take it, or else the main thread. Never does this rest on a spurious wakeup. */
  lemma Progress<T>(p: Pipe<T>) returns (a: Step<T>)
    requires Inv(p) && !p.main.Joined?
    ensures Enabled(p, a) && !Spurious(a) && !a.SrcInsert? && !a.SrcAgain? && !a.SinkRetry?
  {
    if p.rlock.BySource? {
      a := SrcStop(p.rlock.i, {});
    } else if p.rlock.ByElab? {
      a := if p.rbuf != [] then ElabTake(p.rlock.i) else if p.rdone then ElabExit(p.rlock.i) else ElabSleep(p.rlock.i);
    } else if p.rlock.ByMain? {
      a := MainCloseR;
    } else if !p.elock.Nobody? {
      a := ProgressE(p);
    } else {
      a := ProgressFree(p);
    }
  }

  lemma ProgressE<T>(p: Pipe<T>) returns (a: Step<T>)
    requires Inv(p) && !p.elock.Nobody?
    ensures Enabled(p, a) && (a.ElabInsert? || a.SinkFinish? || a.SinkTake? || a.SinkExit? || a.SinkSleep? || a.MainCloseE?)
  {
    match p.elock
    case ByElab(i) =>
      if exists j: nat :: j < |p.sinks| && p.sinks[j].KAsleep? {
        var j: nat :| j < |p.sinks| && p.sinks[j].KAsleep?;
        assert j in {j};
        a := ElabInsert(i, {j});
      } else {
        a := ElabInsert(i, {});
      }
    case BySink(i) =>
      if p.sinks[i].KBusy? {
        a := SinkFinish(i);
      } else {
        a := if p.ebuf != [] then SinkTake(i) else if p.edone then SinkExit(i) else SinkSleep(i);
      }
    case ByMain => a := MainCloseE;
  }

  lemma ProgressFree<T>(p: Pipe<T>) returns (a: Step<T>)
    requires Inv(p) && !p.main.Joined? && p.rlock.Nobody? && p.elock.Nobody?
    ensures Enabled(p, a) && (a.SrcLock? || a.ElabLock? || a.ElabLockE? || a.SinkLock? || a.MainLockR? || a.MainLockE? || a.MainJoin?)
  {
    match p.main
    case JoinSources =>
      if i: nat :| i < |p.sources| && !p.sources[i].SDone? { a := SrcLock(i); } else { a := MainLockR; }
    case JoinElabs =>
      if i: nat :| i < |p.elabs| && !p.elabs[i].EDone? {
        a := if p.elabs[i].EIdle? then ElabLock(i) else ElabLockE(i);
      } else {
        a := MainLockE;
      }
    case JoinSinks =>
      if i: nat :| i < |p.sinks| && !p.sinks[i].KDone? { a := SinkLock(i); } else { a := MainJoin; }
  }
}
