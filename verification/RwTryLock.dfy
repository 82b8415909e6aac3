/**
 The biased-counter read/write try-locks of i386, as a protocol over any number of reader
 and writer threads. Each atomic instruction is one step; a reader's decrement and its test
 are two. The counter is a 32-bit signed integer that wraps.
 */
module RwTryLock {

  const BIAS: int := 0x0100_0000
  const HALF: int := 0x8000_0000

  function Wrap(x: int): int {
    (x + HALF) % (2 * HALF) - HALF
  }

  /** Taken: decremented, not yet tested. Failed: tested, not yet put back. */
  datatype Reader = RIdle | RTaken | RHolds | RFailed
  datatype Writer = WIdle | WHolds | WFailed

  datatype State = State(count: int, readers: seq<Reader>, writers: seq<Writer>)

  datatype Step =
    | ReadDec(i: nat) | ReadTest(i: nat) | ReadPutBack(i: nat) | ReadUnlock(i: nat)
    | WriteSubAndTest(i: nat) | WritePutBack(i: nat) | WriteUnlock(i: nat)

  predicate Enabled(s: State, a: Step) {
    match a
    case ReadDec(i) => i < |s.readers| && s.readers[i].RIdle?
    case ReadTest(i) => i < |s.readers| && s.readers[i].RTaken?
    case ReadPutBack(i) => i < |s.readers| && s.readers[i].RFailed?
    case ReadUnlock(i) => i < |s.readers| && s.readers[i].RHolds?
    case WriteSubAndTest(i) => i < |s.writers| && s.writers[i].WIdle?
    case WritePutBack(i) => i < |s.writers| && s.writers[i].WFailed?
    case WriteUnlock(i) => i < |s.writers| && s.writers[i].WHolds?
  }

  function Next(s: State, a: Step): State
    requires Enabled(s, a)
  {
    match a
    case ReadDec(i) => s.(count := Wrap(s.count - 1), readers := s.readers[i := RTaken])
    case ReadTest(i) => s.(readers := s.readers[i := if s.count >= 0 then RHolds else RFailed])
    case ReadPutBack(i) => s.(count := Wrap(s.count + 1), readers := s.readers[i := RIdle])
    case ReadUnlock(i) => s.(count := Wrap(s.count + 1), readers := s.readers[i := RIdle])
    case WriteSubAndTest(i) =>
      var c := Wrap(s.count - BIAS);
      s.(count := c, writers := s.writers[i := if c == 0 then WHolds else WFailed])
    case WritePutBack(i) => s.(count := Wrap(s.count + BIAS), writers := s.writers[i := WIdle])
    case WriteUnlock(i) => s.(count := Wrap(s.count + BIAS), writers := s.writers[i := WIdle])
  }

  function Init(r: nat, w: nat): State {
    State(BIAS, seq(r, _ => RIdle), seq(w, _ => WIdle))
  }

  ghost predicate Run(steps: seq<Step>, from: State, to: State)
    decreases |steps|
  {
    if steps == [] then from == to
    else Enabled(from, steps[0]) && Run(steps[1..], Next(from, steps[0]), to)
  }

  ghost predicate Reachable(r: nat, w: nat, s: State) {
    exists steps :: Run(steps, Init(r, w), s)
  }

  /** No write holder together with any other holder. */
  predicate Exclusive(s: State) {
    forall j :: 0 <= j < |s.writers| && s.writers[j].WHolds? ==>
      && (forall i :: 0 <= i < |s.readers| ==> !s.readers[i].RHolds?)
      && (forall k :: 0 <= k < |s.writers| && k != j ==> !s.writers[k].WHolds?)
  }

  // Counting the threads that have moved the counter

  function BusyReaders(rs: seq<Reader>): nat {
    if rs == [] then 0 else BusyReaders(rs[..|rs| - 1]) + if rs[|rs| - 1].RIdle? then 0 else 1
  }

  function BusyWriters(ws: seq<Writer>): nat {
    if ws == [] then 0 else BusyWriters(ws[..|ws| - 1]) + if ws[|ws| - 1].WIdle? then 0 else 1
  }

  lemma {:induction false} ReadersUpdate(rs: seq<Reader>, i: nat, x: Reader)
    requires i < |rs|
    ensures BusyReaders(rs[i := x]) ==
            BusyReaders(rs) - (if rs[i].RIdle? then 0 else 1) + if x.RIdle? then 0 else 1
    ensures BusyReaders(rs) <= |rs| && (!rs[i].RIdle? ==> BusyReaders(rs) >= 1)
  {
    var n := |rs| - 1;
    if i == n {
      assert rs[i := x][..n] == rs[..n];
      if n > 0 { ReadersUpdate(rs[..n], 0, RIdle); }
    } else {
      ReadersUpdate(rs[..n], i, x);
      assert rs[i := x][..n] == rs[..n][i := x];
    }
  }

  lemma {:induction false} WritersUpdate(ws: seq<Writer>, i: nat, x: Writer)
    requires i < |ws|
    ensures BusyWriters(ws[i := x]) ==
            BusyWriters(ws) - (if ws[i].WIdle? then 0 else 1) + if x.WIdle? then 0 else 1
    ensures BusyWriters(ws) <= |ws| && (!ws[i].WIdle? ==> BusyWriters(ws) >= 1)
  {
    var n := |ws| - 1;
    if i == n {
      assert ws[i := x][..n] == ws[..n];
      if n > 0 { WritersUpdate(ws[..n], 0, WIdle); }
    } else {
      WritersUpdate(ws[..n], i, x);
      assert ws[i := x][..n] == ws[..n][i := x];
    }
  }

  lemma {:induction false} TwoBusyWriters(ws: seq<Writer>, i: nat, j: nat)
    requires i < j < |ws| && !ws[i].WIdle? && !ws[j].WIdle?
    ensures BusyWriters(ws) >= 2
  {
    WritersUpdate(ws, i, WIdle);
    WritersUpdate(ws[i := WIdle], j, WIdle);
  }

  lemma {:induction false} AllIdle(r: nat, w: nat)
    ensures BusyReaders(seq(r, _ => RIdle)) == 0 && BusyWriters(seq(w, _ => WIdle)) == 0
    decreases r + w
  {
    if r > 0 {
      AllIdle(r - 1, w);
      assert seq(r, _ => RIdle)[..r - 1] == seq(r - 1, _ => RIdle);
    } else if w > 0 {
      AllIdle(r, w - 1);
      assert seq(w, _ => WIdle)[..w - 1] == seq(w - 1, _ => WIdle);
    }
  }

  /** The counter is the bias less what busy threads have taken, modulo 2^32. */
  ghost predicate CountInv(s: State) {
    s.count == Wrap(BIAS - BusyReaders(s.readers) - BIAS * BusyWriters(s.writers))
  }

  lemma WrapStep(x: int, d: int)
    ensures Wrap(Wrap(x) + d) == Wrap(x + d)
  {
  }

  /** One thread starts or stops being busy and moves the counter accordingly. */
  lemma Moved(r: int, w: int, dr: int, dw: int)
    ensures Wrap(Wrap(BIAS - r - BIAS * w) - dr - BIAS * dw) == Wrap(BIAS - (r + dr) - BIAS * (w + dw))
  {
    WrapStep(BIAS - r - BIAS * w, -dr - BIAS * dw);
    assert BIAS - r - BIAS * w - dr - BIAS * dw == BIAS - (r + dr) - BIAS * (w + dw);
  }

  lemma ReaderMoves(s: State, i: nat, x: Reader, d: int)
    requires CountInv(s) && i < |s.readers|
    requires d == (if x.RIdle? then 0 else 1) - if s.readers[i].RIdle? then 0 else 1
    ensures CountInv(s.(count := Wrap(s.count - d), readers := s.readers[i := x]))
  {
    ReadersUpdate(s.readers, i, x);
    Moved(BusyReaders(s.readers), BusyWriters(s.writers), d, 0);
  }

  lemma WriterMoves(s: State, i: nat, x: Writer, d: int)
    requires CountInv(s) && i < |s.writers|
    requires d == (if x.WIdle? then 0 else 1) - if s.writers[i].WIdle? then 0 else 1
    ensures CountInv(s.(count := Wrap(s.count - BIAS * d), writers := s.writers[i := x]))
  {
    WritersUpdate(s.writers, i, x);
    Moved(BusyReaders(s.readers), BusyWriters(s.writers), 0, d);
  }

  lemma CountKeptByReader(s: State, a: Step)
    requires CountInv(s) && Enabled(s, a) && (a.ReadDec? || a.ReadTest? || a.ReadPutBack? || a.ReadUnlock?)
    ensures CountInv(Next(s, a))
  {
    if a.ReadTest? {
      ReadersUpdate(s.readers, a.i, if s.count >= 0 then RHolds else RFailed);
    } else if a.ReadDec? {
      ReaderMoves(s, a.i, RTaken, 1);
    } else {
      ReaderMoves(s, a.i, RIdle, -1);
    }
  }

  lemma CountKeptByWriter(s: State, a: Step)
    requires CountInv(s) && Enabled(s, a) && (a.WriteSubAndTest? || a.WritePutBack? || a.WriteUnlock?)
    ensures CountInv(Next(s, a))
  {
    if a.WriteSubAndTest? {
      WriterMoves(s, a.i, if Wrap(s.count - BIAS) == 0 then WHolds else WFailed, 1);
    } else {
      WriterMoves(s, a.i, WIdle, -1);
    }
  }

  lemma CountKept(s: State, a: Step)
    requires CountInv(s) && Enabled(s, a)
    ensures CountInv(Next(s, a))
  {
    if a.WriteSubAndTest? || a.WritePutBack? || a.WriteUnlock? {
      CountKeptByWriter(s, a);
    } else {
      CountKeptByReader(s, a);
    }
  }

  /** The numbers of threads for which the protocol excludes. */
  predicate Safe(r: nat, w: nat) {
    w == 0 || if r == 0 then w <= 256 else BIAS * (w - 1) + r <= HALF
  }

  /** With a writer among `w` busy ones and a reader among `r`, the counter is negative. */
  lemma ReaderSeesWriter(r: nat, w: nat)
    requires r >= 1 && w >= 1 && BIAS * (w - 1) + r <= HALF
    ensures Wrap(BIAS - r - BIAS * w) < 0
  {
    assert BIAS - r - BIAS * w == -(BIAS * (w - 1) + r);
  }

  /** The counter is zero only when one writer alone is busy. */
  lemma ZeroMeansAlone(r: nat, w: nat)
    requires w >= 1 && BIAS * (w - 1) + r < 2 * HALF
    requires Wrap(BIAS - r - BIAS * w) == 0
    ensures r == 0 && w == 1
  {
    var y := BIAS * (w - 1) + r;
    assert BIAS - r - BIAS * w == -y;
  }

  lemma Monotone(r: nat, w: nat, r': nat, w': nat)
    requires r <= r' && 1 <= w <= w'
    ensures BIAS * (w - 1) + r <= BIAS * (w' - 1) + r'
  {
  }

  lemma ExclusionKept(s: State, a: Step)
    requires CountInv(s) && Exclusive(s) && Enabled(s, a)
    requires Safe(|s.readers|, |s.writers|)
    ensures Exclusive(Next(s, a))
  {
    CountKept(s, a);
    var s' := Next(s, a);
    var r, w := BusyReaders(s'.readers), BusyWriters(s'.writers);
    match a
    case ReadTest(i) =>
      ReadersUpdate(s'.readers, i, RIdle);
      if s.count >= 0 && exists j :: 0 <= j < |s.writers| && s.writers[j].WHolds? {
        var j :| 0 <= j < |s.writers| && s.writers[j].WHolds?;
        WritersUpdate(s'.writers, j, WIdle);
        Monotone(r, w, |s.readers|, |s.writers|);
        ReaderSeesWriter(r, w);
        assert false;
      }
    case WriteSubAndTest(j) =>
      WritersUpdate(s'.writers, j, WIdle);
      if |s.readers| > 0 { ReadersUpdate(s'.readers, 0, RIdle); }
      if s'.count == 0 {
        Monotone(r, w, |s.readers|, |s.writers|);
        ZeroMeansAlone(r, w);
        forall i | 0 <= i < |s'.readers| ensures !s'.readers[i].RHolds? { ReadersUpdate(s'.readers, i, RIdle); }
        forall k | 0 <= k < |s'.writers| && k != j ensures !s'.writers[k].WHolds? {
          if s'.writers[k].WHolds? { TwoBusyWriters(s'.writers, if k < j then k else j, if k < j then j else k); }
        }
      }
    case _ =>
  }

  lemma {:induction false} RunKeeps(steps: seq<Step>, from: State, to: State)
    requires Run(steps, from, to) && CountInv(from) && Exclusive(from)
    requires Safe(|from.readers|, |from.writers|)
    ensures Exclusive(to)
    decreases |steps|
  {
    if steps != [] {
      CountKept(from, steps[0]);
      ExclusionKept(from, steps[0]);
      RunKeeps(steps[1..], Next(from, steps[0]), to);
    }
  }

  // Beyond those numbers exclusion fails

  lemma {:induction false} RunSnoc(steps: seq<Step>, from: State, to: State, a: Step)
    requires Run(steps, from, to) && Enabled(to, a)
    ensures Run(steps + [a], from, Next(to, a))
    decreases |steps|
  {
    if steps == [] {
      assert ([a])[1..] == [] && steps + [a] == [a];
    } else {
      RunSnoc(steps[1..], Next(from, steps[0]), to, a);
      assert (steps + [a])[1..] == steps[1..] + [a];
    }
  }

  lemma ReachNext(r: nat, w: nat, s: State, a: Step)
    requires Reachable(r, w, s) && Enabled(s, a)
    ensures Reachable(r, w, Next(s, a))
  {
    var steps :| Run(steps, Init(r, w), s);
    RunSnoc(steps, Init(r, w), s, a);
  }

  /** Writer 0 holds, writers 1..n-1 have failed and not yet put back, readers 0..m-1 have
      decremented and not yet tested. */
  function Crowd(r: nat, w: nat, n: nat, m: nat): State
    requires 1 <= n <= w && m <= r
  {
    State(Wrap(-BIAS * (n - 1) - m),
          seq(r, i => if i < m then RTaken else RIdle),
          seq(w, j => if j == 0 then WHolds else if j < n then WFailed else WIdle))
  }

  lemma ReaderJoins(r: nat, w: nat, n: nat, m: nat)
    requires 1 <= n <= w && m < r
    ensures var s := Crowd(r, w, n, m);
            Enabled(s, ReadDec(m)) && Next(s, ReadDec(m)) == Crowd(r, w, n, m + 1)
  {
    var s := Crowd(r, w, n, m);
    WrapStep(-BIAS * (n - 1) - m, -1);
    assert s.readers[m := RTaken] == Crowd(r, w, n, m + 1).readers;
  }

  lemma WriterJoins(r: nat, w: nat, n: nat)
    requires 1 <= n < w && n < 256
    ensures var s := Crowd(r, w, n, 0);
            Enabled(s, WriteSubAndTest(n)) && Next(s, WriteSubAndTest(n)) == Crowd(r, w, n + 1, 0)
  {
    var s := Crowd(r, w, n, 0);
    WrapStep(-BIAS * (n - 1), -BIAS);
    assert -BIAS * (n - 1) - BIAS == -BIAS * n;
    NotZero(n);
    assert s.writers[n := WFailed] == Crowd(r, w, n + 1, 0).writers;
  }

  lemma NotZero(n: nat)
    requires 1 <= n < 256
    ensures Wrap(-BIAS * n) != 0
  {
  }

  lemma {:induction false} CrowdReachable(r: nat, w: nat, n: nat, m: nat)
    requires 1 <= n <= w && n <= 256 && m <= r
    ensures Reachable(r, w, Crowd(r, w, n, m))
    decreases m, n
  {
    if m > 0 {
      CrowdReachable(r, w, n, m - 1);
      ReaderJoins(r, w, n, m - 1);
      ReachNext(r, w, Crowd(r, w, n, m - 1), ReadDec(m - 1));
    } else if n > 1 {
      CrowdReachable(r, w, n - 1, 0);
      WriterJoins(r, w, n - 1);
      ReachNext(r, w, Crowd(r, w, n - 1, 0), WriteSubAndTest(n - 1));
    } else {
      var s := Init(r, w);
      assert Run([], s, s);
      ReachNext(r, w, s, WriteSubAndTest(0));
      FirstWriter(r, w);
    }
  }

  lemma FirstWriter(r: nat, w: nat)
    requires w >= 1
    ensures Next(Init(r, w), WriteSubAndTest(0)) == Crowd(r, w, 1, 0)
  {
    assert Init(r, w).writers[0 := WHolds] == Crowd(r, w, 1, 0).writers;
    assert Init(r, w).readers == Crowd(r, w, 1, 0).readers;
  }

  lemma ReaderSlipsIn(r: nat, w: nat, n: nat, m: nat)
    requires 1 <= n <= w && n <= 256 && 1 <= m <= r && BIAS * (n - 1) + m == HALF + 1
    ensures exists s :: Reachable(r, w, s) && !Exclusive(s)
  {
    CrowdReachable(r, w, n, m);
    var s := Crowd(r, w, n, m);
    assert -BIAS * (n - 1) - m == -HALF - 1;
    assert s.count == HALF - 1;
    ReachNext(r, w, s, ReadTest(0));
    var s' := Next(s, ReadTest(0));
    assert s'.readers[0].RHolds? && s'.writers[0].WHolds?;
  }

  lemma WriterSlipsIn(r: nat, w: nat)
    requires w >= 257
    ensures exists s :: Reachable(r, w, s) && !Exclusive(s)
  {
    CrowdReachable(r, w, 256, 0);
    var s := Crowd(r, w, 256, 0);
    assert Wrap(s.count - BIAS) == 0;
    ReachNext(r, w, s, WriteSubAndTest(256));
    var s' := Next(s, WriteSubAndTest(256));
    assert s'.writers[0].WHolds? && s'.writers[256].WHolds?;
  }

  /** For r reader threads and w writer threads, in every interleaving a write holder is alone
      exactly when the numbers are safe: with readers, when (w - 1) * RW_LOCK_BIAS + r is at
      most 2^31; without, when there are at most 256 writers. */
  lemma MutualExclusion(r: nat, w: nat)
    ensures (forall s :: Reachable(r, w, s) ==> Exclusive(s)) <==> Safe(r, w)
  {
    if Safe(r, w) {
      forall s | Reachable(r, w, s) ensures Exclusive(s) {
        var steps :| Run(steps, Init(r, w), s);
        AllIdle(r, w);
        RunKeeps(steps, Init(r, w), s);
      }
    } else if r == 0 {
      WriterSlipsIn(r, w);
    } else if w >= 129 {
      ReaderSlipsIn(r, w, 129, 1);
    } else {
      ReaderSlipsIn(r, w, w, HALF + 1 - BIAS * (w - 1));
    }
  }
}
