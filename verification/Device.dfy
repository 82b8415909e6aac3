/**
 The device /dev/mydev: reads, writes, samples and reallocations, each a step under dev_mutex,
 with the two wait queues. Copies to and from user space may fail.
 */
module Device {
  import opened Letters
  import opened DeviceStat
  import opened LinkedFifo

  const START_KB_DIM := 5

  /** `taken` is what left the queue, `delivered` what of it reached a reader and `faulted`
      what did not; wSleep and
      rSleep count the callers asleep on wait_w and wait_r; `highest` is the largest capacity
      so far. */
  datatype Dev = Dev(fifo: seq<Text>, max: int, kbDim: nat, kbSum: nat, wSleep: nat, rSleep: nat,
                     written: seq<Text>, taken: seq<Text>, delivered: seq<Text>, faulted: seq<Text>, highest: int)

  /** A call tests under the mutex and, finding no room or no string, releases it (WriteFull,
      ReadEmpty). wait_event then tests again, without the mutex: the caller goes to sleep, or
      finds the queue changed and starts over (WriteRetry, ReadRetry). */
  datatype Op =
    | Write(text: Text) | WriteFault | WriteFull | WriteSleep | WriteRetry
    | Read | ReadFault | ReadEmpty | ReadSleep | ReadRetry
    | Sample | Realloc

  predicate CanDo(d: Dev, op: Op) {
    match op
    case Write(_) | WriteFault | WriteRetry => |d.fifo| < d.max
    case WriteFull | WriteSleep => |d.fifo| >= d.max
    case Read | ReadFault | ReadRetry => d.fifo != []
    case ReadEmpty | ReadSleep => d.fifo == []
    case Sample => true
    case Realloc => d.kbDim > 0
  }

  /** The capacity kt_realloc chooses; it divides by the number of samples. */
  function Reallocated(max: int, kbDim: int, kbSum: int): int
    requires max >= 1 && kbDim > 0 && kbSum >= 0
  {
    var avg := MyDiv(kbSum, kbDim);
    if Percent(avg, max) != KB_OCC then NewCapacity(avg) else max
  }

  function Do(d: Dev, op: Op): Dev
    requires CanDo(d, op) && d.max >= 1
  {
    match op
    case Write(s) => d.(fifo := d.fifo + [s], written := d.written + [s], rSleep := 0)
    case WriteSleep => d.(wSleep := d.wSleep + 1)
    case WriteFault | WriteFull | WriteRetry | ReadEmpty | ReadRetry => d
    case Read => d.(fifo := d.fifo[1..], taken := d.taken + [d.fifo[0]], delivered := d.delivered + [d.fifo[0]], wSleep := 0)
    case ReadSleep => d.(rSleep := d.rSleep + 1)
    case ReadFault => d.(fifo := d.fifo[1..], taken := d.taken + [d.fifo[0]], faulted := d.faulted + [d.fifo[0]])
    case Sample => d.(kbDim := d.kbDim + 1, kbSum := d.kbSum + |d.fifo|)
    case Realloc =>
      var c := Reallocated(d.max, d.kbDim, d.kbSum);
      d.(max := c, highest := if c > d.highest then c else d.highest, kbDim := 0, kbSum := 0)
  }

  const FRESH := Dev([], START_KB_DIM, 0, 0, 0, 0, [], [], [], [], START_KB_DIM)

  /** First in, first out; a capacity of at least two; the count within the largest capacity
      so far, though not always within the current one; no reader asleep on a string; what
      left the queue was delivered or faulted. */
  ghost predicate DInv(d: Dev) {
    && d.written == d.taken + d.fifo
    && multiset(d.taken) == multiset(d.delivered) + multiset(d.faulted)
    && 2 <= d.max <= d.highest && |d.fifo| <= d.highest
    && (d.rSleep > 0 ==> d.fifo == [])
  }

  lemma DInvKept(d: Dev, op: Op)
    requires DInv(d) && CanDo(d, op)
    ensures DInv(Do(d, op))
  {
    match op
    case Write(s) => assert d.taken + (d.fifo + [s]) == d.written + [s];
    case Read | ReadFault => assert d.taken + d.fifo == (d.taken + [d.fifo[0]]) + d.fifo[1..];
    case Realloc => CapacityBound(MyDiv(d.kbSum, d.kbDim));
    case _ =>
  }

  ghost predicate Run(ops: seq<Op>, from: Dev, to: Dev)
    decreases |ops|
  {
    if ops == [] then from == to
    else CanDo(from, ops[0]) && from.max >= 1 && Run(ops[1..], Do(from, ops[0]), to)
  }

  lemma {:induction false} RunKeeps(ops: seq<Op>, from: Dev, to: Dev)
    requires Run(ops, from, to) && DInv(from)
    ensures DInv(to)
    decreases |ops|
  {
    if ops != [] {
      DInvKept(from, ops[0]);
      RunKeeps(ops[1..], Do(from, ops[0]), to);
    }
  }

  predicate NoReadFault(ops: seq<Op>) {
    forall k :: 0 <= k < |ops| ==> !ops[k].ReadFault?
  }

  /** With copies to readers that succeed: everything taken was delivered, and a writer sleeps
      only while strings are left whose reading will wake it. */
  lemma {:induction false} FaultlessKeeps(ops: seq<Op>, from: Dev, to: Dev)
    requires Run(ops, from, to) && DInv(from) && NoReadFault(ops)
    requires from.delivered == from.taken && (from.wSleep > 0 ==> |from.fifo| >= 2)
    ensures to.delivered == to.taken && (to.wSleep > 0 ==> |to.fifo| >= 2)
    decreases |ops|
  {
    if ops != [] {
      assert !ops[0].ReadFault?;
      DInvKept(from, ops[0]);
      FaultlessKeeps(ops[1..], Do(from, ops[0]), to);
    }
  }

  /** Over every run of the fresh device: what left the queue is a prefix of what was written
      and the rest is in it; full and empty exclude each other; the count never exceeds the
      largest capacity so far. Without failed copies to readers, what they got is that prefix
      and no writer is left asleep on an empty device. */
  lemma DeviceRuns(ops: seq<Op>, d: Dev)
    requires Run(ops, FRESH, d)
    ensures d.written == d.taken + d.fifo && |d.fifo| <= d.highest
    ensures multiset(d.taken) == multiset(d.delivered) + multiset(d.faulted)
    ensures d.max >= 2 && !(d.fifo == [] && |d.fifo| >= d.max)
    ensures d.rSleep > 0 ==> d.fifo == []
    ensures NoReadFault(ops) ==> d.written == d.delivered + d.fifo && (d.wSleep > 0 ==> d.fifo != [])
  {
    RunKeeps(ops, FRESH, d);
    if NoReadFault(ops) { FaultlessKeeps(ops, FRESH, d); }
  }

  // The wakeup a failed copy forgets

  /** A writer went to sleep at `j` and no delivered read has come since. */
  predicate SleptUnwoken(ops: seq<Op>, j: nat) {
    j < |ops| && ops[j].WriteSleep? && forall k :: j < k < |ops| ==> !ops[k].Read?
  }

  /** Over every run: a writer is asleep exactly when one went to sleep and every read since
      failed to deliver, however much room those reads made. (Failed reads between its two
      tests do not count: it then finds room and does not go to sleep.) */
  lemma {:induction false} WriterStranded(ops: seq<Op>, d: Dev)
    requires Run(ops, FRESH, d)
    ensures d.wSleep > 0 <==> exists j: nat :: SleptUnwoken(ops, j)
    decreases |ops|
  {
    if ops != [] {
      var n := |ops| - 1;
      var mid := RunLast(ops, FRESH, d);
      WriterStranded(ops[..n], mid);
      if ops[n].WriteSleep? {
        assert SleptUnwoken(ops, n);
      } else if ops[n].Read? {
        assert forall j: nat :: SleptUnwoken(ops, j) ==> j < n;
      } else {
        assert forall j: nat :: SleptUnwoken(ops, j) <==> SleptUnwoken(ops[..n], j);
      }
    }
  }

  lemma {:induction false} RunMore(ops: seq<Op>, from: Dev, to: Dev, op: Op)
    requires Run(ops, from, to) && CanDo(to, op) && to.max >= 1
    ensures Run(ops + [op], from, Do(to, op))
    decreases |ops|
  {
    if ops != [] {
      RunMore(ops[1..], Do(from, ops[0]), to, op);
      assert (ops + [op])[1..] == ops[1..] + [op];
    }
  }

  function Writes(texts: seq<Text>): seq<Op> {
    seq(|texts|, i requires 0 <= i < |texts| => Write(texts[i]))
  }

  lemma {:induction false} FillUp(texts: seq<Text>) returns (d: Dev)
    requires |texts| <= START_KB_DIM
    ensures Run(Writes(texts), FRESH, d) && d.fifo == texts && d.max == START_KB_DIM
  {
    d := FRESH;
    if texts != [] {
      var n := |texts| - 1;
      var mid := FillUp(texts[..n]);
      RunMore(Writes(texts[..n]), FRESH, mid, Write(texts[n]));
      assert Writes(texts) == Writes(texts[..n]) + [Write(texts[n])];
      assert texts == texts[..n] + [texts[n]];
      d := Do(mid, Write(texts[n]));
    }
  }

  lemma {:induction false} FaultsDrain(ops: seq<Op>, n: nat, d: Dev) returns (end: Dev)
    requires Run(ops, FRESH, d) && d.max >= 1 && n <= |d.fifo|
    ensures Run(ops + seq(n, _ => ReadFault), FRESH, end)
    ensures end.fifo == d.fifo[n..] && end.wSleep == d.wSleep && end.max == d.max
  {
    if n == 0 {
      assert ops + seq(n, _ => ReadFault) == ops;
      end := d;
    } else {
      var mid := FaultsDrain(ops, n - 1, d);
      RunMore(ops + seq(n - 1, _ => ReadFault), FRESH, mid, ReadFault);
      assert ops + seq(n, _ => ReadFault) == ops + seq(n - 1, _ => ReadFault) + [ReadFault];
      end := Do(mid, ReadFault);
    }
  }

  /** The fresh device gets there: five strings, a sixth writer that sleeps, five failed reads.
      The queue is empty and the writer still asleep. */
  lemma StrandedOnEmpty(texts: seq<Text>) returns (ops: seq<Op>, d: Dev)
    requires |texts| == START_KB_DIM
    ensures ops == Writes(texts) + [WriteSleep] + seq(START_KB_DIM, _ => ReadFault)
    ensures Run(ops, FRESH, d) && d.fifo == [] && d.wSleep > 0
  {
    var full := FillUp(texts);
    RunMore(Writes(texts), FRESH, full, WriteSleep);
    d := FaultsDrain(Writes(texts) + [WriteSleep], START_KB_DIM, Do(full, WriteSleep));
    ops := Writes(texts) + [WriteSleep] + seq(START_KB_DIM, _ => ReadFault);
  }

  // The division kt_realloc makes

  /** Samples taken since the last reallocation. */
  function SamplesSince(ops: seq<Op>): nat {
    if ops == [] || ops[|ops| - 1].Realloc? then 0
    else SamplesSince(ops[..|ops| - 1]) + if ops[|ops| - 1].Sample? then 1 else 0
  }

  lemma {:induction false} RunLast(ops: seq<Op>, from: Dev, to: Dev) returns (mid: Dev)
    requires ops != [] && Run(ops, from, to)
    ensures Run(ops[..|ops| - 1], from, mid) && mid.max >= 1
    ensures CanDo(mid, ops[|ops| - 1]) && Do(mid, ops[|ops| - 1]) == to
    decreases |ops|
  {
    var n := |ops| - 1;
    if n == 0 {
      mid := from;
    } else {
      mid := RunLast(ops[1..], Do(from, ops[0]), to);
      assert ops[..n][1..] == ops[1..][..n - 1];
    }
  }

  /** The reallocator can run, rather than divide by zero, exactly when a sample was taken
      since it last ran. */
  lemma {:induction false} ReallocNeedsSample(ops: seq<Op>, d: Dev)
    requires Run(ops, FRESH, d)
    ensures d.kbDim == SamplesSince(ops)
    ensures CanDo(d, Realloc) <==> SamplesSince(ops) > 0
    decreases |ops|
  {
    if ops != [] {
      var mid := RunLast(ops, FRESH, d);
      ReallocNeedsSample(ops[..|ops| - 1], mid);
    }
  }

  // The driver's own state

  function LengthsOf(s: seq<Text>): seq<int> {
    seq(|s|, i requires 0 <= i < |s| => |s[i]|)
  }

  /** The driver's globals: the list and the allocation fields of dev_stat. */
  class Driver {
    const kb: Fifo
    var kbDim: nat
    var kbSum: nat
    var kbMax: int

    ghost predicate Valid()
      reads this, kb, kb.nodes
    {
      kb.Valid() && kbMax >= 1
    }

    /** The fields as those of the abstract device. */
    ghost predicate Holds(d: Dev)
      reads this, kb, kb.nodes
    {
      Valid() && kb.Contents() == d.fifo && kbMax == d.max && kbDim == d.kbDim && kbSum == d.kbSum
    }

    constructor ()
      ensures Holds(FRESH) && fresh(kb) && kb.nodes == []
    {
      kb := new Fifo();
      kbDim, kbSum, kbMax := 0, 0, START_KB_DIM;
    }

    /** my_write from taking the mutex to releasing it; `copied` is the outcome of
        copy_from_user. */
    method MyWrite(value: Text, copied: bool, ghost d: Dev) returns (op: Op)
      requires Holds(d)
      modifies kb, kb.nodes
      ensures CanDo(d, op) && Holds(Do(d, op))
      ensures op == if |d.fifo| >= d.max then WriteFull else if copied then Write(value) else WriteFault
    {
      var full := kb.IsFull(kbMax);
      if full { return WriteFull; }
      if !copied { return WriteFault; }
      kb.Push(value);
      return Write(value);
    }

    /** The test of wait_event, for a writer and for a reader. */
    method WaitToWrite(ghost d: Dev) returns (op: Op)
      requires Holds(d)
      ensures CanDo(d, op) && Holds(Do(d, op))
      ensures op == if |d.fifo| >= d.max then WriteSleep else WriteRetry
    {
      var full := kb.IsFull(kbMax);
      return if full then WriteSleep else WriteRetry;
    }

    method WaitToRead(ghost d: Dev) returns (op: Op)
      requires Holds(d)
      ensures CanDo(d, op) && Holds(Do(d, op))
      ensures op == if d.fifo == [] then ReadSleep else ReadRetry
    {
      var empty := kb.IsEmpty();
      return if empty then ReadSleep else ReadRetry;
    }

    method MyRead(copied: bool, ghost d: Dev) returns (op: Op, value: Text)
      requires Holds(d)
      modifies kb
      ensures CanDo(d, op) && Holds(Do(d, op))
      ensures op == if d.fifo == [] then ReadEmpty else if copied then Read else ReadFault
      ensures d.fifo != [] ==> value == d.fifo[0]
    {
      var empty := kb.IsEmpty();
      if empty { return ReadEmpty, []; }
      var ok, v := kb.Pop();
      return if copied then Read else ReadFault, v;
    }

    /** ds_populate: the lengths of the strings, in queue order. */
    method Populate() returns (lens: seq<int>)
      requires Valid()
      ensures lens == LengthsOf(kb.Contents())
    {
      var list := new int[kb.count];
      kb.Scan(list);
      return list[..];
    }

    /** One turn of kt_stat: the figures of the snapshot, when there is one, and a sample. */
    method KtStat(ghost d: Dev) returns (dim: int, med: int, max: int, min: int)
      requires Holds(d)
      modifies this`kbDim, this`kbSum
      ensures Holds(Do(d, Sample)) && dim == |d.fifo|
      ensures dim > 0 ==> Describe(LengthsOf(d.fifo), med, max, min)
    {
      dim := kb.count;
      med, max, min := 0, 0, 0;
      if dim != 0 {
        var lens := Populate();
        med, max, min := Figures(lens);
      }
      AddKbValue(dim, d);
    }

    /** ds_add_kb_value. */
    method AddKbValue(value: nat, ghost d: Dev)
      requires Holds(d) && value == |d.fifo|
      modifies this`kbDim, this`kbSum
      ensures Holds(Do(d, Sample))
    {
      kbDim := kbDim + 1;
      kbSum := kbSum + value;
    }

    /** One turn of kt_realloc; false stands for its division by zero. */
    method KtRealloc(ghost d: Dev) returns (ok: bool)
      requires Holds(d) && DInv(d)
      modifies this`kbDim, this`kbSum, this`kbMax
      ensures ok <==> CanDo(d, Realloc)
      ensures ok ==> Holds(Do(d, Realloc))
      ensures !ok ==> Holds(d)
    {
      if kbDim == 0 { return false; }
      CapacityBound(MyDiv(kbSum, kbDim));
      var medOcc := MyDiv(kbSum, kbDim);
      var per := Percent(medOcc, kbMax);
      if per != KB_OCC {
        kbMax := NewCapacity(medOcc);
      }
      kbDim, kbSum := 0, 0;
      return true;
    }
  }
}
