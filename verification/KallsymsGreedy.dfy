/**
 The compression as a function of the symbols: in every free slot, from 255 down, the first of
 the most frequent pairs. What the symbols say about the result.
 */
module KallsymsGreedy {
  import opened KallsymsCodec
  import opened KallsymsRounds

  /** An index of token_profit is the pair of its low and high bytes. */
  lemma IndexBytes(p: nat)
    requires p < 0x10000
    ensures PairIndex(p % 256, p / 256) == p
  {
  }

  /** The first index below `n` with the largest count. */
  function BestBelow(t: seq<Name>, n: nat): (best: nat)
    requires 1 <= n <= 0x10000
    ensures best < n
  {
    if n == 1 then 0 else
    var best := BestBelow(t, n - 1);
    if CountAll(t, n - 1) > CountAll(t, best) then n - 1 else best
  }

  function Best(t: seq<Name>): nat { BestBelow(t, 0x10000) }

  lemma {:induction false} BestIsFirst(t: seq<Name>, n: nat)
    requires 1 <= n <= 0x10000
    ensures forall p :: 0 <= p < n ==> CountAll(t, p) <= CountAll(t, BestBelow(t, n))
    ensures forall p :: 0 <= p < BestBelow(t, n) ==> CountAll(t, p) < CountAll(t, BestBelow(t, n))
  {
    hide CountAll;
    if n > 1 { BestIsFirst(t, n - 1); }
  }

  /** One turn of optimize_result. */
  function Turn(t: seq<Name>, b: Table, i: Byte): (seq<Name>, Table) {
    if b[i] != [] then (t, b) else
    var x: Byte, y: Byte := Best(t) % 256, Best(t) / 256;
    (ReplaceAll(t, x, y, i), b[i := [x, y]])
  }

  /** The turns for slots `i` down to 0. */
  function Rounds(t: seq<Name>, b: Table, i: int): (seq<Name>, Table)
    requires -1 <= i < 256
    decreases i + 1
  {
    if i == -1 then (t, b) else
    var (t', b') := Turn(t, b, i);
    Rounds(t', b', i - 1)
  }

  ghost function StartTable(o: seq<Name>): Table {
    seq(256, c requires 0 <= c < 256 => OwnSlot(o, |o|, [], c))
  }

  ghost function Compressed(o: seq<Name>): (seq<Name>, Table) {
    Rounds(o, StartTable(o), 255)
  }

  // What every turn keeps and makes

  /** What a round did: the slot is idle exactly when no pair was left, and otherwise the
      names became shorter in total, none empty; the slot's pair occurs nowhere any more, and
      putting it back gives the names from before. */
  ghost predicate RoundMade(t: seq<Name>, b: Table, t': seq<Name>, b': Table, i: Byte) {
    && (forall c: Byte :: c != i ==> b'[c] == b[c])
    && |b'[i]| == 2
    && (Idle(b', i) <==> NoPairs(t))
    && (if NoPairs(t) then t' == t else Excess(t') < Excess(t) && PairGone(t, t', b'[i][0], b'[i][1], i))
  }

  ghost predicate PairGone(t: seq<Name>, t': seq<Name>, x: Byte, y: Byte, i: Byte) {
    |t'| == |t| && forall k :: 0 <= k < |t| ==> NoPair(t'[k], x, y) && Restore(t'[k], x, y, i) == t[k]
  }

  lemma RoundUndone(t: seq<Name>, b: Table, o: seq<Name>, i: Byte, x: Byte, y: Byte)
    requires RoundInv(t, b, o, i) && b[i] == [] && exists k :: 0 <= k < |t| && !NoPair(t[k], x, y)
    ensures PairGone(t, ReplaceAll(t, x, y, i), x, y, i)
  {
    assert !Sound(b, i);
    assert forall k :: 0 <= k < |t| ==> i !in t[k];
    var n :| 0 <= n < |t| && !NoPair(t[n], x, y);
    assert x in t[n] && y in t[n];
    forall k | 0 <= k < |t|
      ensures NoPair(Replace(t[k], x, y, i), x, y) && Restore(Replace(t[k], x, y, i), x, y, i) == t[k]
    {
      ReplaceLeavesNoPair(t[k], x, y, i);
      RestoreReplace(t[k], x, y, i);
    }
  }

  /** Fewer shortenings are left than free slots from `i` down, slot 0 among them. */
  ghost predicate RunningShort(t: seq<Name>, b: Table, i: Byte) {
    b[0] == [] && (Excess(t) == 0 || Excess(t) < Free(b, i + 1))
  }

  lemma ShorterStill(t: seq<Name>, b: Table, t': seq<Name>, b': Table, i: Byte)
    requires RunningShort(t, b, i) && b[i] == [] && RoundMade(t, b, t', b', i)
    ensures if i == 0 then Idle(b', 0) else RunningShort(t', b', i - 1)
  {
    NoExcess(t);
    NoExcess(t');
    FreeBelow(b, b', i);
    if i == 0 { assert Free(b, 0) == 0 && Free(b, 1) == 1; }
  }

  lemma ZeroFree(t: seq<Name>, b: Table, o: seq<Name>, i: Byte)
    requires RoundInv(t, b, o, i)
    ensures Excess(t) < Free(b, i + 1) ==> RunningShort(t, b, i)
  {
  }

  lemma SlotZeroFree(t: seq<Name>, b: Table, o: seq<Name>, i: Byte)
    requires RoundInv(t, b, o, i) && b[i] != []
    ensures i > 0 && (RunningShort(t, b, i) ==> RunningShort(t, b, i - 1))
  {
  }

  lemma BestRound(t: seq<Name>, b: Table, o: seq<Name>, i: Byte, best: nat)
    requires RoundInv(t, b, o, i) && b[i] == [] && best < 0x10000
    requires forall p :: 0 <= p < 0x10000 ==> CountAll(t, p) <= CountAll(t, best)
    requires forall p :: 0 <= p < best ==> CountAll(t, p) < CountAll(t, best)
    ensures forall k :: 0 <= k < |t| ==> 0 !in t[k]
    ensures var x: Byte, y: Byte := best % 256, best / 256;
            var t', b' := ReplaceAll(t, x, y, i), b[i := [x, y]];
            RoundInv(t', b', o, i - 1) && RoundMade(t, b, t', b', i)
  {
    hide RoundInv, CountAll, ReplaceAll, TotalLength;
    var x: Byte, y: Byte := best % 256, best / 256;
    IndexBytes(best);
    forall k | 0 <= k < |t| ensures 0 !in t[k] { NulFree(t, b, o, i, k); }
    CountAllPositive(t, x, y);
    if CountAll(t, best) > 0 {
      BusyRoundKeeps(t, b, o, i, x, y);
      RoundShortens(t, x, y, i);
      RoundUndone(t, b, o, i, x, y);
      PairedNotShort(t, x, y);
    } else {
      assert CountAll(t, 0) >= 0;
      assert best == 0;
      NothingCounted(t);
      IdleRoundKeeps(t, b, o, i);
    }
  }

  lemma LastRound(t: seq<Name>, b: Table, t': seq<Name>, b': Table, o: seq<Name>)
    requires RoundInv(t, b, o, 0) && RoundMade(t, b, t', b', 0)
    ensures IdleTogether(b')
  {
    if exists c: Byte :: Idle(b', c) {
      var c: Byte :| Idle(b', c);
      if c > 0 { assert Idle(b, c); }
    }
  }

  lemma PairedNotShort(t: seq<Name>, a: Byte, b: Byte)
    requires exists k :: 0 <= k < |t| && !NoPair(t[k], a, b)
    ensures !NoPairs(t)
  {
    var k :| 0 <= k < |t| && !NoPair(t[k], a, b);
    assert |t[k]| >= 2;
  }

  /** When no pair has a positive count, no name has two bytes. */
  lemma NothingCounted(t: seq<Name>)
    requires forall p :: 0 <= p < 0x10000 ==> CountAll(t, p) == 0
    ensures NoPairs(t)
  {
    forall k | 0 <= k < |t| ensures |t[k]| < 2 {
      if |t[k]| >= 2 {
        var a, b := t[k][0], t[k][1];
        assert PairAt(t[k], 0, a, b);
        CountAllPositive(t, a, b);
        assert false;
      }
    }
  }

  /** A turn keeps the invariant; over a free slot it makes what a round makes; and after the
      last one slot 0 is idle if any is. */
  lemma TurnKeeps(t: seq<Name>, b: Table, o: seq<Name>, i: Byte)
    requires RoundInv(t, b, o, i)
    ensures var (t', b') := Turn(t, b, i);
            && RoundInv(t', b', o, i - 1) && (i == 0 ==> IdleTogether(b'))
            && (b[i] == [] ==> RoundMade(t, b, t', b', i))
  {
    hide RoundInv, CountAll, ReplaceAll;
    if b[i] == [] {
      BestIsFirst(t, 0x10000);
      BestRound(t, b, o, i, Best(t));
      if i == 0 { LastRound(t, b, Turn(t, b, i).0, Turn(t, b, i).1, o); }
    } else {
      SkipKeeps(t, b, o, i);
      SlotZeroFree(t, b, o, i);
    }
  }

  lemma {:induction false} RoundsKeep(t: seq<Name>, b: Table, o: seq<Name>, i: int)
    requires -1 <= i < 256 && RoundInv(t, b, o, i)
    ensures RoundInv(Rounds(t, b, i).0, Rounds(t, b, i).1, o, -1)
    ensures i >= 0 ==> IdleTogether(Rounds(t, b, i).1)
    decreases i + 1
  {
    hide RoundInv, Turn, IdleTogether;
    if i >= 0 {
      var (t', b') := Turn(t, b, i);
      TurnKeeps(t, b, o, i);
      RoundsKeep(t', b', o, i - 1);
    }
  }

  /** Every compressed symbol expands to the original. */
  lemma CompressedSound(o: seq<Name>)
    requires forall k :: 0 <= k < |o| ==> 0 !in o[k]
    ensures RoundInv(Compressed(o).0, Compressed(o).1, o, -1) && IdleTogether(Compressed(o).1)
  {
    StartInv(o, StartTable(o));
    RoundsKeep(o, StartTable(o), o, 255);
  }

  lemma StartFree(o: seq<Name>)
    ensures Free(StartTable(o), 256) == Unused(o)
  {
    var low := set c: Byte | c in Used(o) && c < 256;
    FreeIsUnused(o, StartTable(o), 256, low);
    assert low == Used(o);
  }

  // Slot 0

  lemma {:induction false} ShortRounds(t: seq<Name>, b: Table, o: seq<Name>, i: Byte)
    requires RoundInv(t, b, o, i) && RunningShort(t, b, i)
    ensures Idle(Rounds(t, b, i).1, 0)
    decreases i as int
  {
    hide RoundInv, Turn, RunningShort, RoundMade, Idle;
    var (t', b') := Turn(t, b, i);
    TurnKeeps(t, b, o, i);
    if b[i] == [] {
      ShorterStill(t, b, t', b', i);
    } else {
      SlotZeroFree(t, b, o, i);
      TurnSkips(t, b, i);
    }
    if i > 0 { ShortRounds(t', b', o, i - 1); }
  }

  lemma TurnSkips(t: seq<Name>, b: Table, i: Byte)
    requires b[i] != []
    ensures Turn(t, b, i) == (t, b)
  {
  }

  /** Whether the token table can be written is whether slot 0 got a pair. From the symbols: it
      does not when they have fewer characters beyond the first of each than there are unused
      byte values, and does when there are more than 255 different ones. */
  lemma CompressedWritable(o: seq<Name>)
    requires forall k :: 0 <= k < |o| ==> 0 !in o[k]
    ensures var (t, b) := Compressed(o);
            && (Writable(b) <==> !Idle(b, 0)) && (!Idle(b, 0) ==> !Real(b, 0) && forall c: Byte :: Sound(b, c))
            && (Excess(o) < Unused(o) ==> !Writable(b))
            && (|Distinct(o)| > 255 ==> Writable(b))
  {
    CompressedSound(o);
    var (t, b) := Compressed(o);
    TableWritable(t, b, o);
    if |Distinct(o)| > 255 { ManyNames(t, b, o); }
    if Excess(o) < Unused(o) {
      StartFree(o);
      StartInv(o, StartTable(o));
      ZeroFree(o, StartTable(o), o, 255);
      ShortRounds(o, StartTable(o), o, 255);
    }
  }
}
