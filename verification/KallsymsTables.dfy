/**
 Symbol tables for which the written tables fail: names that keep too many codes for their
 length byte, and names that get a token too long for the expansion buffer.
 */
module KallsymsTables {
  import opened KallsymsCodec
  import opened KallsymsRounds
  import opened KallsymsGreedy
  import opened KallsymsOutput

  // Names without a repeated pair

  predicate SamePair(s: Name, j: nat, k: nat) {
    j + 1 < |s| && k + 1 < |s| && s[j] == s[k] && s[j + 1] == s[k + 1]
  }

  ghost predicate DistinctPairs(s: Name) {
    forall j: nat, k: nat :: j < k ==> !SamePair(s, j, k)
  }

  /** The one occurrence of a pair gives way to one code. */
  lemma ReplaceOnce(s: Name, q: nat, a: Byte, b: Byte, c: Byte)
    requires DistinctPairs(s) && PairAt(s, q, a, b)
    ensures Replace(s, a, b, c) == s[..q] + [c] + s[q + 2..]
  {
    forall k | 0 <= k < q ensures !PairAt(s, k, a, b) { assert !SamePair(s, k, q); }
    ReplaceFirst(s, q, a, b, c);
    var rest := s[q + 2..];
    forall k | 0 <= k < |rest| ensures !PairAt(rest, k, a, b) {
      assert !SamePair(s, q, q + 2 + k);
    }
    ReplaceAbsent(rest, a, b, c);
  }

  lemma StillDistinct(s: Name, q: nat, c: Byte, r: Name)
    requires DistinctPairs(s) && c !in s && q + 1 < |s| && r == s[..q] + [c] + s[q + 2..]
    ensures DistinctPairs(r)
  {
    assert forall n :: 0 <= n < |r| ==> (r[n] == c <==> n == q);
    forall j: nat, k: nat | j < k ensures !SamePair(r, j, k) {
      var j', k' := if j < q then j else j + 1, if k < q then k else k + 1;
      assert !SamePair(s, j', k');
    }
  }

  /** A round leaves it without a repeated pair and takes at most one code off. */
  lemma ReplaceDistinct(s: Name, a: Byte, b: Byte, c: Byte)
    requires DistinctPairs(s) && c !in s
    ensures DistinctPairs(Replace(s, a, b, c)) && |Replace(s, a, b, c)| >= |s| - 1
  {
    if NoPair(s, a, b) {
      ReplaceAbsent(s, a, b, c);
    } else {
      var q :| 0 <= q < |s| && PairAt(s, q, a, b);
      ReplaceOnce(s, q, a, b, c);
      StillDistinct(s, q, c, Replace(s, a, b, c));
    }
  }

  lemma FreshSlot(t: seq<Name>, b: Table, o: seq<Name>, i: Byte, k: nat)
    requires RoundInv(t, b, o, i) && b[i] == [] && k < |t|
    ensures i !in t[k]
  {
    assert !Sound(b, i);
  }

  lemma {:induction false} RoundsDistinct(t: seq<Name>, b: Table, o: seq<Name>, i: int, k: nat)
    requires -1 <= i < 256 && RoundInv(t, b, o, i) && k < |t| && DistinctPairs(t[k])
    ensures |Rounds(t, b, i).0| == |t| && |Rounds(t, b, i).0[k]| >= |t[k]| - Free(b, i + 1)
    decreases i + 1
  {
    hide RoundInv, Best, DistinctPairs;
    if i >= 0 {
      var (t', b') := Turn(t, b, i);
      TurnKeeps(t, b, o, i);
      if b[i] == [] {
        FreshSlot(t, b, o, i, k);
        ReplaceDistinct(t[k], Best(t) % 256, Best(t) / 256, i);
      }
      FreeBelow(b, b', i);
      RoundsDistinct(t', b', o, i - 1, k);
    }
  }

  /** A name without a repeated pair loses at most one code for every unused byte value. */
  lemma KeepsCodes(o: seq<Name>, k: nat)
    requires (forall n :: 0 <= n < |o| ==> 0 !in o[n]) && k < |o| && DistinctPairs(o[k])
    ensures |Compressed(o).0| == |o| && |Compressed(o).0[k]| >= |o[k]| - Unused(o)
  {
    StartInv(o, StartTable(o));
    StartFree(o);
    RoundsDistinct(o, StartTable(o), o, 255, k);
  }

  /** So its length byte leads astray as soon as it has 256 characters more than there are
      unused byte values. */
  lemma LengthByteFails(o: seq<Name>, k: nat)
    requires (forall n :: 0 <= n < |o| ==> 0 !in o[n]) && k < |o| && DistinctPairs(o[k])
    requires |o[k]| >= 256 + Unused(o)
    ensures var t := Compressed(o).0;
            k < |t| && Walk(NameStream(t), Offset(t, k), 1) != Offset(t, k + 1)
  {
    hide Compressed, DistinctPairs;
    KeepsCodes(o, k);
    StepExact(Compressed(o).0, k);
  }

  // A name of 500 characters, the most that is read, over 89 printable ones

  /** Position n in block n / 89: the block's steps are of its number plus one, modulo 89. */
  function Letter(n: nat): Byte {
    33 + (n % 89) * (n / 89 + 1) % 89
  }

  function LongName(): Name { seq(500, n requires 0 <= n < 500 => Letter(n)) }

  lemma LetterStep(q: nat, r: nat)
    requires q <= 5 && r < 89
    ensures var n := 89 * q + r;
            && Letter(n) == 33 + r * (q + 1) % 89
            && Letter(n + 1) == 33 + (r + 1) * (q + 1) % 89
  {
    var n := 89 * q + r;
    assert n / 89 == q && n % 89 == r;
    if r == 88 {
      assert (n + 1) / 89 == q + 1 && (n + 1) % 89 == 0;
      assert (r + 1) * (q + 1) == 89 * (q + 1);
    } else {
      assert (n + 1) / 89 == q && (n + 1) % 89 == r + 1;
    }
  }

  /** Within a block no letter comes twice, and the step tells the block. */
  lemma LetterPairs(q: nat, r: nat, q': nat, r': nat)
    requires q <= 5 && r < 89 && q' <= 5 && r' < 89
    requires Letter(89 * q + r) == Letter(89 * q' + r') && Letter(89 * q + r + 1) == Letter(89 * q' + r' + 1)
    ensures q == q' && r == r'
  {
    LetterStep(q, r);
    LetterStep(q', r');
    hide Letter;
    BlockTold(r, q + 1, r', q' + 1);
    SameResidue(r, r', q + 1);
  }

  lemma BlockTold(r: nat, d: nat, r': nat, d': nat)
    requires r < 89 && 1 <= d <= 6 && r' < 89 && 1 <= d' <= 6
    requires r * d % 89 == r' * d' % 89 && (r + 1) * d % 89 == (r' + 1) * d' % 89
    ensures d == d'
  {
    StepMod(r, d);
    StepMod(r', d');
    StepTold(r * d % 89, d, d');
  }

  lemma StepTold(a: nat, d: nat, d': nat)
    requires a < 89 && 1 <= d <= 6 && 1 <= d' <= 6 && (a + d) % 89 == (a + d') % 89
    ensures d == d'
  {
  }

  lemma StepMod(r: nat, d: nat)
    requires r < 89 && 1 <= d <= 6
    ensures (r + 1) * d % 89 == (r * d % 89 + d) % 89
  {
    assert (r + 1) * d == r * d + d;
    assert r * d == 89 * (r * d / 89) + r * d % 89;
    assert (r + 1) * d == 89 * (r * d / 89) + (r * d % 89 + d);
  }

  lemma SameResidue(r: nat, r': nat, d: nat)
    requires r < 89 && r' < 89 && 1 <= d <= 6 && r * d % 89 == r' * d % 89
    ensures r == r'
  {
    var p, p' := r * d, r' * d;
    assert p == 89 * (p / 89) + p % 89 && p' == 89 * (p' / 89) + p' % 89;
    assert d * (r - r') == p - p';
    Coprime(d, r - r', p / 89 - p' / 89);
  }

  lemma Coprime(d: int, x: int, k: int)
    requires 1 <= d <= 6 && -89 < x < 89 && d * x == 89 * k
    ensures x == 0
  {
    if d == 1 { Multiple1(x, k); } else if d == 2 { Multiple2(x, k); } else if d == 3 { Multiple3(x, k); }
    else if d == 4 { Multiple2(x, k / 2); } else if d == 5 { Multiple5(x, k); } else { Multiple3(x, k / 2); }
  }

  lemma Multiple1(x: int, k: int)
    requires -89 < x < 89 && x == 89 * k
    ensures x == 0
  {
  }

  lemma Multiple2(x: int, k: int)
    requires -89 < x < 89 && 2 * x == 89 * k
    ensures x == 0
  {
  }

  lemma Multiple3(x: int, k: int)
    requires -89 < x < 89 && 3 * x == 89 * k
    ensures x == 0
  {
  }

  lemma Multiple5(x: int, k: int)
    requires -89 < x < 89 && 5 * x == 89 * k
    ensures x == 0
  {
  }

  lemma LongNameDistinct()
    ensures DistinctPairs(LongName()) && 0 !in LongName()
  {
    var s := LongName();
    forall j: nat, k: nat | j < k ensures !SamePair(s, j, k) {
      if SamePair(s, j, k) {
        assert 89 * (j / 89) + j % 89 == j && 89 * (k / 89) + k % 89 == k;
        LetterPairs(j / 89, j % 89, k / 89, k % 89);
        assert false;
      }
    }
  }

  /** The codes from `lo` on. */
  ghost function Range(lo: nat, n: nat): (codes: set<Byte>)
    requires lo + n <= 256
    ensures |codes| == n && forall c: Byte :: c in codes <==> lo <= c < lo + n
  {
    if n == 0 then {} else Range(lo, n - 1) + {lo + n - 1}
  }

  /** One symbol of 500 characters keeps at least 333 codes, and its length byte leads astray. */
  lemma LongNameFails()
    ensures var t := Compressed([LongName()]).0;
            |t| == 1 && |t[0]| >= 333 && Walk(NameStream(t), Offset(t, 0), 1) != Offset(t, 1)
  {
    hide DistinctPairs, LongName, Compressed, NameStream, Used;
    var o := [LongName()];
    LongNameDistinct();
    LongNameUses();
    KeepsCodes(o, 0);
    LengthByteFails(o, 0);
    assert |LongName()| == 500 by { LongNameUses(); }
  }

  lemma LongNameUses()
    ensures |LongName()| == 500 && Unused([LongName()]) <= 167
  {
    var o := [LongName()];
    forall c: Byte | 33 <= c < 122 ensures Occurs(o, c) {
      assert LongName()[c - 33] == Letter(c - 33) == c;
      assert c in o[0];
    }
    SubsetAtMost(Range(33, 89), Used(o));
  }

  lemma {:induction false} SubsetAtMost<T>(a: set<T>, b: set<T>)
    requires a <= b
    ensures |a| <= |b|
  {
    if a != {} {
      var x :| x in a;
      SubsetAtMost(a - {x}, b - {x});
    }
  }

  // A token too long for the buffer

  function Rep(c: Byte, n: nat): Name { seq(n, _ => c) }

  function Pow2(r: nat): nat { if r == 0 then 1 else 2 * Pow2(r - 1) }

  lemma {:induction false} ReplaceRep(c: Byte, n: nat, i: Byte)
    ensures Replace(Rep(c, 2 * n), c, c, i) == Rep(i, n)
  {
    if n > 0 {
      var s := Rep(c, 2 * n);
      ReplaceRep(c, n - 1, i);
      assert s[2..] == Rep(c, 2 * (n - 1));
      assert Rep(i, n) == [i] + Rep(i, n - 1);
    }
  }

  /** The only pair in a run of one code is that code twice. */
  lemma {:induction false} CountRep(c: Byte, n: nat, p: nat)
    ensures CountPair(Rep(c, n), p) == if n > 0 && p == PairIndex(c, c) then n - 1 else 0
  {
    if n > 1 {
      CountRep(c, n - 1, p);
      assert Rep(c, n)[1..] == Rep(c, n - 1);
    }
  }

  lemma {:induction false} CountAllFirst(s: Name, t: seq<Name>, p: nat)
    ensures CountAll([s] + t, p) == CountPair(s, p) + CountAll(t, p)
  {
    var all := [s] + t;
    if t == [] {
      assert all[..0] == [];
    } else {
      CountAllFirst(s, t[..|t| - 1], p);
      assert all[..|all| - 1] == [s] + t[..|t| - 1];
    }
  }

  /** Two equal runs of 2^r of a code that stands for 2^(big - r) characters; beside them names
      without that code, in which no pair comes twice; and r slots still free. */
  ghost predicate Twins(t: seq<Name>, b: Table, i: int, c: Byte, r: nat, big: nat, rest: seq<Name>) {
    && -1 <= i < 256 && r <= big
    && t == [Rep(c, Pow2(r)), Rep(c, Pow2(r))] + rest
    && Sound(b, c) && |Expand(b, c)| == Pow2(big - r)
    && (forall k :: 0 <= k < |rest| ==> c !in rest[k])
    && (forall p: nat :: CountAll(rest, p) <= 1)
    && Free(b, i + 1) >= r
  }

  lemma TwinsCount(c: Byte, n: nat, rest: seq<Name>, p: nat)
    requires CountAll(rest, p) <= 1
    requires p == PairIndex(c, c) ==> CountAll(rest, p) == 0
    ensures var t := [Rep(c, n), Rep(c, n)] + rest;
            if n > 0 && p == PairIndex(c, c) then CountAll(t, p) == 2 * (n - 1) else CountAll(t, p) <= 1
  {
    var s := Rep(c, n);
    CountRep(c, n, p);
    CountAllFirst(s, rest, p);
    CountAllFirst(s, [s] + rest, p);
    assert [s, s] + rest == [s] + ([s] + rest);
  }

  lemma {:induction false} NotInRest(rest: seq<Name>, c: Byte)
    requires forall k :: 0 <= k < |rest| ==> c !in rest[k]
    ensures CountAll(rest, PairIndex(c, c)) == 0
  {
    CountAllPositive(rest, c, c);
    forall k | 0 <= k < |rest| ensures NoPair(rest[k], c, c) {
    }
  }

  /** The twins' own pair is the best. */
  lemma TwinsBest(t: seq<Name>, b: Table, i: int, c: Byte, r: nat, big: nat, rest: seq<Name>)
    requires Twins(t, b, i, c, r, big, rest) && r > 0
    ensures Best(t) == PairIndex(c, c)
  {
    hide Best, CountAll, BestBelow;
    NotInRest(rest, c);
    BestIsFirst(t, 0x10000);
    BestIs(t);
    TwinsCount(c, Pow2(r), rest, PairIndex(c, c));
    TwinsCount(c, Pow2(r), rest, Best(t));
    PowPositive(r - 1);
    assert CountAll(t, PairIndex(c, c)) <= CountAll(t, Best(t));
  }

  lemma BestIs(t: seq<Name>)
    ensures Best(t) == BestBelow(t, 0x10000) < 0x10000
  {
  }

  lemma TwinsHalved(c: Byte, r: nat, rest: seq<Name>, i: Byte)
    requires r > 0 && forall k :: 0 <= k < |rest| ==> c !in rest[k]
    ensures ReplaceAll([Rep(c, Pow2(r)), Rep(c, Pow2(r))] + rest, c, c, i) == [Rep(i, Pow2(r - 1)), Rep(i, Pow2(r - 1))] + rest
  {
    ReplaceRep(c, Pow2(r - 1), i);
    forall k | 0 <= k < |rest| ensures Replace(rest[k], c, c, i) == rest[k] { ReplaceAbsent(rest[k], c, c, i); }
  }

  lemma TwinsTurn(t: seq<Name>, b: Table, o: seq<Name>, i: Byte, c: Byte, r: nat, big: nat, rest: seq<Name>)
    requires RoundInv(t, b, o, i) && Twins(t, b, i, c, r, big, rest) && r > 0 && b[i] == []
    ensures Twins(Turn(t, b, i).0, Turn(t, b, i).1, i - 1, i, r - 1, big, rest)
  {
    var b': Table := b[i := [c, c]];
    TwinsBest(t, b, i, c, r, big, rest);
    assert PairIndex(c, c) % 256 == c && PairIndex(c, c) / 256 == c;
    TwinsHalved(c, r, rest, i);
    forall k | 0 <= k < |rest| ensures i !in rest[k] { FreshSlot(t, b, o, i, k + 2); assert t[k + 2] == rest[k]; }
    PowPositive(r);
    assert t[0] == Rep(c, Pow2(r)) && t[0][0] == c;
    NewSlotSound(t, b, o, i, c, c, 0);
    FillKeeps(b, i, [c, c], c);
    FreeBelow(b, b', i);
    assert Turn(t, b, i) == (ReplaceAll(t, c, c, i), b') by { hide Best; }
  }

  lemma TwinsSkip(t: seq<Name>, b: Table, i: Byte, c: Byte, r: nat, big: nat, rest: seq<Name>)
    requires Twins(t, b, i, c, r, big, rest) && b[i] != []
    ensures Turn(t, b, i) == (t, b) && Twins(t, b, i - 1, c, r, big, rest)
  {
  }

  /** A token once made stays. */
  lemma {:induction false} TokenStays(t: seq<Name>, b: Table, o: seq<Name>, i: int, c: Byte)
    requires -1 <= i < 256 && RoundInv(t, b, o, i) && Sound(b, c)
    ensures Sound(Rounds(t, b, i).1, c) && Expand(Rounds(t, b, i).1, c) == Expand(b, c)
    decreases i + 1
  {
    hide RoundInv, Best, Sound, Expand;
    if i >= 0 {
      var (t', b') := Turn(t, b, i);
      TurnKeeps(t, b, o, i);
      if b[i] == [] { FillKeeps(b, i, b'[i], c); }
      TokenStays(t', b', o, i - 1, c);
    }
  }

  lemma {:induction false} TwinsRounds(t: seq<Name>, b: Table, o: seq<Name>, i: int, c: Byte, r: nat, big: nat, rest: seq<Name>)
    returns (d: Byte)
    requires -1 <= i < 256 && RoundInv(t, b, o, i) && Twins(t, b, i, c, r, big, rest)
    ensures Sound(Rounds(t, b, i).1, d) && |Expand(Rounds(t, b, i).1, d)| == Pow2(big)
    decreases i + 1
  {
    hide RoundInv, Turn, Sound, Expand;
    if r == 0 {
      TokenStays(t, b, o, i, c);
      d := c;
    } else {
      assert i >= 0;
      var (t', b') := Turn(t, b, i);
      TurnKeeps(t, b, o, i);
      if b[i] == [] {
        TwinsTurn(t, b, o, i, c, r, big, rest);
        d := TwinsRounds(t', b', o, i - 1, i, r - 1, big, rest);
      } else {
        TwinsSkip(t, b, i, c, r, big, rest);
        d := TwinsRounds(t', b', o, i - 1, c, r, big, rest);
      }
    }
  }

  /** A symbol of 2^big equal letters that comes twice, among others that do not hold the letter
      and in which no pair comes twice, becomes one token of all its letters. */
  lemma TwinsToken(a: Byte, big: nat, rest: seq<Name>) returns (d: Byte)
    requires a != 0 && (forall k :: 0 <= k < |rest| ==> 0 !in rest[k] && a !in rest[k])
    requires forall p: nat :: CountAll(rest, p) <= 1
    requires Unused([Rep(a, Pow2(big)), Rep(a, Pow2(big))] + rest) >= big
    ensures var b := Compressed([Rep(a, Pow2(big)), Rep(a, Pow2(big))] + rest).1;
            Sound(b, d) && |Expand(b, d)| == Pow2(big)
  {
    var o := [Rep(a, Pow2(big)), Rep(a, Pow2(big))] + rest;
    forall k | 0 <= k < |o| ensures 0 !in o[k] { if k >= 2 { assert o[k] == rest[k - 2]; } }
    StartInv(o, StartTable(o));
    StartFree(o);
    PowPositive(big);
    assert o[0][0] == a && a in o[0];
    assert StartTable(o)[a] == [a];
    assert Pow2(big - big) == 1;
    hide RoundInv, Used, CountAll;
    d := TwinsRounds(o, StartTable(o), o, 255, a, big, big, rest);
  }

  lemma {:induction false} PowPositive(r: nat)
    ensures Pow2(r) >= 1
  {
    if r > 0 { PowPositive(r - 1); }
  }

  // One such table

  function ShortName(i: nat): Name
    requires i < 256
  {
    [66 + i / 16, 66 + i % 16]
  }

  function ShortNames(n: nat): seq<Name>
    requires n <= 256
  {
    seq(n, i requires 0 <= i < n => ShortName(i))
  }

  /** Two symbols of 128 equal letters and 256 different ones of two others. */
  function OverrunTable(): seq<Name> { [Rep(65, Pow2(7)), Rep(65, Pow2(7))] + ShortNames(256) }

  lemma ShortNameTold(i: nat, j: nat)
    requires i < 256 && j < 256 && ShortName(i) == ShortName(j)
    ensures i == j
  {
    assert ShortName(i)[0] == ShortName(j)[0] && ShortName(i)[1] == ShortName(j)[1];
    assert i == 16 * (i / 16) + i % 16 && j == 16 * (j / 16) + j % 16;
  }

  lemma ShortPair(i: nat, p: nat)
    requires i < 256
    ensures CountPair(ShortName(i), p) == if p == PairIndex(66 + i / 16, 66 + i % 16) then 1 else 0
  {
    assert ShortName(i)[1..] == [66 + i % 16];
  }

  lemma ShortIndexTold(i: nat, j: nat)
    requires i < 256 && j < 256
    ensures PairIndex(66 + i / 16, 66 + i % 16) == PairIndex(66 + j / 16, 66 + j % 16) ==> i == j
  {
    assert i == 16 * (i / 16) + i % 16 && j == 16 * (j / 16) + j % 16;
  }

  lemma {:induction false} ShortCounts(n: nat, p: nat)
    requires n <= 256
    ensures CountAll(ShortNames(n), p) <= 1
    ensures CountAll(ShortNames(n), p) == 1 ==> exists i: nat :: i < n && CountPair(ShortName(i), p) == 1
  {
    if n > 0 {
      ShortCounts(n - 1, p);
      assert ShortNames(n)[..n - 1] == ShortNames(n - 1);
      ShortPair(n - 1, p);
      if CountAll(ShortNames(n - 1), p) == 1 {
        var i: nat :| i < n - 1 && CountPair(ShortName(i), p) == 1;
        ShortPair(i, p);
        ShortIndexTold(i, n - 1);
      }
    }
  }

  ghost function NamesTo(n: nat): (names: set<Name>)
    requires n <= 256
    ensures forall s :: s in names ==> exists i: nat :: i < n && s == ShortName(i)
    ensures |names| == n
  {
    if n == 0 then {} else
    assert ShortName(n - 1) !in NamesTo(n - 1) by {
      if ShortName(n - 1) in NamesTo(n - 1) {
        var i: nat :| i < n - 1 && ShortName(n - 1) == ShortName(i);
        ShortNameTold(i, n - 1);
      }
    }
    NamesTo(n - 1) + {ShortName(n - 1)}
  }

  lemma OverrunAt(k: nat)
    requires k < 258
    ensures |OverrunTable()| == 258
    ensures OverrunTable()[k] == if k < 2 then Rep(65, Pow2(7)) else ShortName(k - 2)
  {
  }

  lemma OverrunLetters(k: nat)
    requires k < 258
    ensures |OverrunTable()| == 258 && forall c: Byte :: c in OverrunTable()[k] ==> 65 <= c < 82
  {
    OverrunAt(k);
    hide OverrunTable;
  }

  lemma OverrunUnused()
    ensures Unused(OverrunTable()) >= 7
  {
    OverrunAt(0);
    hide OverrunTable;
    var o := OverrunTable();
    forall c: Byte | c in Used(o) ensures c in Range(65, 17) {
      assert Occurs(o, c);
      var k :| 0 <= k < |o| && c in o[k];
      OverrunLetters(k);
    }
    hide Occurs;
    assert Used(o) <= Range(65, 17);
    SubsetAtMost(Used(o), Range(65, 17));
  }

  lemma OverrunDistinct()
    ensures |Distinct(OverrunTable())| > 255
  {
    OverrunAt(0);
    hide OverrunTable;
    var o := OverrunTable();
    forall s | s in NamesTo(256) ensures s in Distinct(o) {
      var i: nat :| i < 256 && s == ShortName(i);
      OverrunAt(i + 2);
      assert o[i + 2] == s;
    }
    SubsetAtMost(NamesTo(256), Distinct(o));
  }

  /** The tool expands a token of 128 letters into a buffer that holds 127 and a NUL. */
  lemma OverrunTableFails()
    ensures forall k :: 0 <= k < |OverrunTable()| ==> 0 !in OverrunTable()[k]
    ensures Built(OverrunTable()).Overrun?
  {
    var o, rest := OverrunTable(), ShortNames(256);
    OverrunUnused();
    OverrunDistinct();
    OverrunAt(0);
    forall k | 0 <= k < |o| ensures 0 !in o[k] { OverrunLetters(k); }
    CompressedWritable(o);
    forall p: nat ensures CountAll(rest, p) <= 1 { ShortCounts(256, p); }
    assert forall k :: 0 <= k < |rest| ==> 0 !in rest[k] && 65 !in rest[k];
    assert Pow2(7) == 128 by { assert Pow2(3) == 8; assert Pow2(5) == 32; }
    hide Compressed, Sound, Expand, CountAll, Distinct, Used, ShortNames;
    var d := TwinsToken(65, 7, rest);
    assert |Expand(Compressed(o).1, d)| > KSYM_NAME_LEN;
  }
}
