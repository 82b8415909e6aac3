/**
 What every round of optimize_result keeps, and what the finished table guarantees.
 */
module KallsymsRounds {
  import opened KallsymsCodec

  /** A slot filled in a round where no pair occurred. */
  predicate Idle(b: Table, c: Byte) {
    b[c] == [0, 0]
  }

  /** If any slot is idle, slot 0 is. */
  ghost predicate IdleTogether(b: Table) {
    Idle(b, 0) <==> exists c: Byte :: Idle(b, c)
  }

  predicate NoPairs(t: seq<Name>) {
    forall k :: 0 <= k < |t| ==> |t[k]| < 2
  }

  /** Slots above `i` are filled, those at or below hold real characters or nothing; a filled
      slot is sound or idle, idle ones only once no pair is left; every compressed name
      expands to the original; and no token stands for more than some whole name. */
  ghost predicate RoundInv(t: seq<Name>, b: Table, o: seq<Name>, i: int) {
    && -1 <= i < 256
    && NamesExpand(t, b, o)
    && FilledAbove(b, i)
    && SlotsEnd(b)
    && IdleAtEnd(t, b, i)
    && TokensShort(b, o)
    && (i >= 0 ==> b[0] == []) && !Real(b, 0)
  }

  ghost predicate NamesExpand(t: seq<Name>, b: Table, o: seq<Name>) {
    && |t| == |o|
    && forall k :: 0 <= k < |t| ==> AllSound(b, t[k]) && ExpandName(b, t[k]) == o[k] && |t[k]| <= |o[k]|
  }

  ghost predicate FilledAbove(b: Table, i: int) {
    forall c: Byte :: if c > i then b[c] != [] else b[c] == [] || Real(b, c)
  }

  ghost predicate SlotsEnd(b: Table) {
    forall c: Byte :: b[c] != [] ==> Sound(b, c) || Idle(b, c)
  }

  ghost predicate TokensShort(b: Table, o: seq<Name>) {
    forall c: Byte :: TokenShort(b, o, c)
  }

  ghost predicate TokenShort(b: Table, o: seq<Name>, c: Byte) {
    Sound(b, c) ==> exists k :: 0 <= k < |o| && |Expand(b, c)| <= |o[k]|
  }

  ghost predicate IdleAtEnd(t: seq<Name>, b: Table, i: int) {
    forall c: Byte :: c > i && Idle(b, c) ==> NoPairs(t)
  }

  /** No name holds a NUL while slot 0 is free. */
  lemma NulFree(t: seq<Name>, b: Table, o: seq<Name>, i: int, k: nat)
    requires RoundInv(t, b, o, i) && i >= 0 && k < |t|
    ensures 0 !in t[k]
  {
    assert !Sound(b, 0);
  }

  /** A round over an occupied slot does nothing. */
  lemma SkipKeeps(t: seq<Name>, b: Table, o: seq<Name>, i: int)
    requires RoundInv(t, b, o, i) && 0 <= i && b[i] != []
    ensures RoundInv(t, b, o, i - 1)
  {
    assert !Idle(b, i);
    assert i != 0;
  }

  /** The new slot is sound when both its codes occur in names. */
  lemma NewSlotSound(t: seq<Name>, b: Table, o: seq<Name>, i: Byte, x: Byte, y: Byte, k: nat)
    requires RoundInv(t, b, o, i) && b[i] == []
    requires k < |t| && x in t[k] && y in t[k]
    ensures var b': Table := b[i := [x, y]];
            && Sound(b', x) && Sound(b', y) && Sound(b', i) && !Real(b', i)
            && Expand(b', i) == Expand(b', x) + Expand(b', y)
  {
    var b': Table := b[i := [x, y]];
    assert Sound(b, x) && Sound(b, y);
    FillKeeps(b, i, [x, y], x);
    FillKeeps(b, i, [x, y], y);
    assert b'[x] == b[x] && b'[y] == b[y];
    assert Real(b', x) || i < x by { assert b[x] != []; }
    assert Real(b', y) || i < y by { assert b[y] != []; }
  }

  /** Names after a round whose new slot is sound. */
  lemma BusyRoundNames(t: seq<Name>, b: Table, o: seq<Name>, i: Byte, x: Byte, y: Byte)
    requires RoundInv(t, b, o, i) && b[i] == []
    requires Sound(b[i := [x, y]], x) && Sound(b[i := [x, y]], y) && Sound(b[i := [x, y]], i)
    requires Expand(b[i := [x, y]], i) == Expand(b[i := [x, y]], x) + Expand(b[i := [x, y]], y)
    ensures var b': Table, t' := b[i := [x, y]], ReplaceAll(t, x, y, i);
            NamesExpand(t', b', o)
  {
    var b': Table, t' := b[i := [x, y]], ReplaceAll(t, x, y, i);
    forall n | 0 <= n < |t'|
      ensures AllSound(b', t'[n]) && ExpandName(b', t'[n]) == o[n] && |t'[n]| <= |o[n]|
    {
      FillKeepsName(b, i, [x, y], t[n]);
      ReplaceKeepsExpansion(b', t[n], x, y, i);
      CountPositive(t[n], x, y, i);
    }
  }

  /** A round that replaces an occurring pair. */
  lemma BusyRoundKeeps(t: seq<Name>, b: Table, o: seq<Name>, i: Byte, x: Byte, y: Byte)
    requires RoundInv(t, b, o, i) && b[i] == []
    requires exists k :: 0 <= k < |t| && !NoPair(t[k], x, y)
    ensures RoundInv(ReplaceAll(t, x, y, i), b[i := [x, y]], o, i - 1)
    ensures !Idle(b[i := [x, y]], i)
  {
    var k :| 0 <= k < |t| && !NoPair(t[k], x, y);
    var j :| 0 <= j < |t[k]| && PairAt(t[k], j, x, y);
    assert t[k][j] == x && t[k][j + 1] == y;
    NulFree(t, b, o, i, k);
    NewSlotSound(t, b, o, i, x, y, k);
    BusyRoundNames(t, b, o, i, x, y);
    NewTokenShort(t, b, o, i, x, y, k, j);
    FilledSlots(b, i, [x, y]);
    BusyIdle(t, b, i, x, y, k);
  }

  lemma {:induction false} PairWithin(b: Table, s: Name, j: nat)
    requires AllSound(b, s) && j + 1 < |s|
    ensures |Expand(b, s[j])| + |Expand(b, s[j + 1])| <= |ExpandName(b, s)|
  {
    if j > 0 {
      PairWithin(b, s[1..], j - 1);
    } else {
      var rest := s[1..];
      assert ExpandName(b, rest) == Expand(b, rest[0]) + ExpandName(b, rest[1..]);
    }
  }

  /** A filled slot's expansion is the new one, or an old one that did not change. */
  lemma TokensStayShort(b: Table, i: Byte, e: Name, o: seq<Name>)
    requires b[i] == [] && |e| == 2 && SlotsEnd(b) && !Real(b, 0) && TokensShort(b, o)
    requires TokenShort(b[i := e], o, i)
    ensures TokensShort(b[i := e], o)
  {
    var b': Table := b[i := e];
    assert !Real(b', 0);
    forall c: Byte ensures TokenShort(b', o, c) {
      if c != i && Sound(b', c) {
        assert b'[c] == b[c] && b[c] != [];
        assert !Idle(b, c);
        assert Sound(b, c) && TokenShort(b, o, c);
        FillKeeps(b, i, e, c);
      }
    }
  }

  /** The pair of a new slot stands inside some name. */
  lemma NewTokenShort(t: seq<Name>, b: Table, o: seq<Name>, i: Byte, x: Byte, y: Byte, k: nat, j: nat)
    requires RoundInv(t, b, o, i) && b[i] == [] && k < |t| && PairAt(t[k], j, x, y)
    requires Sound(b[i := [x, y]], x) && Sound(b[i := [x, y]], y) && Sound(b[i := [x, y]], i)
    requires Expand(b[i := [x, y]], i) == Expand(b[i := [x, y]], x) + Expand(b[i := [x, y]], y)
    ensures TokensShort(b[i := [x, y]], o)
  {
    assert Sound(b, x) && Sound(b, y);
    FillKeeps(b, i, [x, y], x);
    FillKeeps(b, i, [x, y], y);
    PairWithin(b, t[k], j);
    assert |Expand(b[i := [x, y]], i)| <= |o[k]|;
    TokensStayShort(b, i, [x, y], o);
  }

  lemma BusyIdle(t: seq<Name>, b: Table, i: Byte, x: Byte, y: Byte, k: nat)
    requires IdleAtEnd(t, b, i) && k < |t| && |t[k]| >= 2 && x != 0
    ensures !Idle(b[i := [x, y]], i) && IdleAtEnd(ReplaceAll(t, x, y, i), b[i := [x, y]], i - 1)
  {
    assert !NoPairs(t);
    var b': Table := b[i := [x, y]];
    forall c: Byte ensures !(c > i - 1 && Idle(b', c)) {
      if c != i { assert b'[c] == b[c]; assert !(c > i && Idle(b, c)); }
    }
  }

  /** Filling a free slot leaves the others as they were. */
  lemma FilledSlots(b: Table, i: Byte, e: Name)
    requires b[i] == [] && e != [] && SlotsEnd(b) && FilledAbove(b, i)
    requires Sound(b[i := e], i) || Idle(b[i := e], i)
    ensures SlotsEnd(b[i := e]) && FilledAbove(b[i := e], i - 1)
  {
    var b': Table := b[i := e];
    forall c: Byte | b'[c] != [] ensures Sound(b', c) || Idle(b', c) {
      if c != i && Sound(b, c) { FillKeeps(b, i, e, c); }
    }
  }

  /** A round with no pair left: the slot is filled with pair 0 and no name changes. */
  lemma IdleRoundKeeps(t: seq<Name>, b: Table, o: seq<Name>, i: Byte)
    requires RoundInv(t, b, o, i) && b[i] == [] && NoPairs(t)
    ensures ReplaceAll(t, 0, 0, i) == t
    ensures RoundInv(t, b[i := [0, 0]], o, i - 1)
  {
    var b': Table := b[i := [0, 0]];
    forall n | 0 <= n < |t| ensures AllSound(b', t[n]) && ExpandName(b', t[n]) == o[n] && |t[n]| <= |o[n]| {
      FillKeepsName(b, i, [0, 0], t[n]);
    }
    assert NamesExpand(t, b', o);
    FilledSlots(b, i, [0, 0]);
    assert !Sound(b', i);
    TokensStayShort(b, i, [0, 0], o);
  }

  /** The slot of a character seen in the first `n` names or in `more` holds itself. */
  ghost function OwnSlot(t: seq<Name>, n: nat, more: Name, c: Byte): Name {
    if (exists k :: 0 <= k < n && k < |t| && c in t[k]) || c in more then [c] else []
  }

  lemma NextName(t: seq<Name>, i: nat)
    requires i < |t|
    ensures forall c: Byte :: OwnSlot(t, i, t[i], c) == OwnSlot(t, i + 1, [], c)
  {
  }

  /** At the start the table holds exactly the characters in use. */
  lemma StartInv(o: seq<Name>, b: Table)
    requires forall k :: 0 <= k < |o| ==> 0 !in o[k]
    requires forall c: Byte :: b[c] == OwnSlot(o, |o|, [], c)
    ensures RoundInv(o, b, o, 255)
  {
    forall k | 0 <= k < |o| ensures AllSound(b, o[k]) && ExpandName(b, o[k]) == o[k] {
      forall j | 0 <= j < |o[k]| ensures Real(b, o[k][j]) { assert o[k][j] in o[k]; }
      ExpandRealName(b, o[k]);
    }
    forall c: Byte ensures TokenShort(b, o, c) {
      if Sound(b, c) {
        var k :| 0 <= k < |o| && c in o[k];
        assert |Expand(b, c)| <= |o[k]|;
      }
    }
  }

  // The finished table

  /** Expansion as the recursive routine performs it, cut off after `fuel` nested calls. */
  datatype Expansion = Result(name: Name) | OutOfFuel

  function Run(b: Table, s: Name, fuel: nat): Expansion
    decreases fuel, |s|
  {
    if s == [] then Result([]) else
    var first := if Real(b, s[0]) then Result([s[0]]) else if fuel == 0 then OutOfFuel else Run(b, b[s[0]], fuel - 1);
    match (first, Run(b, s[1..], fuel))
    case (Result(x), Result(y)) => Result(x + y)
    case _ => OutOfFuel
  }

  ghost predicate Finite(b: Table, s: Name) {
    exists fuel: nat :: Run(b, s, fuel).Result?
  }

  /** Every slot can be expanded, so that the token table can be written out. */
  ghost predicate Writable(b: Table) {
    forall c: Byte :: Finite(b, b[c])
  }

  lemma {:induction false} RunSound(b: Table, s: Name, fuel: nat)
    requires AllSound(b, s) && forall k :: 0 <= k < |s| ==> Rank(b, s[k]) <= fuel
    ensures Run(b, s, fuel) == Result(ExpandName(b, s))
    decreases fuel, |s|
  {
    if s != [] {
      RunSound(b, s[1..], fuel);
      var c := s[0];
      if !Real(b, c) {
        var e := b[c];
        assert Sound(b, c);
        assert AllSound(b, e);
        RunSound(b, e, fuel - 1);
        assert e[1..] == [e[1]] && [e[1]][1..] == [];
        assert ExpandName(b, [e[1]]) == Expand(b, e[1]) + [];
        assert ExpandName(b, e) == Expand(b, c);
      }
    }
  }

  lemma {:induction false} IdleZeroNeverEnds(b: Table, fuel: nat, s: Name)
    requires Idle(b, 0) && 0 in s
    ensures Run(b, s, fuel).OutOfFuel?
    decreases fuel, |s|
  {
    if s[0] == 0 {
      assert !Real(b, 0);
      if fuel > 0 { IdleZeroNeverEnds(b, fuel - 1, [0, 0]); }
    } else {
      IdleZeroNeverEnds(b, fuel, s[1..]);
    }
  }

  /** Every slot of the finished table expands finitely, so that the token table can be
      written out, exactly when slot 0 was filled with a pair that occurred. */
  lemma TableWritable(t: seq<Name>, b: Table, o: seq<Name>)
    requires RoundInv(t, b, o, -1) && IdleTogether(b)
    ensures Writable(b) <==> !Idle(b, 0)
    ensures !Idle(b, 0) ==> forall c: Byte :: Sound(b, c)
  {
    if Idle(b, 0) {
      assert !Finite(b, b[0]) by {
        forall fuel: nat ensures !Run(b, b[0], fuel).Result? { IdleZeroNeverEnds(b, fuel, b[0]); }
      }
    } else {
      forall c: Byte ensures Finite(b, b[c]) {
        assert Sound(b, c);
        assert AllSound(b, b[c]);
        RunSound(b, b[c], 256);
      }
    }
  }

  // Which symbol tables end with slot 0 idle

  /** The most rounds that can each shorten some name: no name is ever emptied. */
  function Excess(t: seq<Name>): int {
    TotalLength(t) - NonEmpty(t)
  }

  lemma {:induction false} NoExcess(t: seq<Name>)
    ensures Excess(t) >= 0
    ensures Excess(t) == 0 <==> NoPairs(t)
  {
    if t != [] {
      var n := |t| - 1;
      NoExcess(t[..n]);
      assert NoPairs(t) <==> NoPairs(t[..n]) && |t[n]| < 2;
    }
  }

  /** Number of free slots below `n`. */
  function Free(b: Table, n: nat): nat
    requires n <= 256
  {
    if n == 0 then 0 else Free(b, n - 1) + if b[n - 1] == [] then 1 else 0
  }

  lemma {:induction false} FreeBelow(b: Table, b': Table, n: nat)
    requires n <= 256 && forall c: Byte :: c < n ==> (b'[c] == [] <==> b[c] == [])
    ensures Free(b', n) == Free(b, n)
  {
    if n > 0 { FreeBelow(b, b', n - 1); }
  }

  ghost predicate Occurs(o: seq<Name>, c: Byte) {
    exists k :: 0 <= k < |o| && c in o[k]
  }

  /** The bytes that occur in the names. */
  ghost function Used(o: seq<Name>): set<Byte> {
    set c: Byte | Occurs(o, c)
  }

  /** Number of byte values that occur in no name. */
  ghost function Unused(o: seq<Name>): int {
    256 - |Used(o)|
  }

  lemma {:induction false} FreeIsUnused(o: seq<Name>, b: Table, n: nat, low: set<Byte>)
    requires n <= 256 && forall c: Byte :: b[c] == OwnSlot(o, |o|, [], c)
    requires low == set c: Byte | c in Used(o) && c < n
    ensures Free(b, n) == n - |low|
  {
    if n > 0 {
      var last: Byte := n - 1;
      FreeIsUnused(o, b, n - 1, low - {last});
      assert b[last] == [] <==> last !in Used(o);
    }
  }

  lemma {:induction false} FewCodes(s: Name, codes: set<Byte>)
    requires codes == set c | c in s
    ensures |codes| <= |s|
  {
    if s != [] {
      var n := |s| - 1;
      var before := set c | c in s[..n];
      FewCodes(s[..n], before);
      assert codes == before + {s[n]};
    }
  }

  /** At most as many byte values are in use as there are characters. */
  lemma {:induction false} UsedAtMost(o: seq<Name>)
    ensures |Used(o)| <= TotalLength(o)
  {
    if o != [] {
      var n := |o| - 1;
      UsedAtMost(o[..n]);
      var codes := set c | c in o[n];
      FewCodes(o[n], codes);
      assert Used(o) == Used(o[..n]) + codes by {
        forall c: Byte ensures c in Used(o) <==> c in Used(o[..n]) + codes {
          if Occurs(o[..n], c) { var k :| 0 <= k < n && c in o[..n][k]; assert c in o[k]; }
          if Occurs(o, c) && c !in codes { var k :| 0 <= k < |o| && c in o[k]; assert c in o[..n][k]; }
        }
      }
    }
  }

  /** Up to 128 characters in all, the pairs run out before the slots. */
  lemma SmallTable(o: seq<Name>)
    requires TotalLength(o) <= 128
    ensures Excess(o) < Unused(o)
  {
    UsedAtMost(o);
    if NonEmpty(o) == 0 { AllEmpty(o); }
  }

  lemma {:induction false} AllEmpty(o: seq<Name>)
    requires NonEmpty(o) == 0
    ensures TotalLength(o) == 0
  {
    if o != [] { AllEmpty(o[..|o| - 1]); }
  }

  /** One symbol, _text with its type in front, is such a table. */
  lemma OneSymbol()
    ensures var o: seq<Name> := [[84, 95, 116, 101, 120, 116]]; Excess(o) == 5 && Excess(o) < Unused(o)
  {
    var o: seq<Name> := [[84, 95, 116, 101, 120, 116]];
    assert o[..0] == [];
    SmallTable(o);
  }

  /** The different names that are not empty. */
  ghost function Distinct(o: seq<Name>): set<Name> {
    set k | 0 <= k < |o| && o[k] != [] :: o[k]
  }

  lemma {:induction false} ImageAtMost(names: set<Name>, codes: set<Byte>, f: Byte -> Name)
    requires forall s :: s in names ==> exists c :: c in codes && f(c) == s
    ensures |names| <= |codes|
    decreases |codes|
  {
    if names != {} {
      var s :| s in names;
      var c :| c in codes && f(c) == s;
      forall s' | s' in names - {s} ensures exists c' :: c' in codes - {c} && f(c') == s' {
        var c' :| c' in codes && f(c') == s';
      }
      ImageAtMost(names - {s}, codes - {c}, f);
    }
  }

  /** The codes from 1 to n. */
  ghost function CodesTo(n: nat): (codes: set<Byte>)
    requires n < 256
    ensures |codes| == n && forall c: Byte :: c in codes <==> 1 <= c <= n
  {
    if n == 0 then {} else CodesTo(n - 1) + {n}
  }

  /** With an idle slot 0 every name is down to one code, and there are 255 codes to tell
      the names apart. */
  lemma ManyNames(t: seq<Name>, b: Table, o: seq<Name>)
    requires RoundInv(t, b, o, -1) && |Distinct(o)| > 255
    ensures !Idle(b, 0)
  {
    if Idle(b, 0) {
      var codes := CodesTo(255);
      var f := (c: Byte) => if Sound(b, c) then Expand(b, c) else [];
      forall s | s in Distinct(o) ensures exists c :: c in codes && f(c) == s {
        var k :| 0 <= k < |o| && o[k] != [] && o[k] == s;
        OneCode(t, b, o, k);
        assert t[k][0] in codes && f(t[k][0]) == s;
      }
      ImageAtMost(Distinct(o), codes, f);
      assert false;
    }
  }

  lemma OneCode(t: seq<Name>, b: Table, o: seq<Name>, k: nat)
    requires RoundInv(t, b, o, -1) && Idle(b, 0) && k < |o| && o[k] != []
    ensures |t[k]| == 1 && t[k][0] != 0 && Sound(b, t[k][0]) && Expand(b, t[k][0]) == o[k]
  {
    assert IdleAtEnd(t, b, -1) && NoPairs(t);
    assert !Sound(b, 0);
    var s := t[k];
    assert AllSound(b, s) && ExpandName(b, s) == o[k];
    assert s == [s[0]] && s[1..] == [];
  }
}
