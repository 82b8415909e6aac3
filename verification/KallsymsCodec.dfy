/**
 Token compression of symbol names, on values: replacing a pair of adjacent codes by a free
 code, and the table that undoes it.
 */
module KallsymsCodec {

  type Byte = x: int | 0 <= x < 256

  type Name = seq<Byte>

  /** The index of an adjacent pair in token_profit. */
  function PairIndex(a: Byte, b: Byte): (p: nat)
    ensures p < 0x10000
  {
    a + 256 * b
  }

  predicate PairAt(s: Name, k: int, a: Byte, b: Byte) {
    0 <= k && k + 1 < |s| && s[k] == a && s[k + 1] == b
  }

  predicate NoPair(s: Name, a: Byte, b: Byte) {
    forall k :: 0 <= k < |s| ==> !PairAt(s, k, a, b)
  }

  /** Leftmost, non-overlapping replacement of the pair by one code. */
  function Replace(s: Name, a: Byte, b: Byte, c: Byte): Name {
    if |s| < 2 then s
    else if s[0] == a && s[1] == b then [c] + Replace(s[2..], a, b, c)
    else [s[0]] + Replace(s[1..], a, b, c)
  }

  function Restore(s: Name, a: Byte, b: Byte, c: Byte): Name {
    if s == [] then [] else (if s[0] == c then [a, b] else [s[0]]) + Restore(s[1..], a, b, c)
  }

  /** Number of adjacent positions that hold the pair with index `p`. */
  function CountPair(s: Name, p: nat): nat {
    if |s| < 2 then 0 else (if PairIndex(s[0], s[1]) == p then 1 else 0) + CountPair(s[1..], p)
  }

  function CountAll(t: seq<Name>, p: nat): nat {
    if t == [] then 0 else CountAll(t[..|t| - 1], p) + CountPair(t[|t| - 1], p)
  }

  function TotalLength(t: seq<Name>): nat {
    if t == [] then 0 else TotalLength(t[..|t| - 1]) + |t[|t| - 1]|
  }

  /** Number of names that are not empty. */
  function NonEmpty(t: seq<Name>): nat {
    if t == [] then 0 else NonEmpty(t[..|t| - 1]) + if t[|t| - 1] == [] then 0 else 1
  }

  lemma {:induction false} RestoreReplace(s: Name, a: Byte, b: Byte, c: Byte)
    requires c !in s
    ensures Restore(Replace(s, a, b, c), a, b, c) == s
  {
    if |s| >= 2 {
      if s[0] == a && s[1] == b {
        RestoreReplace(s[2..], a, b, c);
        assert s == [a, b] + s[2..];
      } else {
        RestoreReplace(s[1..], a, b, c);
        assert s == [s[0]] + s[1..];
      }
    }
  }

  lemma {:induction false} ReplaceLeavesNoPair(s: Name, a: Byte, b: Byte, c: Byte)
    requires c != a && c != b
    ensures NoPair(Replace(s, a, b, c), a, b)
    ensures s != [] ==> Replace(s, a, b, c) != [] && (Replace(s, a, b, c)[0] == s[0] || Replace(s, a, b, c)[0] == c)
  {
    if |s| >= 2 {
      var tail := if s[0] == a && s[1] == b then s[2..] else s[1..];
      ReplaceLeavesNoPair(tail, a, b, c);
      var r, r' := Replace(s, a, b, c), Replace(tail, a, b, c);
      assert r[1..] == r';
      forall k | 0 <= k < |r| ensures !PairAt(r, k, a, b) {
        if k > 0 { assert PairAt(r, k, a, b) ==> PairAt(r', k - 1, a, b); }
      }
    }
  }

  lemma {:induction false} ReplaceAbsent(s: Name, a: Byte, b: Byte, c: Byte)
    requires NoPair(s, a, b)
    ensures Replace(s, a, b, c) == s
  {
    if |s| >= 2 {
      assert !PairAt(s, 0, a, b);
      assert NoPair(s[1..], a, b) by {
        forall k | 0 <= k < |s[1..]| ensures !PairAt(s[1..], k, a, b) { assert !PairAt(s, k + 1, a, b); }
      }
      ReplaceAbsent(s[1..], a, b, c);
    }
  }

  /** At its first occurrence the pair becomes the code, and the rest is done afterwards. */
  lemma {:induction false} ReplaceFirst(s: Name, q: nat, a: Byte, b: Byte, c: Byte)
    requires PairAt(s, q, a, b) && forall k :: 0 <= k < q ==> !PairAt(s, k, a, b)
    ensures Replace(s, a, b, c) == s[..q] + [c] + Replace(s[q + 2..], a, b, c)
  {
    if q > 0 {
      assert !PairAt(s, 0, a, b);
      forall k | 0 <= k < q - 1 ensures !PairAt(s[1..], k, a, b) { assert !PairAt(s, k + 1, a, b); }
      ReplaceFirst(s[1..], q - 1, a, b, c);
      assert s[1..][q - 1 + 2..] == s[q + 2..];
      var done := Replace(s[q + 2..], a, b, c);
      calc {
        Replace(s, a, b, c);
        [s[0]] + Replace(s[1..], a, b, c);
        [s[0]] + (s[1..][..q - 1] + [c] + done);
        { assert s[..q] == [s[0]] + s[1..][..q - 1]; }
        s[..q] + [c] + done;
      }
    } else {
      assert s[..q] + [c] == [c];
    }
  }

  /** A pair has a positive count exactly when it occurs, and then replacing it shortens. */
  lemma {:induction false} CountPositive(s: Name, a: Byte, b: Byte, c: Byte)
    ensures CountPair(s, PairIndex(a, b)) > 0 <==> !NoPair(s, a, b)
    ensures |Replace(s, a, b, c)| <= |s| && (Replace(s, a, b, c) == [] <==> s == [])
    ensures !NoPair(s, a, b) ==> |Replace(s, a, b, c)| < |s|
  {
    if |s| >= 2 {
      CountPositive(s[1..], a, b, c);
      if s[0] == a && s[1] == b {
        assert PairAt(s, 0, a, b);
        CountPositive(s[2..], a, b, c);
      } else {
        if !NoPair(s, a, b) {
          var k :| 0 <= k < |s| && PairAt(s, k, a, b);
          assert PairAt(s[1..], k - 1, a, b);
        }
        if !NoPair(s[1..], a, b) {
          var k :| 0 <= k < |s[1..]| && PairAt(s[1..], k, a, b);
          assert PairAt(s, k + 1, a, b);
        }
      }
    }
  }

  function ReplaceAll(t: seq<Name>, a: Byte, b: Byte, c: Byte): seq<Name> {
    seq(|t|, k requires 0 <= k < |t| => Replace(t[k], a, b, c))
  }

  lemma {:induction false} CountAllPositive(t: seq<Name>, a: Byte, b: Byte)
    ensures CountAll(t, PairIndex(a, b)) > 0 <==> exists k :: 0 <= k < |t| && !NoPair(t[k], a, b)
  {
    if t != [] {
      var n := |t| - 1;
      CountAllPositive(t[..n], a, b);
      CountPositive(t[n], a, b, 0);
      if CountAll(t[..n], PairIndex(a, b)) > 0 {
        var k :| 0 <= k < n && !NoPair(t[..n][k], a, b);
        assert !NoPair(t[k], a, b);
      }
      if exists k :: 0 <= k < |t| && !NoPair(t[k], a, b) {
        var k :| 0 <= k < |t| && !NoPair(t[k], a, b);
        if k < n { assert !NoPair(t[..n][k], a, b); }
      }
    }
  }

  /** A round that replaces an occurring pair strictly shortens the whole table, and empties
      no name. */
  lemma {:induction false} RoundShortens(t: seq<Name>, a: Byte, b: Byte, c: Byte)
    ensures TotalLength(ReplaceAll(t, a, b, c)) <= TotalLength(t)
    ensures CountAll(t, PairIndex(a, b)) > 0 ==> TotalLength(ReplaceAll(t, a, b, c)) < TotalLength(t)
    ensures NonEmpty(ReplaceAll(t, a, b, c)) == NonEmpty(t)
  {
    if t != [] {
      var n := |t| - 1;
      RoundShortens(t[..n], a, b, c);
      CountPositive(t[n], a, b, c);
      assert ReplaceAll(t, a, b, c)[..n] == ReplaceAll(t[..n], a, b, c);
    }
  }

  lemma {:induction false} CountAllUpdate(t: seq<Name>, i: nat, s: Name, p: nat)
    requires i < |t|
    ensures CountAll(t[i := s], p) == CountAll(t, p) - CountPair(t[i], p) + CountPair(s, p)
  {
    var n := |t| - 1;
    if i == n {
      assert t[i := s][..n] == t[..n];
    } else {
      CountAllUpdate(t[..n], i, s, p);
      assert t[i := s][..n] == t[..n][i := s];
    }
  }

  // The token table

  /** best_table: entry c is empty, one byte, or two; its length is best_table_len[c]. */
  type Table = t: seq<Name> | |t| == 256 witness seq(256, _ => [])

  predicate Real(t: Table, c: Byte) {
    t[c] == [c]
  }

  function Rank(t: Table, c: Byte): nat {
    if Real(t, c) then 0 else 256 - c
  }

  /** The expansion of `c` ends: it is a real character, or its two codes are real or
      strictly higher slots that end. */
  predicate Sound(t: Table, c: Byte)
    decreases Rank(t, c)
  {
    || Real(t, c)
    || (&& |t[c]| == 2
        && (var d := t[c][0]; (Real(t, d) || c < d) && Sound(t, d))
        && (var d := t[c][1]; (Real(t, d) || c < d) && Sound(t, d)))
  }

  function Expand(t: Table, c: Byte): Name
    requires Sound(t, c)
    decreases Rank(t, c)
  {
    if Real(t, c) then [c] else Expand(t, t[c][0]) + Expand(t, t[c][1])
  }

  predicate AllSound(t: Table, s: Name) {
    forall k :: 0 <= k < |s| ==> Sound(t, s[k])
  }

  function ExpandName(t: Table, s: Name): Name
    requires AllSound(t, s)
  {
    if s == [] then [] else Expand(t, s[0]) + ExpandName(t, s[1..])
  }

  /** Filling a free slot changes no expansion. */
  lemma {:induction false} FillKeeps(t: Table, i: Byte, e: Name, c: Byte)
    requires t[i] == [] && Sound(t, c)
    ensures c != i && Sound(t[i := e], c) && Expand(t[i := e], c) == Expand(t, c)
    decreases Rank(t, c)
  {
    var t': Table := t[i := e];
    if !Real(t, c) {
      FillKeeps(t, i, e, t[c][0]);
      FillKeeps(t, i, e, t[c][1]);
    }
  }

  lemma {:induction false} FillKeepsName(t: Table, i: Byte, e: Name, s: Name)
    requires t[i] == [] && AllSound(t, s)
    ensures i !in s && AllSound(t[i := e], s) && ExpandName(t[i := e], s) == ExpandName(t, s)
  {
    if s != [] {
      FillKeeps(t, i, e, s[0]);
      FillKeepsName(t, i, e, s[1..]);
      assert s == [s[0]] + s[1..];
    }
  }

  /** Replacing a pair by a slot that holds it changes no expansion. */
  lemma {:induction false} ReplaceKeepsExpansion(t: Table, s: Name, a: Byte, b: Byte, c: Byte)
    requires AllSound(t, s) && Sound(t, a) && Sound(t, b) && Sound(t, c)
    requires Expand(t, c) == Expand(t, a) + Expand(t, b)
    ensures AllSound(t, Replace(s, a, b, c))
    ensures ExpandName(t, Replace(s, a, b, c)) == ExpandName(t, s)
  {
    hide Sound, Expand, ExpandName;
    if |s| >= 2 {
      if s[0] == a && s[1] == b {
        ReplaceKeepsExpansion(t, s[2..], a, b, c);
        ExpandCons(t, c, Replace(s[2..], a, b, c));
        ExpandCons(t, b, s[2..]);
        ExpandCons(t, a, [b] + s[2..]);
        assert s == [a] + ([b] + s[2..]);
        var rest := ExpandName(t, s[2..]);
        assert Expand(t, a) + (Expand(t, b) + rest) == Expand(t, c) + rest;
      } else {
        ReplaceKeepsExpansion(t, s[1..], a, b, c);
        ExpandCons(t, s[0], Replace(s[1..], a, b, c));
        ExpandCons(t, s[0], s[1..]);
        assert s == [s[0]] + s[1..];
      }
    }
  }

  lemma ExpandCons(t: Table, c: Byte, s: Name)
    requires Sound(t, c) && AllSound(t, s)
    ensures AllSound(t, [c] + s) && ExpandName(t, [c] + s) == Expand(t, c) + ExpandName(t, s)
  {
    assert ([c] + s)[1..] == s;
  }

  lemma {:induction false} ExpandRealName(t: Table, s: Name)
    requires forall k :: 0 <= k < |s| ==> Real(t, s[k])
    ensures AllSound(t, s) && ExpandName(t, s) == s
  {
    if s != [] {
      ExpandRealName(t, s[1..]);
      assert s == [s[0]] + s[1..];
    }
  }

  lemma {:induction false} ExpandsToReal(t: Table, c: Byte)
    requires Sound(t, c)
    ensures forall d :: d in Expand(t, c) ==> Real(t, d)
    decreases Rank(t, c)
  {
    if !Real(t, c) {
      ExpandsToReal(t, t[c][0]);
      ExpandsToReal(t, t[c][1]);
    }
  }
}
