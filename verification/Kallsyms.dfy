/**
 kallsyms' globals, updated in place: the symbol buffers, the pair counts and the table.
 */
module Kallsyms {
  import opened KallsymsCodec
  import opened KallsymsBuffer
  import opened KallsymsRounds
  import opened KallsymsGreedy
  import opened KallsymsOutput

  /** Looking at one more byte adds one more adjacent position. */
  lemma {:induction false} CountSnoc(s: Name, n: nat, p: nat)
    requires 1 <= n < |s|
    ensures CountPair(s[..n + 1], p) == CountPair(s[..n], p) + if PairIndex(s[n - 1], s[n]) == p then 1 else 0
  {
    if n > 1 {
      CountSnoc(s[1..], n - 1, p);
      assert s[1..][..n - 1] == s[..n][1..] && s[1..][..n] == s[..n + 1][1..];
    } else {
      assert s[..1][1..] == [] && s[..2][1..] == [s[1]];
    }
  }

  class Compressor {
    const sym: seq<array<Byte>>
    var len: seq<nat>
    const tokenProfit: array<int>
    var bestTable: Table

    ghost predicate Valid()
      reads this, sym
    {
      && |len| == |sym|
      && tokenProfit.Length == 0x10000
      && (forall i, j :: 0 <= i < j < |sym| ==> sym[i] != sym[j])
      && (forall k :: 0 <= k < |sym| ==> len[k] < sym[k].Length && sym[k][len[k]] == 0)
    }

    ghost function Contents(): seq<Name>
      requires Valid()
      reads this, sym
    {
      seq(|sym|, k requires 0 <= k < |sym| reads this, sym requires Valid() => sym[k][..len[k]])
    }

    /** token_profit holds, for every pair, the number of adjacent positions that hold it. */
    ghost predicate Counted(t: seq<Name>)
      requires tokenProfit.Length == 0x10000
      reads tokenProfit
    {
      forall p :: 0 <= p < 0x10000 ==> tokenProfit[p] == CountAll(t, p)
    }

    /** The buffers of the valid symbols, each with its terminator; the counts start at zero. */
    constructor (sym: seq<array<Byte>>, len: seq<nat>)
      requires |len| == |sym| && forall i, j :: 0 <= i < j < |sym| ==> sym[i] != sym[j]
      requires forall k :: 0 <= k < |sym| ==> len[k] < sym[k].Length && sym[k][len[k]] == 0
      ensures Valid() && this.sym == sym && this.len == len && fresh(tokenProfit)
      ensures forall p :: 0 <= p < 0x10000 ==> tokenProfit[p] == 0
      ensures forall c: Byte :: bestTable[c] == []
    {
      this.sym, this.len := sym, len;
      tokenProfit := new int[0x10000](_ => 0);
      bestTable := seq(256, _ => []);
    }

    /** Count all the pairs of a symbol. */
    method LearnSymbol(symbol: array<Byte>, n: nat)
      requires n <= symbol.Length && tokenProfit.Length == 0x10000
      modifies tokenProfit
      ensures forall p :: 0 <= p < 0x10000 ==> tokenProfit[p] == old(tokenProfit[p]) + CountPair(symbol[..n], p)
    {
      ghost var s := symbol[..n];
      ghost var seen := s[..if n == 0 then 0 else 1];
      assert forall p: nat :: CountPair(seen, p) == 0;
      var i := 0;
      while i + 1 < n
        invariant 0 <= i && (i + 1 <= n || i == n == 0)
        invariant forall p :: 0 <= p < 0x10000 ==>
                    tokenProfit[p] == old(tokenProfit[p]) + CountPair(s[..if n == 0 then 0 else i + 1], p)
      {
        var index := PairIndex(symbol[i], symbol[i + 1]);
        ghost var before := tokenProfit[..];
        tokenProfit[index] := tokenProfit[index] + 1;
        forall p | 0 <= p < 0x10000
          ensures tokenProfit[p] == old(tokenProfit[p]) + CountPair(s[..i + 2], p)
        {
          CountSnoc(s, i + 1, p);
          assert before[p] == old(tokenProfit[p]) + CountPair(s[..i + 1], p);
        }
        i := i + 1;
      }
      assert s[..if n == 0 then 0 else i + 1] == s;
    }

    /** Take them off the counts again. */
    method ForgetSymbol(symbol: array<Byte>, n: nat)
      requires n <= symbol.Length && tokenProfit.Length == 0x10000
      modifies tokenProfit
      ensures forall p :: 0 <= p < 0x10000 ==> tokenProfit[p] == old(tokenProfit[p]) - CountPair(symbol[..n], p)
    {
      ghost var s := symbol[..n];
      ghost var seen := s[..if n == 0 then 0 else 1];
      assert forall p: nat :: CountPair(seen, p) == 0;
      var i := 0;
      while i + 1 < n
        invariant 0 <= i && (i + 1 <= n || i == n == 0)
        invariant forall p :: 0 <= p < 0x10000 ==>
                    tokenProfit[p] == old(tokenProfit[p]) - CountPair(s[..if n == 0 then 0 else i + 1], p)
      {
        var index := PairIndex(symbol[i], symbol[i + 1]);
        ghost var before := tokenProfit[..];
        tokenProfit[index] := tokenProfit[index] - 1;
        forall p | 0 <= p < 0x10000
          ensures tokenProfit[p] == old(tokenProfit[p]) - CountPair(s[..i + 2], p)
        {
          CountSnoc(s, i + 1, p);
          assert before[p] == old(tokenProfit[p]) - CountPair(s[..i + 1], p);
        }
        i := i + 1;
      }
      assert s[..if n == 0 then 0 else i + 1] == s;
    }

    /** One symbol of compress_symbols: skipped when the pair is absent, otherwise its counts
        are taken off, its buffer rewritten, and its new counts added. */
    method CompressOne(i: nat, a: Byte, b: Byte, idx: Byte)
      requires Valid() && i < |sym| && 0 !in Contents()[i] && Counted(Contents())
      modifies this`len, sym[i], tokenProfit
      ensures Valid() && Contents() == old(Contents())[i := Replace(old(Contents())[i], a, b, idx)]
      ensures Counted(Contents())
    {
      ghost var t := Contents();
      assert t[i] == sym[i][..len[i]];
      var p2 := Find(sym[i], 0, len[i], a, b);
      if p2 == -1 {
        ReplaceAbsent(t[i], a, b, idx);
        return;
      }
      ForgetSymbol(sym[i], len[i]);
      var n := CompressSymbol(sym[i], len[i], a, b, idx);
      len := len[i := n];
      LearnSymbol(sym[i], n);
      ghost var s := Replace(t[i], a, b, idx);
      assert Contents() == t[i := s];
      forall p | 0 <= p < 0x10000 ensures tokenProfit[p] == CountAll(t[i := s], p) {
        CountAllUpdate(t, i, s, p);
      }
    }

    method CompressSymbols(a: Byte, b: Byte, idx: Byte)
      requires Valid() && Counted(Contents())
      requires forall k :: 0 <= k < |sym| ==> 0 !in Contents()[k]
      modifies this`len, sym, tokenProfit
      ensures Valid() && Contents() == ReplaceAll(old(Contents()), a, b, idx)
      ensures Counted(Contents())
    {
      ghost var t := Contents();
      var i := 0;
      while i < |sym|
        invariant 0 <= i <= |sym| && Valid() && Counted(Contents())
        invariant forall k :: 0 <= k < |sym| ==> Contents()[k] == if k < i then Replace(t[k], a, b, idx) else t[k]
      {
        CompressOne(i, a, b, idx);
        i := i + 1;
      }
      assert Contents() == ReplaceAll(t, a, b, idx);
    }

    /** The first of the pairs with the largest count. */
    method FindBestToken(ghost t: seq<Name>) returns (best: nat)
      requires tokenProfit.Length == 0x10000 && Counted(t)
      ensures best == Best(t)
    {
      hide CountAll;
      var bestProfit := -10000;
      best := 0;
      var i := 0;
      while i < 0x10000
        invariant 0 <= i <= 0x10000 && best < 0x10000
        invariant if i == 0 then best == 0 && bestProfit == -10000
                  else best == BestBelow(t, i) && bestProfit == tokenProfit[best]
      {
        if tokenProfit[i] > bestProfit {
          best := i;
          bestProfit := tokenProfit[i];
        }
        i := i + 1;
      }
    }

    /** The characters in use take their own slots. */
    method InsertRealSymbols()
      requires Valid()
      modifies this`bestTable
      ensures forall c: Byte :: bestTable[c] == OwnSlot(Contents(), |sym|, [], c)
    {
      bestTable := seq(256, _ => []);
      ghost var t := Contents();
      assert forall c: Byte :: bestTable[c] == OwnSlot(t, 0, [], c);
      var i := 0;
      while i < |sym|
        invariant 0 <= i <= |sym|
        invariant forall c: Byte :: bestTable[c] == OwnSlot(t, i, [], c)
      {
        var j := 0;
        assert t[i] == sym[i][..len[i]];
        while j < len[i]
          invariant 0 <= j <= len[i]
          invariant forall c: Byte :: bestTable[c] == OwnSlot(t, i, t[i][..j], c)
        {
          var c := sym[i][j];
          assert t[i][..j + 1] == t[i][..j] + [c];
          bestTable := bestTable[c := [c]];
          j := j + 1;
        }
        assert t[i][..j] == t[i];
        NextName(t, i);
        i := i + 1;
      }
      assert Contents() == t;
    }

    /** One turn of optimize_result: a free slot gets the best pair, which is replaced in every
        symbol; another slot is left alone. */
    method SlotTurn(i: Byte, ghost o: seq<Name>)
      requires Valid() && Counted(Contents()) && RoundInv(Contents(), bestTable, o, i)
      modifies this, sym, tokenProfit
      ensures Valid() && Counted(Contents())
      ensures (Contents(), bestTable) == Turn(old(Contents()), old(bestTable), i)
    {
      if bestTable[i] == [] {
        ghost var t := Contents();
        forall k | 0 <= k < |t| ensures 0 !in t[k] { NulFree(t, bestTable, o, i, k); }
        hide RoundInv, CountAll;
        var best := FindBestToken(t);
        var a: Byte, b: Byte := best % 256, best / 256;
        bestTable := bestTable[i := [a, b]];
        assert Contents() == t;
        CompressSymbols(a, b, i);
      }
    }

    /** optimize_result, from slot 255 down to slot 0. */
    method OptimizeResult(ghost o: seq<Name>)
      requires Valid() && Counted(Contents()) && RoundInv(Contents(), bestTable, o, 255)
      modifies this, sym, tokenProfit
      ensures Valid() && Counted(Contents())
      ensures (Contents(), bestTable) == Rounds(old(Contents()), old(bestTable), 255)
    {
      hide RoundInv, Turn, CountAll;
      var i := 255;
      while i >= 0
        invariant -1 <= i <= 255 && Valid() && Counted(Contents())
        invariant RoundInv(Contents(), bestTable, o, i)
        invariant Rounds(Contents(), bestTable, i) == Rounds(old(Contents()), old(bestTable), 255)
      {
        TurnKeeps(Contents(), bestTable, o, i);
        SlotTurn(i, o);
        i := i - 1;
      }
    }

    method LearnAll()
      requires Valid() && forall p :: 0 <= p < 0x10000 ==> tokenProfit[p] == 0
      modifies tokenProfit
      ensures Counted(Contents())
    {
      ghost var t := Contents();
      var i := 0;
      while i < |sym|
        invariant 0 <= i <= |sym| && Counted(t[..i])
      {
        assert t[i] == sym[i][..len[i]];
        LearnSymbol(sym[i], len[i]);
        forall p | 0 <= p < 0x10000 ensures tokenProfit[p] == CountAll(t[..i + 1], p) {
          assert t[..i + 1][..i] == t[..i];
        }
        i := i + 1;
      }
      assert t[..i] == t;
    }

    /** optimize_token_table on NUL-free names, refused when there are none. Afterwards names
        and table are those of the greedy compression, every code in every name expands
        finitely and the expansion is the original name. */
    method OptimizeTokenTable() returns (ok: bool)
      requires Valid() && forall p :: 0 <= p < 0x10000 ==> tokenProfit[p] == 0
      requires forall k :: 0 <= k < |sym| ==> 0 !in Contents()[k]
      modifies this, sym, tokenProfit
      ensures ok <==> |sym| > 0
      ensures ok ==> Valid() && Counted(Contents())
      ensures ok ==> (Contents(), bestTable) == Compressed(old(Contents()))
      ensures ok ==> RoundInv(Contents(), bestTable, old(Contents()), -1) && IdleTogether(bestTable)
    {
      hide RoundInv, OwnSlot, Rounds;
      ghost var o := Contents();
      LearnAll();
      InsertRealSymbols();
      assert Contents() == o;
      if |sym| == 0 { return false; }
      assert bestTable == StartTable(o);
      StartInv(o, bestTable);
      OptimizeResult(o);
      CompressedSound(o);
      return true;
    }

    /** expand_symbol: real characters are copied to the buffer, other codes expanded in turn
        behind them, and a NUL follows. `inside` is false when it would write past the end of
        the buffer, which it does exactly when the expansion and its NUL do not fit. */
    method ExpandSymbol(data: Name, result: array<Byte>, at: nat, ghost bound: nat) returns (total: nat, inside: bool)
      requires AllSound(bestTable, data)
      requires forall k :: 0 <= k < |data| ==> Rank(bestTable, data[k]) <= bound
      requires at <= result.Length
      modifies result
      ensures inside <==> at + |ExpandName(bestTable, data)| < result.Length
      ensures inside ==> total == |ExpandName(bestTable, data)| && result[at + total] == 0
      ensures inside ==> result[..at + total] == old(result[..at]) + ExpandName(bestTable, data)
      decreases bound
    {
      hide Sound, Expand, ExpandName, Rank;
      ghost var whole := result[..at] + ExpandName(bestTable, data);
      assert data[0..] == data;
      total, inside := 0, false;
      var i := 0;
      while i < |data|
        invariant 0 <= i <= |data| && at + total <= result.Length
        invariant result[..at + total] + ExpandName(bestTable, data[i..]) == whole
      {
        var c := data[i];
        ghost var done, rest := result[..at + total], ExpandName(bestTable, data[i + 1..]);
        FirstExpands(bestTable, data, i);
        if bestTable[c] == [c] {
          RealExpands(bestTable, c);
          if at + total == result.Length { return; }
          result[at + total] := c;
          total := total + 1;
        } else {
          PairExpands(bestTable, c);
          LowerRanks(bestTable, c);
          var rlen, fits := ExpandSymbol(bestTable[c], result, at + total, bound - 1);
          if !fits { return; }
          total := total + rlen;
        }
        assert result[..at + total] == done + Expand(bestTable, c);
        i := i + 1;
      }
      NothingExpands(bestTable, data[i..]);
      if at + total == result.Length { return; }
      result[at + total] := 0;
      inside := true;
    }

    /** One slot expanded into the buffer, measured by its NUL. */
    method ExpandSlot(c: Byte, buf: array<Byte>) returns (n: nat, inside: bool)
      requires !Real(bestTable, 0) && Sound(bestTable, c)
      modifies buf
      ensures inside <==> |Expand(bestTable, c)| < buf.Length
      ensures inside ==> n == |Expand(bestTable, c)| && buf[..n] == Expand(bestTable, c)
    {
      hide Sound, Expand, Rank, ExpandName;
      EntryExpands(bestTable, c);
      RanksBounded(bestTable, bestTable[c]);
      n, inside := ExpandSymbol(bestTable[c], buf, 0, 256);
      if inside {
        ExpandsToReal(bestTable, c);
        n := StrLen(buf, n);
      }
    }

    /** The token table and index of write_src, with its buffer of KSYM_NAME_LEN + 1 bytes: it
        stays inside exactly when no slot's expansion is longer than KSYM_NAME_LEN. */
    method WriteTokens() returns (tokens: Name, index: seq<nat>, inside: bool)
      requires !Real(bestTable, 0) && forall c: Byte :: Sound(bestTable, c)
      ensures inside <==> forall c: Byte :: |Expand(bestTable, c)| <= KSYM_NAME_LEN
      ensures inside ==> tokens == TokenTable(bestTable, 256) && index == TokenIndex(bestTable)
    {
      TokensFrom(bestTable, 0);
      hide Sound, Expand, TokenTable, TokenIndex;
      var buf := new Byte[KSYM_NAME_LEN + 1](_ => 0);
      var off := 0;
      var i := 0;
      tokens, index, inside := [], [], false;
      while i < 256
        invariant 0 <= i <= 256 && index == TokenIndex(bestTable)[..i]
        invariant tokens == TokenTable(bestTable, i) && off == |tokens|
        invariant forall c: Byte :: c < i ==> |Expand(bestTable, c)| <= KSYM_NAME_LEN
      {
        TokensFrom(bestTable, i);
        index := index + [off % SHORT];
        var n, fits := ExpandSlot(i, buf);
        if !fits { return; }
        tokens := tokens + buf[..n] + [0];
        off := off + n + 1;
        i := i + 1;
      }
      inside := true;
    }

    /** The length-prefixed names and the offset of every 256th. */
    method WriteNames() returns (stream: seq<Byte>, markers: seq<nat>)
      requires Valid()
      ensures stream == NameStream(Contents()) && |markers| == (|sym| + 255) / 256
      ensures forall j :: 0 <= j < |markers| ==> 256 * j < |sym| && markers[j] == Offset(Contents(), 256 * j)
    {
      ghost var t := Contents();
      stream, markers := [], [];
      var off := 0;
      var i := 0;
      while i < |sym|
        invariant 0 <= i <= |sym| && stream == NameStream(t[..i]) && off == |stream|
        invariant |markers| == (i + 255) / 256
        invariant forall j :: 0 <= j < |markers| ==> 256 * j < i && markers[j] == Offset(t, 256 * j)
      {
        assert t[i] == sym[i][..len[i]];
        if i % 256 == 0 {
          markers := markers + [off];
        }
        stream := stream + [len[i] % 256] + sym[i][..len[i]];
        assert t[..i + 1][..i] == t[..i];
        off := off + len[i] + 1;
        i := i + 1;
      }
      assert t[..i] == t;
    }

    /** The whole tool on NUL-free symbols. It has none; or it never ends expanding slot 0; or it
        writes past its buffer; or it writes tables from which every symbol is read back. */
    method Build() returns (r: Output)
      requires Valid() && forall p :: 0 <= p < 0x10000 ==> tokenProfit[p] == 0
      requires forall k :: 0 <= k < |sym| ==> 0 !in Contents()[k]
      modifies this, sym, tokenProfit
      ensures r == Built(old(Contents()))
    {
      hide RoundInv, Compressed, NameStream, TokenTable, TokenIndex, Expand, Sound, IdleTogether;
      ghost var o := Contents();
      assert |o| == |sym|;
      var ok := OptimizeTokenTable();
      if !ok { return NoSymbols; }
      CompressedWritable(o);
      assert Compressed(o).0 == Contents() && Compressed(o).1 == bestTable;
      if bestTable[0] == [0, 0] { return NeverEnds; }
      var tokens, index, inside := WriteTokens();
      if !inside { return Overrun; }
      var names, markers := WriteNames();
      assert markers == Markers(Contents());
      BuiltWritten(o, Contents(), bestTable);
      return Written(names, markers, tokens, index);
    }
  }

  lemma TokensFrom(t: Table, i: Byte)
    requires forall c: Byte :: Sound(t, c)
    ensures TokenTable(t, 0) == [] && |TokenIndex(t)| == 256
    ensures TokenTable(t, i + 1) == TokenTable(t, i) + Expand(t, i) + [0]
    ensures TokenIndex(t)[..i + 1] == TokenIndex(t)[..i] + [|TokenTable(t, i)| % SHORT]
  {
  }

  method StrLen(buf: array<Byte>, ghost n: nat) returns (r: nat)
    requires n < buf.Length && buf[n] == 0 && 0 !in buf[..n]
    ensures r == n
  {
    assert forall k :: 0 <= k < n ==> buf[k] != 0 by { assert forall k :: 0 <= k < n ==> buf[k] in buf[..n]; }
    r := 0;
    while buf[r] != 0
      invariant r <= n
      decreases n - r
    {
      r := r + 1;
    }
  }

  lemma RealExpands(t: Table, c: Byte)
    requires t[c] == [c]
    ensures Sound(t, c) && Expand(t, c) == [c]
  {
  }

  lemma LowerRanks(t: Table, c: Byte)
    requires Sound(t, c) && !Real(t, c)
    ensures forall k :: 0 <= k < |t[c]| ==> Rank(t, t[c][k]) < Rank(t, c)
  {
  }

  lemma RanksBounded(t: Table, s: Name)
    ensures forall k :: 0 <= k < |s| ==> Rank(t, s[k]) <= 256
  {
  }

  lemma EntryExpands(t: Table, c: Byte)
    requires Sound(t, c)
    ensures AllSound(t, t[c]) && ExpandName(t, t[c]) == Expand(t, c)
  {
    if Real(t, c) {
      ExpandRealName(t, [c]);
    } else {
      PairExpands(t, c);
    }
  }

  lemma FirstExpands(t: Table, s: Name, i: nat)
    requires AllSound(t, s) && i < |s|
    ensures Sound(t, s[i]) && ExpandName(t, s[i..]) == Expand(t, s[i]) + ExpandName(t, s[i + 1..])
  {
    assert s[i..][1..] == s[i + 1..];
  }

  lemma NothingExpands(t: Table, s: Name)
    requires s == []
    ensures ExpandName(t, s) == []
  {
  }

  /** A sound slot's entry, expanded as a name, is the slot's expansion. */
  lemma PairExpands(t: Table, c: Byte)
    requires Sound(t, c) && !Real(t, c)
    ensures AllSound(t, t[c]) && ExpandName(t, t[c]) == Expand(t, c)
  {
    var e := t[c];
    ExpandCons(t, e[1], []);
    ExpandCons(t, e[0], [e[1]]);
    assert e == [e[0]] + [e[1]] && [e[1]] + [] == [e[1]];
  }
}
