/**
 The tables written by write_src, and looking a name up in them: the marker of its block of
 256, a walk over length-prefixed entries, and the token table.
 */
module KallsymsOutput {
  import opened KallsymsCodec
  import opened KallsymsRounds
  import opened KallsymsGreedy

  /** kallsyms_names: each name after a byte that holds its length. */
  function NameStream(t: seq<Name>): seq<Byte> {
    if t == [] then [] else
    var s := t[|t| - 1];
    NameStream(t[..|t| - 1]) + [|s| % 256] + s
  }

  function Offset(t: seq<Name>, i: nat): nat
    requires i <= |t|
  {
    |NameStream(t[..i])|
  }

  /** kallsyms_markers: the offset of every 256th name. */
  function Markers(t: seq<Name>): seq<nat> {
    seq((|t| + 255) / 256, j requires 0 <= j < (|t| + 255) / 256 => Offset(t, 256 * j))
  }

  /** Skip `n` entries from position `off`. */
  function Walk(stream: seq<Byte>, off: nat, n: nat): nat
    decreases n
  {
    if n == 0 || off >= |stream| then off else Walk(stream, off + stream[off] + 1, n - 1)
  }

  lemma {:induction false} StreamPrefix(t: seq<Name>, i: nat)
    requires i <= |t|
    ensures NameStream(t[..i]) <= NameStream(t)
  {
    if i == |t| {
      assert t[..i] == t;
    } else {
      StreamPrefix(t[..|t| - 1], i);
      assert t[..|t| - 1][..i] == t[..i];
    }
  }

  /** The entry of symbol `i` stands at its offset. */
  lemma EntryAt(t: seq<Name>, i: nat)
    requires i < |t|
    ensures var off := Offset(t, i);
            && Offset(t, i + 1) == off + 1 + |t[i]| <= |NameStream(t)|
            && NameStream(t)[off] == |t[i]| % 256
            && NameStream(t)[off + 1..off + 1 + |t[i]|] == t[i]
  {
    hide NameStream;
    StreamPrefix(t, i + 1);
    StreamNext(t, i);
    Located(NameStream(t[..i]), |t[i]| % 256, t[i], NameStream(t));
  }

  lemma FitsByte(n: nat)
    ensures n % 256 == n <==> n < 256
  {
  }

  lemma OneStep(stream: seq<Byte>, off: nat)
    requires off < |stream|
    ensures Walk(stream, off, 1) == off + stream[off] + 1
  {
  }

  lemma StreamNext(t: seq<Name>, i: nat)
    requires i < |t|
    ensures NameStream(t[..i + 1]) == NameStream(t[..i]) + [|t[i]| % 256] + t[i]
  {
    assert t[..i + 1][..i] == t[..i];
  }

  lemma Located(q: seq<Byte>, n: Byte, s: Name, all: seq<Byte>)
    requires q + [n] + s <= all
    ensures |q| + 1 + |s| <= |all| && all[|q|] == n && all[|q| + 1..|q| + 1 + |s|] == s
  {
    var p := q + [n] + s;
    assert all[..|p|] == p && p[|q| + 1..] == s;
    assert all[|q| + 1..|p|] == all[..|p|][|q| + 1..];
  }

  /** One step of a walk is right exactly when the length fits in its byte. */
  lemma StepExact(t: seq<Name>, i: nat)
    requires i < |t|
    ensures Walk(NameStream(t), Offset(t, i), 1) == Offset(t, i + 1) <==> |t[i]| < 256
  {
    hide NameStream, Walk;
    EntryAt(t, i);
    FitsByte(|t[i]|);
    OneStep(NameStream(t), Offset(t, i));
  }

  lemma {:induction false} WalkLands(t: seq<Name>, i: nat, n: nat)
    requires i + n <= |t| && forall k :: 0 <= k < |t| ==> |t[k]| < 256
    ensures Walk(NameStream(t), Offset(t, i), n) == Offset(t, i + n)
    decreases n
  {
    if n > 0 {
      hide NameStream;
      EntryAt(t, i);
      WalkLands(t, i + 1, n - 1);
    }
  }

  /** The length byte and the codes found by a lookup from the marker of the symbol's block. */
  function Entry(stream: seq<Byte>, marker: nat, n: nat): Name {
    var off := Walk(stream, marker, n);
    if off < |stream| && off + 1 + stream[off] <= |stream| then stream[off + 1..off + 1 + stream[off]] else []
  }

  lemma EntryFound(t: seq<Name>, i: nat)
    requires i < |t| && forall k :: 0 <= k < |t| ==> |t[k]| < 256
    ensures Entry(NameStream(t), Offset(t, i / 256 * 256), i % 256) == t[i]
  {
    hide NameStream, Walk;
    BlockOf(i);
    var first, n := i / 256 * 256, i % 256;
    WalkLands(t, first, n);
    EntryAt(t, i);
    var stream, off := NameStream(t), Offset(t, i);
    assert Walk(stream, Offset(t, first), n) == off;
    assert stream[off] == |t[i]|;
  }

  /** i >> 8 and i & 0xFF. */
  lemma BlockOf(i: nat)
    ensures i / 256 * 256 + i % 256 == i && 0 <= i % 256 < 256 && 0 <= i / 256 * 256
  {
  }

  // The token table

  /** kallsyms_token_table up to slot `n`: the expansions as NUL-terminated strings. */
  function TokenTable(b: Table, n: nat): Name
    requires n <= 256 && forall c: Byte :: Sound(b, c)
  {
    if n == 0 then [] else TokenTable(b, n - 1) + Expand(b, n - 1) + [0]
  }

  /** The string at `off`, up to its NUL. */
  function Asciz(tab: Name, off: nat): Name
    decreases |tab| - off
  {
    if off >= |tab| || tab[off] == 0 then [] else [tab[off]] + Asciz(tab, off + 1)
  }

  lemma {:induction false} AscizAt(tab: Name, off: nat, s: Name)
    requires off + |s| < |tab| && 0 !in s && tab[off..off + |s|] == s && tab[off + |s|] == 0
    ensures Asciz(tab, off) == s
    decreases |s|
  {
    if s != [] {
      assert tab[off] == s[0];
      assert tab[off + 1..off + 1 + |s[1..]|] == s[1..];
      AscizAt(tab, off + 1, s[1..]);
      assert s == [s[0]] + s[1..];
    }
  }

  lemma {:induction false} TokenPrefix(b: Table, n: nat, m: nat)
    requires n <= m <= 256 && forall c: Byte :: Sound(b, c)
    ensures TokenTable(b, n) <= TokenTable(b, m)
    decreases m - n
  {
    if n < m { TokenPrefix(b, n, m - 1); }
  }

  lemma Terminated(q: Name, e: Name, tab: Name)
    requires q + e + [0] <= tab
    ensures |q| + |e| < |tab| && tab[|q|..|q| + |e|] == e && tab[|q| + |e|] == 0
  {
    var p := q + e + [0];
    assert tab[..|p|] == p && p[|q|..|q| + |e|] == e;
    assert tab[|q|..|q| + |e|] == tab[..|p|][|q|..|q| + |e|];
  }

  /** The token index of a code leads to its expansion. */
  lemma TokenAt(b: Table, c: Byte)
    requires (forall d: Byte :: Sound(b, d)) && !Real(b, 0)
    ensures Asciz(TokenTable(b, 256), |TokenTable(b, c)|) == Expand(b, c)
  {
    TokenPrefix(b, c + 1, 256);
    ExpandsToReal(b, c);
    var tab, q, e := TokenTable(b, 256), TokenTable(b, c), Expand(b, c);
    assert TokenTable(b, c + 1) == q + e + [0];
    hide TokenTable, Expand, Sound;
    Terminated(q, e, tab);
    AscizAt(tab, |q|, e);
  }

  /** Decoding through the index and the table, code by code. */
  function Decode(tab: Name, index: seq<nat>, s: Name): Name
    requires |index| == 256
  {
    if s == [] then [] else Asciz(tab, index[s[0]]) + Decode(tab, index, s[1..])
  }

  const SHORT := 0x10000

  const KSYM_NAME_LEN := 127

  /** kallsyms_token_index: the offset of each token, in 16 bits. */
  function TokenIndex(b: Table): seq<nat>
    requires forall c: Byte :: Sound(b, c)
  {
    seq(256, c requires 0 <= c < 256 => |TokenTable(b, c)| % SHORT)
  }

  /** With tokens that fit the buffer the last one starts within 16 bits, so that the index
      holds every offset. */
  lemma IndexFits(b: Table)
    requires forall c: Byte :: Sound(b, c) && |Expand(b, c)| <= KSYM_NAME_LEN
    ensures forall c: Byte :: TokenIndex(b)[c] == |TokenTable(b, c)|
  {
    forall c: Byte ensures TokenIndex(b)[c] == |TokenTable(b, c)| {
      TokenTableLength(b, c, KSYM_NAME_LEN);
      ShortFits(|TokenTable(b, c)|);
    }
  }

  lemma {:induction false} TokenTableLength(b: Table, n: nat, limit: nat)
    requires n <= 256 && forall c: Byte :: Sound(b, c) && |Expand(b, c)| <= limit
    ensures |TokenTable(b, n)| <= n * (limit + 1)
  {
    hide Sound, Expand;
    if n > 0 {
      TokenTableLength(b, n - 1, limit);
      assert |TokenTable(b, n)| == |TokenTable(b, n - 1)| + |Expand(b, n - 1)| + 1;
      OneMore(n, limit + 1);
    }
  }

  lemma OneMore(n: nat, b: nat)
    requires n > 0
    ensures n * b == (n - 1) * b + b
  {
  }

  lemma ShortFits(n: nat)
    ensures n % SHORT == n <==> n < SHORT
  {
  }

  lemma {:induction false} DecodeExpands(b: Table, s: Name)
    requires !Real(b, 0) && forall c: Byte :: Sound(b, c) && |Expand(b, c)| <= KSYM_NAME_LEN
    ensures Decode(TokenTable(b, 256), TokenIndex(b), s) == ExpandName(b, s)
  {
    if s != [] {
      IndexFits(b);
      TokenAt(b, s[0]);
      DecodeExpands(b, s[1..]);
    }
  }

  /** No token is longer than the longest symbol, so it fits wherever that does. */
  lemma TokenNoLonger(t: seq<Name>, b: Table, o: seq<Name>, i: int, c: Byte, limit: nat)
    requires RoundInv(t, b, o, i) && Sound(b, c) && forall k :: 0 <= k < |o| ==> |o[k]| <= limit
    ensures |Expand(b, c)| <= limit
  {
    assert TokenShort(b, o, c);
  }

  // The whole tool

  datatype Output =
    | NoSymbols | NeverEnds | Overrun
    | Written(names: seq<Byte>, markers: seq<nat>, tokens: Name, index: seq<nat>)

  /** What the tool does with NUL-free symbols. */
  ghost function Built(o: seq<Name>): Output
    requires forall k :: 0 <= k < |o| ==> 0 !in o[k]
  {
    if o == [] then NoSymbols else
    var (t, b) := Compressed(o);
    CompressedWritable(o);
    if Idle(b, 0) then NeverEnds
    else if exists c: Byte :: |Expand(b, c)| > KSYM_NAME_LEN then Overrun
    else Written(NameStream(t), Markers(t), TokenTable(b, 256), TokenIndex(b))
  }

  lemma BuiltWritten(o: seq<Name>, t: seq<Name>, b: Table)
    requires o != [] && (forall k :: 0 <= k < |o| ==> 0 !in o[k]) && (t, b) == Compressed(o)
    requires !Idle(b, 0) && forall c: Byte :: Sound(b, c) && |Expand(b, c)| <= KSYM_NAME_LEN
    ensures Built(o) == Written(NameStream(t), Markers(t), TokenTable(b, 256), TokenIndex(b))
  {
    hide Compressed, NameStream, TokenTable, TokenIndex, Sound, Expand;
  }

  /** A lookup in the written tables, by number. */
  function Lookup(r: Output, i: nat): Name
    requires r.Written? && |r.index| == 256 && i / 256 < |r.markers|
  {
    Decode(r.tokens, r.index, Entry(r.names, r.markers[i / 256], i % 256))
  }

  /** For every symbol of every table that is written: from the marker of its block, over the
      remaining entries, its length byte and codes are read, and decoding them through the
      written tables gives back the original, provided every length fits its byte. */
  lemma LookupRoundTrip(o: seq<Name>, i: nat)
    requires forall k :: 0 <= k < |o| ==> 0 !in o[k]
    requires Built(o).Written? && i < |o| && forall k :: 0 <= k < |Compressed(o).0| ==> |Compressed(o).0[k]| < 256
    ensures |Built(o).index| == 256 && i / 256 < |Built(o).markers| && Lookup(Built(o), i) == o[i]
  {
    var (t, b) := Compressed(o);
    CompressedSound(o);
    CompressedWritable(o);
    assert |t| == |o| && ExpandName(b, t[i]) == o[i];
    hide Compressed, RoundInv, NameStream, Expand, Sound, ExpandName, TokenTable, Walk;
    BlockOf(i);
    assert Built(o).markers[i / 256] == Offset(t, 256 * (i / 256));
    EntryFound(t, i);
    DecodeExpands(b, t[i]);
  }

  /** Symbols of at most KSYM_NAME_LEN characters, more than 255 different ones: everything is
      written and everything is found. */
  lemma UsualTable(o: seq<Name>)
    requires forall k :: 0 <= k < |o| ==> 0 !in o[k] && |o[k]| <= KSYM_NAME_LEN
    requires |Distinct(o)| > 255
    ensures Built(o).Written? && |Built(o).index| == 256
    ensures forall i: nat :: i < |o| ==> i / 256 < |Built(o).markers| && Lookup(Built(o), i) == o[i]
  {
    var (t, b) := Compressed(o);
    CompressedSound(o);
    CompressedWritable(o);
    forall c: Byte ensures |Expand(b, c)| <= KSYM_NAME_LEN { TokenNoLonger(t, b, o, -1, c, KSYM_NAME_LEN); }
    assert forall k :: 0 <= k < |t| ==> |t[k]| <= |o[k]|;
    hide Compressed, RoundInv, NameStream, Expand, Sound;
    assert o != [];
    forall i: nat | i < |o| ensures i / 256 < |Built(o).markers| && Lookup(Built(o), i) == o[i] { LookupRoundTrip(o, i); }
  }
}
