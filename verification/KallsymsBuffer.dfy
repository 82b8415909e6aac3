/**
 The in-place rewriting of one symbol's buffer in compress_symbols: memmem and overlapping
 memmove over a NUL-terminated byte array, with a window that runs past the live length
 into the padding.
 */
module KallsymsBuffer {
  import opened KallsymsCodec

  /** memmem with a two-byte needle: the first occurrence in [from, to), or -1. */
  method Find(buf: array<Byte>, from: nat, to: nat, a: Byte, b: Byte) returns (q: int)
    requires from <= to <= buf.Length
    ensures q == -1 ==> NoPair(buf[from..to], a, b)
    ensures q != -1 ==> from <= q && First(buf[from..to], q - from, a, b)
  {
    ghost var w := buf[from..to];
    q := from;
    while q + 1 < to
      invariant from <= q
      invariant forall k :: 0 <= k < q - from ==> !PairAt(w, k, a, b)
    {
      assert w[q - from] == buf[q] && w[q - from + 1] == buf[q + 1];
      if buf[q] == a && buf[q + 1] == b { return; }
      q := q + 1;
    }
    q := -1;
  }

  predicate First(s: Name, q: nat, a: Byte, b: Byte) {
    PairAt(s, q, a, b) && forall k :: 0 <= k < q ==> !PairAt(s, k, a, b)
  }

  /** memmove(dst, dst + 1, size). */
  method ShiftLeft(buf: array<Byte>, dst: nat, size: nat)
    requires dst + size < buf.Length
    modifies buf
    ensures forall k :: 0 <= k < buf.Length ==>
              buf[k] == if dst <= k < dst + size then old(buf[k + 1]) else old(buf[k])
  {
    var i := 0;
    while i < size
      invariant 0 <= i <= size
      invariant forall k :: 0 <= k < buf.Length ==>
                  buf[k] == if dst <= k < dst + i then old(buf[k + 1]) else old(buf[k])
    {
      buf[dst + i] := buf[dst + i + 1];
      i := i + 1;
    }
  }

  /** NULs only from `from` up to and including index `last`. */
  ghost predicate Padding(buf: array<Byte>, from: nat, last: nat)
    requires last < buf.Length
    reads buf
  {
    forall k :: from <= k <= last ==> buf[k] == 0
  }

  /** Searching a window that ends in padding finds what searching the live part would. */
  lemma WindowIsLive(w: Name, n: nat, a: Byte, b: Byte)
    requires n <= |w| && (forall k :: n <= k < |w| ==> w[k] == 0) && a != 0 && b != 0
    ensures forall k :: PairAt(w, k, a, b) <==> PairAt(w[..n], k, a, b)
  {
  }

  /** The search that ends a turn: a window of fewer than two bytes holds no pair. */
  method FindNext(buf: array<Byte>, p1: nat, size: nat, ghost live: nat, a: Byte, b: Byte) returns (q: int)
    requires p1 <= live <= p1 + size < buf.Length && Padding(buf, live, p1 + size) && a != 0 && b != 0
    ensures q == -1 ==> NoPair(buf[p1..live], a, b)
    ensures q != -1 ==> p1 <= q && First(buf[p1..live], q - p1, a, b)
  {
    ghost var w := buf[p1..p1 + size];
    WindowIsLive(w, live - p1, a, b);
    assert w[..live - p1] == buf[p1..live];
    if size < 2 { return -1; }
    q := Find(buf, p1, p1 + size, a, b);
  }

  /** One occurrence done, the rest of the replacement still to do. */
  lemma ReplaceStep(head: Name, live: Name, j: nat, a: Byte, b: Byte, c: Byte)
    requires First(live, j, a, b)
    ensures head + Replace(live, a, b, c) == (head + live[..j] + [c]) + Replace(live[j + 2..], a, b, c)
  {
    ReplaceFirst(live, j, a, b, c);
  }

  /** One turn's writes: the code over the pair's first byte, then the tail one to the left. */
  method WriteCode(buf: array<Byte>, p2: nat, size: nat, ghost live: nat, ghost last: nat, idx: Byte)
    requires p2 + 2 <= live <= last < buf.Length && p2 + 1 + size == last
    requires Padding(buf, live, last)
    modifies buf
    ensures buf[..p2 + 1] == old(buf[..p2]) + [idx]
    ensures buf[p2 + 1..live - 1] == old(buf[p2 + 2..live])
    ensures Padding(buf, live - 1, last)
    ensures forall k :: last < k < buf.Length ==> buf[k] == old(buf[k])
  {
    buf[p2] := idx;
    ShiftLeft(buf, p2 + 1, size);
  }

  /** One turn up to the search: one occurrence replaced, what is left to replace unchanged. */
  method ReplaceAt(buf: array<Byte>, p1: nat, p2: nat, size: nat, ghost live: nat, ghost last: nat,
                   a: Byte, b: Byte, idx: Byte)
    requires p1 <= p2 && p1 <= live <= last < buf.Length && p2 + 1 + size == last
    requires Padding(buf, live, last) && First(buf[p1..live], p2 - p1, a, b)
    modifies buf
    ensures p2 + 1 <= live - 1
    ensures buf[..p2 + 1] + Replace(buf[p2 + 1..live - 1], a, b, idx) ==
            old(buf[..p1]) + Replace(old(buf[p1..live]), a, b, idx)
    ensures Padding(buf, live - 1, last)
    ensures forall k :: last < k < buf.Length ==> buf[k] == old(buf[k])
  {
    ghost var rest, head := buf[p1..live], buf[..p1];
    hide Replace;
    ReplaceStep(head, rest, p2 - p1, a, b, idx);
    assert buf[..p2] == head + rest[..p2 - p1];
    assert buf[p2 + 2..live] == rest[p2 - p1 + 2..];
    WriteCode(buf, p2, size, live, last, idx);
  }

  /** The do-while loop of compress_symbols on one symbol. `len` is its live length; the byte
      after it is the terminator. The live part becomes the leftmost non-overlapping
      replacement of the pair by `idx`; everything after it is NUL. */
  method CompressSymbol(buf: array<Byte>, len: nat, a: Byte, b: Byte, idx: Byte) returns (newLen: nat)
    requires len < buf.Length && buf[len] == 0 && 0 !in buf[..len]
    modifies buf
    ensures newLen <= len
    ensures buf[..newLen] == Replace(old(buf[..len]), a, b, idx)
    ensures Padding(buf, newLen, len)
    ensures forall k :: len < k < buf.Length ==> buf[k] == old(buf[k])
  {
    hide Replace, NoPair;
    ghost var s := buf[..len];
    newLen := len;
    var p1 := 0;
    var p2 := Find(buf, 0, len, a, b);
    if p2 == -1 {
      assert NoPair(s, a, b);
      ReplaceAbsent(s, a, b, idx);
      return;
    }
    assert s[p2] == a && s[p2 + 1] == b;
    var size := len;
    while true
      invariant p1 <= newLen <= len && p1 + size == len
      invariant Padding(buf, newLen, len) && a != 0 && b != 0
      invariant forall k :: len < k < buf.Length ==> buf[k] == old(buf[k])
      invariant Replace(s, a, b, idx) == buf[..p1] + Replace(buf[p1..newLen], a, b, idx)
      invariant p1 <= p2 && First(buf[p1..newLen], p2 - p1, a, b)
      decreases size
    {
      size := size - (p2 + 1 - p1);
      ReplaceAt(buf, p1, p2, size, newLen, len, a, b, idx);
      p2 := p2 + 1;
      p1 := p2;
      newLen := newLen - 1;
      p2 := FindNext(buf, p1, size, newLen, a, b);
      if p2 == -1 { break; }
    }
    ReplaceAbsent(buf[p1..newLen], a, b, idx);
    assert buf[..newLen] == buf[..p1] + buf[p1..newLen];
  }
}
