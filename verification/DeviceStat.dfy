/**
 The device's arithmetic: rounded division, the occupation percentage, the new capacity, and
 the statistics of a snapshot.
 */
module DeviceStat {

  const KB_OCC := 75

  /** my_div on the values it is given: a is never negative, b never zero. */
  function MyDiv(a: int, b: int): int
    requires a >= 0 && b >= 1
  {
    if a % b >= b / 2 then a / b + 1 else a / b
  }

  function Percent(a: int, b: int): int
    requires a >= 0 && b >= 1
  {
    MyDiv(a * 100, b)
  }

  /** ds_set_kb_occupation. */
  function NewCapacity(value: int): int {
    if value <= 1 then 2 else MyDiv(value * 100, KB_OCC)
  }

  function Abs(x: int): nat { if x < 0 then -x else x }

  lemma DivMod(a: int, b: int)
    requires b >= 1
    ensures a == b * (a / b) + a % b && 0 <= a % b < b
  {
  }

  /** Exactly when my_div rounds to nearest: unless the divisor is odd and the remainder is
      the half just below it, where the result is one too many. The error is never more than
      half of b + 1. */
  lemma MyDivBound(a: int, b: int)
    requires a >= 0 && b >= 1
    ensures 2 * Abs(b * MyDiv(a, b) - a) <= b <==> !(b % 2 == 1 && a % b == b / 2)
    ensures 2 * Abs(b * MyDiv(a, b) - a) <= b + 1
  {
    var q, m := a / b, a % b;
    DivMod(a, b);
    assert b * (q + 1) == b * q + b;
    assert b == 2 * (b / 2) + b % 2;
  }

  /** Every odd divisor is affected, one included; a third is rounded to one. */
  lemma RoundsUpTooSoon(q: nat, h: nat)
    ensures var b := 2 * h + 1;
            MyDiv(q * b + h, b) == q + 1 && 2 * Abs(b * q - (q * b + h)) < b
    ensures MyDiv(1, 3) == 1
  {
    var b := 2 * h + 1;
    Quotient(q, b, h);
    assert b * q == q * b;
  }

  lemma Quotient(q: nat, b: nat, r: nat)
    requires r < b
    ensures (q * b + r) / b == q && (q * b + r) % b == r
  {
    var x := q * b + r;
    DivMod(x, b);
    var d := x / b - q;
    assert b * d == b * (x / b) - b * q;
    if d >= 1 { Scale(b, 1, d); } else if d <= -1 { Scale(b, d, -1); }
  }

  /** The capacity for an average occupation v always exceeds it and is never below two; from
      two on it aims at 75 percent to within 25 parts. */
  lemma CapacityBound(v: int)
    ensures NewCapacity(v) >= 2 && NewCapacity(v) > v
    ensures v >= 2 ==> Abs(KB_OCC * NewCapacity(v) - 100 * v) <= 25
  {
    if v >= 2 {
      DivMod(v * 100, KB_OCC);
      Residue(v);
    }
  }

  lemma Residue(v: nat)
    ensures v * 100 % 75 in {0, 25, 50}
  {
    var k := v / 3;
    assert v == 3 * k + v % 3;
    match v % 3
    case 0 => Quotient(4 * k, 75, 0);
    case 1 => Quotient(4 * k + 1, 75, 25);
    case _ => Quotient(4 * k + 2, 75, 50);
  }

  /** After a resize, the same average measures within nine points of 75 percent. */
  lemma ResizeAims(v: int)
    requires v >= 2
    ensures NewCapacity(v) >= 3 && Abs(Percent(v, NewCapacity(v)) - KB_OCC) <= 9
  {
    CapacityBound(v);
    var c := NewCapacity(v);
    MyDivBound(v * 100, c);
    CloseTo(c, Percent(v, c), 100 * v);
    FarFromZero(c, Percent(v, c) - KB_OCC);
  }

  lemma CloseTo(c: int, per: int, a: int)
    requires 2 * Abs(c * per - a) <= c + 1 && Abs(KB_OCC * c - a) <= 25
    ensures 2 * Abs(c * (per - KB_OCC)) <= c + 51
  {
    assert c * (per - KB_OCC) == c * per - KB_OCC * c;
  }

  lemma FarFromZero(c: int, d: int)
    requires c >= 3 && 2 * Abs(c * d) <= c + 51
    ensures Abs(d) <= 9
  {
    if d >= 10 {
      Scale(c, 10, d);
    } else if d <= -10 {
      assert c * -d == -(c * d);
      Scale(c, 10, -d);
    }
  }

  lemma Scale(c: int, x: int, y: int)
    requires c >= 0 && x <= y
    ensures c * x <= c * y
  {
  }

  // Statistics of a snapshot

  function Sum(s: seq<int>): int {
    if s == [] then 0 else Sum(s[..|s| - 1]) + s[|s| - 1]
  }

  lemma {:induction false} SumBetween(s: seq<int>, lo: int, hi: int)
    requires forall i :: 0 <= i < |s| ==> lo <= s[i] <= hi
    ensures |s| * lo <= Sum(s) <= |s| * hi
  {
    if s != [] {
      SumBetween(s[..|s| - 1], lo, hi);
      assert |s| * lo == (|s| - 1) * lo + lo && |s| * hi == (|s| - 1) * hi + hi;
    }
  }

  method Med(list: seq<int>) returns (r: int)
    requires list != [] && forall i :: 0 <= i < |list| ==> list[i] >= 0
    ensures r == Sum(list) / |list|
  {
    var tmp := 0;
    var i := 0;
    while i < |list|
      invariant 0 <= i <= |list| && tmp == Sum(list[..i])
    {
      tmp := tmp + list[i];
      assert list[..i + 1][..i] == list[..i];
      i := i + 1;
    }
    assert list[..i] == list;
    return tmp / |list|;
  }

  method Max(list: seq<int>) returns (r: int)
    requires list != [] && forall i :: 0 <= i < |list| ==> list[i] >= 0
    ensures r in list && forall i :: 0 <= i < |list| ==> list[i] <= r
  {
    r := 0;
    var i := 0;
    while i < |list|
      invariant 0 <= i <= |list| && r >= 0
      invariant forall k :: 0 <= k < i ==> list[k] <= r
      invariant if i == 0 then r == 0 else r in list[..i]
    {
      if r < list[i] { r := list[i]; }
      i := i + 1;
    }
  }

  /** Given the maximum of the same list. */
  method Min(list: seq<int>, max: int) returns (r: int)
    requires list != [] && max in list && forall i :: 0 <= i < |list| ==> 0 <= list[i] <= max
    ensures r in list && forall i :: 0 <= i < |list| ==> r <= list[i]
  {
    r := max;
    if max == 0 { return 0; }
    var i := 0;
    while i < |list|
      invariant 0 <= i <= |list| && r in list
      invariant forall k :: 0 <= k < i ==> r <= list[k]
    {
      if r > list[i] { r := list[i]; }
      i := i + 1;
    }
  }

  /** The three figures of a snapshot lie in order. */
  lemma MinMedMax(list: seq<int>, min: int, max: int)
    requires list != [] && forall i :: 0 <= i < |list| ==> min <= list[i] <= max
    ensures min <= Sum(list) / |list| <= max
  {
    SumBetween(list, min, max);
    var n := |list|;
    DivMod(Sum(list), n);
    var q := Sum(list) / n;
    assert n * (q + 1) == n * q + n && n * (max + 1) == n * max + n;
    if q < min { Scale(n, q + 1, min); }
    if q > max { Scale(n, max + 1, q); }
  }

  /** Minimum and maximum are attained and enclose the list; the average lies between them. */
  predicate Describe(list: seq<int>, med: int, max: int, min: int) {
    && list != [] && min in list && max in list
    && (forall i :: 0 <= i < |list| ==> min <= list[i] <= max)
    && min <= med <= max && med == Sum(list) / |list|
  }

  /** The figures kt_stat prints. */
  method Figures(list: seq<int>) returns (med: int, max: int, min: int)
    requires list != [] && forall i :: 0 <= i < |list| ==> list[i] >= 0
    ensures Describe(list, med, max, min)
  {
    med := Med(list);
    max := Max(list);
    min := Min(list, max);
    MinMedMax(list, min, max);
  }
}
