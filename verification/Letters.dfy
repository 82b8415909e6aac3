/**
 The strings that travel: generated capitals, the case changes at both ends, and why the
 second undoes the first. A text is the bytes of a C string before its NUL.
 */
module Letters {

  type Byte = x: int | 0 <= x < 256

  type Text = seq<Byte>

  const MAXL := 40
  const TERMINATOR: Text := [48, 48]

  /** The C string in a buffer: the bytes before the first NUL. */
  function CString(s: seq<Byte>): Text {
    if s == [] || s[0] == 0 then [] else [s[0]] + CString(s[1..])
  }

  function Shift(b: Byte, d: int): Byte {
    (b + d) % 256
  }

  function ShiftAll(s: Text, d: int): seq<Byte> {
    seq(|s|, i requires 0 <= i < |s| => Shift(s[i], d))
  }

  function Lower(s: Text): Text { CString(ShiftAll(s, 32)) }

  function Upper(s: Text): Text { CString(ShiftAll(s, -32)) }

  /** What gen_data can return: 1 to 39 letters from A to Y. */
  predicate Generated(s: Text) {
    1 <= |s| < MAXL && forall i :: 0 <= i < |s| ==> 65 <= s[i] <= 89
  }

  /** The values of rand() are taken from a given sequence. */
  method GenData(rand: seq<nat>) returns (data: Text)
    requires |rand| >= MAXL
    ensures Generated(data)
    ensures |data| == rand[0] % (MAXL - 1) + 1
    ensures forall i :: 0 <= i < |data| ==> data[i] == rand[i + 1] % 25 + 65
  {
    var loop := rand[0] % (MAXL - 1) + 1;
    var buf := new Byte[loop + 1](_ => 0);
    var i := 0;
    while i < loop
      invariant 0 <= i <= loop
      invariant forall k :: 0 <= k < i ==> buf[k] == rand[k + 1] % 25 + 65
    {
      var tmp := rand[i + 1] % 25 + 65;
      buf[i] := tmp;
      i := i + 1;
    }
    buf[loop] := 0;
    data := buf[..loop];
  }

  /** to_lower with d = 32 and to_upper with d = -32: in place, up to the NUL. */
  method ShiftInPlace(letters: array<Byte>, ghost n: nat, d: int)
    requires n < letters.Length && letters[n] == 0 && 0 !in letters[..n]
    modifies letters
    ensures letters[..n] == ShiftAll(old(letters[..n]), d)
    ensures forall k :: n <= k < letters.Length ==> letters[k] == old(letters[k])
  {
    ghost var s := letters[..n];
    var i := 0;
    while letters[i] != 0
      invariant 0 <= i <= n
      invariant forall k :: 0 <= k < i ==> letters[k] == Shift(s[k], d)
      invariant forall k :: i <= k < n ==> letters[k] == s[k]
      invariant forall k :: n <= k < letters.Length ==> letters[k] == old(letters[k])
      decreases n - i
    {
      assert i < n;
      letters[i] := Shift(letters[i], d);
      i := i + 1;
    }
  }

  lemma {:induction false} CStringWhole(s: seq<Byte>)
    ensures 0 !in s ==> CString(s) == s
    ensures 0 in s ==> |CString(s)| < |s|
  {
    if s != [] && s[0] != 0 {
      CStringWhole(s[1..]);
      assert s == [s[0]] + s[1..];
    }
  }

  /** Upper-casing gives a string back exactly when none of its bytes is 224, the one that
      lower-casing turns into a NUL. */
  lemma UpperUndoesLower(s: Text)
    requires 0 !in s
    ensures Upper(Lower(s)) == s <==> 224 !in s
  {
    var low := ShiftAll(s, 32);
    CStringWhole(low);
    if 224 in s {
      var i :| 0 <= i < |s| && s[i] == 224;
      assert low[i] == 0;
      UpperNoLonger(Lower(s));
    } else {
      assert 0 !in low;
      assert ShiftAll(low, -32) == s;
      CStringWhole(s);
    }
  }

  lemma UpperNoLonger(s: Text)
    ensures |Upper(s)| <= |s|
  {
    CStringWhole(ShiftAll(s, -32));
  }

  /** A generated string survives both case changes, is never taken for the terminator, and
      fits with its NUL in the reader's 40 bytes. */
  lemma GeneratedTravels(s: Text)
    requires Generated(s)
    ensures Upper(Lower(s)) == s && Lower(s) != TERMINATOR && |Lower(s)| + 1 <= 40
  {
    UpperUndoesLower(s);
    var low := ShiftAll(s, 32);
    CStringWhole(low);
    assert low[0] == s[0] + 32;
  }
}
