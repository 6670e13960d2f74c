/**
  Measures over the cell values and flags of a board: their sum, how many
  slots are occupied, how many flags are set, the largest value, the decimal
  width used for display (2048/Board.c:276-285) and the power-of-two tiles.
 */
module Tally {

  /** Sum of all cell values. */
  function Sum(s: seq<nat>): nat
  {
    if s == [] then 0 else s[0] + Sum(s[1..])
  }

  /** Number of non-empty slots. */
  function Occupied(s: seq<nat>): nat
  {
    if s == [] then 0 else (if s[0] != 0 then 1 else 0) + Occupied(s[1..])
  }

  /** Sum of the values on the slots whose flag is set. */
  function FlaggedSum(s: seq<nat>, f: seq<bool>): nat
    requires |s| == |f|
  {
    if s == [] then 0 else (if f[0] then s[0] else 0) + FlaggedSum(s[1..], f[1..])
  }

  /** Number of flags that are set. */
  function CountTrue(s: seq<bool>): nat
  {
    if s == [] then 0 else (if s[0] then 1 else 0) + CountTrue(s[1..])
  }

  /**
    The largest value, scanning left to right from 0 as updateLargestCell
    does (2048/Board.c:288-296). It bounds every element and is one of them.
   */
  function MaxOf(s: seq<nat>): (m: nat)
    ensures forall i :: 0 <= i < |s| ==> s[i] <= m
    ensures s == [] ==> m == 0
    ensures s != [] ==> exists i :: 0 <= i < |s| && s[i] == m
  {
    if s == [] then 0
    else
      var m := MaxOf(s[..|s| - 1]);
      if s[|s| - 1] > m then s[|s| - 1] else m
  }

  function Pow10(k: nat): nat
  {
    if k == 0 then 1 else 10 * Pow10(k - 1)
  }

  /**
    The number of decimal digits of `n`, counted the way updateDigits does
    with its do-while loop (2048/Board.c:277-280): at least 1, and
    10^(w-1) <= n < 10^w once n >= 1.
   */
  function DecimalWidth(n: nat): (w: nat)
    ensures w >= 1
    ensures n < Pow10(w)
    ensures w > 1 ==> Pow10(w - 1) <= n
    ensures n >= 1 ==> Pow10(w - 1) <= n
  {
    if n / 10 == 0 then 1 else 1 + DecimalWidth(n / 10)
  }

  /** The width only grows with the value. */
  lemma {:induction false} DecimalWidthMonotone(m: nat, n: nat)
    requires m <= n
    ensures DecimalWidth(m) <= DecimalWidth(n)
  {
    if m / 10 != 0 {
      DecimalWidthMonotone(m / 10, n / 10);
    }
  }

  predicate IsPowerOfTwo(n: nat)
  {
    n == 1 || (n >= 2 && n % 2 == 0 && IsPowerOfTwo(n / 2))
  }

  /** What a slot may hold: 0 (empty) or a power of two of at least 2. */
  predicate IsTile(n: nat)
  {
    n == 0 || (n >= 2 && IsPowerOfTwo(n))
  }

  /** Writing `x` into slot `i` changes the sum by x - s[i]. */
  lemma {:induction false} SumUpdate(s: seq<nat>, i: int, x: nat)
    requires 0 <= i < |s|
    ensures Sum(s[i := x]) + s[i] == Sum(s) + x
  {
    if i > 0 {
      assert s[i := x][1..] == s[1..][i - 1 := x];
      SumUpdate(s[1..], i - 1, x);
    } else {
      assert s[i := x][1..] == s[1..];
    }
  }

  /** Writing `x` into slot `i` changes the occupancy by at most one, as the emptiness changes. */
  lemma {:induction false} OccupiedUpdate(s: seq<nat>, i: int, x: nat)
    requires 0 <= i < |s|
    ensures Occupied(s[i := x]) + (if s[i] != 0 then 1 else 0) == Occupied(s) + (if x != 0 then 1 else 0)
  {
    if i > 0 {
      assert s[i := x][1..] == s[1..][i - 1 := x];
      OccupiedUpdate(s[1..], i - 1, x);
    } else {
      assert s[i := x][1..] == s[1..];
    }
  }

  /** Setting flag `i` adds one exactly when it was clear. */
  lemma {:induction false} CountTrueUpdate(s: seq<bool>, i: int, x: bool)
    requires 0 <= i < |s|
    ensures CountTrue(s[i := x]) + (if s[i] then 1 else 0) == CountTrue(s) + (if x then 1 else 0)
  {
    if i > 0 {
      assert s[i := x][1..] == s[1..][i - 1 := x];
      CountTrueUpdate(s[1..], i - 1, x);
    } else {
      assert s[i := x][1..] == s[1..];
    }
  }

  /** A sequence of clear flags counts zero. */
  lemma {:induction false} CountTrueNone(s: seq<bool>)
    requires forall i :: 0 <= i < |s| ==> !s[i]
    ensures CountTrue(s) == 0
  {
    if s != [] {
      CountTrueNone(s[1..]);
    }
  }

  /** With no flag set, the flagged sum is zero. */
  lemma {:induction false} FlaggedSumNone(s: seq<nat>, f: seq<bool>)
    requires |s| == |f| && forall i :: 0 <= i < |f| ==> !f[i]
    ensures FlaggedSum(s, f) == 0
  {
    if s != [] {
      FlaggedSumNone(s[1..], f[1..]);
    }
  }

  /** Values on slots whose flag is clear do not count. */
  lemma {:induction false} FlaggedSumFrame(s: seq<nat>, t: seq<nat>, f: seq<bool>)
    requires |s| == |f| && |t| == |f|
    requires forall i :: 0 <= i < |f| && f[i] ==> t[i] == s[i]
    ensures FlaggedSum(t, f) == FlaggedSum(s, f)
  {
    if s != [] {
      FlaggedSumFrame(s[1..], t[1..], f[1..]);
    }
  }

  /** Setting a clear flag adds the value of its slot. */
  lemma {:induction false} FlaggedSumFlag(s: seq<nat>, f: seq<bool>, i: int)
    requires |s| == |f| && 0 <= i < |f| && !f[i]
    ensures FlaggedSum(s, f[i := true]) == FlaggedSum(s, f) + s[i]
  {
    if i > 0 {
      assert f[i := true][1..] == f[1..][i - 1 := true];
      FlaggedSumFlag(s[1..], f[1..], i - 1);
    } else {
      assert f[i := true][1..] == f[1..];
    }
  }

  /** Doubling a tile gives a tile. */
  lemma DoubleTile(n: nat)
    requires IsTile(n) && n != 0
    ensures IsTile(2 * n)
  {
    assert (2 * n) / 2 == n;
  }
}
