/** Bit operations on an array of 64-bit words (os/utils/bitmap.h).  A word is given
    by its 64 bits, least significant first, so that `x |= 1uL << k`,
    `x &= ~(1uL << k)` and `x & (1uL << k)` are update and selection at k. */
module Bitmap {
  import opened Basics
  import opened NfsCommon

  type Word64 = s: seq<bool> | |s| == 64 witness seq(64, i => false)

  function AllOnes(): (w: Word64) { seq(64, i => true) }

  /** `bitmap_get`. */
  predicate Bit(w: seq<Word64>, i: nat)
    requires i < 64 * |w|
  {
    w[i / 64][i % 64]
  }

  /** `bitmap_set`. */
  function SetBit(w: seq<Word64>, i: nat): (r: seq<Word64>)
    requires i < 64 * |w|
    ensures |r| == |w|
    ensures forall j :: 0 <= j < 64 * |w| ==> (Bit(r, j) <==> j == i || Bit(w, j))
  {
    w[i / 64 := w[i / 64][i % 64 := true]]
  }

  /** `bitmap_clear`. */
  function ClearBit(w: seq<Word64>, i: nat): (r: seq<Word64>)
    requires i < 64 * |w|
    ensures |r| == |w|
    ensures forall j :: 0 <= j < 64 * |w| ==> (Bit(r, j) <==> j != i && Bit(w, j))
  {
    w[i / 64 := w[i / 64][i % 64 := false]]
  }

  lemma SomeZero(x: Word64)
    requires x != AllOnes()
    ensures exists k :: 0 <= k < 64 && !x[k]
  {
  }

  /** `bitmap_find_first_zero`: the least clear bit, or NIL exactly when there is none. */
  method FindFirstZero(w: seq<Word64>) returns (r: u32)
    requires 64 * |w| < NIL
    ensures r == NIL ==> forall j :: 0 <= j < 64 * |w| ==> Bit(w, j)
    ensures r != NIL ==> r < 64 * |w| && !Bit(w, r) && forall j :: 0 <= j < r ==> Bit(w, j)
  {
    var i := 0;
    while i < |w| && w[i] == AllOnes()
      invariant 0 <= i <= |w|
      invariant forall j :: 0 <= j < 64 * i ==> Bit(w, j)
    {
      i := i + 1;
    }
    if i == |w| { return NIL; }
    var j := 0;
    while j < 64 && w[i][j]
      invariant 0 <= j <= 64
      invariant forall m :: 0 <= m < 64 * i + j ==> Bit(w, m)
      invariant forall m :: 0 <= m < j ==> w[i][m]
    {
      j := j + 1;
    }
    SomeZero(w[i]);
    return i * 64 + j;
  }
}
