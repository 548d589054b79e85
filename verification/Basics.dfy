/** Machine types and small facts about sequences and sets that several components share. */
module Basics {
  type byte = x: int | 0 <= x < 256
  type u16 = x: int | 0 <= x < 0x1_0000
  type u32 = x: int | 0 <= x < 0x1_0000_0000

  datatype Option<T> = None | Some(value: T)

  ghost predicate NoDup(s: seq<nat>)
  {
    forall i, j :: 0 <= i < j < |s| ==> s[i] != s[j]
  }

  lemma SubsetSize<T>(a: set<T>, b: set<T>)
    requires a <= b
    ensures |a| <= |b|
  {
    assert b == a + (b - a);
  }

  /** A 32-bit word is its four bytes, lowest first. */
  lemma FourBytes(w: u32)
    ensures w == w % 0x100 + 0x100 * (w / 0x100 % 0x100)
                 + 0x1_0000 * (w / 0x1_0000 % 0x100) + 0x100_0000 * (w / 0x100_0000)
  {
    var a, b, c := w / 0x100, w / 0x1_0000, w / 0x100_0000;
    assert w == 0x100 * a + w % 0x100 && a == 0x100 * b + a % 0x100 && b == 0x100 * c + b % 0x100;
  }

  /** memmove of data to off. */
  function Patch(page: seq<byte>, off: nat, data: seq<byte>): (page': seq<byte>)
    requires off + |data| <= |page|
    ensures |page'| == |page|
    ensures forall i :: 0 <= i < |page| ==> page'[i] == (if off <= i < off + |data| then data[i - off] else page[i])
  {
    page[..off] + data + page[off + |data|..]
  }
}
