/**
 A `u64` used only through its bits: the 64 bits, least significant first, with
 the machine's shift, or and and-not-zero operations.
 */
module Bits {

  type Word = bits: seq<bool> | |bits| == 64 witness seq(64, i => false)

  function Zero(): (w: Word)
    ensures forall i :: 0 <= i < 64 ==> !w[i]
  {
    seq(64, i => false)
  }

  /** `1 << j`. */
  function Mask(j: nat): (w: Word)
    requires j < 64
    ensures forall i :: 0 <= i < 64 ==> (w[i] <==> i == j)
  {
    seq(64, i => i == j)
  }

  /** `w << count`: bits pushed past the top are gone. */
  function Shl(w: Word, count: nat): (r: Word)
    requires count < 64
    ensures forall i :: 0 <= i < 64 ==> (r[i] <==> i >= count && w[i - count])
  {
    seq(64, i requires 0 <= i < 64 => i >= count && w[i - count])
  }

  /** `w >> count`. */
  function Shr(w: Word, count: nat): (r: Word)
    requires count < 64
    ensures forall i :: 0 <= i < 64 ==> (r[i] <==> i + count < 64 && w[i + count])
  {
    seq(64, i requires 0 <= i < 64 => i + count < 64 && w[i + count])
  }

  /** `w | v`. */
  function Or(w: Word, v: Word): (r: Word)
    ensures forall i :: 0 <= i < 64 ==> (r[i] <==> w[i] || v[i])
  {
    seq(64, i requires 0 <= i < 64 => w[i] || v[i])
  }

  /** `w & v != 0`. */
  predicate Meets(w: Word, v: Word) {
    exists i :: 0 <= i < 64 && w[i] && v[i]
  }

  /** Testing a word against a one-bit mask reads exactly that bit. */
  lemma MaskReads(w: Word, j: nat)
    requires j < 64
    ensures Meets(w, Mask(j)) <==> w[j]
  {
    if w[j] {
      assert w[j] && Mask(j)[j];
    }
  }
}
