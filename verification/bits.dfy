/**
 * The bit arithmetic of the enumeration in compiler.js: `1 << width`
 * assignments per window, and the decoding of assignment `i` into a
 * window vector whose leftmost entry is the most significant bit.
 */
module Bits {

  /** `1 << n` for the shift widths the compiler uses (at most 13, far from 32-bit wrap-around). */
  function Pow2(n: nat): (p: nat)
    ensures p >= 1
  {
    if n == 0 then 1 else 2 * Pow2(n - 1)
  }

  /** `i >> j` for a non-negative `i`: halve `j` times, rounding down. */
  function ShiftRight(i: nat, j: nat): nat
  {
    if j == 0 then i else ShiftRight(i / 2, j - 1)
  }

  /** `((i >> j) & 1) == 1`. */
  predicate Bit(i: nat, j: nat)
  {
    ShiftRight(i, j) % 2 == 1
  }

  /** The window vector of assignment `i`: entry `k` is bit `width - 1 - k` of `i`. */
  function Decode(i: nat, width: nat): seq<bool>
  {
    seq(width, k requires 0 <= k < width => Bit(i, width - 1 - k))
  }

  /** The assignment number of a window vector, leftmost entry most significant. */
  function Encode(bits: seq<bool>): (i: nat)
    ensures i < Pow2(|bits|)
  {
    if bits == [] then 0
    else 2 * Encode(bits[..|bits| - 1]) + (if bits[|bits| - 1] then 1 else 0)
  }

  /** Decoding peels the least significant bit off as the rightmost entry. */
  lemma DecodeSnoc(i: nat, width: nat)
    ensures Decode(i, width + 1) == Decode(i / 2, width) + [i % 2 == 1]
  {
    var a, b := Decode(i, width + 1), Decode(i / 2, width) + [i % 2 == 1];
    forall k | 0 <= k < width + 1
      ensures a[k] == b[k]
    {
      if k < width {
        assert ShiftRight(i, width - k) == ShiftRight(i / 2, width - 1 - k);
        assert b[k] == Decode(i / 2, width)[k];
      } else {
        assert ShiftRight(i, 0) == i;
      }
    }
  }

  /** Every assignment number below `2^width` is recovered from its window vector. */
  lemma {:induction false} EncodeDecode(i: nat, width: nat)
    requires i < Pow2(width)
    ensures Encode(Decode(i, width)) == i
    decreases width
  {
    if width > 0 {
      DecodeSnoc(i, width - 1);
      EncodeDecode(i / 2, width - 1);
      var d := Decode(i, width);
      assert d[..|d| - 1] == Decode(i / 2, width - 1);
    }
  }

  /** Every window vector is the decoding of its own assignment number. */
  lemma {:induction false} DecodeEncode(bits: seq<bool>)
    ensures Decode(Encode(bits), |bits|) == bits
    decreases |bits|
  {
    if bits != [] {
      var p := bits[..|bits| - 1];
      var e := Encode(bits);
      DecodeEncode(p);
      assert e / 2 == Encode(p);
      DecodeSnoc(e, |p|);
      assert bits == p + [bits[|bits| - 1]];
    }
  }

  /**
   * The enumeration `i = 0 .. 2^width - 1` visits every window vector of
   * length `width` exactly once: decoding is injective on that range and
   * reaches every vector.
   */
  lemma DecodeBijective(width: nat)
    ensures forall i: nat, j: nat :: i < Pow2(width) && j < Pow2(width) && Decode(i, width) == Decode(j, width) ==> i == j
    ensures forall bits: seq<bool> :: |bits| == width ==> Encode(bits) < Pow2(width) && Decode(Encode(bits), width) == bits
  {
    forall i: nat, j: nat | i < Pow2(width) && j < Pow2(width) && Decode(i, width) == Decode(j, width)
      ensures i == j
    {
      EncodeDecode(i, width);
      EncodeDecode(j, width);
    }
    forall bits: seq<bool> | |bits| == width
      ensures Encode(bits) < Pow2(width) && Decode(Encode(bits), width) == bits
    {
      DecodeEncode(bits);
    }
  }

  /** Proof step only: decoding at equal widths, so callers need not unfold `Decode`. */
  lemma DecodeWidth(i: nat, w1: nat, w2: nat)
    requires w1 == w2
    ensures Decode(i, w1) == Decode(i, w2)
  {
  }
}
