/** The lane-width wrapper types of the crate.

    `Bits1(n)`, `Bits2(n)`, ..., `Bits128(n)` wrap one u128 and say how it is
    read: as lanes of 1, 2, 4, ..., 128 bits.  The width is part of the Rust
    type; here it is the field `exp`, the lane width being 2^exp.  The
    overflow-tracking types `Bits{K}x{2K}` (the halves produced by `split`) and
    `Bits{K+1}x{2K}` (their sums) wrap a `Bits{2K}` and name how many of the
    2K bits of each lane are meaningful; that promise is the invariant
    `HalvesInvariant` / `CarriedInvariant` below. */
module Swar {
  import opened Word
  import opened Lanes

  /** The exponent of a lane width: 0 for `Bits1` up to 7 for `Bits128`. */
  type Exp = e: nat | e <= 7

  /** `Bits{2^exp}(word)`. */
  datatype Bits = Bits(exp: Exp, word: U128)

  /** `Bits{K}x{2K}(Bits{2K}(word))`: lanes of 2K = 2^exp bits, each meant to
      hold a K-bit value.  `Bits1x2` has exp 1, `Bits64x128` exp 7. */
  datatype Halves = Halves(bits: Bits)

  /** `Bits{K+1}x{2K}(Bits{2K}(word))`: lanes of 2K = 2^exp bits, each meant
      to hold a (K+1)-bit value.  `Bits3x4` has exp 2, `Bits65x128` exp 7. */
  datatype Carried = Carried(bits: Bits)

  /** Number of lanes of a `Bits{2^exp}` word. */
  function LaneCount(exp: Exp): nat
  {
    Pow2(7 - exp)
  }

  /** Every one of the m lanes of w bits of x is below bound. */
  predicate LanesBelow(x: nat, w: nat, m: nat, bound: nat)
  {
    forall j: nat :: j < m ==> Lane(x, w, j) < bound
  }

  /** What `Bits{K}x{2K}` names: every 2K-bit lane is below 2^K. */
  predicate HalvesInvariant(h: Halves)
  {
    h.bits.exp >= 1 &&
    LanesBelow(h.bits.word, Pow2(h.bits.exp), LaneCount(h.bits.exp), Pow2(Pow2(h.bits.exp - 1)))
  }

  /** What `Bits{K+1}x{2K}` names: every 2K-bit lane is below 2^(K+1). */
  predicate CarriedInvariant(c: Carried)
  {
    c.bits.exp >= 1 &&
    LanesBelow(c.bits.word, Pow2(c.bits.exp), LaneCount(c.bits.exp), Pow2(Pow2(c.bits.exp - 1) + 1))
  }

  /** The derived `PartialEq` of a wrapper: two values of the same wrapper
      type are equal exactly when their words are. */
  function Equal(a: Bits, b: Bits): (r: bool)
    requires a.exp == b.exp
    ensures r <==> a.word == b.word
  {
    a == b
  }

  /** The lane geometry of a `Bits{2K}` word with 2K = 2^(e+1): K = 2^e, the
      2^(6-e) lanes fill the 128 bits. */
  lemma {:induction false} Geometry(e: nat)
    requires e < 7
    ensures Pow2(e + 1) == Pow2(e) + Pow2(e)
    ensures Mul(Pow2(e + 1), LaneCount(e + 1)) == WIDTH
    ensures 1 <= Pow2(e) <= 64
  {
    Pow2Values();
    Pow2Add(e + 1, 6 - e);
    MulIsProduct(Pow2(e + 1), Pow2(6 - e));
    Pow2Monotone(e, 6);
  }
}
