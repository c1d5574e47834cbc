/** The per-width operations of `Bits1` .. `Bits64` built from `split` and the
    overflow-tracking `Add`.

    `split` on lanes of K = 2^exp bits separates the odd (upper) and the even
    (lower) K-bit lanes of the word, each group right-aligned in lanes of 2K
    bits; `sum_weight2` adds the two groups, so every 2K-bit lane of the
    result holds the sum of the two K-bit lanes it covers.  `Bits1` also has
    the bitwise distance `abs_difference` and `Bits2` the lane distance
    `hwd`. */
module BitsN {
  import opened Word
  import opened Lanes
  import opened Masks
  import opened Swar
  import opened BitsNxN

  /** The mask level used for lanes of 2^exp bits: 6 for `Bits1`, 0 for
      `Bits64`; its half width is the lane width. */
  function Level(exp: Exp): (level: nat)
    requires exp < 7
    ensures level < LEVELS && HalfWidth(level) == Pow2(exp) && Pow2(exp) < WIDTH
  {
    Pow2Values();
    Pow2Monotone(exp, 6);
    6 - exp
  }

  /** |x - y| */
  function Dist(x: nat, y: nat): nat
  {
    if x < y then y - x else x - y
  }

  // ---------------------------------------------------------------------------
  // split

  /** `split` of `Bits{K}` with K = 2^exp: the odd K-bit lanes shifted down by
      K, and the even K-bit lanes, both as `Bits{K}x{2K}`. */
  function Split(b: Bits): (r: (Halves, Halves))
    requires b.exp < 7
    ensures r.0.bits.exp == b.exp + 1 && r.1.bits.exp == b.exp + 1
  {
    var level, k := Level(b.exp), Pow2(b.exp);
    (Halves(Bits(b.exp + 1, Shr(And(b.word, LEFT_MASKS[level]), k))),
     Halves(Bits(b.exp + 1, And(b.word, RIGHT_MASKS[level]))))
  }

  /** The two halves of a split, as words of gathered lanes. */
  lemma {:induction false} SplitGathers(b: Bits)
    requires b.exp < 7
    ensures Split(b).1.bits.word == Gather(b.word, Pow2(b.exp), LaneCount(b.exp + 1))
    ensures Split(b).0.bits.word == Gather(Hi(b.word, Pow2(b.exp)), Pow2(b.exp), LaneCount(b.exp + 1))
    ensures And(b.word, LEFT_MASKS[Level(b.exp)]) == Pow2(Pow2(b.exp)) * Split(b).0.bits.word
  {
    var n, level, k, m := b.word, Level(b.exp), Pow2(b.exp), LaneCount(b.exp + 1);
    AndRightMask(n, level);
    AndLeftMask(n, level);
    Concat(0, Gather(Hi(n, k), k, m), k);
  }

  /** The lanes of the two gathered halves of n: lane j of the upper half is
      K-bit lane 2j + 1 of n, lane j of the lower half K-bit lane 2j. */
  lemma {:induction false} GatheredHalves(n: nat, k: nat, w: nat, m: nat, left: nat, right: nat)
    requires w == k + k
    requires left == Gather(Hi(n, k), k, m) && right == Gather(n, k, m)
    ensures LanesBelow(left, w, m, Pow2(k)) && LanesBelow(right, w, m, Pow2(k))
    ensures forall j: nat :: j < m ==> Lane(left, w, j) == Lane(n, k, 2 * j + 1)
    ensures forall j: nat :: j < m ==> Lane(right, w, j) == Lane(n, k, 2 * j)
  {
    GatherLanes(n, k, m);
    GatherLanes(Hi(n, k), k, m);
    forall j: nat | j < m
      ensures Lane(left, w, j) == Lane(n, k, 2 * j + 1) < Pow2(k)
      ensures Lane(right, w, j) == Lane(n, k, 2 * j) < Pow2(k)
    {
      LaneStep(n, k, 2 * j);
    }
  }

  /** Lane j of the upper half is K-bit lane 2j + 1 of the input, lane j of the
      lower half is K-bit lane 2j; so every 2K-bit lane of both halves is below
      2^K, which is what `Bits{K}x{2K}` names. */
  lemma {:induction false} SplitLanes(b: Bits)
    requires b.exp < 7
    ensures HalvesInvariant(Split(b).0) && HalvesInvariant(Split(b).1)
    ensures forall j: nat :: j < LaneCount(b.exp + 1) ==>
      Lane(Split(b).0.bits.word, Pow2(b.exp + 1), j) == Lane(b.word, Pow2(b.exp), 2 * j + 1)
    ensures forall j: nat :: j < LaneCount(b.exp + 1) ==>
      Lane(Split(b).1.bits.word, Pow2(b.exp + 1), j) == Lane(b.word, Pow2(b.exp), 2 * j)
  {
    var halves := Split(b);
    var n, k, w, m := b.word, Pow2(b.exp), Pow2(b.exp + 1), LaneCount(b.exp + 1);
    Geometry(b.exp);
    SplitGathers(b);
    GatheredHalves(n, k, w, m, halves.0.bits.word, halves.1.bits.word);
  }

  /** `split` loses nothing: `(left << K) | right` is the input again. */
  lemma {:induction false} SplitLossless(b: Bits)
    requires b.exp < 7
    ensures Pow2(b.exp) < WIDTH && Or(Shl(Split(b).0.bits.word, Pow2(b.exp)), Split(b).1.bits.word) == b.word
  {
    var n, level, k := b.word, Level(b.exp), Pow2(b.exp);
    var left, right := Split(b).0.bits.word, Split(b).1.bits.word;
    var high := And(n, LEFT_MASKS[level]);
    SplitGathers(b);
    assert Shl(left, k) == high by {
      Pow2Values();
      LoOfSmall(high, WIDTH);
    }
    MaskedPartsJoin(n, level);
  }

  // ---------------------------------------------------------------------------
  // sum_weight2

  /** `sum_weight2` of `Bits{K}`: split, add the halves, and (above `Bits1`)
      turn the `Bits{K+1}x{2K}` sum back into `Bits{2K}`. */
  function SumWeight2(b: Bits): (r: Bits)
    requires b.exp < 7
    ensures r.exp == b.exp + 1
  {
    var halves := Split(b);
    if b.exp == 0 then AddBits1x2(halves.0, halves.1)
    else AddHalves(halves.0, halves.1).bits
  }

  /** `sum_weight2` adds the words of the two halves. */
  lemma {:induction false} SumWeight2Word(b: Bits)
    requires b.exp < 7
    ensures SumWeight2(b).word == WrappingAdd(Split(b).0.bits.word, Split(b).1.bits.word)
  {
  }

  /** Adding the two gathered halves of n sums each pair of K-bit lanes of n
      into one 2K-bit lane, without overflow. */
  lemma {:induction false} GatheredSum(n: nat, k: nat, w: nat, m: nat, x: U128, y: U128, sum: nat)
    requires 1 <= k && w == k + k && Mul(w, m) == WIDTH
    requires x == Gather(Hi(n, k), k, m) && y == Gather(n, k, m) && sum == x + y
    ensures sum < MODULUS
    ensures forall j: nat :: j < m ==> Lane(sum, w, j) == Lane(n, k, 2 * j) + Lane(n, k, 2 * j + 1)
  {
    GatheredHalves(n, k, w, m, x, y);
    SumOfHalves(x, y, sum, k, w, m);
    forall j: nat | j < m
      ensures Lane(sum, w, j) == Lane(n, k, 2 * j) + Lane(n, k, 2 * j + 1)
    {
      assert Lane(sum, w, j) == Lane(x, w, j) + Lane(y, w, j);
    }
  }

  /** Each 2K-bit lane of `sum_weight2` is the sum of the two K-bit lanes it
      covers, and the u128 addition of the halves never wraps. */
  lemma {:induction false} SumWeight2Lanes(b: Bits)
    requires b.exp < 7
    ensures Split(b).0.bits.word + Split(b).1.bits.word < MODULUS
    ensures SumWeight2(b).word == Split(b).0.bits.word + Split(b).1.bits.word
    ensures forall j: nat :: j < LaneCount(b.exp + 1) ==>
      Lane(SumWeight2(b).word, Pow2(b.exp + 1), j) == Lane(b.word, Pow2(b.exp), 2 * j) + Lane(b.word, Pow2(b.exp), 2 * j + 1)
  {
    var halves := Split(b);
    var x, y := halves.0.bits.word, halves.1.bits.word;
    var n, k, w, m := b.word, Pow2(b.exp), Pow2(b.exp + 1), LaneCount(b.exp + 1);
    var sum := x as nat + y as nat;
    assert sum < MODULUS && forall j: nat :: j < m ==> Lane(sum, w, j) == Lane(n, k, 2 * j) + Lane(n, k, 2 * j + 1) by {
      Geometry(b.exp);
      SplitGathers(b);
      GatheredSum(n, k, w, m, x, y, sum);
    }
    assert SumWeight2(b).word == sum by {
      NoWrap(x, y);
      SumWeight2Word(b);
    }
  }

  // ---------------------------------------------------------------------------
  // Distances

  /** `Bits1::abs_difference`: the exclusive or of the two words. */
  function AbsDifference(a: Bits, b: Bits): (r: Bits)
    requires a.exp == 0 && b.exp == 0
    ensures r.exp == 0
  {
    Bits(0, Xor(a.word, b.word))
  }

  /** A 1-bit lane is a bit. */
  lemma {:induction false} LaneOneBit(x: nat, p: nat)
    ensures Lane(x, 1, p) == Bit(x, p)
  {
    MulIsProduct(1, p);
  }

  /** Every 1-bit lane of `abs_difference` is the distance of the two lanes. */
  lemma {:induction false} AbsDifferenceLanes(a: Bits, b: Bits)
    requires a.exp == 0 && b.exp == 0
    ensures forall j: nat :: j < WIDTH ==>
      Lane(AbsDifference(a, b).word, 1, j) == Dist(Lane(a.word, 1, j), Lane(b.word, 1, j))
  {
    forall j: nat | j < WIDTH
      ensures Lane(AbsDifference(a, b).word, 1, j) == Dist(Lane(a.word, 1, j), Lane(b.word, 1, j))
    {
      XorBit(a.word, b.word, j);
      LaneOneBit(a.word, j);
      LaneOneBit(b.word, j);
      LaneOneBit(AbsDifference(a, b).word, j);
    }
  }

  /** `Bits2::hwd`: the low bit of each 2-bit lane is the exclusive or of the
      low bits; the high bit is set when one lane is 2 and the other 0. */
  function Hwd(a: Bits, b: Bits): (r: Bits)
    requires a.exp == 1 && b.exp == 1
    ensures r.exp == 1
  {
    var x, y := a.word, b.word;
    var low := And(RIGHT_MASKS[6], Xor(x, y));
    var high := And(LEFT_MASKS[6], Or(And(And(y, Not(x)), Shl(Not(x), 1)), And(And(x, Not(y)), Shl(Not(y), 1))));
    Bits(1, Or(low, high))
  }

  /** The level-6 masks: bit 2j set in the right mask, bit 2j + 1 in the left. */
  lemma {:induction false} PairMaskBits(j: nat)
    requires j < 64
    ensures Bit(RIGHT_MASKS[6], 2 * j) == 1 && Bit(RIGHT_MASKS[6], 2 * j + 1) == 0
    ensures Bit(LEFT_MASKS[6], 2 * j) == 0 && Bit(LEFT_MASKS[6], 2 * j + 1) == 1
  {
    MaskLevel6(1, 64);
    assert Pow2(1) - 1 == 1 && HighOnes(1) == 2 by {
      Pow2Values();
    }
    RepLane(1, 2, 64, j);
    RepLane(2, 2, 64, j);
    LaneTwoBits(RIGHT_MASKS[6], j);
    LaneTwoBits(LEFT_MASKS[6], j);
  }

  /** The low bit of an output lane of `hwd`. */
  lemma {:induction false} HwdLowBit(a: Bits, b: Bits, j: nat)
    requires a.exp == 1 && b.exp == 1 && j < 64
    ensures Bit(Hwd(a, b).word, 2 * j) == (Bit(a.word, 2 * j) + Bit(b.word, 2 * j)) % 2
  {
    var x, y, p := a.word, b.word, 2 * j;
    var low := And(RIGHT_MASKS[6], Xor(x, y));
    var high := And(LEFT_MASKS[6], Or(And(And(y, Not(x)), Shl(Not(x), 1)), And(And(x, Not(y)), Shl(Not(y), 1))));
    PairMaskBits(j);
    AndBit(RIGHT_MASKS[6], Xor(x, y), p);
    XorBit(x, y, p);
    AndBit(LEFT_MASKS[6], Or(And(And(y, Not(x)), Shl(Not(x), 1)), And(And(x, Not(y)), Shl(Not(y), 1))), p);
    OrBit(low, high, p);
  }

  /** Bit 2j + 1 of `y & !x & !x << 1`: set when bit 2j + 1 of y is set and
      bits 2j + 1 and 2j of x are clear. */
  lemma {:induction false} GuardBit(x: U128, y: U128, j: nat)
    requires j < 64
    ensures Bit(And(And(y, Not(x)), Shl(Not(x), 1)), 2 * j + 1) ==
      Bit(y, 2 * j + 1) * (1 - Bit(x, 2 * j + 1)) * (1 - Bit(x, 2 * j))
  {
    var p, q := 2 * j, 2 * j + 1;
    AndBit(And(y, Not(x)), Shl(Not(x), 1), q);
    AndBit(y, Not(x), q);
    NotBit(x, q);
    ShlBit(Not(x), 1, q);
    NotBit(x, p);
  }

  /** The high bit of an output lane of `hwd`: set when the lane of b is 2 and
      that of a is 0, or the other way round. */
  lemma {:induction false} HwdHighBit(a: Bits, b: Bits, j: nat)
    requires a.exp == 1 && b.exp == 1 && j < 64
    ensures Bit(Hwd(a, b).word, 2 * j + 1) ==
      Bit(b.word, 2 * j + 1) * (1 - Bit(a.word, 2 * j + 1)) * (1 - Bit(a.word, 2 * j)) +
      Bit(a.word, 2 * j + 1) * (1 - Bit(b.word, 2 * j + 1)) * (1 - Bit(b.word, 2 * j))
  {
    var x, y, p, q := a.word, b.word, 2 * j, 2 * j + 1;
    var fromB := And(And(y, Not(x)), Shl(Not(x), 1));
    var fromA := And(And(x, Not(y)), Shl(Not(y), 1));
    assert Bit(Hwd(a, b).word, q) == if Bit(fromB, q) + Bit(fromA, q) == 0 then 0 else 1 by {
      var low := And(RIGHT_MASKS[6], Xor(x, y));
      var high := And(LEFT_MASKS[6], Or(fromB, fromA));
      PairMaskBits(j);
      AndBit(RIGHT_MASKS[6], Xor(x, y), q);
      AndBit(LEFT_MASKS[6], Or(fromB, fromA), q);
      OrBit(fromB, fromA, q);
      OrBit(low, high, q);
    }
    GuardBit(x, y, j);
    GuardBit(y, x, j);
    ExclusiveGuards(Bit(y, q), Bit(x, q), Bit(x, p), Bit(y, p));
  }

  /** The two guards of `hwd` never hold together, so their `|` is their sum. */
  lemma {:induction false} ExclusiveGuards(b1: nat, a1: nat, a0: nat, b0: nat)
    requires b1 < 2 && a1 < 2 && a0 < 2 && b0 < 2
    ensures var g := b1 * (1 - a1) * (1 - a0) + a1 * (1 - b1) * (1 - b0);
      (if g == 0 then 0 else 1) == g
  {
  }

  /** The distance of two 2-bit weights 0, 1 or 2 from their bits, as `hwd`
      computes it. */
  lemma {:induction false} HwdTable(a0: nat, a1: nat, b0: nat, b1: nat)
    requires a0 <= 1 && a1 <= 1 && b0 <= 1 && b1 <= 1
    requires a0 + 2 * a1 <= 2 && b0 + 2 * b1 <= 2
    ensures (a0 + b0) % 2 + 2 * (b1 * (1 - a1) * (1 - a0) + a1 * (1 - b1) * (1 - b0)) ==
      Dist(a0 + 2 * a1, b0 + 2 * b1)
  {
  }

  /** When both lanes hold a weight 0, 1 or 2, the output lane of `hwd` is
      their distance. */
  lemma {:induction false} HwdLane(a: Bits, b: Bits, j: nat)
    requires a.exp == 1 && b.exp == 1 && j < 64
    requires Lane(a.word, 2, j) <= 2 && Lane(b.word, 2, j) <= 2
    ensures Lane(Hwd(a, b).word, 2, j) == Dist(Lane(a.word, 2, j), Lane(b.word, 2, j))
  {
    var x, y, r, p, q := a.word, b.word, Hwd(a, b).word, 2 * j, 2 * j + 1;
    LaneTwoBits(x, j);
    LaneTwoBits(y, j);
    LaneTwoBits(r, j);
    HwdLowBit(a, b, j);
    HwdHighBit(a, b, j);
    HwdTable(Bit(x, p), Bit(x, q), Bit(y, p), Bit(y, q));
  }

  /** `hwd` is symmetric. */
  lemma {:induction false} HwdSymmetric(a: Bits, b: Bits)
    requires a.exp == 1 && b.exp == 1
    ensures Hwd(a, b) == Hwd(b, a)
  {
    var x, y := a.word, b.word;
    var fromB := And(And(y, Not(x)), Shl(Not(x), 1));
    var fromA := And(And(x, Not(y)), Shl(Not(y), 1));
    Pow2Values();
    BitwiseCommutes(XorGate, x, y, WIDTH);
    BitwiseCommutes(OrGate, fromB, fromA, WIDTH);
  }

  // ---------------------------------------------------------------------------
  // The scalar operators and the conversion out of Bits128

  /** `Bits{K} & u128`: masks the wrapped word, keeps the lane width. */
  function BitAnd(b: Bits, rhs: U128): (r: Bits)
    requires b.exp < 7
    ensures r.exp == b.exp
  {
    Bits(b.exp, And(b.word, rhs))
  }

  /** Every bit of `b & rhs` is set exactly when it is set in both. */
  lemma {:induction false} BitAndBits(b: Bits, rhs: U128)
    requires b.exp < 7
    ensures forall p: nat :: p < WIDTH ==>
      Bit(BitAnd(b, rhs).word, p) == Bit(b.word, p) * Bit(rhs, p)
  {
    forall p: nat | p < WIDTH
      ensures Bit(BitAnd(b, rhs).word, p) == Bit(b.word, p) * Bit(rhs, p)
    {
      AndBit(b.word, rhs, p);
    }
  }

  /** `Bits{K} >> k`: shifts the wrapped word, keeps the lane width. */
  function ShiftRight(b: Bits, k: nat): (r: Bits)
    requires b.exp < 7 && k < WIDTH
    ensures r.exp == b.exp
  {
    Bits(b.exp, Shr(b.word, k))
  }

  /** Bit p of `b >> k` is bit p + k of b; a shift by one lane width moves
      every lane down by one. */
  lemma {:induction false} ShiftRightBits(b: Bits, k: nat)
    requires b.exp < 7 && k < WIDTH
    ensures forall p: nat :: Bit(ShiftRight(b, k).word, p) == Bit(b.word, p + k)
    ensures k == Pow2(b.exp) ==> forall j: nat ::
      Lane(ShiftRight(b, k).word, k, j) == Lane(b.word, k, j + 1)
  {
    forall p: nat
      ensures Bit(ShiftRight(b, k).word, p) == Bit(b.word, p + k)
    {
      ShrBit(b.word, k, p);
    }
    forall j: nat
      ensures Lane(ShiftRight(b, k).word, k, j) == Lane(b.word, k, j + 1)
    {
      LaneStep(b.word, k, j);
    }
  }

  /** `From<Bits128> for u128`: the value of the single 128-bit lane, which
      is the whole wrapped word. */
  function FromBits128(b: Bits): (r: U128)
    requires b.exp == 7
    ensures r == b.word && r == Lane(b.word, Pow2(b.exp), 0)
  {
    assert Pow2(7) == WIDTH by {
      Pow2Values();
    }
    WholeLane(b.word);
    b.word
  }
}
