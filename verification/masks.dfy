/** The mask tables of the lane algebra.

    At subdivision level l (0 to 6) the word is cut into 2^l blocks of
    2^(7 - l) bits.  LEFT_MASKS[l] selects the upper half of every block and
    RIGHT_MASKS[l] the lower half; a half is K = 2^(6 - l) bits wide.  Both
    tables appear twice in the crate, with the same contents, once for the
    split-and-add lane types and once for the direct popcount steps. */
module Masks {
  import opened Word
  import opened Lanes

  const LEFT_MASKS: seq<U128> := [
    0xFFFF_FFFF_FFFF_FFFF_0000_0000_0000_0000,
    0xFFFF_FFFF_0000_0000_FFFF_FFFF_0000_0000,
    0xFFFF_0000_FFFF_0000_FFFF_0000_FFFF_0000,
    0xFF00_FF00_FF00_FF00_FF00_FF00_FF00_FF00,
    0xF0F0_F0F0_F0F0_F0F0_F0F0_F0F0_F0F0_F0F0,
    0xCCCC_CCCC_CCCC_CCCC_CCCC_CCCC_CCCC_CCCC,
    0xAAAA_AAAA_AAAA_AAAA_AAAA_AAAA_AAAA_AAAA
  ]

  const RIGHT_MASKS: seq<U128> := [
    0x0000_0000_0000_0000_FFFF_FFFF_FFFF_FFFF,
    0x0000_0000_FFFF_FFFF_0000_0000_FFFF_FFFF,
    0x0000_FFFF_0000_FFFF_0000_FFFF_0000_FFFF,
    0x00FF_00FF_00FF_00FF_00FF_00FF_00FF_00FF,
    0x0F0F_0F0F_0F0F_0F0F_0F0F_0F0F_0F0F_0F0F,
    0x3333_3333_3333_3333_3333_3333_3333_3333,
    0x5555_5555_5555_5555_5555_5555_5555_5555
  ]

  /** Number of subdivision levels, the length of both tables. */
  const LEVELS: nat := 7

  /** K, the width of a half block: 64 at level 0 down to 1 at level 6. */
  function HalfWidth(level: nat): nat
    requires level < LEVELS
  {
    Pow2(6 - level)
  }

  // ---------------------------------------------------------------------------
  // The shape of every mask

  /** The masks of level 0, built by doubling one block up to the word. */
  lemma {:induction false} MaskLevel0(k: nat, m: nat)
    requires k == 64 && m == 1
    ensures HalfWidth(0) == k && Pow2(0) == m && 1 <= k <= 64 && Mul(k + k, m) == WIDTH
    ensures RIGHT_MASKS[0] == Rep(Pow2(k) - 1, k + k, m)
    ensures LEFT_MASKS[0] == Rep(HighOnes(k), k + k, m)
  {
    Pow2Values();
    MulIsProduct(k + k, m);
    assert Rep(0xFFFF_FFFF_FFFF_FFFF, 128, 1) == 0xFFFF_FFFF_FFFF_FFFF;
    RepScale(0x1_0000_0000_0000_0000, 0xFFFF_FFFF_FFFF_FFFF, 128, 1);
  }

  /** The masks of level 1, built by doubling one block up to the word. */
  lemma {:induction false} MaskLevel1(k: nat, m: nat)
    requires k == 32 && m == 2
    ensures HalfWidth(1) == k && Pow2(1) == m && 1 <= k <= 64 && Mul(k + k, m) == WIDTH
    ensures RIGHT_MASKS[1] == Rep(Pow2(k) - 1, k + k, m)
    ensures LEFT_MASKS[1] == Rep(HighOnes(k), k + k, m)
  {
    Pow2Values();
    MulIsProduct(k + k, m);
    assert Rep(0xFFFF_FFFF, 64, 1) == 0xFFFF_FFFF;
    MulIsProduct(64, 1);
    RepDoubled(0xFFFF_FFFF, 64, 1, 0xFFFF_FFFF);
    RepScale(0x1_0000_0000, 0xFFFF_FFFF, 64, 2);
  }

  /** The masks of level 2, built by doubling one block up to the word. */
  lemma {:induction false} MaskLevel2(k: nat, m: nat)
    requires k == 16 && m == 4
    ensures HalfWidth(2) == k && Pow2(2) == m && 1 <= k <= 64 && Mul(k + k, m) == WIDTH
    ensures RIGHT_MASKS[2] == Rep(Pow2(k) - 1, k + k, m)
    ensures LEFT_MASKS[2] == Rep(HighOnes(k), k + k, m)
  {
    Pow2Values();
    MulIsProduct(k + k, m);
    assert Rep(0xFFFF, 32, 1) == 0xFFFF;
    MulIsProduct(32, 1);
    RepDoubled(0xFFFF, 32, 1, 0xFFFF);
    MulIsProduct(32, 2);
    RepDoubled(0xFFFF, 32, 2, 0xFFFF_0000_FFFF);
    RepScale(0x1_0000, 0xFFFF, 32, 4);
  }

  /** The masks of level 3, built by doubling one block up to the word. */
  lemma {:induction false} MaskLevel3(k: nat, m: nat)
    requires k == 8 && m == 8
    ensures HalfWidth(3) == k && Pow2(3) == m && 1 <= k <= 64 && Mul(k + k, m) == WIDTH
    ensures RIGHT_MASKS[3] == Rep(Pow2(k) - 1, k + k, m)
    ensures LEFT_MASKS[3] == Rep(HighOnes(k), k + k, m)
  {
    Pow2Values();
    MulIsProduct(k + k, m);
    assert Rep(0xFF, 16, 1) == 0xFF;
    MulIsProduct(16, 1);
    RepDoubled(0xFF, 16, 1, 0xFF);
    MulIsProduct(16, 2);
    RepDoubled(0xFF, 16, 2, 0xFF_00FF);
    MulIsProduct(16, 4);
    RepDoubled(0xFF, 16, 4, 0xFF_00FF_00FF_00FF);
    RepScale(0x100, 0xFF, 16, 8);
  }

  /** The masks of level 4, built by doubling one block up to the word. */
  lemma {:induction false} MaskLevel4(k: nat, m: nat)
    requires k == 4 && m == 16
    ensures HalfWidth(4) == k && Pow2(4) == m && 1 <= k <= 64 && Mul(k + k, m) == WIDTH
    ensures RIGHT_MASKS[4] == Rep(Pow2(k) - 1, k + k, m)
    ensures LEFT_MASKS[4] == Rep(HighOnes(k), k + k, m)
  {
    Pow2Values();
    MulIsProduct(k + k, m);
    assert Rep(15, 8, 1) == 15;
    MulIsProduct(8, 1);
    RepDoubled(15, 8, 1, 15);
    MulIsProduct(8, 2);
    RepDoubled(15, 8, 2, 0xF0F);
    MulIsProduct(8, 4);
    RepDoubled(15, 8, 4, 0xF0F_0F0F);
    MulIsProduct(8, 8);
    RepDoubled(15, 8, 8, 0xF0F_0F0F_0F0F_0F0F);
    RepScale(0x10, 15, 8, 16);
  }

  /** The masks of level 5, built by doubling one block up to the word. */
  lemma {:induction false} MaskLevel5(k: nat, m: nat)
    requires k == 2 && m == 32
    ensures HalfWidth(5) == k && Pow2(5) == m && 1 <= k <= 64 && Mul(k + k, m) == WIDTH
    ensures RIGHT_MASKS[5] == Rep(Pow2(k) - 1, k + k, m)
    ensures LEFT_MASKS[5] == Rep(HighOnes(k), k + k, m)
  {
    Pow2Values();
    MulIsProduct(k + k, m);
    assert Rep(3, 4, 1) == 3;
    MulIsProduct(4, 1);
    RepDoubled(3, 4, 1, 3);
    MulIsProduct(4, 2);
    RepDoubled(3, 4, 2, 0x33);
    MulIsProduct(4, 4);
    RepDoubled(3, 4, 4, 0x3333);
    MulIsProduct(4, 8);
    RepDoubled(3, 4, 8, 0x3333_3333);
    MulIsProduct(4, 16);
    RepDoubled(3, 4, 16, 0x3333_3333_3333_3333);
    RepScale(4, 3, 4, 32);
  }

  /** The masks of level 6, built by doubling one block up to the word. */
  lemma {:induction false} MaskLevel6(k: nat, m: nat)
    requires k == 1 && m == 64
    ensures HalfWidth(6) == k && Pow2(6) == m && 1 <= k <= 64 && Mul(k + k, m) == WIDTH
    ensures RIGHT_MASKS[6] == Rep(Pow2(k) - 1, k + k, m)
    ensures LEFT_MASKS[6] == Rep(HighOnes(k), k + k, m)
  {
    Pow2Values();
    MulIsProduct(k + k, m);
    assert Rep(1, 2, 1) == 1;
    MulIsProduct(2, 1);
    RepDoubled(1, 2, 1, 1);
    MulIsProduct(2, 2);
    RepDoubled(1, 2, 2, 5);
    MulIsProduct(2, 4);
    RepDoubled(1, 2, 4, 0x55);
    MulIsProduct(2, 8);
    RepDoubled(1, 2, 8, 0x5555);
    MulIsProduct(2, 16);
    RepDoubled(1, 2, 16, 0x5555_5555);
    MulIsProduct(2, 32);
    RepDoubled(1, 2, 32, 0x5555_5555_5555_5555);
    RepScale(2, 1, 2, 64);
  }

  /** At every level the right mask is m = 2^level blocks of 2K bits each
      holding K low ones, and the left mask is the same blocks holding K high
      ones; the blocks fill the word exactly. */
  lemma {:induction false} MaskShape(level: nat, k: nat, m: nat)
    requires level < LEVELS && k == HalfWidth(level) && m == Pow2(level)
    ensures 1 <= k <= 64 && Mul(k + k, m) == WIDTH
    ensures RIGHT_MASKS[level] == Rep(Pow2(k) - 1, k + k, m)
    ensures LEFT_MASKS[level] == Rep(HighOnes(k), k + k, m)
  {
    if level < 4 {
      CoarseMaskShape(level, k, m);
    } else {
      FineMaskShape(level, k, m);
    }
  }

  /** MaskShape at the levels whose half blocks are 8 bits or wider. */
  lemma {:induction false} CoarseMaskShape(level: nat, k: nat, m: nat)
    requires 0 <= level < 4 && k == HalfWidth(level) && m == Pow2(level)
    ensures 1 <= k <= 64 && Mul(k + k, m) == WIDTH
    ensures RIGHT_MASKS[level] == Rep(Pow2(k) - 1, k + k, m)
    ensures LEFT_MASKS[level] == Rep(HighOnes(k), k + k, m)
  {
    Pow2Values();
    if level == 0 {
      MaskLevel0(k, m);
    } else if level == 1 {
      MaskLevel1(k, m);
    } else if level == 2 {
      MaskLevel2(k, m);
    } else {
      MaskLevel3(k, m);
    }
  }

  /** MaskShape at the levels whose half blocks are 4 bits or narrower. */
  lemma {:induction false} FineMaskShape(level: nat, k: nat, m: nat)
    requires 4 <= level < LEVELS && k == HalfWidth(level) && m == Pow2(level)
    ensures 1 <= k <= 64 && Mul(k + k, m) == WIDTH
    ensures RIGHT_MASKS[level] == Rep(Pow2(k) - 1, k + k, m)
    ensures LEFT_MASKS[level] == Rep(HighOnes(k), k + k, m)
  {
    Pow2Values();
    if level == 4 {
      MaskLevel4(k, m);
    } else if level == 5 {
      MaskLevel5(k, m);
    } else {
      MaskLevel6(k, m);
    }
  }

  // ---------------------------------------------------------------------------
  // One block

  /** The high ones of a block fit in it. */
  lemma {:induction false} HighOnesBound(k: nat)
    ensures Pow2(k) - 1 < Pow2(k + k) && HighOnes(k) < Pow2(k + k)
  {
    Pow2Monotone(k, k + k);
    ConcatBound(0, Pow2(k) - 1, k, k);
  }

  /** The low ones of a block fit in it. */
  lemma {:induction false} LowOnesBound(k: nat)
    ensures Pow2(k) - 1 < Pow2(k + k)
  {
    Pow2Monotone(k, k + k);
  }

  /** The high ones of a block have nothing in its low half. */
  lemma {:induction false} HighOnesLow(k: nat)
    ensures Lo(HighOnes(k), k) == 0
  {
    Concat(0, Pow2(k) - 1, k);
  }

  /** The high and the low halves of a block share no bit. */
  lemma {:induction false} HalvesDisjoint(k: nat)
    ensures Bitwise(AndGate, HighOnes(k), Pow2(k) - 1, k + k) == 0
  {
    AndLowOnes(HighOnes(k), k, k + k);
    HighOnesLow(k);
  }

  /** The high and the low halves of a block cover it. */
  lemma {:induction false} HalvesCover(k: nat)
    ensures Bitwise(OrGate, HighOnes(k), Pow2(k) - 1, k + k) == Pow2(k + k) - 1
  {
    var r := Bitwise(OrGate, HighOnes(k), Pow2(k) - 1, k + k);
    forall p: nat | p < k + k
      ensures Bit(r, p) == Bit(Pow2(k + k) - 1, p)
    {
      BitBitwise(OrGate, HighOnes(k), Pow2(k) - 1, k + k, p);
      BitMulPow2(Pow2(k) - 1, k, p);
      BitLowOnes(k, p);
      BitLowOnes(k + k, p);
      if p >= k {
        BitLowOnes(k, p - k);
      }
    }
    BitsDetermine(r, Pow2(k + k) - 1, k + k);
  }

  /** m blocks of high halves and m blocks of low halves share no bit. */
  lemma {:induction false} BlocksDisjoint(k: nat, m: nat)
    ensures Bitwise(AndGate, Rep(HighOnes(k), k + k, m), Rep(Pow2(k) - 1, k + k, m), Mul(k + k, m)) == 0
  {
    HighOnesBound(k);
    BitwiseRep(AndGate, HighOnes(k), Pow2(k) - 1, k + k, m);
    HalvesDisjoint(k);
    RepScale(0, 0, k + k, m);
  }

  /** m blocks of high halves and m blocks of low halves fill their m blocks. */
  lemma {:induction false} BlocksCover(k: nat, m: nat)
    ensures Bitwise(OrGate, Rep(HighOnes(k), k + k, m), Rep(Pow2(k) - 1, k + k, m), Mul(k + k, m)) == Pow2(Mul(k + k, m)) - 1
  {
    HighOnesBound(k);
    BitwiseRep(OrGate, HighOnes(k), Pow2(k) - 1, k + k, m);
    HalvesCover(k);
    RepAllOnes(k + k, m);
  }

  // ---------------------------------------------------------------------------
  // The mask laws

  /** LEFT_MASKS[l] & RIGHT_MASKS[l] == 0 at every level. */
  lemma {:induction false} MasksDisjoint(level: nat)
    requires level < LEVELS
    ensures And(LEFT_MASKS[level], RIGHT_MASKS[level]) == 0
  {
    var k, m := HalfWidth(level), Pow2(level);
    MaskShape(level, k, m);
    BlocksDisjoint(k, m);
  }

  /** LEFT_MASKS[l] | RIGHT_MASKS[l] is all ones at every level. */
  lemma {:induction false} MasksCover(level: nat)
    requires level < LEVELS
    ensures Or(LEFT_MASKS[level], RIGHT_MASKS[level]) == ALL_ONES
  {
    var k, m := HalfWidth(level), Pow2(level);
    MaskShape(level, k, m);
    BlocksCover(k, m);
    Pow2Values();
  }

  /** Blocks of high halves are blocks of low halves moved up by K. */
  lemma {:induction false} BlocksShifted(k: nat, m: nat)
    ensures Rep(HighOnes(k), k + k, m) == Pow2(k) * Rep(Pow2(k) - 1, k + k, m)
  {
    RepScale(Pow2(k), Pow2(k) - 1, k + k, m);
  }

  /** The left mask is the right mask moved up by half a block. */
  lemma {:induction false} LeftIsShiftedRight(level: nat)
    requires level < LEVELS
    ensures LEFT_MASKS[level] == Pow2(HalfWidth(level)) * RIGHT_MASKS[level]
  {
    var k, m := HalfWidth(level), Pow2(level);
    MaskShape(level, k, m);
    BlocksShifted(k, m);
  }

  /** RIGHT_MASKS[l] == LEFT_MASKS[l] >> K at every level. */
  lemma {:induction false} MasksShift(level: nat)
    requires level < LEVELS
    ensures Shr(LEFT_MASKS[level], HalfWidth(level)) == RIGHT_MASKS[level]
  {
    LeftIsShiftedRight(level);
    Concat(0, RIGHT_MASKS[level], HalfWidth(level));
  }

  // ---------------------------------------------------------------------------
  // What masking does to a word

  /** Masking with the low halves of m blocks of 2K bits gathers the even
      K-bit lanes, each in its own 2K-bit lane. */
  lemma {:induction false} AndLowHalves(x: nat, k: nat, m: nat)
    ensures Bitwise(AndGate, x, Rep(Pow2(k) - 1, k + k, m), Mul(k + k, m)) == Gather(x, k, m)
    decreases m
  {
    if m > 0 {
      var mask := Rep(Pow2(k) - 1, k + k, m);
      var w := Mul(k + k, m);
      var rest := Mul(k + k, m - 1);
      var lo := Bitwise(AndGate, Lo(x, k + k), Lo(mask, k + k), k + k);
      var hi := Bitwise(AndGate, Hi(x, k + k), Hi(mask, k + k), rest);
      var g := Gather(Hi(x, k + k), k, m - 1);
      assert Lo(mask, k + k) == Pow2(k) - 1 && Hi(mask, k + k) == Rep(Pow2(k) - 1, k + k, m - 1) by {
        LowOnesBound(k);
        RepLoHi(Pow2(k) - 1, k + k, m);
      }
      assert lo == Lo(x, k) by {
        LowBlockMasked(x, k);
      }
      assert hi == g by {
        AndLowHalves(Hi(x, k + k), k, m - 1);
      }
      BitwiseSplit(AndGate, x, mask, k + k, rest, w);
      assert Gather(x, k, m) == Lo(x, k) + Pow2(k + k) * g;
    }
  }

  /** Masking the lowest 2K-bit block with K low ones keeps K-bit lane 0. */
  lemma {:induction false} LowBlockMasked(x: nat, k: nat)
    ensures Bitwise(AndGate, Lo(x, k + k), Pow2(k) - 1, k + k) == Lo(x, k)
  {
    AndLowOnes(Lo(x, k + k), k, k + k);
    LoLo(x, k, k + k);
  }

  /** Masking with the high halves of m blocks of 2K bits keeps the odd K-bit
      lanes in place: they are the even lanes of x >> K, moved up by K. */
  lemma {:induction false} AndHighHalves(x: nat, k: nat, m: nat)
    ensures Bitwise(AndGate, x, Rep(HighOnes(k), k + k, m), Mul(k + k, m)) == Pow2(k) * Gather(Hi(x, k), k, m)
    decreases m
  {
    if m > 0 {
      var mask := Rep(HighOnes(k), k + k, m);
      var w := Mul(k + k, m);
      var rest := Mul(k + k, m - 1);
      var lo := Bitwise(AndGate, Lo(x, k + k), Lo(mask, k + k), k + k);
      var hi := Bitwise(AndGate, Hi(x, k + k), Hi(mask, k + k), rest);
      var a, g := Lo(Hi(x, k), k), Gather(Hi(Hi(x, k), k + k), k, m - 1);
      assert lo == Pow2(k) * a by {
        HighOnesBound(k);
        RepLoHi(HighOnes(k), k + k, m);
        AndHighOnes(Lo(x, k + k), k, k + k);
        HighHalfOfBlock(x, k);
      }
      assert hi == Pow2(k) * g by {
        HighOnesBound(k);
        RepLoHi(HighOnes(k), k + k, m);
        AndHighHalves(Hi(x, k + k), k, m - 1);
        HiHiSwap(x, k);
      }
      assert Pow2(k) * Gather(Hi(x, k), k, m) == lo + Pow2(k + k) * hi by {
        Distrib(Pow2(k), a, Pow2(k + k) * g);
        MulSwap(Pow2(k), Pow2(k + k), g);
      }
      BitwiseSplit(AndGate, x, mask, k + k, rest, w);
    }
  }

  /** The high half of the lowest 2K-bit block of x is K-bit lane 1 of x. */
  lemma {:induction false} HighHalfOfBlock(x: nat, k: nat)
    ensures Lo(Hi(Lo(x, k + k), k), k) == Lo(Hi(x, k), k)
  {
    LoSplit(x, k, k);
    Concat(Lo(x, k), Lo(Hi(x, k), k), k);
    LoOfSmall(Lo(Hi(x, k), k), k);
  }

  /** Dropping 2K bits and then K bits is dropping K bits and then 2K bits. */
  lemma {:induction false} HiHiSwap(x: nat, k: nat)
    ensures Hi(Hi(x, k + k), k) == Hi(Hi(x, k), k + k)
  {
    HiHi(x, k + k, k);
    HiHi(x, k, k + k);
    assert k + k + k == k + (k + k);
  }

  /** A bit of n survives one of two masks that together cover the word. */
  lemma {:induction false} CoveredBit(n: U128, left: U128, right: U128, p: nat)
    requires p < WIDTH && Or(left, right) == ALL_ONES
    ensures Bit(Or(And(n, left), And(n, right)), p) == Bit(n, p)
  {
    OrBit(And(n, left), And(n, right), p);
    AndBit(n, left, p);
    AndBit(n, right, p);
    OrBit(left, right, p);
    AllOnesBit(p);
  }

  /** The two masked parts of n together are n again. */
  lemma {:induction false} MaskedPartsJoin(n: U128, level: nat)
    requires level < LEVELS
    ensures Or(And(n, LEFT_MASKS[level]), And(n, RIGHT_MASKS[level])) == n
  {
    var left, right := LEFT_MASKS[level], RIGHT_MASKS[level];
    var joined := Or(And(n, left), And(n, right));
    MasksCover(level);
    forall p: nat | p < WIDTH
      ensures Bit(joined, p) == Bit(n, p)
    {
      CoveredBit(n, left, right, p);
    }
    WordBitsDetermine(joined, n);
  }

  /** n & RIGHT_MASKS[l] gathers the even K-bit lanes of n, one per 2K-bit lane. */
  lemma {:induction false} AndRightMask(n: U128, level: nat)
    requires level < LEVELS
    ensures And(n, RIGHT_MASKS[level]) == Gather(n, HalfWidth(level), Pow2(level))
  {
    var k, m := HalfWidth(level), Pow2(level);
    MaskShape(level, k, m);
    AndLowHalves(n, k, m);
  }

  /** n & LEFT_MASKS[l] is the odd K-bit lanes of n, gathered one per 2K-bit
      lane and moved up by K. */
  lemma {:induction false} AndLeftMask(n: U128, level: nat)
    requires level < LEVELS
    ensures And(n, LEFT_MASKS[level]) == Pow2(HalfWidth(level)) * Gather(Hi(n, HalfWidth(level)), HalfWidth(level), Pow2(level))
  {
    var k, m := HalfWidth(level), Pow2(level);
    MaskShape(level, k, m);
    AndHighHalves(n, k, m);
  }
}
