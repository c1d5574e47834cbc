/** The direct popcount steps of `Bits1` .. `Bits64`.

    Each `sum_weight2` here is one mask-shift-add on the word: the upper
    half of every 2K-bit block shifted down by K, plus the lower half.  It
    computes the same word as the split-and-add version, and seven steps from
    `Bits1` leave the population count of the input in the single 128-bit
    lane. */
module DirectSteps {
  import opened Word
  import opened Lanes
  import opened Masks
  import opened Swar
  import opened BitsN
  import opened BitsNxN

  /** `sum_weight2` of `Bits{K}`, K = 2^exp:
      `((n & LEFT_MASKS[l]) >> K) + (n & RIGHT_MASKS[l])` as `Bits{2K}`. */
  function SumWeight2(b: Bits): (r: Bits)
    requires b.exp < 7
    ensures r.exp == b.exp + 1
  {
    var level, k := Level(b.exp), Pow2(b.exp);
    Bits(b.exp + 1, WrappingAdd(Shr(And(b.word, LEFT_MASKS[level]), k), And(b.word, RIGHT_MASKS[level])))
  }

  /** The direct step and the split-and-add step compute the same value. */
  lemma {:induction false} SameStep(b: Bits)
    requires b.exp < 7
    ensures SumWeight2(b) == BitsN.SumWeight2(b)
  {
    SumWeight2Word(b);
  }

  /** Each 2K-bit lane of the direct step is the sum of the two K-bit lanes it
      covers, with no carry into the next lane and no u128 overflow. */
  lemma {:induction false} SumWeight2Lanes(b: Bits)
    requires b.exp < 7
    ensures And(b.word, RIGHT_MASKS[Level(b.exp)]) + Shr(And(b.word, LEFT_MASKS[Level(b.exp)]), Pow2(b.exp)) < MODULUS
    ensures forall j: nat :: j < LaneCount(b.exp + 1) ==>
      Lane(SumWeight2(b).word, Pow2(b.exp + 1), j) == Lane(b.word, Pow2(b.exp), 2 * j) + Lane(b.word, Pow2(b.exp), 2 * j + 1)
  {
    SameStep(b);
    BitsN.SumWeight2Lanes(b);
  }

  /** `steps` chained `sum_weight2` calls starting from `Bits1(n)`. */
  function Chain(n: U128, steps: nat): (r: Bits)
    requires steps <= 7
    ensures r.exp == steps
  {
    if steps == 0 then Bits(0, n) else SumWeight2(Chain(n, steps - 1))
  }

  /** The population count of a u128: its number of set bits. */
  function CountOnes(n: U128): nat
  {
    Pop(n, WIDTH)
  }

  /** A 1-bit lane is its own population count. */
  lemma {:induction false} PopOfBit(x: nat)
    requires x < 2
    ensures Pop(x, 1) == x
  {
  }

  /** The population count of a 2K-bit lane is the sum of those of its two
      K-bit halves. */
  lemma {:induction false} PopOfLane(n: nat, k: nat, j: nat)
    ensures Pop(Lane(n, k + k, j), k + k) == Pop(Lane(n, k, 2 * j), k) + Pop(Lane(n, k, 2 * j + 1), k)
  {
    LaneHalves(n, k, j);
    PopConcat(Lane(n, k, 2 * j), Lane(n, k, 2 * j + 1), k, k);
  }

  /** One doubling of the lane width: when every k-bit lane of x counts the
      set bits of its region of n and every 2k-bit lane of y is the sum of the
      two k-bit lanes of x it covers, every 2k-bit lane of y counts the set
      bits of its region of n. */
  lemma {:induction false} CountsDouble(n: nat, x: nat, y: nat, k: nat, w: nat, m: nat)
    requires w == k + k
    requires forall i: nat :: i < m + m ==> Lane(x, k, i) == Pop(Lane(n, k, i), k) <= k
    requires forall j: nat :: j < m ==> Lane(y, w, j) == Lane(x, k, 2 * j) + Lane(x, k, 2 * j + 1)
    ensures forall j: nat :: j < m ==> Lane(y, w, j) == Pop(Lane(n, w, j), w) <= w
  {
    forall j: nat | j < m
      ensures Lane(y, w, j) == Pop(Lane(n, w, j), w) <= w
    {
      assert Lane(x, k, 2 * j) == Pop(Lane(n, k, 2 * j), k);
      assert Lane(x, k, 2 * j + 1) == Pop(Lane(n, k, 2 * j + 1), k);
      PopOfLane(n, k, j);
    }
  }

  /** After s chained steps every 2^s-bit lane holds the number of set bits of
      the matching 2^s-bit region of n, at most 2^s. */
  lemma {:induction false} ChainCounts(n: U128, s: nat)
    requires s <= 7
    ensures forall i: nat :: i < LaneCount(s) ==>
      Lane(Chain(n, s).word, Pow2(s), i) == Pop(Lane(n, Pow2(s), i), Pow2(s)) <= Pow2(s)
  {
    if s == 0 {
      forall i: nat | i < LaneCount(0)
        ensures Lane(Chain(n, 0).word, 1, i) == Pop(Lane(n, 1, i), 1) <= 1
      {
        PopOfBit(Lane(n, 1, i));
      }
    } else {
      var prev := Chain(n, s - 1);
      ChainCounts(n, s - 1);
      SumWeight2Lanes(prev);
      Geometry(s - 1);
      assert LaneCount(s - 1) == LaneCount(s) + LaneCount(s);
      CountsDouble(n, prev.word, Chain(n, s).word, Pow2(s - 1), Pow2(s), LaneCount(s));
    }
  }

  /** Seven steps followed by `From<Bits128>` give `count_ones`. */
  lemma {:induction false} ChainIsCountOnes(n: U128)
    ensures FromBits128(Chain(n, 7)) == CountOnes(n)
  {
    ChainCounts(n, 7);
    assert LaneCount(7) == 1 && Pow2(7) == WIDTH by {
      Pow2Values();
    }
    WholeLane(n);
    WholeLane(Chain(n, 7).word);
  }

  /** `Bits1::sum_weight2`: each 2-bit lane counts the set bits of its 2-bit
      region of n, so it is at most 2. */
  lemma {:induction false} PairCounts(n: U128)
    ensures forall j: nat :: j < 64 ==>
      Lane(SumWeight2(Bits(0, n)).word, 2, j) == Pop(Lane(n, 2, j), 2) <= 2
  {
    ChainCounts(n, 1);
    assert Chain(n, 1) == SumWeight2(Bits(0, n));
    assert Pow2(1) == 2 && LaneCount(1) == 64 by {
      Pow2Values();
    }
  }

  /** The two 64-bit lanes of a word are its low and its high 64 bits. */
  lemma {:induction false} SixtyFourBitLanes(n: U128)
    ensures Lane(n, 64, 0) == Lo(n, 64) && Lane(n, 64, 1) == Hi(n, 64)
  {
    LaneZero(n, 64);
    LaneStep(n, 64, 0);
    LaneZero(Hi(n, 64), 64);
    assert Hi(n, 64) < Pow2(64) by {
      Pow2Values();
      HiBound(n, 64, 64);
    }
    LoOfSmall(Hi(n, 64), 64);
  }

  /** The lowest lane of a word whose lanes are pairwise sums of a finer
      word's lanes is the sum of the two lowest finer lanes. */
  lemma {:induction false} FirstLaneSum(r: nat, x: nat, w: nat, k: nat, m: nat)
    requires 0 < m
    requires forall j: nat :: j < m ==> Lane(r, w, j) == Lane(x, k, 2 * j) + Lane(x, k, 2 * j + 1)
    ensures Lane(r, w, 0) == Lane(x, k, 0) + Lane(x, k, 1)
  {
    assert Lane(r, w, 0) == Lane(x, k, 2 * 0) + Lane(x, k, 2 * 0 + 1);
  }

  /** `Bits64::sum_weight2` adds the high 64 bits of n to the low 64 bits. */
  lemma {:induction false} HalvesOfWord(n: U128)
    ensures SumWeight2(Bits(6, n)).word == Lo(n, 64) + Hi(n, 64)
  {
    SumWeight2Lanes(Bits(6, n));
    FirstLaneSum(SumWeight2(Bits(6, n)).word, n, Pow2(7), Pow2(6), LaneCount(7));
    assert Pow2(6) == 64 && Pow2(7) == WIDTH by {
      Pow2Values();
    }
    WholeLane(SumWeight2(Bits(6, n)).word);
    SixtyFourBitLanes(n);
  }
}
