/** The `Add` impls of the overflow-tracking types.

    Adding two `Bits{K}x{2K}` values adds their words with one u128 `+` and
    rewraps the sum as `Bits{K+1}x{2K}` (as `Bits2` when K = 1): the type now
    promises one more meaningful bit per lane.  The lemmas show why the
    promise holds: when every 2K-bit lane of both operands is below 2^K, no
    lane sum reaches the next lane and the u128 addition never overflows. */
module BitsNxN {
  import opened Word
  import opened Lanes
  import opened Swar

  /** `Bits1x2 + Bits1x2`: the sum of the two words, as `Bits2`. */
  function AddBits1x2(a: Halves, b: Halves): (r: Bits)
    requires a.bits.exp == 1 && b.bits.exp == 1
    ensures r.exp == 1
  {
    Bits(1, WrappingAdd(a.bits.word, b.bits.word))
  }

  /** `Bits{K}x{2K} + Bits{K}x{2K}` for K = 2 .. 64: the sum of the two words,
      as `Bits{K+1}x{2K}`. */
  function AddHalves(a: Halves, b: Halves): (r: Carried)
    requires a.bits.exp == b.bits.exp >= 2
    ensures r.bits.exp == a.bits.exp
  {
    Carried(Bits(a.bits.exp, WrappingAdd(a.bits.word, b.bits.word)))
  }

  /** Two words of m lanes of 2K bits, every lane below 2^K, add without
      overflow and without a carry between lanes; every lane of the sum is
      below 2^(K+1). */
  lemma {:induction false} SumOfHalves(x: U128, y: U128, sum: nat, k: nat, w: nat, m: nat)
    requires sum == x + y
    requires 1 <= k && w == k + k && Mul(w, m) == WIDTH
    requires LanesBelow(x, w, m, Pow2(k)) && LanesBelow(y, w, m, Pow2(k))
    ensures sum < MODULUS
    ensures forall j: nat :: j < m ==> Lane(sum, w, j) == Lane(x, w, j) + Lane(y, w, j)
    ensures LanesBelow(sum, w, m, Pow2(k + 1))
  {
    assert Pow2(Mul(w, m)) == MODULUS && x < Pow2(Mul(w, m)) && y < Pow2(Mul(w, m)) by {
      Pow2Values();
    }
    forall j: nat | j < m
      ensures Lane(x, w, j) + Lane(y, w, j) < Pow2(k + 1) <= Pow2(w)
    {
      SmallSum(Lane(x, w, j), Lane(y, w, j), k, w);
    }
    LaneAdd(x, y, sum, w, m);
  }

  /** Two values below 2^K add to less than 2^(K+1), which fits in 2K bits. */
  lemma {:induction false} SmallSum(a: nat, b: nat, k: nat, w: nat)
    requires a < Pow2(k) && b < Pow2(k) && 1 <= k && w == k + k
    ensures a + b < Pow2(k + 1) <= Pow2(w)
  {
    Pow2Monotone(k + 1, w);
  }

  /** The sum of two words whose 2K-bit lanes are all below 2^K: no overflow,
      lane-wise sums, every lane below 2^(K+1). */
  lemma {:induction false} HalvesSum(a: Halves, b: Halves, sum: nat)
    requires a.bits.exp == b.bits.exp >= 1
    requires HalvesInvariant(a) && HalvesInvariant(b)
    requires sum == a.bits.word + b.bits.word
    ensures sum < MODULUS
    ensures forall j: nat :: j < LaneCount(a.bits.exp) ==>
      Lane(sum, Pow2(a.bits.exp), j) == Lane(a.bits.word, Pow2(a.bits.exp), j) + Lane(b.bits.word, Pow2(a.bits.exp), j)
    ensures LanesBelow(sum, Pow2(a.bits.exp), LaneCount(a.bits.exp), Pow2(Pow2(a.bits.exp - 1) + 1))
  {
    var x, y := a.bits.word, b.bits.word;
    var e := a.bits.exp - 1;
    var k, w, m := Pow2(e), Pow2(a.bits.exp), LaneCount(a.bits.exp);
    Geometry(e);
    assert LanesBelow(x, w, m, Pow2(k)) && LanesBelow(y, w, m, Pow2(k));
    SumOfHalves(x, y, sum, k, w, m);
  }

  /** `Bits{K}x{2K} + Bits{K}x{2K}` keeps the promise of its result type: with
      every lane of both operands below 2^K, the u128 `+` does not overflow,
      each lane of the sum is the sum of the lanes, and each is below 2^(K+1). */
  lemma {:induction false} AddHalvesLanes(a: Halves, b: Halves)
    requires a.bits.exp == b.bits.exp >= 2
    requires HalvesInvariant(a) && HalvesInvariant(b)
    ensures a.bits.word + b.bits.word < MODULUS
    ensures AddHalves(a, b).bits.word == a.bits.word + b.bits.word
    ensures forall j: nat :: j < LaneCount(a.bits.exp) ==>
      Lane(AddHalves(a, b).bits.word, Pow2(a.bits.exp), j) == Lane(a.bits.word, Pow2(a.bits.exp), j) + Lane(b.bits.word, Pow2(a.bits.exp), j)
    ensures CarriedInvariant(AddHalves(a, b))
  {
    var sum := a.bits.word as nat + b.bits.word as nat;
    HalvesSum(a, b, sum);
    assert AddHalves(a, b).bits.word == sum by {
      NoWrap(a.bits.word, b.bits.word);
    }
  }

  /** `Bits1x2 + Bits1x2` gives `Bits2` lanes holding the lane sums, each at
      most 2, without overflow. */
  lemma {:induction false} AddBits1x2Lanes(a: Halves, b: Halves)
    requires a.bits.exp == 1 && b.bits.exp == 1
    requires HalvesInvariant(a) && HalvesInvariant(b)
    ensures a.bits.word + b.bits.word < MODULUS
    ensures AddBits1x2(a, b).word == a.bits.word + b.bits.word
    ensures forall j: nat :: j < 64 ==>
      Lane(AddBits1x2(a, b).word, 2, j) == Lane(a.bits.word, 2, j) + Lane(b.bits.word, 2, j) <= 2
  {
    var x, y := a.bits.word, b.bits.word;
    var sum := x as nat + y as nat;
    PairLanesSum(a, b, sum);
    assert AddBits1x2(a, b).word == sum by {
      NoWrap(x, y);
    }
  }

  /** HalvesSum for lanes of two bits. */
  lemma {:induction false} PairLanesSum(a: Halves, b: Halves, sum: nat)
    requires a.bits.exp == 1 && b.bits.exp == 1
    requires HalvesInvariant(a) && HalvesInvariant(b)
    requires sum == a.bits.word + b.bits.word
    ensures sum < MODULUS
    ensures forall j: nat :: j < 64 ==> Lane(sum, 2, j) == Lane(a.bits.word, 2, j) + Lane(b.bits.word, 2, j) <= 2
  {
    assert Pow2(1) == 2 && LaneCount(1) == 64 && Pow2(Pow2(0) + 1) == 4 by {
      Pow2Values();
    }
    HalvesSum(a, b, sum);
  }

  /** `Bits64x128 + Bits64x128` gives one 128-bit lane: the sum of two values
      below 2^64. */
  lemma {:induction false} AddBits64x128(a: Halves, b: Halves)
    requires a.bits.exp == 7 && b.bits.exp == 7
    requires HalvesInvariant(a) && HalvesInvariant(b)
    ensures a.bits.word < Pow2(64) && b.bits.word < Pow2(64)
    ensures AddHalves(a, b).bits.word == a.bits.word + b.bits.word
  {
    Pow2Values();
    assert Lane(a.bits.word, 128, 0) < Pow2(64) && Lane(b.bits.word, 128, 0) < Pow2(64);
    WholeLane(a.bits.word);
    WholeLane(b.bits.word);
    AddHalvesLanes(a, b);
  }

  /** A word is its own only 128-bit lane. */
  lemma {:induction false} WholeLane(x: U128)
    ensures Lane(x, WIDTH, 0) == x
  {
    Pow2Values();
    LaneZero(x, WIDTH);
    LoOfSmall(x, WIDTH);
  }

  /** The `Add` impls are commutative. */
  lemma {:induction false} AddCommutes(a: Halves, b: Halves)
    requires a.bits.exp == b.bits.exp >= 1
    ensures a.bits.exp == 1 ==> AddBits1x2(a, b) == AddBits1x2(b, a)
    ensures a.bits.exp >= 2 ==> AddHalves(a, b) == AddHalves(b, a)
  {
    assert a.bits.word + b.bits.word == b.bits.word + a.bits.word;
  }
}
