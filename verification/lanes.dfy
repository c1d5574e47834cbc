/** Reading a word as packed lanes.

    A word read at lane width w holds lanes 0, 1, 2, ... of w bits each,
    lane 0 in the least significant bits.  This module defines the lanes,
    the population count of a bit range, words made of one repeated lane
    pattern (the shape of every mask), and the carry-free addition that the
    lane algebra relies on. */
module Lanes {
  import opened Word

  // ---------------------------------------------------------------------------
  // Lanes

  /** Lane j of x read as w-bit lanes. */
  function Lane(x: nat, w: nat, j: nat): (r: nat)
    ensures r < Pow2(w)
  {
    Lo(Hi(x, Mul(w, j)), w)
  }

  lemma {:induction false} LaneZero(x: nat, w: nat)
    ensures Lane(x, w, 0) == Lo(x, w)
  {
    assert Pow2(0) == 1;
  }

  /** Lane j + 1 of x is lane j of x with its lowest lane dropped. */
  lemma {:induction false} LaneStep(x: nat, w: nat, j: nat)
    ensures Lane(x, w, j + 1) == Lane(Hi(x, w), w, j)
  {
    HiHi(x, w, Mul(w, j));
  }

  /** Lane j + s of x is lane j of x with its s lowest lanes dropped. */
  lemma {:induction false} LaneShift(x: nat, w: nat, s: nat, j: nat)
    ensures Lane(x, w, j + s) == Lane(Hi(x, Mul(w, s)), w, j)
  {
    HiHi(x, Mul(w, s), Mul(w, j));
    MulAdd(w, j, s);
  }

  /** A lane of width 2K is its two K-bit lanes, the odd one above. */
  lemma {:induction false} LaneHalves(x: nat, k: nat, j: nat)
    ensures Lane(x, k + k, j) == Lane(x, k, 2 * j) + Pow2(k) * Lane(x, k, 2 * j + 1)
  {
    var y := Hi(x, Mul(k + k, j));
    LoSplit(y, k, k);
    MulHalves(k, j);
    HiHi(x, Mul(k + k, j), k);
    assert Lane(x, k + k, j) == Lo(y, k + k);
    assert Lane(x, k, 2 * j) == Lo(y, k);
    assert Lane(x, k, 2 * j + 1) == Lo(Hi(y, k), k);
  }

  /** A 2-bit lane is its low bit plus twice its high bit. */
  lemma {:induction false} LaneTwoBits(x: nat, j: nat)
    ensures Lane(x, 2, j) == Bit(x, 2 * j) + 2 * Bit(x, 2 * j + 1)
  {
    MulIsProduct(2, j);
    var y := Hi(x, 2 * j);
    Pow2Values();
    LoSplit(y, 1, 1);
    LoOfSmall(Lo(Hi(y, 1), 1), 1);
    BitDiv(x, 2 * j, 0);
    BitDiv(x, 2 * j, 1);
    assert Bit(y, 1) == Bit(y / 2, 0);
  }

  /** Splitting a word of m lanes into its lowest lane and the other m - 1. */
  lemma {:induction false} LowestLane(x: nat, w: nat, m: nat)
    requires x < Pow2(Mul(w, m)) && m > 0
    ensures Hi(x, w) < Pow2(Mul(w, m - 1))
  {
    HiBound(x, w, Mul(w, m - 1));
  }

  /** Two words of m lanes with the same lanes are equal. */
  lemma {:induction false} LanesDetermine(x: nat, y: nat, w: nat, m: nat)
    requires x < Pow2(Mul(w, m)) && y < Pow2(Mul(w, m))
    requires forall j: nat :: j < m ==> Lane(x, w, j) == Lane(y, w, j)
    ensures x == y
    decreases m
  {
    if m == 0 {
      LoOfSmall(x, 0);
      LoOfSmall(y, 0);
    } else {
      LowestLane(x, w, m);
      LowestLane(y, w, m);
      forall j: nat | j < m - 1
        ensures Lane(Hi(x, w), w, j) == Lane(Hi(y, w), w, j)
      {
        LaneStep(x, w, j);
        LaneStep(y, w, j);
      }
      LanesDetermine(Hi(x, w), Hi(y, w), w, m - 1);
      LaneZero(x, w);
      LaneZero(y, w);
      LoHi(x, w);
      LoHi(y, w);
    }
  }

  /** Adding two words of m lanes whose lane sums all fit in w bits: no carry
      crosses a lane boundary, so every lane of the sum is the sum of the
      lanes, and the sum still fits in m lanes. */
  lemma {:induction false} LaneAdd(x: nat, y: nat, s: nat, w: nat, m: nat)
    requires s == x + y
    requires x < Pow2(Mul(w, m)) && y < Pow2(Mul(w, m))
    requires forall j: nat :: j < m ==> Lane(x, w, j) + Lane(y, w, j) < Pow2(w)
    ensures s < Pow2(Mul(w, m))
    ensures forall j: nat :: j < m ==> Lane(s, w, j) == Lane(x, w, j) + Lane(y, w, j)
    decreases m
  {
    if m == 0 {
      LoOfSmall(x, 0);
      LoOfSmall(y, 0);
    } else {
      var hx, hy := Hi(x, w), Hi(y, w);
      assert hx < Pow2(Mul(w, m - 1)) && hy < Pow2(Mul(w, m - 1)) by {
        LowestLane(x, w, m);
        LowestLane(y, w, m);
      }
      forall j: nat | j < m - 1
        ensures Lane(hx, w, j) + Lane(hy, w, j) < Pow2(w)
      {
        LaneStep(x, w, j);
        LaneStep(y, w, j);
      }
      LaneAdd(hx, hy, hx + hy, w, m - 1);
      assert Lo(x, w) + Lo(y, w) < Pow2(w) by {
        LaneZero(x, w);
        LaneZero(y, w);
      }
      AddSplit(x, y, w);
      LaneAddStep(x, y, w, m);
    }
  }

  /** The inductive step of LaneAdd: with the lowest lanes not carrying, the
      lanes of the sum are those of the lowest lane sum and of the upper sum. */
  lemma {:induction false} LaneAddStep(x: nat, y: nat, w: nat, m: nat)
    requires m > 0 && Lo(x, w) + Lo(y, w) < Pow2(w)
    requires Hi(x + y, w) == Hi(x, w) + Hi(y, w) && Lo(x + y, w) == Lo(x, w) + Lo(y, w)
    requires Hi(x, w) + Hi(y, w) < Pow2(Mul(w, m - 1))
    requires forall j: nat :: j < m - 1 ==>
      Lane(Hi(x, w) + Hi(y, w), w, j) == Lane(Hi(x, w), w, j) + Lane(Hi(y, w), w, j)
    ensures x + y < Pow2(Mul(w, m))
    ensures forall j: nat :: j < m ==> Lane(x + y, w, j) == Lane(x, w, j) + Lane(y, w, j)
  {
    var s := x + y;
    WordAbove(s, w, m);
    forall j: nat | j < m
      ensures Lane(s, w, j) == Lane(x, w, j) + Lane(y, w, j)
    {
      if j == 0 {
        LaneZero(s, w);
        LaneZero(x, w);
        LaneZero(y, w);
      } else {
        LaneAddAbove(x, y, s, w, j - 1);
      }
    }
  }

  /** A value whose part above the lowest lane fits in m - 1 lanes fits in m. */
  lemma {:induction false} WordAbove(s: nat, w: nat, m: nat)
    requires m > 0 && Hi(s, w) < Pow2(Mul(w, m - 1))
    ensures s < Pow2(Mul(w, m))
  {
    LoHi(s, w);
    ConcatBound(Lo(s, w), Hi(s, w), w, Mul(w, m - 1));
  }

  /** Lane j + 1 of a sum whose high parts add up is lane j of the sum of the
      high parts. */
  lemma {:induction false} LaneAddAbove(x: nat, y: nat, s: nat, w: nat, j: nat)
    requires s == x + y && Hi(s, w) == Hi(x, w) + Hi(y, w)
    requires Lane(Hi(x, w) + Hi(y, w), w, j) == Lane(Hi(x, w), w, j) + Lane(Hi(y, w), w, j)
    ensures Lane(s, w, j + 1) == Lane(x, w, j + 1) + Lane(y, w, j + 1)
  {
    LaneStep(s, w, j);
    LaneStep(x, w, j);
    LaneStep(y, w, j);
  }



  // ---------------------------------------------------------------------------
  // Population count

  /** Number of set bits among the w low bits of x. */
  function Pop(x: nat, w: nat): nat
  {
    if w == 0 then 0 else x % 2 + Pop(x / 2, w - 1)
  }

  lemma {:induction false} PopBound(x: nat, w: nat)
    ensures Pop(x, w) <= w
  {
    if w > 0 {
      PopBound(x / 2, w - 1);
    }
  }

  /** The set bits of lo + 2^k * hi are those of lo below k plus those of hi. */
  lemma {:induction false} PopConcat(lo: nat, hi: nat, k: nat, v: nat)
    requires lo < Pow2(k)
    ensures Pop(lo + Pow2(k) * hi, k + v) == Pop(lo, k) + Pop(hi, v)
  {
    var x := lo + Pow2(k) * hi;
    if k == 0 {
      assert lo == 0;
    } else {
      var t := Pow2(k - 1) * hi;
      Pow2Times(k, hi);
      assert x % 2 == lo % 2 && x / 2 == lo / 2 + t;
      PopConcat(lo / 2, hi, k - 1, v);
      assert k + v - 1 == (k - 1) + v;
    }
  }

  // ---------------------------------------------------------------------------
  // Repeated lane patterns

  /** The word whose m lowest w-bit lanes all hold v. */
  function Rep(v: nat, w: nat, m: nat): nat
  {
    if m == 0 then 0 else v + Pow2(w) * Rep(v, w, m - 1)
  }

  lemma {:induction false} RepLoHi(v: nat, w: nat, m: nat)
    requires v < Pow2(w) && m > 0
    ensures Lo(Rep(v, w, m), w) == v && Hi(Rep(v, w, m), w) == Rep(v, w, m - 1)
  {
    Concat(v, Rep(v, w, m - 1), w);
  }

  lemma {:induction false} RepBound(v: nat, w: nat, m: nat)
    requires v < Pow2(w)
    ensures Rep(v, w, m) < Pow2(Mul(w, m))
  {
    if m == 0 {
      assert Pow2(0) == 1;
    } else {
      RepBound(v, w, m - 1);
      ConcatBound(v, Rep(v, w, m - 1), w, Mul(w, m - 1));
    }
  }

  /** Every one of the m lanes of Rep(v, w, m) is v. */
  lemma {:induction false} RepLane(v: nat, w: nat, m: nat, j: nat)
    requires v < Pow2(w) && j < m
    ensures Lane(Rep(v, w, m), w, j) == v
  {
    RepLoHi(v, w, m);
    if j == 0 {
      LaneZero(Rep(v, w, m), w);
    } else {
      LaneStep(Rep(v, w, m), w, j - 1);
      RepLane(v, w, m - 1, j - 1);
    }
  }

  /** a + b copies of a pattern are a copies below b copies. */
  lemma {:induction false} RepAppend(v: nat, w: nat, a: nat, b: nat)
    ensures Rep(v, w, a + b) == Rep(v, w, a) + Pow2(Mul(w, a)) * Rep(v, w, b)
  {
    if a == 0 {
      assert Pow2(0) == 1;
    } else {
      var ra, rb, p, q := Rep(v, w, a - 1), Rep(v, w, b), Pow2(w), Pow2(Mul(w, a - 1));
      RepAppend(v, w, a - 1, b);
      assert Rep(v, w, a + b) == v + p * Rep(v, w, a - 1 + b);
      Distrib(p, ra, q * rb);
      MulAssoc(p, q, rb);
      Pow2Add(w, Mul(w, a - 1));
    }
  }

  /** Doubling the number of copies of a pattern. */
  lemma {:induction false} RepDoubled(v: nat, w: nat, m: nat, x: nat)
    requires Rep(v, w, m) == x
    ensures Rep(v, w, m + m) == x + Pow2(Mul(w, m)) * x
  {
    RepAppend(v, w, m, m);
  }

  /** Scaling the pattern scales the word. */
  lemma {:induction false} RepScale(c: nat, v: nat, w: nat, m: nat)
    ensures Rep(c * v, w, m) == c * Rep(v, w, m)
  {
    if m > 0 {
      RepScale(c, v, w, m - 1);
      MulSwap(Pow2(w), c, Rep(v, w, m - 1));
      Distrib(c, v, Pow2(w) * Rep(v, w, m - 1));
    }
  }

  /** A gate applied to two repeated patterns is the pattern of the gate applied
      once. */
  lemma {:induction false} BitwiseRep(g: Gate, u: nat, v: nat, w: nat, m: nat)
    requires u < Pow2(w) && v < Pow2(w)
    ensures Bitwise(g, Rep(u, w, m), Rep(v, w, m), Mul(w, m)) == Rep(Bitwise(g, u, v, w), w, m)
  {
    if m == 0 {
      assert Pow2(0) == 1;
    } else {
      BitwiseSplit(g, Rep(u, w, m), Rep(v, w, m), w, Mul(w, m - 1), Mul(w, m));
      RepLoHi(u, w, m);
      RepLoHi(v, w, m);
      BitwiseRep(g, u, v, w, m - 1);
    }
  }

  /** m copies of the all-ones w-bit lane fill w * m bits. */
  lemma {:induction false} RepAllOnes(w: nat, m: nat)
    ensures Rep(Pow2(w) - 1, w, m) == Pow2(Mul(w, m)) - 1
  {
    if m == 0 {
      assert Pow2(0) == 1;
    } else {
      var p, q := Pow2(w), Pow2(Mul(w, m - 1));
      RepAllOnes(w, m - 1);
      Pow2Add(w, Mul(w, m - 1));
      Distrib(p, q - 1, 1);
    }
  }

  // ---------------------------------------------------------------------------
  // Gathering every other lane

  /** The even K-bit lanes of x (lanes 0, 2, 4, ...), each placed
      right-aligned in its own 2K-bit lane; m such lanes. */
  function Gather(x: nat, k: nat, m: nat): nat
    decreases m
  {
    if m == 0 then 0 else Lo(x, k) + Pow2(k + k) * Gather(Hi(x, k + k), k, m - 1)
  }

  /** The lowest 2K-bit lane of the gathered word is the lowest K-bit lane of
      x; above it sit the lanes gathered from the rest of x. */
  lemma {:induction false} GatherLoHi(x: nat, k: nat, m: nat)
    requires m > 0
    ensures Lo(Gather(x, k, m), k + k) == Lo(x, k)
    ensures Hi(Gather(x, k, m), k + k) == Gather(Hi(x, k + k), k, m - 1)
  {
    Pow2Monotone(k, k + k);
    Concat(Lo(x, k), Gather(Hi(x, k + k), k, m - 1), k + k);
  }

  /** K-bit lane 2j + 2 of x is K-bit lane 2j of x with one 2K-bit lane dropped. */
  lemma {:induction false} GatherLaneStep(x: nat, k: nat, j: nat)
    ensures Lane(x, k, 2 * (j + 1)) == Lane(Hi(x, k + k), k, 2 * j)
  {
    LaneShift(x, k, 2, 2 * j);
    MulIsProduct(k, 2);
    assert 2 * j + 2 == 2 * (j + 1);
  }

  /** Lane j of the gathered word is K-bit lane 2j of x, and the gathered
      word fits in m lanes of 2K bits. */
  lemma {:induction false} GatherLanes(x: nat, k: nat, m: nat)
    ensures Gather(x, k, m) < Pow2(Mul(k + k, m))
    ensures forall j: nat :: j < m ==> Lane(Gather(x, k, m), k + k, j) == Lane(x, k, 2 * j)
    decreases m
  {
    var g := Gather(x, k, m);
    if m == 0 {
      assert Pow2(0) == 1;
    } else {
      var rest := Gather(Hi(x, k + k), k, m - 1);
      GatherLanes(Hi(x, k + k), k, m - 1);
      GatherLoHi(x, k, m);
      LoHi(g, k + k);
      ConcatBound(Lo(g, k + k), Hi(g, k + k), k + k, Mul(k + k, m - 1));
      forall j: nat | j < m
        ensures Lane(g, k + k, j) == Lane(x, k, 2 * j)
      {
        if j == 0 {
          LaneZero(g, k + k);
          LaneZero(x, k);
        } else {
          LaneStep(g, k + k, j - 1);
          GatherLaneStep(x, k, j - 1);
        }
      }
    }
  }

  /** m copies of a w-bit pattern hold m times its set bits. */
  lemma {:induction false} PopRep(v: nat, w: nat, m: nat)
    requires v < Pow2(w)
    ensures Pop(Rep(v, w, m), Mul(w, m)) == m * Pop(v, w)
  {
    if m > 0 {
      var r, c := Rep(v, w, m - 1), Pop(v, w);
      PopRep(v, w, m - 1);
      PopConcat(v, r, w, Mul(w, m - 1));
      assert Rep(v, w, m) == v + Pow2(w) * r && Mul(w, m) == w + Mul(w, m - 1);
      assert m * c == (m - 1) * c + c;
    }
  }
}
