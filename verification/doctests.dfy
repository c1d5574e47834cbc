/** The worked examples of the crate documentation, proved about the model.

    The first example counts the set bits of the alternating word 0xAAAA...
    with seven `sum_weight2` steps and looks at the word after two steps and
    at the upper half of its `split`; the second takes the hamming weight
    difference of every pair of 2-bit weights 0 to 2. */
module DocExamples {
  import opened Word
  import opened Lanes
  import opened Masks
  import opened Swar
  import opened BitsN
  import opened BitsNxN
  import opened DirectSteps

  const ALTERNATING: U128 := 0xAAAA_AAAA_AAAA_AAAA_AAAA_AAAA_AAAA_AAAA

  /** 0xAAAA...: every 2-bit lane holds 0b10. */
  lemma {:induction false} AlternatingPattern()
    ensures ALTERNATING == Rep(2, 2, 64)
  {
    MaskLevel6(1, 64);
    assert HighOnes(1) == 2 by {
      Pow2Values();
    }
  }

  /** 0x2222...: every 4-bit lane holds 2. */
  lemma {:induction false} TwosInNibbles()
    ensures Rep(2, 4, 32) == 0x2222_2222_2222_2222_2222_2222_2222_2222
  {
    Pow2Values();
    assert Rep(2, 4, 1) == 2;
    MulIsProduct(4, 1);
    RepDoubled(2, 4, 1, 2);
    MulIsProduct(4, 2);
    RepDoubled(2, 4, 2, 0x22);
    MulIsProduct(4, 4);
    RepDoubled(2, 4, 4, 0x2222);
    MulIsProduct(4, 8);
    RepDoubled(2, 4, 8, 0x2222_2222);
    MulIsProduct(4, 16);
    RepDoubled(2, 4, 16, 0x2222_2222_2222_2222);
  }

  /** 0x0202...: every 8-bit lane holds 2. */
  lemma {:induction false} TwosInBytes()
    ensures Rep(2, 8, 16) == 0x0202_0202_0202_0202_0202_0202_0202_0202
  {
    Pow2Values();
    assert Rep(2, 8, 1) == 2;
    MulIsProduct(8, 1);
    RepDoubled(2, 8, 1, 2);
    MulIsProduct(8, 2);
    RepDoubled(2, 8, 2, 0x0202);
    MulIsProduct(8, 4);
    RepDoubled(2, 8, 4, 0x0202_0202);
    MulIsProduct(8, 8);
    RepDoubled(2, 8, 8, 0x0202_0202_0202_0202);
  }

  /** The alternating word has 64 set bits, and seven steps count them. */
  lemma {:induction false} AlternatingWeight()
    ensures CountOnes(ALTERNATING) == 64
    ensures FromBits128(Chain(ALTERNATING, 7)) == 64
  {
    assert CountOnes(ALTERNATING) == 64 by {
      assert Mul(2, 64) == WIDTH by {
        MulIsProduct(2, 64);
      }
      assert Pop(2, 2) == 1 && 2 < Pow2(2);
      AlternatingPattern();
      PopRep(2, 2, 64);
    }
    ChainIsCountOnes(ALTERNATING);
  }

  /** A 4-bit lane made of two 2-bit lanes holding 0b10 has two set bits. */
  lemma {:induction false} AlternatingNibble(n: nat, i: nat)
    requires Lane(n, 2, 2 * i) == 2 && Lane(n, 2, 2 * i + 1) == 2
    ensures Pop(Lane(n, 4, i), 4) == 2
  {
    assert Pop(2, 2) == 1;
    PopOfLane(n, 2, i);
  }

  /** A word whose m lanes of w bits all hold v is m copies of v. */
  lemma {:induction false} AllLanes(r: nat, v: nat, w: nat, m: nat)
    requires r < Pow2(Mul(w, m)) && v < Pow2(w)
    requires forall j: nat :: j < m ==> Lane(r, w, j) == v
    ensures r == Rep(v, w, m)
  {
    RepBound(v, w, m);
    forall j: nat | j < m
      ensures Lane(r, w, j) == Lane(Rep(v, w, m), w, j)
    {
      RepLane(v, w, m, j);
    }
    LanesDetermine(r, Rep(v, w, m), w, m);
  }

  /** Every lane of m copies of v is v. */
  lemma {:induction false} RepLanes(x: nat, v: nat, w: nat, m: nat)
    requires x == Rep(v, w, m) && v < Pow2(w)
    ensures forall j: nat :: j < m ==> Lane(x, w, j) == v
  {
    forall j: nat | j < m
      ensures Lane(x, w, j) == v
    {
      RepLane(v, w, m, j);
    }
  }

  /** A u128 fills 32 lanes of 4 bits and 16 lanes of 8 bits. */
  lemma {:induction false} WordLanes(r: U128)
    ensures r < Pow2(Mul(4, 32)) && r < Pow2(Mul(8, 16))
    ensures 2 < Pow2(4) && 2 < Pow2(8)
  {
    MulIsProduct(4, 32);
    MulIsProduct(8, 16);
    Pow2Values();
  }

  /** Two steps from a word whose 2-bit lanes all hold 0b10 leave 2 in
      every 4-bit lane. */
  lemma {:induction false} PatternTwoSteps(n: U128, s: nat)
    requires s == 2 && forall j: nat :: j < 64 ==> Lane(n, 2, j) == 2
    ensures forall i: nat :: i < 32 ==> Lane(Chain(n, s).word, 4, i) == 2
  {
    assert Pow2(s) == 4 && LaneCount(s) == 32 by {
      Pow2Values();
    }
    ChainCounts(n, s);
    forall i: nat | i < 32
      ensures Lane(Chain(n, s).word, 4, i) == 2
    {
      AlternatingNibble(n, i);
    }
  }

  /** Two steps from the alternating word give 0x2222...: every 4-bit region
      of 0xAAAA... has two set bits. */
  lemma {:induction false} AlternatingTwoSteps()
    ensures Chain(ALTERNATING, 2).word == 0x2222_2222_2222_2222_2222_2222_2222_2222
  {
    var r := Chain(ALTERNATING, 2).word;
    assert forall j: nat :: j < 64 ==> Lane(ALTERNATING, 2, j) == 2 by {
      AlternatingPattern();
      assert 2 < Pow2(2) by {
        Pow2Values();
      }
      forall j: nat | j < 64
        ensures Lane(ALTERNATING, 2, j) == 2
      {
        RepLane(2, 2, 64, j);
      }
    }
    PatternTwoSteps(ALTERNATING, 2);
    WordLanes(r);
    AllLanes(r, 2, 4, 32);
    TwosInNibbles();
  }

  /** The upper half of the `split` of a `Bits4` word whose lanes all hold
      2 has 2 in every 8-bit lane. */
  lemma {:induction false} UpperHalfOfTwos(b: Bits)
    requires b.exp == 2 && forall i: nat :: i < 32 ==> Lane(b.word, 4, i) == 2
    ensures forall j: nat :: j < 16 ==> Lane(Split(b).0.bits.word, 8, j) == 2
  {
    assert Pow2(b.exp) == 4 && Pow2(b.exp + 1) == 8 && LaneCount(b.exp + 1) == 16 by {
      Pow2Values();
    }
    SplitLanes(b);
    forall j: nat | j < 16
      ensures Lane(Split(b).0.bits.word, 8, j) == 2
    {
      assert Lane(Split(b).0.bits.word, 8, j) == Lane(b.word, 4, 2 * j + 1);
    }
  }

  /** The upper half of the `split` of 0x2222... as `Bits4` is 0x0202... */
  lemma {:induction false} SplitOfTwos(b: Bits)
    requires b.exp == 2 && b.word == Rep(2, 4, 32)
    ensures Split(b).0.bits.word == Rep(2, 8, 16)
  {
    var upper := Split(b).0.bits.word;
    WordLanes(upper);
    RepLanes(b.word, 2, 4, 32);
    UpperHalfOfTwos(b);
    AllLanes(upper, 2, 8, 16);
  }

  /** The upper half of the `split` of that word, as 8-bit lanes, is
      0x0202...; the example compares it with a `Bits8`. */
  lemma {:induction false} AlternatingSplit()
    ensures Split(Chain(ALTERNATING, 2)).0.bits == Bits(3, 0x0202_0202_0202_0202_0202_0202_0202_0202)
  {
    var b := Chain(ALTERNATING, 2);
    assert b.word == Rep(2, 4, 32) by {
      AlternatingTwoSteps();
      TwosInNibbles();
    }
    SplitOfTwos(b);
    TwosInBytes();
  }

  /** The word whose w-bit lanes, lowest first, are ls. */
  function Pack(ls: seq<nat>, w: nat): nat
  {
    if |ls| == 0 then 0 else ls[0] + Pow2(w) * Pack(ls[1..], w)
  }

  /** Lane j of Pack(ls, w) is ls[j], and 0 past the end of ls. */
  lemma {:induction false} PackLane(ls: seq<nat>, w: nat, j: nat)
    requires forall i: nat :: i < |ls| ==> ls[i] < Pow2(w)
    ensures Lane(Pack(ls, w), w, j) == if j < |ls| then ls[j] else 0
  {
    if |ls| == 0 {
      HiOfZero(Mul(w, j));
      LoOfSmall(0, w);
    } else {
      Concat(ls[0], Pack(ls[1..], w), w);
      if j == 0 {
        LaneZero(Pack(ls, w), w);
      } else {
        LaneStep(Pack(ls, w), w, j - 1);
        PackLane(ls[1..], w, j - 1);
      }
    }
  }

  /** The weights of the example, lowest lane first. */
  const WEIGHTS_A: seq<nat> := [2, 1, 0, 2, 1, 0, 2, 1, 0]
  const WEIGHTS_B: seq<nat> := [2, 2, 2, 1, 1, 1, 0, 0, 0]
  const EXPECTED: seq<nat> := [0, 1, 2, 1, 0, 1, 2, 1, 0]

  /** The three literals of the example as lanes. */
  lemma {:induction false} ExampleWords()
    ensures Pack(WEIGHTS_A, 2) == 0x6186
    ensures Pack(WEIGHTS_B, 2) == 0x056A
    ensures Pack(EXPECTED, 2) == 0x6464
  {
    assert Pow2(2) == 4 by {
      Pow2Values();
    }
    PackFour(WEIGHTS_A, 0x6186);
    PackFour(WEIGHTS_B, 0x056A);
    PackFour(EXPECTED, 0x6464);
  }

  /** Pack with 2-bit lanes, written out in base 4. */
  lemma {:induction false} PackFour(ls: seq<nat>, x: nat)
    requires Pow2(2) == 4 && |ls| == 9
    requires x == ls[0] + 4 * (ls[1] + 4 * (ls[2] + 4 * (ls[3] + 4 * (ls[4] + 4 * (ls[5] + 4 * (ls[6] + 4 * (ls[7] + 4 * ls[8])))))))
    ensures Pack(ls, 2) == x
  {
    var t := ls;
    assert Pack(t[8..], 2) == ls[8] by {
      assert t[8..][1..] == [];
    }
    assert Pack(t[7..], 2) == ls[7] + 4 * Pack(t[8..], 2) by {
      assert t[7..][1..] == t[8..];
    }
    assert Pack(t[6..], 2) == ls[6] + 4 * Pack(t[7..], 2) by {
      assert t[6..][1..] == t[7..];
    }
    assert Pack(t[5..], 2) == ls[5] + 4 * Pack(t[6..], 2) by {
      assert t[5..][1..] == t[6..];
    }
    assert Pack(t[4..], 2) == ls[4] + 4 * Pack(t[5..], 2) by {
      assert t[4..][1..] == t[5..];
    }
    assert Pack(t[3..], 2) == ls[3] + 4 * Pack(t[4..], 2) by {
      assert t[3..][1..] == t[4..];
    }
    assert Pack(t[2..], 2) == ls[2] + 4 * Pack(t[3..], 2) by {
      assert t[2..][1..] == t[3..];
    }
    assert Pack(t[1..], 2) == ls[1] + 4 * Pack(t[2..], 2) by {
      assert t[1..][1..] == t[2..];
    }
  }

  /** Every pair of weights 0 to 2 gives its distance. */
  lemma {:induction false} ExampleTable(j: nat)
    requires j < 9
    ensures WEIGHTS_A[j] <= 2 && WEIGHTS_B[j] <= 2 && EXPECTED[j] < 4
    ensures Dist(WEIGHTS_A[j], WEIGHTS_B[j]) == EXPECTED[j]
  {
  }

  /** The hamming weight difference example: all nine pairs of weights 0 to
      2 at once.  The literals are the example's binary ones, 2 bits per
      weight: 0b00_01_10_00_01_10_00_01_10, 0b00_00_00_01_01_01_10_10_10 and
      0b00_01_10_01_00_01_10_01_00. */
  lemma {:induction false} HwdExample()
    ensures Hwd(Bits(1, 0x6186), Bits(1, 0x056A))
         == Bits(1, 0x6464)
  {
    var a, b, e := Bits(1, 0x6186), Bits(1, 0x056A), 0x6464;
    var r := Hwd(a, b).word;
    ExampleWords();
    assert Pow2(2) == 4 by {
      Pow2Values();
    }
    forall i: nat | i < 9
      ensures WEIGHTS_A[i] < Pow2(2) && WEIGHTS_B[i] < Pow2(2) && EXPECTED[i] < Pow2(2)
    {
      ExampleTable(i);
    }
    forall j: nat | j < 64
      ensures Lane(r, 2, j) == Lane(e, 2, j)
    {
      PackLane(WEIGHTS_A, 2, j);
      PackLane(WEIGHTS_B, 2, j);
      PackLane(EXPECTED, 2, j);
      if j < 9 {
        ExampleTable(j);
      }
      HwdLane(a, b, j);
    }
    assert Pow2(Mul(2, 64)) == MODULUS by {
      Pow2Values();
      MulIsProduct(2, 64);
    }
    LanesDetermine(r, e, 2, 64);
  }
}
