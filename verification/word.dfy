/** The backing scalar of every lane type: an unsigned 128-bit word.

    A word is a natural number below 2^128.  The Rust operators the lane
    algebra uses on it (`&`, `|`, `^`, `!`, `<<`, `>>` and `+`) are defined
    here on that number, bit by bit where the operator is bitwise and by
    arithmetic where it is a shift or an addition.  The bits of a word are
    numbered from the least significant one, bit 0. */
module Word {

  /** Number of bits in the backing word. */
  const WIDTH: nat := 128

  /** 2^128: every word is below it, and `+` wraps around it. */
  const MODULUS: nat := 0x1_0000_0000_0000_0000_0000_0000_0000_0000

  type U128 = x: nat | x < MODULUS

  /** The all-ones word, 2^128 - 1. */
  const ALL_ONES: U128 := 0xFFFF_FFFF_FFFF_FFFF_FFFF_FFFF_FFFF_FFFF

  // ---------------------------------------------------------------------------
  // Powers of two

  function Pow2(k: nat): (r: nat)
    ensures r >= 1
  {
    if k == 0 then 1 else 2 * Pow2(k - 1)
  }

  lemma {:induction false} Pow2Add(a: nat, b: nat)
    ensures Pow2(a + b) == Pow2(a) * Pow2(b)
  {
    if a > 0 {
      Pow2Add(a - 1, b);
      assert Pow2(a + b) == 2 * Pow2(a - 1 + b);
    }
  }

  lemma {:induction false} Pow2Double(k: nat, v: nat)
    requires Pow2(k) == v
    ensures Pow2(k + k) == v * v
  {
    Pow2Add(k, k);
  }

  /** The powers of two that name lane widths and word sizes. */
  lemma {:induction false} Pow2Values()
    ensures Pow2(0) == 1 && Pow2(1) == 2 && Pow2(2) == 4 && Pow2(3) == 8
    ensures Pow2(4) == 16 && Pow2(5) == 32 && Pow2(6) == 64 && Pow2(7) == 128
    ensures Pow2(8) == 0x100 && Pow2(16) == 0x1_0000 && Pow2(32) == 0x1_0000_0000
    ensures Pow2(64) == 0x1_0000_0000_0000_0000
    ensures Pow2(128) == MODULUS
  {
    assert Pow2(1) == 2 * Pow2(0) == 2;
    Pow2Double(1, 2);
    assert Pow2(3) == 2 * Pow2(2) == 8;
    Pow2Double(2, 4);
    assert Pow2(5) == 2 * Pow2(4) == 32;
    Pow2Double(3, 8);
    assert Pow2(7) == 2 * Pow2(6) == 128;
    Pow2Double(4, 16);
    Pow2Double(8, 0x100);
    Pow2Double(16, 0x1_0000);
    Pow2Double(32, 0x1_0000_0000);
    Pow2Double(64, 0x1_0000_0000_0000_0000);
  }

  lemma {:induction false} Pow2Times(a: nat, v: nat)
    requires a > 0
    ensures Pow2(a) * v == 2 * (Pow2(a - 1) * v)
  {}

  lemma {:induction false} Distrib(p: int, a: int, b: int)
    ensures p * (a + b) == p * a + p * b
  {}

  lemma {:induction false} MulAssoc(p: int, q: int, r: int)
    ensures p * (q * r) == (p * q) * r
  {}

  lemma {:induction false} MulSwap(p: int, q: int, r: int)
    ensures p * (q * r) == q * (p * r)
  {}

  lemma {:induction false} Pow2Monotone(a: nat, b: nat)
    requires a <= b
    ensures Pow2(a) <= Pow2(b)
  {
    Pow2Add(a, b - a);
  }

  // ---------------------------------------------------------------------------
  // Bit positions

  /** a * b, written as repeated addition so that bit positions built from
      it stay linear for the solver. */
  function Mul(a: nat, b: nat): nat
  {
    if b == 0 then 0 else a + Mul(a, b - 1)
  }

  lemma {:induction false} MulIsProduct(a: nat, b: nat)
    ensures Mul(a, b) == a * b
  {
    if b > 0 {
      MulIsProduct(a, b - 1);
    }
  }

  lemma {:induction false} MulLe(a: nat, b: nat, c: nat)
    requires b <= c
    ensures Mul(a, b) <= Mul(a, c)
  {
    MulIsProduct(a, b);
    MulIsProduct(a, c);
  }

  /** Lane 2j (and 2j + 1) of width k starts where lane j of width 2k does
      (k bits later). */
  lemma {:induction false} MulHalves(k: nat, j: nat)
    ensures Mul(k, 2 * j) == Mul(k + k, j)
    ensures Mul(k, 2 * j + 1) == Mul(k + k, j) + k
  {
    MulIsProduct(k, 2 * j);
    MulIsProduct(k + k, j);
    MulIsProduct(k, 2 * j + 1);
  }

  lemma {:induction false} MulAdd(a: nat, b: nat, c: nat)
    ensures Mul(a, b + c) == Mul(a, b) + Mul(a, c)
  {
    MulIsProduct(a, b + c);
    MulIsProduct(a, b);
    MulIsProduct(a, c);
  }

  // ---------------------------------------------------------------------------
  // Low and high parts

  /** The q low bits of x, that is x % 2^q. */
  function Lo(x: nat, q: nat): (r: nat)
    ensures r < Pow2(q)
  {
    if q == 0 then 0 else x % 2 + 2 * Lo(x / 2, q - 1)
  }

  /** x without its q low bits, that is x / 2^q. */
  function Hi(x: nat, q: nat): nat
  {
    if q == 0 then x else Hi(x / 2, q - 1)
  }

  /** Every value is its low q bits plus 2^q times the rest. */
  lemma {:induction false} LoHi(x: nat, q: nat)
    ensures x == Lo(x, q) + Pow2(q) * Hi(x, q)
  {
    if q > 0 {
      LoHi(x / 2, q - 1);
      Pow2Times(q, Hi(x / 2, q - 1));
    }
  }

  /** Writing lo in the low q bits and hi above them. */
  lemma {:induction false} Concat(lo: nat, hi: nat, q: nat)
    requires lo < Pow2(q)
    ensures Lo(lo + Pow2(q) * hi, q) == lo
    ensures Hi(lo + Pow2(q) * hi, q) == hi
  {
    if q > 0 {
      var x, t := lo + Pow2(q) * hi, Pow2(q - 1) * hi;
      Pow2Times(q, hi);
      assert x % 2 == lo % 2 && x / 2 == lo / 2 + t;
      Concat(lo / 2, hi, q - 1);
    }
  }

  /** Adding two words whose low parts do not carry adds the parts separately. */
  lemma {:induction false} AddSplit(x: nat, y: nat, q: nat)
    requires Lo(x, q) + Lo(y, q) < Pow2(q)
    ensures Lo(x + y, q) == Lo(x, q) + Lo(y, q)
    ensures Hi(x + y, q) == Hi(x, q) + Hi(y, q)
  {
    SumParts(x, y, q);
    Concat(Lo(x, q) + Lo(y, q), Hi(x, q) + Hi(y, q), q);
  }

  /** A sum, written as the sum of the low parts plus 2^q times the sum of the
      high parts. */
  lemma {:induction false} SumParts(x: nat, y: nat, q: nat)
    ensures x + y == (Lo(x, q) + Lo(y, q)) + Pow2(q) * (Hi(x, q) + Hi(y, q))
  {
    LoHi(x, q);
    LoHi(y, q);
    Distrib(Pow2(q), Hi(x, q), Hi(y, q));
  }

  lemma {:induction false} ConcatBound(lo: nat, hi: nat, q: nat, r: nat)
    requires lo < Pow2(q) && hi < Pow2(r)
    ensures lo + Pow2(q) * hi < Pow2(q + r)
  {
    var p, t := Pow2(q), Pow2(r);
    Pow2Add(q, r);
    Distrib(p, hi, t - 1 - hi);
    Distrib(p, t - 1, 1);
  }

  /** A value below 2^q is its own low part and has nothing above. */
  lemma {:induction false} LoOfSmall(x: nat, q: nat)
    requires x < Pow2(q)
    ensures Lo(x, q) == x && Hi(x, q) == 0
  {
    Concat(x, 0, q);
  }

  lemma {:induction false} HiOfZero(q: nat)
    ensures Hi(0, q) == 0
  {
    if q > 0 {
      HiOfZero(q - 1);
    }
  }

  lemma {:induction false} HiAtMost(x: nat, q: nat)
    ensures Hi(x, q) <= x
  {
    if q > 0 {
      HiAtMost(x / 2, q - 1);
    }
  }

  /** A value below 2^(q + r) has less than 2^r above its q low bits. */
  lemma {:induction false} HiBound(x: nat, q: nat, r: nat)
    requires x < Pow2(q + r)
    ensures Hi(x, q) < Pow2(r)
  {
    if q > 0 {
      assert Pow2(q + r) == 2 * Pow2(q - 1 + r);
      HiBound(x / 2, q - 1, r);
    }
  }

  /** Dropping a bits, then b bits, drops a + b bits. */
  lemma {:induction false} HiHi(x: nat, a: nat, b: nat)
    ensures Hi(Hi(x, a), b) == Hi(x, a + b)
  {
    if a > 0 {
      HiHi(x / 2, a - 1, b);
      assert a + b - 1 == a - 1 + b;
    }
  }

  /** The a + b low bits are the a low bits below the next b bits. */
  lemma {:induction false} LoSplit(x: nat, a: nat, b: nat)
    ensures Lo(x, a + b) == Lo(x, a) + Pow2(a) * Lo(Hi(x, a), b)
  {
    if a > 0 {
      var l := Lo(Hi(x / 2, a - 1), b);
      LoSplit(x / 2, a - 1, b);
      assert Lo(x / 2, a - 1 + b) == Lo(x / 2, a - 1) + Pow2(a - 1) * l;
      assert Lo(x, a + b) == x % 2 + 2 * Lo(x / 2, a - 1 + b);
      assert Hi(x, a) == Hi(x / 2, a - 1);
      Pow2Times(a, l);
    }
  }

  /** Keeping b low bits, then a <= b low bits, keeps a low bits. */
  lemma {:induction false} LoLo(x: nat, a: nat, b: nat)
    requires a <= b
    ensures Lo(Lo(x, b), a) == Lo(x, a)
  {
    if a > 0 {
      var y := Lo(x, b);
      assert y % 2 == x % 2 && y / 2 == Lo(x / 2, b - 1);
      LoLo(x / 2, a - 1, b - 1);
    }
  }

  // ---------------------------------------------------------------------------
  // Bits

  /** Bit p of x (0 or 1). */
  function Bit(x: nat, p: nat): (b: nat)
    ensures b <= 1
  {
    Hi(x, p) % 2
  }

  /** Bit p + 1 of x is bit p of x / 2. */
  lemma {:induction false} BitNext(x: nat, p: nat)
    ensures Bit(x, 0) == x % 2
    ensures Bit(x, p + 1) == Bit(x / 2, p)
  {}

  lemma {:induction false} BitOfZero(p: nat)
    ensures Bit(0, p) == 0
  {
    HiOfZero(p);
  }

  /** Bit p of x / 2^q is bit p + q of x. */
  lemma {:induction false} BitDiv(x: nat, q: nat, p: nat)
    ensures Bit(Hi(x, q), p) == Bit(x, p + q)
  {
    HiHi(x, q, p);
  }

  /** Keeping the w low bits keeps the bits below w and clears the others. */
  lemma {:induction false} BitMod(x: nat, w: nat, p: nat)
    ensures Bit(Lo(x, w), p) == if p < w then Bit(x, p) else 0
  {
    if w == 0 {
      BitOfZero(p);
    } else {
      var y := Lo(x, w);
      assert y % 2 == x % 2 && y / 2 == Lo(x / 2, w - 1);
      BitNext(y, 0);
      BitNext(x, 0);
      if p > 0 {
        BitNext(y, p - 1);
        BitNext(x, p - 1);
        BitMod(x / 2, w - 1, p - 1);
      }
    }
  }

  /** A value below 2^w has no bit at or above w. */
  lemma {:induction false} BitAboveWidth(x: nat, w: nat, p: nat)
    requires x < Pow2(w) && w <= p
    ensures Bit(x, p) == 0
  {
    BitMod(x, w, p);
    LoOfSmall(x, w);
  }

  /** The bits of lo + 2^q * hi: those of lo below q, those of hi above. */
  lemma {:induction false} BitConcat(lo: nat, hi: nat, q: nat, p: nat)
    requires lo < Pow2(q)
    ensures Bit(lo + Pow2(q) * hi, p) == if p < q then Bit(lo, p) else Bit(hi, p - q)
  {
    var x := lo + Pow2(q) * hi;
    Concat(lo, hi, q);
    if p < q {
      BitMod(x, q, p);
    } else {
      BitDiv(x, q, p - q);
    }
  }

  /** The bits of 2^k - 1: ones below k, zeros from k on. */
  lemma {:induction false} BitLowOnes(k: nat, p: nat)
    ensures Bit(Pow2(k) - 1, p) == if p < k then 1 else 0
  {
    if k == 0 {
      BitOfZero(p);
    } else {
      var x := Pow2(k) - 1;
      assert x % 2 == 1 && x / 2 == Pow2(k - 1) - 1;
      BitNext(x, 0);
      if p > 0 {
        BitNext(x, p - 1);
        BitLowOnes(k - 1, p - 1);
      }
    }
  }

  /** Two values below 2^w with the same bits below w are equal. */
  lemma {:induction false} BitsDetermine(x: nat, y: nat, w: nat)
    requires x < Pow2(w) && y < Pow2(w)
    requires forall p: nat :: p < w ==> Bit(x, p) == Bit(y, p)
    ensures x == y
  {
    if w > 0 {
      forall p: nat | p < w - 1
        ensures Bit(x / 2, p) == Bit(y / 2, p)
      {
        BitNext(x, p);
        BitNext(y, p);
      }
      BitNext(x, 0);
      BitNext(y, 0);
      BitsDetermine(x / 2, y / 2, w - 1);
    }
  }

  /** The bits of x * 2^k: zero below k, those of x above. */
  lemma {:induction false} BitMulPow2(x: nat, k: nat, p: nat)
    ensures Bit(Pow2(k) * x, p) == if p < k then 0 else Bit(x, p - k)
  {
    BitConcat(0, x, k, p);
    if p < k {
      BitOfZero(p);
    }
  }

  // ---------------------------------------------------------------------------
  // Bitwise operators

  datatype Gate = AndGate | OrGate | XorGate

  /** The gate applied to two bits. */
  function Combine(g: Gate, x: nat, y: nat): (r: nat)
    requires x <= 1 && y <= 1
    ensures r <= 1
  {
    match g
    case AndGate => x * y
    case OrGate => if x + y == 0 then 0 else 1
    case XorGate => (x + y) % 2
  }

  /** The gate applied to each of the w low bit pairs of a and b. */
  function Bitwise(g: Gate, a: nat, b: nat, w: nat): (r: nat)
    ensures r < Pow2(w)
  {
    if w == 0 then 0
    else Combine(g, a % 2, b % 2) + 2 * Bitwise(g, a / 2, b / 2, w - 1)
  }

  lemma {:induction false} BitBitwise(g: Gate, a: nat, b: nat, w: nat, p: nat)
    ensures Bit(Bitwise(g, a, b, w), p) == if p < w then Combine(g, Bit(a, p), Bit(b, p)) else 0
  {
    var r := Bitwise(g, a, b, w);
    if p >= w {
      BitAboveWidth(r, w, p);
    } else {
      var c, rest := Combine(g, a % 2, b % 2), Bitwise(g, a / 2, b / 2, w - 1);
      assert r % 2 == c && r / 2 == rest;
      BitNext(r, 0);
      BitNext(a, 0);
      BitNext(b, 0);
      if p > 0 {
        BitBitwise(g, a / 2, b / 2, w - 1, p - 1);
        BitNext(r, p - 1);
        BitNext(a, p - 1);
        BitNext(b, p - 1);
      }
    }
  }

  /** A value is lo + 2^q * hi when its bits below q are lo's and the
      others are hi's. */
  lemma {:induction false} BitsOfConcat(whole: nat, lo: nat, hi: nat, q: nat, w: nat)
    requires q <= w && whole < Pow2(w) && lo < Pow2(q) && hi < Pow2(w - q)
    requires forall p: nat :: p < q ==> Bit(whole, p) == Bit(lo, p)
    requires forall p: nat :: q <= p < w ==> Bit(whole, p) == Bit(hi, p - q)
    ensures whole == lo + Pow2(q) * hi
  {
    ConcatBound(lo, hi, q, w - q);
    forall p: nat | p < w
      ensures Bit(whole, p) == Bit(lo + Pow2(q) * hi, p)
    {
      BitConcat(lo, hi, q, p);
    }
    BitsDetermine(whole, lo + Pow2(q) * hi, w);
  }

  /** A bitwise result splits at bit q into the results on the two parts. */
  lemma {:induction false} BitwiseSplit(g: Gate, a: nat, b: nat, q: nat, r: nat, w: nat)
    requires w == q + r
    ensures Bitwise(g, a, b, w) == Bitwise(g, Lo(a, q), Lo(b, q), q) + Pow2(q) * Bitwise(g, Hi(a, q), Hi(b, q), r)
  {
    var whole, lo, hi := Bitwise(g, a, b, w), Bitwise(g, Lo(a, q), Lo(b, q), q), Bitwise(g, Hi(a, q), Hi(b, q), r);
    forall p: nat | p < q
      ensures Bit(whole, p) == Bit(lo, p)
    {
      BitwiseLowBit(g, a, b, q, w, p);
    }
    forall p: nat | q <= p < w
      ensures Bit(whole, p) == Bit(hi, p - q)
    {
      BitwiseHighBit(g, a, b, q, w, p);
    }
    BitsOfConcat(whole, lo, hi, q, w);
  }

  lemma {:induction false} BitwiseLowBit(g: Gate, a: nat, b: nat, q: nat, w: nat, p: nat)
    requires p < q <= w
    ensures Bit(Bitwise(g, a, b, w), p) == Bit(Bitwise(g, Lo(a, q), Lo(b, q), q), p)
  {
    BitBitwise(g, a, b, w, p);
    BitBitwise(g, Lo(a, q), Lo(b, q), q, p);
    BitMod(a, q, p);
    BitMod(b, q, p);
  }

  lemma {:induction false} BitwiseHighBit(g: Gate, a: nat, b: nat, q: nat, w: nat, p: nat)
    requires q <= p < w
    ensures Bit(Bitwise(g, a, b, w), p) == Bit(Bitwise(g, Hi(a, q), Hi(b, q), w - q), p - q)
  {
    BitBitwise(g, a, b, w, p);
    BitBitwise(g, Hi(a, q), Hi(b, q), w - q, p - q);
    BitDiv(a, q, p - q);
    BitDiv(b, q, p - q);
  }

  lemma {:induction false} BitwiseCommutes(g: Gate, a: nat, b: nat, w: nat)
    ensures Bitwise(g, a, b, w) == Bitwise(g, b, a, w)
  {
    forall p: nat | p < w
      ensures Bit(Bitwise(g, a, b, w), p) == Bit(Bitwise(g, b, a, w), p)
    {
      BitBitwise(g, a, b, w, p);
      BitBitwise(g, b, a, w, p);
    }
    BitsDetermine(Bitwise(g, a, b, w), Bitwise(g, b, a, w), w);
  }

  /** Masking with 2^k - 1 keeps the k low bits. */
  lemma {:induction false} AndLowOnes(a: nat, k: nat, w: nat)
    requires k <= w
    ensures Bitwise(AndGate, a, Pow2(k) - 1, w) == Lo(a, k)
  {
    var r := Bitwise(AndGate, a, Pow2(k) - 1, w);
    Pow2Monotone(k, w);
    forall p: nat | p < w
      ensures Bit(r, p) == Bit(Lo(a, k), p)
    {
      BitBitwise(AndGate, a, Pow2(k) - 1, w, p);
      BitLowOnes(k, p);
      BitMod(a, k, p);
    }
    BitsDetermine(r, Lo(a, k), w);
  }

  /** 2^k * (2^k - 1): ones in bits k .. 2k - 1. */
  function HighOnes(k: nat): nat
  {
    Pow2(k) * (Pow2(k) - 1)
  }

  /** Masking with 2^k * (2^k - 1) keeps bits k .. 2k - 1. */
  lemma {:induction false} AndHighOnes(a: nat, k: nat, w: nat)
    requires k + k <= w
    ensures Bitwise(AndGate, a, HighOnes(k), w) == Pow2(k) * Lo(Hi(a, k), k)
  {
    var r, s := Bitwise(AndGate, a, HighOnes(k), w), Pow2(k) * Lo(Hi(a, k), k);
    ConcatBound(0, Lo(Hi(a, k), k), k, k);
    Pow2Monotone(k + k, w);
    forall p: nat | p < w
      ensures Bit(r, p) == Bit(s, p)
    {
      AndHighOnesBit(a, k, w, p);
    }
    BitsDetermine(r, s, w);
  }

  lemma {:induction false} AndHighOnesBit(a: nat, k: nat, w: nat, p: nat)
    requires k + k <= w && p < w
    ensures Bit(Bitwise(AndGate, a, HighOnes(k), w), p) == Bit(Pow2(k) * Lo(Hi(a, k), k), p)
  {
    BitBitwise(AndGate, a, HighOnes(k), w, p);
    BitMulPow2(Pow2(k) - 1, k, p);
    BitMulPow2(Lo(Hi(a, k), k), k, p);
    if p >= k {
      BitLowOnes(k, p - k);
      BitMod(Hi(a, k), k, p - k);
      BitDiv(a, k, p - k);
    }
  }

  // ---------------------------------------------------------------------------
  // The u128 operators

  /** `a & b` */
  function And(a: U128, b: U128): U128
  {
    Pow2Values();
    Bitwise(AndGate, a, b, WIDTH)
  }

  /** `a | b` */
  function Or(a: U128, b: U128): U128
  {
    Pow2Values();
    Bitwise(OrGate, a, b, WIDTH)
  }

  /** `a ^ b` */
  function Xor(a: U128, b: U128): U128
  {
    Pow2Values();
    Bitwise(XorGate, a, b, WIDTH)
  }

  /** `!a` */
  function Not(a: U128): U128
  {
    ALL_ONES - a
  }

  /** `a << k`: the bits shifted past bit 127 are lost.  Rust rejects a
      shift by the full width or more. */
  function Shl(a: U128, k: nat): U128
    requires k < WIDTH
  {
    Pow2Values();
    Lo(Pow2(k) * a, WIDTH)
  }

  /** `a >> k`.  Rust rejects a shift by the full width or more. */
  function Shr(a: U128, k: nat): U128
    requires k < WIDTH
  {
    HiAtMost(a, k);
    Hi(a, k)
  }

  /** `a + b` on u128, wrapping around 2^128. */
  function WrappingAdd(a: U128, b: U128): U128
  {
    Pow2Values();
    Lo(a + b, WIDTH)
  }

  /** The sum of two words that stays below 2^128 does not wrap. */
  lemma {:induction false} NoWrap(a: U128, b: U128)
    requires a + b < MODULUS
    ensures WrappingAdd(a, b) == a + b
  {
    Pow2Values();
    LoOfSmall(a + b, WIDTH);
  }

  // ---------------------------------------------------------------------------
  // What the operators do to each bit

  lemma {:induction false} AndBit(a: U128, b: U128, p: nat)
    requires p < WIDTH
    ensures Bit(And(a, b), p) == Bit(a, p) * Bit(b, p)
  {
    BitBitwise(AndGate, a, b, WIDTH, p);
  }

  lemma {:induction false} OrBit(a: U128, b: U128, p: nat)
    requires p < WIDTH
    ensures Bit(Or(a, b), p) == if Bit(a, p) + Bit(b, p) == 0 then 0 else 1
  {
    BitBitwise(OrGate, a, b, WIDTH, p);
  }

  lemma {:induction false} XorBit(a: U128, b: U128, p: nat)
    requires p < WIDTH
    ensures Bit(Xor(a, b), p) == (Bit(a, p) + Bit(b, p)) % 2
  {
    BitBitwise(XorGate, a, b, WIDTH, p);
  }

  lemma {:induction false} NotBit(a: U128, p: nat)
    requires p < WIDTH
    ensures Bit(Not(a), p) == 1 - Bit(a, p)
  {
    Pow2Values();
    NotBitBelow(a, WIDTH, p);
  }

  lemma {:induction false} NotBitBelow(a: nat, w: nat, p: nat)
    requires a < Pow2(w) && p < w
    ensures Bit(Pow2(w) - 1 - a, p) == 1 - Bit(a, p)
  {
    var c := Pow2(w) - 1 - a;
    assert Pow2(w) == 2 * Pow2(w - 1);
    assert c % 2 == 1 - a % 2;
    assert c / 2 == Pow2(w - 1) - 1 - a / 2;
    BitNext(c, 0);
    BitNext(a, 0);
    if p > 0 {
      BitNext(c, p - 1);
      BitNext(a, p - 1);
      NotBitBelow(a / 2, w - 1, p - 1);
    }
  }

  lemma {:induction false} ShlBit(a: U128, k: nat, p: nat)
    requires k < WIDTH && p < WIDTH
    ensures Bit(Shl(a, k), p) == if p < k then 0 else Bit(a, p - k)
  {
    BitMod(Pow2(k) * a, WIDTH, p);
    BitMulPow2(a, k, p);
  }

  lemma {:induction false} ShrBit(a: U128, k: nat, p: nat)
    requires k < WIDTH
    ensures Bit(Shr(a, k), p) == Bit(a, p + k)
  {
    BitDiv(a, k, p);
  }

  lemma {:induction false} AllOnesBit(p: nat)
    requires p < WIDTH
    ensures Bit(ALL_ONES, p) == 1
  {
    Pow2Values();
    BitLowOnes(WIDTH, p);
  }

  /** A word is determined by its 128 bits. */
  lemma {:induction false} WordBitsDetermine(x: U128, y: U128)
    requires forall p: nat :: p < WIDTH ==> Bit(x, p) == Bit(y, p)
    ensures x == y
  {
    Pow2Values();
    BitsDetermine(x, y, WIDTH);
  }
}
