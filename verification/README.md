# swar over u128: a Dafny model

The `swar` crate does SIMD-within-a-register arithmetic on a `u128`. The
wrapper types `Bits1(n)`, `Bits2(n)`, … `Bits128(n)` say how the same 128 bits
are read: as 128 lanes of 1 bit, 64 lanes of 2 bits, and so on up to one lane
of 128 bits. The operations are:

- `split` separates the odd and even K-bit lanes of a `Bits{K}` word. Each
  group is right-aligned in 2K-bit lanes and typed `Bits{K}x{2K}`, meaning
  "2K-bit lanes that each hold a K-bit value".
- `Bits{K}x{2K} + Bits{K}x{2K}` adds the two words with one u128 `+`. The sum
  is typed `Bits{K+1}x{2K}`, or `Bits2` when K = 1.
- `sum_weight2` is split followed by add. Applied seven times to `Bits1(n)`,
  it leaves `n.count_ones()` in the single 128-bit lane. There is also a
  direct version, one mask-shift-add per step.
- `Bits1::abs_difference` is the bitwise distance.
- `Bits2::hwd` is the distance between two 2-bit hamming weights.
- `&` with a u128, `>>`, and `From<Bits128> for u128` round out the API.

The model has these modules:

- **Word** (`word.dfy`): u128 words are naturals below 2^128. Bitwise `&`,
  `|`, `^` and `!`, shifts and wrapping `+` are defined bit by bit or by
  arithmetic.
- **Lanes** (`lanes.dfy`): the lane view `Lane(x, w, j)`, population counts,
  periodic words and the gathering of even lanes.
- **Masks** (`masks.dfy`): the two mask tables and their shape.
- **Swar** (`swar.dfy`): the wrapper types. The lane width is carried as
  `exp`, the width being 2^exp.
- **BitsN** (`bitsn.dfy`): split, split-and-add `sum_weight2`, the distances,
  and the operators.
- **BitsNxN** (`bitsnxn.dfy`): the `Add` impls.
- **DirectSteps** (`u128.dfy`): the direct `sum_weight2` chain and popcount.
- **DocExamples** (`doctests.dfy`): the crate's documentation examples.

The crate defines `sum_weight2` twice: once in `src/u128.rs` (direct) and
once in `src/u128/bitsn.rs` (split and add). The model keeps both and proves
they compute the same word (`DirectSteps.SameStep`).

Where the source uses `+` on u128, the model uses wrapping addition. For the
`+` inside both versions of `sum_weight2`, and for every `Add` whose operands
keep their type's promise (each 2K-bit lane below 2^K), it proves that no
wrap happens: there the overflow panic of a debug build never fires and the
release build's result is the exact sum.

## Model

| member | source | states |
|---|---|---|
| Masks.MaskShape | src/u128/bitsn.rs:5-23 | At level l, RIGHT_MASKS[l] is 2^l blocks of 2K bits with the low K bits set, and LEFT_MASKS[l] the same blocks with the high K bits set (K = 2^(6-l)). |
| Masks.MasksDisjoint | src/u128/bitsn.rs:5-23 | `LEFT_MASKS[l] & RIGHT_MASKS[l] == 0` at every level. |
| Masks.MasksCover | src/u128.rs:3-21 | The bitwise or of LEFT_MASKS[l] and RIGHT_MASKS[l] is all ones at every level. |
| Masks.LeftIsShiftedRight | src/u128/bitsn.rs:15-23 | The left mask is the right mask times 2^K: the same blocks moved up by half a block. |
| Masks.MasksShift | src/u128.rs:3-21 | `LEFT_MASKS[l] >> K == RIGHT_MASKS[l]`. |
| Masks.MaskedPartsJoin | src/u128/bitsn.rs:5-23 | The bitwise or of `n & LEFT_MASKS[l]` and `n & RIGHT_MASKS[l]` is n, for every n. |
| Masks.AndRightMask | src/u128/bitsn.rs:42 | `n & RIGHT_MASKS[l]` holds the even K-bit lanes of n, one in the low half of each 2K-bit lane. |
| Masks.AndLeftMask | src/u128/bitsn.rs:111 | `n & LEFT_MASKS[l]` holds the odd K-bit lanes of n, one in the high half of each 2K-bit lane. |
| Masks.AndLowHalves | src/u128/bitsn.rs:145 | Masking with m blocks of low-half ones gathers the even K-bit lanes into m lanes of 2K bits. |
| Masks.AndHighHalves | src/u128/bitsn.rs:144 | Masking with m blocks of high-half ones keeps the odd K-bit lanes, each in the upper half of its 2K-bit block. |
| Swar.Equal | src/lib.rs:39-41 | The derived `PartialEq`: two values of one wrapper type are equal exactly when their u128 words are. |
| BitsN.Level | src/u128/bitsn.rs:276-277 | `Bits{K}` uses mask level 6 - exp, which is a valid table index, and its half-block width is K. |
| BitsN.Split | src/u128/bitsn.rs:38-44 | `split` of `Bits{K}` (all seven widths) gives two `Bits{K}x{2K}` values of lane width 2K. Their lanes are stated by BitsN.SplitLanes. |
| BitsN.SplitGathers | src/u128/bitsn.rs:243-244 | The right half is the even K-bit lanes gathered, the left half the odd ones. The masked left word is the left half shifted up by K, so `>> K` loses nothing. |
| BitsN.SplitLanes | src/u128/bitsn.rs:108-114 | Lane j of the left half is K-bit lane 2j+1 of the input and lane j of the right half is lane 2j. Every 2K-bit lane of both is below 2^K, which is what the type `Bits{K}x{2K}` promises. |
| BitsN.SplitLossless | src/u128/bitsn.rs:174-180 | Split loses no bit: the bitwise or of `left << K` and `right` is the input word again. |
| BitsN.SumWeight2 | src/u128/bitsn.rs:27-30 | `sum_weight2` of `Bits{K}` is a `Bits{2K}`. Its lanes are stated by BitsN.SumWeight2Lanes. |
| BitsN.SumWeight2Lanes | src/u128/bitsn.rs:168-171 | The sum of the halves does not overflow u128. Every 2K-bit lane of the result is the sum of the two K-bit lanes of the input it covers. |
| BitsN.AbsDifference | src/u128/bitsn.rs:33-35 | `abs_difference` keeps the `Bits1` width. Its lanes are stated by BitsN.AbsDifferenceLanes. |
| BitsN.AbsDifferenceLanes | src/u128/bitsn.rs:32-35 | Every 1-bit lane of `abs_difference` is the distance of the two input bits. |
| BitsN.Hwd | src/u128/bitsn.rs:100-104 | `hwd` keeps the `Bits2` width. Its lanes are stated by BitsN.HwdLane. |
| BitsN.HwdLowBit | src/u128/bitsn.rs:102 | The low bit of each output lane is the exclusive or of the low bits of the input lanes. |
| BitsN.HwdHighBit | src/u128/bitsn.rs:103 | The high bit of each output lane is set when B1 is set and A1, A0 are clear, or A1 is set and B1, B0 are clear. The two guards never hold together. |
| BitsN.HwdTable | src/u128/bitsn.rs:85-99 | The two reduced bit formulas give the distance of two weights 0, 1 or 2, for every one of the nine pairs. |
| BitsN.HwdLane | src/u128/bitsn.rs:84-105 | When both 2-bit lanes hold a hamming weight 0, 1 or 2, the output lane of `hwd` is their distance. |
| BitsN.HwdSymmetric | src/u128/bitsn.rs:100-104 | `a.hwd(b) == b.hwd(a)`. |
| BitsN.BitAnd | src/u128/bitsn.rs:47-53 | `Bits{K} & u128` keeps the lane width. |
| BitsN.BitAndBits | src/u128/bitsn.rs:117-123 | Every bit of `b & rhs` is set exactly when it is set in both. |
| BitsN.ShiftRight | src/u128/bitsn.rs:55-61 | `Bits{K} >> k` keeps the lane width. |
| BitsN.FromBits128 | src/u128.rs:79-84 | `From<Bits128> for u128` gives the value of the single 128-bit lane, which is the whole wrapped word. |
| BitsN.ShiftRightBits | src/u128/bitsn.rs:125-131 | Bit p of `b >> k` is bit p + k of b. A shift by the lane width moves every lane down by one. |
| BitsNxN.AddBits1x2 | src/u128/bitsnxn.rs:4-10 | `Bits1x2 + Bits1x2` is a `Bits2`. Its lanes are stated by BitsNxN.AddBits1x2Lanes. |
| BitsNxN.AddHalves | src/u128/bitsnxn.rs:12-18 | `Bits{K}x{2K} + Bits{K}x{2K}` is a `Bits{K+1}x{2K}` of the same lane width. Its lanes are stated by BitsNxN.AddHalvesLanes. |
| BitsNxN.SumOfHalves | src/u128/bitsnxn.rs:44-50 | Two words whose 2K-bit lanes are all below 2^K add without overflow and without carries between lanes. Every lane of the sum is below 2^(K+1). |
| BitsNxN.AddHalvesLanes | src/u128/bitsnxn.rs:20-26 | For valid `Bits{K}x{2K}` operands, the u128 `+` does not overflow and each lane is the sum of the lanes. The result satisfies the `Bits{K+1}x{2K}` promise (lanes below 2^(K+1)). |
| BitsNxN.AddBits1x2Lanes | src/u128/bitsnxn.rs:7-9 | `Bits1x2 + Bits1x2` does not overflow. Each 2-bit lane is the sum of the lanes and at most 2. |
| BitsNxN.AddBits64x128 | src/u128/bitsnxn.rs:52-58 | `Bits64x128 + Bits64x128` adds two values below 2^64, and the result is their exact sum. |
| BitsNxN.AddCommutes | src/u128/bitsnxn.rs:28-34 | Every `Add` impl is commutative. |
| DirectSteps.SumWeight2 | src/u128.rs:23-29 | The direct `sum_weight2` of `Bits{K}` gives a `Bits{2K}`. |
| DirectSteps.SameStep | src/u128.rs:31-37 | The direct step computes the same word as the split-and-add `sum_weight2` of the same width. |
| DirectSteps.SumWeight2Lanes | src/u128.rs:39-45 | The direct step does not overflow. Each 2K-bit lane is the sum of the two K-bit lanes it covers. |
| DirectSteps.Chain | tests/count_ones.rs:15-22 | s chained `sum_weight2` calls from `Bits1(n)` give a `Bits{2^s}`. |
| DirectSteps.ChainCounts | src/u128.rs:47-69 | After s steps, every 2^s-bit lane holds the number of set bits of the matching 2^s-bit region of n, at most 2^s. |
| DirectSteps.ChainIsCountOnes | tests/count_ones.rs:12-24 | Seven steps from `Bits1(n)`, then the conversion to u128, give `n.count_ones()` for every n. |
| DirectSteps.PairCounts | src/u128.rs:23-29 | After `Bits1::sum_weight2`, each 2-bit lane is the popcount of its 2 bits of n. |
| DirectSteps.HalvesOfWord | src/u128.rs:71-77 | `Bits64::sum_weight2` of n is the high 64 bits of n plus the low 64 bits. |
| DocExamples.AlternatingPattern | src/lib.rs:4 | The word 0xAAAA… is 64 copies of the 2-bit value 2. |
| DocExamples.AlternatingWeight | src/lib.rs:4-14 | 0xAAAA… has 64 set bits, and seven `sum_weight2` steps followed by `into()` give 64. |
| DocExamples.AlternatingTwoSteps | src/lib.rs:16-17 | Two `sum_weight2` steps from `Bits1(0xAAAA…)` give 0x2222…. |
| DocExamples.AlternatingSplit | src/lib.rs:19-20 | Splitting that word gives, as the left half, the `Bits8` word 0x0202…. |
| DocExamples.ExampleWords | src/lib.rs:27-31 | The three binary literals of the example pack the weight tables a = 2,1,0,2,1,0,2,1,0, b = 2,2,2,1,1,1,0,0,0 and e = 0,1,2,1,0,1,2,1,0 (lane 0 first). |
| DocExamples.ExampleTable | src/lib.rs:27-31 | Each expected lane is the distance of the two input weights. |
| DocExamples.HwdExample | src/u128/bitsn.rs:76-81 | `Bits2(a).hwd(Bits2(b))` equals the expected word of the example. |

## Left out

- The `Bits{K}x{2K}` and `Bits{K+1}x{2K}` type definitions and the `into()` from `Bits{K+1}x{2K}` to `Bits{2K}` are not part of this model. They are modelled as wrappers (`Halves`, `Carried`) whose `bits` field the conversion returns.
- `minhwd` and the rest of the crate outside the files above are not part of this model. The hamming-distance example of `src/lib.rs:23-34` calls `minhwd`. The model checks the same inputs against `hwd`, whose own doc comment (`src/u128/bitsn.rs:72-82`) uses them.
- The split example in `src/lib.rs:19-20` compares a `Bits4x8` with a `Bits8`. The model compares the `Bits8` that the `Bits4x8` wraps.
- The Rust type-level lane width is a field `exp`. Members modelling impls that the source gives only for `Bits1` .. `Bits64` (`split`, `sum_weight2`, `&`, `>>`) require `exp < 7`; `From<Bits128>` requires `exp == 7`. Type errors are therefore preconditions rather than compile errors.
- BitsNxN.AddHalves / BitsNxN.AddBits1x2: on operands that break their type's promise (a lane of 2^K or more, e.g. `Bits4x8(Bits8(u128::MAX))`), the model wraps the sum modulo 2^128 where a debug build panics on overflow; only the release-build behaviour is modelled.
- BitsN.ShiftRight: requires a shift below 128. A larger shift panics in a debug build and is masked to 7 bits in a release build; neither is modelled.
- `count_ones` is modelled as the recursive population count `Pop`, not as a processor instruction.
- The randomized test of `tests/count_ones.rs` (random number generator, 100 000 samples) is not modelled; `DirectSteps.ChainIsCountOnes` states its assertion for every u128.
- The mask tables appear twice in the source (`src/u128.rs:3-21`, `src/u128/bitsn.rs:5-23`) with identical contents. They are modelled once.
- The `#[inline]` hints, `Copy`/`Clone`/`Debug` derives and the `#![no_std]` attribute have no observable effect and are not modelled.
