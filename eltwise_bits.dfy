/** The integer bit manipulations the eltwise injector emits to index its lookup tables:
    the five-bit table index of `log` (from the leading mantissa bits of the input) and
    the half-binade polynomial index of `tanh` (from the exponent and leading mantissa
    bit of `|x|`). Lanes are 32-bit patterns; the floating-point arithmetic around the
    lookups is not part of this model. */
module EltwiseBits {

  /** `n_mantissa_bits` of an IEEE-754 single. */
  const MantissaBits: bv32 := 23
  /** `approx_order` of `log_compute_vector_fwd`: five leading mantissa bits. */
  const ApproxOrder: bv32 := 5

  // Table constants registered by `register_table_entries`.
  const LogFiveBitOffset: bv32 := 0x0000001f
  const PositiveMask: bv32 := 0x7fffffff
  const TanhIdxBias: bv32 := 0x39800000
  const TanhIdxMask: bv32 := 0xffc00000
  const TanhLinearUbound: bv32 := 0x39ddb3d7
  const TanhSaturationLbound: bv32 := 0x41102cb3
  /** `tanh_n_polynomials`: one polynomial per table row. */
  const TanhPolynomials: bv32 := 32

  /** The `log_predefined_vals` entries: for each of the 32 five-bit indices, the value
      `r_i` at an even position followed by `log(r_i)` at the next one. */
  const LogPredefinedValues: seq<bv32> := [
    0x3f800000, 0xc2b00f34, 0x3f780000, 0xc2affef2, 0x3f700000, 0xc2afee29,
    0x3f680000, 0xc2afdccd, 0x3f600000, 0xc2afcad6, 0x3f580000, 0xc2afb837,
    0x3f580000, 0xc2afb837, 0x3f500000, 0xc2afa4e4, 0x3f480000, 0xc2af90cf,
    0x3f480000, 0xc2af90cf, 0x3f400000, 0xc2af7be9, 0x3f400000, 0xc2af7be9,
    0x3f380000, 0xc2af661e, 0x3f380000, 0xc2af661e, 0x3f300000, 0xc2af4f5c,
    0x3f300000, 0xc2af4f5c, 0x3fa80000, 0xc2b09a6f, 0x3fa80000, 0xc2b09a6f,
    0x3fa00000, 0xc2b08174, 0x3fa00000, 0xc2b08174, 0x3fa00000, 0xc2b08174,
    0x3f980000, 0xc2b06731, 0x3f980000, 0xc2b06731, 0x3f900000, 0xc2b04b82,
    0x3f900000, 0xc2b04b82, 0x3f900000, 0xc2b04b82, 0x3f900000, 0xc2b04b82,
    0x3f880000, 0xc2b02e3e, 0x3f880000, 0xc2b02e3e, 0x3f880000, 0xc2b02e3e,
    0x3f800000, 0xc2b00f34, 0x3f800000, 0xc2b00f34]

  /** "compute i": the five mantissa bits below the implicit one, doubled
      (`lsr 18`, `and log_five_bit_offset`, `lsl 1`). */
  function LogTableIndex(bits: bv32): bv32
  {
    ((bits >> (MantissaBits - ApproxOrder)) & LogFiveBitOffset) << 1
  }

  /** The doubled index is even, at most 62, and its half is the field of bits 18 to 22
      of the input: the five leading stored mantissa bits. */
  lemma LogTableIndexRange(bits: bv32)
    ensures var i := LogTableIndex(bits);
            && i & 1 == 0 && i <= 62
            && i >> 1 == (bits & 0x007c0000) >> 18
  {
  }

  /** "compute anticancellation i": `i >> approx_order`. */
  function LogAnticancellation(bits: bv32): bv32
  {
    LogTableIndex(bits) >> ApproxOrder
  }

  /** The anticancellation term is 0 or 1, and it is 1 exactly when the leading stored
      mantissa bit (bit 22) is set, that is, when the mantissa is at least 1.5. */
  lemma LogAnticancellationIsTopMantissaBit(bits: bv32)
    ensures LogAnticancellation(bits) <= 1
    ensures LogAnticancellation(bits) == (bits >> 22) & 1
  {
  }

  /** The byte offset `gather_table_values` loads lane data from, relative to the start of
      `log_predefined_vals`: the index is scaled by `simd_w = 16` (`lsl 4`) and then by the
      four-byte element size, and `offt` is added to the base address. */
  function LogGatherOffset(bits: bv32, offt: bv32): bv32
  {
    ((LogTableIndex(bits) << 4) * 4) + offt
  }

  /** With 64-byte broadcast entries (`vlen` of `sve_512`), the first gather (`offt = 0`)
      reads entry `i`, which holds `r_i`, and the second (`offt = vlen`) reads entry
      `i + 1`, which holds `log(r_i)`; both lie inside the 64 entries of the table. */
  lemma LogGatherInsideTable(bits: bv32, second: bool)
    ensures var k := LogTableIndex(bits) + (if second then 1 else 0);
            && k < |LogPredefinedValues| as bv32
            && (k % 2 == 1 <==> second)
            && LogGatherOffset(bits, if second then 64 else 0) == k * 64
  {
    LogTableIndexRange(bits);
  }

  /** The table row `tanh_compute_vector_fwd` computes for `x`: the sign is cleared
      (`and positive_mask`), `tanh_idx_bias` subtracted with 32-bit wrap-around, the
      exponent and leading mantissa bit kept (`and tanh_idx_mask`) and shifted down by 22. */
  function TanhTableIndex(bits: bv32): bv32
  {
    (((bits & PositiveMask) - TanhIdxBias) & TanhIdxMask) >> 22
  }

  /** The row index has ten bits, and the permute used to gather coefficients keeps its
      five low bits, so the lane picked is always one of the 32 polynomials. */
  lemma TanhTableIndexBits(bits: bv32)
    ensures TanhTableIndex(bits) < 1024
    ensures TanhTableIndex(bits) & 0x1f < TanhPolynomials
  {
  }

  /** On the inputs whose result is the polynomial (`linear_ubound <= |x| <
      saturation_lbound`; the other lanes are blended to `x` or to `1`), the row is the
      number of half binades between `tanh_idx_bias` and `|x|`, between 1 and 30, so the
      five-bit permute index selects that row itself. */
  lemma TanhTableIndexInPolynomialRange(bits: bv32)
    requires TanhLinearUbound <= bits & PositiveMask < TanhSaturationLbound
    ensures TanhTableIndex(bits) == ((bits & PositiveMask) - TanhIdxBias) / 0x400000
    ensures 1 <= TanhTableIndex(bits) <= 30
    ensures TanhTableIndex(bits) & 0x1f == TanhTableIndex(bits)
  {
  }

  /** The polynomial index grows with `|x|`: a larger magnitude in the polynomial range
      never selects an earlier row. */
  lemma TanhTableIndexMonotone(a: bv32, b: bv32)
    requires TanhLinearUbound <= a & PositiveMask <= b & PositiveMask < TanhSaturationLbound
    ensures TanhTableIndex(a) <= TanhTableIndex(b)
  {
    TanhTableIndexInPolynomialRange(a);
    TanhTableIndexInPolynomialRange(b);
  }
}
