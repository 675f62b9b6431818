/** Pixel element types and the 32-bit to 16-bit colour conversion of
    update_screen.cpp. A pixel of `n` bytes is an unsigned `8n`-bit word; the
    kernels copy such words whole and never split one. */
module Pixels {

  /** `uint8_t`, `uint16_t`, `uint32_t` and `uint64_t`, the element types of
      `updateScreen1`, `updateScreen2`, `updateScreen4` and `updateScreen8`. */
  type Pixel8 = bv8
  type Pixel16 = bv16
  type Pixel32 = bv32
  type Pixel64 = bv64

  /** The capture source's pixel format tags. */
  datatype Format =
    | FormatNone | FormatCustom | FormatTranslucent | FormatTransparent | FormatOpaque
    | FormatRgba8888 | FormatRgbx8888 | FormatRgb888 | FormatRgb565 | FormatBgra8888
    | FormatRgba5551 | FormatRgba4444 | FormatUnknown

  /** The five-bit red field (bits 0-4) of a packed 16-bit pixel. */
  function Red5(p: Pixel16): bv16 { p & 0x1f }
  /** The six-bit green field (bits 5-10). */
  function Green6(p: Pixel16): bv16 { (p >> 5) & 0x3f }
  /** The five-bit blue field (bits 11-15). */
  function Blue5(p: Pixel16): bv16 { p >> 11 }

  /** `convertFormat42`: an RGBA_8888 word (red in the top byte, then green,
      blue and alpha) becomes a 16-bit word with the top five bits of blue in
      bits 11-15, the top six bits of green in bits 5-10 and the top five bits of
      red in bits 0-4; every other format keeps only its low 16 bits. */
  function ConvertFormat42(format: Format, pixel: Pixel32): (out: Pixel16)
    ensures format == FormatRgba8888 ==> Red5(out) as bv32 == (pixel >> 24) >> 3
    ensures format == FormatRgba8888 ==> Green6(out) as bv32 == ((pixel >> 16) & 0xff) >> 2
    ensures format == FormatRgba8888 ==> Blue5(out) as bv32 == ((pixel >> 8) & 0xff) >> 3
    ensures format != FormatRgba8888 ==> out as bv32 == pixel & 0xffff
  {
    if format == FormatRgba8888 then
      var r := pixel >> 24;
      var g := (pixel >> 16) & 0xff;
      var b := (pixel >> 8) & 0xff;
      // the int result is narrowed to uint16_t on return
      ((((b >> 3) << 11) | ((g >> 2) << 5) | (r >> 3)) & 0xffff) as bv16
    else
      (pixel & 0xffff) as bv16
  }

  /** The RGBA_8888 result never needs the narrowing to 16 bits: it is below 2^16. */
  lemma PackedFitsSixteenBits(pixel: Pixel32)
    ensures var r, g, b := pixel >> 24, (pixel >> 16) & 0xff, (pixel >> 8) & 0xff;
            (((b >> 3) << 11) | ((g >> 2) << 5) | (r >> 3)) < 0x1_0000
  {
  }

  /** The same packing written as three shifts of the whole word. */
  lemma ConvertShiftForm(pixel: Pixel32)
    ensures ConvertFormat42(FormatRgba8888, pixel) as bv32
         == (((pixel >> 11) & 0x1f) << 11) | (((pixel >> 18) & 0x3f) << 5) | (pixel >> 27)
  {
  }

  /** Only bits 11-15, 18-23 and 27-31 of an RGBA_8888 word reach the result. */
  lemma ConvertReadsOnlyTopBits(p: Pixel32, q: Pixel32)
    requires p & 0xf8fc_f800 == q & 0xf8fc_f800
    ensures ConvertFormat42(FormatRgba8888, p) == ConvertFormat42(FormatRgba8888, q)
  {
  }

  /** In particular the alpha byte never affects the RGBA_8888 result. */
  lemma ConvertIgnoresAlpha(pixel: Pixel32, alpha: bv8)
    ensures ConvertFormat42(FormatRgba8888, (pixel & 0xffff_ff00) | alpha as bv32)
         == ConvertFormat42(FormatRgba8888, pixel)
  {
    ConvertReadsOnlyTopBits((pixel & 0xffff_ff00) | alpha as bv32, pixel);
  }

  /** Opaque white stays white and pure red lands in the low five bits. */
  lemma ConvertExamples()
    ensures ConvertFormat42(FormatRgba8888, 0xffff_ffff) == 0xffff
    ensures ConvertFormat42(FormatRgba8888, 0xff00_00ff) == 0x001f
    ensures ConvertFormat42(FormatRgb565, 0x1234_5678) == 0x5678
  {
  }
}
