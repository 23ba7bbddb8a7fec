/** The colour models a PNG image can have and the mappings between them:
    libpng's IHDR colour types, png_wrapper.h's pngwcolor_t, rl::Png::Color
    and rl::Bitmap::Color. */
module PngColors {
  import BF = BitmapFormat

  /** rl::Png::Color (rl::PngColor) */
  datatype PngColor = None | Palette | G | Ga | Rgb | Rgba

  // ----- libpng colour types: the IHDR colour type byte, as defined in
  // section 11.2.2 of the PNG specification (ISO/IEC 15948) -----

  const ColorTypeGray: int := 0
  const ColorTypeRgb: int := 2
  const ColorTypePalette: int := 3
  const ColorTypeGrayAlpha: int := 4
  const ColorTypeRgba: int := 6

  /** PNG_COLOR_MASK_ALPHA: bit 2 of the colour type. */
  const ColorMaskAlpha: int := 4

  /** png_color_type & PNG_COLOR_MASK_ALPHA is non-zero. Floor division
      reads the bits of a negative int in two's complement, as `&` does. */
  predicate HasAlphaBit(colorType: int) {
    (colorType / ColorMaskAlpha) % 2 == 1
  }

  /** Of the five colour types, exactly the two with alpha have the bit. */
  lemma AlphaBitOfColorTypes()
    ensures !HasAlphaBit(ColorTypeGray) && !HasAlphaBit(ColorTypeRgb) && !HasAlphaBit(ColorTypePalette)
    ensures HasAlphaBit(ColorTypeGrayAlpha) && HasAlphaBit(ColorTypeRgba)
  {
  }

  /** libpng_color_to_png_color */
  function LibpngColorToPngColor(colorType: int): (c: PngColor)
    ensures c == None <==> colorType !in {ColorTypeGray, ColorTypeRgb, ColorTypePalette, ColorTypeGrayAlpha, ColorTypeRgba}
  {
    if colorType == ColorTypePalette then Palette
    else if colorType == ColorTypeGray then G
    else if colorType == ColorTypeGrayAlpha then Ga
    else if colorType == ColorTypeRgb then Rgb
    else if colorType == ColorTypeRgba then Rgba
    else None
  }

  /** The colour type libpng reports for a PngColor other than None. */
  function ColorTypeOf(c: PngColor): int
    requires c != None
  {
    match c
    case Palette => ColorTypePalette
    case G => ColorTypeGray
    case Ga => ColorTypeGrayAlpha
    case Rgb => ColorTypeRgb
    case Rgba => ColorTypeRgba
  }

  /** Each named colour comes from exactly one colour type. */
  lemma LibpngColorRoundTrip(c: PngColor, colorType: int)
    requires c != None
    ensures LibpngColorToPngColor(ColorTypeOf(c)) == c
    ensures LibpngColorToPngColor(colorType) == c ==> colorType == ColorTypeOf(c)
  {
  }

  /** bitmap_color_to_libpng_color: the colour type libpng reads back as
      the same-named colour, with the alpha bit exactly when the colour has
      alpha. */
  function BitmapColorToLibpngColor(color: BF.Color): (t: int)
    ensures LibpngColorToPngColor(t) == Named(color)
    ensures HasAlphaBit(t) <==> BF.HasAlpha(color)
  {
    match color
    case G => ColorTypeGray
    case Ga => ColorTypeGrayAlpha
    case Rgb => ColorTypeRgb
    case Rgba => ColorTypeRgba
  }

  /** The Png::Color named like each Bitmap::Color. */
  function Named(color: BF.Color): (c: PngColor)
    ensures c != None && c != Palette
  {
    match color
    case G => G
    case Ga => Ga
    case Rgb => Rgb
    case Rgba => Rgba
  }

  lemma NamedInjective(a: BF.Color, b: BF.Color)
    ensures Named(a) == Named(b) <==> a == b
  {
  }

  /** Through libpng's colour types a bitmap colour comes back as the PNG
      colour of the same name. */
  lemma BitmapColorThroughLibpng(color: BF.Color)
    ensures LibpngColorToPngColor(BitmapColorToLibpngColor(color)) == Named(color)
  {
  }

  // ----- png_wrapper.h's pngwcolor_t -----

  /** The pngwcolor_t enumerators, in their declaration order; COUNT is one
      past the last. */
  const PngwColorPalette: int := 0
  const PngwColorG: int := 1
  const PngwColorGa: int := 2
  const PngwColorRgb: int := 3
  const PngwColorRgba: int := 4
  const PngwColorCount: int := 5

  /** pngw_color_to_png_color */
  function PngwColorToPngColor(color: int): (c: PngColor)
    ensures c == None <==> !(PngwColorPalette <= color < PngwColorCount)
  {
    if color == PngwColorPalette then Palette
    else if color == PngwColorG then G
    else if color == PngwColorGa then Ga
    else if color == PngwColorRgb then Rgb
    else if color == PngwColorRgba then Rgba
    else None
  }

  /** png_color_to_pngw_color: None has no case and falls through to the
      palette; every other colour goes to the enumerator named like it. */
  function PngColorToPngwColor(color: PngColor): (v: int)
    ensures PngwColorPalette <= v < PngwColorCount
    ensures color != None ==> PngwColorToPngColor(v) == color
  {
    match color
    case Palette => PngwColorPalette
    case G => PngwColorG
    case Ga => PngwColorGa
    case Rgb => PngwColorRgb
    case Rgba => PngwColorRgba
    case None => PngwColorPalette
  }

  /** bitmap_color_to_pngw_color: an enumerator other than the palette, the
      same one png_color_to_pngw_color gives the same-named PNG colour. */
  function BitmapColorToPngwColor(color: BF.Color): (v: int)
    ensures PngwColorG <= v < PngwColorCount
    ensures v == PngColorToPngwColor(Named(color))
  {
    match color
    case G => PngwColorG
    case Ga => PngwColorGa
    case Rgb => PngwColorRgb
    case Rgba => PngwColorRgba
  }

  /** A named PNG colour survives the trip through pngwcolor_t; None comes
      back as Palette, so the trip loses only None. */
  lemma PngwColorRoundTrip(c: PngColor)
    ensures c != None ==> PngwColorToPngColor(PngColorToPngwColor(c)) == c
    ensures c == None ==> PngwColorToPngColor(PngColorToPngwColor(c)) == Palette
    ensures PngColorToPngwColor(None) == PngColorToPngwColor(Palette)
  {
  }

  /** Every in-range pngwcolor_t survives the opposite trip. */
  lemma PngwColorRoundTripBack(color: int)
    requires PngwColorPalette <= color < PngwColorCount
    ensures PngColorToPngwColor(PngwColorToPngColor(color)) == color
  {
  }

  /** A bitmap colour through pngwcolor_t is again the same-named colour. */
  lemma BitmapColorThroughPngw(color: BF.Color)
    ensures PngwColorToPngColor(BitmapColorToPngwColor(color)) == Named(color)
    ensures BitmapColorToPngwColor(color) == PngColorToPngwColor(Named(color))
  {
  }

  /** The debug assertion of pngw_color_to_png_color as written:
      `color < PNGW_COLOR_PALETTE || color >= PNGW_COLOR_COUNT && "..."`, which
      holds only for values outside the enumeration. */
  predicate PngwColorAssertionAsWritten(color: int) {
    color < PngwColorPalette || color >= PngwColorCount
  }

  /** Every valid colour fails that assertion, so a debug build aborts on
      each call with a real colour. */
  lemma AsWrittenAssertionRejectsValidColors(color: int)
    requires PngwColorToPngColor(color) != None
    ensures !PngwColorAssertionAsWritten(color)
  {
  }

  /** The assertion evidently intended: the value is one of the enumerators. */
  predicate PngwColorAssertion(color: int) {
    PngwColorPalette <= color < PngwColorCount
  }

  /** It holds exactly for the colours the switch names. */
  lemma AssertionAcceptsExactlyNamedColors(color: int)
    ensures PngwColorAssertion(color) <==> PngwColorToPngColor(color) != None
  {
  }

  // ----- pngwresult_t -----

  /** pngwresult_t: PNGW_RESULT_OK is 0; the failures follow it, up to
      PNGW_RESULT_COUNT. */
  const PngwResultOk: int := 0

  /** pngw_result_to_png_exception_error: a static_cast between the two
      enumerations. The assertion admits every failure code up to and
      including PNGW_RESULT_COUNT. */
  function PngwResultToPngExceptionError(result: int, resultCount: int): (e: int)
    requires PngwResultOk < result <= resultCount
    ensures PngwResultOk < e <= resultCount
  {
    result
  }

  /** Distinct failures give distinct exception errors. */
  lemma ExceptionErrorInjective(a: int, b: int, resultCount: int)
    requires PngwResultOk < a <= resultCount && PngwResultOk < b <= resultCount
    ensures PngwResultToPngExceptionError(a, resultCount) == PngwResultToPngExceptionError(b, resultCount) <==> a == b
  {
  }

  // ----- rl::to_bitmap_color and rl::to_png_color -----

  /** to_bitmap_color: a palette image loads as RGB. None is outside what
      the conversion defines. */
  function ToBitmapColor(c: PngColor): (b: BF.Color)
    requires c != None
    ensures c != Palette ==> Named(b) == c
    ensures c == Palette ==> b == BF.Rgb
  {
    match c
    case G => BF.G
    case Ga => BF.Ga
    case Rgb => BF.Rgb
    case Rgba => BF.Rgba
    case Palette => BF.Rgb
  }

  /** to_png_color: the same-named colour, never None or Palette, which
      to_bitmap_color takes back to `color`. */
  function ToPngColor(color: BF.Color): (c: PngColor)
    ensures c != None && c != Palette
    ensures ToBitmapColor(c) == color
  {
    Named(color)
  }

  /** A bitmap colour survives the trip through Png::Color; of the PNG
      colours only Palette does not, and it comes back as Rgb. */
  lemma ColorConversionRoundTrip(color: BF.Color, c: PngColor)
    requires c != None
    ensures ToBitmapColor(ToPngColor(color)) == color
    ensures c != Palette ==> ToPngColor(ToBitmapColor(c)) == c
    ensures ToPngColor(ToBitmapColor(Palette)) == Rgb
  {
  }

  /** The three ways of naming a bitmap colour as a PNG colour agree. */
  lemma ConversionsAgree(color: BF.Color)
    ensures ToPngColor(color) == LibpngColorToPngColor(BitmapColorToLibpngColor(color))
    ensures ToPngColor(color) == PngwColorToPngColor(BitmapColorToPngwColor(color))
  {
  }
}
