/** libpng_read_configure: the transforms requested from libpng so that a
    PNG image of any colour type and bit depth reads as a bitmap of the
    wanted depth and colour. Each png_set_* call becomes one element of the
    set of requested transforms. */
module PngReadConfigure {
  import BF = BitmapFormat
  import opened PngColors

  datatype Transform =
    | StripAlpha
    /** png_set_filler(png_ptr, 0xffff, PNG_FILLER_AFTER) */
    | Filler(value: int, after: bool)
    | Packing
    /** png_set_scale_16 */
    | Scale16
    /** png_set_strip_16, where libpng lacks PNG_READ_SCALE_16_TO_8 */
    | Strip16
    | Expand16
    | ExpandGray1To8
    | PaletteToRgb
    | TrnsToAlpha
    /** png_set_rgb_to_gray_fixed(png_ptr, 1, -1, -1): no warning for a
        colour image, the default weights. */
    | RgbToGray
    | GrayToRgb

  const OpaqueFiller: Transform := Filler(0xffff, true)

  /** Every transform libpng_read_configure can request. */
  const Candidates: set<Transform> :=
    {StripAlpha, OpaqueFiller, Packing, Scale16, Strip16, Expand16, ExpandGray1To8, PaletteToRgb, TrnsToAlpha,
     RgbToGray, GrayToRgb}

  /** The guard of each png_set_* call, in the order of the calls.
      `scaleSupported` stands for PNG_READ_SCALE_16_TO_8_SUPPORTED, `hasTrns`
      for a valid tRNS chunk. */
  predicate Requested(t: Transform, bitDepth: int, colorType: int, depth: BF.Depth, color: BF.Color,
                      hasTrns: bool, scaleSupported: bool)
  {
    var wantsAlpha := color == BF.Ga || color == BF.Rgba;
    match t
    case StripAlpha => HasAlphaBit(colorType) && !wantsAlpha
    case Filler(value, after) =>
      value == 0xffff && after && wantsAlpha
      && (colorType == ColorTypeGray || colorType == ColorTypeRgb || colorType == ColorTypePalette)
    case Packing => bitDepth < 8 && depth == BF.Octuple
    case Scale16 => bitDepth == 16 && depth == BF.Octuple && scaleSupported
    case Strip16 => bitDepth == 16 && depth == BF.Octuple && !scaleSupported
    case Expand16 => bitDepth < 16 && depth == BF.Sexdecuple
    case ExpandGray1To8 => (colorType == ColorTypeGray || colorType == ColorTypeGrayAlpha) && bitDepth < 8
    case PaletteToRgb => colorType == ColorTypePalette
    case TrnsToAlpha => hasTrns
    case RgbToGray =>
      (color == BF.G || color == BF.Ga)
      && (colorType == ColorTypeRgb || colorType == ColorTypeRgba || colorType == ColorTypePalette)
    case GrayToRgb =>
      (color == BF.Rgb || color == BF.Rgba) && (colorType == ColorTypeGray || colorType == ColorTypeGrayAlpha)
  }

  /** The requested transforms. */
  function Configure(bitDepth: int, colorType: int, depth: BF.Depth, color: BF.Color,
                     hasTrns: bool, scaleSupported: bool): (r: set<Transform>)
    ensures forall t :: t in r <==> t in Candidates && Requested(t, bitDepth, colorType, depth, color, hasTrns, scaleSupported)
  {
    set t | t in Candidates && Requested(t, bitDepth, colorType, depth, color, hasTrns, scaleSupported)
  }

  /** The channels a bitmap colour has. */
  predicate HasAlpha(color: BF.Color) {
    color == BF.Ga || color == BF.Rgba
  }

  predicate IsGray(color: BF.Color) {
    color == BF.G || color == BF.Ga
  }

  /** The alpha channel: stripped exactly when the image has one and the
      bitmap does not; an opaque one added exactly when the bitmap has one
      and the image, by its colour, has none. Never both. */
  lemma AlphaTransforms(bitDepth: int, colorType: int, depth: BF.Depth, color: BF.Color, hasTrns: bool, scaleSupported: bool)
    ensures var r := Configure(bitDepth, colorType, depth, color, hasTrns, scaleSupported);
      && (StripAlpha in r <==> HasAlphaBit(colorType) && (color == BF.G || color == BF.Rgb))
      && (OpaqueFiller in r <==> HasAlpha(color) && LibpngColorToPngColor(colorType) in {G, Rgb, Palette})
      && (forall v, a :: Filler(v, a) in r ==> Filler(v, a) == OpaqueFiller)
      && !(StripAlpha in r && OpaqueFiller in r)
  {
    AlphaBitOfColorTypes();
  }

  /** The sample depth: packing below 8 bits and 16-to-8 reduction for an
      8-bit bitmap, expansion below 16 bits for a 16-bit one, nothing for a
      normalized one. */
  lemma DepthTransforms(bitDepth: int, colorType: int, depth: BF.Depth, color: BF.Color, hasTrns: bool, scaleSupported: bool)
    ensures var r := Configure(bitDepth, colorType, depth, color, hasTrns, scaleSupported);
      && (Packing in r <==> bitDepth < 8 && depth == BF.Octuple)
      && (Scale16 in r <==> bitDepth == 16 && depth == BF.Octuple && scaleSupported)
      && (Strip16 in r <==> bitDepth == 16 && depth == BF.Octuple && !scaleSupported)
      && (Expand16 in r <==> bitDepth < 16 && depth == BF.Sexdecuple)
      && (depth == BF.Normalized ==> Packing !in r && Scale16 !in r && Strip16 !in r && Expand16 !in r)
      && !(Expand16 in r && (Packing in r || Scale16 in r || Strip16 in r))
  {
  }

  /** Gray below 8 bits widened, a palette always expanded, tRNS always
      turned into alpha. */
  lemma ExpansionTransforms(bitDepth: int, colorType: int, depth: BF.Depth, color: BF.Color, hasTrns: bool, scaleSupported: bool)
    ensures var r := Configure(bitDepth, colorType, depth, color, hasTrns, scaleSupported);
      && (ExpandGray1To8 in r <==> LibpngColorToPngColor(colorType) in {G, Ga} && bitDepth < 8)
      && (PaletteToRgb in r <==> LibpngColorToPngColor(colorType) == Palette)
      && (TrnsToAlpha in r <==> hasTrns)
  {
  }

  /** Colour to gray exactly when a gray bitmap reads a colour or palette
      image, gray to colour exactly when a colour bitmap reads a gray image;
      never both. */
  lemma ModelTransforms(bitDepth: int, colorType: int, depth: BF.Depth, color: BF.Color, hasTrns: bool, scaleSupported: bool)
    ensures var r := Configure(bitDepth, colorType, depth, color, hasTrns, scaleSupported);
      && (RgbToGray in r <==> IsGray(color) && LibpngColorToPngColor(colorType) in {Rgb, Rgba, Palette})
      && (GrayToRgb in r <==> !IsGray(color) && LibpngColorToPngColor(colorType) in {G, Ga})
      && !(RgbToGray in r && GrayToRgb in r)
  {
  }

  /** A gray image read as gray at its own 8-bit depth, without tRNS,
      needs no transform at all. */
  lemma NativeReadIsPlain(scaleSupported: bool)
    ensures Configure(8, ColorTypeGray, BF.Octuple, BF.G, false, scaleSupported) == {}
  {
    AlphaBitOfColorTypes();
  }
}
