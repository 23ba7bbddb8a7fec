/** The pixel formats of the library: channel layouts and depths, and the
    sizes and byte offsets they determine (rl::Bitmap's static functions). A
    pixel is its channels in order, each channel `ChannelSize` bytes wide; a
    row is `width` pixels; rows and pages are laid out at given strides. */
module BitmapFormat {
  import opened Wrappers
  import Arith

  /** rl::Bitmap::Depth: bytes per channel 1, 2 or 4. */
  datatype Depth = Octuple | Sexdecuple | Normalized

  /** rl::Bitmap::Color: gray or RGB, with or without alpha. */
  datatype Color = G | Ga | Rgb | Rgba

  /** The defaults of default-constructed bitmaps and views. */
  const DefaultDepth: Depth := Octuple
  const DefaultColor: Color := Rgb

  predicate HasAlpha(color: Color) {
    color == Ga || color == Rgba
  }

  predicate IsGray(color: Color) {
    color == G || color == Ga
  }

  /** Number of channels: one gray or three colour channels, plus alpha. */
  function ChannelCount(color: Color): (n: nat)
    ensures n == (if IsGray(color) then 1 else 3) + (if HasAlpha(color) then 1 else 0)
  {
    match color
    case G => 1
    case Ga => 2
    case Rgb => 3
    case Rgba => 4
  }

  /** Bytes per channel. */
  function ChannelSize(depth: Depth): (n: nat)
    ensures n == 1 || n == 2 || n == 4
  {
    match depth
    case Octuple => 1
    case Sexdecuple => 2
    case Normalized => 4
  }

  /** Bits per channel. */
  function BitDepth(depth: Depth): (b: nat)
    ensures b == 8 * ChannelSize(depth)
    ensures b == BitDepthOfChannelSize(ChannelSize(depth))
  {
    match depth
    case Octuple => 8
    case Sexdecuple => 16
    case Normalized => 32
  }

  /** Bits per channel of a channel `channelSize` bytes wide. */
  function BitDepthOfChannelSize(channelSize: nat): nat {
    8 * channelSize
  }

  // Sizes for a channel width given in bytes (the form the older rl::Bitmap
  // interface uses), and for a Depth.

  function PixelSizeBy(channelSize: nat, color: Color): nat {
    channelSize * ChannelCount(color)
  }

  function RowSizeBy(channelSize: nat, color: Color, width: nat): nat {
    width * PixelSizeBy(channelSize, color)
  }

  function PageSizeBy(channelSize: nat, color: Color, width: nat, height: nat): nat {
    height * RowSizeBy(channelSize, color, width)
  }

  function SizeBy(channelSize: nat, color: Color, width: nat, height: nat, pages: nat): nat {
    pages * PageSizeBy(channelSize, color, width, height)
  }

  /** A pixel is its channels side by side: between 1 and 16 bytes. */
  function PixelSize(depth: Depth, color: Color): (n: nat)
    ensures n == ChannelCount(color) * ChannelSize(depth)
    ensures 1 <= n <= 16
  {
    PixelSizeBy(ChannelSize(depth), color)
  }

  /** A row is `width` pixels; it is empty exactly when it has none. */
  function RowSize(width: nat, depth: Depth, color: Color): (n: nat)
    ensures n == width * PixelSize(depth, color)
    ensures n == 0 <==> width == 0
  {
    RowSizeBy(ChannelSize(depth), color, width)
  }

  /** A page is `height` rows. */
  function PageSize(width: nat, height: nat, depth: Depth, color: Color): (n: nat)
    ensures n == height * RowSize(width, depth, color)
    ensures n == 0 <==> width == 0 || height == 0
  {
    PageSizeBy(ChannelSize(depth), color, width, height)
  }

  /** A bitmap is `pages` pages. */
  function Size(width: nat, height: nat, pages: nat, depth: Depth, color: Color): (n: nat)
    ensures n == pages * PageSize(width, height, depth, color)
    ensures n == 0 <==> width == 0 || height == 0 || pages == 0
  {
    SizeBy(ChannelSize(depth), color, width, height, pages)
  }

  /** Offset of byte 0 of channel `channel` of pixel (x, y) on page `page`,
      for rows `rowOffset` bytes apart and pages `pageOffset` bytes apart;
      None when any coordinate is out of range. */
  function ByteIndexBy(channelSize: nat, color: Color, width: nat, height: nat, pages: nat,
                       rowOffset: nat, pageOffset: nat,
                       x: nat, y: nat, page: nat, channel: nat): Option<nat>
  {
    if x < width && y < height && page < pages && channel < ChannelCount(color) then
      Some(page * pageOffset + y * rowOffset + x * PixelSizeBy(channelSize, color) + channel * channelSize)
    else
      None
  }

  /** rl::Bitmap::GetByteIndex(width, height, pages, depth, color, row_offset,
      page_offset, x, y, page, channel): an index exists exactly for in-range
      coordinates, and then it is the page, row, pixel and channel offsets
      added up. */
  function ByteIndex(width: nat, height: nat, pages: nat, depth: Depth, color: Color,
                     rowOffset: nat, pageOffset: nat,
                     x: nat, y: nat, page: nat, channel: nat): (i: Option<nat>)
    ensures i.Some? <==> x < width && y < height && page < pages && channel < ChannelCount(color)
    ensures i.Some? ==> i.value == page * pageOffset + y * rowOffset + x * PixelSize(depth, color) + channel * ChannelSize(depth)
  {
    ByteIndexBy(ChannelSize(depth), color, width, height, pages, rowOffset, pageOffset, x, y, page, channel)
  }

  /** The errors bitmap operations throw as rl::runtime_error. */
  datatype BitmapError =
    | DifferentWidth        // "blit row has different width"
    | BlitOutOfBitmap       // "blit out of bitmap"
    | ModifiedRowTooLarge   // "modified row is larger"

  /** Tightly packed strides: each row right after the previous one, each page
      right after the previous one. */
  predicate Packed(width: nat, height: nat, depth: Depth, color: Color, rowOffset: nat, pageOffset: nat) {
    rowOffset == RowSize(width, depth, color) && pageOffset == PageSize(width, height, depth, color)
  }

  /** Strides that leave every row and every page room for its pixels. */
  predicate Separated(width: nat, height: nat, depth: Depth, color: Color, rowOffset: nat, pageOffset: nat) {
    rowOffset >= RowSize(width, depth, color) && pageOffset >= height * rowOffset
  }

  // ----- Tabulated values -----

  lemma ChannelTable()
    ensures ChannelCount(G) == 1 && ChannelCount(Ga) == 2 && ChannelCount(Rgb) == 3 && ChannelCount(Rgba) == 4
    ensures ChannelSize(Octuple) == 1 && ChannelSize(Sexdecuple) == 2 && ChannelSize(Normalized) == 4
    ensures BitDepth(Octuple) == 8 && BitDepth(Sexdecuple) == 16 && BitDepth(Normalized) == 32
  {
  }

  lemma PixelSizeTable()
    ensures PixelSize(Octuple, G) == 1
    ensures PixelSize(Octuple, Ga) == 2
    ensures PixelSize(Octuple, Rgb) == 3
    ensures PixelSize(Octuple, Rgba) == 4
    ensures PixelSize(Sexdecuple, G) == 2
    ensures PixelSize(Sexdecuple, Ga) == 4
    ensures PixelSize(Sexdecuple, Rgb) == 6
    ensures PixelSize(Sexdecuple, Rgba) == 8
    ensures PixelSize(Normalized, G) == 4
    ensures PixelSize(Normalized, Ga) == 8
    ensures PixelSize(Normalized, Rgb) == 12
    ensures PixelSize(Normalized, Rgba) == 16
  {
  }

  lemma SizeTable()
    ensures forall d, c :: RowSize(1, d, c) == PixelSize(d, c)
    ensures forall d, c :: PageSize(512, 1, d, c) == RowSize(512, d, c)
    ensures forall d, c :: Size(512, 1, 1, d, c) == RowSize(512, d, c)
    ensures forall d, c :: Size(512, 512, 1, d, c) == PageSize(512, 512, d, c)
    ensures RowSize(512, Octuple, G) == 512
    ensures RowSize(512, Octuple, Ga) == 1024
    ensures RowSize(512, Octuple, Rgb) == 1536
    ensures RowSize(512, Octuple, Rgba) == 2048
    ensures RowSize(512, Sexdecuple, G) == 1024
    ensures RowSize(512, Sexdecuple, Ga) == 2048
    ensures RowSize(512, Sexdecuple, Rgb) == 3072
    ensures RowSize(512, Sexdecuple, Rgba) == 4096
    ensures RowSize(512, Normalized, G) == 2048
    ensures RowSize(512, Normalized, Ga) == 4096
    ensures RowSize(512, Normalized, Rgb) == 6144
    ensures RowSize(512, Normalized, Rgba) == 8192
    ensures PageSize(512, 512, Octuple, G) == 262144
    ensures PageSize(512, 512, Octuple, Ga) == 524288
    ensures PageSize(512, 512, Octuple, Rgb) == 786432
    ensures PageSize(512, 512, Octuple, Rgba) == 1048576
    ensures PageSize(512, 512, Sexdecuple, G) == 524288
    ensures PageSize(512, 512, Sexdecuple, Ga) == 1048576
    ensures PageSize(512, 512, Sexdecuple, Rgb) == 1572864
    ensures PageSize(512, 512, Sexdecuple, Rgba) == 2097152
    ensures PageSize(512, 512, Normalized, G) == 1048576
    ensures PageSize(512, 512, Normalized, Ga) == 2097152
    ensures PageSize(512, 512, Normalized, Rgb) == 3145728
    ensures PageSize(512, 512, Normalized, Rgba) == 4194304
    ensures Size(512, 512, 255, Octuple, G) == 66846720
    ensures Size(512, 512, 255, Octuple, Ga) == 133693440
    ensures Size(512, 512, 255, Octuple, Rgb) == 200540160
    ensures Size(512, 512, 255, Octuple, Rgba) == 267386880
    ensures Size(512, 512, 255, Sexdecuple, G) == 133693440
    ensures Size(512, 512, 255, Sexdecuple, Ga) == 267386880
    ensures Size(512, 512, 255, Sexdecuple, Rgb) == 401080320
    ensures Size(512, 512, 255, Sexdecuple, Rgba) == 534773760
    ensures Size(512, 512, 255, Normalized, G) == 267386880
    ensures Size(512, 512, 255, Normalized, Ga) == 534773760
    ensures Size(512, 512, 255, Normalized, Rgb) == 802160640
    ensures Size(512, 512, 255, Normalized, Rgba) == 1069547520
  {
  }

  // One lemma per vector of the byte-index test table.
  lemma ByteIndexVector01()
    ensures ByteIndex(512, 512, 512, Octuple, G, 512, 262144, 512, 0, 0, 0) == None
  {
  }

  lemma ByteIndexVector02()
    ensures ByteIndex(512, 512, 512, Octuple, G, 512, 262144, 0, 512, 0, 0) == None
  {
  }

  lemma ByteIndexVector03()
    ensures ByteIndex(512, 512, 512, Octuple, G, 512, 262144, 0, 0, 512, 0) == None
  {
  }

  lemma ByteIndexVector04()
    ensures ByteIndex(512, 512, 512, Octuple, G, 512, 262144, 0, 0, 0, 1) == None
  {
  }

  lemma ByteIndexVector05()
    ensures ByteIndex(512, 512, 512, Octuple, G, 512, 262144, 0, 0, 0, 0) == Some(0)
  {
  }

  lemma ByteIndexVector06()
    ensures ByteIndex(512, 512, 512, Octuple, G, 512, 262144, 101, 0, 0, 0) == Some(101)
  {
  }

  lemma ByteIndexVector07()
    ensures ByteIndex(512, 512, 512, Octuple, G, 512, 262144, 0, 101, 0, 0) == Some(51712)
  {
  }

  lemma ByteIndexVector08()
    ensures ByteIndex(512, 512, 512, Octuple, G, 512, 262144, 0, 0, 101, 0) == Some(26476544)
  {
  }

  lemma ByteIndexVector09()
    ensures ByteIndex(512, 512, 512, Octuple, Ga, 1024, 524288, 0, 0, 0, 0) == Some(0)
  {
  }

  lemma ByteIndexVector10()
    ensures ByteIndex(512, 512, 512, Octuple, Ga, 1024, 524288, 101, 0, 0, 0) == Some(202)
  {
  }

  lemma ByteIndexVector11()
    ensures ByteIndex(512, 512, 512, Octuple, Ga, 1024, 524288, 0, 101, 0, 0) == Some(103424)
  {
  }

  lemma ByteIndexVector12()
    ensures ByteIndex(512, 512, 512, Octuple, Ga, 1024, 524288, 0, 0, 101, 0) == Some(52953088)
  {
  }

  lemma ByteIndexVector13()
    ensures ByteIndex(512, 512, 512, Sexdecuple, Rgb, 2000, 80000, 0, 0, 0, 0) == Some(0)
  {
  }

  lemma ByteIndexVector14()
    ensures ByteIndex(512, 512, 512, Sexdecuple, Rgb, 2000, 80000, 101, 0, 0, 1) == Some(608)
  {
  }

  lemma ByteIndexVector15()
    ensures ByteIndex(512, 512, 512, Sexdecuple, Rgb, 2000, 80000, 0, 101, 0, 2) == Some(202004)
  {
  }

  lemma ByteIndexVector16()
    ensures ByteIndex(512, 512, 512, Sexdecuple, Rgb, 2000, 80000, 0, 0, 101, 0) == Some(8080000)
  {
  }

  // ----- Structure of the layout -----

  /** The lane of channel `channel` lies inside its pixel: channels tile the
      pixel in order without gaps. */
  lemma ChannelLaneInPixel(depth: Depth, color: Color, channel: nat)
    requires channel < ChannelCount(color)
    ensures channel * ChannelSize(depth) + ChannelSize(depth) <= PixelSize(depth, color)
  {
    Arith.PixelEnd(channel, ChannelCount(color), ChannelSize(depth));
  }

  /** The bytes of pixel `x` of a row lie inside the row. */
  lemma PixelInRow(width: nat, depth: Depth, color: Color, x: nat)
    requires x < width
    ensures x * PixelSize(depth, color) + PixelSize(depth, color) <= RowSize(width, depth, color)
  {
    Arith.PixelEnd(x, width, PixelSize(depth, color));
  }

  /** With strides that separate rows and pages, distinct coordinates never
      share a byte index. */
  lemma ByteIndexInjective(width: nat, height: nat, pages: nat, depth: Depth, color: Color,
                           rowOffset: nat, pageOffset: nat,
                           x1: nat, y1: nat, page1: nat, channel1: nat,
                           x2: nat, y2: nat, page2: nat, channel2: nat)
    requires Separated(width, height, depth, color, rowOffset, pageOffset)
    requires ByteIndex(width, height, pages, depth, color, rowOffset, pageOffset, x1, y1, page1, channel1).Some?
    requires ByteIndex(width, height, pages, depth, color, rowOffset, pageOffset, x1, y1, page1, channel1)
          == ByteIndex(width, height, pages, depth, color, rowOffset, pageOffset, x2, y2, page2, channel2)
    ensures x1 == x2 && y1 == y2 && page1 == page2 && channel1 == channel2
  {
    var cs := ChannelSize(depth);
    var ps := PixelSize(depth, color);
    ChannelLaneInPixel(depth, color, channel1);
    ChannelLaneInPixel(depth, color, channel2);
    PixelInRow(width, depth, color, x1);
    PixelInRow(width, depth, color, x2);
    Arith.PixelEnd(y1, height, rowOffset);
    Arith.PixelEnd(y2, height, rowOffset);
    Arith.OffsetUnique(page1, y1, x1, channel1, page2, y2, x2, channel2, pageOffset, rowOffset, ps, cs);
  }

  /** With packed strides every channel lane lies inside the buffer of
      `SizeBy` bytes, whatever the channel width. */
  lemma ByteIndexByWithinSize(channelSize: nat, color: Color, width: nat, height: nat, pages: nat,
                              x: nat, y: nat, page: nat, channel: nat)
    requires ByteIndexBy(channelSize, color, width, height, pages,
                         RowSizeBy(channelSize, color, width), PageSizeBy(channelSize, color, width, height),
                         x, y, page, channel).Some?
    ensures ByteIndexBy(channelSize, color, width, height, pages,
                        RowSizeBy(channelSize, color, width), PageSizeBy(channelSize, color, width, height),
                        x, y, page, channel).value + channelSize
            <= SizeBy(channelSize, color, width, height, pages)
  {
    var ps := PixelSizeBy(channelSize, color);
    var rs := RowSizeBy(channelSize, color, width);
    var gs := PageSizeBy(channelSize, color, width, height);
    Arith.PixelEnd(channel, ChannelCount(color), channelSize);
    Arith.PixelEnd(x, width, ps);
    Arith.PixelEnd(y, height, rs);
    Arith.PixelEnd(page, pages, gs);
  }

  /** With packed strides every channel lane lies inside the buffer of
      `Size` bytes. */
  lemma ByteIndexWithinSize(width: nat, height: nat, pages: nat, depth: Depth, color: Color,
                            x: nat, y: nat, page: nat, channel: nat)
    requires ByteIndex(width, height, pages, depth, color,
                       RowSize(width, depth, color), PageSize(width, height, depth, color),
                       x, y, page, channel).Some?
    ensures ByteIndex(width, height, pages, depth, color,
                      RowSize(width, depth, color), PageSize(width, height, depth, color),
                      x, y, page, channel).value + ChannelSize(depth)
            <= Size(width, height, pages, depth, color)
  {
    ByteIndexByWithinSize(ChannelSize(depth), color, width, height, pages, x, y, page, channel);
  }
}
