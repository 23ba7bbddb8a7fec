/** rl::Bitmap in the older interface, where a bitmap reports its channel
    width in bytes rather than as a Depth and its pixels are tightly packed:
    rows one after another, pages one after another. The virtual getters
    become the fields of a value. */
module Bitmaps {
  import opened Wrappers
  import opened Memory
  import opened BitmapFormat

  datatype Bitmap = Bitmap(color: Color, width: nat, height: nat, pages: nat, channelSize: nat, data: Ptr) {

    /** Bits per channel. */
    function GetBitDepth(): (b: nat)
      ensures b == 8 * channelSize
    {
      BitDepthOfChannelSize(channelSize)
    }

    /** One gray or three colour channels, plus one for alpha. */
    function GetChannelCount(): (n: nat)
      ensures n == (if IsGray(color) then 1 else 3) + (if HasAlpha(color) then 1 else 0)
    {
      ChannelCount(color)
    }

    /** A row is `width` pixels of GetChannelCount() channels, each
        `channelSize` bytes. */
    function GetRowSize(): (n: nat)
      ensures n == width * (GetChannelCount() * channelSize)
    {
      RowSizeBy(channelSize, color, width)
    }

    /** A page is `height` rows, packed. */
    function GetPageSize(): (n: nat)
      ensures n == height * GetRowSize()
    {
      PageSizeBy(channelSize, color, width, height)
    }

    /** The bitmap is `pages` pages, packed. */
    function GetSize(): (n: nat)
      ensures n == pages * GetPageSize()
    {
      SizeBy(channelSize, color, width, height, pages)
    }

    /** Offset of channel `channel` of pixel (x, y) on page `page`, with
        packed strides. */
    function GetByteIndex(x: nat, y: nat, page: nat, channel: nat): (i: Option<nat>)
      ensures i.Some? <==> x < width && y < height && page < pages && channel < GetChannelCount()
      ensures i.Some? ==> i.value + channelSize <= GetSize()
      ensures i.Some? ==> i.value == page * GetPageSize() + y * GetRowSize() + x * PixelSizeBy(channelSize, color) + channel * channelSize
    {
      var r := ByteIndexBy(channelSize, color, width, height, pages, GetRowSize(), GetPageSize(), x, y, page, channel);
      if r.Some? then
        ByteIndexByWithinSize(channelSize, color, width, height, pages, x, y, page, channel);
        r
      else
        r
    }

    /** Address of a channel: nullptr for coordinates outside the bitmap,
        otherwise a byte of the bitmap's own buffer. */
    function GetData(x: nat, y: nat, page: nat, channel: nat): (p: Ptr)
      ensures p.At? <==> data.At? && GetByteIndex(x, y, page, channel).Some?
      ensures p.At? ==> data.addr <= p.addr && p.addr + channelSize <= data.addr + GetSize()
    {
      AddressOf(data, GetByteIndex(x, y, page, channel))
    }
  }
}
