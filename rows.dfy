/** rl::Bitmap::Row, a mutable row of pixels, and rl::Bitmap::Row::View, a
    read-only one: a start address, a width and a pixel format. A pixel is
    addressed as in a one-row, one-page bitmap. */
module Rows {
  import opened Wrappers
  import opened Memory
  import opened BitmapFormat
  import opened RowBlit
  import Arith

  datatype Row = Row(data: Ptr, width: nat, depth: Depth, color: Color) {

    /** 1, 2 or 4 bytes, an eighth of the bit depth. */
    function GetChannelSize(): (n: nat)
      ensures n == 1 || n == 2 || n == 4
      ensures 8 * n == BitDepth(depth)
    {
      ChannelSize(depth)
    }

    function GetBitDepth(): (b: nat)
      ensures b == 8 * GetChannelSize()
    {
      BitDepth(depth)
    }

    /** The row is `width` pixels. */
    function GetSize(): (n: nat)
      ensures n == width * PixelSize(depth, color)
    {
      RowSize(width, depth, color)
    }

    /** Offset of channel `channel` of pixel x from the start of the row. */
    function GetByteIndex(x: nat, channel: nat): (i: Option<nat>)
      ensures i.Some? <==> x < width && channel < ChannelCount(color)
      ensures i.Some? ==> i.value == x * PixelSize(depth, color) + channel * ChannelSize(depth)
      ensures i.Some? ==> i.value + ChannelSize(depth) <= GetSize()
    {
      var r := ByteIndex(width, 1, 1, depth, color, 0, 0, x, 0, 0, channel);
      if r.Some? then
        ChannelLaneInPixel(depth, color, channel);
        PixelInRow(width, depth, color, x);
        r
      else
        r
    }

    /** Address of a channel: nullptr outside the row, otherwise a byte of
        the row. */
    function GetData(x: nat, channel: nat): (p: Ptr)
      ensures p.At? <==> data.At? && x < width && channel < ChannelCount(color)
      ensures p.At? ==> p.addr == data.addr + x * PixelSize(depth, color) + channel * ChannelSize(depth)
      ensures p.At? ==> p.addr + ChannelSize(depth) <= data.addr + GetSize()
    {
      AddressOf(data, GetByteIndex(x, channel))
    }

    /** The row lies inside a memory of `n` bytes; a non-empty row has an
        address. */
    predicate Backed(n: nat) {
      (width > 0 ==> data.At?) && (data.At? ==> data.addr + GetSize() <= n)
    }

    /** Row::Blit: convert the pixels of `row` into this row. Throws when the
        widths differ. The loop runs ascending when a source channel is at
        least as wide as a destination channel and descending otherwise, so
        a row converted in place into a wider format does not overwrite
        pixels it has still to read. */
    method Blit(mem: array<Byte>, row: RowView, conv: Converter) returns (r: Outcome<BitmapError>)
      requires row.width == width ==> Backed(mem.Length) && row.AsRow().Backed(mem.Length)
      requires row.width == width ==> Produces(conv, PixelSize(depth, color))
      modifies mem
      ensures row.width != width ==> r == Fail(DifferentWidth) && mem[..] == old(mem[..])
      ensures row.width == width ==> r == Pass && BlitFits(row.AsRow(), mem.Length)
      ensures row.width == width ==>
        mem[..] == Run(old(mem[..]), BlitGeometry(row.AsRow()), conv, AscendingFor(row.GetChannelSize(), GetChannelSize()))
    {
      if row.width != width {
        return Fail(DifferentWidth);
      }
      BlitFitsWhenBacked(row.AsRow(), mem.Length);
      ConvertRow(mem, BlitGeometry(row.AsRow()), conv, AscendingFor(row.GetChannelSize(), GetChannelSize()));
      return Pass;
    }

    /** The two rows of a blit from `source` into this row. */
    function BlitGeometry(source: Row): Geometry {
      Geometry(AddrOr0(source.data), AddrOr0(data), width, PixelSize(source.depth, source.color), PixelSize(depth, color))
    }

    predicate BlitFits(source: Row, n: nat) {
      Fits(BlitGeometry(source), n)
    }

    lemma BlitFitsWhenBacked(source: Row, n: nat)
      requires source.width == width && Backed(n) && source.Backed(n)
      ensures BlitFits(source, n)
    {
      Arith.TimesIsProduct(width, PixelSize(source.depth, source.color));
      Arith.TimesIsProduct(width, PixelSize(depth, color));
    }

    /** The rows of a blit occupy separate bytes. */
    predicate SeparateFrom(source: Row) {
      source.data.At? && data.At? &&
      (source.data.addr + source.GetSize() <= data.addr || data.addr + GetSize() <= source.data.addr)
    }

    /** Row::Blit computes the converted source row, whether the rows are
        separate or the row is converted in place into a format of the same
        colour: the destination row then holds the converted source pixels
        and nothing else in memory changes. */
    lemma BlitMatchesReference(m: seq<Byte>, source: Row, conv: Converter)
      requires source.width == width && Backed(|m|) && source.Backed(|m|)
      requires Produces(conv, PixelSize(depth, color))
      requires SeparateFrom(source) || (source.data == data && source.color == color)
      ensures BlitFits(source, |m|)
      ensures Run(m, BlitGeometry(source), conv, AscendingFor(source.GetChannelSize(), GetChannelSize()))
           == Reference(m, BlitGeometry(source), conv)
    {
      BlitFitsWhenBacked(source, |m|);
      var g := BlitGeometry(source);
      Arith.TimesIsProduct(width, g.srcPixel);
      Arith.TimesIsProduct(width, g.dstPixel);
      if !SeparateFrom(source) {
        var n := ChannelCount(color);
        if source.GetChannelSize() >= GetChannelSize() {
          Arith.MulLeft(GetChannelSize(), source.GetChannelSize(), n);
        } else {
          Arith.MulLeft(source.GetChannelSize(), GetChannelSize(), n);
        }
      }
      RunMatchesReference(m, g, conv, AscendingFor(source.GetChannelSize(), GetChannelSize()));
    }

    /** The descending loop as written starts at x = width, where the source
        row has no pixel: the first source pointer it reads through is
        nullptr, whatever the width. */
    lemma DescendingAsWrittenReadsNull(x: int)
      requires x == RowBlit.DescendingOrderAsWritten(width)[0]
      ensures x == width && GetData(x, 0) == Null
    {
      DescendingAsWrittenStartsPastRow(width);
    }
  }

  /** rl::Bitmap::Row::View: the fields are reassigned by operator=. */
  class RowView {
    var data: Ptr
    var width: nat
    var depth: Depth
    var color: Color

    constructor (data: Ptr, width: nat, depth: Depth, color: Color)
      ensures this.data == data && this.width == width && this.depth == depth && this.color == color
    {
      this.data := data;
      this.width := width;
      this.depth := depth;
      this.color := color;
    }

    /** View(const Row&): a view of the same pixels. */
    constructor FromRow(row: Row)
      ensures AsRow() == row
    {
      data := row.data;
      width := row.width;
      depth := row.depth;
      color := row.color;
    }

    /** operator=(const Row&): the view now shows the row. */
    method Assign(row: Row)
      modifies this
      ensures AsRow() == row
    {
      data := row.data;
      width := row.width;
      depth := row.depth;
      color := row.color;
    }

    /** The row the view shows; every accessor of the view is the row's. */
    function AsRow(): Row
      reads this
    {
      Row(data, width, depth, color)
    }

    /** 1, 2 or 4 bytes, an eighth of the bit depth. */
    function GetChannelSize(): (n: nat)
      reads this
      ensures n == 1 || n == 2 || n == 4
      ensures 8 * n == BitDepth(depth)
    {
      ChannelSize(depth)
    }

    function GetBitDepth(): (b: nat)
      reads this
      ensures b == 8 * GetChannelSize()
    {
      AsRow().GetBitDepth()
    }

    /** The row is `width` pixels. */
    function GetSize(): (n: nat)
      reads this
      ensures n == width * PixelSize(depth, color)
    {
      AsRow().GetSize()
    }

    /** The offset in a one-row, one-page bitmap of this width. */
    function GetByteIndex(x: nat, channel: nat): (i: Option<nat>)
      reads this
      ensures i.Some? <==> x < width && channel < ChannelCount(color)
      ensures i.Some? ==> i.value == x * PixelSize(depth, color) + channel * ChannelSize(depth)
      ensures i.Some? ==> i.value + ChannelSize(depth) <= GetSize()
    {
      AsRow().GetByteIndex(x, channel)
    }

    /** nullptr outside the row, otherwise a byte of the row. */
    function GetData(x: nat, channel: nat): (p: Ptr)
      reads this
      ensures p.At? <==> data.At? && x < width && channel < ChannelCount(color)
      ensures p.At? ==> p.addr == data.addr + x * PixelSize(depth, color) + channel * ChannelSize(depth)
      ensures p.At? ==> p.addr + ChannelSize(depth) <= data.addr + GetSize()
    {
      AsRow().GetData(x, channel)
    }
  }
}
