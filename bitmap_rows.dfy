/** The row interface of the newer bitmap classes: rl::BitmapRow (the
    accessors every row has), rl::MutableBitmapRow (a row whose pixels may be
    written, with BlitRow), and the two concrete views over a row start
    address, rl::BitmapRowView and rl::MutableBitmapRowView. The virtual
    getters become the fields of a value. */
module BitmapRows {
  import opened Wrappers
  import opened Memory
  import opened BitmapFormat
  import opened RowBlit
  import Rows

  datatype BitmapRow = BitmapRow(start: Ptr, width: nat, depth: Depth, color: Color) {

    /** 1, 2 or 4 bytes, an eighth of the bit depth. */
    function GetChannelSize(): (n: nat)
      ensures n == 1 || n == 2 || n == 4
      ensures 8 * n == BitDepth(depth)
    {
      ChannelSize(depth)
    }

    function GetBitDepth(): (b: nat)
      ensures b == 8 * GetChannelSize()
    {
      BitDepth(depth)
    }

    /** The row is `width` pixels. */
    function GetSize(): (n: nat)
      ensures n == width * PixelSize(depth, color)
    {
      RowSize(width, depth, color)
    }

    /** BitmapRow::GetByteIndex as written: it addresses the row as a bitmap
        of height 0 and 0 pages, so no pixel is ever in range. */
    function GetByteIndexAsWritten(x: nat, channel: nat): (i: Option<nat>)
      ensures i == None
    {
      ByteIndex(width, 0, 0, depth, color, 0, 0, x, 0, 0, channel)
    }

    /** BitmapRow::GetData(x, channel) as written: always nullptr. */
    function GetDataAsWritten(x: nat, channel: nat): (p: Ptr)
      ensures p == Null
    {
      AddressOf(start, GetByteIndexAsWritten(x, channel))
    }

    /** MutableBitmapRow::GetMutableData(x, channel) as written: the same
        address as GetData as written. */
    function GetMutableDataAsWritten(x: nat, channel: nat): (p: Ptr)
      ensures p == GetDataAsWritten(x, channel)
    {
      AddressOf(start, GetByteIndexAsWritten(x, channel))
    }

    /** With height 0 no pixel is ever in range: every lookup fails and every
        per-pixel address is nullptr, for every row, pixel and channel. */
    lemma AsWrittenFindsNoPixel(x: nat, channel: nat)
      ensures GetByteIndexAsWritten(x, channel) == None
      ensures GetDataAsWritten(x, channel) == Null
      ensures GetMutableDataAsWritten(x, channel) == Null
    {
    }

    /** The same row with the one-row addressing of rl::Bitmap::Row. */
    function Layout(): Rows.Row {
      Rows.Row(start, width, depth, color)
    }

    /** The corrected lookup: height 1 and one page, as rl::Bitmap::Row
        and rl::Bitmap::Row::View address their rows. */
    function GetByteIndex(x: nat, channel: nat): (i: Option<nat>)
      ensures i.Some? <==> x < width && channel < ChannelCount(color)
      ensures i.Some? ==> i.value + ChannelSize(depth) <= GetSize()
    {
      Layout().GetByteIndex(x, channel)
    }

    /** The corrected BitmapRow::GetData(x, channel). */
    function GetData(x: nat, channel: nat): (p: Ptr)
      ensures p.At? <==> start.At? && x < width && channel < ChannelCount(color)
      ensures p.At? ==> p.addr == start.addr + x * PixelSize(depth, color) + channel * ChannelSize(depth)
    {
      AddressOf(start, GetByteIndex(x, channel))
    }

    /** The corrected MutableBitmapRow::GetMutableData(x, channel): the same
        address as GetData, writable. */
    function GetMutableData(x: nat, channel: nat): (p: Ptr)
      ensures p == GetData(x, channel)
      ensures p.At? ==> p.addr + ChannelSize(depth) <= start.addr + GetSize()
    {
      AddressOf(start, GetByteIndex(x, channel))
    }

    /** The memory MutableBitmapRow::BlitRow leaves: unchanged when the
        widths differ, and otherwise the pixels of `row` converted into this
        row, in the order the channel widths choose. */
    function BlitRowResult(m: seq<Byte>, row: BitmapRow, conv: Converter): (r: seq<Byte>)
      requires row.width == width ==> Layout().Backed(|m|) && row.Layout().Backed(|m|)
      requires row.width == width ==> Produces(conv, PixelSize(depth, color))
      ensures |r| == |m|
      ensures row.width != width ==> r == m
      ensures row.width == width ==> Layout().BlitFits(row.Layout(), |m|)
    {
      if row.width != width then m
      else
        Layout().BlitFitsWhenBacked(row.Layout(), |m|);
        Run(m, Layout().BlitGeometry(row.Layout()), conv, AscendingFor(row.GetChannelSize(), GetChannelSize()))
    }

    /** MutableBitmapRow::BlitRow, with the corrected addressing: convert the
        pixels of `row` into this row; throws when the widths differ. */
    method BlitRow(mem: array<Byte>, row: BitmapRow, conv: Converter) returns (r: Outcome<BitmapError>)
      requires row.width == width ==> Layout().Backed(mem.Length) && row.Layout().Backed(mem.Length)
      requires row.width == width ==> Produces(conv, PixelSize(depth, color))
      modifies mem
      ensures r.Fail? <==> row.width != width
      ensures r.Fail? ==> r.error == DifferentWidth
      ensures mem[..] == BlitRowResult(old(mem[..]), row, conv)
    {
      if row.width != width {
        return Fail(DifferentWidth);
      }
      Layout().BlitFitsWhenBacked(row.Layout(), mem.Length);
      ConvertRow(mem, Layout().BlitGeometry(row.Layout()), conv, AscendingFor(row.GetChannelSize(), GetChannelSize()));
      return Pass;
    }

    /** A blit between rows that are separate, or in place within one row of
        the same colour, leaves the converted source row in this row and
        every other byte as it was. */
    lemma BlitRowMatchesReference(m: seq<Byte>, row: BitmapRow, conv: Converter)
      requires row.width == width && Layout().Backed(|m|) && row.Layout().Backed(|m|)
      requires Produces(conv, PixelSize(depth, color))
      requires Layout().SeparateFrom(row.Layout()) || (row.start == start && row.color == color)
      ensures Layout().BlitFits(row.Layout(), |m|)
      ensures BlitRowResult(m, row, conv) == Reference(m, Layout().BlitGeometry(row.Layout()), conv)
    {
      Layout().BlitMatchesReference(m, row.Layout(), conv);
    }
  }

  /** rl::BitmapRowView: a read-only row starting at `rowStart`. */
  datatype BitmapRowView = BitmapRowView(rowStart: Ptr, width: nat, depth: Depth, color: Color) {

    /** The start address: that of channel 0 of pixel 0 of a non-empty row. */
    function GetData(): (p: Ptr)
      ensures width > 0 ==> p == BitmapRow(rowStart, width, depth, color).GetData(0, 0)
    {
      rowStart
    }

    /** The view through the BitmapRow interface: the same start, width and
        format, so each pixel address is the view's start plus its offset. */
    function AsBitmapRow(): (r: BitmapRow)
      ensures r.start == GetData() && r.width == width && r.depth == depth && r.color == color
    {
      BitmapRow(rowStart, width, depth, color)
    }
  }

  /** rl::MutableBitmapRowView: a writable row starting at `rowStart`. */
  datatype MutableBitmapRowView = MutableBitmapRowView(rowStart: Ptr, width: nat, depth: Depth, color: Color) {

    /** The start address: that of channel 0 of pixel 0 of a non-empty row. */
    function GetData(): (p: Ptr)
      ensures width > 0 ==> p == BitmapRow(rowStart, width, depth, color).GetData(0, 0)
    {
      rowStart
    }

    /** The writable start address is the readable one. */
    function GetMutableData(): (p: Ptr)
      ensures p == GetData()
    {
      rowStart
    }

    /** The view through the BitmapRow interface: the same start, width and
        format. */
    function AsBitmapRow(): (r: BitmapRow)
      ensures r.start == GetMutableData() && r.width == width && r.depth == depth && r.color == color
    {
      BitmapRow(rowStart, width, depth, color)
    }
  }
}
