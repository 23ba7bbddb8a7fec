/** rl::MutableBitmap, the writable bitmap interface of the newer revision,
    and rl::MutableBitmapView, a writable bitmap over borrowed pixels. A
    bitmap is its base pointer, its dimensions, its format and its two
    strides; the virtual getters of the C++ classes are the fields. */
module MutableBitmaps {
  import opened Wrappers
  import opened Memory
  import opened BitmapFormat
  import opened RowBlit
  import opened BitmapRows
  import Arith

  /** rl::cell_box2<int>: a box with origin (x, y) and extent width × height. */
  datatype CellBox = CellBox(x: int, y: int, width: int, height: int)

  /** Cell (cx, cy) is one of the cells of box `b`. */
  predicate InBox(b: CellBox, cx: int, cy: int) {
    b.x <= cx < b.x + b.width && b.y <= cy < b.y + b.height
  }

  /** rl::does_contain for boxes: `inner` lies inside `outer`, so every cell
      of `inner` is a cell of `outer`. */
  predicate DoesContain(outer: CellBox, inner: CellBox)
    ensures DoesContain(outer, inner) ==> forall cx, cy :: InBox(inner, cx, cy) ==> InBox(outer, cx, cy)
  {
    outer.x <= inner.x && outer.y <= inner.y &&
    inner.x + inner.width <= outer.x + outer.width &&
    inner.y + inner.height <= outer.y + outer.height
  }

  /** For a box with cells, containment is exactly containment of its
      cells; its first and last cells decide it. */
  lemma DoesContainIffCells(outer: CellBox, inner: CellBox)
    requires inner.width > 0 && inner.height > 0
    ensures DoesContain(outer, inner) <==> forall cx, cy :: InBox(inner, cx, cy) ==> InBox(outer, cx, cy)
  {
    if forall cx, cy :: InBox(inner, cx, cy) ==> InBox(outer, cx, cy) {
      assert InBox(inner, inner.x, inner.y);
      assert InBox(inner, inner.x + inner.width - 1, inner.y + inner.height - 1);
    }
  }

  /** A bitmap whose pixels start at `data`: rows `rowOffset` bytes apart,
      pages `pageOffset` bytes apart. */
  datatype MutableBitmap = MutableBitmap(data: Ptr, width: nat, height: nat, pageCount: nat,
                                         depth: Depth, color: Color, rowOffset: nat, pageOffset: nat)
  {
    /** The bytes of one pixel: its channels, each ChannelSize bytes. */
    function GetPixelSize(): (n: nat)
      ensures n == ChannelCount(color) * ChannelSize(depth)
      ensures 1 <= n <= 16
    {
      PixelSize(depth, color)
    }

    /** rl::Bitmap::GetByteIndex over this bitmap's dimensions and strides. */
    function GetByteIndex(x: nat, y: nat, page: nat, channel: nat): (i: Option<nat>)
      ensures i.Some? <==> x < width && y < height && page < pageCount && channel < ChannelCount(color)
      ensures i.Some? ==> i.value == page * pageOffset + y * rowOffset + x * PixelSize(depth, color)
                                     + channel * ChannelSize(depth)
    {
      ByteIndex(width, height, pageCount, depth, color, rowOffset, pageOffset, x, y, page, channel)
    }

    /** The bytes from the first pixel to the end of the last row. */
    function Extent(): nat {
      if width == 0 || height == 0 || pageCount == 0 then 0
      else
        var lastPage: nat := pageCount - 1;
        var lastRow: nat := height - 1;
        var pages: nat := lastPage * pageOffset;
        var rows: nat := lastRow * rowOffset;
        pages + rows + RowSize(width, depth, color)
    }

    /** The pixels lie inside a memory of `n` bytes; a bitmap with pixels
        has an address. */
    predicate Backed(n: nat) {
      (Extent() > 0 ==> data.At?) && (data.At? ==> data.addr + Extent() <= n)
    }

    /** MutableBitmap::blit_fits: the page exists and the box lies inside
        the bitmap's (0, 0, width, height) box. */
    predicate BlitFits(box: CellBox, page: nat)
      ensures BlitFits(box, page) ==>
        page < pageCount && forall cx, cy :: InBox(box, cx, cy) ==> 0 <= cx < width && 0 <= cy < height
    {
      page < pageCount && DoesContain(CellBox(0, 0, width, height), box)
    }

    /** MutableBitmap::GetMutableData(x, y, page, channel): nullptr exactly
        when the coordinates are out of range, else base + byte index. */
    function GetMutableData(x: nat, y: nat, page: nat, channel: nat): (p: Ptr)
      ensures p.At? <==> data.At? && x < width && y < height && page < pageCount && channel < ChannelCount(color)
      ensures p.At? ==> p.addr == data.addr + page * pageOffset + y * rowOffset + x * PixelSize(depth, color)
                                 + channel * ChannelSize(depth)
    {
      AddressOf(data, GetByteIndex(x, y, page, channel))
    }

    /** Every pixel channel of a box that fits on page `page` has an address. */
    lemma BlitFitsAddressesBox(box: CellBox, page: nat, i: nat, j: nat, channel: nat)
      requires BlitFits(box, page) && data.At?
      requires i < box.width && j < box.height && channel < ChannelCount(color)
      ensures box.x >= 0 && box.y >= 0
      ensures GetMutableData(box.x + i, box.y + j, page, channel).At?
    {
    }

    /** MutableBitmap::GetMutableView(x, y, page, width, height, page_count):
        a view starting at pixel (x, y, page) with this bitmap's format and
        strides; the extent is not checked against this bitmap. The view is
        built with the corrected constructor that keeps its pointer. */
    function GetMutableSubView(x: nat, y: nat, page: nat, w: nat, h: nat, pc: nat): (v: MutableBitmap)
      ensures v.data == GetMutableData(x, y, page, 0)
      ensures v.width == w && v.height == h && v.pageCount == pc
      ensures v.depth == depth && v.color == color
      ensures v.rowOffset == rowOffset && v.pageOffset == pageOffset
    {
      NewMutableBitmapView(GetMutableData(x, y, page, 0), w, h, pc, depth, color, Some(rowOffset), Some(pageOffset))
    }

    /** MutableBitmap::GetMutableView(): the view of the whole bitmap. */
    function GetMutableView(): (v: MutableBitmap)
      ensures v == GetMutableSubView(0, 0, 0, width, height, pageCount)
      ensures v.GetByteIndex(0, 0, 0, 0) == GetByteIndex(0, 0, 0, 0)
    {
      GetMutableSubView(0, 0, 0, width, height, pageCount)
    }

    /** A sub-view addresses its parent's pixels: pixel (i, j, k) of the view
        is pixel (x + i, y + j, page + k) of this bitmap, wherever both are in
        range. */
    lemma SubViewAddressesParent(x: nat, y: nat, page: nat, w: nat, h: nat, pc: nat,
                                 i: nat, j: nat, k: nat, channel: nat)
      requires i < w && j < h && k < pc
      requires x + i < width && y + j < height && page + k < pageCount
      ensures GetMutableSubView(x, y, page, w, h, pc).GetMutableData(i, j, k, channel)
           == GetMutableData(x + i, y + j, page + k, channel)
    {
      var v := GetMutableSubView(x, y, page, w, h, pc);
      var ps := PixelSize(depth, color);
      assert (page + k) * pageOffset == page * pageOffset + k * pageOffset;
      assert (y + j) * rowOffset == y * rowOffset + j * rowOffset;
      assert (x + i) * ps == x * ps + i * ps;
    }

    /** The view of the whole bitmap addresses every pixel where the bitmap
        does. */
    lemma WholeViewAddressesParent(x: nat, y: nat, page: nat, channel: nat)
      ensures GetMutableView().GetMutableData(x, y, page, channel) == GetMutableData(x, y, page, channel)
    {
      if x < width && y < height && page < pageCount {
        SubViewAddressesParent(0, 0, 0, width, height, pageCount, x, y, page, channel);
      }
    }

    /** The view constructor as written, applied the same way: every pixel of
        every sub-view is nullptr, whatever the parent's pointer. */
    lemma SubViewAsWrittenHasNoPixels(x: nat, y: nat, page: nat, w: nat, h: nat, pc: nat,
                                      i: nat, j: nat, k: nat, channel: nat)
      ensures NewMutableBitmapViewAsWritten(GetMutableData(x, y, page, 0), w, h, pc, depth, color,
                                            Some(rowOffset), Some(pageOffset)).GetMutableData(i, j, k, channel) == Null
    {
    }

    /** MutableBitmap::GetMutableRowView(y, page): the full-width row at
        (0, y, page) in this bitmap's format. */
    function GetMutableRowView(y: nat, page: nat): (r: MutableBitmapRowView)
      ensures r.width == width && r.depth == depth && r.color == color
      ensures r.rowStart.At? <==> data.At? && width > 0 && y < height && page < pageCount
      ensures r.rowStart.At? ==> r.rowStart.addr == data.addr + page * pageOffset + y * rowOffset
    {
      MutableBitmapRowView(GetMutableData(0, y, page, 0), width, depth, color)
    }

    /** Pixel x of row (y, page) is pixel (x, y, page) of the bitmap. */
    lemma RowViewAddressesBitmap(y: nat, page: nat, x: nat, channel: nat)
      ensures GetMutableRowView(y, page).AsBitmapRow().GetData(x, channel) == GetMutableData(x, y, page, channel)
    {
    }

    /** MutableBitmap::GetModifiedMutableRowView(y, page, depth_o, color_o):
        row (y, page) read in another format. Throws when a pixel of the
        substituted format is larger than a real one. */
    function GetModifiedMutableRowView(y: nat, page: nat, depthO: Option<Depth>, colorO: Option<Color>)
      : (r: Result<MutableBitmapRowView, BitmapError>)
      ensures r.Err? <==> PixelSize(depthO.GetOr(depth), colorO.GetOr(color)) > GetPixelSize()
      ensures r.Err? ==> r.error == ModifiedRowTooLarge
      ensures r.Ok? ==> r.value.rowStart == GetMutableRowView(y, page).rowStart && r.value.width == width
      ensures r.Ok? ==> r.value.depth == depthO.GetOr(depth) && r.value.color == colorO.GetOr(color)
      ensures r.Ok? ==> r.value.AsBitmapRow().GetSize() <= GetMutableRowView(y, page).AsBitmapRow().GetSize()
    {
      var d := depthO.GetOr(depth);
      var c := colorO.GetOr(color);
      if PixelSize(d, c) > GetPixelSize() then
        Err(ModifiedRowTooLarge)
      else
        Arith.MulRight(width, PixelSize(d, c), GetPixelSize());
        Ok(MutableBitmapRowView(GetMutableData(0, y, page, 0), width, d, c))
    }

    /** Read with the same colour, a row may take any depth whose channels
        are no wider than the real ones, and no other. */
    lemma ModifiedDepthAllowedIff(y: nat, page: nat, d: Depth)
      ensures GetModifiedMutableRowView(y, page, Some(d), None).Ok? <==> ChannelSize(d) <= ChannelSize(depth)
    {
      var n := ChannelCount(color);
      if ChannelSize(d) <= ChannelSize(depth) {
        Arith.MulLeft(ChannelSize(d), ChannelSize(depth), n);
      } else {
        Arith.MulLeft(ChannelSize(depth) + 1, ChannelSize(d), n);
      }
    }

    /** The in-place PNG load reads a Normalized row as Sexdecuple rows of
        the same colour; that reinterpretation never throws. */
    lemma NormalizedReadsAsSexdecuple(y: nat, page: nat)
      requires depth == Normalized
      ensures GetModifiedMutableRowView(y, page, Some(Sexdecuple), Some(color)).Ok?
    {
      ModifiedDepthAllowedIff(y, page, Sexdecuple);
    }

    /** rl::Bitmap::GetRowView(y, page), which this model does not include,
        taken to be the read-only row at (0, y, page) in this format. */
    function GetRowView(y: nat, page: nat): (v: BitmapRowView)
      ensures v.width == width && v.depth == depth && v.color == color
      ensures v.rowStart == GetMutableRowView(y, page).rowStart
    {
      BitmapRowView(GetMutableData(0, y, page, 0), width, depth, color)
    }

    /** The row of `w` pixels that starts at pixel (x, y + j, page + k). */
    function PlacedRow(x: nat, y: nat, page: nat, w: nat, j: nat, k: nat): BitmapRow {
      BitmapRow(GetMutableData(x, y + j, page + k, 0), w, depth, color)
    }

    /** A row of a backed bitmap that stays inside it is backed too. */
    lemma PlacedRowBacked(n: nat, x: nat, y: nat, page: nat, w: nat, j: nat, k: nat)
      requires Backed(n)
      requires x + w <= width && y + j < height && page + k < pageCount
      ensures PlacedRow(x, y, page, w, j, k).Layout().Backed(n)
    {
      var r := PlacedRow(x, y, page, w, j, k);
      var ps := PixelSize(depth, color);
      assert r.Layout().GetSize() == w * ps;
      if w > 0 {
        NonEmptyHasExtent();
      }
      if r.start.At? {
        Arith.RowEndWithinExtent(page + k, pageCount, pageOffset, y + j, height, rowOffset, x, w, width, ps);
      }
    }

    /** A bitmap with pixels occupies at least one byte. */
    lemma NonEmptyHasExtent()
      requires width > 0 && height > 0 && pageCount > 0
      ensures Extent() > 0
    {
      var ps := PixelSize(depth, color);
      Arith.MulLeft(1, ChannelSize(depth), ChannelCount(color));
      Arith.MulLeft(1, width, ps);
      Arith.MulLeft(0, pageCount - 1, pageOffset);
      Arith.MulLeft(0, height - 1, rowOffset);
    }

    /** The rows of a source bitmap that is backed are backed. */
    lemma RowViewBacked(n: nat, j: nat, k: nat)
      requires Backed(n) && j < height && k < pageCount
      ensures GetRowView(j, k).AsBitmapRow().Layout().Backed(n)
    {
      PlacedRowBacked(n, 0, 0, 0, width, j, k);
    }

    /** The corrected containment test: every page of the blitted bitmap,
        not only the first, exists. */
    predicate BlitFitsPages(box: CellBox, page: nat, pages: nat) {
      BlitFits(box, page) && page + pages <= pageCount
    }

    /** The outcome of MutableBitmap::BlitBitmap as written: it throws when
        the box does not fit, and otherwise when the source has a row and its
        width differs from this bitmap's, since every destination row is a
        full-width row. */
    function BlitBitmapOutcomeAsWritten(bitmap: MutableBitmap, x: nat, y: nat, page: nat): (r: Outcome<BitmapError>)
      ensures r.Pass? <==> BlitFits(CellBox(x, y, bitmap.width, bitmap.height), page) &&
                           (bitmap.width == width || bitmap.height == 0 || bitmap.pageCount == 0)
      ensures r.Fail? ==> (r.error == BlitOutOfBitmap <==> !BlitFits(CellBox(x, y, bitmap.width, bitmap.height), page))
      ensures r.Fail? ==> r.error == BlitOutOfBitmap || r.error == DifferentWidth
    {
      if !BlitFits(CellBox(x, y, bitmap.width, bitmap.height), page) then Fail(BlitOutOfBitmap)
      else if bitmap.width != width && bitmap.height > 0 && bitmap.pageCount > 0 then Fail(DifferentWidth)
      else Pass
    }

    /** As written, a blit of a narrower bitmap with pixels fails even where
        it fits: the destination row ignores x and takes this full width. */
    lemma BlitAsWrittenRejectsNarrowSource(bitmap: MutableBitmap, x: nat, y: nat, page: nat)
      requires BlitFits(CellBox(x, y, bitmap.width, bitmap.height), page)
      requires bitmap.width < width && bitmap.height > 0 && bitmap.pageCount > 0
      ensures BlitBitmapOutcomeAsWritten(bitmap, x, y, page) == Fail(DifferentWidth)
    {
    }

    /** The corrected outcome: a blit that fits never fails. */
    function BlitBitmapOutcome(bitmap: MutableBitmap, x: nat, y: nat, page: nat): (r: Outcome<BitmapError>)
      ensures r.Pass? <==> BlitFitsPages(CellBox(x, y, bitmap.width, bitmap.height), page, bitmap.pageCount)
      ensures r.Fail? ==> r.error == BlitOutOfBitmap
    {
      if BlitFitsPages(CellBox(x, y, bitmap.width, bitmap.height), page, bitmap.pageCount) then Pass
      else Fail(BlitOutOfBitmap)
    }

    /** The rows of a blit of `bitmap` into rows of `w` pixels starting at
        (x, y + j, page + k) lie in this bitmap, and both bitmaps lie in a
        memory of `n` bytes. */
    predicate PlacementFits(n: nat, bitmap: MutableBitmap, x: nat, y: nat, page: nat, w: nat) {
      Backed(n) && bitmap.Backed(n) &&
      (w == bitmap.width && bitmap.height > 0 && bitmap.pageCount > 0 ==>
        x + w <= width && y + bitmap.height <= height && page + bitmap.pageCount <= pageCount)
    }

    /** Source row (j, k) and its destination row lie in memory, where the
        widths agree and the row is blitted. */
    predicate RowReady(n: nat, bitmap: MutableBitmap, x: nat, y: nat, page: nat, w: nat, j: nat, k: nat) {
      w == bitmap.width ==>
      PlacedRow(x, y, page, w, j, k).Layout().Backed(n) && bitmap.GetRowView(j, k).AsBitmapRow().Layout().Backed(n)
    }

    /** Everything the row blits of BlitBitmap need: the rows of the
        placement lie in memory and the converter makes pixels of this
        format. */
    ghost predicate RowsReady(n: nat, bitmap: MutableBitmap, x: nat, y: nat, page: nat, w: nat, conv: Converter) {
      PlacementFits(n, bitmap, x, y, page, w) && Produces(conv, GetPixelSize())
    }

    /** Each source row of a ready placement, and its destination row, lie
        in memory. */
    lemma RowReadyWhenRowsReady(n: nat, bitmap: MutableBitmap, x: nat, y: nat, page: nat, w: nat, conv: Converter,
                                j: nat, k: nat)
      requires RowsReady(n, bitmap, x, y, page, w, conv)
      requires j < bitmap.height && k < bitmap.pageCount
      ensures RowReady(n, bitmap, x, y, page, w, j, k)
    {
      if w == bitmap.width {
        PlacedRowBacked(n, x, y, page, w, j, k);
        bitmap.RowViewBacked(n, j, k);
      }
    }

    /** Memory after source row (j, k) of `bitmap` is blitted into its row. */
    function RowBlitted(m: seq<Byte>, bitmap: MutableBitmap, x: nat, y: nat, page: nat, w: nat,
                        conv: Converter, j: nat, k: nat): (r: seq<Byte>)
      requires RowsReady(|m|, bitmap, x, y, page, w, conv)
      requires j < bitmap.height && k < bitmap.pageCount
      ensures |r| == |m|
      ensures w != bitmap.width ==> r == m
    {
      RowReadyWhenRowsReady(|m|, bitmap, x, y, page, w, conv, j, k);
      PlacedRow(x, y, page, w, j, k).BlitRowResult(m, bitmap.GetRowView(j, k).AsBitmapRow(), conv)
    }

    /** Memory after rows 0 .. j-1 of page k are blitted, in order. */
    function RowsBlitted(m: seq<Byte>, bitmap: MutableBitmap, x: nat, y: nat, page: nat, w: nat,
                         conv: Converter, k: nat, j: nat): (r: seq<Byte>)
      requires RowsReady(|m|, bitmap, x, y, page, w, conv)
      requires j <= bitmap.height && k < bitmap.pageCount
      ensures |r| == |m|
      decreases j
    {
      if j == 0 then m
      else RowBlitted(RowsBlitted(m, bitmap, x, y, page, w, conv, k, j - 1), bitmap, x, y, page, w, conv, j - 1, k)
    }

    /** Memory after every row of pages 0 .. k-1 is blitted, page by page. */
    function PagesBlitted(m: seq<Byte>, bitmap: MutableBitmap, x: nat, y: nat, page: nat, w: nat,
                          conv: Converter, k: nat): (r: seq<Byte>)
      requires RowsReady(|m|, bitmap, x, y, page, w, conv)
      requires k <= bitmap.pageCount
      ensures |r| == |m|
      decreases k
    {
      if k == 0 then m
      else RowsBlitted(PagesBlitted(m, bitmap, x, y, page, w, conv, k - 1), bitmap, x, y, page, w, conv, k - 1, bitmap.height)
    }

    /** Rows of another width than the source's are never written. */
    lemma {:induction false} RowsBlittedMismatch(m: seq<Byte>, bitmap: MutableBitmap, x: nat, y: nat, page: nat, w: nat,
                                                 conv: Converter, k: nat, j: nat)
      requires RowsReady(|m|, bitmap, x, y, page, w, conv)
      requires j <= bitmap.height && k < bitmap.pageCount && w != bitmap.width
      ensures RowsBlitted(m, bitmap, x, y, page, w, conv, k, j) == m
      decreases j
    {
      if j > 0 {
        RowsBlittedMismatch(m, bitmap, x, y, page, w, conv, k, j - 1);
      }
    }

    lemma {:induction false} PagesBlittedMismatch(m: seq<Byte>, bitmap: MutableBitmap, x: nat, y: nat, page: nat, w: nat,
                                                  conv: Converter, k: nat)
      requires RowsReady(|m|, bitmap, x, y, page, w, conv)
      requires k <= bitmap.pageCount && w != bitmap.width
      ensures PagesBlitted(m, bitmap, x, y, page, w, conv, k) == m
      decreases k
    {
      if k > 0 {
        PagesBlittedMismatch(m, bitmap, x, y, page, w, conv, k - 1);
        RowsBlittedMismatch(m, bitmap, x, y, page, w, conv, k - 1, bitmap.height);
      }
    }

    /** A width mismatch found on the first page leaves memory as it was,
        which is all of PagesBlitted. */
    lemma FirstPageMismatch(m: seq<Byte>, bitmap: MutableBitmap, x: nat, y: nat, page: nat, w: nat, conv: Converter)
      requires RowsReady(|m|, bitmap, x, y, page, w, conv)
      requires 0 < bitmap.pageCount && w != bitmap.width
      ensures RowsBlitted(PagesBlitted(m, bitmap, x, y, page, w, conv, 0), bitmap, x, y, page, w, conv, 0, bitmap.height) == m
      ensures PagesBlitted(m, bitmap, x, y, page, w, conv, bitmap.pageCount) == m
    {
      RowsBlittedMismatch(m, bitmap, x, y, page, w, conv, 0, bitmap.height);
      PagesBlittedMismatch(m, bitmap, x, y, page, w, conv, bitmap.pageCount);
    }

    /** The body of BlitBitmap's row loop: source row (j, k) of `bitmap` is
        blitted into the row of `w` pixels at (x, y + j, page + k); throws
        when the widths differ. */
    method BlitOneRow(mem: array<Byte>, bitmap: MutableBitmap, x: nat, y: nat, page: nat, w: nat,
                      conv: Converter, j: nat, k: nat)
      returns (r: Outcome<BitmapError>)
      requires RowsReady(mem.Length, bitmap, x, y, page, w, conv) && j < bitmap.height && k < bitmap.pageCount
      modifies mem
      ensures r.Fail? <==> w != bitmap.width
      ensures r.Fail? ==> r.error == DifferentWidth
      ensures mem[..] == RowBlitted(old(mem[..]), bitmap, x, y, page, w, conv, j, k)
    {
      var sourceRow := bitmap.GetRowView(j, k);
      var destinationRow := PlacedRow(x, y, page, w, j, k);
      RowReadyWhenRowsReady(mem.Length, bitmap, x, y, page, w, conv, j, k);
      r := destinationRow.BlitRow(mem, sourceRow.AsBitmapRow(), conv);
    }

    /** The row loop of BlitBitmap for page k. A width mismatch throws at the
        first row, before anything is written. */
    method BlitPage(mem: array<Byte>, bitmap: MutableBitmap, x: nat, y: nat, page: nat, w: nat,
                    conv: Converter, k: nat)
      returns (r: Outcome<BitmapError>)
      requires RowsReady(mem.Length, bitmap, x, y, page, w, conv) && k < bitmap.pageCount
      modifies mem
      ensures r.Fail? <==> w != bitmap.width && bitmap.height > 0
      ensures r.Fail? ==> r.error == DifferentWidth
      ensures mem[..] == RowsBlitted(old(mem[..]), bitmap, x, y, page, w, conv, k, bitmap.height)
    {
      ghost var m := mem[..];
      var j: nat := 0;
      while j < bitmap.height
        invariant j <= bitmap.height
        invariant mem[..] == RowsBlitted(m, bitmap, x, y, page, w, conv, k, j)
        invariant w != bitmap.width ==> j == 0
      {
        var blitted := BlitOneRow(mem, bitmap, x, y, page, w, conv, j, k);
        if blitted.Fail? {
          RowsBlittedMismatch(m, bitmap, x, y, page, w, conv, k, bitmap.height);
          return blitted;
        }
        j := j + 1;
      }
      return Pass;
    }

    /** The page loop of BlitBitmap: every page of `bitmap` in turn. */
    method BlitRows(mem: array<Byte>, bitmap: MutableBitmap, x: nat, y: nat, page: nat, w: nat, conv: Converter)
      returns (r: Outcome<BitmapError>)
      requires RowsReady(mem.Length, bitmap, x, y, page, w, conv)
      modifies mem
      ensures r.Fail? <==> w != bitmap.width && bitmap.height > 0 && bitmap.pageCount > 0
      ensures r.Fail? ==> r.error == DifferentWidth
      ensures mem[..] == PagesBlitted(old(mem[..]), bitmap, x, y, page, w, conv, bitmap.pageCount)
    {
      ghost var m := mem[..];
      var k: nat := 0;
      while k < bitmap.pageCount
        invariant k <= bitmap.pageCount
        invariant mem[..] == PagesBlitted(m, bitmap, x, y, page, w, conv, k)
        invariant w != bitmap.width && k > 0 ==> bitmap.height == 0
      {
        var blitted := BlitPage(mem, bitmap, x, y, page, w, conv, k);
        if blitted.Fail? {
          FirstPageMismatch(m, bitmap, x, y, page, w, conv);
          return blitted;
        }
        k := k + 1;
      }
      return Pass;
    }

    /** MutableBitmap::BlitBitmap(bitmap, x, y, page) as written: after the
        containment test, source row (j, k) goes into this bitmap's row
        (j, k), whatever x, y and page are. A source with more pages than
        this bitmap would be written through nullptr; that case is excluded. */
    method BlitBitmapAsWritten(mem: array<Byte>, bitmap: MutableBitmap, x: nat, y: nat, page: nat, conv: Converter)
      returns (r: Outcome<BitmapError>)
      requires BlitFits(CellBox(x, y, bitmap.width, bitmap.height), page) && bitmap.width == width && bitmap.height > 0 ==>
        bitmap.pageCount <= pageCount
      requires Backed(mem.Length) && bitmap.Backed(mem.Length) && Produces(conv, GetPixelSize())
      modifies mem
      ensures r == BlitBitmapOutcomeAsWritten(bitmap, x, y, page)
      ensures r.Fail? ==> mem[..] == old(mem[..])
      ensures r.Pass? ==>
        RowsReady(mem.Length, bitmap, 0, 0, 0, width, conv) &&
        mem[..] == PagesBlitted(old(mem[..]), bitmap, 0, 0, 0, width, conv, bitmap.pageCount)
    {
      if !BlitFits(CellBox(x, y, bitmap.width, bitmap.height), page) {
        return Fail(BlitOutOfBitmap);
      }
      ghost var m := mem[..];
      r := BlitRows(mem, bitmap, 0, 0, 0, width, conv);
      if r.Fail? {
        PagesBlittedMismatch(m, bitmap, 0, 0, 0, width, conv, bitmap.pageCount);
      }
    }

    /** The corrected BlitBitmap: source row (j, k) goes into the row of
        bitmap.width pixels at (x, y + j, page + k), and every source page
        must exist in this bitmap. */
    method BlitBitmap(mem: array<Byte>, bitmap: MutableBitmap, x: nat, y: nat, page: nat, conv: Converter)
      returns (r: Outcome<BitmapError>)
      requires Backed(mem.Length) && bitmap.Backed(mem.Length) && Produces(conv, GetPixelSize())
      modifies mem
      ensures r == BlitBitmapOutcome(bitmap, x, y, page)
      ensures r.Fail? ==> mem[..] == old(mem[..])
      ensures r.Pass? ==>
        RowsReady(mem.Length, bitmap, x, y, page, bitmap.width, conv) &&
        mem[..] == PagesBlitted(old(mem[..]), bitmap, x, y, page, bitmap.width, conv, bitmap.pageCount)
    {
      if !BlitFitsPages(CellBox(x, y, bitmap.width, bitmap.height), page, bitmap.pageCount) {
        return Fail(BlitOutOfBitmap);
      }
      r := BlitRows(mem, bitmap, x, y, page, bitmap.width, conv);
    }
  }

  /** The MutableBitmapView constructor as written: width, height, page
      count, depth and colour are stored and a missing stride defaults to the
      packed one, but `pixel_data` is never stored, so the view's pointer
      keeps its nullptr default. */
  function NewMutableBitmapViewAsWritten(pixelData: Ptr, width: nat, height: nat, pageCount: nat,
                                         depth: Depth, color: Color,
                                         rowOffsetO: Option<nat>, pageOffsetO: Option<nat>): (v: MutableBitmap)
    ensures v.data == Null
    ensures v.width == width && v.height == height && v.pageCount == pageCount
    ensures v.depth == depth && v.color == color
  {
    MutableBitmap(Null, width, height, pageCount, depth, color,
                  rowOffsetO.GetOr(RowSize(width, depth, color)),
                  pageOffsetO.GetOr(PageSize(width, height, depth, color)))
  }

  /** The corrected MutableBitmapView constructor, which also stores
      `pixel_data`. */
  function NewMutableBitmapView(pixelData: Ptr, width: nat, height: nat, pageCount: nat,
                                depth: Depth, color: Color,
                                rowOffsetO: Option<nat>, pageOffsetO: Option<nat>): (v: MutableBitmap)
    ensures v.data == pixelData
    ensures v.width == width && v.height == height && v.pageCount == pageCount
    ensures v.depth == depth && v.color == color
    ensures rowOffsetO.Some? ==> v.rowOffset == rowOffsetO.value
    ensures pageOffsetO.Some? ==> v.pageOffset == pageOffsetO.value
    ensures rowOffsetO.None? ==> v.rowOffset == RowSize(width, depth, color)
    ensures pageOffsetO.None? ==> v.pageOffset == PageSize(width, height, depth, color)
  {
    MutableBitmap(pixelData, width, height, pageCount, depth, color,
                  rowOffsetO.GetOr(RowSize(width, depth, color)),
                  pageOffsetO.GetOr(PageSize(width, height, depth, color)))
  }

  /** A view built without strides is tightly packed: every channel of every
      pixel lies within the packed size of the view. */
  lemma DefaultStridesPack(pixelData: Ptr, width: nat, height: nat, pageCount: nat, depth: Depth, color: Color,
                           x: nat, y: nat, page: nat, channel: nat)
    requires NewMutableBitmapView(pixelData, width, height, pageCount, depth, color, None, None)
               .GetByteIndex(x, y, page, channel).Some?
    ensures NewMutableBitmapView(pixelData, width, height, pageCount, depth, color, None, None)
              .GetByteIndex(x, y, page, channel).value + ChannelSize(depth)
            <= Size(width, height, pageCount, depth, color)
  {
    ByteIndexWithinSize(width, height, pageCount, depth, color, x, y, page, channel);
  }
}
