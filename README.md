# rla: bitmaps, row blits and console texture atlases, in Dafny

rla is a C++ library for pixel bitmaps and the texture atlases of a
console renderer. This project models its core and proves properties of
that model. The core has six parts:

- **Pixel formats** (`bitmap_format.dfy`, `bitmap.dfy`). A pixel has one
  gray channel or three colour channels, and optionally an alpha channel.
  A channel is 1, 2 or 4 bytes wide (`Octuple`, `Sexdecuple`,
  `Normalized`). A bitmap has a width, a height and a number of pages.
  `GetByteIndex` finds a channel of a pixel, or gives nothing when a
  coordinate is out of range.
- **Rows and row blits** (`memory.dfy`, `rows.dfy`, `bitmap_rows.dfy`,
  `row_blit.dfy`):
  - A row is a start address, a width and a format. Per-pixel addresses
    are `nullptr` outside the row.
  - A row blit converts every pixel of a source row into a destination
    row of the same width. The two rows may share memory. The loop runs
    ascending when a source channel is at least as wide as a destination
    channel, and descending otherwise.
  - Memory is an `array<Byte>`, and a pointer is an address in it.
  - `RowBlit` proves that the loop, in a safe direction, computes what
    converting into a separate buffer computes.
- **Writable bitmaps** (`mutable_bitmap.dfy`): rl::MutableBitmap and
  rl::MutableBitmapView, with their sub-views, row views and
  `BlitBitmap`.
- **Owned rows** (`image_row.dfy`, `image_row_vector.dfy`):
  - rl::Image::Row owns a heap buffer and tracks its capacity by hand.
  - rl::ImageRow stores its bytes in a `std::vector`.
  - Both are classes whose methods update their fields.
- **Atlas builders** (`source_key.dfy`, `pack_boxes.dfy`,
  `atlas_factory.dfy`, `console_atlas.dfy`):
  - `ConsoleAtlasFactory::Create` gives every glyph a source key. Glyphs
    with equal keys share one pack box. It packs the boxes and sorts them
    back by identifier.
  - The older `console_atlas::Create` allocates one box per glyph. It
    packs and sorts the boxes, then blits each glyph into a box.
  - The packer is a parameter. Its only promise is to hand back the same
    boxes (same identifiers and sizes), in any order and at any place.
- **PNG colour handling** (`png_colors.dfy`, `png_read_configure.dfy`):
  - the mappings between libpng colour types, png_wrapper.h colours,
    `rl::Png::Color` and `rl::Bitmap::Color`;
  - the set of libpng transforms `libpng_read_configure` requests;
  - the colour types are the IHDR values of section 11.2.2 of the PNG
    specification (ISO/IEC 15948).

Some source code evidently does not do what its authors intended. In
each such case the model has two versions:

- a member named `...AsWritten` that follows the code;
- a lemma that exhibits the discrepancy;
- a corrected member, which the rest of the model uses.

All cases are listed under "## Findings".

`wrappers.dfy` (Option, Result, Outcome) and `arith.dfy` (the
multiplication facts the layout proofs share) are helpers.

## Model

| member | source | states |
|---|---|---|
| Memory.AddressOf | src/Bitmap.cpp:37-47 | nullptr when there is no index; base + index otherwise, where a null base stays null (see Left out) |
| BitmapFormat.ChannelCount | test/src/static_bitmap_func_tests.cpp:28-34 | one gray or three colour channels, plus one for alpha |
| BitmapFormat.ChannelSize | test/src/static_bitmap_func_tests.cpp:36-41 | a channel is 1, 2 or 4 bytes wide |
| BitmapFormat.BitDepth | test/src/static_bitmap_func_tests.cpp:43-48 | the bit depth is eight times the channel size |
| BitmapFormat.PixelSize | test/src/static_bitmap_func_tests.cpp:50-64 | a pixel is its channel count times its channel size, 1 to 16 bytes |
| BitmapFormat.RowSize | test/src/static_bitmap_func_tests.cpp:66-92 | a row is width pixels, and has no bytes exactly when the width is 0 |
| BitmapFormat.PageSize | test/src/static_bitmap_func_tests.cpp:94-132 | a page is height rows, and has no bytes exactly when the width or the height is 0 |
| BitmapFormat.Size | test/src/static_bitmap_func_tests.cpp:134-184 | a bitmap is its pages, and has no bytes exactly when the width, the height or the page count is 0 |
| BitmapFormat.ChannelTable | test/src/static_bitmap_func_tests.cpp:28-48 | the tested channel counts (1, 2, 3, 4), channel sizes (1, 2, 4) and bit depths (8, 16, 32) |
| BitmapFormat.PixelSizeTable | test/src/static_bitmap_func_tests.cpp:50-64 | the twelve tested pixel sizes, one per depth and colour |
| BitmapFormat.SizeTable | test/src/static_bitmap_func_tests.cpp:66-184 | the tested row, page and bitmap sizes for 512-wide bitmaps of every format, and how a one-pixel row, a one-row page and a one-page bitmap reduce to the smaller unit |
| BitmapFormat.ByteIndexVector01 | test/src/static_bitmap_func_tests.cpp:188 | x = width is out of range: no index |
| BitmapFormat.ByteIndexVector02 | test/src/static_bitmap_func_tests.cpp:189 | y = height is out of range: no index |
| BitmapFormat.ByteIndexVector03 | test/src/static_bitmap_func_tests.cpp:190 | page = pages is out of range: no index |
| BitmapFormat.ByteIndexVector04 | test/src/static_bitmap_func_tests.cpp:191 | channel 1 of a gray pixel does not exist: no index |
| BitmapFormat.ByteIndexVector05 | test/src/static_bitmap_func_tests.cpp:192 | the first channel of the first pixel is at 0 |
| BitmapFormat.ByteIndexVector06 | test/src/static_bitmap_func_tests.cpp:193 | tested gray pixel x = 101 is at 101 |
| BitmapFormat.ByteIndexVector07 | test/src/static_bitmap_func_tests.cpp:194 | tested gray row y = 101 starts at 101 row strides |
| BitmapFormat.ByteIndexVector08 | test/src/static_bitmap_func_tests.cpp:195 | tested gray page 101 starts at 101 page strides |
| BitmapFormat.ByteIndexVector09 | test/src/static_bitmap_func_tests.cpp:196 | gray-alpha: first channel at 0 |
| BitmapFormat.ByteIndexVector10 | test/src/static_bitmap_func_tests.cpp:197 | gray-alpha pixel 101 at 202 (two bytes per pixel) |
| BitmapFormat.ByteIndexVector11 | test/src/static_bitmap_func_tests.cpp:198 | gray-alpha row 101 at 101 × 1024 |
| BitmapFormat.ByteIndexVector12 | test/src/static_bitmap_func_tests.cpp:199 | gray-alpha page 101 at 101 × 524288 |
| BitmapFormat.ByteIndexVector13 | test/src/static_bitmap_func_tests.cpp:200 | 16-bit RGB with padded strides: first channel at 0 |
| BitmapFormat.ByteIndexVector14 | test/src/static_bitmap_func_tests.cpp:201 | 16-bit RGB pixel 101, channel 1: 101 × 6 + 2 |
| BitmapFormat.ByteIndexVector15 | test/src/static_bitmap_func_tests.cpp:202 | 16-bit RGB row 101, channel 2: 101 × 2000 + 4 |
| BitmapFormat.ByteIndexVector16 | test/src/static_bitmap_func_tests.cpp:203 | 16-bit RGB page 101: 101 × 80000 |
| BitmapFormat.ByteIndex | test/src/static_bitmap_func_tests.cpp:186-203 | an index exists exactly for in-range coordinates, and it is the page, row, pixel and channel offsets added up |
| BitmapFormat.ChannelLaneInPixel | test/src/static_bitmap_func_tests.cpp:50-64 | the bytes of every channel lie inside its pixel |
| BitmapFormat.PixelInRow | test/src/static_bitmap_func_tests.cpp:66-92 | the bytes of every pixel lie inside its row |
| BitmapFormat.ByteIndexInjective | test/src/static_bitmap_func_tests.cpp:186-203 | with strides that leave every row and page room for its pixels, distinct coordinates never share an index |
| BitmapFormat.ByteIndexByWithinSize | test/src/static_bitmap_func_tests.cpp:134-203 | with packed strides every channel, at any channel width, lies inside the bitmap's size |
| BitmapFormat.ByteIndexWithinSize | test/src/static_bitmap_func_tests.cpp:134-203 | with packed strides every channel lies inside `Size` bytes |
| Bitmaps.Bitmap.GetBitDepth | src/Bitmap.cpp:29-35 | eight bits per byte of channel |
| Bitmaps.Bitmap.GetChannelCount | src/Bitmap.cpp:49-55 | one gray or three colour channels, plus one for alpha |
| Bitmaps.Bitmap.GetRowSize | src/Bitmap.cpp:57-65 | width pixels, each the channel count times the channel size |
| Bitmaps.Bitmap.GetPageSize | src/Bitmap.cpp:67-76 | height rows |
| Bitmaps.Bitmap.GetSize | src/Bitmap.cpp:78-88 | the page count times the page size |
| Bitmaps.Bitmap.GetByteIndex | src/Bitmap.cpp:90-104 | an index exactly for in-range coordinates, equal to the offsets added up and ending inside the bitmap |
| Bitmaps.Bitmap.GetData | src/Bitmap.cpp:37-47 | nullptr when the coordinates are out of range; base + index otherwise, an address whose channel lies inside the bitmap's bytes (a null base stays null, see Left out) |
| Rows.Row.GetBitDepth | src/Bitmap_Row.cpp:77-80 | eight bits per byte of channel |
| Rows.Row.GetChannelSize | src/Bitmap_Row.cpp:72-75 | 1, 2 or 4 bytes, an eighth of the bit depth |
| Rows.Row.GetSize | src/Bitmap_Row.cpp:82-85 | width pixels of the row's format |
| Rows.Row.GetByteIndex | src/Bitmap_Row.cpp:87-103 | an index exactly for a pixel and channel inside the row, the pixel and channel offsets added up, ending inside the row |
| Rows.Row.GetData | src/Bitmap_Row.cpp:60-70 | nullptr when the coordinates are out of range; otherwise the row's pointer + byte index, inside the row (a null row stays null, see Left out) |
| Rows.Row.Blit | src/Bitmap_Row.cpp:105-250 | throws for a width mismatch and leaves memory alone; otherwise memory is the pixel loop run in the direction the channel widths choose |
| Rows.Row.BlitFitsWhenBacked | src/Bitmap_Row.cpp:105-110 | two rows of equal width that lie in memory give a blit whose every pixel lies in memory |
| Rows.Row.BlitMatchesReference | src/Bitmap_Row.cpp:191-205 | for separate rows, or in place with one colour, the blit leaves the converted source row in the destination and every other byte unchanged |
| Rows.Row.DescendingAsWrittenReadsNull | src/Bitmap_Row.cpp:201-204 | the reverse loop as written first reads pixel x = width, whose address is nullptr |
| Rows.RowView.constructor | src/Bitmap_Row_View.cpp:27-38 | the view shows the given pointer, width, depth and colour |
| Rows.RowView.FromRow | src/Bitmap_Row_View.cpp:40-46 | a view of a row shows exactly that row |
| Rows.RowView.Assign | src/Bitmap_Row_View.cpp:48-55 | after operator= the view shows exactly the assigned row |
| Rows.RowView.GetChannelSize | src/Bitmap_Row_View.cpp:89-92 | 1, 2 or 4 bytes, an eighth of the bit depth |
| Rows.RowView.GetBitDepth | src/Bitmap_Row_View.cpp:94-97 | eight bits per byte of channel |
| Rows.RowView.GetSize | src/Bitmap_Row_View.cpp:99-102 | width pixels of the view's format |
| Rows.RowView.GetByteIndex | src/Bitmap_Row_View.cpp:104-120 | an index exactly for a pixel and channel inside the row: the pixel and channel offsets added up, ending inside the row |
| Rows.RowView.GetData | src/Bitmap_Row_View.cpp:77-87 | nullptr when the coordinates are out of range; otherwise the view's pointer + byte index, inside the row (a null view stays null, see Left out) |
| BitmapRows.BitmapRow.GetBitDepth | src/BitmapRow.cpp:49-55 | eight bits per byte of channel |
| BitmapRows.BitmapRow.GetChannelSize | src/BitmapRow.cpp:41-47 | 1, 2 or 4 bytes, an eighth of the bit depth |
| BitmapRows.BitmapRow.GetSize | src/BitmapRow.cpp:57-65 | width pixels of the row's format |
| BitmapRows.BitmapRow.GetByteIndexAsWritten | src/BitmapRow.cpp:67-83 | as written no pixel is ever in range: there is never an index |
| BitmapRows.BitmapRow.GetDataAsWritten | src/BitmapRow.cpp:29-39 | as written every channel address is nullptr |
| BitmapRows.BitmapRow.GetMutableDataAsWritten | src/MutableBitmapRow.cpp:30-40 | as written the same address as GetData as written |
| BitmapRows.BitmapRow.AsWrittenFindsNoPixel | src/BitmapRow.cpp:67-83 | as written (height 0, 0 pages), every index lookup fails and every GetData and GetMutableData address is nullptr |
| BitmapRows.BitmapRow.GetByteIndex | src/BitmapRow.cpp:67-83 | corrected: an index exactly for a pixel and channel in the row, ending inside the row |
| BitmapRows.BitmapRow.GetData | src/BitmapRow.cpp:29-39 | nullptr when the coordinates are out of range; otherwise start + pixel and channel offset (a null start stays null, see Left out) |
| BitmapRows.BitmapRow.GetMutableData | src/MutableBitmapRow.cpp:30-40 | the same address as GetData, lying inside the row |
| BitmapRows.BitmapRow.BlitRowResult | src/MutableBitmapRow.cpp:42-47 | memory is unchanged on a width mismatch, and the blit stays in memory otherwise |
| BitmapRows.BitmapRow.BlitRow | src/MutableBitmapRow.cpp:42-187 | throws DifferentWidth exactly on a width mismatch; memory becomes the result of the blit |
| BitmapRows.BitmapRow.BlitRowMatchesReference | src/MutableBitmapRow.cpp:128-142 | separate rows, or one row in place with one colour: exactly the converted source row is written |
| BitmapRows.BitmapRowView.GetData | src/BitmapRowView.cpp:54-57 | the row start, which for a non-empty row is the address of channel 0 of pixel 0 |
| BitmapRows.BitmapRowView.AsBitmapRow | src/BitmapRowView.cpp:26-57 | through the BitmapRow interface the view has the same start, width, depth and colour |
| BitmapRows.MutableBitmapRowView.GetData | src/MutableBitmapRowView.cpp:57-60 | the row start, which for a non-empty row is the address of channel 0 of pixel 0 |
| BitmapRows.MutableBitmapRowView.GetMutableData | src/MutableBitmapRowView.cpp:62-65 | the same address as GetData |
| BitmapRows.MutableBitmapRowView.AsBitmapRow | src/MutableBitmapRowView.cpp:29-65 | through the BitmapRow interface the view has the same start, width, depth and colour |
| RowBlit.PixelInside | src/Bitmap_Row.cpp:111-190 | every pixel the loop reads or writes lies in memory |
| RowBlit.ForwardCorrect | src/Bitmap_Row.cpp:192-198 | after k ascending steps destination pixels 0 .. k-1 hold the converted original pixels and nothing else changed, when ascending is safe |
| RowBlit.BackwardCorrect | src/Bitmap_Row.cpp:199-205 | after the descending steps down to lo, pixels lo .. width-1 hold the converted original pixels and nothing else changed, when descending is safe |
| RowBlit.RunMatchesReference | src/Bitmap_Row.cpp:191-205 | in a safe direction the loop computes what converting into a separate buffer computes |
| RowBlit.RunChangesOnlyDestination | src/Bitmap_Row.cpp:191-205 | no byte outside the destination row changes |
| RowBlit.GrayToRgb | src/Bitmap_Row.cpp:117-160 | a gray value widened to RGB repeats it in all three channels |
| RowBlit.GrayWideningFits | src/Bitmap_Row.cpp:191-198 | the two-pixel gray example lies in its memory |
| RowBlit.GrayWideningReference | src/Bitmap_Row.cpp:191-198 | converting the example into a separate buffer widens both gray values |
| RowBlit.GrayWideningAscending | src/Bitmap_Row.cpp:192-198 | converting it in place upward widens the first gray value twice |
| RowBlit.ChannelRuleNeedsSameColour | src/Bitmap_Row.cpp:191-198 | the channel-width rule chooses ascending for the example, and that corrupts it: in place the rule is sound only for one colour |
| RowBlit.AscendingOrder | src/Bitmap_Row.cpp:194-197 | the ascending loop visits 0 .. width-1 |
| RowBlit.DescendingOrder | src/Bitmap_Row.cpp:201-204 | the intended descending loop visits width-1 .. 0 |
| RowBlit.DescendingOrderAsWritten | src/Bitmap_Row.cpp:201-204 | as written the loop visits width, width-1, ..., 0: width + 1 pixels |
| RowBlit.DescendingAsWrittenStartsPastRow | src/MutableBitmapRow.cpp:138-141 | the loop as written starts one pixel past the row, for every width, and then follows the intended order |
| RowBlit.DescendingFrom | src/Bitmap_Row.cpp:201-204 | the pixels visited down to lo: width-1 .. lo |
| RowBlit.DescendingFromZero | src/Bitmap_Row.cpp:201-204 | run down to 0, that is the whole descending order |
| RowBlit.ForwardFollowsAscendingOrder | src/Bitmap_Row.cpp:194-197 | the ascending loop converts the pixels one by one in ascending order |
| RowBlit.BackwardFollowsDescendingOrder | src/Bitmap_Row.cpp:201-204 | the descending loop converts the pixels one by one from width-1 down |
| RowBlit.BackwardVisitsDescendingOrder | src/MutableBitmapRow.cpp:138-141 | the corrected descending loop converts exactly width-1 .. 0, once each |
| RowBlit.Store | src/Bitmap_Row.cpp:113-190 | writing a pixel's bytes replaces exactly those bytes |
| RowBlit.ConvertPixel | src/Bitmap_Row.cpp:111-190 | one pixel is converted and stored: memory is one step further |
| RowBlit.ConvertAscending | src/Bitmap_Row.cpp:192-198 | the ascending loop leaves memory as the ascending specification says |
| RowBlit.ConvertDescending | src/Bitmap_Row.cpp:199-205 | the descending loop leaves memory as the descending specification says |
| RowBlit.ConvertRow | src/Bitmap_Row.cpp:191-205 | the loop in the chosen direction |
| MutableBitmaps.DoesContain | src/MutableBitmap.cpp:52 | when a box contains another, every cell of the inner box is a cell of the outer one |
| MutableBitmaps.DoesContainIffCells | src/MutableBitmap.cpp:52 | for a box with cells, containment holds exactly when all of its cells are inside |
| MutableBitmaps.MutableBitmap.GetPixelSize | src/MutableBitmap.cpp:109 | the channel count times the channel size, 1 to 16 bytes |
| MutableBitmaps.MutableBitmap.GetByteIndex | src/MutableBitmap.cpp:57 | an index exactly for in-range coordinates: the page, row, pixel and channel offsets added up with this bitmap's strides |
| MutableBitmaps.MutableBitmap.BlitFits | src/MutableBitmap.cpp:42-53 | a box that fits lies on an existing page, and every cell of it is inside the bitmap |
| MutableBitmaps.MutableBitmap.GetMutableData | src/MutableBitmap.cpp:55-65 | nullptr when the coordinates are out of range; base + strides otherwise (a null base stays null, see Left out) |
| MutableBitmaps.MutableBitmap.BlitFitsAddressesBox | src/MutableBitmap.cpp:42-53 | when a box fits on a page, every channel of every pixel of the box has an address |
| MutableBitmaps.MutableBitmap.GetMutableSubView | src/MutableBitmap.cpp:80-93 | the view starts at pixel (x, y, page) and keeps this bitmap's format and strides with the requested extent |
| MutableBitmaps.MutableBitmap.GetMutableView | src/MutableBitmap.cpp:67-78 | the whole-bitmap view is the sub-view at the origin with this bitmap's extent |
| MutableBitmaps.MutableBitmap.SubViewAddressesParent | src/MutableBitmap.cpp:80-93 | pixel (i, j, k) of a sub-view is pixel (x+i, y+j, page+k) of the parent |
| MutableBitmaps.MutableBitmap.WholeViewAddressesParent | src/MutableBitmap.cpp:67-78 | the whole view addresses every pixel exactly as the bitmap does |
| MutableBitmaps.MutableBitmap.SubViewAsWrittenHasNoPixels | src/MutableBitmapView.cpp:29-55 | with the constructor as written, every pixel of every sub-view is nullptr; this rests on a null base staying null (see Left out) |
| MutableBitmaps.MutableBitmap.GetMutableRowView | src/MutableBitmap.cpp:95-104 | the full-width row at (0, y, page) in this format; null exactly when there is no such pixel |
| MutableBitmaps.MutableBitmap.RowViewAddressesBitmap | src/MutableBitmap.cpp:95-104 | pixel x of row (y, page) is pixel (x, y, page) of the bitmap |
| MutableBitmaps.MutableBitmap.GetModifiedMutableRowView | src/MutableBitmap.cpp:106-121 | throws exactly when the substituted format's pixel is larger than the real one; otherwise the same row start and width in the new format, no larger than the real row |
| MutableBitmaps.MutableBitmap.ModifiedDepthAllowedIff | src/MutableBitmap.cpp:106-121 | a reinterpreted depth is accepted exactly when its channels are no wider |
| MutableBitmaps.MutableBitmap.NormalizedReadsAsSexdecuple | src/MutableBitmap.cpp:172-186 | the in-place PNG load's Normalized-as-Sexdecuple reinterpretation never throws |
| MutableBitmaps.MutableBitmap.GetRowView | src/MutableBitmap.cpp:143 | the read-only row (y, page): this bitmap's width and format, starting where the mutable row view starts |
| MutableBitmaps.MutableBitmap.BlitBitmapOutcomeAsWritten | src/MutableBitmap.cpp:123-148 | as written the blit passes exactly when the box fits and the widths agree or the source has no pixels; BlitOutOfBitmap exactly when the box does not fit, DifferentWidth otherwise |
| MutableBitmaps.MutableBitmap.BlitAsWrittenRejectsNarrowSource | src/MutableBitmap.cpp:139-147 | as written, a narrower source with pixels fails with DifferentWidth even where its box fits |
| MutableBitmaps.MutableBitmap.BlitBitmapOutcome | src/MutableBitmap.cpp:125-147 | corrected: the blit fails exactly when the box or one of its pages does not fit |
| MutableBitmaps.MutableBitmap.BlitOneRow | src/MutableBitmap.cpp:143-145 | one row: throws exactly on a width mismatch; memory becomes that row blitted |
| MutableBitmaps.MutableBitmap.BlitPage | src/MutableBitmap.cpp:141-146 | one page's rows in order; a width mismatch throws at the first row before any write |
| MutableBitmaps.MutableBitmap.BlitRows | src/MutableBitmap.cpp:139-147 | every page in order; throws exactly when the widths differ and the source has a pixel |
| MutableBitmaps.MutableBitmap.BlitBitmapAsWritten | src/MutableBitmap.cpp:123-148 | the as-written outcome; nothing changes on failure; on success source row (j, k) lands in row (j, k) whatever x, y and page are |
| MutableBitmaps.MutableBitmap.BlitBitmap | src/MutableBitmap.cpp:123-148 | corrected: fails exactly when the box does not fit, changing nothing; otherwise source row (j, k) lands at (x, y + j, page + k) |
| MutableBitmaps.NewMutableBitmapViewAsWritten | src/MutableBitmapView.cpp:29-55 | as written the view keeps extent and format but its pointer stays nullptr |
| MutableBitmaps.NewMutableBitmapView | src/MutableBitmapView.cpp:29-55 | corrected: the view keeps the pointer; a given stride is kept, a missing one defaults to the packed row or page size |
| MutableBitmaps.DefaultStridesPack | src/MutableBitmapView.cpp:44-53 | with default strides every channel lies inside the packed size |
| ImageRowBuffers.Row.ValidIsReadable | src/Image_Row.cpp:42-52 | while a buffer exists exactly when the capacity is non-zero, the row's bytes exist |
| ImageRowBuffers.Row.GetSize | src/Bitmap_Row.cpp:82-85 | width pixels of the current format |
| ImageRowBuffers.Row.GetCapacity | src/Image_Row.cpp:93-96 | the length of the buffer whenever there is one; for a valid row, 0 exactly when there is none |
| ImageRowBuffers.Row.WithCapacity | src/Image_Row.cpp:61-64 | an empty default-format row with a buffer of exactly that capacity |
| ImageRowBuffers.Row.constructor | src/Image_Row.cpp:66-69 | a readable row of that format whose capacity is one row |
| ImageRowBuffers.Row.FreeData | src/Image_Row.cpp:54-59 | no buffer and capacity 0, format unchanged |
| ImageRowBuffers.Row.Reserve | src/Image_Row.cpp:42-52 | grows to exactly the requested capacity with a fresh buffer when it is larger, never shrinks, and keeps the row's bytes |
| ImageRowBuffers.Row.Clear | src/Image_Row.cpp:76-81 | an empty default-format row; the buffer and capacity stay |
| ImageRowBuffers.Row.Create | src/Image_Row.cpp:98-111 | the new format, the capacity raised to at least one row, a fresh buffer exactly when it grew |
| ImageRowBuffers.Row.ShrinkToFitAsWritten | src/Image_Row.cpp:25-40 | as written an empty row drops its buffer but keeps the old capacity |
| ImageRowBuffers.Row.ShrinkToFit | src/Image_Row.cpp:83-86 | corrected: an empty row drops its buffer and its capacity becomes 0 |
| ImageRowBuffers.CopyPrefix | src/Image_Row.cpp:47 | the first n bytes are copied |
| ImageRowBuffers.StaleCapacityAfterShrink | src/Image_Row.cpp:25-31 | shrinking an empty row and creating a one-byte row leaves a row with a byte and no buffer |
| ImageRowBuffers.ShrinkThenCreate | src/Image_Row.cpp:83-111 | the same calls with the corrected shrink leave a readable one-byte row |
| ImageRowVectors.ImageRow.constructor | src/ImageRow.cpp:27-40 | an empty vector and the default format |
| ImageRowVectors.ImageRow.GetCapacity | src/ImageRow.cpp:70-73 | never less than the bytes the vector holds |
| ImageRowVectors.ImageRow.Clear | src/ImageRow.cpp:52-58 | no bytes, same capacity, default format |
| ImageRowVectors.ImageRow.ShrinkToFit | src/ImageRow.cpp:60-63 | the capacity becomes the byte count; bytes and format unchanged |
| ImageRowVectors.ImageRow.Reserve | src/ImageRow.cpp:65-68 | the capacity becomes the larger of the request and the old capacity; bytes and format unchanged |
| ImageRowVectors.ImageRow.ResizeZeroed | src/ImageRow.cpp:86 | an empty vector resized holds that many zero bytes |
| ImageRowVectors.ImageRow.CreateAsWritten | src/ImageRow.cpp:75-90 | as written the row takes the new format but holds no bytes |
| ImageRowVectors.ImageRow.Create | src/ImageRow.cpp:75-90 | corrected: the new format and exactly one row of zero bytes |
| ImageRowVectors.Zeroes | src/ImageRow.cpp:86 | n bytes, all zero |
| ImageRowVectors.CreatedRowIsEmpty | src/ImageRow.cpp:78-86 | a one-pixel gray row created as written holds no byte though it needs one |
| ImageRowVectors.CreatedRowHoldsRow | src/ImageRow.cpp:75-90 | the corrected Create gives it exactly its one byte |
| SourceKeys.SourceOrdinal | src/console_atlas_source_key.hpp:64 | the enumerator's position, 0 .. 2 |
| SourceKeys.SourceOrdinalInjective | src/console_atlas_source_key.hpp:64 | distinct sources hash as distinct integers |
| SourceKeys.Equal | src/console_atlas_source_key.hpp:40-48 | comparing the five fields is exactly equality of keys |
| SourceKeys.EqualIsEquivalence | src/console_atlas_source_key.hpp:40-48 | operator== is reflexive, symmetric and transitive |
| SourceKeys.EqualKeysHashEqual | src/console_atlas_source_key.hpp:57-66 | keys that compare equal hash equal, however the field hashes are combined |
| SourceKeys.CodepointTakesPart | src/console_atlas_source_key.hpp:38-66 | changing only the codepoint changes equality and can change the hash |
| PackBoxes.Shapes | src/ConsoleAtlasFactory.cpp:153 | the identifier and size of every box, in order |
| PackBoxes.NewBox | src/ConsoleAtlasFactory.cpp:118 | a new box has the given identifier and size |
| PackBoxes.Insert | src/ConsoleAtlasFactory.cpp:155-162 | inserting adds one box, and the new first box is it or the old first box |
| PackBoxes.InsertOrdered | src/ConsoleAtlasFactory.cpp:155-162 | inserting into an ordered sequence keeps it ordered |
| PackBoxes.InsertKeepsBoxes | src/ConsoleAtlasFactory.cpp:155-162 | inserting adds exactly that box |
| PackBoxes.SortById | src/ConsoleAtlasFactory.cpp:155-162 | std::sort keeps the number of boxes |
| PackBoxes.SortOrdered | src/ConsoleAtlasFactory.cpp:155-162 | the sort orders the boxes by the comparator's key |
| PackBoxes.SortKeepsBoxes | src/ConsoleAtlasFactory.cpp:155-162 | the sort is a permutation |
| PackBoxes.PackedIsNumbered | src/ConsoleAtlasFactory.cpp:153 | each box the packer returns is one of the numbered boxes, with its size |
| PackBoxes.PackedDistinct | src/ConsoleAtlasFactory.cpp:153 | no two packed boxes share an identifier |
| PackBoxes.PackedLength | src/ConsoleAtlasFactory.cpp:153 | the packer returns as many boxes as it was given |
| PackBoxes.PackedNoDuplicates | src/ConsoleAtlasFactory.cpp:153 | the packed boxes are pairwise distinct |
| PackBoxes.PermutedIsNumbered | src/ConsoleAtlasFactory.cpp:153-162 | a permutation of the packed boxes still holds only numbered boxes with their sizes |
| PackBoxes.PermutedNoDuplicates | src/ConsoleAtlasFactory.cpp:153-162 | a permutation of the packed boxes has no duplicates |
| PackBoxes.PermutedDistinct | src/ConsoleAtlasFactory.cpp:153-162 | a permutation of the packed boxes has distinct identifiers |
| PackBoxes.Ranks | src/console_atlas.cpp:116-123 | each box's identifier, mirrored for the descending sort |
| PackBoxes.RanksFill | src/console_atlas.cpp:116-123 | in an ordered permutation the ranks are 0, 1, ..., n-1 |
| PackBoxes.OrderedPermutation | src/ConsoleAtlasFactory.cpp:153-162 | any ordered permutation holds box k at k (ascending) or n-1-k (descending) |
| PackBoxes.SortedPackedBoxes | src/ConsoleAtlasFactory.cpp:153-162 | pack then sort puts numbered box i, with its size, at position i (ascending) or n-1-i (descending) |
| AtlasFactory.GlyphKeysShare | src/ConsoleAtlasFactory.cpp:99-108 | glyphs from one place of one source share a key exactly when they are not font glyphs or have the same codepoint |
| AtlasFactory.GlyphTraceDuplicate | src/ConsoleAtlasFactory.cpp:121-125 | a face's glyph loop throws exactly when a codepoint repeats among its glyphs |
| AtlasFactory.GlyphTraceKeys | src/ConsoleAtlasFactory.cpp:97-126 | until it throws, the loop registers each glyph's key in order, all of them if it does not throw |
| AtlasFactory.GlyphTraceThrowsLast | src/ConsoleAtlasFactory.cpp:109-125 | when it throws, the repeating glyph's key was registered first and is the last key |
| AtlasFactory.FontKeysCover | src/ConsoleAtlasFactory.cpp:127-151 | a font codepoint gets a key exactly when the font has it and no explicit glyph claimed it |
| AtlasFactory.FacesTraceDuplicate | src/ConsoleAtlasFactory.cpp:88-152 | Create throws for a repeated codepoint exactly when some face repeats one among its explicit glyphs |
| AtlasFactory.FontReached | src/ConsoleAtlasFactory.cpp:121-128 | a face's font is read only when no earlier face threw and its own glyphs repeat no codepoint |
| AtlasFactory.ThrowBeforeFontRead | src/ConsoleAtlasFactory.cpp:121-128 | a repeated codepoint throws before a later face's missing font is read, so Create reports the duplicate |
| AtlasFactory.IndexOf | src/ConsoleAtlasFactory.cpp:109-111 | the position found holds the key |
| AtlasFactory.IndexOfDistinct | src/ConsoleAtlasFactory.cpp:109-120 | in a sequence without duplicates a key's position is its index |
| AtlasFactory.RegisterIdentifies | src/ConsoleAtlasFactory.cpp:109-120 | registering one more key keeps every glyph's identifier naming its own key |
| AtlasFactory.RegisterAllDistinct | src/ConsoleAtlasFactory.cpp:109-120 | no key is stored twice |
| AtlasFactory.RegisterAllIdentifies | src/ConsoleAtlasFactory.cpp:109-120 | every glyph's identifier names its own key |
| AtlasFactory.RegisterAllSound | src/ConsoleAtlasFactory.cpp:109-120 | one identifier per glyph, distinct stored keys, and each identifier names the glyph's key |
| AtlasFactory.RegisterAllSources | src/ConsoleAtlasFactory.cpp:109-120 | the stored keys are exactly the glyphs' keys |
| AtlasFactory.SharedIdentifier | src/ConsoleAtlasFactory.cpp:109-120 | two glyphs have one identifier exactly when their keys are equal |
| AtlasFactory.GlyphsShareBox | src/ConsoleAtlasFactory.cpp:109-120 | two glyphs share a box exactly when their keys are equal |
| AtlasFactory.Boxes | src/ConsoleAtlasFactory.cpp:115-118 | one box per stored key, box i with identifier i |
| AtlasFactory.BoxesGrow | src/ConsoleAtlasFactory.cpp:115-119 | a new key adds a box numbered by the count so far, with its face's tile width |
| AtlasFactory.FaceFlags | src/ConsoleAtlasFactory.cpp:90-91 | one atlas face per layout face, with its letterbox flag |
| AtlasFactory.ExpectedMeaning | src/ConsoleAtlasFactory.cpp:38-58 | each error exactly when the code throws it, in the code's order; otherwise the atlas has the tile size, one face per layout face and the letterbox flag of the faces |
| AtlasFactory.LetterboxFlag | src/ConsoleAtlasFactory.cpp:48-54 | has_letterboxing exactly when some face is letterboxed |
| AtlasFactory.ConsoleAtlasFactory.constructor | src/ConsoleAtlasFactory.cpp:33-36 | all members start empty |
| AtlasFactory.ConsoleAtlasFactory.AddGlyph | src/ConsoleAtlasFactory.cpp:109-120 | one lookup in source_map: the box list, the map and the registry advance by one key |
| AtlasFactory.ConsoleAtlasFactory.AddExplicitGlyphs | src/ConsoleAtlasFactory.cpp:97-126 | the face's glyph loop registers exactly the glyph-loop trace and reports its duplicate |
| AtlasFactory.ConsoleAtlasFactory.AddFontGlyph | src/ConsoleAtlasFactory.cpp:131-150 | one font codepoint registers its key unless an explicit glyph claimed it |
| AtlasFactory.ConsoleAtlasFactory.AddFontGlyphs | src/ConsoleAtlasFactory.cpp:127-151 | the font loop registers exactly the unclaimed codepoints' keys |
| AtlasFactory.ConsoleAtlasFactory.AddFace | src/ConsoleAtlasFactory.cpp:89-151 | one face: explicit glyphs, then, if they did not throw, the font codepoints; the font must exist only in that case |
| AtlasFactory.ConsoleAtlasFactory.AddFaces | src/ConsoleAtlasFactory.cpp:88-152 | the faces in order until one throws; registry, boxes and face flags as specified; only the fonts the loop reads must exist |
| AtlasFactory.ConsoleAtlasFactory.Create | src/ConsoleAtlasFactory.cpp:31-162 | returns the expected atlas or error; the members are cleared, then hold the sources, the glyph identifiers and, on success, box i with identifier i and its key's tile size; a face's font must exist only when the face loop reaches its font read |
| ConsoleAtlases.ToSize | src/console_atlas.cpp:139-151 | static_cast<std::size_t> keeps values below 2^64 and never exceeds it |
| ConsoleAtlases.LetterboxFlags | src/console_atlas.cpp:45-55 | each atlas flag is set exactly when some face has it |
| ConsoleAtlases.FaceSlots | src/console_atlas.cpp:102-105 | one slot per glyph of the face, carrying the face's flags |
| ConsoleAtlases.SlotsCount | src/console_atlas.cpp:80-88 | one slot per glyph: the box count is pack_boxes_capacity |
| ConsoleAtlases.SlotsStep | src/console_atlas.cpp:89-106 | each face adds its glyphs' slots and its glyph count |
| ConsoleAtlases.GlyphCountPrefix | src/console_atlas.cpp:80-88 | the faces so far have no more glyphs than all faces |
| ConsoleAtlases.Boxes | src/console_atlas.cpp:104 | one box per slot, numbered |
| ConsoleAtlases.BoxesMeaning | src/console_atlas.cpp:94-105 | box j has identifier j and its face's tile size, halved where letterboxed |
| ConsoleAtlases.BoxesGrow | src/console_atlas.cpp:104 | a glyph adds one box numbered by the count so far |
| ConsoleAtlases.AllocateFaceBoxes | src/console_atlas.cpp:102-105 | the face's glyphs add exactly their boxes |
| ConsoleAtlases.FaceFlags | src/console_atlas.cpp:91-93 | one atlas face per layout face with its letterbox flags |
| ConsoleAtlases.AllocateBoxes | src/console_atlas.cpp:89-106 | the atlas faces and the boxes of all slots |
| ConsoleAtlases.PlacementsMeaning | src/console_atlas.cpp:129-188 | placing throws exactly when a font glyph lacks a codepoint; otherwise glyph j is blitted into box j |
| ConsoleAtlases.PlacementsFail | src/console_atlas.cpp:176-180 | the error case of the above |
| ConsoleAtlases.PlacementsBlits | src/console_atlas.cpp:129-188 | the success case of the above |
| ConsoleAtlases.PlacementsStop | src/console_atlas.cpp:176-180 | once a face throws, later faces change nothing |
| ConsoleAtlases.PlacementsStep | src/console_atlas.cpp:126-129 | one more face continues at the running box index |
| ConsoleAtlases.PlaceFaceGlyphs | src/console_atlas.cpp:129-190 | one face's glyphs take the boxes from pack_box_i on, and pack_box_i advances by the glyph count |
| ConsoleAtlases.PlaceGlyphs | src/console_atlas.cpp:124-192 | corrected: the placements of every glyph, without adding faces |
| ConsoleAtlases.DefaultFaces | src/console_atlas.cpp:128 | n default faces |
| ConsoleAtlases.PlaceGlyphsAsWritten | src/console_atlas.cpp:124-192 | as written: the same placements, plus a default face per layout face |
| ConsoleAtlases.Sorted | src/console_atlas.cpp:107-123 | pack and sort give one box per glyph |
| ConsoleAtlases.CreateAsWritten | src/console_atlas.cpp:32-195 | the atlas or error of the code as written |
| ConsoleAtlases.Create | src/console_atlas.cpp:32-195 | the atlas or error of the corrected code |
| ConsoleAtlases.ExpectedErrors | src/console_atlas.cpp:35-62 | each error exactly when the code throws it |
| ConsoleAtlases.AsWrittenErrors | src/console_atlas.cpp:116-128 | the sort and the extra faces change no error |
| ConsoleAtlases.CreatePlacesOwnBoxes | src/console_atlas.cpp:124-192 | corrected: glyph j is blitted into box j, which has its face's tile size, and one face per layout face |
| ConsoleAtlases.AsWrittenReversesBoxes | src/console_atlas.cpp:116-131 | as written glyph j gets the box of glyph n-1-j, and the atlas has twice as many faces |
| ConsoleAtlases.KeepPlaceIsPacker | src/console_atlas.cpp:107-108 | the packer that moves nothing keeps every box |
| ConsoleAtlases.TwoFacesSlots | src/console_atlas.cpp:89-106 | the two-face example passes validation and has a letterboxed and a plain slot |
| ConsoleAtlases.AsWrittenRendersAtWrongSize | src/console_atlas.cpp:116-131 | as written the letterboxed face's character is rendered at the full 4 by 4 tile, and there are 4 faces |
| ConsoleAtlases.CreateRendersAtOwnSize | src/console_atlas.cpp:176-188 | corrected, it is rendered at its 2 by 4 half tile, and there are 2 faces |
| PngColors.AlphaBitOfColorTypes | src/libpng_ext.cpp:140 | of the five colour types exactly gray-alpha and RGBA have the alpha bit |
| PngColors.LibpngColorToPngColor | src/libpng_ext.cpp:31-47 | None exactly for a value that is none of the five colour types |
| PngColors.LibpngColorRoundTrip | src/libpng_ext.cpp:31-47 | each named colour comes from exactly one colour type |
| PngColors.Named | src/pngw_ext.cpp:73-88 | a bitmap colour names a PNG colour other than None and Palette |
| PngColors.NamedInjective | src/pngw_ext.cpp:73-88 | distinct bitmap colours name distinct PNG colours |
| PngColors.BitmapColorThroughLibpng | src/libpng_ext.cpp:49-63 | a bitmap colour through libpng's colour types comes back as the same-named PNG colour |
| PngColors.BitmapColorToLibpngColor | src/libpng_ext.cpp:49-63 | a colour type that libpng_color_to_png_color reads back as the same-named colour, with the alpha bit exactly for colours with alpha |
| PngColors.PngwColorToPngColor | src/pngw_ext.cpp:34-52 | None exactly outside the five enumerators |
| PngColors.PngColorToPngwColor | src/pngw_ext.cpp:54-71 | always one of the five enumerators; every colour but None comes back as itself through pngw_color_to_png_color |
| PngColors.BitmapColorToPngwColor | src/pngw_ext.cpp:73-88 | an enumerator other than the palette, the one png_color_to_pngw_color gives the same-named PNG colour |
| PngColors.PngwColorRoundTrip | src/pngw_ext.cpp:54-71 | a named colour survives the pngwcolor_t round trip; None comes back as Palette |
| PngColors.PngwColorRoundTripBack | src/pngw_ext.cpp:34-71 | every enumerator survives the opposite trip |
| PngColors.BitmapColorThroughPngw | src/pngw_ext.cpp:73-88 | a bitmap colour through pngwcolor_t is the same-named PNG colour |
| PngColors.AsWrittenAssertionRejectsValidColors | src/pngw_ext.cpp:36 | the assertion as written fails for every valid colour |
| PngColors.AssertionAcceptsExactlyNamedColors | src/pngw_ext.cpp:36-51 | the intended assertion holds exactly for the colours the switch names |
| PngColors.PngwResultToPngExceptionError | src/pngw_ext.cpp:28-32 | a failure code maps to an error in the same range |
| PngColors.ExceptionErrorInjective | src/pngw_ext.cpp:28-32 | distinct failures give distinct errors |
| PngColors.ToBitmapColor | test/src/color_conversion_tests.cpp:28-35 | a named PNG colour goes to the bitmap colour of its name, and Palette goes to Rgb |
| PngColors.ToPngColor | test/src/color_conversion_tests.cpp:37-43 | never None or Palette, and to_bitmap_color takes it back to the bitmap colour |
| PngColors.ColorConversionRoundTrip | test/src/color_conversion_tests.cpp:28-43 | a bitmap colour survives the trip through Png::Color; a PNG colour does too except Palette, which comes back as Rgb |
| PngColors.ConversionsAgree | test/src/color_conversion_tests.cpp:39-42 | to_png_color, the libpng route and the pngw route name the same colour |
| PngReadConfigure.Configure | src/libpng_ext.cpp:136-212 | the requested transforms are exactly the candidates whose guard holds |
| PngReadConfigure.AlphaTransforms | src/libpng_ext.cpp:140-151 | alpha is stripped exactly when the image has it and the bitmap does not; an opaque 0xffff filler is added after each pixel exactly when the bitmap wants alpha and the colour type has none; never both |
| PngReadConfigure.DepthTransforms | src/libpng_ext.cpp:154-171 | packing below 8 bits and 16-to-8 scaling (or stripping where scaling is unsupported) for 8-bit bitmaps; expansion to 16 bits for 16-bit ones; nothing for normalized ones; expansion never with a reduction |
| PngReadConfigure.ExpansionTransforms | src/libpng_ext.cpp:173-187 | low-depth gray is widened, palettes are expanded, tRNS becomes alpha, each exactly in its case |
| PngReadConfigure.ModelTransforms | src/libpng_ext.cpp:189-211 | colour to gray exactly for a gray bitmap of a colour or palette image, gray to colour exactly for a colour bitmap of a gray image, never both |
| PngReadConfigure.NativeReadIsPlain | src/libpng_ext.cpp:136-212 | an 8-bit gray image read as an 8-bit gray bitmap needs no transform |

## Left out

- Bitmap.cpp's SavePng, MutableBitmap.cpp's BlitPng, the libpng and pngw
  I/O functions, Png loading and fonts: these are file I/O and foreign
  libraries. Font glyph rendering is a `Character` picture of its
  codepoint and box size.
- The per-channel colour and depth conversion of a row blit
  (`rl::to_color_*` over octuple, sexdecuple and normalized samples): it
  involves floating point. It is a `Converter` parameter that must yield
  one destination pixel.
- rl::Bitmap::GetRowView is not part of this model. It is taken to be the
  full-width row at (0, y, page).
- bitmap_types.hpp is not part of this model. The Default depth and
  colour are taken to be Octuple and Rgb.
- Integer widths:
  - sizes and indices are unbounded `nat`;
  - overflow of std::size_t in the size arithmetic is not modelled;
  - the `int` loop counters of the row blits are not modelled either.
- Rows.Row.BlitMatchesReference and
  BitmapRows.BitmapRow.BlitRowMatchesReference: proved for separate rows,
  or for an in-place blit that keeps the colour. The direction rule
  compares channel widths only. For an in-place blit that changes the
  colour it can choose the wrong direction, as
  RowBlit.ChannelRuleNeedsSameColour shows. The library has no such call.
- MutableBitmaps.MutableBitmap.BlitBitmapAsWritten: a source with more
  pages than the destination writes through nullptr in C++. That case is
  excluded by its precondition.
- Memory.AddressOf: C++ adds the byte index to the base pointer without
  testing the base, and advancing nullptr is undefined behaviour. The
  model gives nullptr for a null base instead. Every address below is
  built on it and inherits that choice.
- Bitmaps.Bitmap.GetData, Rows.Row.GetData, Rows.RowView.GetData: a null
  base gives nullptr, as in Memory.AddressOf.
- BitmapRows.BitmapRow.GetData, BitmapRows.BitmapRow.GetMutableData: a
  null start gives nullptr, as in Memory.AddressOf.
- MutableBitmaps.MutableBitmap.GetMutableData: a null base gives nullptr,
  as in Memory.AddressOf.
- MutableBitmaps.MutableBitmap.SubViewAsWrittenHasNoPixels: the view as
  written has a null base. Its pixels are nullptr only under the choice
  made in Memory.AddressOf. In C++ their addresses are undefined.
- ImageRowBuffers.Row: the declaration of rl::Image::Row is not part of
  this model, since the Image.hpp shown declares no Row. Its fields are
  taken to start with no buffer and capacity 0, which the constructors'
  calls to reserve_data need.
- ImageRowBuffers.Row.ShrinkToFit: only the capacity reset is corrected.
  The reallocation branch still tests `capacity < GetSize()`, which no
  valid row meets, so a non-empty row keeps its whole buffer.
- ImageRowVectors.ImageRow.Reserve and ImageRowVectors.ImageRow.ResizeZeroed:
  the new capacity is exactly the larger of the request and the old
  capacity. std::vector promises only at least that. The model fixes one
  growth policy that the standard allows.
- The packer (rl::Packer) is a parameter. Its placement algorithm,
  GetWidth, GetHeight, GetPageCount and the atlas image it sizes
  (`atlas.image.Create`) are left out. Pack works in place on the vector;
  this is modelled as reassigning the box list with the packer's result.
- std::sort is a functional insertion sort. The identifiers are distinct,
  so every correct sort gives the same sequence.
- ConsoleAtlasFactory.cpp:163-213, the blit loop and the texture
  coordinates, is left out: it reads glyph sources through fonts and
  images.
- `reserve` calls are left out, because they change no observable
  content.
- AtlasFactory:
  - A non-font glyph's key codepoint is uninitialised in C++. It is 0
    here.
  - A font codepoint's key keeps the default top left (0, 0).
  - The font's GetAllCodepoints is an input, one codepoint list per font
    source.
- This revision of the factory reads face.letterboxed, face.font,
  glyph.top_left and glyph.codepoint. These fields are not in the
  console_atlas_layout.hpp shown. The model follows the factory.
- ConsoleAtlases:
  - the atlas image is the list of blits it receives;
  - bitmap sources are named by index;
  - an out-of-range source index, which is undefined behaviour in C++, is
    not checked;
  - the codepoint is an unbounded `nat`;
  - `static_cast<std::size_t>` of a negative box coordinate wraps modulo
    2^64 (`ToSize`).
- SourceKeys: rl::hash_combine and std::hash are a parameter, since
  neither is shown.
- PngColors:
  - png_wrapper.h is not part of this model. Its colour enumerators are
    taken to be 0 (palette) to 4 (RGBA), with COUNT 5, in declaration
    order.
  - pngw_ext.hpp declares pngw_result_to_bitmap_exception_error, but
    pngw_ext.cpp defines pngw_result_to_png_exception_error. The model
    follows the definition.
- PngColors: the `assert(true && ...)` fallbacks of pngw_ext.cpp:69 and
  :86 cannot be reached for the enumeration's values, and neither can the
  PNG_COLOR_TYPE_RGB fallback of libpng_ext.cpp:62.
- PngColors.ColorConversionRoundTrip: to_bitmap_color is defined only for
  the colours its test case covers. Png::Color::None is outside it.
- PngReadConfigure: png_set_rgb_to_gray_fixed is recorded as one
  transform with the default weights. The weights themselves are floating
  point.
- Nothing is modelled about concurrency. The classes are single-threaded.

## Findings

| source | as written | input that shows it | evidently intended | confidence | as-written member | corrected member |
|---|---|---|---|---|---|---|
| src/Bitmap_Row.cpp:201 | the reverse loop starts at `pixel_i = GetWidth()` | any row converted into wider channels: the first pixel read is x = width, whose address is nullptr | start at width - 1 | high, not executed | RowBlit.DescendingAsWrittenStartsPastRow, Rows.Row.DescendingAsWrittenReadsNull | RowBlit.BackwardVisitsDescendingOrder |
| src/MutableBitmapRow.cpp:138 | the same reverse loop in BlitRow | as above | start at width - 1 | high, not executed | RowBlit.DescendingAsWrittenStartsPastRow | RowBlit.BackwardVisitsDescendingOrder |
| src/BitmapRow.cpp:67-83 | GetByteIndex passes height 0 and 0 pages | any x, channel: no index, GetData is nullptr | height 1 and one page, as rl::Bitmap::Row does | high, not executed | BitmapRows.BitmapRow.AsWrittenFindsNoPixel | BitmapRows.BitmapRow.GetByteIndex |
| src/MutableBitmap.cpp:143-145 | row (j, k) of the source goes into row (j, k), full width, ignoring x, y and page | a 1×1 source blitted at (1, 0) into a 2×1 bitmap throws DifferentWidth | the row of the source's width at (x, y + j, page + k) | high, not executed | MutableBitmaps.MutableBitmap.BlitAsWrittenRejectsNarrowSource | MutableBitmaps.MutableBitmap.BlitBitmapOutcome |
| src/MutableBitmapView.cpp:29-55 | the constructor never stores pixel_data | every view from GetMutableView has a null pointer | store pixel_data | high, not executed | MutableBitmaps.MutableBitmap.SubViewAsWrittenHasNoPixels | MutableBitmaps.MutableBitmap.SubViewAddressesParent |
| src/Image_Row.cpp:25-31 | shrink_data frees the buffer of an empty row but keeps the capacity | capacity 4, width 0, ShrinkToFit, then Create(1, Octuple, G): size 1, no buffer | reset the capacity with the buffer, as free_data does | high, not executed | ImageRowBuffers.StaleCapacityAfterShrink | ImageRowBuffers.ShrinkThenCreate |
| src/ImageRow.cpp:78-86 | Create sizes the vector by GetSize(width, 0, 0, ...) | Create(1, Octuple, G) holds no byte | one row: GetRowSize(width, depth, color) | high, not executed | ImageRowVectors.CreatedRowIsEmpty | ImageRowVectors.CreatedRowHoldsRow |
| src/console_atlas.cpp:116-131 | the boxes are sorted by descending identifier but taken in glyph order | a letterboxed and a plain face, one font glyph each: the letterboxed glyph is rendered 4×4 in the plain glyph's box | ascending sort, so glyph j takes box j | high, not executed | ConsoleAtlases.AsWrittenRendersAtWrongSize | ConsoleAtlases.CreateRendersAtOwnSize |
| src/console_atlas.cpp:128 | the placement pass emplaces a second face per layout face | the same layout ends with 4 faces | use the faces built in the first pass | high, not executed | ConsoleAtlases.AsWrittenReversesBoxes | ConsoleAtlases.CreatePlacesOwnBoxes |
| src/pngw_ext.cpp:36 | `assert(color < PNGW_COLOR_PALETTE \|\| color >= PNGW_COLOR_COUNT && ...)` | PNGW_COLOR_G: the assertion fails in a debug build | the colour lies in [PALETTE, COUNT) | high, not executed | PngColors.AsWrittenAssertionRejectsValidColors | PngColors.AssertionAcceptsExactlyNamedColors |
