/** Facts about multiplication of naturals that the address reasoning needs.
    Byte offsets in the pixel loops are written with `Times`, multiplication
    by repeated addition: as a recursive function it stays an opaque quantity
    to the solver, which keeps the sequence reasoning free of nonlinear
    arithmetic. `TimesIsProduct` connects it with `*`. */
module Arith {

  lemma MulLeft(a: nat, b: nat, c: nat)
    requires a <= b
    ensures a * c <= b * c
  {
  }

  lemma MulRight(c: nat, a: nat, b: nat)
    requires a <= b
    ensures c * a <= c * b
  {
  }

  /** Pixel `x` of a run of `w` pixels of `p` bytes ends inside the run. */
  lemma PixelEnd(x: nat, w: nat, p: nat)
    requires x < w
    ensures x * p + p <= w * p
  {
    assert x * p + p == (x + 1) * p;
    MulLeft(x + 1, w, p);
  }

  /** A run of `w` pixels starting at pixel `x` of row `row` on page `page`
      ends no later than the last row of the last page of the bitmap. */
  lemma RowEndWithinExtent(page: nat, pages: nat, pageOffset: nat, row: nat, rows: nat, rowOffset: nat,
                           x: nat, w: nat, width: nat, p: nat)
    requires page < pages && row < rows && x + w <= width
    ensures page * pageOffset + row * rowOffset + x * p + w * p
         <= (pages - 1) * pageOffset + (rows - 1) * rowOffset + width * p
  {
    MulLeft(page, pages - 1, pageOffset);
    MulLeft(row, rows - 1, rowOffset);
    assert x * p + w * p == (x + w) * p;
    MulLeft(x + w, width, p);
  }

  /** A byte offset page·pageOffset + y·rowOffset + x·pixel + channel·lane
      determines its four coordinates when each stride leaves room for the
      next smaller unit. */
  lemma OffsetUnique(page1: nat, y1: nat, x1: nat, c1: nat, page2: nat, y2: nat, x2: nat, c2: nat,
                     pageOffset: nat, rowOffset: nat, pixel: nat, lane: nat)
    requires 0 < lane
    requires c1 * lane + lane <= pixel && c2 * lane + lane <= pixel
    requires x1 * pixel + pixel <= rowOffset && x2 * pixel + pixel <= rowOffset
    requires y1 * rowOffset + rowOffset <= pageOffset && y2 * rowOffset + rowOffset <= pageOffset
    requires page1 * pageOffset + y1 * rowOffset + x1 * pixel + c1 * lane
          == page2 * pageOffset + y2 * rowOffset + x2 * pixel + c2 * lane
    ensures page1 == page2 && y1 == y2 && x1 == x2 && c1 == c2
  {
    MulLeft(0, c1, lane);
    MulLeft(0, c2, lane);
    MulLeft(0, x1, pixel);
    MulLeft(0, x2, pixel);
    MulLeft(0, y1, rowOffset);
    MulLeft(0, y2, rowOffset);
    var lane1: nat, lane2: nat := c1 * lane, c2 * lane;
    var pixel1: nat, pixel2: nat := x1 * pixel, x2 * pixel;
    var row1: nat, row2: nat := y1 * rowOffset, y2 * rowOffset;
    var inPixel1, inPixel2 := pixel1 + lane1, pixel2 + lane2;
    var inRow1, inRow2 := row1 + inPixel1, row2 + inPixel2;
    assert inRow1 < pageOffset && inRow2 < pageOffset;
    DivUnique(page1, inRow1, page2, inRow2, pageOffset);
    DivUnique(y1, inPixel1, y2, inPixel2, rowOffset);
    DivUnique(x1, lane1, x2, lane2, pixel);
    DivUnique(c1, 0, c2, 0, lane);
  }

  /** Splitting a radix-`b` number with digit below `b` is unique. */
  lemma DivUnique(q1: nat, r1: nat, q2: nat, r2: nat, b: nat)
    requires r1 < b && r2 < b
    requires q1 * b + r1 == q2 * b + r2
    ensures q1 == q2 && r1 == r2
  {
    if q1 < q2 {
      MulLeft(q1 + 1, q2, b);
      assert false;
    } else if q2 < q1 {
      MulLeft(q2 + 1, q1, b);
      assert false;
    }
  }

  /** `n` copies of `size` added up. */
  function Times(n: nat, size: nat): nat
    decreases n
  {
    if n == 0 then 0 else Times(n - 1, size) + size
  }

  lemma {:induction false} TimesIsProduct(n: nat, size: nat)
    ensures Times(n, size) == n * size
    decreases n
  {
    if n > 0 {
      TimesIsProduct(n - 1, size);
    }
  }

  lemma {:induction false} TimesMonotone(a: nat, b: nat, size: nat)
    requires a <= b
    ensures Times(a, size) <= Times(b, size)
    decreases b
  {
    if a < b {
      TimesMonotone(a, b - 1, size);
    }
  }

  lemma {:induction false} TimesWider(n: nat, p: nat, q: nat)
    requires p <= q
    ensures Times(n, p) <= Times(n, q)
    decreases n
  {
    if n > 0 {
      TimesWider(n - 1, p, q);
    }
  }

  lemma {:induction false} TimesAdd(a: nat, b: nat, size: nat)
    ensures Times(a + b, size) == Times(a, size) + Times(b, size)
    decreases b
  {
    if b > 0 {
      TimesAdd(a, b - 1, size);
    }
  }
}
