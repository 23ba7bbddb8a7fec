/** rl::ImageRow: a row of pixels stored in a std::vector of bytes. The
    vector is its contents `data` and its capacity; the row's format is
    width, depth and colour. */
module ImageRowVectors {
  import opened Memory
  import opened BitmapFormat

  class ImageRow {
    var data: seq<Byte>
    var capacity: nat
    var width: nat
    var depth: Depth
    var color: Color

    /** The vector never holds more bytes than its capacity. */
    ghost predicate Valid()
      reads this
    {
      |data| <= capacity
    }

    /** An empty vector and the default format. */
    constructor ()
      ensures Valid()
      ensures data == [] && capacity == 0
      ensures width == 0 && depth == DefaultDepth && color == DefaultColor
    {
      data := [];
      capacity := 0;
      width := 0;
      depth := DefaultDepth;
      color := DefaultColor;
    }

    /** vector::capacity: never less than the bytes the vector holds. */
    function GetCapacity(): (c: nat)
      reads this
      ensures Valid() ==> |data| <= c
    {
      capacity
    }

    /** Clear: vector::clear keeps the capacity; the format goes back to the
        default. */
    method Clear()
      requires Valid()
      modifies this
      ensures Valid()
      ensures data == [] && capacity == old(capacity)
      ensures width == 0 && depth == DefaultDepth && color == DefaultColor
    {
      data := [];
      width := 0;
      depth := DefaultDepth;
      color := DefaultColor;
    }

    /** ShrinkToFit: vector::shrink_to_fit, taken as honoured. */
    method ShrinkToFit()
      requires Valid()
      modifies this
      ensures Valid()
      ensures data == old(data) && capacity == |data|
      ensures width == old(width) && depth == old(depth) && color == old(color)
    {
      capacity := |data|;
    }

    /** Reserve: vector::reserve grows the capacity to at least `c`; it
        changes neither the bytes nor the format. */
    method Reserve(c: nat)
      requires Valid()
      modifies this
      ensures Valid()
      ensures data == old(data)
      ensures capacity == if c > old(capacity) then c else old(capacity)
      ensures width == old(width) && depth == old(depth) && color == old(color)
    {
      if c > capacity {
        capacity := c;
      }
    }

    /** vector::resize(size, 0) on an empty vector: `size` zero bytes. */
    method ResizeZeroed(size: nat)
      requires Valid() && data == []
      modifies this
      ensures Valid()
      ensures data == Zeroes(size)
      ensures capacity == if size > old(capacity) then size else old(capacity)
      ensures width == old(width) && depth == old(depth) && color == old(color)
    {
      data := Zeroes(size);
      if size > capacity {
        capacity := size;
      }
    }

    /** Create as written: the storage is sized by GetSize(width, 0, 0, depth,
        color), the size of a bitmap with no rows and no pages. */
    method CreateAsWritten(w: nat, d: Depth, c: Color)
      requires Valid()
      modifies this
      ensures Valid()
      ensures width == w && depth == d && color == c
      ensures data == [] && capacity == old(capacity)
    {
      Clear();
      var size := Size(w, 0, 0, d, c);
      ResizeZeroed(size);
      width := w;
      color := c;
      depth := d;
    }

    /** Create as intended: one row of the new format, zero-filled. */
    method Create(w: nat, d: Depth, c: Color)
      requires Valid()
      modifies this
      ensures Valid()
      ensures width == w && depth == d && color == c
      ensures data == Zeroes(RowSize(w, d, c))
      ensures capacity >= RowSize(w, d, c) && capacity >= old(capacity)
    {
      Clear();
      var size := RowSize(w, d, c);
      ResizeZeroed(size);
      width := w;
      color := c;
      depth := d;
    }
  }

  /** `n` zero bytes. */
  function Zeroes(n: nat): (z: seq<Byte>)
    ensures |z| == n
    ensures forall i :: 0 <= i < n ==> z[i] == 0
  {
    seq(n, _ => 0)
  }

  /** A row created as written holds no byte whatever its format, while its
      pixels need a row's size: a one-pixel gray row already needs one. */
  method CreatedRowIsEmpty() returns (row: ImageRow)
    ensures row.width == 1 && row.depth == Octuple && row.color == G
    ensures row.data == [] && RowSize(row.width, row.depth, row.color) == 1
  {
    row := new ImageRow();
    row.CreateAsWritten(1, Octuple, G);
  }

  /** The same row created as intended holds exactly its one byte. */
  method CreatedRowHoldsRow() returns (row: ImageRow)
    ensures row.width == 1 && row.depth == Octuple && row.color == G
    ensures row.data == [0] && |row.data| == RowSize(row.width, row.depth, row.color)
  {
    row := new ImageRow();
    row.Create(1, Octuple, G);
  }
}
