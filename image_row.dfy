/** rl::Image::Row: a row of pixels that owns a heap buffer. `capacity` is
    the size of the buffer the row believes it owns; the row itself occupies
    the first GetSize() bytes. */
module ImageRowBuffers {
  import opened Memory
  import opened BitmapFormat

  class Row {
    var data: array?<Byte>
    var capacity: nat
    var width: nat
    var depth: Depth
    var color: Color

    /** Bitmap::Row::GetSize: the row's bytes, `width` pixels of the current
        format. */
    function GetSize(): (n: nat)
      reads this
      ensures n == width * PixelSize(depth, color)
    {
      RowSize(width, depth, color)
    }

    /** The bytes the buffer holds, which is the length of a buffer that
        exists; a row with a valid shape has no buffer exactly when the
        capacity is 0. */
    function GetCapacity(): (c: nat)
      reads this
      ensures Shape() && data != null ==> c == data.Length
      ensures Valid() ==> (c == 0 <==> data == null)
    {
      capacity
    }

    /** What every member function as written keeps: a buffer, when there is
        one, holds exactly `capacity` bytes, and the row fits in it. */
    ghost predicate Shape()
      reads this
    {
      (data != null ==> data.Length == capacity) && GetSize() <= capacity
    }

    /** What the class evidently intends on top of that: there is a buffer
        exactly when the capacity is not zero. */
    ghost predicate Valid()
      reads this
    {
      Shape() && (data == null <==> capacity == 0)
    }

    /** The bytes of the row exist: reserve_data copies GetSize() bytes out
        of the buffer, and every pixel accessor reads through it. */
    ghost predicate Readable()
      reads this
    {
      GetSize() == 0 || (data != null && GetSize() <= data.Length)
    }

    /** The row's bytes. */
    ghost function Contents(): (s: seq<Byte>)
      reads this, data
      requires Readable()
      ensures |s| == GetSize()
    {
      if GetSize() == 0 then [] else data[..GetSize()]
    }

    /** Under the intended invariant the row's bytes always exist. */
    lemma ValidIsReadable()
      requires Valid()
      ensures Readable()
      ensures GetSize() > 0 ==> data != null
    {
      if GetSize() > 0 {
        assert capacity > 0;
      }
    }

    /** Row(capacity): an empty row of the default format with a buffer of
        `capacity` bytes (none for 0). */
    constructor WithCapacity(c: nat)
      ensures Valid()
      ensures width == 0 && depth == DefaultDepth && color == DefaultColor
      ensures capacity == c && (data != null <==> c > 0)
    {
      data := null;
      capacity := 0;
      width := 0;
      depth := DefaultDepth;
      color := DefaultColor;
      new;
      Reserve(c);
    }

    /** Row(width, depth, color): a row created with that format. */
    constructor (w: nat, d: Depth, c: Color)
      ensures Valid() && Readable()
      ensures width == w && depth == d && color == c
      ensures capacity == RowSize(w, d, c)
    {
      data := null;
      capacity := 0;
      width := 0;
      depth := DefaultDepth;
      color := DefaultColor;
      new;
      Create(w, d, c);
    }

    /** free_data (run by the destructor): release the buffer. */
    method FreeData()
      modifies this
      ensures data == null && capacity == 0
      ensures width == old(width) && depth == old(depth) && color == old(color)
    {
      data := null;
      capacity := 0;
    }

    /** Reserve, that is reserve_data: grow the buffer to exactly `c` bytes
        when `c` exceeds the capacity, carrying the row's bytes over; never
        shrink it. */
    method Reserve(c: nat)
      requires Shape() && Readable()
      modifies this
      ensures width == old(width) && depth == old(depth) && color == old(color)
      ensures c > old(capacity) ==> fresh(data) && capacity == c
      ensures c <= old(capacity) ==> data == old(data) && capacity == old(capacity)
      ensures Shape() && Readable() && Contents() == old(Contents())
      ensures old(Valid()) ==> Valid()
    {
      if c > capacity {
        var fresh_data := new Byte[c];
        if GetSize() > 0 {
          CopyPrefix(data, fresh_data, GetSize());
        }
        data := fresh_data;
        capacity := c;
      }
    }

    /** Clear: back to an empty row of the default format; the buffer and
        the capacity stay. */
    method Clear()
      modifies this
      ensures width == 0 && depth == DefaultDepth && color == DefaultColor
      ensures data == old(data) && capacity == old(capacity)
      ensures Readable() && Contents() == []
      ensures old(Shape()) ==> Shape()
      ensures old(Valid()) ==> Valid()
    {
      width := 0;
      depth := DefaultDepth;
      color := DefaultColor;
    }

    /** Create: clear, reserve one row of the new format, then take that
        format. The capacity becomes at least the new row size. */
    method Create(w: nat, d: Depth, c: Color)
      requires Shape()
      modifies this
      ensures width == w && depth == d && color == c
      ensures capacity == if RowSize(w, d, c) > old(capacity) then RowSize(w, d, c) else old(capacity)
      ensures RowSize(w, d, c) > old(capacity) ==> fresh(data)
      ensures RowSize(w, d, c) <= old(capacity) ==> data == old(data)
      ensures Shape()
      ensures old(Valid()) ==> Valid() && Readable()
    {
      Clear();
      var size := RowSize(w, d, c);
      Reserve(size);
      width := w;
      color := c;
      depth := d;
    }

    /** ShrinkToFit (shrink_data) as written: an empty row gives its buffer
        back but keeps the old capacity. The reallocation branch for a
        capacity below the row size cannot be taken. */
    method ShrinkToFitAsWritten()
      requires Shape()
      modifies this
      ensures width == old(width) && depth == old(depth) && color == old(color)
      ensures old(GetSize()) == 0 && old(data) != null ==> data == null && capacity == old(capacity)
      ensures !(old(GetSize()) == 0 && old(data) != null) ==> data == old(data) && capacity == old(capacity)
      ensures Shape()
    {
      if GetSize() == 0 && data != null {
        data := null;
      } else if capacity < GetSize() {
        assert false;
      }
    }

    /** ShrinkToFit as intended: an empty row releases its buffer through
        free_data, so the capacity drops to 0 with it. Only that branch is
        corrected: the reallocation branch still tests a capacity below the
        row size, which a valid row never has, so a non-empty row keeps its
        buffer however much larger than the row it is. */
    method ShrinkToFit()
      requires Valid()
      modifies this
      ensures width == old(width) && depth == old(depth) && color == old(color)
      ensures old(GetSize()) == 0 ==> data == null && capacity == 0
      ensures old(GetSize()) != 0 ==> data == old(data) && capacity == old(capacity)
      ensures Valid()
    {
      if GetSize() == 0 && data != null {
        FreeData();
      } else if capacity < GetSize() {
        assert false;
      }
    }
  }

  /** memcpy: the first `n` bytes of `from` into `to`. */
  method CopyPrefix(from: array<Byte>, to: array<Byte>, n: nat)
    requires n <= from.Length && n <= to.Length && from != to
    modifies to
    ensures to[..n] == from[..n]
  {
    var i := 0;
    while i < n
      invariant i <= n
      invariant to[..i] == from[..i]
    {
      to[i] := from[i];
      i := i + 1;
    }
  }

  /** Shrinking an empty row that has a buffer, as written, then creating a
      one-byte row within the stale capacity: the row now has a byte but no
      buffer, so the row's pixel pointer is nullptr and the next growing
      Reserve copies out of nullptr. */
  method StaleCapacityAfterShrink() returns (row: Row)
    ensures row.Shape() && !row.Valid() && !row.Readable()
    ensures row.GetSize() == 1 && row.data == null && row.capacity == 4
  {
    row := new Row.WithCapacity(4);
    row.ShrinkToFitAsWritten();
    row.Create(1, Octuple, G);
  }

  /** The same calls with ShrinkToFit as intended leave a readable row. */
  method ShrinkThenCreate() returns (row: Row)
    ensures row.Valid() && row.Readable()
    ensures row.GetSize() == 1 && row.data != null && row.capacity == 1
  {
    row := new Row.WithCapacity(4);
    row.ShrinkToFit();
    row.Create(1, Octuple, G);
    row.ValidIsReadable();
  }
}
