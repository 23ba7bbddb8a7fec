/** Byte addresses. The library hands out raw pointers into pixel buffers; the
    model numbers every byte of the address space it reasons about and writes a
    pointer as that number, or as Null. */
module Memory {
  import opened Wrappers

  type Byte = bv8

  datatype Ptr = Null | At(addr: nat)

  /** Pointer arithmetic `base + index` as the accessors use it: a missing
      index yields nullptr. Advancing nullptr is undefined in C++; the model
      keeps it null. */
  function AddressOf(base: Ptr, index: Option<nat>): (p: Ptr)
    ensures p.At? <==> base.At? && index.Some?
    ensures p.At? ==> p.addr == base.addr + index.value
  {
    if base.At? && index.Some? then At(base.addr + index.value) else Null
  }

  /** The numeric address of a pointer, 0 for nullptr. */
  function AddrOr0(p: Ptr): nat {
    if p.At? then p.addr else 0
  }
}
