/**
 * The inline members of ByteBuffer (utils/include/utils/buffer.h): the
 * accessors over its three fields and resize, which only moves the data
 * size within the allocated capacity. The out-of-line members (allocation,
 * append, insert, reserve, ...) live in a file that is not part of this model.
 */
module Buffer {
  /** The C++ size_t, 64 bits wide. */
  type size_t = x: int | 0 <= x < 0x1_0000_0000_0000_0000

  type uint8 = x: int | 0 <= x < 256

  /** A pointer into the storage: null, or the storage array plus an element offset. */
  datatype Ptr = Null | Addr(base: array<uint8>, offset: int)

  /** The three fields of a ByteBuffer, as one value. */
  datatype BufferState = BufferState(buffer: array?<uint8>, dataSize: size_t, capacity: size_t)

  /**
   * resize on the field values: the data size becomes sz clamped to the
   * capacity; storage and capacity are untouched.
   */
  function ResizeState(s: BufferState, sz: size_t): (r: BufferState)
    ensures r.buffer == s.buffer && r.capacity == s.capacity
    ensures r.dataSize <= r.capacity && r.dataSize <= sz
    ensures r.dataSize == sz || r.dataSize == r.capacity
  {
    s.(dataSize := if sz > s.capacity then s.capacity else sz)
  }

  /** Resizing twice to the same size is resizing once, whatever the size was before. */
  lemma ResizeIdempotent(s: BufferState, sz: size_t)
    ensures ResizeState(ResizeState(s, sz), sz) == ResizeState(s, sz)
    ensures forall t: BufferState | t.buffer == s.buffer && t.capacity == s.capacity ::
      ResizeState(t, sz) == ResizeState(s, sz)
  {
  }

  /** resize keeps what fits: a size within the capacity is taken as is, anything larger stops at the capacity. */
  lemma ResizeIsMin(s: BufferState, sz: size_t)
    ensures sz <= s.capacity ==> ResizeState(s, sz).dataSize == sz
    ensures sz > s.capacity ==> ResizeState(s, sz).dataSize == s.capacity
  {
  }

  class ByteBuffer {
    var mBuffer: array?<uint8>
    var mDataSize: size_t
    var mCapacity: size_t

    /** Stands in for the constructors, whose bodies are not part of this model: it takes the field values as given. */
    constructor (buffer: array?<uint8>, dataSize: size_t, capacity: size_t)
      ensures mBuffer == buffer && mDataSize == dataSize && mCapacity == capacity
    {
      mBuffer := buffer;
      mDataSize := dataSize;
      mCapacity := capacity;
    }

    function State(): BufferState
      reads this
    {
      BufferState(mBuffer, mDataSize, mCapacity)
    }

    /** data(), const_data() and begin(): the start of the storage, or null when none is allocated. */
    function Data(): (p: Ptr)
      reads this
      ensures p.Null? <==> mBuffer == null
      ensures p.Addr? ==> p.base == mBuffer && p.offset == 0
    {
      if mBuffer != null then Addr(mBuffer, 0) else Null
    }

    /** end(): the address of the last data byte, begin + size - 1, or null when no storage is allocated. */
    function End(): (p: Ptr)
      reads this
      ensures p.Null? <==> mBuffer == null
      ensures p.Addr? ==> p.base == mBuffer && p.offset == mDataSize - 1
    {
      if mBuffer != null then Addr(mBuffer, mDataSize - 1) else Null
    }

    function Size(): (n: size_t)
      reads this
      ensures n == State().dataSize
    {
      mDataSize
    }

    function Capacity(): (n: size_t)
      reads this
      ensures n == State().capacity
    {
      mCapacity
    }

    /** resize(sz): the data size becomes min(sz, capacity); storage and capacity are unchanged. */
    method Resize(sz: size_t)
      modifies this
      ensures State() == ResizeState(old(State()), sz)
      ensures mBuffer == old(mBuffer) && mCapacity == old(mCapacity)
      ensures Size() <= Capacity()
    {
      mDataSize := if sz > mCapacity then mCapacity else sz;
    }
  }

  /**
   * end() and begin() bracket the data: with storage allocated, end() is
   * size - 1 elements past begin(); for an empty buffer it lies one element
   * BEFORE begin().
   */
  lemma EndFollowsBegin(b: ByteBuffer)
    requires b.mBuffer != null
    ensures b.Data().Addr? && b.End().Addr? && b.Data().base == b.End().base
    ensures b.End().offset - b.Data().offset == b.Size() - 1
    ensures b.Size() == 0 ==> b.End().offset < b.Data().offset
  {
  }

  /** A caller's view: resize twice leaves the same buffer as resize once. */
  method ResizeTwice(b: ByteBuffer, sz: size_t)
    modifies b
    ensures b.State() == ResizeState(old(b.State()), sz)
  {
    b.Resize(sz);
    b.Resize(sz);
    ResizeIdempotent(old(b.State()), sz);
  }
}
