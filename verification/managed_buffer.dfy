/**
 `ManagedBuffer`: a byte buffer that is nothing but a handle into the
 engine's buffer store. Every operation takes the store and, when it
 mutates or allocates, returns the new store; the buffer value itself never
 holds bytes.
 */
module ManagedBuffers {
  import opened RustCore
  import opened HostRegistry

  datatype ManagedBuffer = ManagedBuffer(handle: Handle)

  /** A buffer together with the store it was created in. */
  datatype Built = Built(heap: BufferHeap, buffer: ManagedBuffer)

  /** `b` refers to a buffer the (well-formed) store holds. */
  predicate Live(heap: BufferHeap, b: ManagedBuffer) {
    ValidBuffers(heap) && b.handle in heap.buffers
  }

  /** The store after a mutation of `b`: still well formed, with exactly the
      same live handles, and every other buffer untouched. */
  predicate MutatedOnly(heap: BufferHeap, heap': BufferHeap, b: ManagedBuffer) {
    && ValidBuffers(heap')
    && heap'.buffers.Keys == heap.buffers.Keys
    && heap'.next == heap.next
    && BuffersKeptExcept(heap, heap', Some(b.handle))
  }

  /** The store after an allocation of `b`: `b` was not live before, is live
      now, and every buffer live before keeps its content. */
  predicate Allocated(heap: BufferHeap, r: Built) {
    && Live(r.heap, r.buffer)
    && r.buffer.handle !in heap.buffers
    && r.heap.buffers.Keys == heap.buffers.Keys + {r.buffer.handle}
    && BuffersKeptExcept(heap, r.heap, None)
  }

  function NewEmpty(heap: BufferHeap): (r: Built)
    requires ValidBuffers(heap)
    ensures Allocated(heap, r)
    ensures Len(r.heap, r.buffer) == 0
  {
    var (heap', h) := MbNewEmpty(heap);
    Built(heap', ManagedBuffer(h))
  }

  function NewFromBytes(heap: BufferHeap, bytes: seq<u8>): (r: Built)
    requires ValidBuffers(heap)
    ensures Allocated(heap, r)
    ensures ToBoxedBytes(r.heap, r.buffer) == bytes
  {
    var (heap', h) := MbNewFromBytes(heap, bytes);
    Built(heap', ManagedBuffer(h))
  }

  /** `new_from_raw_handle`: wraps a handle the engine already holds,
      without allocating. */
  function NewFromRawHandle(heap: BufferHeap, h: Handle): (b: ManagedBuffer)
    requires ValidBuffers(heap) && h in heap.buffers
    ensures Live(heap, b) && b.handle == h
  {
    ManagedBuffer(h)
  }

  /** A buffer wrapped around a raw handle aliases the buffer that handle
      came from: appending through one shows through the other. */
  lemma RawHandleAliases(heap: BufferHeap, b: ManagedBuffer, s: seq<u8>)
    requires Live(heap, b)
    ensures var alias := NewFromRawHandle(heap, b.handle);
            && alias == b
            && ToBoxedBytes(AppendBytes(heap, alias, s), b) == ToBoxedBytes(heap, b) + s
  {
  }

  function Len(heap: BufferHeap, b: ManagedBuffer): (n: nat)
    requires Live(heap, b)
    ensures n == |ToBoxedBytes(heap, b)|
  {
    |heap.buffers[b.handle]|
  }

  /** `to_boxed_bytes`: the content the engine holds behind `b`, copied out
      into contract memory. It is a read: no new store comes back. */
  function ToBoxedBytes(heap: BufferHeap, b: ManagedBuffer): (bytes: seq<u8>)
    requires Live(heap, b)
    ensures bytes == heap.buffers[b.handle]
  {
    MbToBoxedBytes(heap, b.handle)
  }

  /** Materializing reads the store without changing it, and a buffer made
      from the materialized bytes materializes to the same bytes. */
  lemma BoxedBytesRoundTrip(heap: BufferHeap, b: ManagedBuffer)
    requires Live(heap, b)
    ensures var r := NewFromBytes(heap, ToBoxedBytes(heap, b));
            && ToBoxedBytes(r.heap, r.buffer) == ToBoxedBytes(heap, b)
            && ToBoxedBytes(r.heap, b) == ToBoxedBytes(heap, b)
  {
  }

  function Overwrite(heap: BufferHeap, b: ManagedBuffer, value: seq<u8>): (heap': BufferHeap)
    requires Live(heap, b)
    ensures MutatedOnly(heap, heap', b) && Live(heap', b)
    ensures ToBoxedBytes(heap', b) == value
  {
    MbOverwrite(heap, b.handle, value)
  }

  function Append(heap: BufferHeap, b: ManagedBuffer, other: ManagedBuffer): (heap': BufferHeap)
    requires Live(heap, b) && Live(heap, other)
    ensures MutatedOnly(heap, heap', b) && Live(heap', b) && Live(heap', other)
    ensures ToBoxedBytes(heap', b) == ToBoxedBytes(heap, b) + ToBoxedBytes(heap, other)
    ensures other.handle != b.handle ==> ToBoxedBytes(heap', other) == ToBoxedBytes(heap, other)
  {
    MbAppend(heap, b.handle, other.handle)
  }

  function AppendBytes(heap: BufferHeap, b: ManagedBuffer, slice: seq<u8>): (heap': BufferHeap)
    requires Live(heap, b)
    ensures MutatedOnly(heap, heap', b) && Live(heap', b)
    ensures ToBoxedBytes(heap', b) == ToBoxedBytes(heap, b) + slice
    ensures Len(heap', b) == Len(heap, b) + |slice|
  {
    MbAppendBytes(heap, b.handle, slice)
  }

  /** Overwriting twice is overwriting once with the later value. */
  lemma OverwriteLastWins(heap: BufferHeap, b: ManagedBuffer, v: seq<u8>, w: seq<u8>)
    requires Live(heap, b)
    ensures Overwrite(Overwrite(heap, b, v), b, w) == Overwrite(heap, b, w)
  {
  }

  /** Two appends in a row are one append of the two slices joined. */
  lemma AppendBytesTwice(heap: BufferHeap, b: ManagedBuffer, s: seq<u8>, t: seq<u8>)
    requires Live(heap, b)
    ensures AppendBytes(AppendBytes(heap, b, s), b, t) == AppendBytes(heap, b, s + t)
  {
    assert (ToBoxedBytes(heap, b) + s) + t == ToBoxedBytes(heap, b) + (s + t);
  }

  /** `Clone`: the content is copied out and back into a new handle, so the
      clone never shares a handle with the original. */
  function Clone(heap: BufferHeap, b: ManagedBuffer): (r: Built)
    requires Live(heap, b)
    ensures Allocated(heap, r) && Live(r.heap, b)
    ensures r.buffer.handle != b.handle
    ensures ToBoxedBytes(r.heap, r.buffer) == ToBoxedBytes(heap, b)
    ensures ToBoxedBytes(r.heap, b) == ToBoxedBytes(heap, b)
  {
    NewFromBytes(heap, ToBoxedBytes(heap, b))
  }

  /** A later append to a clone leaves the original's content as it was. */
  lemma CloneThenAppendKeepsOriginal(heap: BufferHeap, b: ManagedBuffer, slice: seq<u8>)
    requires Live(heap, b)
    ensures var c := Clone(heap, b);
            var heap' := AppendBytes(c.heap, c.buffer, slice);
            && Live(heap', b)
            && ToBoxedBytes(heap', b) == ToBoxedBytes(heap, b)
            && ToBoxedBytes(heap', c.buffer) == ToBoxedBytes(heap, b) + slice
  {
  }

  /** A later overwrite of a clone leaves the original's content as it was. */
  lemma CloneThenOverwriteKeepsOriginal(heap: BufferHeap, b: ManagedBuffer, value: seq<u8>)
    requires Live(heap, b)
    ensures var c := Clone(heap, b);
            var heap' := Overwrite(c.heap, c.buffer, value);
            && Live(heap', b)
            && ToBoxedBytes(heap', b) == ToBoxedBytes(heap, b)
  {
  }

  // ---------------------------------------------------------------------
  // The buffer as an encoding sink
  // ---------------------------------------------------------------------

  /** `NestedEncodeOutput::write`: raw bytes go to the end of the buffer. */
  function Write(heap: BufferHeap, b: ManagedBuffer, bytes: seq<u8>): (heap': BufferHeap)
    requires Live(heap, b)
    ensures MutatedOnly(heap, heap', b) && Live(heap', b)
    ensures ToBoxedBytes(heap', b) == ToBoxedBytes(heap, b) + bytes
  {
    AppendBytes(heap, b, bytes)
  }

  /** Identity of a type as `TryStaticCast` sees it at run time. */
  datatype TypeId = ManagedBufferType | OtherType(name: string)

  /** A value offered to the sink's fast path: its run-time type, and the
      buffer it is when that type is `ManagedBuffer`. */
  datatype Encodable = BufferValue(buffer: ManagedBuffer) | OtherValue(name: string) {
    function TypeOf(): (t: TypeId) {
      match this
      case BufferValue(_) => ManagedBufferType
      case OtherValue(n) => OtherType(n)
    }

    /** The run-time cast to a managed buffer: the buffer itself when the
        value is one, nothing otherwise. */
    function TryCastBuffer(): (r: Option<ManagedBuffer>)
      ensures r.Some? <==> TypeOf() == ManagedBufferType
    {
      match this
      case BufferValue(buf) => Some(buf)
      case OtherValue(_) => None
    }
  }

  /** `NestedEncodeOutput::push_specialized`: a value that is itself a
      managed buffer is appended handle to handle and reported as handled;
      any other value is declined and the sink is left alone. */
  function PushSpecialized(heap: BufferHeap, b: ManagedBuffer, value: Encodable): (r: (BufferHeap, bool))
    requires Live(heap, b)
    requires value.BufferValue? ==> Live(heap, value.buffer)
    ensures r.1 <==> value.TypeOf() == ManagedBufferType
    ensures r.1 ==> r.0 == AppendBytes(heap, b, ToBoxedBytes(heap, value.buffer))
    ensures !r.1 ==> r.0 == heap
  {
    match value.TryCastBuffer()
    case Some(other) => (Append(heap, b, other), true)
    case None => (heap, false)
  }

  /** Whichever path a generic encoder takes for a managed buffer, the sink
      ends up with the same store: the handle-level append is the byte-level
      write of the buffer's content. */
  lemma FastPathIsWrite(heap: BufferHeap, b: ManagedBuffer, other: ManagedBuffer)
    requires Live(heap, b) && Live(heap, other)
    ensures PushSpecialized(heap, b, BufferValue(other)).0 == Write(heap, b, ToBoxedBytes(heap, other))
  {
  }

  /** Appending a buffer holding "xy" to one holding "ab" on the fast path
      gives "abxy", as `append_bytes(b"xy")` does. */
  lemma FastPathExample()
    ensures var start := BufferHeap(map[], 0);
            var ab := NewFromBytes(start, [0x61, 0x62]);
            var xy := NewFromBytes(ab.heap, [0x78, 0x79]);
            var fast := PushSpecialized(xy.heap, ab.buffer, BufferValue(xy.buffer));
            var slow := AppendBytes(xy.heap, ab.buffer, [0x78, 0x79]);
            && fast.1
            && fast.0 == slow
            && ToBoxedBytes(fast.0, ab.buffer) == [0x61, 0x62, 0x78, 0x79]
  {
    var start := BufferHeap(map[], 0);
    var ab := NewFromBytes(start, [0x61, 0x62]);
    var xy := NewFromBytes(ab.heap, [0x78, 0x79]);
    assert ToBoxedBytes(xy.heap, xy.buffer) == [0x78, 0x79];
    assert ToBoxedBytes(xy.heap, ab.buffer) == [0x61, 0x62];
  }
}
