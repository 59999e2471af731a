/**
 The external engine that owns every managed value, described only through
 the contract the managed types rely on. Each store is a map from handle to
 value together with the next handle it will issue; a store is well formed
 when every live handle lies below that counter, so a handle taken from the
 counter is never one already in use.
 */
module HostRegistry {
  import opened RustCore

  type Handle = int

  /** Sign of a big integer: zero has its own case, distinct from both signs. */
  datatype Sign = Minus | NoSign | Plus

  /** The sign query `bi_sign` reports for a stored value. */
  function SignOf(x: int): (s: Sign)
    ensures s == Plus <==> x > 0
    ensures s == NoSign <==> x == 0
    ensures s == Minus <==> x < 0
  {
    if x > 0 then Plus else if x == 0 then NoSign else Minus
  }

  // ---------------------------------------------------------------------
  // Byte buffers (`mb_*`)
  // ---------------------------------------------------------------------

  datatype BufferHeap = BufferHeap(buffers: map<Handle, seq<u8>>, next: Handle)

  predicate ValidBuffers(heap: BufferHeap) {
    forall h :: h in heap.buffers ==> h < heap.next
  }

  /** Every buffer live in `heap` is still live in `heap'` with the same
      content, except possibly the one behind `except`. */
  predicate BuffersKeptExcept(heap: BufferHeap, heap': BufferHeap, except: Option<Handle>) {
    forall h :: h in heap.buffers && Some(h) != except ==>
      h in heap'.buffers && heap'.buffers[h] == heap.buffers[h]
  }

  /** `mb_new_from_bytes`: a fresh handle holding a copy of `bytes`. */
  function MbNewFromBytes(heap: BufferHeap, bytes: seq<u8>): (r: (BufferHeap, Handle))
    requires ValidBuffers(heap)
    ensures ValidBuffers(r.0)
    ensures r.1 !in heap.buffers && r.1 in r.0.buffers && r.0.buffers[r.1] == bytes
    ensures r.0.buffers.Keys == heap.buffers.Keys + {r.1}
    ensures BuffersKeptExcept(heap, r.0, None)
  {
    var h := heap.next;
    (BufferHeap(heap.buffers[h := bytes], heap.next + 1), h)
  }

  /** `mb_new_empty`. */
  function MbNewEmpty(heap: BufferHeap): (r: (BufferHeap, Handle))
    requires ValidBuffers(heap)
    ensures ValidBuffers(r.0)
    ensures r.1 !in heap.buffers && r.1 in r.0.buffers && r.0.buffers[r.1] == []
    ensures r.0.buffers.Keys == heap.buffers.Keys + {r.1}
    ensures BuffersKeptExcept(heap, r.0, None)
  {
    MbNewFromBytes(heap, [])
  }

  /** `mb_overwrite`: the buffer behind `h` now holds exactly `bytes`. */
  function MbOverwrite(heap: BufferHeap, h: Handle, bytes: seq<u8>): (heap': BufferHeap)
    requires h in heap.buffers
  {
    heap.(buffers := heap.buffers[h := bytes])
  }

  /** `mb_append_bytes`: `bytes` is added at the end of the buffer behind `h`. */
  function MbAppendBytes(heap: BufferHeap, h: Handle, bytes: seq<u8>): (heap': BufferHeap)
    requires h in heap.buffers
  {
    heap.(buffers := heap.buffers[h := heap.buffers[h] + bytes])
  }

  /** `mb_append`: the content behind `other` is added at the end of the
      buffer behind `h`, inside the engine. */
  function MbAppend(heap: BufferHeap, h: Handle, other: Handle): (heap': BufferHeap)
    requires h in heap.buffers && other in heap.buffers
  {
    heap.(buffers := heap.buffers[h := heap.buffers[h] + heap.buffers[other]])
  }

  /** `mb_to_boxed_bytes`: the bytes behind `h`, copied out of the engine. */
  function MbToBoxedBytes(heap: BufferHeap, h: Handle): (bytes: seq<u8>)
    requires h in heap.buffers
  {
    heap.buffers[h]
  }

  // ---------------------------------------------------------------------
  // Big integers (`bi_*`) and the contract-side handle counter
  // ---------------------------------------------------------------------

  datatype BigIntHeap = BigIntHeap(values: map<Handle, int>, next: Handle)

  predicate ValidBigInts(heap: BigIntHeap) {
    forall h :: h in heap.values ==> h < heap.next
  }

  /** Every value stored in `heap` is still stored in `heap'`, unchanged. */
  predicate BigIntsKept(heap: BigIntHeap, heap': BigIntHeap) {
    forall h :: h in heap.values ==> h in heap'.values && heap'.values[h] == heap.values[h]
  }

  /** `bi_cmp`: compares the two stored values. */
  function BiCmp(heap: BigIntHeap, a: Handle, b: Handle): (r: Ordering)
    requires a in heap.values && b in heap.values
  {
    CmpInt(heap.values[a], heap.values[b])
  }

  /** `bi_sign`. */
  function BiSign(heap: BigIntHeap, h: Handle): (s: Sign)
    requires h in heap.values
  {
    SignOf(heap.values[h])
  }

  /** `next_handle`, whose implementation is not part of this model: taken
      to be a counter above every live handle, so the handle it hands out is
      never a live one. */
  function NextHandle(heap: BigIntHeap): (r: (BigIntHeap, Handle))
    requires ValidBigInts(heap)
    ensures r.1 !in heap.values
    ensures r.0.values == heap.values && ValidBigInts(r.0) && r.1 < r.0.next
  {
    (heap.(next := heap.next + 1), heap.next)
  }

  /** Stores an exact integer behind `h` (`bi_set_int64` when `v` fits an `i64`). */
  function BiSet(heap: BigIntHeap, h: Handle, v: int): (heap': BigIntHeap)
    requires h < heap.next
  {
    heap.(values := heap.values[h := v])
  }

  /** `bi_set_int64`. */
  function BiSetInt64(heap: BigIntHeap, h: Handle, v: i64): (heap': BigIntHeap)
    requires h < heap.next
  {
    BiSet(heap, h, v)
  }
}
