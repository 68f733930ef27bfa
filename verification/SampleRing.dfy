/**
 The sample ring of `i2s_stream.c`: one task and one interrupt handler share it without a lock.

 The class is the ring as its C functions change it, one call at a time.
 */
module SampleRing {
  import opened Words
  import R = Ring

  class RingBuffer {
    const buffer: array<int16>
    const size: uint32
    var head: uint32
    var tail: uint32
    var count: uint32

    ghost predicate Valid()
      reads this
    {
      && 0 < size <= buffer.Length
      && head < size && tail < size && count <= size
      && head == R.Slot(tail, count, size)
    }

    // The samples waiting in the ring, oldest first.
    ghost function Contents(): (s: seq<int16>)
      requires Valid()
      reads this, buffer
    {
      Held(count)
    }

    constructor (buffer: array<int16>, size: uint32)
      requires 0 < size <= buffer.Length
      ensures this.buffer == buffer && this.size == size
      ensures Valid() && Contents() == []
    {
      this.buffer := buffer;
      this.size := size;
      head, tail, count := 0, 0, 0;
    }

    // ring_buffer_init: a null result stands for the error code -1.
    static method Init(buffer: array?<int16>, size: uint32) returns (rb: RingBuffer?)
      requires buffer != null ==> size <= buffer.Length
      ensures rb == null <==> buffer == null || size == 0
      ensures rb != null ==> fresh(rb) && rb.buffer == buffer && rb.size == size && rb.Valid() && rb.Contents() == []
    {
      if buffer == null || size == 0 {
        return null;
      }
      rb := new RingBuffer(buffer, size);
    }

    method Available() returns (n: uint32)
      requires Valid()
      ensures n == |Contents()|
    {
      n := count;
    }

    method Free() returns (n: uint32)
      requires Valid()
      ensures n == size - |Contents()|
    {
      n := Wrap32(size - count);
    }

    method Clear()
      requires Valid()
      modifies this
      ensures Valid() && Contents() == []
    {
      head, tail, count := 0, 0, 0;
    }

    // The first `n` samples from `tail` on, published or not.
    ghost function Held(n: nat): (s: seq<int16>)
      requires 0 < size <= buffer.Length && tail < size && n <= size
      reads this, buffer
      ensures |s| == n
    {
      R.Window(buffer[..size], tail, n)
    }

    // `data` with the offset `at` is the pointer the C caller passes.
    method Write(data: array?<int16>, at: nat, requested: uint32) returns (written: uint32)
      requires Valid() && data != buffer
      requires data != null ==> at + requested <= data.Length
      modifies this, buffer
      ensures Valid()
      ensures written == if data == null then 0 else Min(requested, size - |old(Contents())|)
      ensures Contents() == old(Contents()) + (if data == null then [] else data[at..at + written])
      ensures forall i :: size <= i < buffer.Length ==> buffer[i] == old(buffer[i])
    {
      hide R.Window;
      if data == null || requested == 0 {
        return 0;
      }
      var limit := requested;
      var freeSpace := Free();
      if limit > freeSpace {
        limit := freeSpace;
      }
      CopyIn(data, at, limit);
      written := limit;
      ghost var n := count + written;
      count := Wrap32(count + written);
      assert count == n;
    }

    // The copy loop of a write; `count` still hides what it stores.
    method CopyIn(data: array<int16>, at: nat, limit: uint32)
      requires Valid() && data != buffer && at + limit <= data.Length && count + limit <= size
      modifies `head, buffer
      ensures head == R.Slot(tail, count + limit, size)
      ensures Held(count + limit) == old(Contents()) + data[at..at + limit]
      ensures forall i :: size <= i < buffer.Length ==> buffer[i] == old(buffer[i])
    {
      hide R.Window;
      var written: uint32 := 0;
      ghost var base := Contents();
      while written < limit
        invariant written <= limit && head == R.Slot(tail, count + written, size)
        invariant Held(count + written) == base + data[at..at + written]
        invariant forall i :: size <= i < buffer.Length ==> buffer[i] == old(buffer[i])
      {
        StoreOne(data[at + written], count + written);
        assert data[at..at + written + 1] == data[at..at + written] + [data[at + written]];
        written := written + 1;
      }
    }

    method StoreOne(x: int16, ghost n: nat)
      requires 0 < size <= buffer.Length && tail < size && n < size && head == R.Slot(tail, n, size)
      modifies `head, buffer
      ensures head == R.Slot(tail, n + 1, size)
      ensures Held(n + 1) == old(Held(n)) + [x]
      ensures forall i :: size <= i < buffer.Length ==> buffer[i] == old(buffer[i])
    {
      R.WindowPush(buffer[..size], tail, n, x);
      ghost var was := buffer[..size];
      buffer[head] := x;
      assert buffer[..size] == was[head := x];
      R.NextIsRemainder(head, size);
      head := (head + 1) % size;
    }

    method Read(data: array?<int16>, at: nat, requested: uint32) returns (got: uint32)
      requires Valid() && data != buffer
      requires data != null ==> at + requested <= data.Length
      modifies this, data
      ensures Valid()
      ensures got == if data == null then 0 else Min(requested, |old(Contents())|)
      ensures Contents() == old(Contents())[got..]
      ensures data != null ==> forall i :: 0 <= i < data.Length ==>
        data[i] == if at <= i < at + got then old(Contents())[i - at] else old(data[i])
    {
      hide R.Window;
      if data == null || requested == 0 {
        return 0;
      }
      var limit := requested;
      var available := Available();
      if limit > available {
        limit := available;
      }
      CopyOut(data, at, limit);
      got := limit;
      ghost var n := count - got;
      count := Wrap32(count - got);
      assert count == n;
    }

    // The copy loop of a read; `count` still covers the slots it frees.
    method CopyOut(data: array<int16>, at: nat, limit: uint32)
      requires Valid() && data != buffer && at + limit <= data.Length && limit <= count
      modifies `tail, data
      ensures tail < size && head == R.Slot(tail, count - limit, size)
      ensures Held(count - limit) == old(Contents())[limit..]
      ensures forall i :: 0 <= i < data.Length ==>
        data[i] == if at <= i < at + limit then old(Contents())[i - at] else old(data[i])
    {
      hide R.Window;
      var got: uint32 := 0;
      ghost var all := Contents();
      while got < limit
        invariant got <= limit && tail < size && head == R.Slot(tail, count - got, size)
        invariant Held(count - got) == all[got..]
        invariant forall i :: 0 <= i < data.Length ==>
          data[i] == if at <= i < at + got then all[i - at] else old(data[i])
      {
        var x := FetchOne(count - got);
        data[at + got] := x;
        got := got + 1;
      }
    }

    method FetchOne(ghost n: nat) returns (x: int16)
      requires 0 < size <= buffer.Length && tail < size && 0 < n <= size
      modifies `tail
      ensures tail < size && R.Slot(tail, n - 1, size) == old(R.Slot(tail, n, size))
      ensures old(Held(n)) == [x] + Held(n - 1)
    {
      R.WindowPop(buffer[..size], tail, n);
      x := buffer[tail];
      R.NextIsRemainder(tail, size);
      tail := (tail + 1) % size;
    }
  }
}
