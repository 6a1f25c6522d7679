/**
  The output buffers behind format_to_n, formatted_size and the iterator overloads.

  One class stands for `buffer` together with the class that embeds it: `sink` selects the
  grow function, as the function pointer does in the code.  Sizes are unbounded, so the
  running count never wraps.
 */
module Buffers {
  import opened Wrappers

  const BUFFER_SIZE: nat := 256

  /** Which grow function the buffer carries:
      Iterator flushes a full buffer to an output iterator, Pointer first fills the caller's
      array and then scratches in its own, Counting only adds up. */
  datatype Sink = Iterator | Pointer | Counting

  function Min(a: nat, b: nat): nat { if a < b then a else b }

  /** What a limited output may receive of a stream; None is the unlimited buffer_traits. */
  function Bounded<T>(stream: seq<T>, limit: Option<nat>): (r: seq<T>)
    ensures |r| == if limit.Some? then Min(limit.value, |stream|) else |stream|
    ensures r <= stream
  {
    if limit.Some? && limit.value < |stream| then stream[..limit.value] else stream
  }

  /** One flush step: the bound of a longer stream is the old bound and what still fits. */
  lemma BoundedAppend<T>(a: seq<T>, b: seq<T>, limit: Option<nat>, room: nat)
    requires limit.Some? ==> room == if limit.value > |a| then limit.value - |a| else 0
    requires limit.None? ==> room == |b|
    ensures Bounded(a + b, limit) == Bounded(a, limit) + b[..Min(|b|, room)]
  {
    if limit.Some? && limit.value <= |a| {
      assert (a + b)[..limit.value] == a[..limit.value];
    }
  }

  /** The copying loop of append. */
  method CopyInto<T>(dst: array<T>, at: nat, piece: seq<T>)
    requires at + |piece| <= dst.Length
    modifies dst
    ensures dst[..at] == old(dst[..at])
    ensures dst[at..at + |piece|] == piece
    ensures forall j | at + |piece| <= j < dst.Length :: dst[j] == old(dst[j])
  {
    var i := 0;
    while i < |piece|
      invariant i <= |piece|
      invariant forall j | 0 <= j < dst.Length && !(at <= j < at + i) :: dst[j] == old(dst[j])
      invariant dst[at..at + i] == piece[..i]
    {
      dst[at + i] := piece[i];
      i := i + 1;
    }
  }

  class Buffer<T(0)> {
    const sink: Sink
    const limit: Option<nat>
    /** The embedded array data_, and the caller's array a Pointer sink writes to. */
    const data: array<T>
    const target: array<T>

    var ptr: array<T>
    var size: nat
    var capacity: nat
    /** Units flushed so far (kept by the traits class or by counting_buffer). */
    var count: nat
    /** What went through the output iterator; position of the pointer out_ in target. */
    var written: seq<T>
    var outPos: nat

    /** Everything appended, and the part of it that has left the buffer. */
    ghost var stream: seq<T>
    ghost var flushed: seq<T>

    ghost predicate Shape()
      reads this
    {
      && data != target && data.Length == BUFFER_SIZE
      && (ptr == data || ptr == target)
      && size <= capacity <= ptr.Length
      && (sink.Pointer? ==> limit.Some? && limit.value <= target.Length)
      && (sink.Counting? ==> limit.None?)
      && (ptr == data ==> capacity == BUFFER_SIZE)
      && (!sink.Pointer? ==> ptr == data)
      && (sink.Pointer? && ptr == target ==> capacity == limit.value && count == outPos == 0 && flushed == [])
    }

    ghost predicate Valid()
      reads this, data, target
    {
      && Shape()
      && stream == flushed + ptr[..size]
      && (limit.Some? || sink.Counting? ==> count == |flushed|)
      && (sink.Iterator? ==> written == Bounded(flushed, limit))
      && (sink.Pointer? && ptr == data ==> outPos == limit.value && target[..outPos] == Bounded(flushed, limit))
    }

    /** The part of the caller's array that is none of the buffer's business. */
    ghost function Beyond(): seq<T>
      reads this, target
    {
      if sink.Pointer? && limit.Some? && limit.value <= target.Length then target[limit.value..] else target[..]
    }

    /** What has reached the output. */
    ghost function Delivered(): seq<T>
      reads this, target
    {
      if sink.Pointer? && outPos <= target.Length then target[..outPos] else written
    }

    constructor ToIterator(n: Option<nat>)
      ensures Valid() && stream == [] && sink == Iterator && limit == n
      ensures fresh(data) && fresh(target)
    {
      sink, limit := Iterator, n;
      var d, t := new T[BUFFER_SIZE], new T[0];
      data, target, ptr := d, t, d;
      size, capacity, count, outPos := 0, BUFFER_SIZE, 0, 0;
      written, stream, flushed := [], [], [];
    }

    constructor ToPointer(out: array<T>, n: nat)
      requires n <= out.Length
      ensures Valid() && stream == [] && sink == Pointer && limit == Some(n)
      ensures fresh(data) && target == out
    {
      sink, limit := Pointer, Some(n);
      var d := new T[BUFFER_SIZE];
      data, target, ptr := d, out, out;
      size, capacity, count, outPos := 0, n, 0, 0;
      written, stream, flushed := [], [], [];
    }

    constructor ToCounter()
      ensures Valid() && stream == [] && sink == Counting && limit == None
      ensures fresh(data) && fresh(target)
    {
      sink, limit := Counting, None;
      var d, t := new T[BUFFER_SIZE], new T[0];
      data, target, ptr := d, t, d;
      size, capacity, count, outPos := 0, BUFFER_SIZE, 0, 0;
      written, stream, flushed := [], [], [];
    }

    /** fixed_buffer_traits::limit and buffer_traits::limit. */
    method Limit(n: nat) returns (r: nat)
      requires limit.Some? || sink.Iterator?
      modifies this`count
      ensures limit.Some? ==> count == old(count) + n
      ensures limit.None? ==> count == old(count) && r == n
      ensures limit.Some? ==> r == Min(n, if limit.value > old(count) then limit.value - old(count) else 0)
    {
      if limit.None? {
        return n;
      }
      var room: nat := if limit.value > count then limit.value - count else 0;
      count := count + n;
      r := Min(n, room);
    }

    /** Room a limited output has left after the units flushed so far. */
    ghost function Room(n: nat): nat
      reads this
    {
      if limit.None? then n else if limit.value > |flushed| then limit.value - |flushed| else 0
    }

    /** flush of the iterator buffer. */
    method FlushToIterator()
      requires Valid() && sink.Iterator?
      modifies this
      ensures Valid() && stream == old(stream)
      ensures size == 0 && capacity == BUFFER_SIZE
    {
      var n := size;
      BoundedAppend(flushed, data[..n], limit, Room(n));
      size := 0;
      var k := Limit(n);
      var i := 0;
      while i < k
        invariant i <= k <= n
        invariant written == old(written) + data[..i]
        invariant unchanged(this`ptr, this`capacity, this`outPos, this`stream, this`flushed)
        invariant size == 0 && count == (if limit.Some? then old(count) + n else old(count))
      {
        written := written + [data[i]];
        i := i + 1;
      }
      assert data[..n][..k] == data[..k];
      flushed := stream;
    }

    /** flush of the pointer buffer: the units are already in place the first time, and are
        dropped every later time.  Afterwards the output holds what it may of the stream; the
        buffer goes on if the caller's array was filled, and without that what it takes later
        would go nowhere. */
    method FlushPointer()
      requires Valid() && sink.Pointer?
      modifies this
      ensures stream == old(stream)
      ensures size == 0 && capacity == BUFFER_SIZE && count == |stream|
      ensures outPos == Min(limit.value, |stream|) && Delivered() == Bounded(stream, limit)
      ensures |stream| >= limit.value ==> Valid()
    {
      BoundedAppend(flushed, ptr[..size], limit, Room(size));
      var n := Limit(size);
      if ptr == target && outPos == 0 {
        assert target[..n] == stream;
        outPos := outPos + n;
        ptr, capacity := data, BUFFER_SIZE;
      }
      size := 0;
      flushed := stream;
    }

    /** The three grow functions. */
    method Grow()
      requires Valid()
      modifies this
      ensures Valid() && stream == old(stream)
      ensures size < capacity
    {
      match sink
      case Iterator =>
        if size == BUFFER_SIZE { FlushToIterator(); }
      case Pointer =>
        if size == capacity { FlushPointer(); }
      case Counting =>
        if size == BUFFER_SIZE {
          count := count + size;
          size := 0;
          flushed := stream;
        }
    }

    /** There is room for at least one more unit afterwards, whatever the capacity was. */
    method TryReserve(newCapacity: nat)
      requires Valid() && newCapacity > size
      modifies this
      ensures Valid() && stream == old(stream)
      ensures size < capacity
    {
      if newCapacity > capacity {
        Grow();
      }
    }

    method PushBack(value: T)
      requires Valid()
      modifies this, data, target
      ensures Valid() && stream == old(stream) + [value] && Beyond() == old(Beyond())
    {
      TryReserve(size + 1);
      ptr[size] := value;
      size := size + 1;
      stream := stream + [value];
      assert ptr[..size] == ptr[..size - 1] + [value];
    }

    /** Appends in pieces as large as the free space; every piece has at least one unit. */
    method Append(source: seq<T>)
      requires Valid()
      modifies this, data, target
      ensures Valid() && stream == old(stream) + source && Beyond() == old(Beyond())
    {
      var rest := source;
      while rest != []
        invariant Valid() && stream + rest == old(stream) + source && Beyond() == old(Beyond())
        decreases |rest|
      {
        rest := AppendPiece(rest);
      }
    }

    /** One iteration of append. */
    method AppendPiece(source: seq<T>) returns (rest: seq<T>)
      requires Valid() && source != []
      modifies this, data, target
      ensures Valid() && stream + rest == old(stream) + source && Beyond() == old(Beyond())
      ensures |rest| < |source|
    {
      var n := |source|;
      TryReserve(size + n);
      var free := capacity - size;
      if free < n {
        n := free;
      }
      Accept(source[..n]);
      rest := source[n..];
      assert source[..n] + rest == source;
    }

    method Accept(piece: seq<T>)
      requires Valid() && size + |piece| <= capacity
      modifies this, data, target
      ensures Valid() && stream == old(stream) + piece && Beyond() == old(Beyond())
    {
      CopyInto(ptr, size, piece);
      assert ptr[..size + |piece|] == old(ptr[..size]) + piece;
      assert ptr == target ==> target[limit.value..] == old(target[limit.value..]);
      size := size + |piece|;
      stream := stream + piece;
    }

    /** count(): all units appended so far, for every buffer whose traits count.  The traits of
        an unlimited iterator buffer do not, and there it is the units not flushed yet. */
    method Count() returns (n: nat)
      requires Valid()
      ensures n == if limit.Some? || sink.Counting? then |stream| else |stream| - |flushed|
    {
      n := (if limit.Some? || sink.Counting? then count else 0) + size;
    }

    /** out(): after it the output holds exactly the first `limit` units of the stream.  A
        Pointer buffer that was not full stops accepting: what it takes later goes nowhere. */
    method Out()
      requires Valid() && !sink.Counting?
      modifies this
      ensures stream == old(stream)
      ensures Delivered() == Bounded(stream, limit)
      ensures limit.Some? ==> count + size == |stream|
      ensures sink.Pointer? ==> outPos == Min(limit.value, |stream|)
      ensures sink.Iterator? || |stream| >= limit.value ==> Valid()
    {
      if sink.Pointer? {
        FlushPointer();
      } else {
        FlushToIterator();
      }
    }
  }

  // ----- Whole runs ----------------------------------------------------------------------------

  datatype Op<T> = Push(value: T) | Text(units: seq<T>)

  /** The stream a sequence of operations stands for. */
  function StreamOf<T>(ops: seq<Op<T>>): seq<T> {
    if ops == [] then []
    else StreamOf(ops[..|ops| - 1]) +
         match ops[|ops| - 1] { case Push(v) => [v] case Text(u) => u }
  }

  method Perform<T(0)>(buffer: Buffer<T>, ops: seq<Op<T>>)
    requires buffer.Valid() && buffer.stream == []
    modifies buffer, buffer.data, buffer.target
    ensures buffer.Valid() && buffer.stream == StreamOf(ops) && buffer.Beyond() == old(buffer.Beyond())
  {
    var i := 0;
    while i < |ops|
      invariant i <= |ops|
      invariant buffer.Valid() && buffer.stream == StreamOf(ops[..i])
      invariant buffer.Beyond() == old(buffer.Beyond())
    {
      match ops[i] {
        case Push(v) => buffer.PushBack(v);
        case Text(u) => buffer.Append(u);
      }
      i := i + 1;
      assert ops[..i][..i - 1] == ops[..i - 1];
    }
    assert ops[..i] == ops;
  }

  /** format_to_n through an output iterator: the first n units, and the count of all. */
  method FormatToN<T(0)>(ops: seq<Op<T>>, n: nat) returns (out: seq<T>, total: nat)
    ensures out == Bounded(StreamOf(ops), Some(n)) && total == |StreamOf(ops)|
  {
    var buffer := new Buffer<T>.ToIterator(Some(n));
    Perform(buffer, ops);
    total := buffer.Count();
    buffer.Out();
    out := buffer.written;
  }

  /** format_to_n into an array: the first n units land at its start, and the array beyond n
      is not touched. */
  method FormatToArray<T(0)>(ops: seq<Op<T>>, out: array<T>, n: nat) returns (used: nat, total: nat)
    requires n <= out.Length
    modifies out
    ensures used == Min(n, |StreamOf(ops)|) && total == |StreamOf(ops)|
    ensures out[..used] == Bounded(StreamOf(ops), Some(n))
    ensures out[n..] == old(out[n..])
  {
    var buffer := new Buffer<T>.ToPointer(out, n);
    Perform(buffer, ops);
    total := buffer.Count();
    buffer.Out();
    used := buffer.outPos;
  }

  /** formatted_size. */
  method FormattedSize<T(0)>(ops: seq<Op<T>>) returns (total: nat)
    ensures total == |StreamOf(ops)|
  {
    var buffer := new Buffer<T>.ToCounter();
    Perform(buffer, ops);
    total := buffer.Count();
  }
}
