// streamed_mutation and its impl: a FIFO buffer of mutation fragments with a
// running byte total, refilled by the implementation's fill_buffer(), and the
// pull operations operator() and peek() on top of it. transform()'s reader is
// one of the fill_buffer() implementations and is modelled here as well.

module StreamedMutation {
  import opened Fragment

  /** schema_ptr, opaque. */
  datatype Schema = Schema(id: int)

  /** impl::max_buffer_size_in_bytes starts at 8 KiB. */
  const DefaultMaxBufferSizeInBytes: nat := 8 * 1024

  /**
   * Which implementation of the pure virtual fill_buffer() a stream has, fixed
   * when the stream is made:
   *  - Producer: a reference producer that emits the fragments in the stream's
   *    `pending` field;
   *  - Mapped: the reader built by transform(), which pulls from an inner
   *    stream and maps every fragment through f.
   */
  datatype Source =
    | Producer
    | Mapped(inner: Stream, f: Payload -> Payload)

  /** Applies f to every element, keeping the order. */
  function MapPayloads(f: Payload -> Payload, ps: seq<Payload>): seq<Payload> {
    seq(|ps|, i requires 0 <= i < |ps| => f(ps[i]))
  }

  /** Mapping commutes with concatenation. */
  lemma MapPayloadsAppend(f: Payload -> Payload, a: seq<Payload>, b: seq<Payload>)
    ensures MapPayloads(f, a + b) == MapPayloads(f, a) + MapPayloads(f, b)
  {
  }

  /**
   * The arithmetic of transform()'s fill_buffer() on values: when the inner
   * stream's refill split its remaining fragments into `filled` (now buffered)
   * and `rest`, moving the mapped `filled` over keeps the mapped whole.
   */
  lemma MappedRefill(f: Payload -> Payload, c0: seq<Payload>, ic0: seq<Payload>, items0: seq<Payload>,
                     filled: seq<Payload>, rest: seq<Payload>)
    requires filled + rest == ic0 + items0
    ensures (c0 + MapPayloads(f, filled)) + MapPayloads(f, [] + rest) == c0 + MapPayloads(f, ic0 + items0)
  {
    MapPayloadsAppend(f, filled, rest);
    assert [] + rest == rest;
  }

  function Elems(fs: seq<MutationFragment>): set<object> {
    set i | 0 <= i < |fs| :: fs[i] as object
  }


  class Stream {
    // streamed_mutation::impl state
    var buffer: seq<MutationFragment>
    var bufferSize: nat
    /** circular_buffer::capacity() of _buffer */
    var capacity: nat
    var maxBufferSizeInBytes: nat
    const schema: Schema
    const key: DecoratedKey
    const partitionTombstone: Tombstone
    var endOfStream: bool
    // the implementation behind fill_buffer()
    const source: Source
    /** The reference producer's fragments not yet pushed (unused by transform()'s reader). */
    var pending: seq<Payload>

    /** The values of the buffered fragments, front first. */
    ghost var contents: seq<Payload>

    /**
     * The objects the stream's operations write: the stream and, for transform()'s
     * reader, the inner stream. Buffered fragments are never written once pushed.
     */
    ghost function Repr(): set<object> {
      {this} + (if source.Mapped? then {source.inner as object} else {})
    }

    /** Every object the stream's abstract value depends on: Repr() and the buffered fragments. */
    ghost function Footprint(): set<object>
      reads Repr()
    {
      Repr() + Elems(buffer) + (if source.Mapped? then Elems(source.inner.buffer) else {})
    }

    /**
     * The buffer part of the invariant: the fragments hold `contents`, each has
     * its size cache filled (push computed it) and not stale, and _buffer_size is exactly their total memory usage.
     */
    ghost predicate BufferValid()
      reads this, buffer
    {
      && |buffer| == |contents|
      && (forall i :: 0 <= i < |buffer| ==> buffer[i].payload == contents[i] && buffer[i].Valid() && buffer[i].sizeInBytes.Some?)
      && bufferSize == TotalMemoryUsage(contents)
      && |buffer| <= capacity
    }

    /** A reference producer is at end of stream only once it has nothing left. */
    ghost predicate ProducerValid()
      reads this
    {
      source.Producer? && (endOfStream ==> pending == [])
    }

    ghost predicate Valid()
      reads Footprint()
    {
      && BufferValid()
      && (source.Producer? ==> ProducerValid())
      && (source.Mapped? ==>
            && source.inner != this
            && source.inner.ProducerValid()
            && source.inner.BufferValid()
            && (endOfStream ==> source.inner.endOfStream && source.inner.buffer == []))
    }

    /** The fragments the implementation has yet to hand to the buffer. */
    ghost function Unbuffered(): seq<Payload>
      reads this`pending, if source.Mapped? then {source.inner} else {}
    {
      match source
      case Producer => pending
      case Mapped(inner, f) =>
        (if inner.source.Producer? then MapPayloads(f, inner.contents + inner.pending) else [])
    }

    /** The whole rest of the stream: what operator() will return, in order. */
    ghost function Remaining(): seq<Payload>
      reads Repr()
    {
      contents + Unbuffered()
    }

    /** impl(schema, key, tombstone) for an implementation that will emit `items`. */
    constructor (s: Schema, dk: DecoratedKey, pt: Tombstone, items: seq<Payload>)
      ensures Valid() && fresh(Repr())
      ensures schema == s && key == dk && partitionTombstone == pt
      ensures buffer == [] && bufferSize == 0 && !endOfStream
      ensures maxBufferSizeInBytes == DefaultMaxBufferSizeInBytes
      ensures source == Producer && pending == items && Remaining() == items
    {
      buffer := [];
      contents := [];
      bufferSize := 0;
      capacity := 0;
      maxBufferSizeInBytes := DefaultMaxBufferSizeInBytes;
      schema := s;
      key := dk;
      partitionTombstone := pt;
      endOfStream := false;
      source := Producer;
      pending := items;
    }

    /**
     * transform(sm, t): a stream with sm's key and partition tombstone, the
     * schema mapped through ts, and every fragment of sm mapped through f.
     */
    constructor Transform(sm: Stream, f: Payload -> Payload, ts: Schema -> Schema)
      requires sm.Valid() && sm.source.Producer?
      ensures Valid() && fresh(Repr() - sm.Repr())
      ensures schema == ts(sm.schema) && key == sm.key && partitionTombstone == sm.partitionTombstone
      ensures buffer == [] && bufferSize == 0 && !endOfStream
      ensures maxBufferSizeInBytes == DefaultMaxBufferSizeInBytes
      ensures source == Mapped(sm, f)
      ensures Remaining() == MapPayloads(f, sm.Remaining())
    {
      buffer := [];
      contents := [];
      bufferSize := 0;
      capacity := 0;
      maxBufferSizeInBytes := DefaultMaxBufferSizeInBytes;
      schema := ts(sm.schema);
      key := sm.key;
      partitionTombstone := sm.partitionTombstone;
      endOfStream := false;
      source := Mapped(sm, f);
      pending := [];
    }

    function IsEndOfStream(): bool
      reads this
    {
      endOfStream
    }

    function IsBufferEmpty(): bool
      reads this
    {
      buffer == []
    }

    function IsBufferFull(): bool
      reads this
    {
      bufferSize >= maxBufferSizeInBytes
    }

    /** push_mutation_fragment: appends a new fragment and adds its memory usage to the total. */
    method Push(p: Payload)
      requires BufferValid()
      modifies this`buffer, this`contents, this`bufferSize, this`capacity
      ensures BufferValid()
      ensures |buffer| == |old(buffer)| + 1 && buffer[..|old(buffer)|] == old(buffer)
      ensures fresh(buffer[|old(buffer)|])
      ensures contents == old(contents) + [p]
      ensures bufferSize == old(bufferSize) + MemoryUsage(p)
      ensures old(|buffer|) < old(capacity) ==> capacity == old(capacity)
    {
      if |buffer| == capacity {
        capacity := |buffer| * 2 + 1;
      }
      var f := new MutationFragment(p);
      buffer, contents := buffer + [f], contents + [p];
      var size := f.GetMemoryUsage();
      TotalMemoryUsageAppend(old(contents), [p]);
      bufferSize := bufferSize + size;
    }

    /** reserve_one: afterwards the next push will not have to grow the buffer. */
    method ReserveOne()
      requires BufferValid()
      modifies this`capacity
      ensures capacity > |buffer|
      ensures old(capacity) > |buffer| ==> capacity == old(capacity)
      ensures old(capacity) == |buffer| ==> capacity == |buffer| * 2 + 1
    {
      if capacity == |buffer| {
        capacity := |buffer| * 2 + 1;
      }
    }

    /** pop_mutation_fragment: removes the front fragment and subtracts its memory usage. */
    method Pop() returns (f: MutationFragment)
      requires BufferValid() && buffer != []
      modifies this`buffer, this`contents, this`bufferSize
      ensures BufferValid()
      ensures f == old(buffer[0]) && f.payload == old(contents[0]) && f.Valid()
      ensures buffer == old(buffer[1..]) && contents == old(contents[1..])
      ensures bufferSize == old(bufferSize) - MemoryUsage(f.payload)
      ensures Unbuffered() == old(Unbuffered()) && Remaining() == old(Remaining())[1..]
      ensures old(Valid()) ==> Valid()
    {
      ghost var c0 := contents;
      f := buffer[0];
      buffer, contents := buffer[1..], contents[1..];
      assert TotalMemoryUsage(c0) == MemoryUsage(c0[0]) + TotalMemoryUsage(contents);
      var size := f.CachedMemoryUsage();
      bufferSize := bufferSize - size;
      assert (c0 + Unbuffered())[1..] == contents + Unbuffered();
    }

    /** set_max_buffer_size: changes the limit and nothing else. */
    method SetMaxBufferSize(size: nat)
      modifies this`maxBufferSizeInBytes
      ensures maxBufferSizeInBytes == size
    {
      maxBufferSizeInBytes := size;
    }

    /**
     * The reference producer's fill_buffer(): emits at least one fragment when it
     * has any left, keeps going until the buffer is full, and sets end of stream
     * once it has nothing left.
     */
    method FillFromProducer()
      requires Valid() && source.Producer?
      modifies this`buffer, this`contents, this`bufferSize, this`capacity, this`pending, this`endOfStream
      ensures Valid()
      ensures Remaining() == old(Remaining())
      ensures old(contents) <= contents
      ensures endOfStream <==> Unbuffered() == []
      ensures Unbuffered() != [] ==> IsBufferFull()
      ensures old(Unbuffered()) != [] ==> |Unbuffered()| < |old(Unbuffered())|
    {
      var rest := Produce(pending);
      pending, endOfStream := rest, rest == [];
    }

    /** The producer's loop: pushes from the front of items, at least one, until the buffer is full or items run out. */
    method Produce(items: seq<Payload>) returns (rest: seq<Payload>)
      requires BufferValid()
      modifies this`buffer, this`contents, this`bufferSize, this`capacity
      ensures BufferValid()
      ensures contents + rest == old(contents) + items
      ensures old(contents) <= contents
      ensures items != [] ==> |rest| < |items|
      ensures rest != [] ==> IsBufferFull()
      ensures |old(buffer)| <= |buffer| && buffer[..|old(buffer)|] == old(buffer)
      ensures forall i :: |old(buffer)| <= i < |buffer| ==> fresh(buffer[i])
    {
      rest := items;
      var pushed := false;
      while rest != [] && (!pushed || !IsBufferFull())
        invariant BufferValid()
        invariant contents + rest == old(contents) + items
        invariant old(contents) <= contents
        invariant |rest| <= |items| && (pushed || rest == items) && (pushed ==> |rest| < |items|)
        invariant |old(buffer)| <= |buffer| && buffer[..|old(buffer)|] == old(buffer)
        invariant forall i :: |old(buffer)| <= i < |buffer| ==> fresh(buffer[i])
      {
        Push(rest[0]);
        rest := rest[1..];
        pushed := true;
      }
    }

    /**
     * The fill_buffer() of transform()'s reader: refills the inner stream, moves
     * every fragment of the inner buffer over, mapped through f, and copies the
     * inner end-of-stream flag.
     */
    method FillFromInner()
      requires Valid() && source.Mapped?
      modifies this`buffer, this`contents, this`bufferSize, this`capacity, this`endOfStream
      modifies source.inner`buffer, source.inner`contents, source.inner`bufferSize, source.inner`capacity
      modifies source.inner`pending, source.inner`endOfStream
      ensures Valid()
      ensures Remaining() == old(Remaining())
      ensures old(contents) <= contents
      ensures endOfStream <==> Unbuffered() == []
      ensures source.inner.buffer == []
      ensures old(Unbuffered()) != [] ==> |Unbuffered()| < |old(Unbuffered())|
    {
      var inner, f := source.inner, source.f;
      ghost var c0, ic0, items0 := contents, inner.contents, inner.pending;
      inner.FillFromProducer();
      ghost var filled, rest := inner.contents, inner.pending;
      MoveMapped(inner, f);
      endOfStream := inner.endOfStream;
      MappedRefill(f, c0, ic0, items0, filled, rest);
      assert Unbuffered() == MapPayloads(f, [] + rest);
    }

    /** The loop of transform()'s fill_buffer(): pops every inner fragment and pushes its image under f. */
    method MoveMapped(inner: Stream, f: Payload -> Payload)
      requires inner != this && BufferValid() && inner.BufferValid()
      modifies this`buffer, this`contents, this`bufferSize, this`capacity
      modifies inner`buffer, inner`contents, inner`bufferSize
      ensures BufferValid() && inner.BufferValid()
      ensures inner.buffer == [] && inner.contents == []
      ensures contents == old(contents) + MapPayloads(f, old(inner.contents))
    {
      ghost var k := 0;
      while inner.buffer != []
        invariant inner.BufferValid() && BufferValid()
        invariant 0 <= k <= |old(inner.contents)| && inner.contents == old(inner.contents)[k..]
        invariant contents == old(contents) + MapPayloads(f, old(inner.contents)[..k])
        decreases |inner.buffer|
      {
        MoveOneMapped(inner, f);
        assert old(inner.contents)[..k + 1] == old(inner.contents)[..k] + [old(inner.contents)[k]];
        MapPayloadsAppend(f, old(inner.contents)[..k], [old(inner.contents)[k]]);
        k := k + 1;
      }
    }

    /** One step of that loop: the inner stream's front fragment is popped and its image pushed. */
    method MoveOneMapped(inner: Stream, f: Payload -> Payload)
      requires inner != this && BufferValid() && inner.BufferValid() && inner.buffer != []
      modifies this`buffer, this`contents, this`bufferSize, this`capacity
      modifies inner`buffer, inner`contents, inner`bufferSize
      ensures BufferValid() && inner.BufferValid()
      ensures inner.buffer == old(inner.buffer)[1..] && inner.contents == old(inner.contents)[1..]
      ensures contents == old(contents) + [f(old(inner.contents)[0])]
    {
      var g := inner.Pop();
      Push(f(g.payload));
    }

    /** fill_buffer(), dispatched to the implementation. */
    method FillBuffer()
      requires Valid()
      modifies Repr()
      ensures Valid()
      ensures Remaining() == old(Remaining())
      ensures old(contents) <= contents
      ensures endOfStream <==> Unbuffered() == []
      ensures old(Unbuffered()) != [] ==> |Unbuffered()| < |old(Unbuffered())|
      ensures maxBufferSizeInBytes == old(maxBufferSizeInBytes)
    {
      if source.Producer? {
        FillFromProducer();
      } else {
        FillFromInner();
      }
    }

    /** Once end of stream is set, the implementation has nothing left to hand over. */
    lemma EndOfStreamExhausted()
      requires Valid() && endOfStream
      ensures Unbuffered() == []
    {
      if source.Mapped? {
        assert source.inner.contents == [];
      }
    }

    /**
     * _buffer_size is 0 exactly when is_buffer_empty(). So an empty buffer is
     * full only under a limit of 0, and a buffer holding n fragments is full
     * under any limit of at most n times the fixed size of a fragment.
     */
    lemma BufferSizeFacts()
      requires BufferValid()
      ensures bufferSize == 0 <==> IsBufferEmpty()
      ensures IsBufferEmpty() ==> (IsBufferFull() <==> maxBufferSizeInBytes == 0)
      ensures maxBufferSizeInBytes <= |buffer| * DataOverhead ==> IsBufferFull()
    {
      TotalMemoryUsageLowerBound(contents);
    }

    /**
     * operator()(): refills while the buffer is empty and the stream is not
     * exhausted, then pops the front fragment, or yields nothing at end of stream.
     */
    method Next() returns (r: Option<MutationFragment>)
      requires Valid()
      modifies Repr()
      ensures Valid()
      ensures r.None? <==> old(Remaining()) == []
      ensures r.Some? ==> r.value.payload == old(Remaining())[0] && r.value.Valid()
      ensures r.Some? ==> Remaining() == old(Remaining())[1..]
      ensures r.None? ==> Remaining() == [] && endOfStream
      ensures old(buffer) != [] ==> r == Some(old(buffer)[0]) && buffer == old(buffer)[1..] && Unbuffered() == old(Unbuffered())
      ensures old(buffer) != [] ==> endOfStream == old(endOfStream)
      ensures maxBufferSizeInBytes == old(maxBufferSizeInBytes)
    {
      Refill();
      if buffer == [] {
        EndOfStreamExhausted();
        r := None;
      } else {
        var g := Pop();
        r := Some(g);
      }
    }

    /**
     * peek(): the front fragment without removing it, after refilling like
     * operator(), or null at end of stream.
     */
    method Peek() returns (r: MutationFragment?)
      requires Valid()
      modifies Repr()
      ensures Valid()
      ensures Remaining() == old(Remaining())
      ensures r == null <==> Remaining() == []
      ensures r == null ==> buffer == [] && endOfStream
      ensures r != null ==> buffer != [] && r == buffer[0] && r.payload == Remaining()[0]
      ensures old(buffer) != [] ==> buffer == old(buffer) && Unbuffered() == old(Unbuffered())
      ensures old(buffer) != [] ==> contents == old(contents) && bufferSize == old(bufferSize)
      ensures old(buffer) != [] ==> endOfStream == old(endOfStream)
      ensures maxBufferSizeInBytes == old(maxBufferSizeInBytes)
    {
      Refill();
      if buffer == [] {
        EndOfStreamExhausted();
        r := null;
      } else {
        r := buffer[0];
      }
    }

    /** The refill loop shared by operator() and peek(): fill_buffer() until the buffer is non-empty or the stream ends. */
    method Refill()
      requires Valid()
      modifies Repr()
      ensures Valid()
      ensures Remaining() == old(Remaining())
      ensures buffer != [] || endOfStream
      ensures old(buffer) != [] ==> buffer == old(buffer) && contents == old(contents) && Unbuffered() == old(Unbuffered())
      ensures old(buffer) != [] ==> endOfStream == old(endOfStream)
      ensures maxBufferSizeInBytes == old(maxBufferSizeInBytes)
    {
      while buffer == [] && !endOfStream
        invariant Valid()
        invariant Remaining() == old(Remaining())
        invariant old(buffer) != [] ==> buffer == old(buffer) && contents == old(contents) && Unbuffered() == old(Unbuffered())
        invariant old(buffer) != [] ==> endOfStream == old(endOfStream)
        invariant maxBufferSizeInBytes == old(maxBufferSizeInBytes)
        decreases |Unbuffered()|, if endOfStream then 0 else 1
      {
        FillBuffer();
      }
    }
  }
}
