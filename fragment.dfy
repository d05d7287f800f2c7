// mutation_fragment: the closed five-way variant that a streamed_mutation emits,
// its kind predicates, kind-wise equality, and its lazily cached memory usage.

module Fragment {

  // ---------------------------------------------------------------------------
  // Opaque payload components. Their real definitions (clustering keys, rows,
  // tombstones, decorated keys) live outside this header; the model keeps an
  // identity and the memory they own outside their own object.
  // ---------------------------------------------------------------------------

  datatype ClusteringKey = ClusteringKey(id: int, externalSize: nat)
  datatype Row = Row(id: int, externalSize: nat)
  datatype RowTombstone = RowTombstone(id: int)
  datatype RowMarker = RowMarker(id: int)
  datatype Tombstone = Tombstone(id: int)
  datatype RangeTombstone = RangeTombstone(id: int, externalSize: nat)
  datatype DecoratedKey = DecoratedKey(id: int, externalSize: nat)

  /** mutation_fragment::kind */
  datatype Kind = StaticRowKind | ClusteringRowKind | RangeTombstoneKind | PartitionStartKind | PartitionEndKind

  /** The value held in the fragment's union, one constructor per kind. */
  datatype Payload =
    | StaticRow(cells: Row)
    | ClusteringRow(key: ClusteringKey, tomb: RowTombstone, marker: RowMarker, cells: Row)
    | RangeTombstoneFragment(rt: RangeTombstone)
    | PartitionStart(partitionKey: DecoratedKey, partitionTombstone: Tombstone)
    | PartitionEnd
  {
    function Kind(): Kind {
      match this
      case StaticRow(_) => StaticRowKind
      case ClusteringRow(_, _, _, _) => ClusteringRowKind
      case RangeTombstoneFragment(_) => RangeTombstoneKind
      case PartitionStart(_, _) => PartitionStartKind
      case PartitionEnd => PartitionEndKind
    }
  }

  // ---------------------------------------------------------------------------
  // Kind predicates
  // ---------------------------------------------------------------------------

  predicate IsStaticRow(p: Payload) { p.Kind() == StaticRowKind }
  predicate IsClusteringRow(p: Payload) { p.Kind() == ClusteringRowKind }
  predicate IsRangeTombstone(p: Payload) { p.Kind() == RangeTombstoneKind }
  predicate IsPartitionStart(p: Payload) { p.Kind() == PartitionStartKind }
  predicate IsEndOfPartition(p: Payload) { p.Kind() == PartitionEndKind }

  /** Only clustering rows and range tombstones carry a clustering key. */
  predicate HasKey(p: Payload) { IsClusteringRow(p) || IsRangeTombstone(p) }

  /** Two fragments may be merged with apply() when they have the same kind and are not range tombstones. */
  predicate MergeableWith(p: Payload, q: Payload) {
    p.Kind() == q.Kind() && p.Kind() != RangeTombstoneKind
  }

  /**
   * Kind-wise equality: fragments of different kinds are never equal; otherwise
   * the kinds' own equal() compare their components (schema-dependent key and
   * cell comparison is abstracted to equality of the opaque components), and
   * any two partition_end fragments are equal.
   */
  predicate Equal(p: Payload, q: Payload) {
    if p.Kind() != q.Kind() then false
    else match p
      case StaticRow(cells) => cells == q.cells
      case ClusteringRow(ck, t, m, cells) => ck == q.key && t == q.tomb && m == q.marker && cells == q.cells
      case RangeTombstoneFragment(rt) => rt == q.rt
      case PartitionStart(k, pt) => k == q.partitionKey && pt == q.partitionTombstone
      case PartitionEnd => true
  }

  /** The kinds consume_streamed_mutation() accepts; partition_start and partition_end abort there. */
  predicate IsStreamedKind(p: Payload) { IsStaticRow(p) || IsClusteringRow(p) || IsRangeTombstone(p) }

  // ---------------------------------------------------------------------------
  // Memory accounting
  // ---------------------------------------------------------------------------

  /**
   * sizeof(mutation_fragment::data). The real value is platform-dependent; the
   * model fixes an arbitrary positive placeholder and relies only on positivity.
   */
  const DataOverhead: nat := 1

  /** external_memory_usage() of the value held, per kind. */
  function ExternalMemoryUsage(p: Payload): nat {
    match p
    case StaticRow(cells) => cells.externalSize
    case ClusteringRow(ck, _, _, cells) => ck.externalSize + cells.externalSize
    case RangeTombstoneFragment(rt) => rt.externalSize
    case PartitionStart(k, _) => k.externalSize
    case PartitionEnd => 0
  }

  /** What memory_usage() computes when its cache is empty. */
  function MemoryUsage(p: Payload): nat {
    DataOverhead + ExternalMemoryUsage(p)
  }

  /** Sum of memory_usage() over a sequence of fragments, front first. */
  function TotalMemoryUsage(ps: seq<Payload>): nat {
    if ps == [] then 0 else MemoryUsage(ps[0]) + TotalMemoryUsage(ps[1..])
  }

  // ---------------------------------------------------------------------------
  // The fragment object with its size cache
  // ---------------------------------------------------------------------------

  class MutationFragment {
    var payload: Payload
    /** data::_size_in_bytes: empty, or the size computed from the current payload */
    var sizeInBytes: Option<nat>

    /** The cache is never stale: when filled it holds the size of the current payload. */
    ghost predicate Valid()
      reads this
    {
      sizeInBytes.Some? ==> sizeInBytes.value == MemoryUsage(payload)
    }

    /** mutation_fragment(static_row&&) and its siblings: a fresh fragment with an empty cache. */
    constructor (p: Payload)
      ensures Valid()
      ensures payload == p && sizeInBytes == None
    {
      payload := p;
      sizeInBytes := None;
    }

    function Kind(): Kind
      reads this
    {
      payload.Kind()
    }

    /** memory_usage(): fills the cache on first use and returns the cached value. */
    method GetMemoryUsage() returns (r: nat)
      requires Valid()
      modifies this`sizeInBytes
      ensures Valid()
      ensures r == MemoryUsage(payload)
      ensures sizeInBytes == Some(r)
      ensures old(sizeInBytes).Some? ==> sizeInBytes == old(sizeInBytes)
    {
      if sizeInBytes.None? {
        sizeInBytes := Some(DataOverhead + ExternalMemoryUsage(payload));
      }
      r := sizeInBytes.value;
    }

    /** memory_usage() once the cache is filled: it only reads the cached value. */
    function CachedMemoryUsage(): (r: nat)
      requires Valid() && sizeInBytes.Some?
      reads this
      ensures r == MemoryUsage(payload)
    {
      sizeInBytes.value
    }

    /**
     * as_mutable_<kind>() followed by a write through the returned reference:
     * the cache is cleared before the value of the same kind is replaced.
     */
    method AsMutable(p: Payload)
      requires p.Kind() == Kind()
      modifies this
      ensures Valid()
      ensures payload == p && sizeInBytes == None
    {
      sizeInBytes := None;
      payload := p;
    }
  }

  datatype Option<T> = None | Some(value: T)

  // ---------------------------------------------------------------------------
  // Properties
  // ---------------------------------------------------------------------------

  /**
   * mergeable_with is symmetric and transitive, so the fragments it relates
   * fall into classes, one per kind other than range tombstone; a range
   * tombstone is mergeable with nothing, itself included.
   */
  lemma MergeableWithPartialEquivalence(p: Payload, q: Payload, r: Payload)
    ensures MergeableWith(p, q) ==> MergeableWith(q, p)
    ensures MergeableWith(p, q) && MergeableWith(q, r) ==> MergeableWith(p, r)
    ensures IsRangeTombstone(p) ==> !MergeableWith(p, q) && !MergeableWith(q, p)
  {
  }

  /**
   * has_key holds exactly for the kinds consume_streamed_mutation() accepts
   * other than the static row; partition start and end never carry a key.
   */
  lemma HasKeyIff(p: Payload)
    ensures HasKey(p) <==> IsStreamedKind(p) && !IsStaticRow(p)
    ensures IsPartitionStart(p) || IsEndOfPartition(p) ==> !HasKey(p)
  {
  }

  /**
   * Only keys, cells and range tombstones own memory outside the fragment:
   * the row tombstone and row marker of a clustering row, and the partition
   * tombstone of a partition start, do not change its size.
   */
  lemma MemoryUsageIgnoresTombstones(ck: ClusteringKey, cells: Row, t1: RowTombstone, m1: RowMarker, t2: RowTombstone, m2: RowMarker,
                                     dk: DecoratedKey, pt1: Tombstone, pt2: Tombstone)
    ensures MemoryUsage(ClusteringRow(ck, t1, m1, cells)) == MemoryUsage(ClusteringRow(ck, t2, m2, cells))
    ensures MemoryUsage(PartitionStart(dk, pt1)) == MemoryUsage(PartitionStart(dk, pt2))
    ensures MemoryUsage(PartitionEnd) == DataOverhead
  {
  }

  /**
   * equal() is false across kinds, true for any two partition_end fragments,
   * and, with component equality abstracted to value equality, coincides
   * with equality of the held values.
   */
  lemma EqualIff(p: Payload, q: Payload)
    ensures p.Kind() != q.Kind() ==> !Equal(p, q)
    ensures IsEndOfPartition(p) && IsEndOfPartition(q) ==> Equal(p, q)
    ensures Equal(p, q) <==> p == q
  {
  }

  /** The total is additive over concatenation, so appending one fragment adds exactly its size. */
  lemma {:induction false} TotalMemoryUsageAppend(a: seq<Payload>, b: seq<Payload>)
    ensures TotalMemoryUsage(a + b) == TotalMemoryUsage(a) + TotalMemoryUsage(b)
  {
    if a == [] {
      assert a + b == b;
    } else {
      assert (a + b)[1..] == a[1..] + b;
      TotalMemoryUsageAppend(a[1..], b);
    }
  }

  /** The total is at least the fixed overhead per fragment, so it is 0 exactly for an empty sequence. */
  lemma {:induction false} TotalMemoryUsageLowerBound(ps: seq<Payload>)
    ensures TotalMemoryUsage(ps) >= |ps| * DataOverhead
    ensures TotalMemoryUsage(ps) == 0 <==> ps == []
  {
    if ps != [] {
      TotalMemoryUsageLowerBound(ps[1..]);
    }
  }
}
