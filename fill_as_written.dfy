// fill_buffer() as the comment on streamed_mutation::impl describes it: fill the
// buffer until it is full or the stream ends. Kept apart from the stream model,
// whose producer also pushes one fragment into a full buffer, to show where the
// two differ.

module FillAsWritten {
  import opened Fragment

  /**
   * How many of `items` a fill_buffer() that follows the comment on impl to
   * the letter pushes: it pushes from the front while the buffer, already
   * holding `total` bytes, is not full under `limit`, and fragments are left.
   */
  function PushedUntilFull(total: nat, limit: nat, items: seq<Payload>): (n: nat)
    ensures n <= |items|
    decreases |items|
  {
    if items == [] || total >= limit then 0
    else 1 + PushedUntilFull(total + MemoryUsage(items[0]), limit, items[1..])
  }

  /** It stops early only once the buffer is full: the pushed fragments bring the total to the limit. */
  lemma {:induction false} PushedUntilFullStopsWhenFull(total: nat, limit: nat, items: seq<Payload>)
    ensures var n := PushedUntilFull(total, limit, items);
      n < |items| ==> total + TotalMemoryUsage(items[..n]) >= limit
    decreases |items|
  {
    var n := PushedUntilFull(total, limit, items);
    if items != [] && total < limit {
      var m := PushedUntilFull(total + MemoryUsage(items[0]), limit, items[1..]);
      PushedUntilFullStopsWhenFull(total + MemoryUsage(items[0]), limit, items[1..]);
      assert items[..n] == [items[0]] + items[1..][..m];
      TotalMemoryUsageAppend([items[0]], items[1..][..m]);
      assert TotalMemoryUsage([items[0]]) == MemoryUsage(items[0]);
    } else {
      assert items[..0] == [];
    }
  }

  /**
   * After set_max_buffer_size(0) an empty buffer is already full, so such a
   * fill_buffer() pushes nothing and, with fragments left, does not reach end
   * of stream: the state operator() and peek() refill from is unchanged, and
   * they would call fill_buffer() again without end.
   */
  lemma PushedUntilFullStallsAtLimitZero(items: seq<Payload>)
    requires items != []
    ensures PushedUntilFull(0, 0, items) == 0
    ensures PushedUntilFull(0, 1, items) >= 1
  {
  }
}
