# streamed_mutation and stream_result_future, modelled in Dafny

This project models two parts of a Scylla-era database code base and proves
properties of them.

**The streamed mutation** (`streamed_mutation.hh`). A partition is read as a
stream of *mutation fragments*: static rows, clustering rows, range
tombstones, partition starts and partition ends.
- A fragment caches its memory usage the first time it is asked for it.
- A stream implementation keeps a FIFO buffer of fragments and a running byte
  total. Its `fill_buffer()` refills the buffer until it is full or the
  stream ends.
- `operator()` and `peek()` pull from that buffer, refilling it when it runs
  dry.
- `consume()` and `consume_mutation_fragments_until()` drain a stream into a
  consumer.
- `transform()` builds a stream that maps every fragment of another stream.

**The stream-plan result future** (`streaming/stream_result_future.hh`). It
groups the sessions of one streaming plan. The live code keeps the plan
identity and a list of event listeners, and its `init()` wires listeners and
sessions together. The rule by which the plan resolves exists in the source
only as a disabled (`#if 0`) block. The model keeps that rule apart, as the
"reference part" of the class: the event handlers, event delivery to the
listeners, and the one-shot completion check.

Files:
- `fragment.dfy` (module `Fragment`): the fragment value, its kinds and predicates, and the fragment object with its size cache.
- `streamed_mutation.dfy` (module `StreamedMutation`): the stream class and its buffer operations, `operator()`, `peek()`, and `transform()`'s reader.
- `fill_as_written.dfy` (module `FillAsWritten`): `fill_buffer()` exactly as the comment on the stream implementation describes it, for the finding below.
- `consume.dfy` (module `Consume`): the two consumer loops, the reference functions they follow, and the lemmas about those functions.
- `stream_result_future.dfy` (module `Streaming`): the result future, with an abstract coordinator and abstract sessions.

How the model is built:
- **The stream's contents.** A stream's abstract value is `Remaining()`: the
  buffered fragments, then whatever the implementation has yet to hand to
  the buffer. Every pull operation is specified against it.
- **The implementations of `fill_buffer()`.** In the source, `fill_buffer()`
  is pure virtual. The model gives a stream one of two implementations.
  - A reference producer emits a fixed list of fragments. It pushes at least
    one fragment when any are left, stops when the buffer is full, and sets
    end of stream once nothing is left.
  - `transform()`'s reader pulls from an inner stream.
- **Consumers.** A consumer is a decision function `stop` over the events it
  has been handed so far. Each consumer loop is proved to follow a
  tail-recursive reference function (`ConsumeFrom`, `UntilFrom`), one step at
  a time. Lemmas then characterise those functions declaratively: the
  consumer is handed exactly the events up to the first point where it
  decides to stop (`StopPoint`).

## Model

| member | source | states |
|---|---|---|
| Fragment.MutationFragment.constructor | streamed_mutation.hh:304-308 | A new fragment holds the given value and its size cache is empty. |
| Fragment.MutationFragment.GetMemoryUsage | streamed_mutation.hh:470-475 | memory_usage() returns the fixed overhead plus the value's external memory. It fills the cache on first use and leaves a filled cache unchanged. In the model the cache is never stale (see `AsMutable` under Left out). |
| Fragment.MutationFragment.CachedMemoryUsage | streamed_mutation.hh:470-475 | Once the cache is filled, memory_usage() returns the size of the current value. |
| Fragment.MutationFragment.AsMutable | streamed_mutation.hh:374-393 | Getting mutable access clears the cache. The model takes the write through the returned reference to follow at once, so the new value of the same kind never sits beside a stale size. |
| Fragment.MergeableWithPartialEquivalence | streamed_mutation.hh:496-498 | mergeable_with is symmetric and transitive, so it splits fragments into classes by kind. A range tombstone is mergeable with nothing, itself included. |
| Fragment.HasKeyIff | streamed_mutation.hh:362 | has_key holds exactly for the kinds consume_streamed_mutation() accepts other than static rows. Partition starts and ends never carry a key. |
| Fragment.EqualIff | streamed_mutation.hh:477-494 | equal() is false across kinds and true for any two partition ends. With component comparison abstracted, it is equality of the held values. |
| Fragment.MemoryUsageIgnoresTombstones | streamed_mutation.hh:107-203 | The per-kind external_memory_usage() counts only keys, cells and range tombstones. A clustering row's tombstone and marker, and a partition start's tombstone, do not change its size. A partition end costs only the fixed overhead. |
| Fragment.TotalMemoryUsageAppend | streamed_mutation.hh:588-591 | The buffer's byte total is additive, so appending one fragment adds exactly its memory usage. |
| Fragment.TotalMemoryUsageLowerBound | streamed_mutation.hh:575 | The byte total is at least the fixed overhead per fragment. It is 0 exactly when there are no fragments. |
| StreamedMutation.MappedRefill | streamed_mutation.hh:839-845 | Moving the mapped inner fragments over after an inner refill keeps the mapped rest of the stream unchanged. |
| StreamedMutation.Stream.constructor | streamed_mutation.hh:575-601 | A new stream keeps the schema, key and partition tombstone it is given. Its buffer is empty, its limit is 8 KiB, and it is not at end of stream. Its remaining fragments are those its producer will emit. |
| StreamedMutation.Stream.Transform | streamed_mutation.hh:828-855 | transform(sm, t) has sm's key and tombstone and the mapped schema. Its remaining fragments are sm's remaining fragments mapped through t, in the same order. |
| StreamedMutation.Stream.Push | streamed_mutation.hh:588-591 | Push appends a new fragment at the back. It adds exactly that fragment's memory usage to the total and leaves the earlier fragments unchanged. |
| StreamedMutation.Stream.ReserveOne | streamed_mutation.hh:594-598 | After reserve_one() there is room for one more fragment. A full buffer grows to twice its size plus one; otherwise the capacity is unchanged. |
| StreamedMutation.Stream.Pop | streamed_mutation.hh:615-620 | Pop returns the front fragment and removes it. It subtracts exactly that fragment's memory usage and leaves the rest of the stream as it was. |
| StreamedMutation.Stream.SetMaxBufferSize | streamed_mutation.hh:688-690 | set_max_buffer_size changes the limit and nothing else. |
| StreamedMutation.Stream.FillFromProducer | streamed_mutation.hh:571-572 | The reference fill_buffer() keeps the stream's contents. It buffers at least one fragment when any are left and stops only when the buffer is full or the fragments run out. End of stream is set exactly when nothing is left. |
| StreamedMutation.Stream.Produce | streamed_mutation.hh:571-572 | The producer loop pushes fragments from the front, at least one, until the buffer is full or the list runs out. It loses none and reorders none. |
| FillAsWritten.PushedUntilFullStopsWhenFull | streamed_mutation.hh:570-572 | A fill_buffer() that follows the comment on impl to the letter stops before the last fragment only once the pushed fragments bring the total to the limit. |
| FillAsWritten.PushedUntilFullStallsAtLimitZero | streamed_mutation.hh:688-690 | After set_max_buffer_size(0), such a fill_buffer() pushes nothing into an empty buffer, while under a limit of 1 it pushes at least one fragment. |
| StreamedMutation.Stream.FillFromInner | streamed_mutation.hh:839-846 | transform()'s fill_buffer() refills the inner stream and moves every inner fragment over, mapped. It copies the inner end-of-stream flag and keeps the stream's contents. |
| StreamedMutation.Stream.MoveMapped | streamed_mutation.hh:841-843 | The move loop empties the inner buffer and appends the image of every inner fragment, in order. |
| StreamedMutation.Stream.MoveOneMapped | streamed_mutation.hh:841-843 | One step of the move loop: the inner stream's front fragment leaves the inner buffer and its image under the mapping is appended to this buffer. Both byte totals stay exact. |
| StreamedMutation.Stream.FillBuffer | streamed_mutation.hh:604 | Whichever implementation runs, fill_buffer() keeps the contents and sets end of stream exactly when nothing is left. It pushes at least one fragment when any are left; this is a property of the model's implementations (see Findings). |
| StreamedMutation.Stream.EndOfStreamExhausted | streamed_mutation.hh:611 | Once end of stream is set, the implementation has nothing left to hand over. |
| StreamedMutation.Stream.BufferSizeFacts | streamed_mutation.hh:611-613 | The byte total is 0 exactly when is_buffer_empty(). An empty buffer is is_buffer_full() only under a limit of 0. A buffer of n fragments is full under any limit up to n times the fixed fragment size. |
| StreamedMutation.Stream.Next | streamed_mutation.hh:622-630 | operator()() returns nothing exactly when the stream is exhausted. Otherwise it returns the next fragment in order and removes it. With a non-empty buffer it does not refill: it pops the front, and the rest of the stream and the end-of-stream flag are unchanged. |
| StreamedMutation.Stream.Peek | streamed_mutation.hh:676-686 | peek() returns the next fragment without consuming it, or null exactly when the stream is exhausted; null comes only with an empty buffer at end of stream. With a non-empty buffer it does not refill: the buffer, its contents, the byte total and the end-of-stream flag are unchanged. |
| StreamedMutation.Stream.Refill | streamed_mutation.hh:622-628 | The refill loop stops with a non-empty buffer or at end of stream. It keeps the contents, and leaves a non-empty buffer and the end-of-stream flag as they were. |
| Consume.StopPointIsFirstStop | streamed_mutation.hh:713-730 | The consumer is handed events until the first point at which it decides to stop, or all of them if it never does. |
| Consume.StopPointUnique | streamed_mutation.hh:713-730 | That first stop point is the only count with this property. |
| Consume.Consume | streamed_mutation.hh:713-730 | consume() follows the reference loop step by step: the same events and the same remaining stream. Every fragment handed over must be of a kind consume_streamed_mutation() accepts. |
| Consume.ConsumeFromShape | streamed_mutation.hh:713-730 | The events are what was handed over before, the fragments in FIFO order up to the first stop, then exactly one end of stream. The stream keeps the fragments after the stop, and the result says whether the consumer stopped. |
| Consume.ConsumeTraceEnds | streamed_mutation.hh:715-729 | The partition tombstone always comes first and end of stream comes last. Every event in between is a fragment. |
| Consume.ConsumeStopsAtTombstone | streamed_mutation.hh:715-717 | A consumer that stops at the tombstone is handed only end of stream after it. The stream is untouched. |
| Consume.ConsumeNeverStopping | streamed_mutation.hh:718-729 | A consumer that never stops is handed the whole stream and then end of stream. |
| Consume.ConsumeFromExtends | streamed_mutation.hh:718-726 | Events already handed over are never taken back. The trace only grows. |
| Consume.PopUntilStop | streamed_mutation.hh:798-803 | The inner loop hands over buffered fragments until the buffer is empty or stop() holds, without refilling. |
| Consume.ConsumeEosOrFill | streamed_mutation.hh:804-807 | With the buffer empty: at end of stream, consume_eos() is called; otherwise the buffer is refilled and the stream's contents are kept. |
| Consume.ConsumeMutationFragmentsUntil | streamed_mutation.hh:786-809 | consume_mutation_fragments_until() follows the reference loop step by step: the same events, the same remaining stream, and stopped exactly when stop() held. |
| Consume.UntilFromShape | streamed_mutation.hh:786-809 | The loop hands over exactly the events, fragments then end-of-stream calls, up to the first point at which stop() holds. It reports whether stop() held there and leaves the fragments not handed over. |
| Consume.UntilEosDoesNotStop | streamed_mutation.hh:786-788 | Reaching end of stream alone does not stop the loop. Without stop() it hands over every fragment and goes on calling consume_eos(). |
| Streaming.DeliveriesAppend | streaming/stream_result_future.hh:191-192 | Registering one more listener adds exactly one delivery, at the end. |
| Streaming.InitProtocolOrder | streaming/stream_result_future.hh:82-95 | In InitProtocol every listener is registered before any session is initialised. Every session is initialised once, in order, and the sessions are connected exactly once, as the last call. `Init` is proved to make exactly these calls. |
| Streaming.StreamSession.Init | streaming/stream_result_future.hh:91-93 | A session keeps the future it is initialised with. The call is recorded, once, at the end of the plan coordinator's history. |
| Streaming.Coordinator.AddSessionInfo | streaming/stream_result_future.hh:169 | Recording a snapshot replaces the earlier one for the same peer and index. |
| Streaming.Coordinator.UpdateProgress | streaming/stream_result_future.hh:184 | Progress is recorded in order. |
| Streaming.Coordinator.ConnectAllStreamSessions | streaming/stream_result_future.hh:94 | Each call is counted once and recorded at the end of the history. |
| Streaming.StreamResultFuture.constructor | streaming/stream_result_future.hh:65-73 | The live constructor keeps the plan id, description and coordinator, with no listeners and nothing resolved. |
| Streaming.StreamResultFuture.AddEventListener | streaming/stream_result_future.hh:129-132 | The listener is appended at the end, and the registration is recorded at the end of the history. Earlier listeners, their order, the plan id and the description are unchanged. |
| Streaming.StreamResultFuture.Init | streaming/stream_result_future.hh:82-95 | init() makes one new future holding the plan identity and the listeners in the given order. Every session of the coordinator gets that same future. The steps recorded are exactly InitProtocol: every listener registration (recorded by `AddEventListener`), then every session's init, then one connect. No session's state changes, so whether any session is active is unchanged. |
| Streaming.StreamResultFuture.Resolving | streaming/stream_result_future.hh:69-72 | Reference: with the commented-out set() restored, a plan that is neither receiving nor has active sessions resolves at once, as a success with its current state. Otherwise it stays unresolved. The result belongs to this plan. |
| Streaming.StreamResultFuture.FireStreamEvent | streaming/stream_result_future.hh:188-193 | Reference: the event is delivered to every listener, in registration order, and nothing else changes. |
| Streaming.StreamResultFuture.MaybeComplete | streaming/stream_result_future.hh:195-211 | Reference: nothing changes while a session is active. Otherwise an unresolved future resolves with getCurrentState() (138-141): this plan's id, description and latest session snapshots. It fails exactly when a session failed (42-43). A resolved future never changes again. |
| Streaming.StreamResultFuture.HandleSessionPrepared | streaming/stream_result_future.hh:158-171 | Reference: afterwards the coordinator holds the session's snapshot (160) and every listener has received one SessionPreparedEvent with it, in registration order. The result is untouched. |
| Streaming.StreamResultFuture.HandleSessionComplete | streaming/stream_result_future.hh:173-180 | Reference: afterwards every listener has received one SessionCompleteEvent carrying the session's peer, index and success, and the coordinator holds the session's snapshot. The completion check has run: if no session is active and the future was still unresolved, it is resolved and its state includes this session's snapshot. A future resolved earlier keeps its result. |
| Streaming.StreamResultFuture.HandleProgress | streaming/stream_result_future.hh:182-186 | Reference: the progress is recorded and the listeners are told. The result never changes. |

## Left out

- The stream's `fill_buffer()` is pure virtual. Its implementations outside this header (sstable and memtable readers, `streamed_mutation_from_mutation`, `merge_mutations`, `make_forwardable`) are not part of this model. A reference producer that emits a fixed list of fragments stands in for them.
- StreamedMutation.Stream.Transform: only one level of transform is modelled, over a producer-backed stream. A transform of a transform is not, because the inner stream's own inner state would have to be part of the frame.
- StreamedMutation.Stream.ReserveOne: `circular_buffer` capacity is an abstract number, and the doubling rule is taken as written. Allocation failure is not modelled.
- StreamedMutation.Stream.Push: `_buffer_size` is a `size_t`. The model's total is unbounded and does not wrap on overflow.
- `sizeof(mutation_fragment::data)` is platform-dependent. The model uses a positive placeholder constant and relies only on its positivity.
- Futures and continuations are modelled as synchronous calls: a `.then()` runs at once, in order.
- Consume.ConsumeMutationFragmentsUntil: if stop() never holds, the source keeps calling `consume_eos()` forever. The model gives up after `eosLimit` such calls and reports that stop() did not hold.
- The consumer's decisions are a function of the events it has been handed. A consumer whose decisions depend on outside state is not modelled.
- Consume.Consume: `consume_streamed_mutation()` aborts on partition start and partition end. The model requires instead that every fragment handed over is of the three other kinds.
- Fragment.MutationFragment.AsMutable: the reference `as_mutable_*()` returns is not modelled. The model takes the write through it to follow at once, before any later `memory_usage()` call. In the source, a write after such a call leaves a stale cached size, which `push_mutation_fragment` and `pop_mutation_fragment` would then count.
- StreamedMutation.Stream.FillBuffer: the model's producer pushes at least one fragment even into a full buffer. The source promises only that `fill_buffer()` fills until the buffer is full or the stream ends. The termination of `Refill`, `Consume` and `ConsumeMutationFragmentsUntil` rests on this progress. See Findings for the case where the two differ.
- StreamedMutation.Stream.Peek: writing through the pointer `peek()` returns, and its invalidation by later calls, are not modelled. Buffered fragments are never written after they are pushed.
- `fast_forward_to`, `forward_buffer_to`, `position()`, `relevant_for_range`, the apply/merge operations on fragments, `range_tombstone_stream` and the `operator<<` printers are not part of this model.
- Fragment.EqualIff: the per-kind `equal()` compare keys and cells under a schema. The model treats the components as opaque values compared by equality. This also hides that `clustering_row::equal` compares the cells as static-column cells (streamed_mutation.hh:119), while the clustering row's `apply` treats them as regular-column cells (79, 84).
- Streaming: the coordinator, sessions, connection handler and listeners are collaborators whose code is not shown. Each keeps only the state the future reads or changes. Listener calls are recorded as deliveries. The steps of `init()` (its own `add_event_listener` calls, each session's `init`, and the coordinator's connect) are recorded, in order, in a ghost history kept by the coordinator. `init()` never calls a listener.
- Streaming: `init_receiving_side` (its live body is empty), `attachSocket`, the `StreamManager` registration, the `Futures.addCallback` registration, `equals`/`hashCode`, logging and `synchronized` locking are not modelled. The handlers run one at a time.
- Streaming.StreamResultFuture.FireStreamEvent: listeners are taken to return normally. In the disabled code nothing catches an exception from `handleStreamEvent`. A throwing listener would skip the listeners after it, and in `handleSessionComplete` it would also skip recording the snapshot and the completion check, so the plan would never resolve.
- Streaming.StreamResultFuture.HandleSessionComplete: the `SessionCompleteEvent` carries this future's plan id, where the disabled code reads it from the session.

## Findings

| source | as written | input that shows it | evidently intended | confidence | as-written member | corrected member |
|---|---|---|---|---|---|---|
| streamed_mutation.hh:570-572 | `fill_buffer()` implementations fill the buffer "until is_buffer_full() or end of stream", and `set_max_buffer_size()` (688-690) accepts any size | `set_max_buffer_size(0)`, then `operator()()` on a stream with fragments left: the empty buffer is already full, nothing is pushed, end of stream is not reached, and `operator()` (622-630) calls `fill_buffer()` again without end | `fill_buffer()` pushes at least one fragment when any are left, or the limit is kept positive | not executed; low, since it depends on a caller setting a limit of 0 | FillAsWritten.PushedUntilFullStallsAtLimitZero | StreamedMutation.Stream.Produce |
