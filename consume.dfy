// The free-standing loops that drain a streamed_mutation into a consumer:
// consume() and consume_mutation_fragments_until(). A consumer is modelled by
// what it is handed (a trace of events) and by its decision to stop, which may
// depend on everything it has been handed so far.

module Consume {
  import opened Fragment
  import opened StreamedMutation

  /** What a consumer is handed, in order. */
  datatype ConsumerEvent =
    | TombstoneEvent(t: Tombstone)
    | FragmentEvent(p: Payload)
    | EndOfStreamEvent

  /** Where a drain ends: what the consumer was handed, what is left in the stream, and whether it stopped. */
  datatype Outcome = Outcome(trace: seq<ConsumerEvent>, rest: seq<Payload>, stopped: bool)

  /** The fragment events for a sequence of fragments, in the same order. */
  function Frags(ps: seq<Payload>): seq<ConsumerEvent> {
    seq(|ps|, i requires 0 <= i < |ps| => FragmentEvent(ps[i]))
  }

  /** n end-of-stream events. */
  function Eoses(n: nat): seq<ConsumerEvent> {
    seq(n, _ => EndOfStreamEvent)
  }

  /** Every fragment handed over is of a kind consume_streamed_mutation() accepts. */
  predicate AllStreamedKinds(trace: seq<ConsumerEvent>) {
    forall i :: 0 <= i < |trace| && trace[i].FragmentEvent? ==> IsStreamedKind(trace[i].p)
  }

  // ---------------------------------------------------------------------------
  // The first stop: a declarative reference for both loops
  // ---------------------------------------------------------------------------

  /**
   * How many of `evs` are handed over after `h` when the decision to stop is
   * taken once before the first of `evs` and after every one of them.
   */
  function StopPoint(h: seq<ConsumerEvent>, evs: seq<ConsumerEvent>, stop: seq<ConsumerEvent> -> bool): (n: nat)
    ensures n <= |evs|
    decreases |evs|
  {
    if stop(h) || evs == [] then 0 else 1 + StopPoint(h + [evs[0]], evs[1..], stop)
  }

  /**
   * The stop point is the first n at which the consumer has decided to stop,
   * or all of the events if it never does.
   */
  lemma {:induction false} StopPointIsFirstStop(h: seq<ConsumerEvent>, evs: seq<ConsumerEvent>, stop: seq<ConsumerEvent> -> bool)
    ensures forall k :: 0 <= k < StopPoint(h, evs, stop) ==> !stop(h + evs[..k])
    ensures StopPoint(h, evs, stop) < |evs| ==> stop(h + evs[..StopPoint(h, evs, stop)])
    decreases |evs|
  {
    assert h + evs[..0] == h;
    if !stop(h) && evs != [] {
      var m := StopPoint(h + [evs[0]], evs[1..], stop);
      StopPointIsFirstStop(h + [evs[0]], evs[1..], stop);
      assert forall k :: 1 <= k <= m + 1 && k <= |evs| ==> h + evs[..k] == (h + [evs[0]]) + evs[1..][..k - 1];
    }
  }

  /** The stop point is the only count that is a first stop. */
  lemma StopPointUnique(h: seq<ConsumerEvent>, evs: seq<ConsumerEvent>, stop: seq<ConsumerEvent> -> bool, n: nat)
    requires n <= |evs|
    requires forall k :: 0 <= k < n ==> !stop(h + evs[..k])
    requires n < |evs| ==> stop(h + evs[..n])
    ensures StopPoint(h, evs, stop) == n
  {
    StopPointIsFirstStop(h, evs, stop);
  }

  /** What has been handed over when the consumer, having had `h`, is offered `evs` one by one. */
  function Handed(h: seq<ConsumerEvent>, evs: seq<ConsumerEvent>, stop: seq<ConsumerEvent> -> bool): seq<ConsumerEvent> {
    h + evs[..StopPoint(h, evs, stop)]
  }

  /** Offering one more event to a consumer that has not stopped. */
  lemma HandedStep(h: seq<ConsumerEvent>, e: ConsumerEvent, evs: seq<ConsumerEvent>, stop: seq<ConsumerEvent> -> bool)
    requires !stop(h)
    ensures StopPoint(h, [e] + evs, stop) == 1 + StopPoint(h + [e], evs, stop)
    ensures Handed(h, [e] + evs, stop) == Handed(h + [e], evs, stop)
  {
    var E := [e] + evs;
    assert E[1..] == evs;
    var n := StopPoint(h + [e], evs, stop);
    assert E[..n + 1] == [e] + evs[..n];
  }

  // ---------------------------------------------------------------------------
  // consume()
  // ---------------------------------------------------------------------------

  /**
   * What consume()'s loop does from the point where the consumer has been
   * handed `trace` and the stream still holds `rest`: stop when the consumer
   * asked to or nothing is left, otherwise hand over the front fragment; on
   * leaving, end of stream is handed over.
   */
  function ConsumeFrom(trace: seq<ConsumerEvent>, rest: seq<Payload>, stop: seq<ConsumerEvent> -> bool): Outcome
    decreases |rest|
  {
    if stop(trace) || rest == [] then Outcome(trace + [EndOfStreamEvent], rest, stop(trace))
    else ConsumeFrom(trace + [FragmentEvent(rest[0])], rest[1..], stop)
  }

  /** consume() on a stream whose remaining fragments are R: the tombstone is handed over first. */
  function ConsumeSpec(t: Tombstone, R: seq<Payload>, stop: seq<ConsumerEvent> -> bool): Outcome {
    ConsumeFrom([TombstoneEvent(t)], R, stop)
  }

  /**
   * consume()'s trace is what was handed over before, the fragments in FIFO order
   * up to the first stop, and exactly one end of stream, last; the stream keeps
   * the fragments after them.
   */
  lemma {:induction false} ConsumeFromShape(h: seq<ConsumerEvent>, R: seq<Payload>, stop: seq<ConsumerEvent> -> bool)
    ensures ConsumeFrom(h, R, stop).trace == Handed(h, Frags(R), stop) + [EndOfStreamEvent]
    ensures ConsumeFrom(h, R, stop).rest == R[StopPoint(h, Frags(R), stop)..]
    ensures ConsumeFrom(h, R, stop).stopped == stop(Handed(h, Frags(R), stop))
    decreases |R|
  {
    if stop(h) || R == [] {
      assert Handed(h, Frags(R), stop) == h;
    } else {
      ConsumeFromShape(h + [FragmentEvent(R[0])], R[1..], stop);
      assert Frags(R) == [FragmentEvent(R[0])] + Frags(R[1..]);
      HandedStep(h, FragmentEvent(R[0]), Frags(R[1..]), stop);
      var n := StopPoint(h + [FragmentEvent(R[0])], Frags(R[1..]), stop);
      assert R[1..][n..] == R[n + 1..];
    }
  }

  /** The tombstone always comes first, and end of stream is handed over once, as the last event. */
  lemma ConsumeTraceEnds(t: Tombstone, R: seq<Payload>, stop: seq<ConsumerEvent> -> bool)
    ensures var tr := ConsumeSpec(t, R, stop).trace;
      && |tr| >= 2 && tr[0] == TombstoneEvent(t) && tr[|tr| - 1] == EndOfStreamEvent
      && (forall i :: 1 <= i < |tr| - 1 ==> tr[i].FragmentEvent?)
  {
    ConsumeFromShape([TombstoneEvent(t)], R, stop);
  }

  /** A consumer that stops at the partition tombstone is handed nothing else but end of stream. */
  lemma ConsumeStopsAtTombstone(t: Tombstone, R: seq<Payload>, stop: seq<ConsumerEvent> -> bool)
    requires stop([TombstoneEvent(t)])
    ensures ConsumeSpec(t, R, stop) == Outcome([TombstoneEvent(t), EndOfStreamEvent], R, true)
  {
  }

  /** A consumer that never stops is handed the whole stream. */
  lemma ConsumeNeverStopping(h: seq<ConsumerEvent>, R: seq<Payload>, stop: seq<ConsumerEvent> -> bool)
    requires forall tr :: !stop(tr)
    ensures ConsumeFrom(h, R, stop) == Outcome(h + Frags(R) + [EndOfStreamEvent], [], false)
  {
    ConsumeFromShape(h, R, stop);
    StopPointIsFirstStop(h, Frags(R), stop);
    assert StopPoint(h, Frags(R), stop) == |R|;
    assert Frags(R)[..|R|] == Frags(R);
    assert !stop(Handed(h, Frags(R), stop));
  }

  /** Everything handed over earlier stays at the front of the trace. */
  lemma {:induction false} ConsumeFromExtends(trace: seq<ConsumerEvent>, rest: seq<Payload>, stop: seq<ConsumerEvent> -> bool)
    ensures trace < ConsumeFrom(trace, rest, stop).trace
    decreases |rest|
  {
    if !stop(trace) && rest != [] {
      ConsumeFromExtends(trace + [FragmentEvent(rest[0])], rest[1..], stop);
    }
  }

  /**
   * consume(m, consumer): the partition tombstone first; unless the consumer
   * stops there, fragments in FIFO order, refilling the buffer when it runs dry,
   * until the consumer stops or the stream is exhausted; then end of stream.
   * consume_streamed_mutation() aborts on partition_start and partition_end, so
   * every fragment handed over must be of the three kinds a streamed mutation
   * carries.
   */
  method Consume(sm: Stream, stop: seq<ConsumerEvent> -> bool) returns (trace: seq<ConsumerEvent>)
    requires sm.Valid()
    requires AllStreamedKinds(ConsumeSpec(sm.partitionTombstone, sm.Remaining(), stop).trace)
    modifies sm.Repr()
    ensures sm.Valid()
    ensures trace == ConsumeSpec(sm.partitionTombstone, old(sm.Remaining()), stop).trace
    ensures sm.Remaining() == ConsumeSpec(sm.partitionTombstone, old(sm.Remaining()), stop).rest
  {
    ghost var spec := ConsumeSpec(sm.partitionTombstone, sm.Remaining(), stop);
    trace := [TombstoneEvent(sm.partitionTombstone)];
    var done := stop(trace);
    while !done
      invariant sm.Valid()
      invariant !done ==> !stop(trace) && ConsumeFrom(trace, sm.Remaining(), stop) == spec
      invariant done ==> trace + [EndOfStreamEvent] == spec.trace && sm.Remaining() == spec.rest
      decreases |sm.Remaining()|, |sm.Unbuffered()|, if sm.endOfStream then 0 else 1, if done then 0 else 1
    {
      if sm.IsBufferEmpty() {
        if sm.IsEndOfStream() {
          sm.EndOfStreamExhausted();
          done := true;
        } else {
          sm.FillBuffer();
        }
      } else {
        ghost var rest := sm.Remaining();
        ConsumeFromExtends(trace + [FragmentEvent(rest[0])], rest[1..], stop);
        assert spec.trace[|trace|] == FragmentEvent(rest[0]);
        var g := sm.Pop();
        trace := trace + [FragmentEvent(g.payload)];
        done := stop(trace);
      }
    }
    trace := trace + [EndOfStreamEvent];
  }

  // ---------------------------------------------------------------------------
  // consume_mutation_fragments_until()
  // ---------------------------------------------------------------------------

  /**
   * What consume_mutation_fragments_until()'s loop does from the point where
   * `trace` has been handed over and the stream still holds `rest`: stop as
   * soon as stop() holds; otherwise hand over the front fragment, or, with
   * nothing left, call consume_eos() and go round again. End of stream alone
   * never stops it; the model gives up after eosLeft more calls of consume_eos().
   */
  function UntilFrom(trace: seq<ConsumerEvent>, rest: seq<Payload>, eosLeft: nat, stop: seq<ConsumerEvent> -> bool): Outcome
    decreases |rest|, eosLeft
  {
    if stop(trace) then Outcome(trace, rest, true)
    else if rest != [] then UntilFrom(trace + [FragmentEvent(rest[0])], rest[1..], eosLeft, stop)
    else if eosLeft == 0 then Outcome(trace, [], false)
    else UntilFrom(trace + [EndOfStreamEvent], [], eosLeft - 1, stop)
  }

  /** The events consume_mutation_fragments_until() can hand over: all fragments, then end of stream eosLimit times. */
  function UntilEvents(R: seq<Payload>, eosLimit: nat): seq<ConsumerEvent> {
    Frags(R) + Eoses(eosLimit)
  }

  /**
   * The loop hands over exactly the events up to the first point at which stop()
   * holds, reports whether it held there, and leaves the fragments not handed over.
   */
  lemma {:induction false} UntilFromShape(h: seq<ConsumerEvent>, R: seq<Payload>, eosLeft: nat, stop: seq<ConsumerEvent> -> bool)
    ensures UntilFrom(h, R, eosLeft, stop).trace == Handed(h, UntilEvents(R, eosLeft), stop)
    ensures UntilFrom(h, R, eosLeft, stop).stopped == stop(Handed(h, UntilEvents(R, eosLeft), stop))
    ensures var n := StopPoint(h, UntilEvents(R, eosLeft), stop);
      UntilFrom(h, R, eosLeft, stop).rest == (if n <= |R| then R[n..] else [])
    decreases |R|, eosLeft
  {
    var E := UntilEvents(R, eosLeft);
    if stop(h) {
      assert Handed(h, E, stop) == h;
    } else if R != [] {
      UntilFromShape(h + [FragmentEvent(R[0])], R[1..], eosLeft, stop);
      var E' := UntilEvents(R[1..], eosLeft);
      assert E == [FragmentEvent(R[0])] + E';
      HandedStep(h, FragmentEvent(R[0]), E', stop);
      var n := StopPoint(h + [FragmentEvent(R[0])], E', stop);
      assert n <= |R[1..]| ==> R[1..][n..] == R[n + 1..];
    } else if eosLeft == 0 {
      assert E == [];
      assert Handed(h, E, stop) == h;
    } else {
      UntilFromShape(h + [EndOfStreamEvent], [], eosLeft - 1, stop);
      var E' := UntilEvents([], eosLeft - 1);
      assert E == [EndOfStreamEvent] + E';
      HandedStep(h, EndOfStreamEvent, E', stop);
    }
  }

  /** Reaching end of stream does not stop the loop: without stop() it goes on calling consume_eos(). */
  lemma UntilEosDoesNotStop(R: seq<Payload>, eosLimit: nat, stop: seq<ConsumerEvent> -> bool)
    requires forall tr :: !stop(tr)
    ensures UntilFrom([], R, eosLimit, stop) == Outcome(UntilEvents(R, eosLimit), [], false)
  {
    UntilFromShape([], R, eosLimit, stop);
    StopPointIsFirstStop([], UntilEvents(R, eosLimit), stop);
  }

  /**
   * The inner loop of consume_mutation_fragments_until()'s action: hands over
   * buffered fragments until the buffer is empty or stop() holds, without
   * refilling. Follows UntilFrom one fragment at a time.
   */
  method PopUntilStop(sm: Stream, stop: seq<ConsumerEvent> -> bool, trace: seq<ConsumerEvent>, ghost eosLeft: nat, ghost spec: Outcome)
    returns (trace': seq<ConsumerEvent>, stopped: bool)
    requires sm.Valid()
    requires !stop(trace) && UntilFrom(trace, sm.Remaining(), eosLeft, stop) == spec
    modifies sm`buffer, sm`contents, sm`bufferSize
    ensures sm.Valid()
    ensures sm.Unbuffered() == old(sm.Unbuffered()) && sm.endOfStream == old(sm.endOfStream)
    ensures stopped == stop(trace')
    ensures !stopped ==> sm.buffer == [] && UntilFrom(trace', sm.Remaining(), eosLeft, stop) == spec
    ensures stopped ==> Outcome(trace', sm.Remaining(), true) == spec
    ensures |sm.Remaining()| < |old(sm.Remaining())| || (old(sm.buffer) == [] && trace' == trace && !stopped)
  {
    trace', stopped := trace, false;
    while !sm.IsBufferEmpty() && !stopped
      invariant sm.Valid()
      invariant sm.Unbuffered() == old(sm.Unbuffered()) && sm.endOfStream == old(sm.endOfStream)
      invariant stopped == stop(trace')
      invariant !stopped ==> UntilFrom(trace', sm.Remaining(), eosLeft, stop) == spec
      invariant stopped ==> Outcome(trace', sm.Remaining(), true) == spec
      invariant |sm.Remaining()| < |old(sm.Remaining())| || (sm.buffer == old(sm.buffer) && trace' == trace && !stopped)
      decreases |sm.buffer|
    {
      var g := sm.Pop();
      trace' := trace' + [FragmentEvent(g.payload)];
      stopped := stop(trace');
    }
  }

  /**
   * The rest of consume_mutation_fragments_until()'s action once the buffer is
   * empty: at end of stream consume_eos() (or give up when the model's budget
   * of calls is spent), otherwise fill_buffer().
   */
  method ConsumeEosOrFill(sm: Stream, stop: seq<ConsumerEvent> -> bool, trace: seq<ConsumerEvent>, eosLeft: nat, ghost spec: Outcome)
    returns (trace': seq<ConsumerEvent>, eosLeft': nat, givenUp: bool)
    requires sm.Valid() && sm.buffer == []
    requires !stop(trace) && UntilFrom(trace, sm.Remaining(), eosLeft, stop) == spec
    modifies sm.Repr()
    ensures sm.Valid()
    ensures givenUp ==> trace' == trace && eosLeft' == eosLeft && Outcome(trace', sm.Remaining(), false) == spec
    ensures !givenUp ==> UntilFrom(trace', sm.Remaining(), eosLeft', stop) == spec
    ensures old(sm.endOfStream) ==> sm.Remaining() == [] && sm.Unbuffered() == [] && sm.endOfStream && (givenUp || eosLeft' < eosLeft)
    ensures !old(sm.endOfStream) ==>
      && !givenUp && trace' == trace && eosLeft' == eosLeft
      && sm.Remaining() == old(sm.Remaining())
      && (|sm.Unbuffered()| < |old(sm.Unbuffered())| || (|sm.Unbuffered()| == |old(sm.Unbuffered())| && sm.endOfStream))
  {
    trace', eosLeft', givenUp := trace, eosLeft, false;
    if sm.IsEndOfStream() {
      sm.EndOfStreamExhausted();
      assert sm.Remaining() == [];
      if eosLeft == 0 {
        givenUp := true;
      } else {
        trace' := trace + [EndOfStreamEvent];
        eosLeft' := eosLeft - 1;
      }
    } else {
      sm.FillBuffer();
    }
  }

  /**
   * consume_mutation_fragments_until(sm, stop, consume_mf, consume_eos): checks
   * stop() before anything and after every fragment handed over; when the
   * buffer runs dry it refills it, or at end of stream calls consume_eos() and
   * goes round again. The model gives up after eosLimit calls of consume_eos()
   * and reports whether stop() held.
   */
  method ConsumeMutationFragmentsUntil(sm: Stream, stop: seq<ConsumerEvent> -> bool, eosLimit: nat)
    returns (trace: seq<ConsumerEvent>, stopped: bool)
    requires sm.Valid()
    modifies sm.Repr()
    ensures sm.Valid()
    ensures Outcome(trace, sm.Remaining(), stopped) == UntilFrom([], old(sm.Remaining()), eosLimit, stop)
  {
    ghost var spec := UntilFrom([], sm.Remaining(), eosLimit, stop);
    trace := [];
    var eosLeft := eosLimit;
    var givenUp := false;
    stopped := stop(trace);
    while !stopped && !givenUp
      invariant sm.Valid()
      invariant stopped == stop(trace)
      invariant !stopped && !givenUp ==> UntilFrom(trace, sm.Remaining(), eosLeft, stop) == spec
      invariant stopped || givenUp ==> Outcome(trace, sm.Remaining(), stopped) == spec
      decreases eosLeft, |sm.Remaining()|, |sm.Unbuffered()|, if sm.endOfStream then 0 else 1, if givenUp then 0 else 1
    {
      var inner;
      trace, inner := PopUntilStop(sm, stop, trace, eosLeft, spec);
      if !inner {
        trace, eosLeft, givenUp := ConsumeEosOrFill(sm, stop, trace, eosLeft, spec);
      }
      stopped := stop(trace);
    }
  }
}
