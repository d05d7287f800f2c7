// stream_result_future: the object that groups the sessions of one streaming
// plan and, once every session is over, resolves to the plan's final state.
//
// The live class only keeps the plan identity and a list of event listeners,
// and its static init() wires listeners and sessions together. The rule by
// which the plan resolves, and the event handlers that drive it, exist in the
// source only as a disabled reference block; they are modelled here under
// "Reference part" and kept apart from the live members.
//
// The coordinator and the sessions are collaborators whose code is not part of
// this model: they keep only the state the future reads or changes.

module Streaming {

  // ---------------------------------------------------------------------------
  // Values
  // ---------------------------------------------------------------------------

  datatype UUID = UUID(bits: int)
  datatype InetAddress = InetAddress(addr: int)

  /** The life cycle of a stream session; Complete and Failed are final. */
  datatype SessionState = Initialized | Preparing | Streaming | WaitComplete | Complete | Failed

  predicate IsFinal(s: SessionState) {
    s == Complete || s == Failed
  }

  /** A snapshot of one session, as the coordinator records it. */
  datatype SessionInfo = SessionInfo(peer: InetAddress, sessionIndex: int, state: SessionState)

  /** The coordinator keys session snapshots by peer and session index. */
  datatype SessionKey = SessionKey(peer: InetAddress, sessionIndex: int)

  function KeyOf(info: SessionInfo): SessionKey {
    SessionKey(info.peer, info.sessionIndex)
  }

  datatype ProgressInfo = ProgressInfo(peer: InetAddress, sessionIndex: int, fileName: string, currentBytes: int, totalBytes: int)

  /** The plan's state as reported to whoever waits on the future. */
  datatype StreamState = StreamState(planId: UUID, description: string, sessions: set<SessionInfo>)

  /** A stream state has a failed session when one of its snapshots is in state Failed. */
  predicate HasFailedSession(st: StreamState) {
    exists info :: info in st.sessions && info.state == Failed
  }

  datatype StreamEvent =
    | SessionPreparedEvent(planId: UUID, info: SessionInfo)
    | SessionCompleteEvent(planId: UUID, peer: InetAddress, success: bool, sessionIndex: int)
    | ProgressEvent(planId: UUID, progress: ProgressInfo)

  /** A registered stream_event_handler, known to the future only by identity. */
  datatype ListenerId = ListenerId(id: int)

  /** One call listener.handleStreamEvent(event). */
  datatype Delivery = Delivery(listener: ListenerId, event: StreamEvent)

  /** What the future has been resolved to: a successful final state, a failure carrying the final state, or nothing yet. */
  datatype Resolution = Unresolved | Succeeded(state: StreamState) | FailedWith(state: StreamState)

  /** The resolution a finished plan gets: failure exactly when a session failed. */
  function Resolve(st: StreamState): Resolution {
    if HasFailedSession(st) then FailedWith(st) else Succeeded(st)
  }

  /** The deliveries that one fired event makes: every listener once, in registration order. */
  function Deliveries(listeners: seq<ListenerId>, e: StreamEvent): seq<Delivery> {
    seq(|listeners|, i requires 0 <= i < |listeners| => Delivery(listeners[i], e))
  }

  lemma DeliveriesAppend(listeners: seq<ListenerId>, l: ListenerId, e: StreamEvent)
    ensures Deliveries(listeners + [l], e) == Deliveries(listeners, e) + [Delivery(l, e)]
  {
  }

  /** A call init() makes on the plan's collaborators. */
  datatype InitStep = RegisterListener(listener: ListenerId) | InitSession(session: StreamSession) | ConnectAll

  /** The calls init() makes: every listener, in order; then every session, in order; then one connect. */
  function InitProtocol(listeners: seq<ListenerId>, sessions: seq<StreamSession>): seq<InitStep> {
    Registrations(listeners) + SessionInits(sessions) + [ConnectAll]
  }

  function Registrations(listeners: seq<ListenerId>): seq<InitStep> {
    seq(|listeners|, i requires 0 <= i < |listeners| => RegisterListener(listeners[i]))
  }

  function SessionInits(sessions: seq<StreamSession>): seq<InitStep> {
    seq(|sessions|, i requires 0 <= i < |sessions| => InitSession(sessions[i]))
  }

  /**
   * In init()'s calls every listener is registered before any session is
   * initialised, every session is initialised once and in order, and the
   * sessions are connected exactly once, as the very last call.
   */
  lemma InitProtocolOrder(listeners: seq<ListenerId>, sessions: seq<StreamSession>)
    ensures var log := InitProtocol(listeners, sessions);
      && |log| == |listeners| + |sessions| + 1
      && (forall i :: 0 <= i < |listeners| ==> log[i] == RegisterListener(listeners[i]))
      && (forall i :: 0 <= i < |sessions| ==> log[|listeners| + i] == InitSession(sessions[i]))
      && log[|log| - 1] == ConnectAll
      && (forall i, j :: 0 <= i < j < |log| && log[j].RegisterListener? ==> log[i].RegisterListener?)
      && (forall i :: 0 <= i < |log| - 1 ==> !log[i].ConnectAll?)
  {
  }

  // ---------------------------------------------------------------------------
  // Collaborators
  // ---------------------------------------------------------------------------

  /** A stream session: its peer, its index, its state, and the future it reports to once init() ran. */
  class StreamSession {
    const peer: InetAddress
    const sessionIndex: int
    var state: SessionState
    var future: StreamResultFuture?

    constructor (peer: InetAddress, sessionIndex: int)
      ensures this.peer == peer && this.sessionIndex == sessionIndex
      ensures state == Initialized && future == null
    {
      this.peer := peer;
      this.sessionIndex := sessionIndex;
      state := Initialized;
      future := null;
    }

    /** session->init(future): the session keeps the future it reports to. */
    method Init(f: StreamResultFuture)
      modifies this`future, f.coordinator`history
      ensures future == f
      ensures f.coordinator.history == old(f.coordinator.history) + [InitSession(this)]
    {
      future := f;
      f.coordinator.history := f.coordinator.history + [InitSession(this)];
    }

    function Info(): SessionInfo
      reads this
    {
      SessionInfo(peer, sessionIndex, state)
    }

    predicate IsSuccess()
      reads this
    {
      state == Complete
    }
  }

  /** The stream coordinator, reduced to what the future reads of it and asks of it. */
  class Coordinator {
    var receiving: bool
    var sessions: seq<StreamSession>
    var infos: map<SessionKey, SessionInfo>
    var progress: seq<ProgressInfo>
    var connectCalls: nat
    /** The init() calls made on this plan's listeners, sessions and coordinator, in the order they were made. */
    ghost var history: seq<InitStep>

    constructor (receiving: bool, sessions: seq<StreamSession>)
      ensures this.receiving == receiving && this.sessions == sessions
      ensures infos == map[] && progress == [] && connectCalls == 0 && history == []
    {
      history := [];
      this.receiving := receiving;
      this.sessions := sessions;
      infos := map[];
      progress := [];
      connectCalls := 0;
    }

    predicate IsReceiving()
      reads this
    {
      receiving
    }

    /** Some session has not reached a final state. */
    predicate HasActiveSessions()
      reads this, sessions
    {
      exists i :: 0 <= i < |sessions| && !IsFinal(sessions[i].state)
    }

    /** The latest snapshot of every session reported so far. */
    function AllSessionInfo(): set<SessionInfo>
      reads this
    {
      infos.Values
    }

    /** Records a session snapshot, replacing the earlier one of the same peer and index. */
    method AddSessionInfo(info: SessionInfo)
      modifies this`infos
      ensures infos == old(infos)[KeyOf(info) := info]
    {
      infos := infos[KeyOf(info) := info];
    }

    method UpdateProgress(p: ProgressInfo)
      modifies this`progress
      ensures progress == old(progress) + [p]
    {
      progress := progress + [p];
    }

    method ConnectAllStreamSessions()
      modifies this`connectCalls, this`history
      ensures connectCalls == old(connectCalls) + 1
      ensures history == old(history) + [ConnectAll]
    {
      connectCalls := connectCalls + 1;
      history := history + [ConnectAll];
    }
  }

  // ---------------------------------------------------------------------------
  // stream_result_future
  // ---------------------------------------------------------------------------

  class StreamResultFuture {
    const planId: UUID
    const description: string
    const coordinator: Coordinator
    var listeners: seq<ListenerId>
    /** Every call made to a listener's handleStreamEvent, in order. */
    var delivered: seq<Delivery>
    /** Set at most once, by the reference completion logic. */
    var result: Resolution

    /**
     * A resolved future carries a final state of its own plan, and it failed
     * only when that state has a failed session.
     */
    predicate Valid()
      reads this
    {
      && (result != Unresolved ==> result.state.planId == planId && result.state.description == description)
      && (result.FailedWith? ==> HasFailedSession(result.state))
    }

    // ---- Live part ----------------------------------------------------------

    /** The live constructor: the plan identity is kept, no listener, nothing resolved. */
    constructor (planId: UUID, description: string, coordinator: Coordinator)
      ensures this.planId == planId && this.description == description && this.coordinator == coordinator
      ensures listeners == [] && delivered == [] && result == Unresolved
      ensures Valid()
    {
      this.planId := planId;
      this.description := description;
      this.coordinator := coordinator;
      listeners := [];
      delivered := [];
      result := Unresolved;
    }

    /** add_event_listener: appends the listener; nothing else of the future changes. */
    method AddEventListener(listener: ListenerId)
      modifies this`listeners, coordinator`history
      ensures listeners == old(listeners) + [listener]
      ensures coordinator.history == old(coordinator.history) + [RegisterListener(listener)]
    {
      listeners := listeners + [listener];
      coordinator.history := coordinator.history + [RegisterListener(listener)];
    }

    /**
     * init(): creates the future, registers the listeners in the order given,
     * initialises every session of the coordinator with that one future, and
     * then connects all sessions once. The calls made are those of
     * InitProtocol, in that order, as the coordinator's history records them.
     */
    static method Init(planId: UUID, description: string, listeners: seq<ListenerId>, coordinator: Coordinator)
      returns (future: StreamResultFuture)
      modifies coordinator`connectCalls, coordinator`history, coordinator.sessions`future
      ensures fresh(future)
      ensures future.planId == planId && future.description == description && future.coordinator == coordinator
      ensures future.listeners == listeners && future.delivered == [] && future.result == Unresolved
      ensures forall s :: s in coordinator.sessions ==> s.future == future
      ensures coordinator.connectCalls == old(coordinator.connectCalls) + 1
      ensures coordinator.history == old(coordinator.history) + InitProtocol(listeners, coordinator.sessions)
      ensures coordinator.HasActiveSessions() == old(coordinator.HasActiveSessions())
    {
      future := new StreamResultFuture(planId, description, coordinator);
      var i := 0;
      while i < |listeners|
        invariant 0 <= i <= |listeners|
        invariant future.listeners == listeners[..i] && future.delivered == [] && future.result == Unresolved
        invariant coordinator.history == old(coordinator.history) + Registrations(listeners[..i])
        invariant coordinator.connectCalls == old(coordinator.connectCalls)
      {
        future.AddEventListener(listeners[i]);
        assert listeners[..i + 1] == listeners[..i] + [listeners[i]];
        i := i + 1;
      }
      assert listeners[..i] == listeners;
      var sessions := coordinator.sessions;
      var j := 0;
      while j < |sessions|
        invariant 0 <= j <= |sessions|
        invariant coordinator.sessions == sessions && coordinator.connectCalls == old(coordinator.connectCalls)
        invariant future.listeners == listeners && future.delivered == [] && future.result == Unresolved
        invariant forall k :: 0 <= k < j ==> sessions[k].future == future
        invariant coordinator.history == old(coordinator.history) + Registrations(listeners) + SessionInits(sessions[..j])
      {
        sessions[j].Init(future);
        assert sessions[..j + 1] == sessions[..j] + [sessions[j]];
        j := j + 1;
      }
      assert sessions[..j] == sessions;
      coordinator.ConnectAllStreamSessions();
    }

    // ---- Reference part: the disabled completion logic -----------------------

    /**
     * Reference constructor: the live one with its commented-out set() put
     * back, so that a plan with nothing to wait for resolves at once, with
     * its current state and as a success.
     */
    constructor Resolving(planId: UUID, description: string, coordinator: Coordinator)
      ensures this.planId == planId && this.description == description && this.coordinator == coordinator
      ensures listeners == [] && delivered == []
      ensures !coordinator.IsReceiving() && !coordinator.HasActiveSessions() ==>
        result == Succeeded(StreamState(planId, description, coordinator.AllSessionInfo()))
      ensures coordinator.IsReceiving() || coordinator.HasActiveSessions() ==> result == Unresolved
      ensures Valid()
    {
      this.planId := planId;
      this.description := description;
      this.coordinator := coordinator;
      listeners := [];
      delivered := [];
      if !coordinator.IsReceiving() && !coordinator.HasActiveSessions() {
        result := Succeeded(StreamState(planId, description, coordinator.AllSessionInfo()));
      } else {
        result := Unresolved;
      }
    }

    /** getCurrentState(): the plan identity and the latest snapshot of every session. */
    function CurrentState(): StreamState
      reads this, coordinator
    {
      StreamState(planId, description, coordinator.AllSessionInfo())
    }

    /** fireStreamEvent: hands the event to every listener, in registration order. */
    method FireStreamEvent(e: StreamEvent)
      modifies this`delivered
      ensures delivered == old(delivered) + Deliveries(listeners, e)
    {
      var i := 0;
      while i < |listeners|
        invariant 0 <= i <= |listeners|
        invariant delivered == old(delivered) + Deliveries(listeners[..i], e)
      {
        DeliveriesAppend(listeners[..i], listeners[i], e);
        assert listeners[..i + 1] == listeners[..i] + [listeners[i]];
        delivered := delivered + [Delivery(listeners[i], e)];
        i := i + 1;
      }
      assert listeners[..i] == listeners;
    }

    /**
     * maybeComplete: nothing while a session is still active; otherwise the
     * future is resolved with the current state, failed exactly when a session
     * failed. A future already resolved stays as it is.
     */
    method MaybeComplete()
      requires Valid()
      modifies this`result
      ensures Valid()
      ensures coordinator.HasActiveSessions() || !old(result).Unresolved? ==> result == old(result)
      ensures !coordinator.HasActiveSessions() && old(result).Unresolved? ==>
        && result != Unresolved && result.state == CurrentState()
        && (result.FailedWith? <==> HasFailedSession(CurrentState()))
    {
      if !coordinator.HasActiveSessions() {
        var finalState := CurrentState();
        if result.Unresolved? {
          result := Resolve(finalState);
        }
      }
    }

    /** handleSessionPrepared: records the session's snapshot, then tells the listeners. */
    method HandleSessionPrepared(session: StreamSession)
      modifies this`delivered, coordinator`infos
      ensures coordinator.infos == old(coordinator.infos)[KeyOf(session.Info()) := session.Info()]
      ensures delivered == old(delivered) + Deliveries(listeners, SessionPreparedEvent(planId, session.Info()))
    {
      var info := session.Info();
      coordinator.AddSessionInfo(info);
      FireStreamEvent(SessionPreparedEvent(planId, info));
    }

    /**
     * handleSessionComplete: tells the listeners, records the session's
     * snapshot, and only then runs the completion check.
     */
    method HandleSessionComplete(session: StreamSession)
      requires Valid()
      modifies this`delivered, this`result, coordinator`infos
      ensures Valid()
      ensures delivered == old(delivered)
        + Deliveries(listeners, SessionCompleteEvent(planId, session.peer, session.IsSuccess(), session.sessionIndex))
      ensures coordinator.infos == old(coordinator.infos)[KeyOf(session.Info()) := session.Info()]
      ensures coordinator.HasActiveSessions() || !old(result).Unresolved? ==> result == old(result)
      ensures !coordinator.HasActiveSessions() && old(result).Unresolved? ==>
        && result != Unresolved && result.state == CurrentState()
        && session.Info() in result.state.sessions
        && (result.FailedWith? <==> HasFailedSession(CurrentState()))
    {
      FireStreamEvent(SessionCompleteEvent(planId, session.peer, session.IsSuccess(), session.sessionIndex));
      var info := session.Info();
      coordinator.AddSessionInfo(info);
      assert coordinator.infos[KeyOf(info)] == info;
      MaybeComplete();
    }

    /** handleProgress: records the progress and tells the listeners; it never resolves the future. */
    method HandleProgress(p: ProgressInfo)
      modifies this`delivered, coordinator`progress
      ensures coordinator.progress == old(coordinator.progress) + [p]
      ensures delivered == old(delivered) + Deliveries(listeners, ProgressEvent(planId, p))
      ensures result == old(result)
    {
      coordinator.UpdateProgress(p);
      FireStreamEvent(ProgressEvent(planId, p));
    }
  }
}
