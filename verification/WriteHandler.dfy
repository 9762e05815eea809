/** The two ends of the write path as objects: the server's data source and the runtime's write handler. */
module WriteHandlers {
  import opened TagModel
  import opened Registries
  import opened WriteQueues
  import opened WritePipelines

  /** A bounded channel into a driver; `open` says that the driver still receives. */
  class DriverQueue {
    var pending: seq<WriteRequest>
    var open: bool

    constructor ()
      ensures pending == [] && open
    {
      pending, open := [], true;
    }

    /** Send within a time limit; `inTime` says that room appears before it ends. */
    method Send(req: WriteRequest, inTime: bool) returns (r: Result<(), HandlerError>)
      modifies this`pending
      ensures r.Ok? <==> open && inTime
      ensures pending == if r.Ok? then old(pending) + [req] else old(pending)
      ensures r.Err? ==> r.error == if open then EnqueueTimedOut else EnqueueFailed
    {
      if !open {
        return Err(EnqueueFailed);
      }
      if !inTime {
        return Err(EnqueueTimedOut);
      }
      pending := pending + [req];
      r := Ok(());
    }
  }

  datatype HandlerError =
    | RuntimeTagNotFound | MismatchedType | TagNotWritable | DefinitionMissing | NoRoute
    | EnqueueFailed | EnqueueTimedOut
    | DriverFailed(error: WriteError) | ConfirmationClosed | ConfirmationTimedOut

  /** How the wait on a one-shot channel ends. */
  datatype Confirmation = Replied(outcome: WriteOutcome) | ChannelClosed | WaitTimedOut

  /** The checks before routing, in the order they are made. */
  function Gate(defs: Definitions, tags: map<string, Tag>, tagId: string, value: TagValue): Result<(), HandlerError>
  {
    if tagId !in tags then Err(RuntimeTagNotFound)
    else if tags[tagId].value.DataType() != value.DataType() then Err(MismatchedType)
    else if tagId !in defs then Err(DefinitionMissing)
    else if !defs[tagId].writable then Err(TagNotWritable)
    else Ok(())
  }

  /**
   * The gate compares the value with the tag's current value; in every state the registry can be in,
   * that is a comparison with the defined type.
   */
  lemma {:induction false} GateChecksDefinition(defs: Definitions, tags: map<string, Tag>, tagId: string, value: TagValue)
    requires Typed(defs, CellsOf(tags))
    ensures Gate(defs, tags, tagId, value).Ok? <==>
            tagId in defs && value.Matches(defs[tagId].dataType) && defs[tagId].writable
  {
    assert CellsOf(tags).Keys == tags.Keys;
    if tagId in tags {
      assert CellsOf(tags)[tagId].value == tags[tagId].value;
    }
  }

  /** Which error the gate gives: the first of its checks that fails. */
  lemma {:induction false} GateReportsFirst(defs: Definitions, tags: map<string, Tag>, tagId: string, value: TagValue)
    ensures var r := Gate(defs, tags, tagId, value);
            && (r == Err(RuntimeTagNotFound) <==> tagId !in tags)
            && (r == Err(MismatchedType) <==> tagId in tags && tags[tagId].value.DataType() != value.DataType())
            && (r == Err(DefinitionMissing) <==> tagId in tags && tags[tagId].value.DataType() == value.DataType() && tagId !in defs)
            && (r == Err(TagNotWritable) <==>
                tagId in tags && tags[tagId].value.DataType() == value.DataType() && tagId in defs && !defs[tagId].writable)
  {
  }

  /** The errors after which no request went into a queue. */
  predicate NeverSent(e: HandlerError)
  {
    e.RuntimeTagNotFound? || e.MismatchedType? || e.TagNotWritable? || e.DefinitionMissing? || e.NoRoute?
    || e.EnqueueFailed? || e.EnqueueTimedOut?
  }

  /** What the handler makes of the end of its wait. */
  function Verdict(confirmation: Confirmation): Result<(), HandlerError>
  {
    match confirmation
    case Replied(outcome) => if outcome.Ok? then Ok(()) else Err(DriverFailed(outcome.error))
    case ChannelClosed => Err(ConfirmationClosed)
    case WaitTimedOut => Err(ConfirmationTimedOut)
  }

  /** What the handler meets on its way: the gate's verdict, a route, an open queue with room in time, the end of the wait. */
  datatype Way = Way(gate: Result<(), HandlerError>, routed: bool, open: bool, inTime: bool, confirmation: Confirmation)
  {
    /** The request goes into a queue. */
    predicate Sends()
    {
      gate.Ok? && routed && open && inTime
    }

    /** The answer: the first obstacle, or the verdict at the end. */
    function Answer(): Result<(), HandlerError>
    {
      if gate.Err? then gate
      else if !routed then Err(NoRoute)
      else if !open then Err(EnqueueFailed)
      else if !inTime then Err(EnqueueTimedOut)
      else Verdict(confirmation)
    }
  }

  /** Each answer has exactly one cause: the obstacle it names, with none before it. */
  lemma {:induction false} AnswerTellsCause(way: Way)
    requires GateError(way.gate)
    ensures var r := way.Answer();
            && (r.Ok? <==> way.gate.Ok? && way.routed && way.open && way.inTime && way.confirmation == Replied(Ok(())))
            && (r.Err? && GateError(r) <==> way.gate == r && way.gate.Err?)
            && (r == Err(NoRoute) <==> way.gate.Ok? && !way.routed)
            && (r == Err(EnqueueFailed) <==> way.gate.Ok? && way.routed && !way.open)
            && (r == Err(EnqueueTimedOut) <==> way.gate.Ok? && way.routed && way.open && !way.inTime)
            && (r == Err(ConfirmationClosed) <==> way.Sends() && way.confirmation == ChannelClosed)
            && (r == Err(ConfirmationTimedOut) <==> way.Sends() && way.confirmation == WaitTimedOut)
            && (forall x :: r == Err(DriverFailed(x)) <==> way.Sends() && way.confirmation == Replied(Err(x)))
  {
    if way.confirmation.Replied? && way.confirmation.outcome.Ok? {
      assert way.confirmation.outcome.value == ();
    }
  }

  class RuntimeWriteHandler {
    var routing: map<string, DriverQueue>
    const registry: TagRegistry

    constructor (registry: TagRegistry)
      ensures this.registry == registry && routing == map[]
    {
      this.registry, routing := registry, map[];
    }

    /** Route a tag's writes to a driver; a later route for the same tag replaces an earlier one. */
    method AddRoute(tagId: string, queue: DriverQueue)
      modifies this`routing
      ensures routing == old(routing)[tagId := queue]
    {
      routing := routing[tagId := queue];
    }

    /** The checks of a request against the tag and its definition. */
    method CheckGate(tagId: string, value: TagValue) returns (r: Result<(), HandlerError>)
      requires registry.Valid()
      ensures r == Gate(registry.definitions, registry.tags.View(), tagId, value)
    {
      var tag := registry.GetTag(tagId);
      if tag.Err? {
        return Err(RuntimeTagNotFound);
      }
      if tag.value.value.DataType() != value.DataType() {
        return Err(MismatchedType);
      }
      var definition := registry.GetDefinition(tagId);
      if definition.Err? {
        return Err(DefinitionMissing);
      }
      if !definition.value.writable {
        return Err(TagNotWritable);
      }
      r := Ok(());
    }

    /**
     * Validate, route, enqueue and wait. Only a write that passes the gate, has a route and is enqueued
     * in time puts a request into a queue, exactly one, and only the driver's own success is a success.
     * The error says whether a request was sent.
     */
    method HandleWrite(tagId: string, value: TagValue, oneshot: nat, inTime: bool, confirmation: Confirmation)
      returns (r: Result<(), HandlerError>)
      requires registry.Valid()
      modifies if tagId in routing then {routing[tagId]} else {}
      ensures registry.Valid()
      ensures var way := Way(Gate(registry.definitions, old(registry.tags.View()), tagId, value), tagId in routing,
                             tagId in routing && old(routing[tagId].open), inTime, confirmation);
              && r == way.Answer()
              && (r.Ok? <==> way.Sends() && confirmation.Replied? && confirmation.outcome.Ok?)
              && (r.Err? && NeverSent(r.error) <==> !way.Sends())
              && (tagId in routing && way.Sends() ==> routing[tagId].pending == old(routing[tagId].pending) + [WriteRequest(tagId, value, Some(oneshot))])
              && (tagId in routing && !way.Sends() ==> routing[tagId].pending == old(routing[tagId].pending))
    {
      var gate := CheckGate(tagId, value);
      if gate.Err? {
        return gate;
      }
      if tagId !in routing {
        return Err(NoRoute);
      }
      var sent := routing[tagId].Send(WriteRequest(tagId, value, Some(oneshot)), inTime);
      if sent.Err? {
        return sent;
      }
      match confirmation
      case Replied(outcome) =>
        r := if outcome.Ok? then Ok(()) else Err(DriverFailed(outcome.error));
      case ChannelClosed =>
        r := Err(ConfirmationClosed);
      case WaitTimedOut =>
        r := Err(ConfirmationTimedOut);
    }
  }

  // ----- the handler as the machine's bridge -----

  /** The outcome on the channel the bridge waits on, if there is one. */
  function Held(s: Pipeline): Option<WriteOutcome>
  {
    if s.phase.Confirming? && s.phase.oneshot < |s.oneshots| then s.oneshots[s.phase.oneshot].outcome else None
  }

  /** With event `e` the bridge lets go of its write as a handler does that answers `r`. */
  predicate LetsGoWith(s: Pipeline, e: Event, r: Result<(), HandlerError>)
  {
    match r
    case Ok(_) => e == Confirm && Held(s).Some? && Held(s).value.Ok?
    case Err(DriverFailed(x)) => e == Confirm && Held(s) == Some(Err(x))
    case Err(ConfirmationClosed) => e == ConfirmFails
    case Err(ConfirmationTimedOut) => e == ConfirmFails
    case Err(EnqueueFailed) => e == EnqueueFails
    case Err(EnqueueTimedOut) => e == EnqueueFails
    case Err(_) => e == Take(false)
  }

  /** The machine's bridge takes event `e` where the handler meets `way`: gate and route, then the queue, then the wait. */
  predicate OnTheWay(s: Pipeline, e: Event, way: Way)
  {
    match s.phase
    case Idle => e == Take(way.gate.Ok? && way.routed)
    case Sending => way.gate.Ok? && way.routed && e == if way.open && way.inTime then Enqueue else EnqueueFails
    case Confirming(_) =>
      way.Sends() && if way.confirmation.Replied? then e == Confirm && Held(s) == Some(way.confirmation.outcome) else e == ConfirmFails
  }

  /** The errors of the gate are none of the later ones. */
  predicate GateError(r: Result<(), HandlerError>)
  {
    r.Err? ==> r.error.RuntimeTagNotFound? || r.error.MismatchedType? || r.error.DefinitionMissing? || r.error.TagNotWritable?
  }

  /** The write the bridge has in hand, or takes next. */
  predicate InHand(s: Pipeline, tagId: string, value: TagValue)
  {
    var w := if s.phase.Idle? then s.taken else s.taken - 1;
    0 <= w < |s.submitted| && s.submitted[w].tagId == tagId && s.submitted[w].value == value
  }

  /**
   * The handler is the machine's bridge: on the same way, the machine's events either take the write one
   * phase on, with the very request the handler enqueues, or let go of it as the handler's answer says.
   */
  lemma {:induction false} HandlerIsBridge(site: Site, s: Pipeline, e: Event, way: Way, tagId: string, value: TagValue)
    requires Enabled(site, s, e) && OnTheWay(s, e, way) && GateError(way.gate) && InHand(s, tagId, value)
    ensures LetsGo(e) ==> LetsGoWith(s, e, way.Answer())
    ensures e == Take(true) ==> Step(site, s, e).phase == Sending && InHand(Step(site, s, e), tagId, value)
    ensures e == Enqueue ==>
              var d, t := site.routes[tagId], Step(site, s, e);
              && t.phase == Confirming(|s.oneshots|) && InHand(t, tagId, value)
              && t.drivers[d].received == s.drivers[d].received + [WriteRequest(tagId, value, Some(|s.oneshots|))]
    ensures LetsGo(e) || e == Take(true) || e == Enqueue
  {
  }

  /** What is mailed to the client of the write the bridge lets go of, and to no other. */
  predicate OnlyMailed(s: Pipeline, t: Pipeline, c: nat, a: Answer)
  {
    && c < |s.clients| == |t.clients|
    && t.clients[c].mail == [a] && t.clients[c].view == s.clients[c].view && t.clients[c].write == s.clients[c].write
    && forall k :: 0 <= k < |s.clients| && k != c ==> t.clients[k] == s.clients[k]
  }

  /**
   * The client is told what the handler answers: in every reachable state in which the bridge lets go of
   * a write on this way, a client that made the write then finds the one answer `Confirmed` in its mail
   * exactly if the handler succeeds, and `Failed` if not; a write without a client changes no mail.
   */
  lemma {:induction false} ClientHearsTheAnswer(site: Site, s: Pipeline, e: Event, way: Way)
    requires Reachable(site, s) && Enabled(site, s, e) && OnTheWay(s, e, way) && LetsGo(e) && GateError(way.gate)
    ensures var t := Step(site, s, e);
            && 0 <= t.taken - 1 < |s.submitted|
            && match s.submitted[t.taken - 1].reply
               case Some(c) => OnlyMailed(s, t, c, if way.Answer().Ok? then Confirmed else Failed) && s.clients[c].write == t.taken - 1
               case None => t.clients == s.clients
  {
    ReachableIsOk(site, s);
    var w := if e.Take? then s.taken else s.taken - 1;
    assert ReplyOk(s, w);
    if s.submitted[w].reply.Some? {
      var c := s.submitted[w].reply.value;
      assert ClientOk(s, c);
      assert [] + [Confirmed] == [Confirmed] && [] + [Failed] == [Failed];
    }
  }

  /** The errors after which the driver may still carry out the write: the wait ended without an outcome. */
  predicate OpenEnded(e: HandlerError)
  {
    e.ConfirmationClosed? || e.ConfirmationTimedOut?
  }

  /**
   * What each answer of the handler means for its write in every reachable state and all continuations:
   * success is an acknowledgement; after an error of a write that was never sent, or a failure the driver
   * reported, no continuation drains or acknowledges it; after a wait that ended without an outcome some
   * continuation drains it exactly if its channel is still empty and the driver's poll task lives.
   */
  lemma {:induction false} AnswersMeanExactly(site: Site, s: Pipeline, e: Event, r: Result<(), HandlerError>)
    requires Reachable(site, s) && Enabled(site, s, e) && LetsGoWith(s, e, r)
    ensures var t, w := Step(site, s, e), Step(site, s, e).taken - 1;
            && w >= 0 && Finished(t, w)
            && (r.Ok? ==> WritePipelines.Acknowledged(t, w))
            && (r.Err? && NeverSent(r.error) ==> !HasChannel(t, w))
            && (r.Err? && r.error.DriverFailed? ==> HasOutcome(t, w))
            && (r.Err? && !OpenEnded(r.error) ==> !DrainsLater(site, t, w) && !CanBeAcknowledged(site, t, w))
            && (r.Err? && OpenEnded(r.error) ==> HasChannel(t, w) && (DrainsLater(site, t, w) <==> Pending(t, w)))
  {
    AnswersMeanNow(site, s, e, r);
    var t := Step(site, s, e);
    var w := t.taken - 1;
    if r.Err? && OpenEnded(r.error) {
      DrainsLaterExactly(site, t, w);
    } else if r.Err? {
      LostIsFinal(site, t, w);
    }
  }

  /** What each answer means when it is given. */
  lemma {:induction false} AnswersMeanNow(site: Site, s: Pipeline, e: Event, r: Result<(), HandlerError>)
    requires Reachable(site, s) && Enabled(site, s, e) && LetsGoWith(s, e, r)
    ensures var t, w := Step(site, s, e), Step(site, s, e).taken - 1;
            && w >= 0 && Reachable(site, t) && Finished(t, w)
            && (r.Ok? ==> WritePipelines.Acknowledged(t, w))
            && (r.Err? && NeverSent(r.error) ==> !HasChannel(t, w))
            && (r.Err? && r.error.DriverFailed? ==> HasOutcome(t, w))
            && (r.Err? && !OpenEnded(r.error) ==> Lost(t, w))
            && (r.Err? && OpenEnded(r.error) ==> HasChannel(t, w))
  {
    ChannelBehind(site, s, e);
    var t := Step(site, s, e);
    var w := t.taken - 1;
    if r.Ok? {
      assert AcknowledgedBy(t, w, s.phase.oneshot);
    } else if r.error.DriverFailed? {
      assert FailedOn(t, w, s.phase.oneshot);
    }
  }

  // ----- the server's side -----

  datatype WriteMode = QueuedAck | ConfirmedAck

  /** What a client's write puts on the bridge channel. */
  function Offered(tagId: string, value: TagValue, mode: WriteMode, channel: nat): BridgeWrite
  {
    BridgeWrite(tagId, value, if mode.ConfirmedAck? then Some(channel) else None)
  }

  /** The unbounded channel to the bridge thread. */
  class BridgeChannel {
    var pending: seq<BridgeWrite>
    var open: bool

    constructor ()
      ensures pending == [] && open
    {
      pending, open := [], true;
    }
  }

  class TagDataSource {
    const tagId: string
    const mode: WriteMode
    const registry: TagRegistry
    const bridge: BridgeChannel

    constructor (tagId: string, mode: WriteMode, registry: TagRegistry, bridge: BridgeChannel)
      ensures this.tagId == tagId && this.mode == mode && this.registry == registry && this.bridge == bridge
    {
      this.tagId, this.mode, this.registry, this.bridge := tagId, mode, registry, bridge;
    }

    /**
     * A client's write; `converted` is the incoming value as the defined type, if it converts. The
     * status is good for an accepted write in queued mode, and only for a confirmed one in confirmed mode.
     */
    method Write(converted: Option<TagValue>, channel: nat, wait: Confirmation) returns (good: bool)
      modifies bridge`pending
      ensures var accepted := tagId in registry.definitions && converted.Some? && bridge.open;
              && bridge.pending ==
                 (if accepted then old(bridge.pending) + [Offered(tagId, converted.value, mode, channel)] else old(bridge.pending))
              && (good <==> accepted && (mode.QueuedAck? || (wait.Replied? && wait.outcome.Ok?)))
    {
      var definition := registry.GetDefinition(tagId);
      if definition.Err? || converted.None? {
        return false;
      }
      if !bridge.open {
        return false;
      }
      bridge.pending := bridge.pending + [BridgeWrite(tagId, converted.value, if mode.ConfirmedAck? then Some(channel) else None)];
      if mode.QueuedAck? {
        return true;
      }
      match wait
      case Replied(outcome) => good := outcome.Ok?;
      case ChannelClosed => good := false;
      case WaitTimedOut => good := false;
    }
  }

  /** Writes on the bridge channel are the submitted ones not yet taken. */
  predicate OnBridge(s: Pipeline, pending: seq<BridgeWrite>)
  {
    s.taken <= |s.submitted| && pending == s.submitted[s.taken..]
  }

  /** A client of the machine waits for write `w` on channel `c`, with no answer yet. */
  predicate WaitsFor(s: Pipeline, c: nat, w: nat)
  {
    c < |s.clients| && s.clients[c] == Client(w, [], Waiting)
  }

  /**
   * The data source is the machine's client: what it puts on the bridge channel is what a submission
   * does, with a fresh channel for a client that waits.
   */
  lemma {:induction false} SourceIsClient(site: Site, s: Pipeline, pending: seq<BridgeWrite>, tagId: string, value: TagValue, mode: WriteMode)
    requires OnBridge(s, pending)
    ensures var t := Step(site, s, Submit(tagId, value, mode.ConfirmedAck?));
            && OnBridge(t, pending + [Offered(tagId, value, mode, |s.clients|)])
            && (mode.ConfirmedAck? ==> WaitsFor(t, |s.clients|, |s.submitted|))
            && s.clients <= t.clients && (mode.QueuedAck? ==> t.clients == s.clients)
  {
    assert (s.submitted + [Offered(tagId, value, mode, |s.clients|)])[s.taken..] == s.submitted[s.taken..] + [Offered(tagId, value, mode, |s.clients|)];
  }
}
