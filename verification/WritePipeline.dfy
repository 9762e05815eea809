/**
 * The path of a client's write as a step machine: the server callback, the bridge thread that carries
 * one write at a time, the driver queues, the drain loops, with a timeout at every hop.
 */
module WritePipelines {
  import opened Words
  import opened TagModel
  import opened WriteQueues
  import opened Mappings
  import opened Planner
  import opened Registries
  import opened Codec
  import FinsCycles
  import FinsLaws
  import ModbusCycles
  import ModbusLaws

  /** A write on the bridge channel; `reply` is the channel of a client that waits for confirmation. */
  datatype BridgeWrite = BridgeWrite(tagId: string, value: TagValue, reply: Option<nat>)

  /** What a client is told. */
  datatype Answer = Confirmed | Failed

  datatype View = Waiting | Saw(answer: Answer) | GaveUp

  /** A waiting client: the number of its write, its channel, and how its wait ended. */
  datatype Client = Client(write: nat, mail: seq<Answer>, view: View)

  /** The bridge thread: free, trying to enqueue, or waiting on a one-shot channel for the write it took last. */
  datatype Phase = Idle | Sending | Confirming(oneshot: nat)

  /** A one-shot channel: the write it was made for, where its request went, and what was sent on it. */
  datatype Oneshot = Oneshot(origin: nat, driver: nat, position: nat, outcome: Option<WriteOutcome>)

  // ----- the drivers behind the queues -----

  /** A driver's configuration and the network it meets. */
  datatype Plc =
    | FinsPlc(ms: seq<Mapping>, defs: Definitions, dates: DateRange, groups: seq<ReadGroup>, wire: FinsCycles.Wire)
    | ModbusPlc(ms: seq<Mapping>, defs: Definitions, dates: DateRange, groups: seq<ReadGroup>, net: ModbusCycles.Network)

  /** What a driver's cycles hand on: the FINS station, or the Modbus client, or nothing when a cycle panicked. */
  datatype DriverState = OnFins(station: FinsCycles.Station) | OnModbus(client: ModbusCycles.Client) | Dead

  /** The routes of tags to drivers, and the drivers. */
  datatype Site = Site(routes: map<string, nat>, plant: seq<Plc>)

  predicate Runnable(p: Plc, x: DriverState)
  {
    match p
    case FinsPlc(_, _, _, _, _) => x.OnFins?
    case ModbusPlc(_, _, _, _, _) => x.OnModbus?
  }

  function Started(p: Plc): DriverState
  {
    match p
    case FinsPlc(_, _, _, _, _) => OnFins(FinsCycles.Station(FinsCycles.Down, 1, 0))
    case ModbusPlc(_, _, _, _, _) => OnModbus(ModbusCycles.Client(false, 0, 0))
  }

  predicate SoundSite(site: Site)
  {
    forall d :: 0 <= d < |site.plant| ==> Runnable(site.plant[d], Started(site.plant[d]))
  }

  datatype Executed = Executed(state: DriverState, outcome: WriteOutcome)

  /** One write as the driver's own cycle carries it out. */
  function Execute(p: Plc, x: DriverState, req: WriteRequest): Executed
    requires Runnable(p, x)
  {
    match p
    case FinsPlc(ms, _, _, _, wire) =>
      var step := FinsCycles.WriteOne(ms, wire, x.station, req);
      Executed(OnFins(step.station), step.outcome)
    case ModbusPlc(ms, _, _, _, net) =>
      var step := ModbusCycles.WriteOne(ms, net, x.client, req);
      Executed(OnModbus(step.client), step.outcome)
  }

  /** The start of a cycle: a FINS driver connects. */
  function Connected(p: Plc, x: DriverState): DriverState
    requires Runnable(p, x)
  {
    match p
    case FinsPlc(_, _, _, _, _) => OnFins(FinsCycles.Opened(x.station))
    case ModbusPlc(_, _, _, _, _) => x
  }

  /** The reads of a cycle; a panic ends the poll task, and with it all cycles to come. */
  function Polled(p: Plc, x: DriverState): DriverState
    requires Runnable(p, x)
  {
    match p
    case FinsPlc(_, defs, dates, groups, wire) =>
      var run := FinsCycles.ReadAll(defs, dates, wire, x.station, groups);
      if run.panicked then Dead else OnFins(run.station)
    case ModbusPlc(_, defs, dates, groups, net) => OnModbus(ModbusCycles.Poll(defs, dates, groups, net, x.client).client)
  }

  /** The request, carried out from this state of the driver, was acknowledged to the driver. */
  ghost predicate AcknowledgedFrom(p: Plc, x: DriverState, req: WriteRequest)
    requires Runnable(p, x)
  {
    match p
    case FinsPlc(ms, _, _, _, wire) => FinsLaws.Acknowledged(ms, wire, x.station, req)
    case ModbusPlc(ms, _, _, _, net) => ModbusLaws.Acknowledged(ms, net, x.client, req)
  }

  /** The driver reports success exactly for an acknowledged write. */
  lemma {:induction false} SuccessIsAcknowledgement(p: Plc, x: DriverState, req: WriteRequest)
    requires Runnable(p, x)
    ensures Execute(p, x, req).outcome.Ok? <==> AcknowledgedFrom(p, x, req)
  {
    match p
    case FinsPlc(ms, _, _, _, wire) => FinsLaws.WriteOneAcknowledged(ms, wire, x.station, req);
    case ModbusPlc(ms, _, _, _, net) => ModbusLaws.WriteOneAcknowledged(ms, net, x.client, req);
  }

  /** A drained request: its outcome, and the driver's state when its turn came. */
  datatype Execution = Execution(outcome: WriteOutcome, from: DriverState)

  /** A driver's queue with its history: everything received, in order, the first `|executions|` of it drained. */
  datatype Driver = Driver(received: seq<WriteRequest>, executions: seq<Execution>, state: DriverState)

  // ----- the machine -----

  datatype Pipeline = Pipeline(
    submitted: seq<BridgeWrite>,
    taken: nat,
    phase: Phase,
    clients: seq<Client>,
    oneshots: seq<Oneshot>,
    drivers: seq<Driver>)

  datatype Event =
    | Submit(tagId: string, value: TagValue, confirmed: bool)
    | Take(admitted: bool)
    | Enqueue
    | EnqueueFails
    | Connect(driver: nat)
    | Drain(driver: nat)
    | Poll(driver: nat)
    | Confirm
    | ConfirmFails
    | ClientReads(client: nat)
    | ClientTimesOut(client: nat)

  /** When an event can happen. */
  predicate Enabled(site: Site, s: Pipeline, e: Event)
  {
    match e
    case Submit(_, _, _) => true
    case Take(admitted) =>
      s.phase.Idle? && s.taken < |s.submitted| && (admitted ==> s.submitted[s.taken].tagId in site.routes)
    case Enqueue =>
      && s.phase.Sending? && 1 <= s.taken <= |s.submitted| && s.submitted[s.taken - 1].tagId in site.routes
      && var d := site.routes[s.submitted[s.taken - 1].tagId];
         d < |s.drivers| && |s.drivers[d].received| < |s.drivers[d].executions| + QUEUE_CAPACITY
    case EnqueueFails => s.phase.Sending? && 1 <= s.taken <= |s.submitted|
    case Connect(d) => Running(site, s, d)
    case Poll(d) => Running(site, s, d)
    case Drain(d) =>
      && Running(site, s, d) && |s.drivers[d].executions| < |s.drivers[d].received|
      && s.drivers[d].received[|s.drivers[d].executions|].reply.Some?
      && s.drivers[d].received[|s.drivers[d].executions|].reply.value < |s.oneshots|
    case Confirm =>
      && s.phase.Confirming? && 1 <= s.taken <= |s.submitted| && s.phase.oneshot < |s.oneshots|
      && s.oneshots[s.phase.oneshot].outcome.Some?
    case ConfirmFails => s.phase.Confirming? && 1 <= s.taken <= |s.submitted|
    case ClientReads(c) => c < |s.clients| && s.clients[c].view.Waiting? && s.clients[c].mail != []
    case ClientTimesOut(c) => c < |s.clients| && s.clients[c].view.Waiting?
  }

  predicate Running(site: Site, s: Pipeline, d: nat)
  {
    d < |s.drivers| && d < |site.plant| && Runnable(site.plant[d], s.drivers[d].state)
  }

  /** Send an answer on the channel of the write the bridge holds, if a client waits, and free the bridge. */
  function Answered(s: Pipeline, a: Answer): Pipeline
    requires 1 <= s.taken <= |s.submitted|
  {
    s.(phase := Idle, clients := Mailed(s.clients, s.submitted[s.taken - 1].reply, a))
  }

  function Mailed(clients: seq<Client>, reply: Option<nat>, a: Answer): (r: seq<Client>)
    ensures |r| == |clients|
  {
    if reply.Some? && reply.value < |clients| then
      var c := clients[reply.value];
      clients[reply.value := c.(mail := c.mail + [a])]
    else clients
  }

  function Step(site: Site, s: Pipeline, e: Event): Pipeline
    requires Enabled(site, s, e)
  {
    match e
    case Submit(tag, value, confirmed) =>
      if confirmed then
        s.(submitted := s.submitted + [BridgeWrite(tag, value, Some(|s.clients|))],
           clients := s.clients + [Client(|s.submitted|, [], Waiting)])
      else s.(submitted := s.submitted + [BridgeWrite(tag, value, None)])
    case Take(admitted) =>
      var t := s.(taken := s.taken + 1);
      if admitted then t.(phase := Sending) else Answered(t, Failed)
    case Enqueue => Enqueued(s, site.routes[s.submitted[s.taken - 1].tagId])
    case EnqueueFails => Answered(s, Failed)
    case Connect(d) => Moved(s, d, Connected(site.plant[d], s.drivers[d].state))
    case Drain(d) => Drained(site, s, d)
    case Poll(d) => Moved(s, d, Polled(site.plant[d], s.drivers[d].state))
    case Confirm => Answered(s, if s.oneshots[s.phase.oneshot].outcome.value.Ok? then Confirmed else Failed)
    case ConfirmFails => Answered(s, Failed)
    case ClientReads(c) => s.(clients := s.clients[c := s.clients[c].(view := Saw(s.clients[c].mail[0]))])
    case ClientTimesOut(c) => s.(clients := s.clients[c := s.clients[c].(view := GaveUp)])
  }

  /** A fresh one-shot channel goes with the request into the queue of driver `d`. */
  function Enqueued(s: Pipeline, d: nat): Pipeline
    requires 1 <= s.taken <= |s.submitted| && d < |s.drivers|
  {
    var bw, o, received := s.submitted[s.taken - 1], |s.oneshots|, s.drivers[d].received;
    s.(phase := Confirming(o),
       oneshots := s.oneshots + [Oneshot(s.taken - 1, d, |received|, None)],
       drivers := s.drivers[d := s.drivers[d].(received := received + [WriteRequest(bw.tagId, bw.value, Some(o))])])
  }

  /** The oldest queued request of driver `d` is carried out as its cycle does, and the outcome is sent. */
  function Drained(site: Site, s: Pipeline, d: nat): Pipeline
    requires Enabled(site, s, Drain(d))
  {
    var k, p, x := |s.drivers[d].executions|, site.plant[d], s.drivers[d].state;
    var req := s.drivers[d].received[k];
    var done := Execute(p, x, req);
    s.(oneshots := s.oneshots[req.reply.value := s.oneshots[req.reply.value].(outcome := Some(done.outcome))],
       drivers := s.drivers[d := s.drivers[d].(executions := s.drivers[d].executions + [Execution(done.outcome, x)], state := done.state)])
  }

  function Moved(s: Pipeline, d: nat, x: DriverState): Pipeline
    requires d < |s.drivers|
  {
    s.(drivers := s.drivers[d := s.drivers[d].(state := x)])
  }

  function StartedAll(plant: seq<Plc>): (ds: seq<Driver>)
    ensures |ds| == |plant|
  {
    seq(|plant|, d requires 0 <= d < |plant| => Driver([], [], Started(plant[d])))
  }

  function Initial(site: Site): Pipeline
  {
    Pipeline([], 0, Idle, [], [], StartedAll(site.plant))
  }

  /** Events each possible where it happens. */
  predicate Possible(site: Site, s: Pipeline, es: seq<Event>)
    decreases |es|
  {
    es == [] || (Enabled(site, s, es[0]) && Possible(site, Step(site, s, es[0]), es[1..]))
  }

  function Run(site: Site, s: Pipeline, es: seq<Event>): Pipeline
    requires Possible(site, s, es)
    decreases |es|
  {
    if es == [] then s else Run(site, Step(site, s, es[0]), es[1..])
  }

  // ----- the invariant -----

  /** One-shot channel `o` belongs to the request at its position of its driver, made for the write it comes from. */
  predicate OneshotOk(site: Site, s: Pipeline, o: nat)
    requires o < |s.oneshots|
  {
    var x := s.oneshots[o];
    && x.origin < s.taken <= |s.submitted|
    && s.submitted[x.origin].tagId in site.routes && site.routes[s.submitted[x.origin].tagId] == x.driver < |s.drivers|
    && x.position < |s.drivers[x.driver].received|
    && s.drivers[x.driver].received[x.position] == WriteRequest(s.submitted[x.origin].tagId, s.submitted[x.origin].value, Some(o))
    && x.outcome == OutcomeAt(s.drivers[x.driver], x.position)
  }

  /** The reply to the request at position `k`, if it was drained. */
  function OutcomeAt(d: Driver, k: nat): Option<WriteOutcome>
  {
    if k < |d.executions| then Some(d.executions[k].outcome) else None
  }

  /** The request at position `k` of driver `d` carries the one-shot channel made for it. */
  predicate RequestOk(s: Pipeline, d: nat, k: nat)
    requires d < |s.drivers| && k < |s.drivers[d].received|
  {
    var r := s.drivers[d].received[k].reply;
    r.Some? && r.value < |s.oneshots| && s.oneshots[r.value].driver == d && s.oneshots[r.value].position == k
  }

  /** Later one-shot channels belong to later writes and later positions. */
  predicate InOrder(s: Pipeline, o: nat, p: nat)
    requires o < |s.oneshots| && p < |s.oneshots|
  {
    && s.oneshots[o].origin < s.oneshots[p].origin
    && (s.oneshots[o].driver == s.oneshots[p].driver ==> s.oneshots[o].position < s.oneshots[p].position)
  }

  /** Every drained request was carried out by its driver's own cycle. */
  predicate DriverOk(p: Plc, d: Driver)
  {
    && (Runnable(p, d.state) || d.state.Dead?)
    && |d.executions| <= |d.received| <= |d.executions| + 256
    && forall k :: 0 <= k < |d.executions| ==> ExecutionOk(p, d.executions[k], d.received[k])
  }

  predicate ExecutionOk(p: Plc, x: Execution, req: WriteRequest)
  {
    Runnable(p, x.from) && x.outcome == Execute(p, x.from, req).outcome
  }

  predicate PhaseOk(s: Pipeline)
  {
    && s.taken <= |s.submitted|
    && (s.phase.Idle? || s.taken >= 1)
    && (s.phase.Sending? ==> forall o :: 0 <= o < |s.oneshots| ==> s.oneshots[o].origin < s.taken - 1)
    && (s.phase.Confirming? ==> s.phase.oneshot < |s.oneshots| && s.oneshots[s.phase.oneshot].origin == s.taken - 1)
  }

  /** Write `w` was carried out and acknowledged. */
  predicate Acknowledged(s: Pipeline, w: nat)
  {
    exists o :: 0 <= o < |s.oneshots| && AcknowledgedBy(s, w, o)
  }

  predicate AcknowledgedBy(s: Pipeline, w: nat, o: nat)
    requires o < |s.oneshots|
  {
    s.oneshots[o].origin == w && s.oneshots[o].outcome.Some? && s.oneshots[o].outcome.value.Ok?
  }

  /** A client has at most one answer, only after the bridge is done with its write, and a true one. */
  predicate ClientOk(s: Pipeline, c: nat)
    requires c < |s.clients|
  {
    var x := s.clients[c];
    && x.write < |s.submitted| && s.submitted[x.write].reply == Some(c)
    && |x.mail| <= 1
    && (x.mail != [] ==> Finished(s, x.write))
    && (x.mail == [Confirmed] ==> Acknowledged(s, x.write))
    && (x.view.Saw? ==> x.mail == [x.view.answer])
  }

  /** The bridge has taken the write and let go of it. */
  predicate Finished(s: Pipeline, w: nat)
  {
    w < s.taken && (w == s.taken - 1 ==> s.phase.Idle?)
  }

  ghost predicate Invariant(site: Site, s: Pipeline)
  {
    && PhaseOk(s)
    && |s.drivers| == |site.plant|
    && (forall o :: 0 <= o < |s.oneshots| ==> OneshotOk(site, s, o))
    && (forall o, p :: 0 <= o < p < |s.oneshots| ==> InOrder(s, o, p))
    && (forall d :: 0 <= d < |s.drivers| ==> DriverOk(site.plant[d], s.drivers[d]))
    && (forall d, k :: 0 <= d < |s.drivers| && 0 <= k < |s.drivers[d].received| ==> RequestOk(s, d, k))
    && (forall w :: 0 <= w < |s.submitted| ==> ReplyOk(s, w))
    && (forall c :: 0 <= c < |s.clients| ==> ClientOk(s, c))
  }

  /** A write's reply channel is that of the client that made the write. */
  predicate ReplyOk(s: Pipeline, w: nat)
    requires w < |s.submitted|
  {
    var r := s.submitted[w].reply;
    r.Some? ==> r.value < |s.clients| && s.clients[r.value].write == w
  }

  lemma {:induction false} InitialIsOk(site: Site)
    requires SoundSite(site)
    ensures Invariant(site, Initial(site))
  {
  }

  // ----- every step keeps it -----

  lemma {:induction false} InvariantOverRuns(site: Site, s: Pipeline, es: seq<Event>)
    requires Invariant(site, s) && Possible(site, s, es)
    ensures Invariant(site, Run(site, s, es))
    decreases |es|
  {
    if es != [] {
      StepKeeps(site, s, es[0]);
      InvariantOverRuns(site, Step(site, s, es[0]), es[1..]);
    }
  }

  lemma {:induction false} StepKeeps(site: Site, s: Pipeline, e: Event)
    requires Invariant(site, s) && Enabled(site, s, e)
    ensures Invariant(site, Step(site, s, e))
  {
    match e
    case Submit(tag, value, confirmed) => SubmitKeeps(site, s, tag, value, confirmed);
    case Take(admitted) => TakeKeeps(site, s, admitted);
    case Enqueue => EnqueueKeeps(site, s, site.routes[s.submitted[s.taken - 1].tagId]);
    case EnqueueFails => AnswerKeeps(site, s, Failed);
    case Connect(d) => MoveKeeps(site, s, d, Connected(site.plant[d], s.drivers[d].state));
    case Drain(d) => DrainKeeps(site, s, d);
    case Poll(d) => MoveKeeps(site, s, d, Polled(site.plant[d], s.drivers[d].state));
    case Confirm => ConfirmKeeps(site, s);
    case ConfirmFails => AnswerKeeps(site, s, Failed);
    case ClientReads(c) =>
      assert ClientOk(s, c);
      ViewKeeps(site, s, c, Saw(s.clients[c].mail[0]));
    case ClientTimesOut(c) => ViewKeeps(site, s, c, GaveUp);
  }

  lemma {:induction false} SubmitKeeps(site: Site, s: Pipeline, tag: string, value: TagValue, confirmed: bool)
    requires Invariant(site, s)
    ensures Invariant(site, Step(site, s, Submit(tag, value, confirmed)))
  {
    var t := Step(site, s, Submit(tag, value, confirmed));
    forall o | 0 <= o < |t.oneshots| ensures OneshotOk(site, t, o) {
      assert OneshotOk(site, s, o);
    }
    forall d, k | 0 <= d < |t.drivers| && 0 <= k < |t.drivers[d].received| ensures RequestOk(t, d, k) {
      assert RequestOk(s, d, k);
    }
    forall o, p | 0 <= o < p < |t.oneshots| ensures InOrder(t, o, p) {
      assert InOrder(s, o, p);
    }
    forall c | 0 <= c < |t.clients| ensures ClientOk(t, c) {
      if c < |s.clients| {
        assert ClientOk(s, c);
        StillAcknowledged(s, t, s.clients[c].write);
      }
    }
    forall w | 0 <= w < |t.submitted| ensures ReplyOk(t, w) {
      if w < |s.submitted| {
        assert ReplyOk(s, w);
      }
    }
  }

  /** One-shot channels are never lost, and what was sent on them stays. */
  predicate OutcomesStay(s: Pipeline, t: Pipeline)
  {
    |s.oneshots| <= |t.oneshots| && forall o :: 0 <= o < |s.oneshots| ==>
      t.oneshots[o].origin == s.oneshots[o].origin && (s.oneshots[o].outcome.Some? ==> t.oneshots[o].outcome == s.oneshots[o].outcome)
  }

  lemma {:induction false} StillAcknowledged(s: Pipeline, t: Pipeline, w: nat)
    requires OutcomesStay(s, t)
    ensures Acknowledged(s, w) ==> Acknowledged(t, w)
  {
    if Acknowledged(s, w) {
      var o :| 0 <= o < |s.oneshots| && AcknowledgedBy(s, w, o);
      assert AcknowledgedBy(t, w, o);
    }
  }

  /** The part of the state that is not the bridge's phase, its count and the clients' channels. */
  predicate SameChannels(s: Pipeline, t: Pipeline)
  {
    s.submitted == t.submitted && s.oneshots == t.oneshots && s.drivers == t.drivers
  }

  lemma {:induction false} ChannelsKept(site: Site, s: Pipeline, t: Pipeline)
    requires Invariant(site, s) && SameChannels(s, t) && s.taken <= t.taken <= |t.submitted|
    ensures forall o :: 0 <= o < |t.oneshots| ==> OneshotOk(site, t, o)
    ensures forall o, p :: 0 <= o < p < |t.oneshots| ==> InOrder(t, o, p)
    ensures forall d :: 0 <= d < |t.drivers| ==> DriverOk(site.plant[d], t.drivers[d])
    ensures |t.drivers| == |site.plant|
    ensures forall d, k :: 0 <= d < |t.drivers| && 0 <= k < |t.drivers[d].received| ==> RequestOk(t, d, k)
  {
    forall o | 0 <= o < |t.oneshots| ensures OneshotOk(site, t, o) {
      assert OneshotOk(site, s, o);
    }
    forall o, p | 0 <= o < p < |t.oneshots| ensures InOrder(t, o, p) {
      assert InOrder(s, o, p);
    }
    forall d, k | 0 <= d < |t.drivers| && 0 <= k < |t.drivers[d].received| ensures RequestOk(t, d, k) {
      assert RequestOk(s, d, k);
    }
  }

  lemma {:induction false} TakeKeeps(site: Site, s: Pipeline, admitted: bool)
    requires Invariant(site, s) && Enabled(site, s, Take(admitted))
    ensures Invariant(site, Step(site, s, Take(admitted)))
  {
    var t := s.(taken := s.taken + 1, phase := if admitted then Sending else Idle);
    ChannelsKept(site, s, t);
    forall o | 0 <= o < |t.oneshots| ensures t.oneshots[o].origin < t.taken - 1 {
      assert OneshotOk(site, s, o);
    }
    forall c | 0 <= c < |t.clients| ensures ClientOk(t, c) && (t.clients[c].write == s.taken ==> t.clients[c].mail == []) {
      assert ClientOk(s, c);
      StillAcknowledged(s, t, s.clients[c].write);
    }
    forall w | 0 <= w < |t.submitted| ensures ReplyOk(t, w) {
      assert ReplyOk(s, w);
    }
    assert Invariant(site, t);
    if !admitted {
      MailKeeps(site, t, Failed);
    }
  }

  /** The client of the write the bridge took last has no answer yet. */
  predicate Unanswered(s: Pipeline)
  {
    forall c :: 0 <= c < |s.clients| && s.clients[c].write == s.taken - 1 ==> s.clients[c].mail == []
  }

  /** A true answer for the write taken last keeps the invariant. */
  lemma {:induction false} MailKeeps(site: Site, s: Pipeline, a: Answer)
    requires Invariant(site, s) && s.phase.Idle? && s.taken >= 1 && Unanswered(s)
    requires a == Confirmed ==> Acknowledged(s, s.taken - 1)
    ensures Invariant(site, Answered(s, a))
  {
    var t := Answered(s, a);
    ChannelsKept(site, s, t);
    assert ReplyOk(s, s.taken - 1);
    forall c | 0 <= c < |t.clients| ensures ClientOk(t, c) {
      assert ClientOk(s, c);
      StillAcknowledged(s, t, s.clients[c].write);
      if s.submitted[s.taken - 1].reply == Some(c) {
        assert t.clients[c].mail == [a] && [a][0] == a;
      }
    }
    forall w | 0 <= w < |t.submitted| ensures ReplyOk(t, w) {
      assert ReplyOk(s, w);
    }
  }

  lemma {:induction false} AnswerKeeps(site: Site, s: Pipeline, a: Answer)
    requires Invariant(site, s) && !s.phase.Idle?
    requires a == Confirmed ==> Acknowledged(s, s.taken - 1)
    ensures Invariant(site, Answered(s, a))
  {
    var t := s.(phase := Idle);
    ChannelsKept(site, s, t);
    forall c | 0 <= c < |t.clients| ensures ClientOk(t, c) && (t.clients[c].write == t.taken - 1 ==> t.clients[c].mail == []) {
      assert ClientOk(s, c);
      StillAcknowledged(s, t, s.clients[c].write);
    }
    StillAcknowledged(s, t, s.taken - 1);
    forall w | 0 <= w < |t.submitted| ensures ReplyOk(t, w) {
      assert ReplyOk(s, w);
    }
    MailKeeps(site, t, a);
  }

  lemma {:induction false} ConfirmKeeps(site: Site, s: Pipeline)
    requires Invariant(site, s) && Enabled(site, s, Confirm)
    ensures Invariant(site, Step(site, s, Confirm))
  {
    var outcome := s.oneshots[s.phase.oneshot].outcome.value;
    if outcome.Ok? {
      assert AcknowledgedBy(s, s.taken - 1, s.phase.oneshot);
    }
    AnswerKeeps(site, s, if outcome.Ok? then Confirmed else Failed);
  }

  lemma {:induction false} ViewKeeps(site: Site, s: Pipeline, c: nat, v: View)
    requires Invariant(site, s) && c < |s.clients| && (v.Saw? ==> s.clients[c].mail == [v.answer])
    ensures Invariant(site, s.(clients := s.clients[c := s.clients[c].(view := v)]))
  {
    var t := s.(clients := s.clients[c := s.clients[c].(view := v)]);
    ChannelsKept(site, s, t);
    forall k | 0 <= k < |t.clients| ensures ClientOk(t, k) {
      assert ClientOk(s, k);
      StillAcknowledged(s, t, s.clients[k].write);
    }
    forall w | 0 <= w < |t.submitted| ensures ReplyOk(t, w) {
      assert ReplyOk(s, w);
    }
  }

  lemma {:induction false} EnqueueKeeps(site: Site, s: Pipeline, d: nat)
    requires Invariant(site, s) && Enabled(site, s, Enqueue) && d == site.routes[s.submitted[s.taken - 1].tagId]
    ensures Invariant(site, Enqueued(s, d))
  {
    var t := Enqueued(s, d);
    EnqueueKeepsChannels(site, s, d);
    EnqueueKeepsOrder(site, s, d);
    forall c | 0 <= c < |t.clients| ensures ClientOk(t, c) {
      assert ClientOk(s, c);
      StillAcknowledged(s, t, s.clients[c].write);
    }
    forall w | 0 <= w < |t.submitted| ensures ReplyOk(t, w) {
      assert ReplyOk(s, w);
    }
  }

  lemma {:induction false} EnqueueKeepsChannels(site: Site, s: Pipeline, d: nat)
    requires Invariant(site, s) && Enabled(site, s, Enqueue) && d == site.routes[s.submitted[s.taken - 1].tagId]
    ensures var t := Enqueued(s, d);
            && (forall o :: 0 <= o < |t.oneshots| ==> OneshotOk(site, t, o))
            && (forall k :: 0 <= k < |t.drivers| ==> DriverOk(site.plant[k], t.drivers[k]))
            && (forall e, k :: 0 <= e < |t.drivers| && 0 <= k < |t.drivers[e].received| ==> RequestOk(t, e, k))
  {
    var t := Enqueued(s, d);
    assert DriverOk(site.plant[d], s.drivers[d]);
    forall o | 0 <= o < |t.oneshots| ensures OneshotOk(site, t, o) {
      if o < |s.oneshots| {
        assert OneshotOk(site, s, o);
      }
    }
    forall e, k | 0 <= e < |t.drivers| && 0 <= k < |t.drivers[e].received| ensures RequestOk(t, e, k) {
      if k < |s.drivers[e].received| {
        assert RequestOk(s, e, k);
      }
    }
  }

  lemma {:induction false} EnqueueKeepsOrder(site: Site, s: Pipeline, d: nat)
    requires Invariant(site, s) && Enabled(site, s, Enqueue) && d == site.routes[s.submitted[s.taken - 1].tagId]
    ensures var t := Enqueued(s, d); forall o, p :: 0 <= o < p < |t.oneshots| ==> InOrder(t, o, p)
  {
    var t := Enqueued(s, d);
    forall o, p | 0 <= o < p < |t.oneshots| ensures InOrder(t, o, p) {
      assert OneshotOk(site, s, o);
      if p < |s.oneshots| {
        assert InOrder(s, o, p);
      }
    }
  }

  /** A driver that connects or reads changes no queue. */
  lemma {:induction false} MoveKeeps(site: Site, s: Pipeline, d: nat, x: DriverState)
    requires Invariant(site, s) && d < |s.drivers| && (Runnable(site.plant[d], x) || x.Dead?)
    ensures Invariant(site, Moved(s, d, x))
  {
    var t := Moved(s, d, x);
    assert DriverOk(site.plant[d], s.drivers[d]);
    forall o | 0 <= o < |t.oneshots| ensures OneshotOk(site, t, o) {
      assert OneshotOk(site, s, o);
    }
    forall o, p | 0 <= o < p < |t.oneshots| ensures InOrder(t, o, p) {
      assert InOrder(s, o, p);
    }
    forall e, k | 0 <= e < |t.drivers| && 0 <= k < |t.drivers[e].received| ensures RequestOk(t, e, k) {
      assert RequestOk(s, e, k);
    }
    SameClients(s, t);
  }

  /** Clients are as they were when nothing but one-shot channels and drivers moved on. */
  lemma {:induction false} SameClients(s: Pipeline, t: Pipeline)
    requires s.clients == t.clients && s.submitted == t.submitted && s.taken == t.taken && s.phase == t.phase && OutcomesStay(s, t)
    ensures (forall c :: 0 <= c < |s.clients| ==> ClientOk(s, c)) ==> forall c :: 0 <= c < |t.clients| ==> ClientOk(t, c)
    ensures (forall w :: 0 <= w < |s.submitted| ==> ReplyOk(s, w)) ==> forall w :: 0 <= w < |t.submitted| ==> ReplyOk(t, w)
  {
    forall c | 0 <= c < |t.clients| && ClientOk(s, c) ensures ClientOk(t, c) {
      StillAcknowledged(s, t, s.clients[c].write);
    }
    forall w | 0 <= w < |t.submitted| && ReplyOk(s, w) ensures ReplyOk(t, w) {
    }
  }

  lemma {:induction false} DrainKeeps(site: Site, s: Pipeline, d: nat)
    requires Invariant(site, s) && Enabled(site, s, Drain(d))
    ensures Invariant(site, Drained(site, s, d))
  {
    var t := Drained(site, s, d);
    DrainKeepsChannels(site, s, d);
    DrainKeepsDriver(site, s, d);
    OutcomesStayDrained(site, s, d);
    forall o, p | 0 <= o < p < |t.oneshots| ensures InOrder(t, o, p) {
      assert InOrder(s, o, p);
    }
    SameClients(s, t);
  }

  lemma {:induction false} OutcomesStayDrained(site: Site, s: Pipeline, d: nat)
    requires Invariant(site, s) && Enabled(site, s, Drain(d))
    ensures OutcomesStay(s, Drained(site, s, d))
  {
    var k := |s.drivers[d].executions|;
    assert RequestOk(s, d, k);
    assert OneshotOk(site, s, s.drivers[d].received[k].reply.value);
  }

  lemma {:induction false} DrainKeepsDriver(site: Site, s: Pipeline, d: nat)
    requires Invariant(site, s) && Enabled(site, s, Drain(d))
    ensures var t := Drained(site, s, d); forall e :: 0 <= e < |t.drivers| ==> DriverOk(site.plant[e], t.drivers[e])
  {
    var before, after := s.drivers[d], Drained(site, s, d).drivers[d];
    assert DriverOk(site.plant[d], before);
    OneMoreExecution(site.plant[d], before, after);
  }

  lemma {:induction false} OneMoreExecution(p: Plc, before: Driver, after: Driver)
    requires DriverOk(p, before) && Runnable(p, before.state) && |before.executions| < |before.received|
    requires var done := Execute(p, before.state, before.received[|before.executions|]);
             after == before.(executions := before.executions + [Execution(done.outcome, before.state)], state := done.state)
    ensures DriverOk(p, after)
  {
    var n := |before.executions|;
    forall k | 0 <= k < |after.executions| ensures ExecutionOk(p, after.executions[k], after.received[k]) {
      if k < n {
        assert ExecutionOk(p, before.executions[k], before.received[k]);
      }
    }
  }

  lemma {:induction false} DrainKeepsChannels(site: Site, s: Pipeline, d: nat)
    requires Invariant(site, s) && Enabled(site, s, Drain(d))
    ensures var t := Drained(site, s, d);
            && (forall o :: 0 <= o < |t.oneshots| ==> OneshotOk(site, t, o))
            && (forall e, k :: 0 <= e < |t.drivers| && 0 <= k < |t.drivers[e].received| ==> RequestOk(t, e, k))
  {
    var t, n := Drained(site, s, d), |s.drivers[d].executions|;
    assert DriverOk(site.plant[d], s.drivers[d]);
    assert RequestOk(s, d, n);
    forall o | 0 <= o < |t.oneshots| ensures OneshotOk(site, t, o) {
      assert OneshotOk(site, s, o);
    }
    forall e, k | 0 <= e < |t.drivers| && 0 <= k < |t.drivers[e].received| ensures RequestOk(t, e, k) {
      assert RequestOk(s, e, k);
    }
  }

  // ----- what holds in every reachable state -----

  ghost predicate Reachable(site: Site, s: Pipeline)
  {
    SoundSite(site) && exists es: seq<Event> :: Possible(site, Initial(site), es) && s == Run(site, Initial(site), es)
  }

  lemma {:induction false} ReachableIsOk(site: Site, s: Pipeline)
    requires Reachable(site, s)
    ensures Invariant(site, s)
  {
    var es: seq<Event> :| Possible(site, Initial(site), es) && s == Run(site, Initial(site), es);
    InitialIsOk(site);
    InvariantOverRuns(site, Initial(site), es);
  }

  /** No driver's queue ever holds more than 256 requests, and the bridge can enqueue exactly while fewer wait. */
  lemma {:induction false} QueuesHold256(site: Site, s: Pipeline, d: nat)
    requires Reachable(site, s) && d < |s.drivers|
    ensures 0 <= |s.drivers[d].received| - |s.drivers[d].executions| <= 256
    ensures s.phase.Sending? && s.taken >= 1 && s.taken <= |s.submitted| && s.submitted[s.taken - 1].tagId in site.routes
            && site.routes[s.submitted[s.taken - 1].tagId] == d ==>
              (Enabled(site, s, Enqueue) <==> |s.drivers[d].received| - |s.drivers[d].executions| < 256)
  {
    ReachableIsOk(site, s);
    assert DriverOk(site.plant[d], s.drivers[d]);
  }

  /** Request number `k` of driver `d` was drained for write `w`, with this execution. */
  predicate ExecutedFor(s: Pipeline, w: nat, d: nat, k: nat)
  {
    && d < |s.drivers| && k < |s.drivers[d].executions| <= |s.drivers[d].received|
    && s.drivers[d].received[k].reply.Some? && s.drivers[d].received[k].reply.value < |s.oneshots|
    && s.oneshots[s.drivers[d].received[k].reply.value].origin == w
  }

  /**
   * No false confirmation and no cross-talk: a client that saw its write confirmed made a write that
   * its own driver drained, with that tag and value, and that was acknowledged to the driver in the
   * very cycle step that carried it out.
   */
  lemma {:induction false} ConfirmedMeansAcknowledged(site: Site, s: Pipeline, c: nat) returns (d: nat, k: nat)
    requires Reachable(site, s) && c < |s.clients| && s.clients[c].view == Saw(Confirmed)
    ensures var w := s.clients[c].write;
            && ExecutedFor(s, w, d, k)
            && w < |s.submitted| && s.submitted[w].reply == Some(c)
            && s.submitted[w].tagId in site.routes && site.routes[s.submitted[w].tagId] == d < |site.plant|
            && s.drivers[d].received[k].tagId == s.submitted[w].tagId
            && s.drivers[d].received[k].value == s.submitted[w].value
            && Runnable(site.plant[d], s.drivers[d].executions[k].from)
            && AcknowledgedFrom(site.plant[d], s.drivers[d].executions[k].from, s.drivers[d].received[k])
  {
    ReachableIsOk(site, s);
    var w := s.clients[c].write;
    assert ClientOk(s, c);
    var o :| 0 <= o < |s.oneshots| && AcknowledgedBy(s, w, o);
    assert OneshotOk(site, s, o);
    d, k := s.oneshots[o].driver, s.oneshots[o].position;
    assert DriverOk(site.plant[d], s.drivers[d]);
    assert ExecutionOk(site.plant[d], s.drivers[d].executions[k], s.drivers[d].received[k]);
    SuccessIsAcknowledgement(site.plant[d], s.drivers[d].executions[k].from, s.drivers[d].received[k]);
  }

  /** The channel of a drained request. */
  lemma {:induction false} ChannelOfExecution(site: Site, s: Pipeline, w: nat, d: nat, k: nat) returns (o: nat)
    requires Invariant(site, s) && ExecutedFor(s, w, d, k)
    ensures o < |s.oneshots| && s.oneshots[o].origin == w < |s.submitted|
    ensures s.oneshots[o].driver == d && s.oneshots[o].position == k
  {
    o := s.drivers[d].received[k].reply.value;
    assert RequestOk(s, d, k) && OneshotOk(site, s, o);
  }

  /** Channels in order belong to writes in order, and of one driver to positions in order. */
  lemma {:induction false} ChannelOrder(site: Site, s: Pipeline, o: nat, p: nat)
    requires Invariant(site, s) && o < |s.oneshots| && p < |s.oneshots|
    ensures o < p ==> InOrder(s, o, p)
    ensures p < o ==> InOrder(s, p, o)
  {
  }

  /** No write is drained twice, in whatever drivers and at whatever positions. */
  lemma {:induction false} NoWriteExecutesTwice(site: Site, s: Pipeline, w: nat, d: nat, k: nat, e: nat, l: nat)
    requires Reachable(site, s) && ExecutedFor(s, w, d, k) && ExecutedFor(s, w, e, l)
    ensures d == e && k == l
  {
    ReachableIsOk(site, s);
    var o := ChannelOfExecution(site, s, w, d, k);
    var p := ChannelOfExecution(site, s, w, e, l);
    OneOrigin(site, s, o, p);
  }

  lemma {:induction false} OneOrigin(site: Site, s: Pipeline, o: nat, p: nat)
    requires Invariant(site, s) && o < |s.oneshots| && p < |s.oneshots| && s.oneshots[o].origin == s.oneshots[p].origin
    ensures o == p
  {
    ChannelOrder(site, s, o, p);
  }

  /** Order preservation: what a driver drains later was submitted to the bridge later, whatever timed out in between. */
  lemma {:induction false} ExecutionFollowsBridgeOrder(site: Site, s: Pipeline, v: nat, w: nat, d: nat, k: nat, l: nat)
    requires Reachable(site, s) && ExecutedFor(s, v, d, k) && ExecutedFor(s, w, d, l) && k < l
    ensures v < w < |s.submitted|
  {
    ReachableIsOk(site, s);
    var o := ChannelOfExecution(site, s, v, d, k);
    var p := ChannelOfExecution(site, s, w, d, l);
    LaterPosition(site, s, o, p);
  }

  lemma {:induction false} LaterPosition(site: Site, s: Pipeline, o: nat, p: nat)
    requires Invariant(site, s) && o < |s.oneshots| && p < |s.oneshots|
    requires s.oneshots[o].driver == s.oneshots[p].driver && s.oneshots[o].position < s.oneshots[p].position
    ensures s.oneshots[o].origin < s.oneshots[p].origin
  {
    ChannelOrder(site, s, o, p);
  }

  /** A client gets at most one answer, and once its wait has ended no event changes what it saw. */
  lemma {:induction false} OneAnswerForEver(site: Site, s: Pipeline, e: Event, c: nat)
    requires Reachable(site, s) && Enabled(site, s, e) && c < |s.clients|
    ensures |s.clients[c].mail| <= 1
    ensures var t := Step(site, s, e); c < |t.clients| && (!s.clients[c].view.Waiting? ==> t.clients[c].view == s.clients[c].view)
  {
    ReachableIsOk(site, s);
    assert ClientOk(s, c);
  }

  // ----- when a failure is final -----

  /** A one-shot channel was made for write `w`. */
  predicate HasChannel(s: Pipeline, w: nat)
  {
    exists o :: 0 <= o < |s.oneshots| && s.oneshots[o].origin == w
  }

  /** The channel made for write `w` holds an outcome. */
  predicate HasOutcome(s: Pipeline, w: nat)
  {
    exists o :: 0 <= o < |s.oneshots| && s.oneshots[o].origin == w && s.oneshots[o].outcome.Some?
  }

  /** The channel made for write `w` has no outcome yet, and the poll task of its driver lives. */
  predicate Pending(s: Pipeline, w: nat)
  {
    exists o :: 0 <= o < |s.oneshots| && PendingOn(s, w, o)
  }

  predicate PendingOn(s: Pipeline, w: nat, o: nat)
    requires o < |s.oneshots|
  {
    var x := s.oneshots[o];
    x.origin == w && x.outcome.None? && x.driver < |s.drivers| && !s.drivers[x.driver].state.Dead?
  }

  ghost predicate WasDrained(s: Pipeline, w: nat)
  {
    exists d: nat, k: nat :: ExecutedFor(s, w, d, k)
  }

  /** The write is not drained yet, and some continuation of the run drains it. */
  ghost predicate DrainsLater(site: Site, s: Pipeline, w: nat)
  {
    !WasDrained(s, w) && exists es: seq<Event> :: Possible(site, s, es) && WasDrained(Run(site, s, es), w)
  }

  /** The write is acknowledged, now or in some continuation of the run. */
  ghost predicate CanBeAcknowledged(site: Site, s: Pipeline, w: nat)
  {
    exists es: seq<Event> :: Possible(site, s, es) && Acknowledged(Run(site, s, es), w)
  }

  lemma {:induction false} DrainedHasOutcome(site: Site, s: Pipeline, w: nat)
    requires Invariant(site, s)
    ensures WasDrained(s, w) <==> HasOutcome(s, w)
  {
    if WasDrained(s, w) {
      var d: nat, k: nat :| ExecutedFor(s, w, d, k);
      assert RequestOk(s, d, k) && OneshotOk(site, s, s.drivers[d].received[k].reply.value);
    }
    if HasOutcome(s, w) {
      var o :| 0 <= o < |s.oneshots| && s.oneshots[o].origin == w && s.oneshots[o].outcome.Some?;
      OutcomeIsExecution(site, s, o);
    }
  }

  lemma {:induction false} OutcomeIsExecution(site: Site, s: Pipeline, o: nat)
    requires Invariant(site, s) && o < |s.oneshots| && s.oneshots[o].outcome.Some?
    ensures ExecutedFor(s, s.oneshots[o].origin, s.oneshots[o].driver, s.oneshots[o].position)
  {
    assert OneshotOk(site, s, o);
    assert DriverOk(site.plant[s.oneshots[o].driver], s.drivers[s.oneshots[o].driver]);
  }

  /** No channel of write `w` came or changed. */
  predicate ChannelsStay(s: Pipeline, t: Pipeline, w: nat)
  {
    forall o :: 0 <= o < |t.oneshots| && t.oneshots[o].origin == w ==> o < |s.oneshots| && t.oneshots[o] == s.oneshots[o]
  }

  /** A dead poll task stays dead. */
  predicate DeadStay(s: Pipeline, t: Pipeline)
  {
    |s.drivers| == |t.drivers| && forall d :: 0 <= d < |s.drivers| && s.drivers[d].state.Dead? ==> t.drivers[d].state.Dead?
  }

  /** The channels of a write the bridge is done with, and with no drain to come, never change. */
  lemma {:induction false} SettledStep(site: Site, s: Pipeline, e: Event, w: nat)
    requires Invariant(site, s) && Enabled(site, s, e) && Finished(s, w) && !Pending(s, w)
    ensures var t := Step(site, s, e); Finished(t, w) && ChannelsStay(s, t, w) && DeadStay(s, t)
  {
    if e.Drain? {
      SettledDrain(site, s, e.driver, w);
    }
  }

  /** What driver `d` drains next is pending. */
  lemma {:induction false} SettledDrain(site: Site, s: Pipeline, d: nat, w: nat)
    requires Invariant(site, s) && Enabled(site, s, Drain(d)) && !Pending(s, w)
    ensures ChannelsStay(s, Drained(site, s, d), w) && DeadStay(s, Drained(site, s, d))
  {
    var k := |s.drivers[d].executions|;
    var o := s.drivers[d].received[k].reply.value;
    assert RequestOk(s, d, k) && OneshotOk(site, s, o);
    assert PendingOn(s, s.oneshots[o].origin, o);
  }

  lemma {:induction false} StillSettled(s: Pipeline, t: Pipeline, w: nat)
    requires ChannelsStay(s, t, w) && DeadStay(s, t)
    ensures !Pending(s, w) ==> !Pending(t, w)
    ensures (HasOutcome(t, w) ==> HasOutcome(s, w)) && (Acknowledged(t, w) ==> Acknowledged(s, w))
  {
    if !Pending(s, w) {
      forall o | 0 <= o < |t.oneshots| ensures !PendingOn(t, w, o) {
        if t.oneshots[o].origin == w {
          assert !PendingOn(s, w, o);
        }
      }
    }
    if Acknowledged(t, w) {
      var o :| 0 <= o < |t.oneshots| && AcknowledgedBy(t, w, o);
      assert AcknowledgedBy(s, w, o);
    }
  }

  lemma {:induction false} SettledRun(site: Site, s: Pipeline, es: seq<Event>, w: nat)
    requires Invariant(site, s) && Possible(site, s, es) && Finished(s, w) && !Pending(s, w)
    ensures var t := Run(site, s, es); (HasOutcome(t, w) ==> HasOutcome(s, w)) && (Acknowledged(t, w) ==> Acknowledged(s, w))
    decreases |es|
  {
    if es != [] {
      StepKeeps(site, s, es[0]);
      SettledStep(site, s, es[0], w);
      StillSettled(s, Step(site, s, es[0]), w);
      SettledRun(site, Step(site, s, es[0]), es[1..], w);
    }
  }

  /** The next request of a driver that lives can be drained, and its poll task lives on. */
  lemma {:induction false} CanDrainNext(site: Site, s: Pipeline, o: nat)
    requires Invariant(site, s) && o < |s.oneshots| && PendingOn(s, s.oneshots[o].origin, o)
    ensures var d := s.oneshots[o].driver;
            && Enabled(site, s, Drain(d)) && |s.drivers[d].executions| <= s.oneshots[o].position
            && var t := Step(site, s, Drain(d));
               && o < |t.oneshots| && t.oneshots[o].origin == s.oneshots[o].origin && t.oneshots[o].position == s.oneshots[o].position
               && t.oneshots[o].driver == d && !t.drivers[d].state.Dead?
               && |t.drivers[d].executions| == |s.drivers[d].executions| + 1
  {
    assert OneshotOk(site, s, o);
    var d := s.oneshots[o].driver;
    assert DriverOk(site.plant[d], s.drivers[d]);
    assert RequestOk(s, d, |s.drivers[d].executions|);
  }

  /** Draining on, a request in the queue of a driver that lives is drained. */
  lemma {:induction false} DrainUpTo(site: Site, s: Pipeline, o: nat) returns (es: seq<Event>)
    requires Invariant(site, s) && o < |s.oneshots| && PendingOn(s, s.oneshots[o].origin, o)
    ensures Possible(site, s, es) && HasOutcome(Run(site, s, es), s.oneshots[o].origin)
    decreases s.oneshots[o].position - Min(|s.drivers[s.oneshots[o].driver].executions|, s.oneshots[o].position)
  {
    var w, d := s.oneshots[o].origin, s.oneshots[o].driver;
    CanDrainNext(site, s, o);
    var t := Step(site, s, Drain(d));
    StepKeeps(site, s, Drain(d));
    if t.oneshots[o].outcome.Some? {
      es := [Drain(d)] + [];
      EventFirst(site, s, Drain(d), []);
      assert HasOutcome(t, w);
    } else {
      assert OneshotOk(site, t, o);
      var rest := DrainUpTo(site, t, o);
      es := [Drain(d)] + rest;
      EventFirst(site, s, Drain(d), rest);
    }
  }

  lemma {:induction false} EventFirst(site: Site, s: Pipeline, e: Event, es: seq<Event>)
    requires Enabled(site, s, e) && Possible(site, Step(site, s, e), es)
    ensures Possible(site, s, [e] + es) && Run(site, s, [e] + es) == Run(site, Step(site, s, e), es)
  {
    assert ([e] + es)[1..] == es;
  }

  /** A write has one channel at most. */
  lemma {:induction false} OneChannel(site: Site, s: Pipeline, w: nat)
    requires Invariant(site, s) && Pending(s, w)
    ensures !HasOutcome(s, w)
  {
    var o :| 0 <= o < |s.oneshots| && PendingOn(s, w, o);
    forall p | 0 <= p < |s.oneshots| && s.oneshots[p].origin == w ensures s.oneshots[p].outcome.None? {
      ChannelOrder(site, s, o, p);
    }
  }

  /**
   * What is still to come of a write the bridge is done with, whatever its client was told: it is drained
   * in some continuation if and only if its one-shot channel has no outcome yet and the poll task of its
   * driver lives. Without that, it is acknowledged now or never.
   */
  lemma {:induction false} DrainsLaterExactly(site: Site, s: Pipeline, w: nat)
    requires Reachable(site, s) && Finished(s, w)
    ensures DrainsLater(site, s, w) <==> Pending(s, w)
    ensures CanBeAcknowledged(site, s, w) ==> Acknowledged(s, w) || Pending(s, w)
  {
    ReachableIsOk(site, s);
    DrainedHasOutcome(site, s, w);
    if Pending(s, w) {
      PendingDrainsLater(site, s, w);
    } else {
      forall es: seq<Event> | Possible(site, s, es)
        ensures WasDrained(Run(site, s, es), w) ==> WasDrained(s, w)
        ensures Acknowledged(Run(site, s, es), w) ==> Acknowledged(s, w)
      {
        InvariantOverRuns(site, s, es);
        DrainedHasOutcome(site, Run(site, s, es), w);
        SettledRun(site, s, es, w);
      }
    }
  }

  lemma {:induction false} PendingDrainsLater(site: Site, s: Pipeline, w: nat)
    requires Invariant(site, s) && Pending(s, w)
    ensures DrainsLater(site, s, w)
  {
    var o :| 0 <= o < |s.oneshots| && PendingOn(s, w, o);
    var es := DrainUpTo(site, s, o);
    InvariantOverRuns(site, s, es);
    DrainedHasOutcome(site, s, w);
    DrainedHasOutcome(site, Run(site, s, es), w);
    OneChannel(site, s, w);
  }

  /** Write `w` has no channel, or its channel holds an error. */
  predicate Lost(s: Pipeline, w: nat)
  {
    !HasChannel(s, w) || exists o :: 0 <= o < |s.oneshots| && FailedOn(s, w, o)
  }

  predicate FailedOn(s: Pipeline, w: nat, o: nat)
    requires o < |s.oneshots|
  {
    s.oneshots[o].origin == w && s.oneshots[o].outcome.Some? && s.oneshots[o].outcome.value.Err?
  }

  /** A write without a channel, or with an error on it, is never drained again and never acknowledged. */
  lemma {:induction false} LostIsFinal(site: Site, s: Pipeline, w: nat)
    requires Reachable(site, s) && Finished(s, w) && Lost(s, w)
    ensures !DrainsLater(site, s, w) && !CanBeAcknowledged(site, s, w)
  {
    ReachableIsOk(site, s);
    DrainsLaterExactly(site, s, w);
    if Pending(s, w) {
      OneChannel(site, s, w);
    }
    if Acknowledged(s, w) {
      var p :| 0 <= p < |s.oneshots| && AcknowledgedBy(s, w, p);
      forall o | 0 <= o < |s.oneshots| ensures !FailedOn(s, w, o) {
        ChannelOrder(site, s, o, p);
      }
    }
  }

  /** The events with which the bridge lets go of a write. */
  predicate LetsGo(e: Event)
  {
    e == Take(false) || e.EnqueueFails? || e.Confirm? || e.ConfirmFails?
  }

  /** Behind a refusal the write has no channel; behind a wait it has the channel waited on, as it was. */
  lemma {:induction false} ChannelBehind(site: Site, s: Pipeline, e: Event)
    requires Reachable(site, s) && Enabled(site, s, e) && LetsGo(e)
    ensures var t := Step(site, s, e);
            && Reachable(site, t) && t.taken >= 1 && Finished(t, t.taken - 1)
            && t.oneshots == s.oneshots && t.drivers == s.drivers
            && (e.Take? || e.EnqueueFails? ==> !HasChannel(t, t.taken - 1))
            && (e.Confirm? || e.ConfirmFails? ==> s.phase.oneshot < |t.oneshots| && t.oneshots[s.phase.oneshot].origin == t.taken - 1)
  {
    ReachableIsOk(site, s);
    ReachableStep(site, s, e);
    if e.Take? {
      forall o | 0 <= o < |s.oneshots| ensures s.oneshots[o].origin != s.taken {
        assert OneshotOk(site, s, o);
      }
    }
  }

  // ----- a failure that is not final -----

  /** A site with one Modbus driver for one holding-register tag, whose server answers every call with success. */
  function OneTagSite(m: Mapping): Site
  {
    Site(map[m.tagId := 0],
         [ModbusPlc([m], map[], DateRange(0, 0xFFFF_FFFF), [],
                    ModbusCycles.Network(n => true, (n: nat, c: ModbusCycles.Call) => ModbusCycles.Success([], [])))])
  }

  predicate WritableRegister(m: Mapping)
  {
    m.writable && m.space == Table(HoldingRegisters) && m.End() <= 0xFFFF
  }

  /**
   * A client can be told of a failure although its write was acknowledged: the confirmation timed out
   * first, and the driver drained the request afterwards.
   */
  lemma {:induction false} FailureMayHaveExecuted(m: Mapping, value: TagValue) returns (s: Pipeline)
    requires WritableRegister(m)
    ensures Reachable(OneTagSite(m), s)
    ensures |s.clients| == 1 && s.clients[0].view == Saw(Failed) && ExecutedFor(s, s.clients[0].write, 0, 0)
    ensures s.drivers[0].executions[0].outcome.Ok?
  {
    var site := OneTagSite(m);
    var s3 := WriteInQueue(m, value);
    ReachableStep(site, s3, ConfirmFails);
    var s4 := Step(site, s3, ConfirmFails);
    ReachableStep(site, s4, Drain(0));
    var s5 := Step(site, s4, Drain(0));
    RegisterWriteSucceeds(m, s4.drivers[0].state, s4.drivers[0].received[0]);
    ReachableStep(site, s5, ClientReads(0));
    s := Step(site, s5, ClientReads(0));
  }

  /** The other side: a reachable state whose client saw its write confirmed, and it was carried out. */
  lemma {:induction false} ConfirmationIsReached(m: Mapping, value: TagValue) returns (s: Pipeline)
    requires WritableRegister(m)
    ensures Reachable(OneTagSite(m), s)
    ensures |s.clients| == 1 && s.clients[0].view == Saw(Confirmed) && ExecutedFor(s, s.clients[0].write, 0, 0)
    ensures s.drivers[0].executions[0].outcome.Ok?
  {
    var site := OneTagSite(m);
    var s3 := WriteInQueue(m, value);
    ReachableStep(site, s3, Drain(0));
    var s4 := Step(site, s3, Drain(0));
    RegisterWriteSucceeds(m, s3.drivers[0].state, s3.drivers[0].received[0]);
    ReachableStep(site, s4, Confirm);
    var s5 := Step(site, s4, Confirm);
    ReachableStep(site, s5, ClientReads(0));
    s := Step(site, s5, ClientReads(0));
  }

  lemma {:induction false} RegisterWriteSucceeds(m: Mapping, x: DriverState, req: WriteRequest)
    requires WritableRegister(m) && req.tagId == m.tagId && Runnable(OneTagSite(m).plant[0], x)
    ensures Execute(OneTagSite(m).plant[0], x, req).outcome.Ok?
  {
    assert FindMapping([m], req.tagId) == Some(m);
    SuccessIsAcknowledgement(OneTagSite(m).plant[0], x, req);
  }

  /** The site's driver before any of its cycles. */
  function Untouched(received: seq<WriteRequest>): Driver
  {
    Driver(received, [], OnModbus(ModbusCycles.Client(false, 0, 0)))
  }

  /** A first write on its way: admitted, and waiting in the driver's queue. */
  lemma {:induction false} WriteInQueue(m: Mapping, value: TagValue) returns (s: Pipeline)
    requires WritableRegister(m)
    ensures Reachable(OneTagSite(m), s)
    ensures s == Pipeline([BridgeWrite(m.tagId, value, Some(0))], 1, Confirming(0), [Client(0, [], Waiting)], [Oneshot(0, 0, 0, None)],
                          [Untouched([WriteRequest(m.tagId, value, Some(0))])])
  {
    var s2 := WriteAdmitted(m, value);
    ReachableStep(OneTagSite(m), s2, Enqueue);
    s := Step(OneTagSite(m), s2, Enqueue);
    assert s.drivers[0].received == [WriteRequest(m.tagId, value, Some(0))];
  }

  lemma {:induction false} WriteAdmitted(m: Mapping, value: TagValue) returns (s: Pipeline)
    requires WritableRegister(m)
    ensures Reachable(OneTagSite(m), s)
    ensures s == Pipeline([BridgeWrite(m.tagId, value, Some(0))], 1, Sending, [Client(0, [], Waiting)], [], [Untouched([])])
  {
    var site := OneTagSite(m);
    var s0 := Initial(site);
    assert s0.drivers == [Untouched([])];
    assert Possible(site, Initial(site), []) && Run(site, Initial(site), []) == s0;
    ReachableStep(site, s0, Submit(m.tagId, value, true));
    var s1 := Step(site, s0, Submit(m.tagId, value, true));
    ReachableStep(site, s1, Take(true));
    s := Step(site, s1, Take(true));
  }

  lemma {:induction false} ReachableStep(site: Site, s: Pipeline, e: Event)
    requires Reachable(site, s) && Enabled(site, s, e)
    ensures Reachable(site, Step(site, s, e))
  {
    var es: seq<Event> :| Possible(site, Initial(site), es) && s == Run(site, Initial(site), es);
    OneMore(site, Initial(site), es, e);
  }

  lemma {:induction false} OneMore(site: Site, s: Pipeline, es: seq<Event>, e: Event)
    requires Possible(site, s, es) && Enabled(site, Run(site, s, es), e)
    ensures Possible(site, s, es + [e]) && Run(site, s, es + [e]) == Step(site, Run(site, s, es), e)
    decreases |es|
  {
    if es == [] {
      assert [] + [e] == [e] && [e][1..] == [];
    } else {
      OneMore(site, Step(site, s, es[0]), es[1..], e);
      assert (es + [e])[0] == es[0] && (es + [e])[1..] == es[1..] + [e];
    }
  }
}
