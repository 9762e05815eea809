/**
 * One poll cycle of the Modbus driver over any behaviour of the server: a drain of queued writes that
 * may give up early, then the reads of every function's groups.
 */
module ModbusCycles {
  import opened Words
  import opened TagModel
  import opened Codec
  import opened Mappings
  import opened Planner
  import opened Registries
  import opened CoilPacking
  import opened Scatter
  import opened RoundTrip
  import opened WriteQueues

  // ----- the client -----

  datatype Call =
    | Read(op: ModbusFunction, start: Word, quantity: Word)
    | WriteRegisters(address: Word, words: seq<Word>)

  /** What comes of a call: data, an exception code by name, a transport error, or no reply in time. */
  datatype Event = Success(words: seq<Word>, bits: seq<bool>) | Refused(text: string) | Broken(text: string) | NoReply

  /** Whether the `n`-th connection attempt succeeds, and what comes of the `n`-th call. */
  datatype Network = Network(connects: nat -> bool, serves: (nat, Call) -> Event)

  /** The client slot, the connection attempts and the calls so far. */
  datatype Client = Client(connected: bool, dialed: nat, called: nat)

  /** Use the connection, or make one. */
  function Dialed(c: Client, net: Network): Client
  {
    if c.connected then c else Client(net.connects(c.dialed), c.dialed + 1, c.called)
  }

  predicate Contains(text: string, part: string)
  {
    exists i :: 0 <= i <= |text| - |part| && OccursAt(text, part, i)
  }

  predicate OccursAt(text: string, part: string, i: nat)
    requires i + |part| <= |text|
  {
    text[i..i + |part|] == part
  }

  /** The texts the driver takes for a configuration error. */
  predicate IsIllegal(text: string)
  {
    Contains(text, "Illegal") || Contains(text, "Address") || Contains(text, "IllegalDataAddress")
  }

  /** The texts the driver takes for a failing device. */
  predicate IsDeviceFailure(text: string)
  {
    Contains(text, "Slave") && (Contains(text, "Failure") || Contains(text, "Device") || Contains(text, "Unavailable"))
  }

  const TIMEOUT: string := "Timeout"

  // ----- writes -----

  /** Mappings of Modbus tables whose arithmetic fits u16. */
  predicate InTables(ms: seq<Mapping>)
  {
    forall i :: 0 <= i < |ms| ==> ms[i].space.Table? && ms[i].End() <= 0xFFFF
  }

  datatype WriteStep = WriteStep(client: Client, effects: seq<Effect>, outcome: WriteOutcome, aborts: bool)

  /** The verdict on a called write, and whether it ends the cycle. */
  function WriteVerdict(ev: Event): (WriteOutcome, bool)
  {
    match ev
    case Success(_, _) => (Ok(()), false)
    case Refused(text) => (Err(Exception(text)), !IsIllegal(text))
    case Broken(_) => (Err(TransportFailed), true)
    case NoReply => (Err(TimedOut), true)
  }

  function WriteEffect(req: WriteRequest, ev: Event): Effect
  {
    match ev
    case Success(_, _) => Publish(req.tagId, req.value)
    case Refused(text) => Mark(req.tagId, if IsIllegal(text) then ConfigError else CommLost)
    case _ => Mark(req.tagId, CommLost)
  }

  /** The call for a write, its address in the integer type of the call. */
  function WriteCall(m: Mapping, v: TagValue): Call
  {
    WriteRegisters(m.address % 0x1_0000, Stored(v, m.order))
  }

  lemma {:induction false} WriteCallIs(m: Mapping, v: TagValue)
    requires m.address <= 0xFFFF
    ensures WriteCall(m, v) == WriteRegisters(m.address, Stored(v, m.order))
  {
  }

  function WriteOne(ms: seq<Mapping>, net: Network, c: Client, req: WriteRequest): WriteStep
  {
    match FindMapping(ms, req.tagId)
    case None => WriteStep(c, [], Err(UnknownTag), false)
    case Some(m) =>
      if !m.writable then WriteStep(c, [], Err(NotWritable), false)
      else if m.space != Table(HoldingRegisters) then
        WriteStep(c, [Mark(req.tagId, CommLost)], Err(UnsupportedFunction), false)
      else CallWrite(net, Dialed(c, net), m, req)
  }

  function CallWrite(net: Network, c: Client, m: Mapping, req: WriteRequest): WriteStep
  {
    if !c.connected then WriteStep(c, [Mark(req.tagId, CommLost)], Err(ReconnectFailed), true)
    else
      var ev := net.serves(c.called, WriteCall(m, req.value));
      var verdict := WriteVerdict(ev);
      WriteStep(Client(!verdict.1, c.dialed, c.called + 1), [WriteEffect(req, ev)], verdict.0, verdict.1)
  }

  datatype DrainRun = DrainRun(client: Client, effects: seq<Effect>, outcomes: seq<WriteOutcome>, aborted: bool)

  /** The requests in order up to the first that ends the cycle; that one too has its outcome. */
  function WriteAll(ms: seq<Mapping>, net: Network, c: Client, reqs: seq<WriteRequest>): (r: DrainRun)
    ensures |r.outcomes| <= |reqs|
    ensures !r.aborted ==> |r.outcomes| == |reqs|
    ensures reqs != [] ==> r.outcomes != []
    decreases |reqs|
  {
    if reqs == [] then DrainRun(c, [], [], false)
    else
      var before := WriteAll(ms, net, c, reqs[..|reqs| - 1]);
      if before.aborted then before
      else
        var step := WriteOne(ms, net, before.client, reqs[|reqs| - 1]);
        DrainRun(step.client, before.effects + step.effects, before.outcomes + [step.outcome], step.aborts)
  }

  lemma {:induction false} WriteNext(ms: seq<Mapping>, net: Network, c: Client, reqs: seq<WriteRequest>, req: WriteRequest)
    ensures var before := WriteAll(ms, net, c, reqs);
            WriteAll(ms, net, c, reqs + [req]) ==
            if before.aborted then before
            else
              var step := WriteOne(ms, net, before.client, req);
              DrainRun(step.client, before.effects + step.effects, before.outcomes + [step.outcome], step.aborts)
  {
    assert (reqs + [req])[..|reqs|] == reqs;
  }

  /** One more request, unless the drain has given up: its client state, its outcome, its reply and its effects come on top. */
  lemma {:induction false} DrainNext(ms: seq<Mapping>, net: Network, c: Client, reqs: seq<WriteRequest>, req: WriteRequest,
                                     defs: Definitions, cells: Cells)
    requires !WriteAll(ms, net, c, reqs).aborted
    ensures var before, after := WriteAll(ms, net, c, reqs), WriteAll(ms, net, c, reqs + [req]);
            var step := WriteOne(ms, net, before.client, req);
            && after.client == step.client && after.aborted == step.aborts && |after.outcomes| == |reqs| + 1
            && Replies((reqs + [req])[..|after.outcomes|], after.outcomes) ==
               Replies(reqs[..|before.outcomes|], before.outcomes) + ReplyTo(req, step.outcome)
            && ApplyAll(defs, cells, after.effects) == ApplyAll(defs, ApplyAll(defs, cells, before.effects), step.effects)
  {
    var before := WriteAll(ms, net, c, reqs);
    var step := WriteOne(ms, net, before.client, req);
    WriteNext(ms, net, c, reqs, req);
    RepliesGrowBy(reqs, before.outcomes, req, step.outcome);
    ApplyConcat(defs, cells, before.effects, step.effects);
  }

  /** After an abort no further request is looked at. */
  lemma {:induction false} AbortedDrainStays(ms: seq<Mapping>, net: Network, c: Client, reqs: seq<WriteRequest>, k: nat)
    requires k <= |reqs| && WriteAll(ms, net, c, reqs[..k]).aborted
    ensures WriteAll(ms, net, c, reqs) == WriteAll(ms, net, c, reqs[..k])
  {
    if k == |reqs| {
      assert reqs[..k] == reqs;
    } else {
      var init := reqs[..|reqs| - 1];
      assert init[..k] == reqs[..k];
      AbortedDrainStays(ms, net, c, init, k);
    }
  }

  // ----- reads -----

  predicate Readable(g: ReadGroup)
  {
    g.space.Table? && 1 <= g.count && g.start + g.count <= 0xFFFF
  }

  predicate AllReadable(gs: seq<ReadGroup>)
  {
    forall i :: 0 <= i < |gs| ==> Readable(gs[i])
  }

  /** The call for a group, its fields in the integer types of the call; Modbus mappings are all in tables. */
  function ReadCall(g: ReadGroup): Call
  {
    Read(if g.space.Table? then g.space.op else HoldingRegisters, g.start % 0x1_0000, g.count % 0x1_0000)
  }

  /** The fields of a planned group go into its call as they are. */
  lemma {:induction false} ReadCallIs(g: ReadGroup)
    requires Readable(g)
    ensures ReadCall(g) == Read(g.space.op, g.start, g.count)
  {
  }

  /** The bytes of the data of a successful read: registers, or coils packed into words. */
  function DataBytes(s: Space, words: seq<Word>, bits: seq<bool>): seq<Byte>
  {
    if WordSpace(s) then ToBytes(words) else ToBytes(Packed(bits))
  }

  datatype Answered = Answered(effects: seq<Effect>, aborts: bool)

  /** The text of a failed read. */
  function FailureText(ev: Event): string
  {
    match ev
    case Refused(text) => text
    case Broken(text) => "Transport: " + text
    case _ => TIMEOUT
  }

  /** A failed read by its text: a configuration error, a lost device, or nothing at all. */
  function OnFailure(g: ReadGroup, text: string): Answered
  {
    if IsIllegal(text) then Answered(Marks(IdsOf(g.members), ConfigError), false)
    else if IsDeviceFailure(text) || text == TIMEOUT then Answered(Marks(IdsOf(g.members), CommLost), true)
    else Answered([], false)
  }

  function OnEvent(defs: Definitions, dates: DateRange, g: ReadGroup, ev: Event): Answered
  {
    match ev
    case Success(words, bits) => Answered(ChunkEffects(Modbus, defs, dates, g.members, g, DataBytes(g.space, words, bits)), false)
    case _ => OnFailure(g, FailureText(ev))
  }

  /** What came of the read of `g`, call number `k` after `called`. */
  function EventAt(net: Network, called: nat, k: nat, g: ReadGroup): Event
  {
    net.serves(called + k, ReadCall(g))
  }

  datatype ReadRun = ReadRun(called: nat, effects: seq<Effect>, aborted: bool)

  /** The groups in order up to the first that ends the cycle. */
  function ReadAll(defs: Definitions, dates: DateRange, net: Network, called: nat, gs: seq<ReadGroup>): ReadRun
    decreases |gs|
  {
    if gs == [] then ReadRun(called, [], false)
    else
      var n := |gs| - 1;
      var before := ReadAll(defs, dates, net, called, gs[..n]);
      if before.aborted then before
      else
        var a := OnEvent(defs, dates, gs[n], EventAt(net, called, n, gs[n]));
        ReadRun(called + |gs|, before.effects + a.effects, a.aborts)
  }

  /** Reads that did not abort made one call a group. */
  lemma {:induction false} CallsAreCounted(defs: Definitions, dates: DateRange, net: Network, called: nat, gs: seq<ReadGroup>)
    ensures !ReadAll(defs, dates, net, called, gs).aborted ==> ReadAll(defs, dates, net, called, gs).called == called + |gs|
    decreases |gs|
  {
    if gs != [] {
      CallsAreCounted(defs, dates, net, called, gs[..|gs| - 1]);
    }
  }

  lemma {:induction false} ReadNext(defs: Definitions, dates: DateRange, net: Network, called: nat, gs: seq<ReadGroup>, g: ReadGroup)
    ensures var before := ReadAll(defs, dates, net, called, gs);
            ReadAll(defs, dates, net, called, gs + [g]) ==
            if before.aborted then before
            else
              var a := OnEvent(defs, dates, g, EventAt(net, called, |gs|, g));
              ReadRun(called + |gs| + 1, before.effects + a.effects, a.aborts)
  {
    assert (gs + [g])[..|gs|] == gs;
  }

  lemma {:induction false} NextCall(defs: Definitions, dates: DateRange, net: Network, called: nat, gs: seq<ReadGroup>, g: ReadGroup)
    requires !ReadAll(defs, dates, net, called, gs).aborted
    ensures var before, a := ReadAll(defs, dates, net, called, gs), OnEvent(defs, dates, g, EventAt(net, called, |gs|, g));
            && EventAt(net, called, |gs|, g) == net.serves(before.called, ReadCall(g))
            && ReadAll(defs, dates, net, called, gs + [g]) == ReadRun(before.called + 1, before.effects + a.effects, a.aborts)
  {
    CallsAreCounted(defs, dates, net, called, gs);
    ReadNext(defs, dates, net, called, gs, g);
  }

  /** One more group, unless the reads have ended: its call, its verdict and its effects come on top. */
  lemma {:induction false} PollNext(defs: Definitions, dates: DateRange, net: Network, called: nat, gs: seq<ReadGroup>, g: ReadGroup, cells: Cells)
    requires !ReadAll(defs, dates, net, called, gs).aborted
    ensures var before, after := ReadAll(defs, dates, net, called, gs), ReadAll(defs, dates, net, called, gs + [g]);
            var a := OnEvent(defs, dates, g, net.serves(before.called, ReadCall(g)));
            && after.called == before.called + 1 && after.aborted == a.aborts
            && ApplyAll(defs, cells, after.effects) == ApplyAll(defs, ApplyAll(defs, cells, before.effects), a.effects)
  {
    NextCall(defs, dates, net, called, gs, g);
    ApplyConcat(defs, cells, ReadAll(defs, dates, net, called, gs).effects, OnEvent(defs, dates, g, EventAt(net, called, |gs|, g)).effects);
  }

  /** After an abort no further group is read. */
  lemma {:induction false} AbortedReadStays(defs: Definitions, dates: DateRange, net: Network, called: nat, gs: seq<ReadGroup>, k: nat)
    requires k <= |gs| && ReadAll(defs, dates, net, called, gs[..k]).aborted
    ensures ReadAll(defs, dates, net, called, gs) == ReadAll(defs, dates, net, called, gs[..k])
    decreases |gs|
  {
    if k == |gs| {
      assert gs[..k] == gs;
    } else {
      var init := gs[..|gs| - 1];
      assert init[..k] == gs[..k];
      AbortedReadStays(defs, dates, net, called, init, k);
    }
  }

  // ----- the whole cycle -----

  datatype PollRun = PollRun(client: Client, effects: seq<Effect>, completed: bool)

  /** Connection, then reads. */
  function Poll(defs: Definitions, dates: DateRange, gs: seq<ReadGroup>, net: Network, c: Client): PollRun
  {
    var dialed := Dialed(c, net);
    if !dialed.connected then PollRun(dialed, [], false)
    else
      var polled := ReadAll(defs, dates, net, dialed.called, gs);
      PollRun(Client(!polled.aborted, dialed.dialed, polled.called), polled.effects, !polled.aborted)
  }

  datatype CycleRun = CycleRun(client: Client, outcomes: seq<WriteOutcome>, effects: seq<Effect>, completed: bool)

  /** Writes, connection, reads; each may end the cycle. */
  function Cycle(ms: seq<Mapping>, defs: Definitions, dates: DateRange, gs: seq<ReadGroup>, net: Network, c: Client, reqs: seq<WriteRequest>): CycleRun
  {
    var drained := WriteAll(ms, net, c, reqs);
    if drained.aborted then CycleRun(drained.client, drained.outcomes, drained.effects, false)
    else
      var polled := Poll(defs, dates, gs, net, drained.client);
      CycleRun(polled.client, drained.outcomes, drained.effects + polled.effects, polled.completed)
  }
}
