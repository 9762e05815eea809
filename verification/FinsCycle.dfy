/**
 * One poll cycle of the FINS driver over any behaviour of the network: a drain of queued writes, then
 * one request a read group. Each exchange sends one frame and takes one frame off the TCP stream.
 */
module FinsCycles {
  import opened Words
  import opened TagModel
  import opened Codec
  import opened Mappings
  import opened Planner
  import opened Registries
  import opened Scatter
  import opened RoundTrip
  import opened FinsFrames
  import opened WriteQueues

  // ----- the connection -----

  /** The connection slot: no stream, or a stream with bytes received but not yet read. */
  datatype Link = Down | Up(unread: seq<Byte>)

  /** What the network does at one exchange; `arrives` is all that is received before the stream ends or the reader stops. */
  datatype WireEvent = WireEvent(connects: bool, sends: bool, arrives: seq<Byte>)

  /** The network's behaviour at each exchange, given the bytes sent. */
  type Wire = (nat, seq<Byte>) -> WireEvent

  datatype IoError = ConnectFailed | StreamFailed

  datatype Exchanged = Exchanged(link: Link, payload: Result<seq<Byte>, IoError>)

  /** Reconnect if there is no stream, send, read one frame; any failure drops the stream. */
  function Exchange(link: Link, ev: WireEvent): Exchanged
  {
    if link.Down? && !ev.connects then Exchanged(Down, Err(ConnectFailed))
    else if !ev.sends then Exchanged(Down, Err(StreamFailed))
    else
      match Deframe((if link.Up? then link.unread else []) + ev.arrives)
      case Err(_) => Exchanged(Down, Err(StreamFailed))
      case Ok(f) => Exchanged(Up(f.rest), Ok(f.payload))
  }

  /** Connection slot, session counter, and the number of exchanges so far. */
  datatype Station = Station(link: Link, sid: Byte, sent: nat)
  {
    /** The exchange that sends `request` under the current session id. */
    function Sends(wire: Wire, request: seq<Byte>): Exchanged
    {
      Exchange(link, wire(sent, request))
    }

    function After(x: Exchanged): Station
    {
      Station(x.link, NextSid(sid), sent + 1)
    }
  }

  // ----- read groups -----

  /** Groups whose fields fit the request, as all planned groups do. */
  predicate Sendable(g: ReadGroup)
  {
    g.space.Area? && 1 <= g.count <= 0xFFFF && g.start + g.count <= 0xFFFF_FFFF
  }

  predicate AllSendable(gs: seq<ReadGroup>)
  {
    forall i :: 0 <= i < |gs| ==> Sendable(gs[i])
  }

  /** The area code of a request; FINS mappings are all in areas. */
  function AreaCode(s: Space): Byte
  {
    if s.Area? then s.code else 0
  }

  /** The command for a group, its fields in the integer types of the request. */
  function ReadCommand(sid: Byte, g: ReadGroup): seq<Byte>
  {
    BuildFinsFrame(sid, MEMORY_READ, BuildMemoryRead(AreaCode(g.space), g.start % 0x1_0000_0000, 0, g.count % 0x1_0000))
  }

  function ReadFrame(sid: Byte, g: ReadGroup): seq<Byte>
  {
    Wrap(ReadCommand(sid, g))
  }

  /**
   * The request for a planned group on the wire, byte by byte: `FINS`, the length 19, the fixed header
   * with the session id last, memory read (1, 1), area, 24 bits of the address, bit 0, count.
   */
  lemma {:induction false} ReadFrameInBytes(sid: Byte, g: ReadGroup)
    requires Sendable(g)
    ensures ReadFrame(sid, g) ==
            [0x46, 0x49, 0x4E, 0x53, 0, 0, 0, 19, 0x80, 0, 2, 0, 0, 0, 0, 0, 0, sid, 1, 1,
             g.space.code, g.start / 0x1_0000 % 0x100, g.start / 0x100 % 0x100, g.start % 0x100, 0, g.count / 0x100, g.count % 0x100]
  {
    RequestFields(sid, g);
    DigitsInNumbers(g.start);
    DigitsInNumbers(19);
  }

  /** A write request on the wire: likewise with memory write (1, 2), the mapping's bit, the number of words and the words. */
  lemma {:induction false} WriteFrameInBytes(sid: Byte, m: Mapping, v: TagValue)
    requires m.space.Area?
    ensures var ws := Stored(v, m.order);
            var len, n := 19 + 2 * |ws|, |ws| % 0x1_0000;
            WriteFrame(sid, m, v) ==
            [0x46, 0x49, 0x4E, 0x53, len / 0x100_0000 % 0x100, len / 0x1_0000 % 0x100, len / 0x100 % 0x100, len % 0x100,
             0x80, 0, 2, 0, 0, 0, 0, 0, 0, sid, 1, 2,
             m.space.code, m.address / 0x1_0000 % 0x100, m.address / 0x100 % 0x100, m.address % 0x100, m.bitOffset, n / 0x100, n % 0x100]
            + ToBytes(ws)
  {
    WriteCommandInBytes(sid, m, Stored(v, m.order));
    WrapInBytes(WriteCommand(sid, m, v));
  }

  lemma {:induction false} WrapInBytes(payload: seq<Byte>)
    ensures var n := |payload|;
            Wrap(payload) == [0x46, 0x49, 0x4E, 0x53, n / 0x100_0000 % 0x100, n / 0x1_0000 % 0x100, n / 0x100 % 0x100, n % 0x100] + payload
  {
    DigitsInNumbers(|payload|);
  }

  lemma {:induction false} WriteCommandInBytes(sid: Byte, m: Mapping, ws: seq<Word>)
    requires m.space.Area?
    ensures var n := |ws| % 0x1_0000;
            BuildFinsFrame(sid, MEMORY_WRITE, BuildMemoryWrite(AreaCode(m.space), m.address, m.bitOffset, ws)) ==
            [0x80, 0, 2, 0, 0, 0, 0, 0, 0, sid, 1, 2,
             m.space.code, m.address / 0x1_0000 % 0x100, m.address / 0x100 % 0x100, m.address % 0x100, m.bitOffset, n / 0x100, n % 0x100]
            + ToBytes(ws)
  {
    DigitsInNumbers(m.address);
  }

  /** The fields of a planned group go into its request as they are. */
  lemma {:induction false} RequestFields(sid: Byte, g: ReadGroup)
    requires Sendable(g)
    ensures ReadCommand(sid, g) == BuildFinsFrame(sid, MEMORY_READ, BuildMemoryRead(g.space.code, g.start, 0, g.count))
  {
  }

  /** Short-payload marks for the mappings that touch the group. */
  function ShortMarks(members: seq<Mapping>, g: ReadGroup): seq<Effect>
  {
    if members == [] then []
    else (if Touches(members[0], g) then [Mark(members[0].tagId, Error(ShortPayload))] else []) + ShortMarks(members[1..], g)
  }

  /** How the reads go on behind a group: with the next group, not at all, or with the end of the poll task. */
  datatype Next = GoOn | Stop | Panic

  datatype Answered = Answered(effects: seq<Effect>, next: Next)

  /** The effects of a chunk's data up to the first mapping whose date panics. */
  function UntilPanic(defs: Definitions, dates: DateRange, members: seq<Mapping>, g: ReadGroup, data: seq<Byte>): seq<Effect>
  {
    if members == [] || MemberPanics(Fins, defs, dates, members[0], g, data) then []
    else ChunkEffect(Fins, defs, dates, members[0], g, data) + UntilPanic(defs, dates, members[1..], g, data)
  }

  /** Without a panic the data reach every mapping. */
  lemma {:induction false} NoPanic(defs: Definitions, dates: DateRange, members: seq<Mapping>, g: ReadGroup, data: seq<Byte>)
    requires !ChunkPanics(Fins, defs, dates, members, g, data)
    ensures UntilPanic(defs, dates, members, g, data) == ChunkEffects(Fins, defs, dates, members, g, data)
  {
    if members != [] {
      NoPanic(defs, dates, members[1..], g, data);
    }
  }

  /** The data reach exactly the mappings in front of the first whose date panics. */
  lemma {:induction false} FirstPanicCuts(defs: Definitions, dates: DateRange, members: seq<Mapping>, g: ReadGroup, data: seq<Byte>, k: nat)
    requires k <= |members| && forall i :: 0 <= i < k ==> !MemberPanics(Fins, defs, dates, members[i], g, data)
    requires k < |members| ==> MemberPanics(Fins, defs, dates, members[k], g, data)
    ensures UntilPanic(defs, dates, members, g, data) == ChunkEffects(Fins, defs, dates, members[..k], g, data)
  {
    if k > 0 {
      FirstPanicCuts(defs, dates, members[1..], g, data, k - 1);
      assert members[..k][0] == members[0] && members[..k][1..] == members[1..][..k - 1];
    }
  }

  /** What a received payload does to the group's tags, and how the reads go on. */
  function OnAnswer(defs: Definitions, dates: DateRange, g: ReadGroup, sid: Byte, payload: seq<Byte>): Answered
  {
    match ParseFinsResponse(payload)
    case Err(_) => Answered(Marks(IdsOf(g.members), Error(ParseFailed)), Stop)
    case Ok(resp) => OnResponse(defs, dates, g, sid, resp)
  }

  function OnResponse(defs: Definitions, dates: DateRange, g: ReadGroup, sid: Byte, resp: Response): Answered
  {
    if resp.sid != sid then Answered(Marks(IdsOf(g.members), CommLost), GoOn)
    else if resp.endCode != 0 then Answered(Marks(IdsOf(g.members), Error(EndCode(resp.endCode))), Stop)
    else if |resp.data| < 2 * g.count then Answered(ShortMarks(g.members, g), GoOn)
    else Answered(UntilPanic(defs, dates, g.members, g, resp.data),
                  if ChunkPanics(Fins, defs, dates, g.members, g, resp.data) then Panic else GoOn)
  }

  /** The station behind the exchange for a group. */
  function StationBehind(wire: Wire, s: Station, g: ReadGroup): Station
  {
    s.After(s.Sends(wire, ReadFrame(s.sid, g)))
  }

  /** What comes of the exchange for a group. */
  function AnswerTo(defs: Definitions, dates: DateRange, wire: Wire, s: Station, g: ReadGroup): Answered
  {
    match s.Sends(wire, ReadFrame(s.sid, g)).payload
    case Err(_) => Answered(Marks(IdsOf(g.members), CommLost), Stop)
    case Ok(payload) => OnAnswer(defs, dates, g, s.sid, payload)
  }

  datatype ReadRun = ReadRun(station: Station, effects: seq<Effect>, panicked: bool)

  /** The groups in order, up to the first that fails or panics. */
  function ReadAll(defs: Definitions, dates: DateRange, wire: Wire, s: Station, gs: seq<ReadGroup>): ReadRun
    decreases |gs|
  {
    if gs == [] then ReadRun(s, [], false)
    else
      var first, t := AnswerTo(defs, dates, wire, s, gs[0]), StationBehind(wire, s, gs[0]);
      if !first.next.GoOn? then ReadRun(t, first.effects, first.next.Panic?)
      else
        var rest := ReadAll(defs, dates, wire, t, gs[1..]);
        ReadRun(rest.station, first.effects + rest.effects, rest.panicked)
  }

  // ----- writes -----

  predicate InAreas(ms: seq<Mapping>)
  {
    forall i :: 0 <= i < |ms| ==> ms[i].space.Area?
  }

  function WriteCommand(sid: Byte, m: Mapping, v: TagValue): seq<Byte>
  {
    BuildFinsFrame(sid, MEMORY_WRITE, BuildMemoryWrite(AreaCode(m.space), m.address, m.bitOffset, Stored(v, m.order)))
  }

  function WriteFrame(sid: Byte, m: Mapping, v: TagValue): seq<Byte>
  {
    Wrap(WriteCommand(sid, m, v))
  }

  datatype WriteStep = WriteStep(station: Station, effects: seq<Effect>, outcome: WriteOutcome)

  /** The verdict on a write from what came back. */
  function WriteVerdict(sid: Byte, payload: Result<seq<Byte>, IoError>): WriteOutcome
  {
    match payload
    case Err(ConnectFailed) => Err(ReconnectFailed)
    case Err(StreamFailed) => Err(TransportFailed)
    case Ok(p) =>
      match ParseFinsResponse(p)
      case Err(_) => Err(ParseError)
      case Ok(resp) =>
        if resp.sid != sid then Err(SidMismatch)
        else if resp.endCode != 0 then Err(BadEndCode(resp.endCode))
        else Ok(())
  }

  /** The effect of an executed write on its tag: an acknowledged value is published. */
  function WriteEffect(req: WriteRequest, outcome: WriteOutcome): Effect
  {
    match outcome
    case Ok(_) => Publish(req.tagId, req.value)
    case Err(BadEndCode(code)) => Mark(req.tagId, Error(EndCode(code)))
    case Err(ParseError) => Mark(req.tagId, Error(ParseFailed))
    case Err(_) => Mark(req.tagId, CommLost)
  }

  function WriteOne(ms: seq<Mapping>, wire: Wire, s: Station, req: WriteRequest): WriteStep
  {
    match FindMapping(ms, req.tagId)
    case None => WriteStep(s, [], Err(UnknownTag))
    case Some(m) =>
      if !m.writable then WriteStep(s, [], Err(NotWritable))
      else
        var x := s.Sends(wire, WriteFrame(s.sid, m, req.value));
        var outcome := WriteVerdict(s.sid, x.payload);
        WriteStep(s.After(x), [WriteEffect(req, outcome)], outcome)
  }

  datatype DrainRun = DrainRun(station: Station, effects: seq<Effect>, outcomes: seq<WriteOutcome>)

  /** The requests in order, each with its outcome; no outcome ends the drain. */
  function WriteAll(ms: seq<Mapping>, wire: Wire, s: Station, reqs: seq<WriteRequest>): (r: DrainRun)
    ensures |r.outcomes| == |reqs|
    decreases |reqs|
  {
    if reqs == [] then DrainRun(s, [], [])
    else
      var before := WriteAll(ms, wire, s, reqs[..|reqs| - 1]);
      var step := WriteOne(ms, wire, before.station, reqs[|reqs| - 1]);
      DrainRun(step.station, before.effects + step.effects, before.outcomes + [step.outcome])
  }

  lemma {:induction false} WriteNext(ms: seq<Mapping>, wire: Wire, s: Station, reqs: seq<WriteRequest>, req: WriteRequest)
    ensures var before := WriteAll(ms, wire, s, reqs);
            var step := WriteOne(ms, wire, before.station, req);
            WriteAll(ms, wire, s, reqs + [req]) ==
            DrainRun(step.station, before.effects + step.effects, before.outcomes + [step.outcome])
  {
    assert (reqs + [req])[..|reqs|] == reqs;
  }

  /** One more request: its station, its outcome, its reply and its effects come on top. */
  lemma {:induction false} DrainNext(ms: seq<Mapping>, wire: Wire, s: Station, reqs: seq<WriteRequest>, req: WriteRequest,
                                     defs: Definitions, cells: Cells)
    ensures var before, after := WriteAll(ms, wire, s, reqs), WriteAll(ms, wire, s, reqs + [req]);
            var step := WriteOne(ms, wire, before.station, req);
            && after.station == step.station
            && Replies(reqs + [req], after.outcomes) == Replies(reqs, before.outcomes) + ReplyTo(req, step.outcome)
            && ApplyAll(defs, cells, after.effects) == ApplyAll(defs, ApplyAll(defs, cells, before.effects), step.effects)
  {
    var before := WriteAll(ms, wire, s, reqs);
    var step := WriteOne(ms, wire, before.station, req);
    WriteNext(ms, wire, s, reqs, req);
    RepliesGrow(reqs, before.outcomes, req, step.outcome);
    ApplyConcat(defs, cells, before.effects, step.effects);
  }

  // ----- the whole cycle -----

  /** What a completed cycle does: the writes it answers, then the reads. */
  datatype CycleRun = CycleRun(drained: DrainRun, polled: ReadRun)

  function Opened(s: Station): Station
  {
    if s.link.Down? then s.(link := Up([])) else s
  }

  function Cycle(ms: seq<Mapping>, defs: Definitions, dates: DateRange, gs: seq<ReadGroup>, wire: Wire, s: Station, reqs: seq<WriteRequest>): CycleRun
  {
    var drained := WriteAll(ms, wire, Opened(s), reqs);
    CycleRun(drained, ReadAll(defs, dates, wire, drained.station, gs))
  }
}
