/** A FINS controller at the byte level, and the driver's cycle against it. */
module FinsDevices {
  import opened Words
  import opened TagModel
  import opened Codec
  import opened Mappings
  import opened Planner
  import opened Registries
  import opened Scatter
  import opened RoundTrip
  import opened FinsFrames
  import opened WriteQueues
  import opened FinsCycles
  import opened FinsLaws
  import opened WriteBacks
  import opened WriteLists

  /** Memory after a command, and the response frame. */
  datatype Reaction = Reaction(memory: Memory, response: seq<Byte>)

  /** End codes of the controller: undefined command, command too short, elements and data do not match. */
  const UNDEFINED_COMMAND: Word := 0x0401
  const TOO_SHORT: Word := 0x1002
  const DATA_MISMATCH: Word := 0x1003

  /** The first nine bytes of a command frame's header. */
  const COMMAND_HEADER: seq<Byte> := [0x80, 0, 2, 0, 0, 0, 0, 0, 0]

  /** The controller carries out one command frame on its word memory: 1, 1 reads and 1, 2 writes. */
  function React(mem: Memory, frame: seq<Byte>): Reaction
  {
    if |frame| < 12 then Reaction(mem, [])
    else
      var sid, command := frame[9], (frame[10], frame[11]);
      if frame[..9] == COMMAND_HEADER && frame[10] == 1 && frame[11] == 1 then ReactToRead(mem, sid, frame[12..])
      else if frame[..9] == COMMAND_HEADER && frame[10] == 1 && frame[11] == 2 then ReactToWrite(mem, sid, frame[12..])
      else Reaction(mem, BuildResponse(sid, command, UNDEFINED_COMMAND, []))
  }

  function ReactToRead(mem: Memory, sid: Byte, params: seq<Byte>): Reaction
  {
    if |params| < 7 then Reaction(mem, BuildResponse(sid, MEMORY_READ, TOO_SHORT, []))
    else
      var b := ParseBlock(params);
      Reaction(mem, BuildResponse(sid, MEMORY_READ, 0, ToBytes(WordsAt(mem, Area(b.area), b.address, b.count))))
  }

  function ReactToWrite(mem: Memory, sid: Byte, params: seq<Byte>): Reaction
  {
    if |params| < 7 then Reaction(mem, BuildResponse(sid, MEMORY_WRITE, TOO_SHORT, []))
    else
      var b, ws := ParseBlock(params), ToWords(params[7..]);
      if |params| != 7 + 2 * b.count then Reaction(mem, BuildResponse(sid, MEMORY_WRITE, DATA_MISMATCH, []))
      else Reaction(Written(mem, Area(b.area), b.address, ws), BuildResponse(sid, MEMORY_WRITE, 0, []))
  }

  /** The device's reaction to bytes on the wire; bytes that are no frame under the letters FINS change nothing and get no answer. */
  function OnBytes(mem: Memory, request: seq<Byte>): Reaction
  {
    if |request| < 8 || request[..4] != [0x46, 0x49, 0x4E, 0x53] then Reaction(mem, [])
    else
      match Deframe(request)
      case Err(_) => Reaction(mem, [])
      case Ok(f) => var r := React(mem, f.payload); Reaction(r.memory, Wrap(r.response))
  }

  /** The network delivers exchange `n` to a device with memory `mem` and brings its answer. */
  ghost predicate DeliveredTo(wire: Wire, n: nat, mem: Memory)
  {
    forall request: seq<Byte> :: wire(n, request) == WireEvent(true, true, OnBytes(mem, request).response)
  }

  /** From exchange `n` on, the device's memory is `mem`. */
  ghost predicate ServedFrom(wire: Wire, n: nat, mem: Memory)
  {
    forall k: nat :: n <= k ==> DeliveredTo(wire, k, mem)
  }

  lemma {:induction false} FrameIsRead(mem: Memory, sid: Byte, command: (Byte, Byte), params: seq<Byte>)
    requires 12 + |params| < 0x1_0000_0000
    ensures OnBytes(mem, Wrap(BuildFinsFrame(sid, command, params))) ==
            var r := React(mem, BuildFinsFrame(sid, command, params)); Reaction(r.memory, Wrap(r.response))
  {
    var frame := BuildFinsFrame(sid, command, params);
    WrappedIsRead(mem, frame);
  }

  lemma {:induction false} WrappedIsRead(mem: Memory, frame: seq<Byte>)
    requires |frame| < 0x1_0000_0000
    ensures OnBytes(mem, Wrap(frame)) == var r := React(mem, frame); Reaction(r.memory, Wrap(r.response))
  {
    DeframeWrapped(frame, []);
    assert Wrap(frame) + [] == Wrap(frame);
    assert Wrap(frame)[..4] == [0x46, 0x49, 0x4E, 0x53];
  }

  lemma {:induction false} CommandIsParsed(mem: Memory, sid: Byte, params: seq<Byte>)
    ensures React(mem, BuildFinsFrame(sid, MEMORY_READ, params)) == ReactToRead(mem, sid, params)
    ensures React(mem, BuildFinsFrame(sid, MEMORY_WRITE, params)) == ReactToWrite(mem, sid, params)
  {
    var r, w := BuildFinsFrame(sid, MEMORY_READ, params), BuildFinsFrame(sid, MEMORY_WRITE, params);
    assert r[12..] == params && w[12..] == params;
    assert r[..9] == COMMAND_HEADER && w[..9] == COMMAND_HEADER;
  }

  // ----- reads -----

  lemma {:induction false} BlockAlone(area: Byte, address: U32, bitOffset: Byte, count: Word)
    ensures ParseBlock(AddressBlock(area, address, bitOffset, count)) == Block(area, address % 0x100_0000, bitOffset, count)
  {
    BlockParses(area, address, bitOffset, count, []);
    assert AddressBlock(area, address, bitOffset, count) + [] == AddressBlock(area, address, bitOffset, count);
  }

  lemma {:induction false} BlockIsRead(mem: Memory, sid: Byte, area: Byte, start: U32, count: Word)
    ensures React(mem, BuildFinsFrame(sid, MEMORY_READ, BuildMemoryRead(area, start, 0, count))) ==
            Reaction(mem, BuildResponse(sid, MEMORY_READ, 0, ToBytes(WordsAt(mem, Area(area), start % 0x100_0000, count))))
  {
    CommandIsParsed(mem, sid, BuildMemoryRead(area, start, 0, count));
    BlockAlone(area, start, 0, count);
  }

  /** The device answers a group's request with the words from the address modulo 2^24. */
  lemma {:induction false} GroupAnswer(mem: Memory, sid: Byte, g: ReadGroup)
    requires Sendable(g)
    ensures OnBytes(mem, ReadFrame(sid, g)).response == Wrap(BuildResponse(sid, MEMORY_READ, 0, ToBytes(DeviceWords(g, mem))))
  {
    FrameIsRead(mem, sid, MEMORY_READ, BuildMemoryRead(g.space.code, g.start, 0, g.count));
    RequestFields(sid, g);
    BlockIsRead(mem, sid, g.space.code, g.start, g.count);
  }

  /** The group as the device reads it: from its start modulo 2^24. */
  function DeviceWords(g: ReadGroup, mem: Memory): seq<Word>
  {
    WordsAt(mem, g.space, g.start % 0x100_0000, g.count)
  }

  /**
   * A request carries 24 address bits: the device answers with the group's own words in every memory
   * exactly when the group starts below 2^24.
   */
  lemma {:induction false} GroupIsReadExactlyBelow24Bits(sid: Byte, g: ReadGroup)
    requires Sendable(g)
    ensures (forall mem: Memory :: OnBytes(mem, ReadFrame(sid, g)).response == Wrap(BuildResponse(sid, MEMORY_READ, 0, Answer(g, mem))))
            <==> g.start < 0x100_0000
  {
    if g.start < 0x100_0000 {
      forall mem: Memory
        ensures OnBytes(mem, ReadFrame(sid, g)).response == Wrap(BuildResponse(sid, MEMORY_READ, 0, Answer(g, mem)))
      {
        GroupIsAnswered(mem, sid, g);
      }
    } else {
      AliasedAnswer(sid, g);
    }
  }

  lemma {:induction false} GroupIsAnswered(mem: Memory, sid: Byte, g: ReadGroup)
    requires Sendable(g) && g.start < 0x100_0000
    ensures OnBytes(mem, ReadFrame(sid, g)).response == Wrap(BuildResponse(sid, MEMORY_READ, 0, Answer(g, mem)))
  {
    GroupAnswer(mem, sid, g);
    BelowModulus(g.start);
  }

  lemma {:induction false} AliasedAnswer(sid: Byte, g: ReadGroup)
    requires Sendable(g) && g.start >= 0x100_0000
    ensures exists mem: Memory ::
              OnBytes(mem, ReadFrame(sid, g)).response != Wrap(BuildResponse(sid, MEMORY_READ, 0, Answer(g, mem)))
  {
    var mem := Lone(g.space, g.start, 1);
    GroupAnswer(mem, sid, g);
    BelowModulus(g.start);
    var own, aliased := WordsAt(mem, g.space, g.start, g.count), WordsAt(mem, g.space, g.start % 0x100_0000, g.count);
    WordAtOffset(mem, g.space, g.start, g.count, 0);
    WordAtOffset(mem, g.space, g.start % 0x100_0000, g.count, 0);
    DifferentAnswers(sid, own, aliased);
  }

  lemma {:induction false} DifferentAnswers(sid: Byte, a: seq<Word>, b: seq<Word>)
    requires a != [] && b != [] && a[0] != b[0]
    ensures Wrap(BuildResponse(sid, MEMORY_READ, 0, ToBytes(a))) != Wrap(BuildResponse(sid, MEMORY_READ, 0, ToBytes(b)))
  {
    BytesOfWord(a, 0);
    BytesOfWord(b, 0);
    var x, y := BuildResponse(sid, MEMORY_READ, 0, ToBytes(a)), BuildResponse(sid, MEMORY_READ, 0, ToBytes(b));
    assert x[14] == a[0] / 256 && x[15] == a[0] % 256 && y[14] == b[0] / 256 && y[15] == b[0] % 256;
    assert Wrap(x)[22] == x[14] && Wrap(x)[23] == x[15] && Wrap(y)[22] == y[14] && Wrap(y)[23] == y[15];
  }

  /** The stream holds nothing but the answers to come. */
  predicate Clean(link: Link)
  {
    link == Up([])
  }

  lemma {:induction false} OneFrameArrives(link: Link, ev: WireEvent, payload: seq<Byte>)
    requires Clean(link) && |payload| < 0x1_0000_0000 && ev == WireEvent(true, true, Wrap(payload))
    ensures Exchange(link, ev) == Exchanged(Up([]), Ok(payload))
  {
    DeframeWrapped(payload, []);
    assert [] + Wrap(payload) == Wrap(payload) == Wrap(payload) + [];
  }

  lemma {:induction false} AnswerArrives(wire: Wire, s: Station, g: ReadGroup, mem: Memory)
    requires Sendable(g) && g.start < 0x100_0000 && Clean(s.link) && DeliveredTo(wire, s.sent, mem)
    ensures s.Sends(wire, ReadFrame(s.sid, g)) == Exchanged(Up([]), Ok(BuildResponse(s.sid, MEMORY_READ, 0, Answer(g, mem))))
  {
    var response := BuildResponse(s.sid, MEMORY_READ, 0, Answer(g, mem));
    GroupIsAnswered(mem, s.sid, g);
    assert |response| == 14 + 2 * g.count;
    OneFrameArrives(s.link, wire(s.sent, ReadFrame(s.sid, g)), response);
  }

  /** An accepted reply with all the group's data reaches its mappings, up to a date that panics. */
  function Scattered(defs: Definitions, dates: DateRange, g: ReadGroup, data: seq<Byte>): Answered
  {
    Answered(UntilPanic(defs, dates, g.members, g, data), if ChunkPanics(Fins, defs, dates, g.members, g, data) then Panic else GoOn)
  }

  lemma {:induction false} AnswerIsAccepted(defs: Definitions, dates: DateRange, sid: Byte, g: ReadGroup, data: seq<Byte>)
    requires |data| == 2 * g.count
    ensures OnAnswer(defs, dates, g, sid, BuildResponse(sid, MEMORY_READ, 0, data)) == Scattered(defs, dates, g, data)
  {
    ResponseParses(sid, MEMORY_READ, 0, data);
    AcceptedResponse(defs, dates, sid, g, Response(sid, 0, data));
    AnswerIsResponse(defs, dates, sid, g, BuildResponse(sid, MEMORY_READ, 0, data), Response(sid, 0, data));
  }

  lemma {:induction false} AcceptedResponse(defs: Definitions, dates: DateRange, sid: Byte, g: ReadGroup, resp: Response)
    requires resp.sid == sid && resp.endCode == 0 && |resp.data| >= 2 * g.count
    ensures OnResponse(defs, dates, g, sid, resp) == Scattered(defs, dates, g, resp.data)
  {
  }

  lemma {:induction false} AnswerIsResponse(defs: Definitions, dates: DateRange, sid: Byte, g: ReadGroup, payload: seq<Byte>, resp: Response)
    requires ParseFinsResponse(payload) == Ok(resp)
    ensures OnAnswer(defs, dates, g, sid, payload) == OnResponse(defs, dates, g, sid, resp)
  {
  }

  lemma {:induction false} FaithfulGroup(defs: Definitions, dates: DateRange, wire: Wire, s: Station, g: ReadGroup, mem: Memory)
    requires Sendable(g) && g.start < 0x100_0000 && Clean(s.link) && DeliveredTo(wire, s.sent, mem)
    ensures StationBehind(wire, s, g) == Station(Up([]), NextSid(s.sid), s.sent + 1)
    ensures AnswerTo(defs, dates, wire, s, g) == Scattered(defs, dates, g, Answer(g, mem))
  {
    AnswerArrives(wire, s, g, mem);
    AnswerIsAccepted(defs, dates, s.sid, g, Answer(g, mem));
  }

  predicate Below24Bits(gs: seq<ReadGroup>)
  {
    forall i :: 0 <= i < |gs| ==> gs[i].start < 0x100_0000
  }

  /**
   * Against a faithful device the reads of a cycle end in a panic exactly if memory holds a date that
   * panics for some mapping; if not, they are exactly the reads of that memory, group by group.
   */
  lemma {:induction false} FaithfulReads(defs: Definitions, dates: DateRange, wire: Wire, s: Station, gs: seq<ReadGroup>, mem: Memory)
    requires AllSendable(gs) && Below24Bits(gs) && Clean(s.link) && ServedFrom(wire, s.sent, mem)
    ensures ReadAll(defs, dates, wire, s, gs).panicked <==> CyclePanics(Fins, defs, dates, gs, mem)
    ensures !ReadAll(defs, dates, wire, s, gs).panicked ==>
              ReadAll(defs, dates, wire, s, gs).effects == CycleEffects(Fins, defs, dates, gs, mem)
    ensures Clean(ReadAll(defs, dates, wire, s, gs).station.link)
    decreases |gs|
  {
    if gs != [] {
      FaithfulGroup(defs, dates, wire, s, gs[0], mem);
      if !ChunkPanics(Fins, defs, dates, gs[0].members, gs[0], Answer(gs[0], mem)) {
        NoPanic(defs, dates, gs[0].members, gs[0], Answer(gs[0], mem));
        FaithfulReads(defs, dates, wire, Station(Up([]), NextSid(s.sid), s.sent + 1), gs[1..], mem);
      }
    }
  }

  // ----- writes -----

  lemma {:induction false} WriteParams(area: Byte, address: U32, bitOffset: Byte, ws: seq<Word>)
    requires |ws| <= 0xFFFF
    ensures var p := BuildMemoryWrite(area, address, bitOffset, ws);
            && |p| == 7 + 2 * |ws|
            && ParseBlock(p) == Block(area, address % 0x100_0000, bitOffset, |ws|)
            && ToWords(p[7..]) == ws
  {
    BlockParses(area, address, bitOffset, |ws|, ToBytes(ws));
    WordsSurviveBytes(ws);
    BehindBlock(AddressBlock(area, address, bitOffset, |ws|), ToBytes(ws));
    CountFits(|ws|);
  }

  lemma {:induction false} CountFits(n: nat)
    requires n <= 0xFFFF
    ensures n % 0x1_0000 == n
  {
  }

  lemma {:induction false} BehindBlock(block: seq<Byte>, data: seq<Byte>)
    requires |block| == 7
    ensures (block + data)[7..] == data
  {
  }

  /** The device stores exactly the words of the value, at the mapping's address, and acknowledges. */
  lemma {:induction false} WriteIsCarriedOut(mem: Memory, sid: Byte, m: Mapping, v: TagValue)
    requires m.space.Area? && m.address < 0x100_0000 && |Encode(v)| <= 0xFFFF
    ensures OnBytes(mem, WriteFrame(sid, m, v)) ==
            Reaction(AfterWrite(mem, m, v), Wrap(BuildResponse(sid, MEMORY_WRITE, 0, [])))
  {
    var ws := Stored(v, m.order);
    var params := BuildMemoryWrite(m.space.code, m.address, m.bitOffset, ws);
    WriteParams(m.space.code, m.address, m.bitOffset, ws);
    FrameIsRead(mem, sid, MEMORY_WRITE, params);
    CommandIsParsed(mem, sid, params);
    BelowModulus(m.address);
  }

  lemma {:induction false} AcknowledgementArrives(wire: Wire, s: Station, m: Mapping, v: TagValue, mem: Memory)
    requires m.space.Area? && m.address < 0x100_0000 && |Encode(v)| <= 0xFFFF
    requires Clean(s.link) && DeliveredTo(wire, s.sent, mem)
    ensures s.Sends(wire, WriteFrame(s.sid, m, v)) == Exchanged(Up([]), Ok(BuildResponse(s.sid, MEMORY_WRITE, 0, [])))
  {
    WriteIsCarriedOut(mem, s.sid, m, v);
    OneFrameArrives(s.link, wire(s.sent, WriteFrame(s.sid, m, v)), BuildResponse(s.sid, MEMORY_WRITE, 0, []));
  }

  /** A write to a faithful device is confirmed. */
  lemma {:induction false} FaithfulWrite(ms: seq<Mapping>, wire: Wire, s: Station, req: WriteRequest, m: Mapping, mem: Memory)
    requires InAreas(ms) && FindMapping(ms, req.tagId) == Some(m) && m.writable && m.space.Area?
    requires m.address < 0x100_0000 && |Encode(req.value)| <= 0xFFFF
    requires Clean(s.link) && DeliveredTo(wire, s.sent, mem)
    ensures WriteOne(ms, wire, s, req) ==
            WriteStep(Station(Up([]), NextSid(s.sid), s.sent + 1), [Publish(req.tagId, req.value)], Ok(()))
  {
    AcknowledgementArrives(wire, s, m, req.value, mem);
    AcknowledgementConfirms(s.sid);
    ConfirmedStep(ms, wire, s, req, m);
  }

  lemma {:induction false} AcknowledgementConfirms(sid: Byte)
    ensures WriteVerdict(sid, Ok(BuildResponse(sid, MEMORY_WRITE, 0, []))) == Ok(())
  {
    ResponseParses(sid, MEMORY_WRITE, 0, []);
  }

  lemma {:induction false} ConfirmedStep(ms: seq<Mapping>, wire: Wire, s: Station, req: WriteRequest, m: Mapping)
    requires InAreas(ms) && FindMapping(ms, req.tagId) == Some(m) && m.writable && m.space.Area?
    requires WriteVerdict(s.sid, s.Sends(wire, WriteFrame(s.sid, m, req.value)).payload) == Ok(())
    ensures WriteOne(ms, wire, s, req) ==
            WriteStep(s.After(s.Sends(wire, WriteFrame(s.sid, m, req.value))), [Publish(req.tagId, req.value)], Ok(()))
  {
  }

  // ----- what an acknowledgement means -----

  /**
   * What arrived at station `t` for `request` is a device's answer, on memory `mem`, to the frame sent
   * `lag` exchanges before: the request itself if `lag` is 0, and an answer less than 256 exchanges old.
   */
  ghost predicate GenuineAnswer(wire: Wire, t: Station, request: seq<Byte>, mem: Memory, frame: seq<Byte>, lag: nat)
  {
    && t.Sends(wire, Wrap(request)).payload == Ok(React(mem, frame).response)
    && |frame| >= 12 && lag < 0x100 && SidAfter(frame[9], lag) == t.sid
    && (lag == 0 ==> frame == request)
  }

  /** Every answer of the device carries the session id of the frame it answers. */
  lemma {:induction false} AnswerCarriesSid(mem: Memory, frame: seq<Byte>)
    requires |frame| >= 12
    ensures |React(mem, frame).response| >= 14 && React(mem, frame).response[9] == frame[9]
  {
  }

  /** The device acknowledges a write frame only after storing its words. */
  lemma {:induction false} AcknowledgedWriteIsStored(mem: Memory, sid: Byte, m: Mapping, v: TagValue)
    requires m.space.Area? && Accepts(sid, Ok(React(mem, WriteCommand(sid, m, v)).response))
    ensures React(mem, WriteCommand(sid, m, v)).memory == Written(mem, m.space, m.address % 0x100_0000, Stored(v, m.order))
  {
    var ws := Stored(v, m.order);
    var params := BuildMemoryWrite(m.space.code, m.address, m.bitOffset, ws);
    CommandIsParsed(mem, sid, params);
    if |ws| <= 0xFFFF {
      WriteParams(m.space.code, m.address, m.bitOffset, ws);
    } else {
      LongWriteIsRefused(mem, sid, m, ws);
    }
  }

  /** A write of more than 65535 words is announced with a wrong count, and refused. */
  lemma {:induction false} LongWriteIsRefused(mem: Memory, sid: Byte, m: Mapping, ws: seq<Word>)
    requires m.space.Area? && |ws| > 0xFFFF
    ensures !Accepts(sid, Ok(ReactToWrite(mem, sid, BuildMemoryWrite(m.space.code, m.address, m.bitOffset, ws)).response))
  {
    var n: Word := |ws| % 0x1_0000;
    BlockParses(m.space.code, m.address, m.bitOffset, n, ToBytes(ws));
    ResponseParses(sid, MEMORY_WRITE, DATA_MISMATCH, []);
    assert n < |ws|;
  }

  /**
   * When an acknowledged write was stored: on a network that brings only answers less than 256 exchanges
   * old, the acknowledgement is the answer to this very write, and the device stored exactly the words
   * of the value, at the mapping's address modulo 2^24.
   */
  lemma {:induction false} GenuineAcknowledgementIsStored(ms: seq<Mapping>, wire: Wire, t: Station, req: WriteRequest, m: Mapping,
                                                          mem: Memory, frame: seq<Byte>, lag: nat)
    requires FindMapping(ms, req.tagId) == Some(m) && m.space.Area? && Acknowledged(ms, wire, t, req)
    requires GenuineAnswer(wire, t, WriteCommand(t.sid, m, req.value), mem, frame, lag)
    ensures lag == 0 && frame == WriteCommand(t.sid, m, req.value)
    ensures React(mem, frame).memory == Written(mem, m.space, m.address % 0x100_0000, Stored(req.value, m.order))
  {
    AcknowledgedPayload(ms, wire, t, req, m);
    AnswerCarriesSid(mem, frame);
    assert frame[9] == t.sid;
    SidReturns(t.sid, lag);
    AcknowledgedWriteIsStored(mem, t.sid, m, req.value);
  }

  lemma {:induction false} AcknowledgedPayload(ms: seq<Mapping>, wire: Wire, t: Station, req: WriteRequest, m: Mapping)
    requires FindMapping(ms, req.tagId) == Some(m) && Acknowledged(ms, wire, t, req)
    ensures Accepts(t.sid, t.Sends(wire, Wrap(WriteCommand(t.sid, m, req.value))).payload)
  {
  }

  lemma {:induction false} SidReturns(sid: Byte, lag: nat)
    requires lag < 0x100 && SidAfter(sid, lag) == sid
    ensures lag == 0
  {
    SidsRepeatEvery256(sid, 0, lag);
  }

  lemma {:induction false} ReadIsCarriedOut(mem: Memory, sid: Byte, g: ReadGroup)
    requires Sendable(g)
    ensures React(mem, ReadCommand(sid, g)).response == BuildResponse(sid, MEMORY_READ, 0, ToBytes(DeviceWords(g, mem)))
  {
    RequestFields(sid, g);
    BlockIsRead(mem, sid, g.space.code, g.start, g.count);
  }

  /**
   * What a value published by the reads means on an unreliable network: if what arrives for a group of
   * the run is a device's answer less than 256 exchanges old, it is the answer to this very request, and
   * the value decodes the device's own words of that group, at its start modulo 2^24.
   */
  lemma {:induction false} GenuineReadIsOwnWords(defs: Definitions, dates: DateRange, wire: Wire, s: Station, gs: seq<ReadGroup>, k: nat,
                                                 m: Mapping, v: TagValue, mem: Memory, frame: seq<Byte>, lag: nat)
    requires AllSendable(gs) && RunGave(defs, dates, wire, s, gs, k, m, v)
    requires var t := StationAt(wire, s, gs, k); GenuineAnswer(wire, t, ReadCommand(t.sid, gs[k]), mem, frame, lag)
    ensures lag == 0 && DecodedFrom(Fins, dates, m, gs[k], ToBytes(DeviceWords(gs[k], mem)), v)
    ensures gs[k].start < 0x100_0000 ==> DecodeAs(Fins, m, ToBytes(PieceWords(m, gs[k], mem)), dates) == Ok(v)
  {
    OwnAnswer(wire, StationAt(wire, s, gs, k), gs[k], mem, frame, lag);
    OwnPieceDecodes(dates, m, gs[k], mem, v);
  }

  /** The data accepted for a group are the device's own words. */
  lemma {:induction false} OwnAnswer(wire: Wire, t: Station, g: ReadGroup, mem: Memory, frame: seq<Byte>, lag: nat)
    requires Sendable(g) && GenuineAnswer(wire, t, ReadCommand(t.sid, g), mem, frame, lag) && Accepts(t.sid, ReadPayload(wire, t, g))
    ensures lag == 0 && DataOf(ReadPayload(wire, t, g).value) == ToBytes(DeviceWords(g, mem))
  {
    AnswerCarriesSid(mem, frame);
    assert frame[9] == t.sid;
    SidReturns(t.sid, lag);
    ReadIsCarriedOut(mem, t.sid, g);
    DataOfResponse(t.sid, ToBytes(DeviceWords(g, mem)));
  }

  lemma {:induction false} OwnPieceDecodes(dates: DateRange, m: Mapping, g: ReadGroup, mem: Memory, v: TagValue)
    requires g.space.Area? && DecodedFrom(Fins, dates, m, g, ToBytes(DeviceWords(g, mem)), v)
    ensures g.start < 0x100_0000 ==> DecodeAs(Fins, m, ToBytes(PieceWords(m, g, mem)), dates) == Ok(v)
  {
    if g.start < 0x100_0000 {
      BelowModulus(g.start);
      SliceHoldsTheWords(m, g, mem);
    }
  }

  lemma {:induction false} DataOfResponse(sid: Byte, data: seq<Byte>)
    ensures DataOf(BuildResponse(sid, MEMORY_READ, 0, data)) == data
  {
    ResponseParses(sid, MEMORY_READ, 0, data);
  }

  // ----- queued writes and the reads behind them -----

  /** The network delivers every request of the drain to the device, which carries them out in order. */
  ghost predicate FaithfulDrain(ms: seq<Mapping>, wire: Wire, s: Station, reqs: seq<WriteRequest>, mem: Memory)
    requires InAreas(ms)
  {
    forall k :: 0 <= k < |reqs| && Target(ms, reqs[k]).Some? ==>
      DeliveredTo(wire, WriteAll(ms, wire, s, reqs[..k]).station.sent, MemoryAfter(ms, mem, reqs[..k]))
  }

  /** Every mapping starts at an address of 24 bits. */
  predicate Addressable(ms: seq<Mapping>)
  {
    forall i :: 0 <= i < |ms| ==> ms[i].address < 0x100_0000
  }

  /** A request that is written nowhere is refused without an exchange. */
  lemma {:induction false} RefusedWrite(ms: seq<Mapping>, wire: Wire, s: Station, req: WriteRequest)
    requires InAreas(ms) && Target(ms, req).None?
    ensures WriteOne(ms, wire, s, req).station == s && WriteOne(ms, wire, s, req).outcome.Err?
  {
    var found := FindMapping(ms, req.tagId);
    if found.Some? {
      InAnArea(ms, found.value);
    }
  }

  lemma {:induction false} InAnArea(ms: seq<Mapping>, m: Mapping)
    requires InAreas(ms) && m in ms
    ensures m.space.Area?
  {
  }

  lemma {:induction false} AnAddress(ms: seq<Mapping>, m: Mapping)
    requires Addressable(ms) && m in ms
    ensures m.address < 0x100_0000
  {
  }

  /** Exactly the requests with a target are confirmed, and nothing is left unread. */
  ghost predicate CarriedOut(ms: seq<Mapping>, run: DrainRun, reqs: seq<WriteRequest>)
  {
    && Clean(run.station.link) && |run.outcomes| == |reqs|
    && forall k :: 0 <= k < |reqs| ==> (run.outcomes[k].Ok? <==> Target(ms, reqs[k]).Some?)
  }

  /** Against a faithful device exactly the requests that have a target are confirmed. */
  lemma {:induction false} DrainIsCarriedOut(ms: seq<Mapping>, wire: Wire, s: Station, reqs: seq<WriteRequest>, mem: Memory)
    requires InAreas(ms) && Addressable(ms) && AllFit(ms, reqs) && Clean(s.link) && FaithfulDrain(ms, wire, s, reqs, mem)
    ensures CarriedOut(ms, WriteAll(ms, wire, s, reqs), reqs)
    decreases |reqs|
  {
    if reqs != [] {
      var init, req := reqs[..|reqs| - 1], reqs[|reqs| - 1];
      EarlierDrain(ms, wire, s, reqs, mem);
      DrainIsCarriedOut(ms, wire, s, init, mem);
      NextIsCarriedOut(ms, wire, s, init, req, mem);
      assert reqs == init + [req];
    }
  }

  lemma {:induction false} NextIsCarriedOut(ms: seq<Mapping>, wire: Wire, s: Station, init: seq<WriteRequest>, req: WriteRequest, mem: Memory)
    requires InAreas(ms) && Addressable(ms) && CarriedOut(ms, WriteAll(ms, wire, s, init), init)
    requires Target(ms, req).Some? ==>
               && DeliveredTo(wire, WriteAll(ms, wire, s, init).station.sent, MemoryAfter(ms, mem, init))
               && |Encode(req.value)| <= Target(ms, req).value.count
    ensures CarriedOut(ms, WriteAll(ms, wire, s, init + [req]), init + [req])
  {
    var before := WriteAll(ms, wire, s, init);
    WriteNext(ms, wire, s, init, req);
    LastIsCarriedOut(ms, wire, before.station, req, MemoryAfter(ms, mem, init));
    OneMoreCarriedOut(ms, before, WriteOne(ms, wire, before.station, req), init, req);
  }

  lemma {:induction false} OneMoreCarriedOut(ms: seq<Mapping>, before: DrainRun, step: WriteStep, init: seq<WriteRequest>, req: WriteRequest)
    requires CarriedOut(ms, before, init) && Clean(step.station.link) && (step.outcome.Ok? <==> Target(ms, req).Some?)
    ensures CarriedOut(ms, DrainRun(step.station, before.effects + step.effects, before.outcomes + [step.outcome]), init + [req])
  {
  }

  lemma {:induction false} EarlierDrain(ms: seq<Mapping>, wire: Wire, s: Station, reqs: seq<WriteRequest>, mem: Memory)
    requires InAreas(ms) && AllFit(ms, reqs) && reqs != [] && FaithfulDrain(ms, wire, s, reqs, mem)
    ensures var init, req := reqs[..|reqs| - 1], reqs[|reqs| - 1];
            && AllFit(ms, init) && FaithfulDrain(ms, wire, s, init, mem)
            && (Target(ms, req).Some? ==> && DeliveredTo(wire, WriteAll(ms, wire, s, init).station.sent, MemoryAfter(ms, mem, init))
                                          && |Encode(req.value)| <= Target(ms, req).value.count)
  {
    var init := reqs[..|reqs| - 1];
    forall k | 0 <= k < |init| && Target(ms, init[k]).Some?
      ensures DeliveredTo(wire, WriteAll(ms, wire, s, init[..k]).station.sent, MemoryAfter(ms, mem, init[..k]))
    {
      assert init[..k] == reqs[..k];
    }
  }

  lemma {:induction false} LastIsCarriedOut(ms: seq<Mapping>, wire: Wire, s: Station, req: WriteRequest, mem: Memory)
    requires InAreas(ms) && Addressable(ms) && Clean(s.link)
    requires Target(ms, req).Some? ==> DeliveredTo(wire, s.sent, mem) && |Encode(req.value)| <= Target(ms, req).value.count
    ensures Clean(WriteOne(ms, wire, s, req).station.link)
    ensures WriteOne(ms, wire, s, req).outcome.Ok? <==> Target(ms, req).Some?
  {
    if Target(ms, req).Some? {
      var m := Target(ms, req).value;
      InAnArea(ms, m);
      AnAddress(ms, m);
      FaithfulWrite(ms, wire, s, req, m, mem);
    } else {
      RefusedWrite(ms, wire, s, req);
    }
  }

  /** A drain acts on the tags its requests name only. */
  lemma {:induction false} UnnamedTagsStay(ms: seq<Mapping>, wire: Wire, s: Station, reqs: seq<WriteRequest>, id: string)
    requires InAreas(ms) && Unnamed(reqs, id)
    ensures Own(WriteAll(ms, wire, s, reqs).effects, id) == []
    decreases |reqs|
  {
    if reqs != [] {
      var n := |reqs| - 1;
      UnnamedTagsStay(ms, wire, s, reqs[..n], id);
      var before := WriteAll(ms, wire, s, reqs[..n]);
      OwnConcat(before.effects, WriteOne(ms, wire, before.station, reqs[n]).effects, id);
    }
  }

  /**
   * A cycle with any queued writes against a faithful device: the requests with a target are confirmed,
   * and the reads are those of the device's memory with all written words in it, unless that memory holds
   * a date that panics.
   */
  lemma {:induction false} WritesThenReads(ms: seq<Mapping>, defs: Definitions, dates: DateRange, gs: seq<ReadGroup>, wire: Wire, s: Station,
                                           reqs: seq<WriteRequest>, mem: Memory)
    requires InAreas(ms) && Addressable(ms) && AllFit(ms, reqs)
    requires AllSendable(gs) && Below24Bits(gs) && (s.link.Down? || Clean(s.link))
    requires FaithfulDrain(ms, wire, Opened(s), reqs, mem)
    requires ServedFrom(wire, WriteAll(ms, wire, Opened(s), reqs).station.sent, MemoryAfter(ms, mem, reqs))
    ensures var run := Cycle(ms, defs, dates, gs, wire, s, reqs);
            && (forall k :: 0 <= k < |reqs| ==> (run.drained.outcomes[k].Ok? <==> Target(ms, reqs[k]).Some?))
            && (run.polled.panicked <==> CyclePanics(Fins, defs, dates, gs, MemoryAfter(ms, mem, reqs)))
            && (!run.polled.panicked ==> run.polled.effects == CycleEffects(Fins, defs, dates, gs, MemoryAfter(ms, mem, reqs)))
  {
    DrainIsCarriedOut(ms, wire, Opened(s), reqs, mem);
    FaithfulReads(defs, dates, wire, WriteAll(ms, wire, Opened(s), reqs).station, gs, MemoryAfter(ms, mem, reqs));
  }
}
