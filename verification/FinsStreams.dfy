/**
 * A FINS stream out of step. The driver takes one frame off the stream an exchange and never discards
 * what is unread, so a surplus frame shifts every later answer to a later request.
 */
module FinsStreams {
  import opened Words
  import opened TagModel
  import opened Codec
  import opened Mappings
  import opened Planner
  import opened Registries
  import opened Scatter
  import opened FinsFrames
  import opened RoundTrip
  import opened WriteQueues
  import opened FinsCycles
  import opened FinsLaws
  import FinsDevices

  predicate IsResponse(answer: seq<Byte>)
  {
    14 <= |answer| < 0x1_0000_0000
  }

  /** A response frame with this session id. */
  predicate CarriesSid(answer: seq<Byte>, sid: Byte)
  {
    IsResponse(answer) && answer[9] == sid
  }

  /** The request goes out, and exactly one frame arrives, with the session id of the request. */
  ghost predicate AnsweredBy(ev: WireEvent, sid: Byte, answer: seq<Byte>)
  {
    ev.sends && ev.arrives == Wrap(answer) && CarriesSid(answer, sid)
  }

  /** Exchange `n` meets a peer that answers every request once, whatever it answers. */
  ghost predicate AnswersOnce(wire: Wire, n: nat)
  {
    forall command: seq<Byte> {:trigger wire(n, Wrap(command))} :: 12 <= |command| < 0x1_0000_0000 ==>
      exists answer: seq<Byte> :: AnsweredBy(wire(n, Wrap(command)), command[9], answer)
  }

  ghost predicate AnswersOnceFrom(wire: Wire, n: nat)
  {
    forall k: nat :: n <= k ==> AnswersOnce(wire, k)
  }

  /** A controller that answers from memory answers every request once. */
  lemma {:induction false} DeviceAnswersOnce(wire: Wire, n: nat, mem: Memory)
    requires FinsDevices.DeliveredTo(wire, n, mem)
    ensures AnswersOnce(wire, n)
  {
    forall command: seq<Byte> | 12 <= |command| < 0x1_0000_0000
      ensures exists answer: seq<Byte> :: AnsweredBy(wire(n, Wrap(command)), command[9], answer)
    {
      var answer := FinsDevices.React(mem, command).response;
      FinsDevices.WrappedIsRead(mem, command);
      FinsDevices.AnswerCarriesSid(mem, command);
      assert AnsweredBy(wire(n, Wrap(command)), command[9], answer);
    }
  }

  // ----- the backlog -----

  /** Unread answer `i` of `shift` is the one to the request sent `shift - i` exchanges before the next. */
  predicate Lags(backlog: seq<seq<Byte>>, sid: Byte)
  {
    forall i :: 0 <= i < |backlog| ==> IsResponse(backlog[i]) && SidAfter(backlog[i][9], |backlog| - i) == sid
  }

  ghost predicate Unread(s: Station, backlog: seq<seq<Byte>>)
  {
    s.link == Up(WrapAll(backlog)) && Lags(backlog, s.sid)
  }

  /** The stream holds the answers to the last `shift` requests. */
  ghost predicate OutOfStep(s: Station, shift: nat)
  {
    exists backlog: seq<seq<Byte>> :: |backlog| == shift && Unread(s, backlog)
  }

  lemma {:induction false} WrapAllAppend(backlog: seq<seq<Byte>>, answer: seq<Byte>)
    ensures WrapAll(backlog) + Wrap(answer) == WrapAll(backlog + [answer])
  {
    if backlog == [] {
      assert [] + [answer] == [answer] && [answer][1..] == [];
    } else {
      WrapAllAppend(backlog[1..], answer);
      assert (backlog + [answer])[1..] == backlog[1..] + [answer];
      Associate(Wrap(backlog[0]), WrapAll(backlog[1..]), Wrap(answer));
    }
  }

  /** One frame is taken off the stream, and what arrives is appended. */
  lemma {:induction false} TakesFirst(link: Link, ev: WireEvent, first: seq<Byte>, later: seq<Byte>)
    requires link == Up(Wrap(first) + later) && |first| < 0x1_0000_0000 && ev.sends
    ensures Exchange(link, ev) == Exchanged(Up(later + ev.arrives), Ok(first))
  {
    Associate(Wrap(first), later, ev.arrives);
    DeframeWrapped(first, later + ev.arrives);
  }

  /** The oldest unread answer is taken for the answer to this request, and this request's is left unread. */
  lemma {:induction false} OldestIsTaken(link: Link, ev: WireEvent, backlog: seq<seq<Byte>>, answer: seq<Byte>)
    requires backlog != [] && link == Up(WrapAll(backlog)) && |backlog[0]| < 0x1_0000_0000 && ev.sends && ev.arrives == Wrap(answer)
    ensures Exchange(link, ev) == Exchanged(Up(WrapAll(backlog[1..] + [answer])), Ok(backlog[0]))
  {
    TakesFirst(link, ev, backlog[0], WrapAll(backlog[1..]));
    WrapAllAppend(backlog[1..], answer);
  }

  lemma {:induction false} LagsOn(backlog: seq<seq<Byte>>, sid: Byte, answer: seq<Byte>)
    requires backlog != [] && Lags(backlog, sid) && CarriesSid(answer, sid)
    ensures Lags(backlog[1..] + [answer], NextSid(sid))
  {
    var next := backlog[1..] + [answer];
    forall i | 0 <= i < |next| ensures IsResponse(next[i]) && SidAfter(next[i][9], |next| - i) == NextSid(sid) {
      if i < |next| - 1 {
        assert next[i] == backlog[i + 1];
        SidSucceeds(backlog[i + 1][9], |backlog| - (i + 1));
      } else {
        SidSucceeds(sid, 0);
      }
    }
  }

  /** The payload is a response, and carries the id of the request exactly if 256 divides the shift. */
  predicate Shifted(payload: Result<seq<Byte>, IoError>, sid: Byte, shift: nat)
  {
    payload.Ok? && |payload.value| >= 14 && (payload.value[9] == sid <==> shift % 0x100 == 0)
  }

  lemma {:induction false} ExchangeOnBacklog(s: Station, ev: WireEvent, backlog: seq<seq<Byte>>, answer: seq<Byte>)
    requires backlog != [] && Unread(s, backlog) && AnsweredBy(ev, s.sid, answer)
    ensures Exchange(s.link, ev).payload == Ok(backlog[0]) && Unread(s.After(Exchange(s.link, ev)), backlog[1..] + [answer])
  {
    OldestIsTaken(s.link, ev, backlog, answer);
    LagsOn(backlog, s.sid, answer);
  }

  lemma {:induction false} OldestIsShifted(backlog: seq<seq<Byte>>, sid: Byte)
    requires backlog != [] && Lags(backlog, sid)
    ensures Shifted(Ok(backlog[0]), sid, |backlog|)
  {
    SidsRepeatEvery256(backlog[0][9], 0, |backlog|);
  }

  /** The answer to a command that carries the session id of the station. */
  lemma {:induction false} AnswerOf(wire: Wire, s: Station, command: seq<Byte>) returns (answer: seq<Byte>)
    requires AnswersOnce(wire, s.sent) && IsCommand(command, s.sid)
    ensures AnsweredBy(wire(s.sent, Wrap(command)), s.sid, answer)
  {
    answer :| AnsweredBy(wire(s.sent, Wrap(command)), command[9], answer);
  }

  /** A command frame with this session id that fits the length field. */
  predicate IsCommand(command: seq<Byte>, sid: Byte)
  {
    12 <= |command| < 0x1_0000_0000 && command[9] == sid
  }

  /**
   * One exchange on a stream out of step: what is received is the answer to the request `shift` exchanges
   * before, and the stream stays out of step by as much.
   */
  lemma {:induction false} StaysOutOfStep(wire: Wire, s: Station, shift: nat, command: seq<Byte>)
    requires OutOfStep(s, shift) && shift >= 1 && AnswersOnce(wire, s.sent) && IsCommand(command, s.sid)
    ensures var x := s.Sends(wire, Wrap(command)); Shifted(x.payload, s.sid, shift) && OutOfStep(s.After(x), shift)
  {
    var backlog :| |backlog| == shift && Unread(s, backlog);
    var answer := AnswerOf(wire, s, command);
    ExchangeOnBacklog(s, wire(s.sent, Wrap(command)), backlog, answer);
    OldestIsShifted(backlog, s.sid);
    Witness(s.After(s.Sends(wire, Wrap(command))), backlog[1..] + [answer], shift);
  }

  lemma {:induction false} Witness(s: Station, backlog: seq<seq<Byte>>, shift: nat)
    requires |backlog| == shift && Unread(s, backlog)
    ensures OutOfStep(s, shift)
  {
  }

  /** Any one frame left unread, duplicate or unasked for, puts the next exchange's answer a request behind. */
  lemma {:induction false} SurplusFrameShifts(wire: Wire, s: Station, surplus: seq<Byte>, command: seq<Byte>)
    requires s.link == Up(Wrap(surplus)) && |surplus| < 0x1_0000_0000 && AnswersOnce(wire, s.sent) && IsCommand(command, s.sid)
    ensures s.Sends(wire, Wrap(command)).payload == Ok(surplus) && OutOfStep(s.After(s.Sends(wire, Wrap(command))), 1)
  {
    var answer := AnswerOf(wire, s, command);
    assert Wrap(surplus) + [] == Wrap(surplus);
    TakesFirst(s.link, wire(s.sent, Wrap(command)), surplus, []);
    OneUnread(s, answer);
    Witness(s.After(s.Sends(wire, Wrap(command))), [answer], 1);
  }

  lemma {:induction false} OneUnread(s: Station, answer: seq<Byte>)
    requires CarriesSid(answer, s.sid)
    ensures [] + Wrap(answer) == WrapAll([answer]) && Lags([answer], NextSid(s.sid))
  {
    WrapAllAppend([], answer);
    assert [] + [answer] == [answer];
    SidSucceeds(s.sid, 0);
  }

  // ----- reads -----

  /** Every group's tags are marked as lost, group by group. */
  function AllLost(gs: seq<ReadGroup>): seq<Effect>
  {
    if gs == [] then [] else Marks(IdsOf(gs[0].members), CommLost) + AllLost(gs[1..])
  }

  /** A reply with another id marks the group's tags, and the reads go on. */
  lemma {:induction false} OtherSidIsLost(defs: Definitions, dates: DateRange, g: ReadGroup, sid: Byte, payload: seq<Byte>)
    requires |payload| >= 14 && payload[9] != sid
    ensures OnAnswer(defs, dates, g, sid, payload) == Answered(Marks(IdsOf(g.members), CommLost), GoOn)
  {
  }

  lemma {:induction false} ReadIsCommand(sid: Byte, g: ReadGroup)
    ensures IsCommand(ReadCommand(sid, g), sid)
  {
  }

  lemma {:induction false} LostAnswer(defs: Definitions, dates: DateRange, wire: Wire, s: Station, g: ReadGroup, shift: nat)
    requires shift % 0x100 != 0 && Shifted(s.Sends(wire, ReadFrame(s.sid, g)).payload, s.sid, shift)
    ensures AnswerTo(defs, dates, wire, s, g) == Answered(Marks(IdsOf(g.members), CommLost), GoOn)
  {
    OtherSidIsLost(defs, dates, g, s.sid, s.Sends(wire, ReadFrame(s.sid, g)).payload.value);
  }

  lemma {:induction false} ReadExchange(wire: Wire, s: Station, g: ReadGroup, shift: nat)
    requires OutOfStep(s, shift) && shift >= 1 && AnswersOnce(wire, s.sent)
    ensures Shifted(s.Sends(wire, ReadFrame(s.sid, g)).payload, s.sid, shift) && OutOfStep(StationBehind(wire, s, g), shift)
  {
    ReadIsCommand(s.sid, g);
    StaysOutOfStep(wire, s, shift, ReadCommand(s.sid, g));
  }

  lemma {:induction false} ReadOutOfStep(defs: Definitions, dates: DateRange, wire: Wire, s: Station, g: ReadGroup, shift: nat)
    requires OutOfStep(s, shift) && shift % 0x100 != 0 && AnswersOnce(wire, s.sent)
    ensures AnswerTo(defs, dates, wire, s, g) == Answered(Marks(IdsOf(g.members), CommLost), GoOn)
    ensures OutOfStep(StationBehind(wire, s, g), shift)
  {
    ReadExchange(wire, s, g, shift);
    LostAnswer(defs, dates, wire, s, g, shift);
  }

  /** Reads on a stream out of step all go on, and do nothing but mark every listed tag as lost. */
  lemma {:induction false} ReadsOutOfStep(defs: Definitions, dates: DateRange, wire: Wire, s: Station, gs: seq<ReadGroup>, shift: nat)
    requires OutOfStep(s, shift) && shift % 0x100 != 0 && AnswersOnceFrom(wire, s.sent)
    ensures var run := ReadAll(defs, dates, wire, s, gs);
            && run.effects == AllLost(gs) && !run.panicked
            && OutOfStep(run.station, shift) && run.station.sent == s.sent + |gs|
    decreases |gs|
  {
    if gs != [] {
      ReadOutOfStep(defs, dates, wire, s, gs[0], shift);
      StepCounts(wire, s, gs[0]);
      ReadsOutOfStep(defs, dates, wire, StationBehind(wire, s, gs[0]), gs[1..], shift);
      FirstGoesOn(defs, dates, wire, s, gs);
    }
  }

  lemma {:induction false} FirstGoesOn(defs: Definitions, dates: DateRange, wire: Wire, s: Station, gs: seq<ReadGroup>)
    requires gs != [] && AnswerTo(defs, dates, wire, s, gs[0]).next == GoOn
    ensures var rest := ReadAll(defs, dates, wire, StationBehind(wire, s, gs[0]), gs[1..]);
            ReadAll(defs, dates, wire, s, gs) == ReadRun(rest.station, AnswerTo(defs, dates, wire, s, gs[0]).effects + rest.effects, rest.panicked)
  {
  }

  lemma {:induction false} LostPublishesNothing(gs: seq<ReadGroup>, id: string, v: TagValue)
    ensures !Publishes(AllLost(gs), id, v)
  {
    if gs != [] {
      MarksPublishNothing(IdsOf(gs[0].members), CommLost, id, v);
      LostPublishesNothing(gs[1..], id, v);
    }
  }

  /** The reads leave every value alone, and every tag that some group lists marked as lost. */
  lemma {:induction false} ListedTagsAreLost(defs: Definitions, cells: Cells, gs: seq<ReadGroup>, id: string)
    requires id in cells
    ensures var after := ApplyAll(defs, cells, AllLost(gs));
            && id in after && after[id].value == cells[id].value
            && ((exists k :: 0 <= k < |gs| && ListsTag(gs[k], id)) ==> after[id].quality == CommLost)
            && ((forall k :: 0 <= k < |gs| ==> !ListsTag(gs[k], id)) ==> after[id] == cells[id])
    decreases |gs|
  {
    if gs != [] {
      var next := ApplyAll(defs, cells, Marks(IdsOf(gs[0].members), CommLost));
      MarksMark(defs, cells, IdsOf(gs[0].members), CommLost, id);
      ApplyConcat(defs, cells, Marks(IdsOf(gs[0].members), CommLost), AllLost(gs[1..]));
      StayLost(defs, next, gs[1..], id);
      ListedTagsAreLost(defs, next, gs[1..], id);
      ListedLater(gs, id);
    }
  }

  lemma {:induction false} ListedLater(gs: seq<ReadGroup>, id: string)
    requires gs != []
    ensures (exists k :: 0 <= k < |gs| && ListsTag(gs[k], id)) <==> ListsTag(gs[0], id) || exists k :: 0 <= k < |gs[1..]| && ListsTag(gs[1..][k], id)
  {
    if k :| 0 <= k < |gs[1..]| && ListsTag(gs[1..][k], id) {
      assert ListsTag(gs[k + 1], id);
    }
    if k :| 0 < k < |gs| && ListsTag(gs[k], id) {
      assert ListsTag(gs[1..][k - 1], id);
    }
  }

  lemma {:induction false} StayLost(defs: Definitions, cells: Cells, gs: seq<ReadGroup>, id: string)
    requires id in cells
    ensures cells[id].quality == CommLost ==>
              var after := ApplyAll(defs, cells, AllLost(gs)); id in after && after[id].quality == CommLost
    decreases |gs|
  {
    if gs != [] {
      MarksMark(defs, cells, IdsOf(gs[0].members), CommLost, id);
      ApplyConcat(defs, cells, Marks(IdsOf(gs[0].members), CommLost), AllLost(gs[1..]));
      StayLost(defs, ApplyAll(defs, cells, Marks(IdsOf(gs[0].members), CommLost)), gs[1..], id);
    }
  }

  // ----- writes -----

  /** Texts and byte strings short enough for the length field of a frame. */
  predicate Framed(v: TagValue)
  {
    (v.String? ==> |v.text| < 0x8000_0000) && (v.ByteString? ==> |v.bytes| < 0x8000_0000)
  }

  lemma {:induction false} FramedLength(v: TagValue)
    requires Framed(v)
    ensures |Encode(v)| <= 0x4000_0000
  {
  }

  lemma {:induction false} WriteIsCommand(sid: Byte, m: Mapping, v: TagValue)
    requires Framed(v)
    ensures IsCommand(WriteCommand(sid, m, v), sid)
  {
    FramedLength(v);
    assert |BuildMemoryWrite(AreaCode(m.space), m.address, m.bitOffset, Stored(v, m.order))| == 7 + 2 * |Encode(v)|;
  }

  lemma {:induction false} WriteOutOfStep(ms: seq<Mapping>, wire: Wire, s: Station, req: WriteRequest, shift: nat)
    requires OutOfStep(s, shift) && shift % 0x100 != 0 && AnswersOnce(wire, s.sent) && Framed(req.value)
    ensures var step := WriteOne(ms, wire, s, req); step.outcome.Err? && OutOfStep(step.station, shift) && s.sent <= step.station.sent
  {
    var found := FindMapping(ms, req.tagId);
    if found.Some? && found.value.writable {
      var m := found.value;
      WriteIsCommand(s.sid, m, req.value);
      StaysOutOfStep(wire, s, shift, WriteCommand(s.sid, m, req.value));
      MismatchIsFailure(s.sid, s.Sends(wire, WriteFrame(s.sid, m, req.value)).payload);
      SentWrite(ms, wire, s, req, m);
    }
  }

  lemma {:induction false} SentWrite(ms: seq<Mapping>, wire: Wire, s: Station, req: WriteRequest, m: Mapping)
    requires FindMapping(ms, req.tagId) == Some(m) && m.writable
    ensures var x := s.Sends(wire, WriteFrame(s.sid, m, req.value));
            WriteOne(ms, wire, s, req) == WriteStep(s.After(x), [WriteEffect(req, WriteVerdict(s.sid, x.payload))], WriteVerdict(s.sid, x.payload))
  {
  }

  lemma {:induction false} MismatchIsFailure(sid: Byte, payload: Result<seq<Byte>, IoError>)
    requires payload.Ok? && |payload.value| >= 14 && payload.value[9] != sid
    ensures WriteVerdict(sid, payload) == Err(SidMismatch)
  {
  }

  predicate AllFramed(reqs: seq<WriteRequest>)
  {
    forall k :: 0 <= k < |reqs| ==> Framed(reqs[k].value)
  }

  predicate AllFail(outcomes: seq<WriteOutcome>)
  {
    forall k :: 0 <= k < |outcomes| ==> outcomes[k].Err?
  }

  lemma {:induction false} DrainOutOfStep(ms: seq<Mapping>, wire: Wire, s: Station, reqs: seq<WriteRequest>, shift: nat)
    requires OutOfStep(s, shift) && shift % 0x100 != 0 && AnswersOnceFrom(wire, s.sent) && AllFramed(reqs)
    ensures var run := WriteAll(ms, wire, s, reqs);
            AllFail(run.outcomes) && OutOfStep(run.station, shift) && s.sent <= run.station.sent
    decreases |reqs|
  {
    if reqs != [] {
      var n := |reqs| - 1;
      DrainOutOfStep(ms, wire, s, reqs[..n], shift);
      WriteOutOfStep(ms, wire, WriteAll(ms, wire, s, reqs[..n]).station, reqs[n], shift);
    }
  }

  // ----- whole cycles -----

  ghost predicate PublishesNothing(es: seq<Effect>)
  {
    forall id: string, v: TagValue :: !Publishes(es, id, v)
  }

  /** The cycle confirms no write, publishes no value, and marks every tag its groups list as lost. */
  ghost predicate NothingThrough(run: CycleRun, gs: seq<ReadGroup>)
  {
    && AllFail(run.drained.outcomes) && PublishesNothing(run.drained.effects)
    && run.polled.effects == AllLost(gs) && PublishesNothing(run.polled.effects) && !run.polled.panicked
  }

  lemma {:induction false} CycleOutOfStep(ms: seq<Mapping>, defs: Definitions, dates: DateRange, gs: seq<ReadGroup>, wire: Wire, s: Station,
                                          reqs: seq<WriteRequest>, shift: nat)
    requires OutOfStep(s, shift) && shift % 0x100 != 0 && AnswersOnceFrom(wire, s.sent) && AllFramed(reqs)
    ensures var run := Cycle(ms, defs, dates, gs, wire, s, reqs);
            NothingThrough(run, gs) && OutOfStep(run.polled.station, shift) && s.sent <= run.polled.station.sent
  {
    var drained := WriteAll(ms, wire, s, reqs);
    DrainOutOfStep(ms, wire, s, reqs, shift);
    ReadsOutOfStep(defs, dates, wire, drained.station, gs, shift);
    forall id: string, v: TagValue ensures !Publishes(drained.effects, id, v) && !Publishes(AllLost(gs), id, v) {
      LostPublishesNothing(gs, id, v);
      if Publishes(drained.effects, id, v) {
        var k := PublishedByConfirmedWrite(ms, wire, s, reqs, id, v);
      }
    }
  }

  /** Nothing gets through in any of the cycles that drain these batches one after the other. */
  ghost predicate NothingThroughAll(ms: seq<Mapping>, defs: Definitions, dates: DateRange, gs: seq<ReadGroup>, wire: Wire, s: Station,
                                    batches: seq<seq<WriteRequest>>)
    decreases |batches|
  {
    batches == [] ||
    var run := Cycle(ms, defs, dates, gs, wire, s, batches[0]);
    NothingThrough(run, gs) && NothingThroughAll(ms, defs, dates, gs, wire, run.polled.station, batches[1..])
  }

  /**
   * A stream that is out of step by a shift that 256 does not divide stays so for ever, although the peer
   * answers every request once: over any number of cycles no value is published and no write confirmed.
   */
  lemma {:induction false} OutOfStepForEver(ms: seq<Mapping>, defs: Definitions, dates: DateRange, gs: seq<ReadGroup>, wire: Wire, s: Station,
                                            batches: seq<seq<WriteRequest>>, shift: nat)
    requires OutOfStep(s, shift) && shift % 0x100 != 0 && AnswersOnceFrom(wire, s.sent)
    requires forall k :: 0 <= k < |batches| ==> AllFramed(batches[k])
    ensures NothingThroughAll(ms, defs, dates, gs, wire, s, batches)
    decreases |batches|
  {
    if batches != [] {
      CycleOutOfStep(ms, defs, dates, gs, wire, s, batches[0], shift);
      OutOfStepForEver(ms, defs, dates, gs, wire, Cycle(ms, defs, dates, gs, wire, s, batches[0]).polled.station, batches[1..], shift);
    }
  }
}
