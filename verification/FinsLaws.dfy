/** What every FINS cycle guarantees: only matching replies change values or confirm writes; a faithful device is read exactly. */
module FinsLaws {
  import opened Words
  import opened TagModel
  import opened Codec
  import opened Mappings
  import opened Planner
  import opened Registries
  import opened Scatter
  import opened FinsFrames
  import opened WriteQueues
  import opened FinsCycles

  // ----- session ids against stale replies -----

  /** The reply carries the session id and end code 0. */
  predicate Accepts(sid: Byte, payload: Result<seq<Byte>, IoError>)
  {
    && payload.Ok?
    && var parsed := ParseFinsResponse(payload.value);
       parsed.Ok? && parsed.value.sid == sid && parsed.value.endCode == 0
  }

  lemma {:induction false} VerdictIsAcceptance(sid: Byte, payload: Result<seq<Byte>, IoError>)
    ensures WriteVerdict(sid, payload).Ok? <==> Accepts(sid, payload)
  {
  }

  lemma {:induction false} SuccessfulReply(sid: Byte, replied: Byte, command: (Byte, Byte), data: seq<Byte>)
    ensures WriteVerdict(sid, Ok(BuildResponse(replied, command, 0, data))).Ok? <==> replied == sid
  {
    ResponseParses(replied, command, 0, data);
  }

  /**
   * The successful reply to a request is taken for the reply to a write `lag` requests later exactly
   * when `lag` is a multiple of 256; every other stale reply confirms nothing.
   */
  lemma {:induction false} StaleReplyConfirmsNothing(sid: Byte, lag: nat, command: (Byte, Byte), data: seq<Byte>)
    ensures WriteVerdict(SidAfter(sid, lag), Ok(BuildResponse(sid, command, 0, data))).Ok? <==> lag % 0x100 == 0
  {
    SuccessfulReply(SidAfter(sid, lag), sid, command, data);
    SidsRepeatEvery256(sid, 0, lag);
  }

  // ----- a changed value has an accepted reply behind it -----

  lemma {:induction false} ShortMarksPublishNothing(members: seq<Mapping>, g: ReadGroup, id: string, v: TagValue)
    ensures !Publishes(ShortMarks(members, g), id, v)
  {
    if members != [] {
      ShortMarksPublishNothing(members[1..], g, id, v);
    }
  }

  /** The data part of an accepted reply. */
  function DataOf(payload: seq<Byte>): seq<Byte>
  {
    if |payload| < 14 then [] else payload[14..]
  }

  lemma {:induction false} ResponsePublisher(defs: Definitions, dates: DateRange, g: ReadGroup, sid: Byte, resp: Response, id: string, v: TagValue)
    returns (m: Mapping)
    requires Publishes(OnResponse(defs, dates, g, sid, resp).effects, id, v)
    ensures resp.sid == sid && resp.endCode == 0
    ensures m in g.members && m.tagId == id && DecodedFrom(Fins, dates, m, g, resp.data, v)
  {
    MarksPublishNothing(IdsOf(g.members), CommLost, id, v);
    MarksPublishNothing(IdsOf(g.members), Error(EndCode(resp.endCode)), id, v);
    ShortMarksPublishNothing(g.members, g, id, v);
    UntilPanicIsPrefix(defs, dates, g.members, g, resp.data);
    m := ChunkPublisher(Fins, defs, dates, g.members, g, resp.data, id, v);
  }

  lemma {:induction false} UntilPanicIsPrefix(defs: Definitions, dates: DateRange, members: seq<Mapping>, g: ReadGroup, data: seq<Byte>)
    ensures UntilPanic(defs, dates, members, g, data) <= ChunkEffects(Fins, defs, dates, members, g, data)
  {
    if members != [] {
      UntilPanicIsPrefix(defs, dates, members[1..], g, data);
    }
  }

  // ----- which groups are read, and from where -----

  /** The payload received for group `g` from station `t`. */
  function ReadPayload(wire: Wire, t: Station, g: ReadGroup): Result<seq<Byte>, IoError>
  {
    t.Sends(wire, ReadFrame(t.sid, g)).payload
  }

  /** The quality a payload that ends the reads leaves on its group's tags. */
  function StopQuality(payload: Result<seq<Byte>, IoError>): TagQuality
  {
    if payload.Err? then CommLost
    else
      var parsed := ParseFinsResponse(payload.value);
      if parsed.Err? then Error(ParseFailed) else Error(EndCode(parsed.value.endCode))
  }

  /** No payload, one that is no response, or the refusal of this very request. */
  predicate Fails(sid: Byte, payload: Result<seq<Byte>, IoError>)
  {
    payload.Err? ||
    var parsed := ParseFinsResponse(payload.value);
    parsed.Err? || (parsed.value.sid == sid && parsed.value.endCode != 0)
  }

  /** What ends the reads: a failure, which marks the group's tags, or an accepted reply with a date that panics. */
  lemma {:induction false} WhatEndsReads(defs: Definitions, dates: DateRange, wire: Wire, s: Station, g: ReadGroup)
    ensures var a, p := AnswerTo(defs, dates, wire, s, g), ReadPayload(wire, s, g);
            && (a.next == Stop <==> Fails(s.sid, p))
            && (a.next == Stop ==> a.effects == Marks(IdsOf(g.members), StopQuality(p)))
            && (a.next == Panic <==> Accepts(s.sid, p) && |DataOf(p.value)| >= 2 * g.count
                                     && ChunkPanics(Fins, defs, dates, g.members, g, DataOf(p.value)))
  {
  }

  /** The station behind `k` exchanges of a run, each as `next` says. */
  function StationBehindAll(next: (Station, ReadGroup) -> Station, s: Station, gs: seq<ReadGroup>, k: nat): Station
    requires k <= |gs|
    decreases k
  {
    if k == 0 then s else StationBehindAll(next, next(s, gs[0]), gs[1..], k - 1)
  }

  /** The answers to a run of groups, one a group, up to the first behind which the reads do not go on. */
  function Trace(answer: (Station, ReadGroup) -> Answered, next: (Station, ReadGroup) -> Station, s: Station, gs: seq<ReadGroup>): (r: seq<Answered>)
    ensures |r| <= |gs|
    decreases |gs|
  {
    if gs == [] then []
    else if answer(s, gs[0]).next == GoOn then [answer(s, gs[0])] + Trace(answer, next, next(s, gs[0]), gs[1..])
    else [answer(s, gs[0])]
  }

  lemma {:induction false} TraceAt(answer: (Station, ReadGroup) -> Answered, next: (Station, ReadGroup) -> Station, s: Station,
                                   gs: seq<ReadGroup>, k: nat)
    requires k < |Trace(answer, next, s, gs)|
    ensures Trace(answer, next, s, gs)[k] == answer(StationBehindAll(next, s, gs, k), gs[k])
    decreases k
  {
    if k > 0 {
      TraceAt(answer, next, next(s, gs[0]), gs[1..], k - 1);
    }
  }

  function Exchanges(wire: Wire): (Station, ReadGroup) -> Station
  {
    (t: Station, g: ReadGroup) => StationBehind(wire, t, g)
  }

  function Answers(defs: Definitions, dates: DateRange, wire: Wire): (Station, ReadGroup) -> Answered
  {
    (t: Station, g: ReadGroup) => AnswerTo(defs, dates, wire, t, g)
  }

  /** The station from which group `k` is read, if the reads come that far. */
  function StationAt(wire: Wire, s: Station, gs: seq<ReadGroup>, k: nat): Station
    requires k <= |gs|
  {
    StationBehindAll(Exchanges(wire), s, gs, k)
  }

  /** The answers the run receives. */
  function AnswersOf(defs: Definitions, dates: DateRange, wire: Wire, s: Station, gs: seq<ReadGroup>): (r: seq<Answered>)
    ensures |r| <= |gs|
  {
    Trace(Answers(defs, dates, wire), Exchanges(wire), s, gs)
  }

  /** Answer `k` is the one to group `k`, from its own station of the run. */
  lemma {:induction false} AnswerIsOfGroup(defs: Definitions, dates: DateRange, wire: Wire, s: Station, gs: seq<ReadGroup>, k: nat)
    requires k < |AnswersOf(defs, dates, wire, s, gs)|
    ensures AnswersOf(defs, dates, wire, s, gs)[k] == AnswerTo(defs, dates, wire, StationAt(wire, s, gs, k), gs[k])
  {
    TraceAt(Answers(defs, dates, wire), Exchanges(wire), s, gs, k);
  }

  function EffectsOf(answers: seq<Answered>): seq<Effect>
  {
    if answers == [] then [] else answers[0].effects + EffectsOf(answers[1..])
  }

  predicate EndsWith(answers: seq<Answered>, why: Next)
  {
    answers != [] && answers[|answers| - 1].next == why
  }

  /** The reads do what their answers do, and panic exactly if the last answer does. */
  lemma {:induction false} ReadsAreAnswers(defs: Definitions, dates: DateRange, wire: Wire, s: Station, gs: seq<ReadGroup>)
    ensures var run, answers := ReadAll(defs, dates, wire, s, gs), AnswersOf(defs, dates, wire, s, gs);
            run.effects == EffectsOf(answers) && (run.panicked <==> EndsWith(answers, Panic))
    decreases |gs|
  {
    if gs != [] {
      var first, t := AnswerTo(defs, dates, wire, s, gs[0]), StationBehind(wire, s, gs[0]);
      if first.next == GoOn {
        ReadsAreAnswers(defs, dates, wire, t, gs[1..]);
        OneMoreAnswer(first, AnswersOf(defs, dates, wire, t, gs[1..]));
      } else {
        OneMoreAnswer(first, []);
        assert [first] + [] == [first];
      }
    }
  }

  lemma {:induction false} OneMoreAnswer(first: Answered, rest: seq<Answered>)
    ensures EffectsOf([first] + rest) == first.effects + EffectsOf(rest) && (rest == [] ==> EffectsOf([first] + rest) == first.effects)
    ensures EndsWith([first] + rest, Panic) <==> if rest == [] then first.next == Panic else EndsWith(rest, Panic)
  {
    assert ([first] + rest)[1..] == rest && first.effects + [] == first.effects;
  }

  lemma {:induction false} LastAnswer(answers: seq<Answered>)
    requires answers != []
    ensures EffectsOf(answers) == EffectsOf(answers[..|answers| - 1]) + answers[|answers| - 1].effects
  {
    if |answers| > 1 {
      LastAnswer(answers[1..]);
      var mid := answers[1..][..|answers| - 2];
      assert mid == answers[..|answers| - 1][1..];
      Associate(answers[0].effects, EffectsOf(mid), answers[|answers| - 1].effects);
    } else {
      assert answers[1..] == [] && answers[..0] == [];
      assert answers[0].effects + [] == [] + answers[0].effects;
    }
  }

  lemma {:induction false} SomeAnswerPublishes(answers: seq<Answered>, id: string, v: TagValue) returns (k: nat)
    requires Publishes(EffectsOf(answers), id, v)
    ensures k < |answers| && Publishes(answers[k].effects, id, v)
  {
    if Publishes(answers[0].effects, id, v) {
      k := 0;
    } else {
      var later := SomeAnswerPublishes(answers[1..], id, v);
      k := later + 1;
    }
  }

  lemma {:induction false} NoAnswerConcerns(answers: seq<Answered>, id: string)
    requires forall k :: 0 <= k < |answers| ==> Own(answers[k].effects, id) == []
    ensures Own(EffectsOf(answers), id) == []
  {
    if answers != [] {
      NoAnswerConcerns(answers[1..], id);
      OwnConcat(answers[0].effects, EffectsOf(answers[1..]), id);
    }
  }

  /** Station `t` follows `s` in a run: exchanges and session ids are counted alike. */
  predicate Follows(s: Station, t: Station)
  {
    s.sent <= t.sent && t.sid == SidAfter(s.sid, t.sent - s.sent)
  }

  /** Group `g`, read at station `t`, gave `v` for tag `id` by an accepted reply. */
  ghost predicate ReadGave(dates: DateRange, wire: Wire, t: Station, g: ReadGroup, m: Mapping, v: TagValue)
  {
    && m in g.members
    && Accepts(t.sid, ReadPayload(wire, t, g))
    && DecodedFrom(Fins, dates, m, g, DataOf(ReadPayload(wire, t, g).value), v)
  }

  /** Group `k` of the run from `s`, read from its own station of that run, gave `v` to mapping `m` by an accepted reply. */
  ghost predicate RunGave(defs: Definitions, dates: DateRange, wire: Wire, s: Station, gs: seq<ReadGroup>, k: nat, m: Mapping, v: TagValue)
  {
    && k < |AnswersOf(defs, dates, wire, s, gs)|
    && ReadGave(dates, wire, StationAt(wire, s, gs, k), gs[k], m, v)
  }

  /** Some group of the run from `s` gave `v` to tag `id` by an accepted reply received in that run. */
  ghost predicate AcceptedRead(defs: Definitions, dates: DateRange, wire: Wire, s: Station, gs: seq<ReadGroup>, id: string, v: TagValue)
  {
    exists k: nat, m: Mapping :: m.tagId == id && RunGave(defs, dates, wire, s, gs, k, m, v)
  }

  /**
   * Whatever the network does, a value published by the reads of a cycle was decoded from what the run
   * received for the very group, a reply with the session id of its request and end code 0.
   */
  lemma {:induction false} PublishedByAcceptedReply(defs: Definitions, dates: DateRange, wire: Wire, s: Station, gs: seq<ReadGroup>,
                                                    id: string, v: TagValue)
    requires Publishes(ReadAll(defs, dates, wire, s, gs).effects, id, v)
    ensures AcceptedRead(defs, dates, wire, s, gs, id, v)
  {
    ReadsAreAnswers(defs, dates, wire, s, gs);
    var k := SomeAnswerPublishes(AnswersOf(defs, dates, wire, s, gs), id, v);
    AnswerIsOfGroup(defs, dates, wire, s, gs, k);
    var m := StepPublisher(defs, dates, wire, StationAt(wire, s, gs, k), gs[k], id, v);
    assert RunGave(defs, dates, wire, s, gs, k, m, v);
  }

  /** The run's stations count exchanges and session ids on. */
  lemma {:induction false} StationsFollow(wire: Wire, s: Station, gs: seq<ReadGroup>, k: nat)
    requires k <= |gs|
    ensures var t := StationAt(wire, s, gs, k); t.sent == s.sent + k && t.sid == SidAfter(s.sid, k)
    decreases k
  {
    if k > 0 {
      StepCounts(wire, s, gs[0]);
      StationsFollow(wire, StationBehind(wire, s, gs[0]), gs[1..], k - 1);
    }
  }

  lemma {:induction false} StepCounts(wire: Wire, s: Station, g: ReadGroup)
    ensures var next := StationBehind(wire, s, g); next.sid == NextSid(s.sid) && next.sent == s.sent + 1
  {
  }

  lemma {:induction false} StepPublisher(defs: Definitions, dates: DateRange, wire: Wire, s: Station, g: ReadGroup, id: string, v: TagValue)
    returns (m: Mapping)
    requires Publishes(AnswerTo(defs, dates, wire, s, g).effects, id, v)
    ensures m.tagId == id && ReadGave(dates, wire, s, g, m, v)
  {
    var p := ReadPayload(wire, s, g);
    if p.Err? {
      MarksPublishNothing(IdsOf(g.members), CommLost, id, v);
    } else {
      var parsed := ParseFinsResponse(p.value);
      if parsed.Err? {
        MarksPublishNothing(IdsOf(g.members), Error(ParseFailed), id, v);
      } else {
        m := ResponsePublisher(defs, dates, g, s.sid, parsed.value, id, v);
      }
    }
  }

  /** Write request `req`, sent from station `t`, was acknowledged with the request's own session id. */
  ghost predicate Acknowledged(ms: seq<Mapping>, wire: Wire, t: Station, req: WriteRequest)
  {
    var found := FindMapping(ms, req.tagId);
    && found.Some? && found.value.writable
    && Accepts(t.sid, t.Sends(wire, WriteFrame(t.sid, found.value, req.value)).payload)
  }

  lemma {:induction false} WriteOneAcknowledged(ms: seq<Mapping>, wire: Wire, s: Station, req: WriteRequest)
    ensures WriteOne(ms, wire, s, req).outcome.Ok? <==> Acknowledged(ms, wire, s, req)
    ensures forall id, v :: Publishes(WriteOne(ms, wire, s, req).effects, id, v) ==>
              Acknowledged(ms, wire, s, req) && id == req.tagId && v == req.value
  {
    var found := FindMapping(ms, req.tagId);
    if found.Some? {
      var k :| 0 <= k < |ms| && ms[k] == found.value;
      VerdictIsAcceptance(s.sid, s.Sends(wire, WriteFrame(s.sid, found.value, req.value)).payload);
    }
  }

  lemma {:induction false} SidSucceeds(sid: Byte, k: nat)
    ensures NextSid(SidAfter(sid, k)) == SidAfter(sid, k + 1)
    decreases k
  {
    if k > 0 {
      SidSucceeds(NextSid(sid), k - 1);
    }
  }

  lemma {:induction false} NextFollows(s: Station, t: Station, next: Station)
    requires Follows(s, t) && next.sid == NextSid(t.sid) && next.sent == t.sent + 1
    ensures Follows(s, next)
  {
    SidSucceeds(s.sid, t.sent - s.sent);
  }

  lemma {:induction false} WriteStationFollows(ms: seq<Mapping>, wire: Wire, s: Station, t: Station, req: WriteRequest)
    requires Follows(s, t)
    ensures Follows(s, WriteOne(ms, wire, t, req).station)
  {
    var next := WriteOne(ms, wire, t, req).station;
    if next != t {
      NextFollows(s, t, next);
    }
  }

  /** A write is answered with success exactly when its own request was acknowledged, in the order of the queue. */
  lemma {:induction false} ConfirmedByAcceptedReply(ms: seq<Mapping>, wire: Wire, s: Station, reqs: seq<WriteRequest>, k: nat)
    returns (t: Station)
    requires k < |reqs|
    ensures Follows(s, t) && t == WriteAll(ms, wire, s, reqs[..k]).station
    ensures WriteAll(ms, wire, s, reqs).outcomes[k].Ok? <==> Acknowledged(ms, wire, t, reqs[k])
  {
    var init := reqs[..|reqs| - 1];
    if k < |init| {
      t := ConfirmedByAcceptedReply(ms, wire, s, init, k);
      assert init[..k] == reqs[..k];
    } else {
      t := WriteAll(ms, wire, s, init).station;
      WritesFollow(ms, wire, s, init);
      WriteOneAcknowledged(ms, wire, t, reqs[k]);
    }
  }

  lemma {:induction false} WritesFollow(ms: seq<Mapping>, wire: Wire, s: Station, reqs: seq<WriteRequest>)
    ensures Follows(s, WriteAll(ms, wire, s, reqs).station)
  {
    if reqs != [] {
      WritesFollow(ms, wire, s, reqs[..|reqs| - 1]);
      WriteStationFollows(ms, wire, s, WriteAll(ms, wire, s, reqs[..|reqs| - 1]).station, reqs[|reqs| - 1]);
    }
  }

  /** A value published by the writes of a cycle is that of a confirmed request. */
  lemma {:induction false} PublishedByConfirmedWrite(ms: seq<Mapping>, wire: Wire, s: Station, reqs: seq<WriteRequest>, id: string, v: TagValue)
    returns (k: nat)
    requires Publishes(WriteAll(ms, wire, s, reqs).effects, id, v)
    ensures k < |reqs| && reqs[k].tagId == id && reqs[k].value == v && WriteAll(ms, wire, s, reqs).outcomes[k].Ok?
    decreases |reqs|
  {
    var init := reqs[..|reqs| - 1];
    if Publishes(WriteAll(ms, wire, s, init).effects, id, v) {
      k := PublishedByConfirmedWrite(ms, wire, s, init, id, v);
    } else {
      k := |reqs| - 1;
      WriteOneAcknowledged(ms, wire, WriteAll(ms, wire, s, init).station, reqs[k]);
    }
  }

  /** Some request of the cycle wrote `v` to tag `id` and was confirmed. */
  ghost predicate ConfirmedWrite(run: CycleRun, reqs: seq<WriteRequest>, id: string, v: TagValue)
    requires |run.drained.outcomes| == |reqs|
  {
    exists k :: 0 <= k < |reqs| && run.drained.outcomes[k].Ok? && reqs[k].tagId == id && reqs[k].value == v
  }

  /**
   * Over a whole cycle and any network behaviour, a tag's value changes only to the value of a write
   * whose own acknowledgement arrived, or to what a reply, received in the run for one of its own groups
   * with that request's session id and end code 0, decodes to.
   */
  lemma {:induction false} OnlyAcceptedRepliesChangeValues(ms: seq<Mapping>, defs: Definitions, dates: DateRange, gs: seq<ReadGroup>,
                                                           wire: Wire, s: Station,
                                                           reqs: seq<WriteRequest>, cells: Cells, id: string)
    requires id in cells
    ensures var run := Cycle(ms, defs, dates, gs, wire, s, reqs);
            var after := ApplyAll(defs, cells, run.drained.effects + run.polled.effects);
            && id in after
            && (after[id].value == cells[id].value
                || ConfirmedWrite(run, reqs, id, after[id].value)
                || AcceptedRead(defs, dates, wire, run.drained.station, gs, id, after[id].value))
  {
    var run := Cycle(ms, defs, dates, gs, wire, s, reqs);
    var es := run.drained.effects + run.polled.effects;
    ValueComesFromPublish(defs, cells, es, id);
    var v := ApplyAll(defs, cells, es)[id].value;
    if Publishes(run.drained.effects, id, v) {
      var k := PublishedByConfirmedWrite(ms, wire, Opened(s), reqs, id, v);
    } else if Publishes(run.polled.effects, id, v) {
      PublishedByAcceptedReply(defs, dates, wire, run.drained.station, gs, id, v);
    }
  }

  // ----- a failed group ends the reads -----

  /** The reads end behind group `k`, as `why` says. */
  predicate EndsAt(defs: Definitions, dates: DateRange, wire: Wire, s: Station, gs: seq<ReadGroup>, k: nat, why: Next)
  {
    |AnswersOf(defs, dates, wire, s, gs)| == k + 1 && AnswersOf(defs, dates, wire, s, gs)[k].next == why
  }

  /** Group `k` is the last one read, and what was accepted for it from its own station holds a date that panics. */
  ghost predicate PanicsAt(defs: Definitions, dates: DateRange, wire: Wire, s: Station, gs: seq<ReadGroup>, k: nat)
  {
    && |AnswersOf(defs, dates, wire, s, gs)| == k + 1
    && var t := StationAt(wire, s, gs, k);
       var p := ReadPayload(wire, t, gs[k]);
       && Accepts(t.sid, p) && |DataOf(p.value)| >= 2 * gs[k].count
       && ChunkPanics(Fins, defs, dates, gs[k].members, gs[k], DataOf(p.value))
  }

  /** On any network the reads end in a panic exactly if the reply that the last group of the run accepts holds a date that panics. */
  lemma {:induction false} PanicHasGroup(defs: Definitions, dates: DateRange, wire: Wire, s: Station, gs: seq<ReadGroup>)
    ensures ReadAll(defs, dates, wire, s, gs).panicked <==> exists k: nat :: PanicsAt(defs, dates, wire, s, gs, k)
  {
    ReadsAreAnswers(defs, dates, wire, s, gs);
    var n := |AnswersOf(defs, dates, wire, s, gs)|;
    if n > 0 {
      LastPanics(defs, dates, wire, s, gs, n - 1);
    }
  }

  lemma {:induction false} LastPanics(defs: Definitions, dates: DateRange, wire: Wire, s: Station, gs: seq<ReadGroup>, k: nat)
    requires |AnswersOf(defs, dates, wire, s, gs)| == k + 1
    ensures PanicsAt(defs, dates, wire, s, gs, k) <==> EndsWith(AnswersOf(defs, dates, wire, s, gs), Panic)
  {
    AnswerIsOfGroup(defs, dates, wire, s, gs, k);
    WhatEndsReads(defs, dates, wire, StationAt(wire, s, gs, k), gs[k]);
  }

  /** No group before group `k` lists the tag. */
  predicate UnlistedBefore(gs: seq<ReadGroup>, k: nat, id: string)
  {
    forall i :: 0 <= i < k && i < |gs| ==> !ListsTag(gs[i], id)
  }

  /** Group `k` fails: its tags end with the quality of the failure, so none of them is good. */
  lemma {:induction false} StoppedReads(defs: Definitions, dates: DateRange, wire: Wire, s: Station, gs: seq<ReadGroup>, k: nat,
                                        cells: Cells, id: string)
    requires EndsAt(defs, dates, wire, s, gs, k, Stop) && id in cells && ListsTag(gs[k], id)
    ensures var after := ApplyAll(defs, cells, ReadAll(defs, dates, wire, s, gs).effects);
            && id in after
            && after[id].quality == StopQuality(ReadPayload(wire, StationAt(wire, s, gs, k), gs[k])) != Good
  {
    var answers, t := AnswersOf(defs, dates, wire, s, gs), StationAt(wire, s, gs, k);
    ReadsAreAnswers(defs, dates, wire, s, gs);
    AnswerIsOfGroup(defs, dates, wire, s, gs, k);
    WhatEndsReads(defs, dates, wire, t, gs[k]);
    MarkedLast(defs, cells, answers, IdsOf(gs[k].members), StopQuality(ReadPayload(wire, t, gs[k])), id);
  }

  lemma {:induction false} MarkedLast(defs: Definitions, cells: Cells, answers: seq<Answered>, ids: seq<string>, q: TagQuality, id: string)
    requires answers != [] && answers[|answers| - 1].effects == Marks(ids, q) && id in ids && id in cells
    ensures var after := ApplyAll(defs, cells, EffectsOf(answers)); id in after && after[id].quality == q
  {
    var before := EffectsOf(answers[..|answers| - 1]);
    LastAnswer(answers);
    ApplyConcat(defs, cells, before, Marks(ids, q));
    OnlyOwnEffectsMatter(defs, cells, before, id);
    MarksMark(defs, ApplyAll(defs, cells, before), ids, q, id);
  }

  /** Group `k` fails or panics: tags that no group up to it lists stay exactly as they were. */
  lemma {:induction false} LaterTagsStay(defs: Definitions, dates: DateRange, wire: Wire, s: Station, gs: seq<ReadGroup>, k: nat,
                                         cells: Cells, why: Next, id: string)
    requires EndsAt(defs, dates, wire, s, gs, k, why) && id in cells && UnlistedBefore(gs, k + 1, id)
    ensures var after := ApplyAll(defs, cells, ReadAll(defs, dates, wire, s, gs).effects); id in after && after[id] == cells[id]
  {
    var answers := AnswersOf(defs, dates, wire, s, gs);
    forall i | 0 <= i < |answers| ensures Own(answers[i].effects, id) == [] {
      AnswerIsOfGroup(defs, dates, wire, s, gs, i);
      UnlistedTag(defs, dates, wire, StationAt(wire, s, gs, i), gs[i], id);
    }
    NoAnswerConcerns(answers, id);
    ReadsAreAnswers(defs, dates, wire, s, gs);
    OnlyOwnEffectsMatter(defs, cells, EffectsOf(answers), id);
  }

  /** A group has no effect on a tag it does not list. */
  lemma {:induction false} UnlistedTag(defs: Definitions, dates: DateRange, wire: Wire, s: Station, g: ReadGroup, id: string)
    requires !ListsTag(g, id)
    ensures Own(AnswerTo(defs, dates, wire, s, g).effects, id) == []
  {
    IdsOfMembers(g.members, id);
    var p := ReadPayload(wire, s, g);
    OwnOfMarks(IdsOf(g.members), CommLost, id);
    if p.Ok? {
      UnlistedAnswer(defs, dates, g, s.sid, p.value, id);
    }
  }

  lemma {:induction false} UnlistedAnswer(defs: Definitions, dates: DateRange, g: ReadGroup, sid: Byte, payload: seq<Byte>, id: string)
    requires NoOwner(id, g.members) && !ListsTag(g, id)
    ensures Own(OnAnswer(defs, dates, g, sid, payload).effects, id) == []
  {
    var parsed := ParseFinsResponse(payload);
    if parsed.Err? {
      OwnOfMarks(IdsOf(g.members), Error(ParseFailed), id);
    } else {
      OwnOfMarks(IdsOf(g.members), CommLost, id);
      OwnOfMarks(IdsOf(g.members), Error(EndCode(parsed.value.endCode)), id);
      OwnOfShortMarks(g.members, g, id);
      OthersUntilPanic(defs, dates, id, g.members, g, parsed.value.data);
    }
  }

  lemma {:induction false} OthersUntilPanic(defs: Definitions, dates: DateRange, id: string, members: seq<Mapping>, g: ReadGroup, data: seq<Byte>)
    requires NoOwner(id, members)
    ensures Own(UntilPanic(defs, dates, members, g, data), id) == []
  {
    if members != [] && !MemberPanics(Fins, defs, dates, members[0], g, data) {
      OthersUntilPanic(defs, dates, id, members[1..], g, data);
      ChunkEffectIsOwn(Fins, defs, dates, members[0], g, data, id);
      OwnConcat(ChunkEffect(Fins, defs, dates, members[0], g, data), UntilPanic(defs, dates, members[1..], g, data), id);
    }
  }

  lemma {:induction false} OwnOfShortMarks(members: seq<Mapping>, g: ReadGroup, id: string)
    requires NoOwner(id, members)
    ensures Own(ShortMarks(members, g), id) == []
  {
    if members != [] {
      OwnOfShortMarks(members[1..], g, id);
      OwnConcat(if Touches(members[0], g) then [Mark(members[0].tagId, Error(ShortPayload))] else [], ShortMarks(members[1..], g), id);
    }
  }
}
