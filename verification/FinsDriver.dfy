/** The FINS driver object: planning, polling, scattering and write draining, step by step. */
module FinsDrivers {
  import opened Words
  import opened WordOrders
  import opened TagModel
  import opened Codec
  import opened Mappings
  import opened Planner
  import opened Validation
  import opened Registries
  import opened Scatter
  import opened GroupedReads
  import opened RoundTrip
  import opened FinsFrames
  import opened WriteQueues
  import opened FinsCycles

  datatype FinsConfig = FinsConfig(mappings: seq<Mapping>, maxWords: U32, dates: DateRange)
  {
    /** What the planner's unchecked arithmetic relies on. */
    ghost predicate Sound()
    {
      InAreas(mappings) && Plannable(mappings, 0xFFFF_FFFF) && 1 <= maxWords <= 0xFFFF
    }
  }

  /** The areas that have mappings, from code `c` up (the iteration order of an ordered map). */
  function AreasFrom(ms: seq<Mapping>, c: nat): seq<Space>
    decreases 0x100 - c
  {
    if c >= 0x100 then []
    else (if InSpace(ms, Area(c)) != [] then [Area(c)] else []) + AreasFrom(ms, c + 1)
  }

  /** Mappings whose addresses fit the scatter's u32 arithmetic. */
  predicate MembersFit(ms: seq<Mapping>)
  {
    Plannable(ms, 0xFFFF_FFFF)
  }

  predicate GroupsFit(gs: seq<ReadGroup>)
  {
    AllSendable(gs) && forall i :: 0 <= i < |gs| ==> MembersFit(gs[i].members)
  }

  lemma {:induction false} PlanOfNextArea(ms: seq<Mapping>, c: nat, max: nat)
    requires c < 0x100 && max >= 1
    ensures FullPlan(AreasFrom(ms, c), ms, max) ==
            (if InSpace(ms, Area(c)) != [] then SpacePlan(Area(c), ms, max) else []) + FullPlan(AreasFrom(ms, c + 1), ms, max)
  {
    var rest := AreasFrom(ms, c + 1);
    if InSpace(ms, Area(c)) != [] {
      assert ([Area(c)] + rest)[1..] == rest;
    } else {
      assert [] + rest == rest;
      assert [] + FullPlan(rest, ms, max) == FullPlan(rest, ms, max);
    }
  }

  /** The groups of the areas from code `c` up. */
  ghost function PlanFrom(config: FinsConfig, c: nat): seq<ReadGroup>
    requires config.Sound()
  {
    FullPlan(AreasFrom(config.mappings, c), config.mappings, config.maxWords)
  }

  /** Precompute the read groups, area by area. */
  method PlanAreas(config: FinsConfig) returns (groups: seq<ReadGroup>)
    requires config.Sound()
    ensures groups == FullPlan(AreasFrom(config.mappings, 0), config.mappings, config.maxWords)
  {
    var byArea := GroupBySpace(config.mappings);
    groups := [];
    Neutral(PlanFrom(config, 0));
    for c := 0 to 0x100
      invariant groups + PlanFrom(config, c) == PlanFrom(config, 0)
    {
      PlanOfNextArea(config.mappings, c, config.maxWords);
      Neutral(PlanFrom(config, c + 1));
      if Area(c) in byArea {
        var chunks := PlanArea(config, c, byArea[Area(c)]);
        Associate(groups, chunks, PlanFrom(config, c + 1));
        groups := groups + chunks;
      }
    }
    assert PlanFrom(config, 0x100) == [];
    Neutral(groups);
  }

  method PlanArea(config: FinsConfig, code: Byte, own: seq<Mapping>) returns (groups: seq<ReadGroup>)
    requires config.Sound() && own == InSpace(config.mappings, Area(code))
    ensures groups == SpacePlan(Area(code), config.mappings, config.maxWords)
  {
    OwnIsPlannable(config.mappings, Area(code), 0xFFFF_FFFF);
    SortedIsPlannable(own, 0xFFFF_FFFF);
    groups := PlanTwoIndex(Area(code), SortByAddress(own), config.maxWords);
  }

  /** Every planned group fits a request, and its mappings the scatter's arithmetic. */
  lemma {:induction false} PlannedGroupsFit(config: FinsConfig, areas: seq<Space>)
    requires config.Sound() && forall i :: 0 <= i < |areas| ==> areas[i].Area?
    ensures GroupsFit(FullPlan(areas, config.mappings, config.maxWords))
  {
    if areas != [] {
      PlannedGroupsFit(config, areas[1..]);
      var first := SpacePlan(areas[0], config.mappings, config.maxWords);
      forall i | 0 <= i < |first| ensures Sendable(first[i]) && MembersFit(first[i].members) {
        AreaGroupFits(config, areas[0], i);
      }
      var rest := FullPlan(areas[1..], config.mappings, config.maxWords);
      JoinFitting(first, rest);
    }
  }

  lemma {:induction false} JoinFitting(a: seq<ReadGroup>, b: seq<ReadGroup>)
    requires GroupsFit(b) && forall i :: 0 <= i < |a| ==> Sendable(a[i]) && MembersFit(a[i].members)
    ensures GroupsFit(a + b)
  {
  }

  lemma {:induction false} AreaGroupFits(config: FinsConfig, area: Space, i: nat)
    requires config.Sound() && area.Area? && i < |SpacePlan(area, config.mappings, config.maxWords)|
    ensures var g := SpacePlan(area, config.mappings, config.maxWords)[i]; Sendable(g) && MembersFit(g.members)
  {
    var own := InSpace(config.mappings, area);
    var gs := SpacePlan(area, config.mappings, config.maxWords);
    OwnIsPlannable(config.mappings, area, 0xFFFF_FFFF);
    PlanReadsMappedWordsOnce(area, own, config.maxWords, 0xFFFF_FFFF);
    var last := gs[i].start + gs[i].count - 1;
    assert gs[i].Reads(last);
    assert ReadBy(gs, last);
    forall k | 0 <= k < |gs[i].members| ensures gs[i].members[k].count >= 1 && gs[i].members[k].End() <= 0xFFFF_FFFF {
      PlanMembers(area, own, config.maxWords, 0xFFFF_FFFF, i, gs[i].members[k]);
    }
  }

  lemma {:induction false} AreasAreAreas(ms: seq<Mapping>, c: nat)
    ensures forall i :: 0 <= i < |AreasFrom(ms, c)| ==> AreasFrom(ms, c)[i].Area?
    decreases 0x100 - c
  {
    if c < 0x100 {
      AreasAreAreas(ms, c + 1);
    }
  }

  /** Areas, each with a code above the one before, the first not below `c`. */
  predicate CodesAscend(areas: seq<Space>, c: nat)
  {
    areas == [] || (areas[0].Area? && c <= areas[0].code && CodesAscend(areas[1..], areas[0].code + 1))
  }

  lemma {:induction false} AreasAscend(ms: seq<Mapping>, c: nat)
    ensures CodesAscend(AreasFrom(ms, c), c)
    decreases 0x100 - c
  {
    if c < 0x100 {
      AreasAscend(ms, c + 1);
      Neutral(AreasFrom(ms, c + 1));
      assert ([Area(c)] + AreasFrom(ms, c + 1))[1..] == AreasFrom(ms, c + 1);
    }
  }

  lemma {:induction false} NotBelow(areas: seq<Space>, c: nat, s: Space)
    requires CodesAscend(areas, c) && s in areas
    ensures s.Area? && s.code >= c
  {
    if s != areas[0] {
      NotBelow(areas[1..], areas[0].code + 1, s);
    }
  }

  /** The areas are those with a mapping. */
  lemma {:induction false} AreasAreMapped(ms: seq<Mapping>, c: nat, s: Space)
    requires s.Area? && s.code >= c
    ensures s in AreasFrom(ms, c) <==> exists m :: m in ms && m.space == s
    decreases 0x100 - c
  {
    if s.code > c {
      AreasAreMapped(ms, c + 1, s);
    } else {
      assert s == Area(c);
      InSpaceMembers(ms, s);
      var own := InSpace(ms, s);
      assert own != [] ==> own[0] in own;
      AreasAscend(ms, c + 1);
      if s in AreasFrom(ms, c + 1) {
        NotBelow(AreasFrom(ms, c + 1), c + 1, s);
      }
    }
  }

  class FinsDriver {
    const config: FinsConfig
    const registry: TagRegistry
    const readGroups: seq<ReadGroup>
    var conn: Link
    var sidCounter: Byte
    var sent: nat
    var queue: seq<WriteRequest>
    var replies: seq<Reply>

    ghost predicate Valid()
      reads this, registry, registry.tags
    {
      config.Sound() && registry.Valid() && GroupsFit(readGroups)
    }

    function Now(): Station
      reads this
    {
      Station(conn, sidCounter, sent)
    }

    constructor (config: FinsConfig, registry: TagRegistry)
      requires config.Sound() && registry.Valid()
      ensures Valid() && this.config == config && this.registry == registry
      ensures readGroups == FullPlan(AreasFrom(config.mappings, 0), config.mappings, config.maxWords)
      ensures Now() == Station(Down, 1, 0) && queue == [] && replies == []
    {
      this.config, this.registry := config, registry;
      conn, sidCounter, sent, queue, replies := Down, 1, 0, [], [];
      var groups := PlanAreas(config);
      AreasAreAreas(config.mappings, 0);
      PlannedGroupsFit(config, AreasFrom(config.mappings, 0));
      readGroups := groups;
    }

    /** Queue a write; a full queue refuses it. */
    method Enqueue(req: WriteRequest) returns (accepted: bool)
      modifies this`queue
      ensures accepted <==> |old(queue)| < 256
      ensures queue == if accepted then old(queue) + [req] else old(queue)
    {
      accepted := |queue| < QUEUE_CAPACITY;
      if accepted {
        queue := queue + [req];
      }
    }

    /** Take the next session id. */
    method TakeSid() returns (sid: Byte)
      modifies this`sidCounter
      ensures sid == old(sidCounter) && sidCounter == NextSid(sid)
    {
      sid := sidCounter;
      sidCounter := (sidCounter + 1) % 0x100;
    }

    /** Send one frame and read one, reconnecting first if needed; the stream is put back unless it failed. */
    method Transact(wire: Wire, request: seq<Byte>) returns (payload: Result<seq<Byte>, IoError>)
      modifies this`conn, this`sent
      ensures sent == old(sent) + 1
      ensures Exchanged(conn, payload) == Exchange(old(conn), wire(old(sent), request))
    {
      var ev := wire(sent, request);
      sent := sent + 1;
      var stream := conn;
      conn := Down;
      if stream.Down? {
        if !ev.connects {
          return Err(ConnectFailed);
        }
        stream := Up([]);
      }
      if !ev.sends {
        return Err(StreamFailed);
      }
      var frame := Deframe(stream.unread + ev.arrives);
      if frame.Err? {
        return Err(StreamFailed);
      }
      conn := Up(frame.value.rest);
      payload := Ok(frame.value.payload);
    }
 
    // ----- reads -----

    /** Decode a mapping's bytes and publish the value; `DatePanics` is a panic of the caller too. */
    method DecodeAndUpdateTag(m: Mapping, data: seq<Byte>) returns (r: Result<(), DecodeError>)
      requires Valid()
      modifies registry.tags
      ensures Valid()
      ensures r.Ok? <==> m.tagId in registry.definitions && DecodeAs(Fins, m, data, config.dates).Ok?
      ensures r == Err(DatePanics) <==> PiecePanics(Fins, registry.definitions, config.dates, m, data)
      ensures registry.Cells() ==
              if r.Ok? then Apply(registry.definitions, old(registry.Cells()), PieceEffect(Fins, registry.definitions, config.dates, m, data))
              else old(registry.Cells())
    {
      var ordered := ApplyByteOrder(data, m.order);
      if m.tagId !in registry.definitions {
        return Err(NotEnoughData);
      }
      var decoded := DecodeFins(m.dataType, ordered, m.bitOffset, config.dates);
      if decoded.Err? {
        return Err(decoded.error);
      }
      registry.Perform(Publish(m.tagId, decoded.value));
      r := Ok(());
    }

    /** Cut one mapping's slice out of a chunk's data and decode it. */
    method ScatterOne(m: Mapping, g: ReadGroup, data: seq<Byte>) returns (panicked: bool)
      requires Valid() && Sendable(g) && m.count >= 1 && m.End() <= 0xFFFF_FFFF
      modifies registry.tags
      ensures Valid()
      ensures panicked == MemberPanics(Fins, registry.definitions, config.dates, m, g, data)
      ensures registry.Cells() ==
              if panicked then old(registry.Cells())
              else ApplyAll(registry.definitions, old(registry.Cells()), ChunkEffect(Fins, registry.definitions, config.dates, m, g, data))
    {
      panicked := false;
      var chunkStart: U32, chunkEnd: U32 := g.start, g.start + g.count - 1;
      var mapStart: U32, mapEnd: U32 := m.address, m.address + m.count - 1;
      if mapEnd < chunkStart || mapStart > chunkEnd {
        return;
      }
      var overlapStart, overlapEnd := Max(mapStart, chunkStart), Min(mapEnd, chunkEnd);
      var offBytes, lenBytes := 2 * (overlapStart - chunkStart), 2 * (overlapEnd - overlapStart + 1);
      if offBytes + lenBytes > |data| {
        registry.Perform(Mark(m.tagId, Error(ShortPayload)));
        return;
      }
      var slice := data[offBytes..offBytes + lenBytes];
      assert slice == SliceOf(m, g, data);
      panicked := HandOver(m, slice);
    }

    /** Decode a slice; a decoding error marks the tag. */
    method HandOver(m: Mapping, slice: seq<Byte>) returns (panicked: bool)
      requires Valid()
      modifies registry.tags
      ensures Valid()
      ensures panicked == PiecePanics(Fins, registry.definitions, config.dates, m, slice)
      ensures registry.Cells() ==
              if panicked then old(registry.Cells())
              else Apply(registry.definitions, old(registry.Cells()), PieceEffect(Fins, registry.definitions, config.dates, m, slice))
    {
      var r := DecodeAndUpdateTag(m, slice);
      panicked := r == Err(DatePanics);
      if r.Err? && !panicked {
        registry.Perform(Mark(m.tagId, Error(DecodeFailed)));
      }
    }

    /** Hand a chunk's data to its mappings, in order, up to a panic. */
    method ScatterChunk(g: ReadGroup, data: seq<Byte>) returns (panicked: bool)
      requires Valid() && Sendable(g) && MembersFit(g.members)
      modifies registry.tags
      ensures Valid()
      ensures panicked == ChunkPanics(Fins, registry.definitions, config.dates, g.members, g, data)
      ensures registry.Cells() == ApplyAll(registry.definitions, old(registry.Cells()),
                                           UntilPanic(registry.definitions, config.dates, g.members, g, data))
    {
      ghost var defs, dates := registry.definitions, config.dates;
      for i := 0 to |g.members|
        invariant Valid()
        invariant ChunkPanics(Fins, defs, dates, g.members[i..], g, data) == ChunkPanics(Fins, defs, dates, g.members, g, data)
        invariant ApplyAll(defs, registry.Cells(), UntilPanic(defs, dates, g.members[i..], g, data)) ==
                  ApplyAll(defs, old(registry.Cells()), UntilPanic(defs, dates, g.members, g, data))
      {
        assert g.members[i..][1..] == g.members[i + 1..];
        ApplyConcat(defs, registry.Cells(), ChunkEffect(Fins, defs, dates, g.members[i], g, data),
                    UntilPanic(defs, dates, g.members[i + 1..], g, data));
        panicked := ScatterOne(g.members[i], g, data);
        if panicked {
          return;
        }
      }
      panicked := false;
    }

    /** Mark the mappings a short payload concerns. */
    method MarkShort(g: ReadGroup)
      requires Valid() && Sendable(g) && MembersFit(g.members)
      modifies registry.tags
      ensures Valid()
      ensures registry.Cells() == ApplyAll(registry.definitions, old(registry.Cells()), ShortMarks(g.members, g))
    {
      for i := 0 to |g.members|
        invariant Valid()
        invariant ApplyAll(registry.definitions, registry.Cells(), ShortMarks(g.members[i..], g)) ==
                  ApplyAll(registry.definitions, old(registry.Cells()), ShortMarks(g.members, g))
      {
        var m := g.members[i];
        assert g.members[i..][1..] == g.members[i + 1..];
        ShortMarksStep(registry.definitions, registry.Cells(), g.members[i..], g);
        if !(m.address + m.count - 1 < g.start || m.address > g.start + g.count - 1) {
          registry.Perform(Mark(m.tagId, Error(ShortPayload)));
        }
      }
    }

    method MarkAll(members: seq<Mapping>, q: TagQuality)
      requires Valid()
      modifies registry.tags
      ensures Valid()
      ensures registry.Cells() == ApplyAll(registry.definitions, old(registry.Cells()), Marks(IdsOf(members), q))
    {
      registry.MarkEach(IdsOf(members), q);
    }

    /** Act on a received payload. */
    method HandleAnswer(g: ReadGroup, sid: Byte, payload: seq<Byte>) returns (next: Next)
      requires Valid() && Sendable(g) && MembersFit(g.members)
      modifies registry.tags
      ensures Valid()
      ensures var a := OnAnswer(registry.definitions, config.dates, g, sid, payload);
              next == a.next && registry.Cells() == ApplyAll(registry.definitions, old(registry.Cells()), a.effects)
    {
      var parsed := ParseFinsResponse(payload);
      if parsed.Err? {
        MarkAll(g.members, Error(ParseFailed));
        return Stop;
      }
      next := HandleResponse(g, sid, parsed.value);
    }

    method HandleResponse(g: ReadGroup, sid: Byte, resp: Response) returns (next: Next)
      requires Valid() && Sendable(g) && MembersFit(g.members)
      modifies registry.tags
      ensures Valid()
      ensures var a := OnResponse(registry.definitions, config.dates, g, sid, resp);
              next == a.next && registry.Cells() == ApplyAll(registry.definitions, old(registry.Cells()), a.effects)
    {
      next := GoOn;
      if resp.sid != sid {
        MarkAll(g.members, CommLost);
      } else if resp.endCode != 0 {
        MarkAll(g.members, Error(EndCode(resp.endCode)));
        next := Stop;
      } else if |resp.data| < 2 * g.count {
        MarkShort(g);
      } else {
        var panicked := ScatterChunk(g, resp.data);
        next := if panicked then Panic else GoOn;
      }
    }

    /** Read one group. */
    method ReadGroupOnce(wire: Wire, g: ReadGroup) returns (next: Next)
      requires Valid() && Sendable(g) && MembersFit(g.members)
      modifies this`conn, this`sidCounter, this`sent, registry.tags
      ensures Valid()
      ensures var a := AnswerTo(registry.definitions, config.dates, wire, old(Now()), g);
              && Now() == StationBehind(wire, old(Now()), g) && next == a.next
              && registry.Cells() == ApplyAll(registry.definitions, old(registry.Cells()), a.effects)
    {
      var sid := TakeSid();
      var payload := Transact(wire, ReadFrame(sid, g));
      if payload.Err? {
        MarkAll(g.members, CommLost);
        return Stop;
      }
      next := HandleAnswer(g, sid, payload.value);
    }

    /** Read the groups in order, up to the first that fails or panics. */
    method ReadGroups(wire: Wire) returns (panicked: bool)
      requires Valid()
      modifies this`conn, this`sidCounter, this`sent, registry.tags
      ensures Valid()
      ensures var run := ReadAll(registry.definitions, config.dates, wire, old(Now()), readGroups);
              && Now() == run.station && panicked == run.panicked
              && registry.Cells() == ApplyAll(registry.definitions, old(registry.Cells()), run.effects)
    {
      ghost var defs, dates, start := registry.definitions, config.dates, registry.Cells();
      ghost var goal := ReadAll(defs, dates, wire, Now(), readGroups);
      for i := 0 to |readGroups|
        invariant Valid()
        invariant var rest := ReadAll(defs, dates, wire, Now(), readGroups[i..]);
                  && rest.station == goal.station && rest.panicked == goal.panicked
                  && ApplyAll(defs, registry.Cells(), rest.effects) == ApplyAll(defs, start, goal.effects)
      {
        assert readGroups[i..][1..] == readGroups[i + 1..];
        ApplyConcat(defs, registry.Cells(), AnswerTo(defs, dates, wire, Now(), readGroups[i]).effects,
                    ReadAll(defs, dates, wire, StationBehind(wire, Now(), readGroups[i]), readGroups[i + 1..]).effects);
        var next := ReadGroupOnce(wire, readGroups[i]);
        if !next.GoOn? {
          return next.Panic?;
        }
      }
      panicked := false;
    }

    // ----- writes -----

    /** The words of a value as they go over the wire. */
    method WireWords(v: TagValue, order: WordOrder) returns (words: seq<Word>)
      ensures words == Stored(v, order)
    {
      var standard := TagValueToWordsStandard(v);
      var bytes := RegistersToBytes(standard);
      var ordered := ApplyByteOrder(bytes, order);
      words := ReadWords(ordered);
    }

    /** Carry out one write request. */
    method ExecuteWrite(wire: Wire, req: WriteRequest) returns (outcome: WriteOutcome)
      requires Valid()
      modifies this`conn, this`sidCounter, this`sent, registry.tags
      ensures Valid()
      ensures var step := WriteOne(config.mappings, wire, old(Now()), req);
              && Now() == step.station && outcome == step.outcome
              && registry.Cells() == ApplyAll(registry.definitions, old(registry.Cells()), step.effects)
    {
      var found := FindMapping(config.mappings, req.tagId);
      if found.None? {
        return Err(UnknownTag);
      }
      var m := found.value;
      if !m.writable {
        return Err(NotWritable);
      }
      var words := WireWords(req.value, m.order);
      var sid := TakeSid();
      var frame := Wrap(BuildFinsFrame(sid, MEMORY_WRITE, BuildMemoryWrite(m.space.code, m.address, m.bitOffset, words)));
      var payload := Transact(wire, frame);
      outcome := WriteVerdict(sid, payload);
      OneApplied(registry.definitions, registry.Cells(), WriteEffect(req, outcome));
      registry.Perform(WriteEffect(req, outcome));
    }

    /** The driver has answered `reqs` since station `s`, replies `replies0` and tags `cells0`. */
    ghost predicate Drained(wire: Wire, s: Station, replies0: seq<Reply>, cells0: Cells, reqs: seq<WriteRequest>)
      requires Valid()
      reads this, registry, registry.tags
    {
      var run := WriteAll(config.mappings, wire, s, reqs);
      && Now() == run.station
      && replies == replies0 + Replies(reqs, run.outcomes)
      && registry.Cells() == ApplyAll(registry.definitions, cells0, run.effects)
    }

    /** One more request, carried out from station `station`, replies `replies1` and tags `cells1`. */
    lemma {:induction false} DrainedOn(wire: Wire, s: Station, replies0: seq<Reply>, cells0: Cells, reqs: seq<WriteRequest>, req: WriteRequest,
                                       station: Station, replies1: seq<Reply>, cells1: Cells)
      requires Valid()
      requires var run := WriteAll(config.mappings, wire, s, reqs);
               && station == run.station && replies1 == replies0 + Replies(reqs, run.outcomes)
               && cells1 == ApplyAll(registry.definitions, cells0, run.effects)
      requires var step := WriteOne(config.mappings, wire, station, req);
               && Now() == step.station && replies == replies1 + ReplyTo(req, step.outcome)
               && registry.Cells() == ApplyAll(registry.definitions, cells1, step.effects)
      ensures Drained(wire, s, replies0, cells0, reqs + [req])
    {
      DrainNext(config.mappings, wire, s, reqs, req, registry.definitions, cells0);
      var before, step := WriteAll(config.mappings, wire, s, reqs), WriteOne(config.mappings, wire, station, req);
      Associate(replies0, Replies(reqs, before.outcomes), ReplyTo(req, step.outcome));
    }

    /** Take the oldest request off the queue, carry it out and reply. */
    method AnswerNext(wire: Wire, ghost s: Station, ghost replies0: seq<Reply>, ghost cells0: Cells, ghost reqs: seq<WriteRequest>)
      requires Valid() && queue != [] && Drained(wire, s, replies0, cells0, reqs)
      modifies this`conn, this`sidCounter, this`sent, this`queue, this`replies, registry.tags
      ensures Valid() && queue == old(queue)[1..]
      ensures Drained(wire, s, replies0, cells0, reqs + [old(queue)[0]])
    {
      var req := queue[0];
      queue := queue[1..];
      ghost var station, replies1, cells1 := Now(), replies, registry.Cells();
      var outcome := ExecuteWrite(wire, req);
      replies := replies + ReplyTo(req, outcome);
      DrainedOn(wire, s, replies0, cells0, reqs, req, station, replies1, cells1);
    }

    /** Answer the queued writes of this cycle, oldest first. */
    method DrainWrites(wire: Wire)
      requires Valid()
      modifies this`conn, this`sidCounter, this`sent, this`queue, this`replies, registry.tags
      ensures Valid()
      ensures queue == old(queue)[Taken(old(queue))..]
      ensures Drained(wire, old(Now()), old(replies), old(registry.Cells()), old(queue)[..Taken(old(queue))])
    {
      ghost var all, s, replies0, cells0 := queue, Now(), replies, registry.Cells();
      for k := 0 to MAX_WRITES_PER_CYCLE
        invariant Valid() && k <= |all| && queue == all[k..]
        invariant Drained(wire, s, replies0, cells0, all[..k])
      {
        if queue == [] {
          return;
        }
        NextTaken(all, k);
        AnswerNext(wire, s, replies0, cells0, all[..k]);
      }
    }

    /**
     * One poll cycle; only a failed initial connection ends it early, before anything is answered. A
     * panic in its reads leaves everything as it was then, and there is no further cycle.
     */
    method RunReadCycle(wire: Wire, connects: bool) returns (r: Result<(), IoError>, panicked: bool)
      requires Valid()
      modifies this`conn, this`sidCounter, this`sent, this`queue, this`replies, registry.tags
      ensures Valid()
      ensures r.Err? <==> old(conn).Down? && !connects
      ensures r.Err? ==> !panicked && Now() == old(Now()) && queue == old(queue) && replies == old(replies) && registry.Cells() == old(registry.Cells())
      ensures r.Ok? ==>
                var n := Taken(old(queue));
                var run := Cycle(config.mappings, registry.definitions, config.dates, readGroups, wire, old(Now()), old(queue)[..n]);
                && Now() == run.polled.station && panicked == run.polled.panicked && queue == old(queue)[n..]
                && replies == old(replies) + Replies(old(queue)[..n], run.drained.outcomes)
                && registry.Cells() == ApplyAll(registry.definitions, old(registry.Cells()), run.drained.effects + run.polled.effects)
    {
      if conn.Down? {
        if !connects {
          return Err(ConnectFailed), false;
        }
        conn := Up([]);
      }
      ghost var s := Now();
      ghost var drained := WriteAll(config.mappings, wire, s, queue[..Taken(queue)]);
      DrainWrites(wire);
      ghost var polled := ReadAll(registry.definitions, config.dates, wire, Now(), readGroups);
      panicked := ReadGroups(wire);
      ApplyConcat(registry.definitions, old(registry.Cells()), drained.effects, polled.effects);
      r := Ok(());
    }
  }

  lemma {:induction false} ShortMarksStep(defs: Definitions, cells: Cells, members: seq<Mapping>, g: ReadGroup)
    requires members != []
    ensures ApplyAll(defs, cells, ShortMarks(members, g)) ==
            ApplyAll(defs, if Touches(members[0], g) then Apply(defs, cells, Mark(members[0].tagId, Error(ShortPayload))) else cells,
                     ShortMarks(members[1..], g))
  {
    var first, rest := Mark(members[0].tagId, Error(ShortPayload)), ShortMarks(members[1..], g);
    assert [] + rest == rest;
    assert ([first] + rest)[1..] == rest;
  }
}
