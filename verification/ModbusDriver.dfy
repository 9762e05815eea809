/** The Modbus driver object: write draining, grouping, chunked reading and scattering, step by step. */
module ModbusDrivers {
  import opened Words
  import opened WordOrders
  import opened TagModel
  import opened Codec
  import opened Mappings
  import opened Planner
  import opened Validation
  import opened Registries
  import opened CoilPacking
  import opened Scatter
  import opened GroupedReads
  import opened RoundTrip
  import opened WriteQueues
  import opened ModbusCycles

  datatype ModbusConfig = ModbusConfig(mappings: seq<Mapping>, dates: DateRange)
  {
    /** What the planner's unchecked arithmetic relies on. */
    ghost predicate Sound()
    {
      InTables(mappings) && Plannable(mappings, 0xFFFF)
    }
  }

  datatype DriverError = ConnectError | WriteFailed(error: WriteError) | ReadFailed(text: string)

  /** An order of the functions that have mappings. */
  ghost predicate FunctionOrder(order: seq<Space>, ms: seq<Mapping>)
  {
    DistinctSpaces(order) && forall s :: s in order <==> InSpace(ms, s) != []
  }

  /** The iteration order of a hash map: any. */
  method HashOrder(byFunc: map<Space, seq<Mapping>>) returns (order: seq<Space>)
    ensures DistinctSpaces(order) && forall s :: s in order <==> s in byFunc
  {
    order := [];
    var todo := byFunc.Keys;
    while todo != {}
      invariant todo <= byFunc.Keys
      invariant DistinctSpaces(order)
      invariant forall s :: s in order <==> s in byFunc && s !in todo
      decreases todo
    {
      var s :| s in todo;
      order := order + [s];
      todo := todo - {s};
    }
  }

  /** Every group planned for a table fits a Modbus request. */
  lemma {:induction false} TableGroupFits(config: ModbusConfig, s: Space, i: nat)
    requires config.Sound() && s.Table? && i < |SpacePlan(s, config.mappings, 1)|
    ensures Readable(SpacePlan(s, config.mappings, 1)[i])
  {
    var own, max := InSpace(config.mappings, s), RequestLimit(s, 1);
    var gs := SpacePlan(s, config.mappings, 1);
    OwnIsPlannable(config.mappings, s, 0xFFFF);
    PlanReadsMappedWordsOnce(s, own, max, 0xFFFF);
    var last := gs[i].start + gs[i].count - 1;
    assert gs[i].Reads(last);
    assert ReadBy(gs, last);
  }

  lemma {:induction false} PlannedGroupsFit(config: ModbusConfig, order: seq<Space>)
    requires config.Sound() && forall i :: 0 <= i < |order| ==> order[i].Table?
    ensures AllReadable(FullPlan(order, config.mappings, 1))
  {
    if order != [] {
      PlannedGroupsFit(config, order[1..]);
      var first := SpacePlan(order[0], config.mappings, 1);
      forall i | 0 <= i < |first| ensures Readable(first[i]) {
        TableGroupFits(config, order[0], i);
      }
      JoinReadable(first, FullPlan(order[1..], config.mappings, 1));
    }
  }

  lemma {:induction false} JoinReadable(a: seq<ReadGroup>, b: seq<ReadGroup>)
    requires AllReadable(a) && AllReadable(b)
    ensures AllReadable(a + b)
  {
  }

  /** A drain that gave up behind its `k`-th request is the drain of any longer list. */
  lemma {:induction false} AbortIsFinal(ms: seq<Mapping>, net: Network, c: Client, all: seq<WriteRequest>, k: nat, n: nat)
    requires InTables(ms) && k <= n <= |all|
    requires WriteAll(ms, net, c, all[..k]).aborted
    ensures WriteAll(ms, net, c, all[..n]) == WriteAll(ms, net, c, all[..k])
    ensures all[..n][..k] == all[..k] == all[..k][..k]
  {
    assert all[..n][..k] == all[..k];
    AbortedDrainStays(ms, net, c, all[..n], k);
  }

  class ModbusDriver {
    const config: ModbusConfig
    const registry: TagRegistry
    var connected: bool
    var dialed: nat
    var called: nat
    var queue: seq<WriteRequest>
    var replies: seq<Reply>

    ghost predicate Valid()
      reads this, registry, registry.tags
    {
      config.Sound() && registry.Valid()
    }

    function Now(): Client
      reads this
    {
      Client(connected, dialed, called)
    }

    constructor (config: ModbusConfig, registry: TagRegistry)
      requires config.Sound() && registry.Valid()
      ensures Valid() && this.config == config && this.registry == registry
      ensures Now() == Client(false, 0, 0) && queue == [] && replies == []
    {
      this.config, this.registry := config, registry;
      connected, dialed, called, queue, replies := false, 0, 0, [], [];
    }

    /** Queue a write; a full queue refuses it. */
    method Enqueue(req: WriteRequest) returns (accepted: bool)
      modifies this`queue
      ensures accepted <==> |old(queue)| < 256
      ensures queue == if accepted then old(queue) + [req] else old(queue)
    {
      accepted := |queue| < QUEUE_CAPACITY;
      if accepted {
        queue := queue + [req];
      }
    }

    // ----- writes -----

    /** The registers of a value as they go over the wire. */
    method WireRegisters(v: TagValue, order: WordOrder) returns (words: seq<Word>)
      ensures words == Stored(v, order)
    {
      var standard := TagValueToRegisters(v);
      var bytes := RegistersToBytes(standard);
      var ordered := ApplyByteOrder(bytes, order);
      words := ReadWords(ordered);
    }

    /** Carry out one write request; `aborts` says that the cycle ends with its error. */
    method ExecuteWrite(net: Network, req: WriteRequest) returns (outcome: WriteOutcome, aborts: bool)
      requires Valid()
      modifies this`connected, this`dialed, this`called, registry.tags
      ensures Valid()
      ensures var step := WriteOne(config.mappings, net, old(Now()), req);
              && Now() == step.client && outcome == step.outcome && aborts == step.aborts
              && registry.Cells() == ApplyAll(registry.definitions, old(registry.Cells()), step.effects)
    {
      var found := FindMapping(config.mappings, req.tagId);
      if found.None? {
        return Err(UnknownTag), false;
      }
      var m := found.value;
      if !m.writable {
        return Err(NotWritable), false;
      }
      var words := WireRegisters(req.value, m.order);
      if m.space != Table(HoldingRegisters) {
        OneApplied(registry.definitions, registry.Cells(), Mark(req.tagId, CommLost));
        registry.Perform(Mark(req.tagId, CommLost));
        return Err(UnsupportedFunction), false;
      }
      outcome, aborts := CallDevice(net, m, words, req);
    }

    /** Connect if needed and call the device. */
    method CallDevice(net: Network, m: Mapping, words: seq<Word>, req: WriteRequest) returns (outcome: WriteOutcome, aborts: bool)
      requires Valid() && m.address <= 0xFFFF && words == Stored(req.value, m.order)
      modifies this`connected, this`dialed, this`called, registry.tags
      ensures Valid()
      ensures var step := CallWrite(net, Dialed(old(Now()), net), m, req);
              && Now() == step.client && outcome == step.outcome && aborts == step.aborts
              && registry.Cells() == ApplyAll(registry.definitions, old(registry.Cells()), step.effects)
    {
      Dial(net);
      if !connected {
        OneApplied(registry.definitions, registry.Cells(), Mark(req.tagId, CommLost));
        registry.Perform(Mark(req.tagId, CommLost));
        return Err(ReconnectFailed), true;
      }
      WriteCallIs(m, req.value);
      var ev := net.serves(called, WriteRegisters(m.address, words));
      called := called + 1;
      outcome, aborts := FinishWrite(req, ev);
    }

    /** Use the connection, or make one. */
    method Dial(net: Network)
      modifies this`connected, this`dialed
      ensures Now() == Dialed(old(Now()), net)
    {
      if !connected {
        connected := net.connects(dialed);
        dialed := dialed + 1;
      }
    }

    /** Act on what came of a write call: publish, or mark the tag and maybe drop the connection. */
    method FinishWrite(req: WriteRequest, ev: Event) returns (outcome: WriteOutcome, aborts: bool)
      requires Valid() && connected
      modifies this`connected, registry.tags
      ensures Valid()
      ensures (outcome, aborts) == WriteVerdict(ev) && connected == !aborts
      ensures registry.Cells() == ApplyAll(registry.definitions, old(registry.Cells()), [WriteEffect(req, ev)])
    {
      OneApplied(registry.definitions, registry.Cells(), WriteEffect(req, ev));
      match ev
      case Success(_, _) =>
        registry.Perform(Publish(req.tagId, req.value));
        return Ok(()), false;
      case Refused(text) =>
        if IsIllegal(text) {
          registry.Perform(Mark(req.tagId, ConfigError));
          return Err(Exception(text)), false;
        }
        registry.Perform(Mark(req.tagId, CommLost));
        connected := false;
        return Err(Exception(text)), true;
      case Broken(_) =>
        registry.Perform(Mark(req.tagId, CommLost));
        connected := false;
        return Err(TransportFailed), true;
      case NoReply =>
        registry.Perform(Mark(req.tagId, CommLost));
        connected := false;
        return Err(TimedOut), true;
    }

    /** The driver has looked at `reqs` since client state `c`, with `replies0` and `cells0` then. */
    ghost predicate Drained(net: Network, c: Client, replies0: seq<Reply>, cells0: Cells, reqs: seq<WriteRequest>)
      requires Valid()
      reads this, registry, registry.tags
    {
      var run := WriteAll(config.mappings, net, c, reqs);
      && Now() == run.client
      && replies == replies0 + Replies(reqs[..|run.outcomes|], run.outcomes)
      && registry.Cells() == ApplyAll(registry.definitions, cells0, run.effects)
    }

    /** Take the oldest request off the queue, carry it out and reply. */
    method AnswerNext(net: Network, ghost c: Client, ghost replies0: seq<Reply>, ghost cells0: Cells, ghost reqs: seq<WriteRequest>)
      returns (aborts: bool)
      requires Valid() && queue != [] && Drained(net, c, replies0, cells0, reqs)
      requires !WriteAll(config.mappings, net, c, reqs).aborted
      modifies this`connected, this`dialed, this`called, this`queue, this`replies, registry.tags
      ensures Valid() && queue == old(queue)[1..]
      ensures var run := WriteAll(config.mappings, net, c, reqs + [old(queue)[0]]);
              aborts == run.aborted && |run.outcomes| == |reqs| + 1
      ensures Drained(net, c, replies0, cells0, reqs + [old(queue)[0]])
    {
      var req := queue[0];
      queue := queue[1..];
      ghost var client, replies1, cells1 := Now(), replies, registry.Cells();
      var outcome;
      outcome, aborts := ExecuteWrite(net, req);
      replies := replies + ReplyTo(req, outcome);
      DrainedOn(net, c, replies0, cells0, reqs, req, client, replies1, cells1);
    }

    /** One more request, carried out from client state `client`, replies `replies1` and tags `cells1`. */
    lemma {:induction false} DrainedOn(net: Network, c: Client, replies0: seq<Reply>, cells0: Cells, reqs: seq<WriteRequest>, req: WriteRequest,
                                       client: Client, replies1: seq<Reply>, cells1: Cells)
      requires Valid() && !WriteAll(config.mappings, net, c, reqs).aborted
      requires var run := WriteAll(config.mappings, net, c, reqs);
               && client == run.client && replies1 == replies0 + Replies(reqs[..|run.outcomes|], run.outcomes)
               && cells1 == ApplyAll(registry.definitions, cells0, run.effects)
      requires var step := WriteOne(config.mappings, net, client, req);
               && Now() == step.client && replies == replies1 + ReplyTo(req, step.outcome)
               && registry.Cells() == ApplyAll(registry.definitions, cells1, step.effects)
      ensures var run := WriteAll(config.mappings, net, c, reqs + [req]);
              run.aborted == WriteOne(config.mappings, net, client, req).aborts && |run.outcomes| == |reqs| + 1
      ensures Drained(net, c, replies0, cells0, reqs + [req])
    {
      var before := WriteAll(config.mappings, net, c, reqs).outcomes;
      DrainNext(config.mappings, net, c, reqs, req, registry.definitions, cells0);
      Associate(replies0, Replies(reqs[..|before|], before), ReplyTo(req, WriteOne(config.mappings, net, client, req).outcome));
    }

    /** A drain that gave up behind its `k`-th request has looked at any longer list. */
    lemma {:induction false} DrainedStays(net: Network, c: Client, replies0: seq<Reply>, cells0: Cells, all: seq<WriteRequest>, k: nat, n: nat)
      requires Valid() && k <= n <= |all|
      requires WriteAll(config.mappings, net, c, all[..k]).aborted && |WriteAll(config.mappings, net, c, all[..k]).outcomes| == k
      requires Drained(net, c, replies0, cells0, all[..k])
      ensures WriteAll(config.mappings, net, c, all[..n]) == WriteAll(config.mappings, net, c, all[..k])
      ensures Drained(net, c, replies0, cells0, all[..n])
    {
      AbortIsFinal(config.mappings, net, c, all, k, n);
    }

    /** Answer the queued writes of this cycle, oldest first, up to one whose failure ends the cycle. */
    method DrainWrites(net: Network) returns (aborted: bool)
      requires Valid()
      modifies this`connected, this`dialed, this`called, this`queue, this`replies, registry.tags
      ensures Valid()
      ensures var taken := old(queue)[..Taken(old(queue))];
              var run := WriteAll(config.mappings, net, old(Now()), taken);
              && aborted == run.aborted
              && queue == old(queue)[|run.outcomes|..]
              && Drained(net, old(Now()), old(replies), old(registry.Cells()), taken)
    {
      ghost var all, c, replies0, cells0 := queue, Now(), replies, registry.Cells();
      ghost var k;
      aborted, k := DrainLoop(net, c, replies0, cells0, all);
      if aborted {
        DrainedStays(net, c, replies0, cells0, all, k, Taken(all));
      }
    }

    lemma {:induction false} NothingDrained(net: Network)
      requires Valid()
      ensures Drained(net, Now(), replies, registry.Cells(), [])
      ensures var run := WriteAll(config.mappings, net, Now(), []); !run.aborted && run.outcomes == []
    {
      Neutral(replies);
    }

    /** The drain's loop; `k` requests were looked at. */
    method DrainLoop(net: Network, ghost c: Client, ghost replies0: seq<Reply>, ghost cells0: Cells, ghost all: seq<WriteRequest>)
      returns (aborted: bool, ghost k: nat)
      requires Valid() && all == queue && c == Now() && replies0 == replies && cells0 == registry.Cells()
      modifies this`connected, this`dialed, this`called, this`queue, this`replies, registry.tags
      ensures Valid() && k <= Taken(all) && (!aborted ==> k == Taken(all))
      ensures queue == all[k..] && Drained(net, c, replies0, cells0, all[..k])
      ensures var run := WriteAll(config.mappings, net, c, all[..k]); run.aborted == aborted && |run.outcomes| == k
    {
      aborted, k := false, 0;
      var i := 0;
      NothingDrained(net);
      while i < MAX_WRITES_PER_CYCLE && queue != [] && !aborted
        invariant Valid() && k == i <= Taken(all) && queue == all[k..]
        invariant Drained(net, c, replies0, cells0, all[..k])
        invariant var run := WriteAll(config.mappings, net, c, all[..k]); run.aborted == aborted && |run.outcomes| == k
        decreases MAX_WRITES_PER_CYCLE - i
      {
        aborted := LookAtNext(net, c, replies0, cells0, all, k);
        i, k := i + 1, k + 1;
      }
    }

    /** Answer the oldest waiting request, number `k` of the queue at the start. */
    method LookAtNext(net: Network, ghost c: Client, ghost replies0: seq<Reply>, ghost cells0: Cells, ghost all: seq<WriteRequest>, ghost k: nat)
      returns (aborts: bool)
      requires Valid() && k < |all| && queue == all[k..] && Drained(net, c, replies0, cells0, all[..k])
      requires !WriteAll(config.mappings, net, c, all[..k]).aborted
      modifies this`connected, this`dialed, this`called, this`queue, this`replies, registry.tags
      ensures Valid() && queue == all[k + 1..] && Drained(net, c, replies0, cells0, all[..k + 1])
      ensures var run := WriteAll(config.mappings, net, c, all[..k + 1]); run.aborted == aborts && |run.outcomes| == k + 1
    {
      NextTaken(all, k);
      aborts := AnswerNext(net, c, replies0, cells0, all[..k]);
    }

    // ----- reads -----

    /** Decode a mapping's bytes and publish the value, or mark the tag. */
    method DecodeAndUpdateTag(m: Mapping, data: seq<Byte>)
      requires Valid()
      modifies registry.tags
      ensures Valid()
      ensures registry.Cells() == Apply(registry.definitions, old(registry.Cells()), PieceEffect(Modbus, registry.definitions, config.dates, m, data))
    {
      var ordered := ApplyByteOrder(data, m.order);
      if m.tagId !in registry.definitions {
        registry.Perform(Mark(m.tagId, ConfigError));
        return;
      }
      var existing := registry.GetTag(m.tagId);
      if existing.Err? {
        registry.Perform(Mark(m.tagId, CommLost));
        return;
      }
      var decoded := DecodeModbus(m.dataType, ordered, m.bitOffset, config.dates);
      if decoded.Err? {
        registry.Perform(Mark(m.tagId, ConfigError));
        return;
      }
      registry.Perform(Publish(m.tagId, decoded.value));
    }

    /** Cut one mapping's slice out of a chunk's bytes and decode it. */
    method ScatterOne(m: Mapping, g: ReadGroup, data: seq<Byte>)
      requires Valid() && Readable(g) && m.count >= 1 && m.End() <= 0xFFFF
      modifies registry.tags
      ensures Valid()
      ensures registry.Cells() == ApplyAll(registry.definitions, old(registry.Cells()),
                                           ChunkEffect(Modbus, registry.definitions, config.dates, m, g, data))
    {
      var chunkStart: U32, chunkEnd: U32 := g.start, g.start + g.count - 1;
      var mapStart: U32, mapEnd: U32 := m.address, m.address + m.count - 1;
      if mapEnd < chunkStart || mapStart > chunkEnd {
        return;
      }
      var overlapStart, overlapEnd := Max(mapStart, chunkStart), Min(mapEnd, chunkEnd);
      var offBytes, lenBytes := 2 * (overlapStart - chunkStart), 2 * (overlapEnd - overlapStart + 1);
      if offBytes + lenBytes > |data| {
        registry.Perform(Mark(m.tagId, ConfigError));
        return;
      }
      var slice := data[offBytes..offBytes + lenBytes];
      assert slice == SliceOf(m, g, data);
      DecodeAndUpdateTag(m, slice);
    }

    /** Hand a chunk's bytes to its mappings, in order. */
    method ScatterChunk(g: ReadGroup, data: seq<Byte>)
      requires Valid() && Readable(g) && Plannable(g.members, 0xFFFF)
      modifies registry.tags
      ensures Valid()
      ensures registry.Cells() == ApplyAll(registry.definitions, old(registry.Cells()),
                                           ChunkEffects(Modbus, registry.definitions, config.dates, g.members, g, data))
    {
      for i := 0 to |g.members|
        invariant Valid()
        invariant ApplyAll(registry.definitions, registry.Cells(), ChunkEffects(Modbus, registry.definitions, config.dates, g.members[i..], g, data)) ==
                  ApplyAll(registry.definitions, old(registry.Cells()), ChunkEffects(Modbus, registry.definitions, config.dates, g.members, g, data))
      {
        assert g.members[i..][1..] == g.members[i + 1..];
        ApplyConcat(registry.definitions, registry.Cells(),
                    ChunkEffect(Modbus, registry.definitions, config.dates, g.members[i], g, data),
                    ChunkEffects(Modbus, registry.definitions, config.dates, g.members[i + 1..], g, data));
        ScatterOne(g.members[i], g, data);
      }
    }

    /** The bytes of a read's data: registers split, coils packed first. */
    method RawBytes(s: Space, words: seq<Word>, bits: seq<bool>) returns (data: seq<Byte>)
      ensures data == DataBytes(s, words, bits)
    {
      if WordSpace(s) {
        data := RegistersToBytes(words);
      } else {
        var regs := PackCoils(bits);
        data := RegistersToBytes(regs);
      }
    }

    /** Act on what came of a read. */
    method HandleEvent(g: ReadGroup, ev: Event) returns (aborts: bool)
      requires Valid() && Readable(g) && Plannable(g.members, 0xFFFF)
      modifies registry.tags
      ensures Valid()
      ensures var a := OnEvent(registry.definitions, config.dates, g, ev);
              aborts == a.aborts && registry.Cells() == ApplyAll(registry.definitions, old(registry.Cells()), a.effects)
    {
      if ev.Success? {
        var data := RawBytes(g.space, ev.words, ev.bits);
        ScatterChunk(g, data);
        return false;
      }
      aborts := HandleFailure(g, FailureText(ev));
    }

    method HandleFailure(g: ReadGroup, text: string) returns (aborts: bool)
      requires Valid()
      modifies registry.tags
      ensures Valid()
      ensures var a := OnFailure(g, text);
              aborts == a.aborts && registry.Cells() == ApplyAll(registry.definitions, old(registry.Cells()), a.effects)
    {
      aborts := false;
      if IsIllegal(text) {
        registry.MarkEach(IdsOf(g.members), ConfigError);
      } else if IsDeviceFailure(text) || text == TIMEOUT {
        registry.MarkEach(IdsOf(g.members), CommLost);
        aborts := true;
      }
    }

    /** The driver has read the groups `gs` since it had made `called0` calls, with `cells0` then. */
    ghost predicate Polled(net: Network, called0: nat, cells0: Cells, gs: seq<ReadGroup>, aborted: bool)
      requires Valid()
      reads this, registry, registry.tags
    {
      && AllReadable(gs)
      && var run := ReadAll(registry.definitions, config.dates, net, called0, gs);
         && called == run.called && aborted == run.aborted
         && registry.Cells() == ApplyAll(registry.definitions, cells0, run.effects)
    }

    /** Read one chunk and hand its data out. */
    method ReadChunk(net: Network, g: ReadGroup, ghost called0: nat, ghost cells0: Cells, ghost done: seq<ReadGroup>) returns (aborts: bool)
      requires Valid() && Readable(g) && Plannable(g.members, 0xFFFF) && Polled(net, called0, cells0, done, false)
      modifies this`called, registry.tags
      ensures Valid() && Polled(net, called0, cells0, done + [g], aborts)
    {
      PollNext(registry.definitions, config.dates, net, called0, done, g, cells0);
      ReadCallIs(g);
      var ev := net.serves(called, Read(g.space.op, g.start, g.count));
      called := called + 1;
      aborts := HandleEvent(g, ev);
    }

    /** Read the next chunk of a contiguous group. */
    method ReadNextChunk(net: Network, s: Space, group: RegisterGroup, chunkStart: Word, remaining: Word,
                         ghost called0: nat, ghost cells0: Cells, ghost done: seq<ReadGroup>)
      returns (chunkQty: Word, aborted: bool, ghost g: ReadGroup)
      requires Valid() && Ahead(s, group, chunkStart, remaining) && remaining > 0
      requires Polled(net, called0, cells0, done, false)
      modifies this`called, registry.tags
      ensures Valid() && Polled(net, called0, cells0, done + [g], aborted)
      ensures 1 <= chunkQty <= remaining && Ahead(s, group, chunkStart + chunkQty, remaining - chunkQty)
      ensures ChunksAhead(s, group, chunkStart, remaining) == [g] + ChunksAhead(s, group, chunkStart + chunkQty, remaining - chunkQty)
    {
      var maxAllowed: Word := if WordSpace(s) then MAX_REGISTERS else MAX_COILS;
      chunkQty := Min(remaining, maxAllowed);
      ChunkAhead(s, group, chunkStart, remaining, chunkQty);
      var chunk := ReadGroup(s, chunkStart, chunkQty, group.members);
      g := chunk;
      aborted := ReadChunk(net, chunk, called0, cells0, done);
    }

    /** After an abort the groups left out make no difference. */
    lemma {:induction false} PolledStays(net: Network, called0: nat, cells0: Cells, gs: seq<ReadGroup>, more: seq<ReadGroup>)
      requires Valid() && Polled(net, called0, cells0, gs, true) && AllReadable(more)
      ensures Polled(net, called0, cells0, gs + more, true)
    {
      assert (gs + more)[..|gs|] == gs;
      JoinReadable(gs, more);
      AbortedReadStays(registry.definitions, config.dates, net, called0, gs + more, |gs|);
    }

    /** Read chunks of a contiguous group to its end, or to a failure; `rest` is left unread. */
    method ChunkLoop(net: Network, s: Space, group: RegisterGroup, ghost called0: nat, ghost cells0: Cells, ghost done: seq<ReadGroup>)
      returns (aborted: bool, ghost got: seq<ReadGroup>, ghost rest: seq<ReadGroup>)
      requires Valid() && Ahead(s, group, group.start, group.quantity)
      requires Polled(net, called0, cells0, done, false)
      modifies this`called, registry.tags
      ensures Valid() && Polled(net, called0, cells0, done + got, aborted)
      ensures got + rest == ChunksAhead(s, group, group.start, group.quantity)
      ensures AllReadable(rest) && (!aborted ==> rest == [])
    {
      var chunkStart, remaining := group.start, group.quantity;
      aborted, got := false, [];
      ghost var all := ChunksAhead(s, group, chunkStart, remaining);
      Neutral(done);
      Neutral(all);
      while remaining > 0 && !aborted
        invariant Valid() && Ahead(s, group, chunkStart, remaining)
        invariant Polled(net, called0, cells0, done + got, aborted)
        invariant got + ChunksAhead(s, group, chunkStart, remaining) == all
        decreases remaining
      {
        ghost var g;
        var chunkQty;
        chunkQty, aborted, g := ReadNextChunk(net, s, group, chunkStart, remaining, called0, cells0, done + got);
        chunkStart, remaining := chunkStart + chunkQty, remaining - chunkQty;
        Associate(done, got, [g]);
        Associate(got, [g], ChunksAhead(s, group, chunkStart, remaining));
        got := got + [g];
      }
      rest := ChunksAhead(s, group, chunkStart, remaining);
      ChunksAreReadable(s, group, chunkStart, remaining);
    }

    /** Read one contiguous group in chunks of the protocol's size. */
    method ReadGroupChunks(net: Network, s: Space, group: RegisterGroup, ghost called0: nat, ghost cells0: Cells, ghost done: seq<ReadGroup>)
      returns (aborted: bool)
      requires Valid() && Ahead(s, group, group.start, group.quantity)
      requires Polled(net, called0, cells0, done, false)
      modifies this`called, registry.tags
      ensures Valid() && Polled(net, called0, cells0, done + ChunksAhead(s, group, group.start, group.quantity), aborted)
    {
      ghost var got, rest;
      aborted, got, rest := ChunkLoop(net, s, group, called0, cells0, done);
      Associate(done, got, rest);
      if aborted {
        PolledStays(net, called0, cells0, done + got, rest);
      } else {
        Neutral(done + got);
      }
    }

    /** Group one function's mappings and read the groups. */
    method ReadFunction(net: Network, s: Space, own: seq<Mapping>, ghost called0: nat, ghost cells0: Cells, ghost done: seq<ReadGroup>)
      returns (aborted: bool)
      requires Valid() && s.Table? && own == InSpace(config.mappings, s)
      requires Polled(net, called0, cells0, done, false)
      modifies this`called, registry.tags
      ensures Valid() && Polled(net, called0, cells0, done + SpacePlan(s, config.mappings, 1), aborted)
    {
      OwnIsPlannable(config.mappings, s, 0xFFFF);
      SortedIsPlannable(own, 0xFFFF);
      var groups := GroupFold(SortByAddress(own));
      FoldedGroupsFit(s, SortByAddress(own), groups);
      aborted := ReadFolded(net, s, groups, called0, cells0, done);
    }

    /** Read the contiguous groups of a function in order. */
    method ReadFolded(net: Network, s: Space, groups: seq<RegisterGroup>, ghost called0: nat, ghost cells0: Cells, ghost done: seq<ReadGroup>)
      returns (aborted: bool)
      requires Valid() && AllAhead(s, groups)
      requires Polled(net, called0, cells0, done, false)
      modifies this`called, registry.tags
      ensures Valid() && Polled(net, called0, cells0, done + PlanOf(s, groups), aborted)
    {
      aborted := false;
      var i := 0;
      Neutral(done);
      while i < |groups| && !aborted
        invariant 0 <= i <= |groups| && Valid()
        invariant Polled(net, called0, cells0, done + PlanOf(s, groups[..i]), aborted)
        decreases |groups| - i
      {
        ghost var read' := PlanOf(s, groups[..i]);
        PlanOfNext(s, groups, i);
        aborted := ReadGroupChunks(net, s, groups[i], called0, cells0, done + read');
        Associate(done, read', ChunksAhead(s, groups[i], groups[i].start, groups[i].quantity));
        i := i + 1;
      }
      if aborted {
        ghost var rest := PlanOfRest(s, groups, i);
        Associate(done, PlanOf(s, groups[..i]), rest);
        PolledStays(net, called0, cells0, done + PlanOf(s, groups[..i]), rest);
      } else {
        assert groups[..i] == groups;
      }
    }

    /** Read every function's groups, in the hash map's order. */
    method ReadFunctions(net: Network, byFunc: map<Space, seq<Mapping>>, order: seq<Space>, ghost called0: nat, ghost cells0: Cells)
      returns (aborted: bool)
      requires Valid() && FunctionOrder(order, config.mappings)
      requires forall s :: s in order ==> s in byFunc && byFunc[s] == InSpace(config.mappings, s)
      requires called == called0 && registry.Cells() == cells0
      modifies this`called, registry.tags
      ensures Valid() && Polled(net, called0, cells0, FullPlan(order, config.mappings, 1), aborted)
    {
      OrderedTables(order, config);
      aborted := false;
      ghost var got, rest := [], FullPlan(order, config.mappings, 1);
      PlannedGroupsFit(config, order);
      Neutral(rest);
      var i := 0;
      while i < |order| && !aborted
        invariant 0 <= i <= |order| && Valid()
        invariant Polled(net, called0, cells0, got, aborted)
        invariant rest == FullPlan(order[i..], config.mappings, 1)
        invariant got + rest == FullPlan(order, config.mappings, 1)
        decreases |order| - i
      {
        PlanSplits(order, config.mappings, i);
        aborted := ReadFunction(net, order[i], byFunc[order[i]], called0, cells0, got);
        rest := FullPlan(order[i + 1..], config.mappings, 1);
        Associate(got, SpacePlan(order[i], config.mappings, 1), rest);
        got := got + SpacePlan(order[i], config.mappings, 1);
        i := i + 1;
      }
      if aborted {
        PlannedGroupsFit(config, order[i..]);
        PolledStays(net, called0, cells0, got, rest);
      } else {
        Neutral(got);
      }
    }

    /** Connect if needed, and read. */
    method PollDevice(net: Network, byFunc: map<Space, seq<Mapping>>, order: seq<Space>) returns (completed: bool)
      requires Valid() && FunctionOrder(order, config.mappings) && AllReadable(FullPlan(order, config.mappings, 1))
      requires forall s :: s in order ==> s in byFunc && byFunc[s] == InSpace(config.mappings, s)
      modifies this`connected, this`dialed, this`called, registry.tags
      ensures Valid()
      ensures var run := Poll(registry.definitions, config.dates, FullPlan(order, config.mappings, 1), net, old(Now()));
              && Now() == run.client && completed == run.completed
              && registry.Cells() == ApplyAll(registry.definitions, old(registry.Cells()), run.effects)
    {
      Dial(net);
      if !connected {
        return false;
      }
      var aborted := ReadFunctions(net, byFunc, order, called, registry.Cells());
      connected := !aborted;
      completed := !aborted;
    }

    /**
     * One poll cycle. A failed write, a failed connection or a lost device ends it early, always after
     * the reply to the request concerned; `order` is the order the functions were read in.
     */
    method RunReadCycle(net: Network) returns (completed: bool, ghost order: seq<Space>, ghost taken: seq<WriteRequest>)
      requires Valid()
      modifies this`connected, this`dialed, this`called, this`queue, this`replies, registry.tags
      ensures Valid() && FunctionOrder(order, config.mappings) && AllReadable(FullPlan(order, config.mappings, 1))
      ensures taken == old(queue)[..Taken(old(queue))]
      ensures var run := Cycle(config.mappings, registry.definitions, config.dates, FullPlan(order, config.mappings, 1), net, old(Now()), taken);
              && completed == run.completed
              && Now() == run.client
              && |run.outcomes| <= |taken| && (old(queue) != [] ==> run.outcomes != [])
              && queue == old(queue)[|run.outcomes|..]
              && replies == old(replies) + Replies(taken[..|run.outcomes|], run.outcomes)
              && registry.Cells() == ApplyAll(registry.definitions, old(registry.Cells()), run.effects)
    {
      taken := queue[..Taken(queue)];
      var byFunc := GroupBySpace(config.mappings);
      var hashed := HashOrder(byFunc);
      order := hashed;
      OrderedTables(order, config);
      PlannedGroupsFit(config, order);
      ghost var cells0, drained := registry.Cells(), WriteAll(config.mappings, net, Now(), taken);
      var aborted := DrainWrites(net);
      if aborted {
        return false, hashed, taken;
      }
      ApplyConcat(registry.definitions, cells0, drained.effects,
                  Poll(registry.definitions, config.dates, FullPlan(order, config.mappings, 1), net, drained.client).effects);
      completed := PollDevice(net, byFunc, hashed);
    }
  }

  /** The function order as spaces of tables with a plan. */
  lemma {:induction false} OrderedTables(order: seq<Space>, config: ModbusConfig)
    requires config.Sound() && FunctionOrder(order, config.mappings)
    ensures forall i :: 0 <= i < |order| ==> order[i].Table?
  {
    forall i | 0 <= i < |order| ensures order[i].Table? {
      assert order[i] in order;
      InSpaceMembers(config.mappings, order[i]);
      var m := InSpace(config.mappings, order[i])[0];
      assert m in InSpace(config.mappings, order[i]);
    }
  }

  lemma {:induction false} PlanSplits(order: seq<Space>, ms: seq<Mapping>, i: nat)
    requires i < |order|
    ensures FullPlan(order[i..], ms, 1) == SpacePlan(order[i], ms, 1) + FullPlan(order[i + 1..], ms, 1)
  {
    assert order[i..][1..] == order[i + 1..];
  }

  predicate AllAhead(s: Space, groups: seq<RegisterGroup>)
  {
    forall i :: 0 <= i < |groups| ==> Ahead(s, groups[i], groups[i].start, groups[i].quantity)
  }

  /** All chunks of a list of contiguous groups. */
  ghost function PlanOf(s: Space, groups: seq<RegisterGroup>): seq<ReadGroup>
    requires AllAhead(s, groups)
  {
    if groups == [] then []
    else
      var g := groups[|groups| - 1];
      PlanOf(s, groups[..|groups| - 1]) + ChunksAhead(s, g, g.start, g.quantity)
  }

  lemma {:induction false} PlanOfNext(s: Space, groups: seq<RegisterGroup>, i: nat)
    requires AllAhead(s, groups) && i < |groups|
    ensures PlanOf(s, groups[..i + 1]) == PlanOf(s, groups[..i]) + ChunksAhead(s, groups[i], groups[i].start, groups[i].quantity)
  {
    assert groups[..i + 1][..i] == groups[..i];
  }

  /** The chunks of the groups from number `i` on. */
  lemma {:induction false} PlanOfRest(s: Space, groups: seq<RegisterGroup>, i: nat) returns (rest: seq<ReadGroup>)
    requires AllAhead(s, groups) && i <= |groups|
    ensures PlanOf(s, groups) == PlanOf(s, groups[..i]) + rest && AllReadable(rest)
  {
    if i == |groups| {
      assert groups[..i] == groups;
      rest := [];
    } else {
      var init, g := groups[..|groups| - 1], groups[|groups| - 1];
      var before := PlanOfRest(s, init, i);
      assert init[..i] == groups[..i];
      rest := before + ChunksAhead(s, g, g.start, g.quantity);
      ChunksAreReadable(s, g, g.start, g.quantity);
      JoinReadable(before, ChunksAhead(s, g, g.start, g.quantity));
      Associate(PlanOf(s, groups[..i]), before, ChunksAhead(s, g, g.start, g.quantity));
    }
  }

  lemma {:induction false} ChunksAreReadable(s: Space, group: RegisterGroup, chunkStart: int, remaining: int)
    requires Ahead(s, group, chunkStart, remaining)
    ensures AllReadable(ChunksAhead(s, group, chunkStart, remaining))
    decreases remaining
  {
    if remaining > 0 {
      var n := Min(remaining, RequestLimit(s, 1));
      ChunksAreReadable(s, group, chunkStart + n, remaining - n);
      JoinReadable([ReadGroup(s, chunkStart, n, group.members)], ChunksAhead(s, group, chunkStart + n, remaining - n));
    }
  }

  /** The folded groups are the planner's runs, and fit the chunk loop. */
  lemma {:induction false} FoldedGroupsFit(s: Space, sorted: seq<Mapping>, groups: seq<RegisterGroup>)
    requires s.Table? && Sorted(sorted) && Plannable(sorted, 0xFFFF) && AsRuns(groups) == Runs(sorted) && InRegisters(groups)
    ensures AllAhead(s, groups) && PlanOf(s, groups) == GroupsOf(s, Runs(sorted), RequestLimit(s, 1))
  {
    RunsAreGood(sorted, 0xFFFF);
    forall i | 0 <= i < |groups| ensures Ahead(s, groups[i], groups[i].start, groups[i].quantity) {
      assert AsRuns(groups)[i].members == groups[i].members;
      MembersArePlannable(sorted, groups[i].members);
    }
    PlanOfRuns(s, groups);
  }

  lemma {:induction false} MembersArePlannable(sorted: seq<Mapping>, members: seq<Mapping>)
    requires Plannable(sorted, 0xFFFF) && forall m :: m in members ==> m in sorted
    ensures Plannable(members, 0xFFFF)
  {
    forall k | 0 <= k < |members| ensures members[k].count >= 1 && members[k].End() <= 0xFFFF {
      assert members[k] in members;
      var j :| 0 <= j < |sorted| && sorted[j] == members[k];
    }
  }

  lemma {:induction false} PlanOfRuns(s: Space, groups: seq<RegisterGroup>)
    requires AllAhead(s, groups)
    ensures PlanOf(s, groups) == GroupsOf(s, AsRuns(groups), RequestLimit(s, 1))
  {
    if groups != [] {
      PlanOfRuns(s, groups[..|groups| - 1]);
      assert AsRuns(groups)[..|groups| - 1] == AsRuns(groups[..|groups| - 1]);
    }
  }

  /** `remaining` registers or coils of the group, from `chunkStart`, are still to be read. */
  predicate Ahead(s: Space, group: RegisterGroup, chunkStart: int, remaining: int)
  {
    && s.Table? && 0 <= chunkStart && 0 <= remaining && chunkStart + remaining <= 0xFFFF
    && Plannable(group.members, 0xFFFF)
  }

  ghost function ChunksAhead(s: Space, group: RegisterGroup, chunkStart: int, remaining: int): seq<ReadGroup>
    requires Ahead(s, group, chunkStart, remaining)
  {
    Chunks(s, chunkStart, remaining, RequestLimit(s, 1), group.members)
  }

  lemma {:induction false} ChunkAhead(s: Space, group: RegisterGroup, chunkStart: int, remaining: int, n: int)
    requires Ahead(s, group, chunkStart, remaining) && remaining > 0 && n == Min(remaining, RequestLimit(s, 1))
    ensures 1 <= n <= remaining && Ahead(s, group, chunkStart + n, remaining - n)
    ensures ChunksAhead(s, group, chunkStart, remaining) == [ReadGroup(s, chunkStart, n, group.members)] + ChunksAhead(s, group, chunkStart + n, remaining - n)
    ensures Readable(ReadGroup(s, chunkStart, n, group.members))
  {
  }
}
