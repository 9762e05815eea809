/** What every Modbus cycle guarantees, and what it does against a server that answers from memory. */
module ModbusLaws {
  import opened Words
  import opened TagModel
  import opened Codec
  import opened Mappings
  import opened Planner
  import opened Registries
  import opened Scatter
  import opened GroupedReads
  import opened WriteQueues
  import opened ModbusCycles
  import opened WriteLists

  // ----- failed reads -----

  /** The failures the driver reacts to by marking the group's tags. */
  predicate Noticed(ev: Event)
  {
    match ev
    case Success(_, _) => false
    case NoReply => true
    case _ => IsIllegal(FailureText(ev)) || IsDeviceFailure(FailureText(ev)) || FailureText(ev) == TIMEOUT
  }

  /** The quality a noticed failure leaves. */
  function FailureMark(ev: Event): TagQuality
  {
    if IsIllegal(FailureText(ev)) then ConfigError else CommLost
  }

  /** A failed read changes no value; its group's tags take the failure's quality exactly if the failure is noticed. */
  lemma {:induction false} FailedReadMarks(defs: Definitions, dates: DateRange, g: ReadGroup, ev: Event, cells: Cells, id: string)
    requires !ev.Success? && id in cells
    ensures var after := ApplyAll(defs, cells, OnEvent(defs, dates, g, ev).effects);
            id in after && after[id] == if id in IdsOf(g.members) && Noticed(ev) then cells[id].(quality := FailureMark(ev)) else cells[id]
  {
    MarksMark(defs, cells, IdsOf(g.members), FailureMark(ev), id);
  }

  /** A failure that the driver does not react to. */
  predicate Silent(ev: Event)
  {
    !ev.Success? && !Noticed(ev)
  }

  /** Every group that lists the tag fails silently, at its own call of the run. */
  predicate FailsSilently(net: Network, called: nat, gs: seq<ReadGroup>, id: string)
    decreases |gs|
  {
    gs == [] ||
    var n := |gs| - 1;
    FailsSilently(net, called, gs[..n], id) && (ListsTag(gs[n], id) ==> Silent(EventAt(net, called, n, gs[n])))
  }

  /**
   * Over the reads of a whole cycle: a tag whose groups all fail silently ends exactly as it was, a good
   * tag good with its old value, whatever else the cycle reads or aborts on.
   */
  lemma {:induction false} SilentFailuresShowNothing(defs: Definitions, dates: DateRange, net: Network, called: nat, gs: seq<ReadGroup>,
                                                     cells: Cells, id: string)
    requires id in cells && FailsSilently(net, called, gs, id)
    ensures var after := ApplyAll(defs, cells, ReadAll(defs, dates, net, called, gs).effects); id in after && after[id] == cells[id]
    decreases |gs|
  {
    if gs != [] {
      var n := |gs| - 1;
      SilentFailuresShowNothing(defs, dates, net, called, gs[..n], cells, id);
      LastReadOnTop(defs, dates, net, called, gs, cells);
      SilentGroup(defs, dates, gs[n], EventAt(net, called, n, gs[n]),
                  ApplyAll(defs, cells, ReadAll(defs, dates, net, called, gs[..n]).effects), id);
    }
  }

  /** The last group's effects come on top of those before, unless the cycle has ended. */
  lemma {:induction false} LastReadOnTop(defs: Definitions, dates: DateRange, net: Network, called: nat, gs: seq<ReadGroup>, cells: Cells)
    requires gs != []
    ensures var n := |gs| - 1;
            var before := ReadAll(defs, dates, net, called, gs[..n]);
            ApplyAll(defs, cells, ReadAll(defs, dates, net, called, gs).effects) ==
            if before.aborted then ApplyAll(defs, cells, before.effects)
            else ApplyAll(defs, ApplyAll(defs, cells, before.effects), OnEvent(defs, dates, gs[n], EventAt(net, called, n, gs[n])).effects)
  {
    var n := |gs| - 1;
    EffectsOfLast(defs, dates, net, called, gs);
    ApplyConcat(defs, cells, ReadAll(defs, dates, net, called, gs[..n]).effects,
                OnEvent(defs, dates, gs[n], EventAt(net, called, n, gs[n])).effects);
  }

  lemma {:induction false} SilentGroup(defs: Definitions, dates: DateRange, g: ReadGroup, ev: Event, cells: Cells, id: string)
    requires id in cells && (ListsTag(g, id) ==> Silent(ev))
    ensures var after := ApplyAll(defs, cells, OnEvent(defs, dates, g, ev).effects); id in after && after[id] == cells[id]
  {
    if ev.Success? {
      IdsOfMembers(g.members, id);
      OthersDoNothing(Modbus, defs, dates, id, g.members, g, DataBytes(g.space, ev.words, ev.bits));
      OnlyOwnEffectsMatter(defs, cells, OnEvent(defs, dates, g, ev).effects, id);
    } else {
      FailedReadMarks(defs, dates, g, ev, cells, id);
    }
  }

  /** A device failure reported under the name `ServerDeviceFailure` is not noticed: the driver looks for `Slave`. */
  lemma {:induction false} ServerDeviceFailureIsSilent()
    ensures !Noticed(Refused("ServerDeviceFailure"))
  {
    var text := "ServerDeviceFailure";
    assert |text| == 19;
    NeverStarts(text, "Slave");
    NeverStarts(text, "Illegal");
    NeverStarts(text, "IllegalDataAddress");
    NeverStarts(text, "Address");
  }

  /** A part whose first two letters never follow each other does not occur. */
  lemma {:induction false} NeverStarts(text: string, part: string)
    requires |part| >= 2
    requires forall i :: 0 <= i < |text| - 1 ==> text[i] != part[0] || text[i + 1] != part[1]
    ensures !Contains(text, part)
  {
    forall i | 0 <= i <= |text| - |part| ensures !OccursAt(text, part, i) {
      assert text[i..i + |part|][0] == text[i] && text[i..i + |part|][1] == text[i + 1];
    }
  }

  // ----- confirmations -----

  /** Write request `req`, called at client state `c`, was answered with success. */
  ghost predicate Acknowledged(ms: seq<Mapping>, net: Network, c: Client, req: WriteRequest)
  {
    var found := FindMapping(ms, req.tagId);
    && found.Some? && found.value.writable && found.value.space == Table(HoldingRegisters)
    && Dialed(c, net).connected
    && net.serves(c.called, WriteCall(found.value, req.value)).Success?
  }

  lemma {:induction false} WriteOneAcknowledged(ms: seq<Mapping>, net: Network, c: Client, req: WriteRequest)
    ensures WriteOne(ms, net, c, req).outcome.Ok? <==> Acknowledged(ms, net, c, req)
    ensures forall id, v :: Publish(id, v) in WriteOne(ms, net, c, req).effects ==>
              Acknowledged(ms, net, c, req) && id == req.tagId && v == req.value
  {
    var found := FindMapping(ms, req.tagId);
    if found.Some? {
      var k :| 0 <= k < |ms| && ms[k] == found.value;
    }
  }

  /** A write is answered with success exactly when its own call succeeded; each request has its own call. */
  lemma {:induction false} ConfirmedByOwnCall(ms: seq<Mapping>, net: Network, c: Client, reqs: seq<WriteRequest>, k: nat)
    requires k < |WriteAll(ms, net, c, reqs).outcomes|
    ensures k < |reqs| && !WriteAll(ms, net, c, reqs[..k]).aborted
    ensures WriteAll(ms, net, c, reqs).outcomes[k].Ok? <==> Acknowledged(ms, net, WriteAll(ms, net, c, reqs[..k]).client, reqs[k])
  {
    var init := reqs[..|reqs| - 1];
    var before := WriteAll(ms, net, c, init);
    if k < |before.outcomes| {
      ConfirmedByOwnCall(ms, net, c, init, k);
      assert init[..k] == reqs[..k] && init[k] == reqs[k];
    } else {
      assert !before.aborted && k == |init|;
      WriteOneAcknowledged(ms, net, before.client, reqs[k]);
    }
  }

  // ----- what changes a value -----

  /** The read of group `k` by its own call of the run succeeded, and its data decode to `v` for mapping `m`. */
  ghost predicate CallGave(defs: Definitions, dates: DateRange, net: Network, called: nat, gs: seq<ReadGroup>, k: nat, m: Mapping, v: TagValue)
  {
    && k < |gs| && !ReadAll(defs, dates, net, called, gs[..k]).aborted && m in gs[k].members
    && var ev := EventAt(net, called, k, gs[k]);
       ev.Success? && DecodedFrom(Modbus, dates, m, gs[k], DataBytes(gs[k].space, ev.words, ev.bits), v)
  }

  ghost predicate SuccessfulRead(defs: Definitions, dates: DateRange, net: Network, called: nat, gs: seq<ReadGroup>, id: string, v: TagValue)
  {
    exists k: nat, m: Mapping :: m.tagId == id && CallGave(defs, dates, net, called, gs, k, m, v)
  }

  /** A value the reads publish was decoded from what the call for its own group brought. */
  lemma {:induction false} PublishedBySuccessfulCall(defs: Definitions, dates: DateRange, net: Network, called: nat, gs: seq<ReadGroup>,
                                                     id: string, v: TagValue)
    requires Publishes(ReadAll(defs, dates, net, called, gs).effects, id, v)
    ensures SuccessfulRead(defs, dates, net, called, gs, id, v)
    decreases |gs|
  {
    if Publishes(ReadAll(defs, dates, net, called, gs[..|gs| - 1]).effects, id, v) {
      PublishedBySuccessfulCall(defs, dates, net, called, gs[..|gs| - 1], id, v);
      EarlierCall(defs, dates, net, called, gs, id, v);
    } else {
      LastCall(defs, dates, net, called, gs, id, v);
    }
  }

  lemma {:induction false} LastCall(defs: Definitions, dates: DateRange, net: Network, called: nat, gs: seq<ReadGroup>, id: string, v: TagValue)
    requires Publishes(ReadAll(defs, dates, net, called, gs).effects, id, v)
    requires gs != [] && !Publishes(ReadAll(defs, dates, net, called, gs[..|gs| - 1]).effects, id, v)
    ensures SuccessfulRead(defs, dates, net, called, gs, id, v)
  {
    var g := gs[|gs| - 1];
    LastPublishes(defs, dates, net, called, gs, id, v);
    var m := EventPublisher(defs, dates, g, EventAt(net, called, |gs| - 1, g), id, v);
    LastGave(defs, dates, net, called, gs, m, v);
  }

  lemma {:induction false} LastPublishes(defs: Definitions, dates: DateRange, net: Network, called: nat, gs: seq<ReadGroup>, id: string, v: TagValue)
    requires Publishes(ReadAll(defs, dates, net, called, gs).effects, id, v)
    requires gs != [] && !Publishes(ReadAll(defs, dates, net, called, gs[..|gs| - 1]).effects, id, v)
    ensures !ReadAll(defs, dates, net, called, gs[..|gs| - 1]).aborted
    ensures Publishes(OnEvent(defs, dates, gs[|gs| - 1], EventAt(net, called, |gs| - 1, gs[|gs| - 1])).effects, id, v)
  {
    var n := |gs| - 1;
    EffectsOfLast(defs, dates, net, called, gs);
    PublishedByEither(ReadAll(defs, dates, net, called, gs[..n]).effects,
                      OnEvent(defs, dates, gs[n], EventAt(net, called, n, gs[n])).effects, id, v);
  }

  lemma {:induction false} EffectsOfLast(defs: Definitions, dates: DateRange, net: Network, called: nat, gs: seq<ReadGroup>)
    requires gs != []
    ensures var n := |gs| - 1;
            var before := ReadAll(defs, dates, net, called, gs[..n]);
            ReadAll(defs, dates, net, called, gs).effects ==
            if before.aborted then before.effects
            else before.effects + OnEvent(defs, dates, gs[n], EventAt(net, called, n, gs[n])).effects
  {
  }

  lemma {:induction false} PublishedByEither(a: seq<Effect>, b: seq<Effect>, id: string, v: TagValue)
    ensures Publishes(a + b, id, v) <==> Publishes(a, id, v) || Publishes(b, id, v)
  {
  }

  lemma {:induction false} LastGave(defs: Definitions, dates: DateRange, net: Network, called: nat, gs: seq<ReadGroup>, m: Mapping, v: TagValue)
    requires gs != [] && m in gs[|gs| - 1].members && !ReadAll(defs, dates, net, called, gs[..|gs| - 1]).aborted
    requires var ev := EventAt(net, called, |gs| - 1, gs[|gs| - 1]);
             ev.Success? && DecodedFrom(Modbus, dates, m, gs[|gs| - 1], DataBytes(gs[|gs| - 1].space, ev.words, ev.bits), v)
    ensures SuccessfulRead(defs, dates, net, called, gs, m.tagId, v)
  {
    assert CallGave(defs, dates, net, called, gs, |gs| - 1, m, v);
  }

  lemma {:induction false} EarlierCall(defs: Definitions, dates: DateRange, net: Network, called: nat, gs: seq<ReadGroup>, id: string, v: TagValue)
    requires gs != [] && SuccessfulRead(defs, dates, net, called, gs[..|gs| - 1], id, v)
    ensures SuccessfulRead(defs, dates, net, called, gs, id, v)
  {
    var init := gs[..|gs| - 1];
    var k: nat, m: Mapping :| m.tagId == id && CallGave(defs, dates, net, called, init, k, m, v);
    assert init[..k] == gs[..k] && init[k] == gs[k];
    assert CallGave(defs, dates, net, called, gs, k, m, v);
  }

  lemma {:induction false} EventPublisher(defs: Definitions, dates: DateRange, g: ReadGroup, ev: Event, id: string, v: TagValue) returns (m: Mapping)
    requires Publishes(OnEvent(defs, dates, g, ev).effects, id, v)
    ensures ev.Success? && m in g.members && m.tagId == id
    ensures DecodedFrom(Modbus, dates, m, g, DataBytes(g.space, ev.words, ev.bits), v)
  {
    MarksPublishNothing(IdsOf(g.members), ConfigError, id, v);
    MarksPublishNothing(IdsOf(g.members), CommLost, id, v);
    m := ChunkPublisher(Modbus, defs, dates, g.members, g, DataBytes(g.space, ev.words, ev.bits), id, v);
  }

  /** Some request wrote `v` to tag `id` and was confirmed. */
  ghost predicate ConfirmedWrite(outcomes: seq<WriteOutcome>, reqs: seq<WriteRequest>, id: string, v: TagValue)
  {
    exists k :: 0 <= k < |outcomes| && k < |reqs| && outcomes[k].Ok? && reqs[k].tagId == id && reqs[k].value == v
  }

  lemma {:induction false} PublishedByConfirmedWrite(ms: seq<Mapping>, net: Network, c: Client, reqs: seq<WriteRequest>, id: string, v: TagValue)
    requires Publishes(WriteAll(ms, net, c, reqs).effects, id, v)
    ensures ConfirmedWrite(WriteAll(ms, net, c, reqs).outcomes, reqs, id, v)
    decreases |reqs|
  {
    var init, n := reqs[..|reqs| - 1], |reqs| - 1;
    var before, after := WriteAll(ms, net, c, init), WriteAll(ms, net, c, reqs);
    if Publishes(before.effects, id, v) {
      PublishedByConfirmedWrite(ms, net, c, init, id, v);
      var k :| 0 <= k < |before.outcomes| && k < |init| && before.outcomes[k].Ok? && init[k].tagId == id && init[k].value == v;
      assert after.outcomes[k] == before.outcomes[k] && reqs[k] == init[k];
    } else {
      WriteOneAcknowledged(ms, net, before.client, reqs[n]);
      assert after.outcomes[n] == WriteOne(ms, net, before.client, reqs[n]).outcome;
    }
  }

  /**
   * Over a whole cycle and any behaviour of the network, a tag's value changes only to that of a write
   * whose own call succeeded, or to what the successful call for one of its own groups decodes to.
   */
  lemma {:induction false} OnlySuccessfulCallsChangeValues(ms: seq<Mapping>, defs: Definitions, dates: DateRange, gs: seq<ReadGroup>,
                                                           net: Network, c: Client,
                                                           reqs: seq<WriteRequest>, cells: Cells, id: string)
    requires id in cells
    ensures var run := Cycle(ms, defs, dates, gs, net, c, reqs);
            var after := ApplyAll(defs, cells, run.effects);
            && id in after
            && (after[id].value == cells[id].value
                || ConfirmedWrite(run.outcomes, reqs, id, after[id].value)
                || SuccessfulRead(defs, dates, net, WriteAll(ms, net, c, reqs).client.called, gs, id, after[id].value))
  {
    var drained, run := WriteAll(ms, net, c, reqs), Cycle(ms, defs, dates, gs, net, c, reqs);
    ValueComesFromPublish(defs, cells, run.effects, id);
    var v := ApplyAll(defs, cells, run.effects)[id].value;
    if Publishes(drained.effects, id, v) {
      PublishedByConfirmedWrite(ms, net, c, reqs, id, v);
    } else if Publishes(run.effects, id, v) {
      assert Publishes(ReadAll(defs, dates, net, drained.client.called, gs).effects, id, v);
      PublishedBySuccessfulCall(defs, dates, net, drained.client.called, gs, id, v);
    }
  }

  // ----- a server that answers from memory -----

  /** From call `n` on, the server's memory is `mem`. */
  ghost predicate ServedFrom(net: Network, n: nat, mem: Memory)
  {
    forall k: nat, op: ModbusFunction, start: Word, quantity: Word :: n <= k ==>
      net.serves(k, Read(op, start, quantity)) ==
      Success(WordsAt(mem, Table(op), start, quantity), CoilsAt(mem, Table(op), start, quantity))
  }

  lemma {:induction false} FaithfulGroup(defs: Definitions, dates: DateRange, net: Network, n: nat, g: ReadGroup, mem: Memory)
    requires Readable(g) && ServedFrom(net, n, mem)
    ensures forall k: nat :: n <= k ==>
              OnEvent(defs, dates, g, net.serves(k, ReadCall(g))) == Answered(AnsweredFrom(Modbus, defs, dates, g, mem), false)
  {
  }

  /** Against a server that answers from memory the reads of a cycle are exactly the reads of that memory. */
  lemma {:induction false} FaithfulReads(defs: Definitions, dates: DateRange, net: Network, called: nat, gs: seq<ReadGroup>, mem: Memory)
    requires AllReadable(gs) && ServedFrom(net, called, mem)
    ensures ReadAll(defs, dates, net, called, gs) == ReadRun(called + |gs|, CycleEffects(Modbus, defs, dates, gs, mem), false)
    decreases |gs|
  {
    if gs != [] {
      var init, g := gs[..|gs| - 1], gs[|gs| - 1];
      FaithfulReads(defs, dates, net, called, init, mem);
      FaithfulGroup(defs, dates, net, called, g, mem);
      LastGroup(gs);
      CycleEffectsConcat(Modbus, defs, dates, init, [g], mem);
      OneGroup(defs, dates, g, mem);
    }
  }

  lemma {:induction false} LastGroup(gs: seq<ReadGroup>)
    requires gs != []
    ensures gs == gs[..|gs| - 1] + [gs[|gs| - 1]]
  {
  }

  lemma {:induction false} OneGroup(defs: Definitions, dates: DateRange, g: ReadGroup, mem: Memory)
    ensures CycleEffects(Modbus, defs, dates, [g], mem) == AnsweredFrom(Modbus, defs, dates, g, mem)
  {
    assert [g][1..] == [];
  }

  /** The reads of a cycle against such a server leave the tags as a reading of its memory. */
  lemma {:induction false} FaithfulPoll(ms: seq<Mapping>, defs: Definitions, dates: DateRange, order: seq<Space>, net: Network, c: Client,
                                        mem: Memory, cells: Cells)
    requires AllReadable(FullPlan(order, ms, 1))
    requires Dialed(c, net).connected && ServedFrom(net, c.called, mem)
    ensures var run := Poll(defs, dates, FullPlan(order, ms, 1), net, c);
            run.completed && ApplyAll(defs, cells, run.effects) == AfterCycle(Modbus, defs, dates, order, ms, 1, mem, cells)
  {
    FaithfulReads(defs, dates, net, c.called, FullPlan(order, ms, 1), mem);
  }

  /** A drain that did not give up, behind which the server answers from `mem`. */
  ghost predicate DrainedOnto(ms: seq<Mapping>, net: Network, c: Client, reqs: seq<WriteRequest>, mem: Memory)
  {
    var drained := WriteAll(ms, net, c, reqs);
    !drained.aborted && Dialed(drained.client, net).connected && ServedFrom(net, drained.client.called, mem)
  }

  /** A whole cycle, with its writes, leaves the tags as a reading of the memory behind the writes. */
  lemma {:induction false} FaithfulCycle(ms: seq<Mapping>, defs: Definitions, dates: DateRange, order: seq<Space>, net: Network, c: Client,
                                         reqs: seq<WriteRequest>,
                                         mem: Memory, cells: Cells)
    requires AllReadable(FullPlan(order, ms, 1)) && DrainedOnto(ms, net, c, reqs, mem)
    ensures var run := Cycle(ms, defs, dates, FullPlan(order, ms, 1), net, c, reqs);
            && run.completed
            && ApplyAll(defs, cells, run.effects) ==
               AfterCycle(Modbus, defs, dates, order, ms, 1, mem, ApplyAll(defs, cells, WriteAll(ms, net, c, reqs).effects))
  {
    var drained := WriteAll(ms, net, c, reqs);
    FaithfulPoll(ms, defs, dates, order, net, drained.client, mem, ApplyAll(defs, cells, drained.effects));
    ApplyConcat(defs, cells, drained.effects, Poll(defs, dates, FullPlan(order, ms, 1), net, drained.client).effects);
  }

  /**
   * The hash map's iteration order does not matter: two cycles with the same queued writes, whose reads
   * all succeed over the same memory, leave the same values and qualities.
   */
  lemma {:induction false} FunctionOrderDoesNotMatter(ms: seq<Mapping>, defs: Definitions, dates: DateRange, a: seq<Space>, b: seq<Space>,
                                                      net: Network, c: Client, reqs: seq<WriteRequest>, mem: Memory, cells: Cells)
    requires Configured(ms, 0xFFFF) && DistinctSpaces(a) && DistinctSpaces(b)
    requires forall i :: 0 <= i < |ms| ==> ms[i].space in a && ms[i].space in b
    requires AllReadable(FullPlan(a, ms, 1)) && AllReadable(FullPlan(b, ms, 1)) && DrainedOnto(ms, net, c, reqs, mem)
    ensures ApplyAll(defs, cells, Cycle(ms, defs, dates, FullPlan(a, ms, 1), net, c, reqs).effects) ==
            ApplyAll(defs, cells, Cycle(ms, defs, dates, FullPlan(b, ms, 1), net, c, reqs).effects)
  {
    FaithfulCycle(ms, defs, dates, a, net, c, reqs, mem, cells);
    FaithfulCycle(ms, defs, dates, b, net, c, reqs, mem, cells);
    ModbusRunsToEnd(defs, dates, a, ms, mem);
    ModbusRunsToEnd(defs, dates, b, ms, mem);
    CycleOrderDoesNotMatter(Modbus, defs, dates, a, b, ms, 1, 0xFFFF, mem, ApplyAll(defs, cells, WriteAll(ms, net, c, reqs).effects));
  }

  /** The server stores the words of every request of the drain and says so. */
  ghost predicate FaithfulDrain(ms: seq<Mapping>, net: Network, c: Client, reqs: seq<WriteRequest>)
  {
    forall k :: 0 <= k < |reqs| && Target(ms, reqs[k]).Some? ==>
      net.serves(WriteAll(ms, net, c, reqs[..k]).client.called, WriteCall(Target(ms, reqs[k]).value, reqs[k].value)).Success?
  }

  /** The request, if it has a target, is acknowledged by its call from client state `c`. */
  ghost predicate ServedAt(ms: seq<Mapping>, net: Network, c: Client, req: WriteRequest)
  {
    Target(ms, req).Some? ==> net.serves(c.called, WriteCall(Target(ms, req).value, req.value)).Success?
  }

  /** Exactly the requests with a target are confirmed, and the connection is there for what follows. */
  ghost predicate CarriedOut(ms: seq<Mapping>, net: Network, run: DrainRun, reqs: seq<WriteRequest>)
  {
    && !run.aborted && Dialed(run.client, net).connected && |run.outcomes| == |reqs|
    && forall k :: 0 <= k < |reqs| ==> (run.outcomes[k].Ok? <==> Target(ms, reqs[k]).Some?)
  }

  /** Against a faithful server no drain gives up, and exactly the requests that have a target are confirmed. */
  lemma {:induction false} DrainIsCarriedOut(ms: seq<Mapping>, net: Network, c: Client, reqs: seq<WriteRequest>)
    requires InTables(ms) && Dialed(c, net).connected && FaithfulDrain(ms, net, c, reqs)
    ensures CarriedOut(ms, net, WriteAll(ms, net, c, reqs), reqs)
    decreases |reqs|
  {
    if reqs != [] {
      var n := |reqs| - 1;
      EarlierDrain(ms, net, c, reqs);
      DrainIsCarriedOut(ms, net, c, reqs[..n]);
      NextIsCarriedOut(ms, net, c, reqs, WriteAll(ms, net, c, reqs[..n]), WriteAll(ms, net, c, reqs));
    } else {
      NothingToCarryOut(ms, net, c);
    }
  }

  lemma {:induction false} NothingToCarryOut(ms: seq<Mapping>, net: Network, c: Client)
    requires Dialed(c, net).connected
    ensures CarriedOut(ms, net, WriteAll(ms, net, c, []), [])
  {
  }

  lemma {:induction false} NextIsCarriedOut(ms: seq<Mapping>, net: Network, c: Client, reqs: seq<WriteRequest>, before: DrainRun, after: DrainRun)
    requires InTables(ms) && reqs != [] && before == WriteAll(ms, net, c, reqs[..|reqs| - 1]) && after == WriteAll(ms, net, c, reqs)
    requires CarriedOut(ms, net, before, reqs[..|reqs| - 1]) && ServedAt(ms, net, before.client, reqs[|reqs| - 1])
    ensures CarriedOut(ms, net, after, reqs)
  {
    LastIsCarriedOut(ms, net, before.client, reqs[|reqs| - 1]);
    OneMoreCarriedOut(ms, net, before, WriteOne(ms, net, before.client, reqs[|reqs| - 1]), reqs);
    LastOnTop(ms, net, c, reqs);
  }

  lemma {:induction false} OneMoreCarriedOut(ms: seq<Mapping>, net: Network, before: DrainRun, step: WriteStep, reqs: seq<WriteRequest>)
    requires reqs != [] && CarriedOut(ms, net, before, reqs[..|reqs| - 1])
    requires !step.aborts && Dialed(step.client, net).connected && (step.outcome.Ok? <==> Target(ms, reqs[|reqs| - 1]).Some?)
    ensures CarriedOut(ms, net, DrainRun(step.client, before.effects + step.effects, before.outcomes + [step.outcome], step.aborts), reqs)
  {
    forall k | 0 <= k < |reqs| ensures (before.outcomes + [step.outcome])[k].Ok? <==> Target(ms, reqs[k]).Some? {
      if k < |reqs| - 1 {
        assert reqs[k] == reqs[..|reqs| - 1][k];
      }
    }
  }

  /** The last request on top of those before, unless the drain has given up. */
  lemma {:induction false} LastOnTop(ms: seq<Mapping>, net: Network, c: Client, reqs: seq<WriteRequest>)
    requires reqs != []
    ensures var before, after := WriteAll(ms, net, c, reqs[..|reqs| - 1]), WriteAll(ms, net, c, reqs);
            var step := WriteOne(ms, net, before.client, reqs[|reqs| - 1]);
            if before.aborted then after == before
            else after == DrainRun(step.client, before.effects + step.effects, before.outcomes + [step.outcome], step.aborts)
  {
  }

  lemma {:induction false} EarlierDrain(ms: seq<Mapping>, net: Network, c: Client, reqs: seq<WriteRequest>)
    requires reqs != [] && FaithfulDrain(ms, net, c, reqs)
    ensures FaithfulDrain(ms, net, c, reqs[..|reqs| - 1])
    ensures ServedAt(ms, net, WriteAll(ms, net, c, reqs[..|reqs| - 1]).client, reqs[|reqs| - 1])
  {
    var init := reqs[..|reqs| - 1];
    forall k | 0 <= k < |init| && Target(ms, init[k]).Some?
      ensures net.serves(WriteAll(ms, net, c, init[..k]).client.called, WriteCall(Target(ms, init[k]).value, init[k].value)).Success?
    {
      assert init[..k] == reqs[..k] && init[k] == reqs[k];
    }
  }

  lemma {:induction false} LastIsCarriedOut(ms: seq<Mapping>, net: Network, c: Client, req: WriteRequest)
    requires InTables(ms) && Dialed(c, net).connected && ServedAt(ms, net, c, req)
    ensures var step := WriteOne(ms, net, c, req);
            !step.aborts && Dialed(step.client, net).connected && (step.outcome.Ok? <==> Target(ms, req).Some?)
  {
    var found := FindMapping(ms, req.tagId);
    if found.Some? {
      InATable(ms, found.value);
    }
  }

  lemma {:induction false} InATable(ms: seq<Mapping>, m: Mapping)
    requires InTables(ms) && m in ms
    ensures m.space.Table? && m.address <= 0xFFFF
  {
  }

  /** A drain acts on the tags its requests name only. */
  lemma {:induction false} UnnamedTagsStay(ms: seq<Mapping>, net: Network, c: Client, reqs: seq<WriteRequest>, id: string)
    requires Unnamed(reqs, id)
    ensures Own(WriteAll(ms, net, c, reqs).effects, id) == []
    decreases |reqs|
  {
    if reqs != [] {
      var n := |reqs| - 1;
      UnnamedTagsStay(ms, net, c, reqs[..n], id);
      var before := WriteAll(ms, net, c, reqs[..n]);
      LastOnTop(ms, net, c, reqs);
      OwnConcat(before.effects, WriteOne(ms, net, before.client, reqs[n]).effects, id);
      StepActsOnNamed(ms, net, before.client, reqs[n], id);
    }
  }

  lemma {:induction false} StepActsOnNamed(ms: seq<Mapping>, net: Network, c: Client, req: WriteRequest, id: string)
    requires req.tagId != id
    ensures Own(WriteOne(ms, net, c, req).effects, id) == []
  {
  }
}
