/** What each call of the Modbus driver leaves behind, and which calls end its cycle, told from the texts received. */
module ModbusOutcomes {
  import opened Words
  import opened TagModel
  import opened Codec
  import opened Mappings
  import opened Planner
  import opened Registries
  import opened CoilPacking
  import opened RoundTrip
  import opened Scatter
  import opened WriteQueues
  import opened ModbusCycles

  // ----- texts -----

  function Joined(left: string, part: string, right: string): string
  {
    left + part + right
  }

  /** The text is some text, then the part, then some text. */
  ghost predicate Has(text: string, part: string)
  {
    exists left, right :: text == Joined(left, part, right)
  }

  ghost predicate Illegal(text: string)
  {
    Has(text, "Illegal") || Has(text, "Address")
  }

  ghost predicate DeviceFails(text: string)
  {
    Has(text, "Slave") && (Has(text, "Failure") || Has(text, "Device") || Has(text, "Unavailable"))
  }

  lemma {:induction false} HasIsContains(text: string, part: string)
    ensures Has(text, part) <==> Contains(text, part)
  {
    if Has(text, part) {
      var left, right :| text == Joined(left, part, right);
      assert OccursAt(text, part, |left|);
    }
    if Contains(text, part) {
      var i :| 0 <= i <= |text| - |part| && OccursAt(text, part, i);
      assert text == Joined(text[..i], part, text[i + |part|..]);
    }
  }

  /** A text with the third of the searched parts has the second. */
  lemma {:induction false} LongPartHasShort(text: string)
    ensures Has(text, "IllegalDataAddress") ==> Has(text, "Address")
  {
    if Has(text, "IllegalDataAddress") {
      var left, right :| text == Joined(left, "IllegalDataAddress", right);
      assert text == Joined(left + "IllegalData", "Address", right);
    }
  }

  lemma {:induction false} TextsMean(text: string)
    ensures IsIllegal(text) <==> Illegal(text)
    ensures IsDeviceFailure(text) <==> DeviceFails(text)
  {
    LongPartHasShort(text);
    HasIsContains(text, "Illegal");
    HasIsContains(text, "Address");
    HasIsContains(text, "IllegalDataAddress");
    HasIsContains(text, "Slave");
    HasIsContains(text, "Failure");
    HasIsContains(text, "Device");
    HasIsContains(text, "Unavailable");
  }

  // ----- reads -----

  /** The text of a failed read is that of an illegal address. */
  ghost predicate IllegalRead(ev: Event)
  {
    match ev
    case Refused(text) => Illegal(text)
    case Broken(text) => Illegal("Transport: " + text)
    case _ => false
  }

  /** No reply in time, or a text that names a failing device, or is that of a timeout, and no illegal address. */
  ghost predicate EndsReads(ev: Event)
  {
    match ev
    case Success(_, _) => false
    case Refused(text) => (text == "Timeout" || DeviceFails(text)) && !Illegal(text)
    case Broken(text) => DeviceFails("Transport: " + text) && !Illegal("Transport: " + text)
    case NoReply => true
  }

  /** What a failed read leaves of the tags its group lists: a configuration error, a lost tag, or all as it was. */
  lemma {:induction false} FailedReadLeaves(defs: Definitions, dates: DateRange, g: ReadGroup, ev: Event, cells: Cells, id: string)
    requires !ev.Success? && id in cells
    ensures var a := OnEvent(defs, dates, g, ev);
            var after := ApplyAll(defs, cells, a.effects);
            && (a.aborts <==> EndsReads(ev))
            && id in after
            && after[id] == if id !in IdsOf(g.members) then cells[id]
                            else if IllegalRead(ev) then Cell(cells[id].value, ConfigError)
                            else if EndsReads(ev) then Cell(cells[id].value, CommLost)
                            else cells[id]
  {
    EventTexts(ev);
    MarksMark(defs, cells, IdsOf(g.members), ConfigError, id);
    MarksMark(defs, cells, IdsOf(g.members), CommLost, id);
  }

  /**
   * What a successful read leaves of the tag of mapping `m`: its own bytes decide, out of the registers, or
   * out of the coils packed into words; a tag the group does not list stays as it was.
   */
  lemma {:induction false} SuccessfulReadLeaves(defs: Definitions, dates: DateRange, g: ReadGroup, m: Mapping, words: seq<Word>, bits: seq<bool>,
                                                cells: Cells)
    requires m.tagId in cells && DistinctIds(g.members) && SoleOwner(m, g.members)
    ensures var a := OnEvent(defs, dates, g, Success(words, bits));
            var data := if g.space in {Table(Coils), Table(DiscreteInputs)} then ToBytes(Packed(bits)) else ToBytes(words);
            var after, own := ApplyAll(defs, cells, a.effects), ApplyAll(defs, cells, ChunkEffect(Modbus, defs, dates, m, g, data));
            && !a.aborts && m.tagId in after && m.tagId in own
            && after[m.tagId] == if m in g.members then own[m.tagId] else cells[m.tagId]
  {
    var data := if g.space in {Table(Coils), Table(DiscreteInputs)} then ToBytes(Packed(bits)) else ToBytes(words);
    assert DataBytes(g.space, words, bits) == data;
    var es := OnEvent(defs, dates, g, Success(words, bits)).effects;
    OwnChunkEffect(Modbus, defs, dates, m, g.members, g, data);
    ChunkEffectIsOwn(Modbus, defs, dates, m, g, data, m.tagId);
    OnlyOwnEffectsMatter(defs, cells, es, m.tagId);
    OnlyOwnEffectsMatter(defs, cells, ChunkEffect(Modbus, defs, dates, m, g, data), m.tagId);
  }

  lemma {:induction false} EventTexts(ev: Event)
    requires !ev.Success?
    ensures IsIllegal(FailureText(ev)) <==> IllegalRead(ev)
    ensures (!IsIllegal(FailureText(ev)) && (IsDeviceFailure(FailureText(ev)) || FailureText(ev) == TIMEOUT)) <==> EndsReads(ev)
  {
    TextsMean(FailureText(ev));
    match ev
    case Broken(text) => assert ("Transport: " + text)[1] == 'r' && "Timeout"[1] == 'i';
    case NoReply => TimeoutIsNotIllegal();
    case _ =>
  }

  lemma {:induction false} TimeoutIsNotIllegal()
    ensures !Illegal("Timeout")
  {
    forall left, right | |left| == 0 ensures "Timeout" != Joined(left, "Illegal", right) && "Timeout" != Joined(left, "Address", right) {
      assert "Timeout"[0] == 'T' && Joined(left, "Illegal", right)[0] == 'I' && Joined(left, "Address", right)[0] == 'A';
    }
  }

  lemma {:induction false} OnlyFailuresAbort(defs: Definitions, dates: DateRange, g: ReadGroup, ev: Event)
    ensures OnEvent(defs, dates, g, ev).aborts <==> EndsReads(ev)
  {
    if !ev.Success? {
      EventTexts(ev);
    }
  }

  /** The first `n` calls of the reads were made, and none before the last ended them. */
  ghost predicate CallsMade(net: Network, called: nat, gs: seq<ReadGroup>, n: nat)
  {
    n <= |gs| && forall k :: 0 <= k < n - 1 ==> !EndsReads(EventAt(net, called, k, gs[k]))
  }

  /** The first `n` calls of the reads were made, and the last of them ended the reads, or nothing did and no group is left. */
  ghost predicate EndsAfter(net: Network, called: nat, gs: seq<ReadGroup>, n: nat, aborted: bool)
  {
    && CallsMade(net, called, gs, n)
    && (aborted <==> n > 0 && EndsReads(EventAt(net, called, n - 1, gs[n - 1])))
    && (!aborted ==> n == |gs|)
  }

  lemma {:induction false} EndedStays(net: Network, called: nat, gs: seq<ReadGroup>, g: ReadGroup, n: nat)
    requires EndsAfter(net, called, gs, n, true)
    ensures EndsAfter(net, called, gs + [g], n, true)
  {
    forall k | 0 <= k < n ensures gs[k] == (gs + [g])[k] {
    }
  }

  lemma {:induction false} NextEnds(net: Network, called: nat, gs: seq<ReadGroup>, g: ReadGroup)
    requires EndsAfter(net, called, gs, |gs|, false)
    ensures EndsAfter(net, called, gs + [g], |gs| + 1, EndsReads(EventAt(net, called, |gs|, g)))
  {
    forall k | 0 <= k < |gs| ensures gs[k] == (gs + [g])[k] && !EndsReads(EventAt(net, called, k, gs[k])) {
      assert k == |gs| - 1 ==> gs[k] == gs[|gs| - 1];
    }
  }

  /**
   * On any network the reads end exactly at the first call that brings no reply, or the text of a failing
   * device or a timeout that is not illegal; without such a call every group is called once.
   */
  lemma {:induction false} ReadsEndExactly(defs: Definitions, dates: DateRange, net: Network, called: nat, gs: seq<ReadGroup>)
    ensures var run := ReadAll(defs, dates, net, called, gs);
            called <= run.called && EndsAfter(net, called, gs, run.called - called, run.aborted)
    decreases |gs|
  {
    if gs != [] {
      var n := |gs| - 1;
      var init, g := gs[..n], gs[n];
      ReadsEndExactly(defs, dates, net, called, init);
      var before := ReadAll(defs, dates, net, called, init);
      OneMoreRead(defs, dates, net, called, init, g);
      if before.aborted {
        EndedStays(net, called, init, g, before.called - called);
      } else {
        NextEnds(net, called, init, g);
      }
      assert gs == init + [g];
    }
  }

  lemma {:induction false} OneMoreRead(defs: Definitions, dates: DateRange, net: Network, called: nat, gs: seq<ReadGroup>, g: ReadGroup)
    ensures var before, after := ReadAll(defs, dates, net, called, gs), ReadAll(defs, dates, net, called, gs + [g]);
            if before.aborted then after == before
            else after.called == called + |gs| + 1 && (after.aborted <==> EndsReads(EventAt(net, called, |gs|, g)))
  {
    ReadNext(defs, dates, net, called, gs, g);
    OnlyFailuresAbort(defs, dates, g, EventAt(net, called, |gs|, g));
  }

  // ----- the whole cycle -----

  /** The client after making sure of a connection. */
  predicate Redialed(c: Client, net: Network, d: Client)
  {
    if c.connected then d == c else d == Client(net.connects(c.dialed), c.dialed + 1, c.called)
  }

  /**
   * A cycle completes exactly if its drain did not end it, there is or comes a connection, and no read
   * ends it; then it has called every group once and kept the connection, else it has none.
   */
  lemma {:induction false} CycleCompletesExactly(ms: seq<Mapping>, defs: Definitions, dates: DateRange, gs: seq<ReadGroup>, net: Network, c: Client,
                                                 reqs: seq<WriteRequest>) returns (d: Client, n: nat)
    ensures var drained, run := WriteAll(ms, net, c, reqs), Cycle(ms, defs, dates, gs, net, c, reqs);
            && run.outcomes == drained.outcomes
            && (drained.aborted ==> !run.completed && run.client == drained.client && run.effects == drained.effects)
            && (!drained.aborted ==>
                  && Redialed(drained.client, net, d)
                  && (!d.connected ==> !run.completed && run.client == d && run.effects == drained.effects)
                  && (d.connected ==>
                        && CallsMade(net, d.called, gs, n)
                        && run.client == Client(run.completed, d.dialed, d.called + n)
                        && (!run.completed <==> n > 0 && EndsReads(EventAt(net, d.called, n - 1, gs[n - 1])))
                        && (run.completed ==> n == |gs|)))
  {
    var drained := WriteAll(ms, net, c, reqs);
    d := Dialed(drained.client, net);
    ReadsEndExactly(defs, dates, net, d.called, gs);
    n := ReadAll(defs, dates, net, d.called, gs).called - d.called;
  }

  // ----- writes -----

  /** How a called write is answered, what it leaves of its tag, and whether it ends the cycle and drops the connection. */
  ghost predicate CallLeaves(ev: Event, outcome: WriteOutcome, ends: bool, before: Cell, after: Cell)
  {
    match ev
    case Success(_, _) => outcome == Ok(()) && !ends
    case Refused(text) =>
      && outcome == Err(Exception(text)) && ends == !Illegal(text)
      && after == Cell(before.value, if Illegal(text) then ConfigError else CommLost)
    case Broken(_) => outcome == Err(TransportFailed) && ends && after == Cell(before.value, CommLost)
    case NoReply => outcome == Err(TimedOut) && ends && after == Cell(before.value, CommLost)
  }

  /** What the request does from client state `c` on: its answer, the client behind it, whether it ends the cycle, and its tag. */
  ghost predicate WriteLeaves(ms: seq<Mapping>, defs: Definitions, net: Network, c: Client, req: WriteRequest,
                              outcome: WriteOutcome, next: Client, ends: bool, before: Cell, after: Cell)
  {
    match FindMapping(ms, req.tagId)
    case None => outcome == Err(UnknownTag) && next == c && !ends && after == before
    case Some(m) =>
      if !m.writable then outcome == Err(NotWritable) && next == c && !ends && after == before
      else if m.space != Table(HoldingRegisters) then
        outcome == Err(UnsupportedFunction) && next == c && !ends && after == Cell(before.value, CommLost)
      else if !c.connected && !net.connects(c.dialed) then
        outcome == Err(ReconnectFailed) && next == Client(false, c.dialed + 1, c.called) && ends && after == Cell(before.value, CommLost)
      else
        var ev := net.serves(c.called, WriteRegisters(m.address % 0x1_0000, Stored(req.value, m.order)));
        && next == Client(!ends, if c.connected then c.dialed else c.dialed + 1, c.called + 1)
        && CallLeaves(ev, outcome, ends, before, after)
        && (ev.Success? ==> after == if req.tagId in defs && req.value.DataType() == defs[req.tagId].dataType then Cell(req.value, Good) else before)
  }

  lemma {:induction false} OneWriteLeaves(ms: seq<Mapping>, defs: Definitions, net: Network, c: Client, req: WriteRequest, cells: Cells)
    requires req.tagId in cells
    ensures var step := WriteOne(ms, net, c, req);
            var after := ApplyAll(defs, cells, step.effects);
            && req.tagId in after
            && WriteLeaves(ms, defs, net, c, req, step.outcome, step.client, step.aborts, cells[req.tagId], after[req.tagId])
            && forall id :: id in cells && id != req.tagId ==> id in after && after[id] == cells[id]
  {
    OneApplied(defs, cells, Mark(req.tagId, CommLost));
    var found := FindMapping(ms, req.tagId);
    if found.Some? {
      var ev := net.serves(c.called, WriteCall(found.value, req.value));
      OneApplied(defs, cells, WriteEffect(req, ev));
      if ev.Refused? {
        TextsMean(ev.text);
      }
    }
  }

  /** The client behind the first `k` requests of a drain, and the tags. */
  function ClientBehind(ms: seq<Mapping>, net: Network, c: Client, reqs: seq<WriteRequest>, k: nat): Client
    requires k <= |reqs|
  {
    WriteAll(ms, net, c, reqs[..k]).client
  }

  function CellsBehind(ms: seq<Mapping>, defs: Definitions, net: Network, c: Client, reqs: seq<WriteRequest>, k: nat, cells: Cells): Cells
    requires k <= |reqs|
  {
    ApplyAll(defs, cells, WriteAll(ms, net, c, reqs[..k]).effects)
  }

  /**
   * Over a whole drain, on any network: every request that is looked at is answered, changes its own tag
   * alone, moves the client, and ends the drain, by what its own call brings; the one that ends it is the last.
   */
  lemma {:induction false} DrainLeaves(ms: seq<Mapping>, defs: Definitions, net: Network, c: Client, reqs: seq<WriteRequest>, k: nat, cells: Cells)
    requires k < |WriteAll(ms, net, c, reqs).outcomes| && reqs[k].tagId in cells
    ensures var run, req := WriteAll(ms, net, c, reqs), reqs[k];
            var before, after := CellsBehind(ms, defs, net, c, reqs, k, cells), CellsBehind(ms, defs, net, c, reqs, k + 1, cells);
            && req.tagId in before && req.tagId in after
            && WriteLeaves(ms, defs, net, ClientBehind(ms, net, c, reqs, k), req, run.outcomes[k], ClientBehind(ms, net, c, reqs, k + 1),
                           run.aborted && k + 1 == |run.outcomes|, before[req.tagId], after[req.tagId])
            && (forall id :: id in before && id != req.tagId ==> id in after && after[id] == before[id])
  {
    var before := WriteAll(ms, net, c, reqs[..k]);
    NotEndedBefore(ms, net, c, reqs, k);
    OnlyOwnEffectsMatter(defs, cells, before.effects, reqs[k].tagId);
    OneWriteLeaves(ms, defs, net, before.client, reqs[k], CellsBehind(ms, defs, net, c, reqs, k, cells));
    assert reqs[..k + 1] == reqs[..k] + [reqs[k]];
    WriteNext(ms, net, c, reqs[..k], reqs[k]);
    ApplyConcat(defs, cells, before.effects, WriteOne(ms, net, before.client, reqs[k]).effects);
  }

  /** A request that is looked at comes behind a drain that has not ended, and ends it exactly if the drain ended there. */
  lemma {:induction false} NotEndedBefore(ms: seq<Mapping>, net: Network, c: Client, reqs: seq<WriteRequest>, k: nat)
    requires k < |WriteAll(ms, net, c, reqs).outcomes|
    ensures var run, before := WriteAll(ms, net, c, reqs), WriteAll(ms, net, c, reqs[..k]);
            var step := WriteOne(ms, net, before.client, reqs[k]);
            && !before.aborted && run.outcomes[k] == step.outcome
            && (step.aborts <==> run.aborted && k + 1 == |run.outcomes|)
    decreases |reqs|
  {
    var init, n := reqs[..|reqs| - 1], |reqs| - 1;
    assert reqs == init + [reqs[n]];
    WriteNext(ms, net, c, init, reqs[n]);
    if k < |WriteAll(ms, net, c, init).outcomes| {
      NotEndedBefore(ms, net, c, init, k);
      assert init[..k] == reqs[..k] && init[k] == reqs[k];
    } else {
      assert reqs[..k] == init;
    }
  }

  /** A drain that was not ended has looked at every request. */
  lemma {:induction false} DrainEndsOrIsWhole(ms: seq<Mapping>, net: Network, c: Client, reqs: seq<WriteRequest>)
    ensures var run := WriteAll(ms, net, c, reqs); !run.aborted ==> |run.outcomes| == |reqs|
  {
  }
}
